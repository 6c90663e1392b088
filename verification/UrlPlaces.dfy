/** Where the values of a parsed query are found again: in the snapshot, in the SAS, or among the
    unparsed parameters (azfile/parsing_urls.go, azfile/zc_sas_query_params.go). */
module UrlPlaces {
  import opened Text
  import opened Query
  import opened SasParams
  import opened FileUrl
  import opened UrlRoundTrip

  /** One value of a query: the one at `index` of those under `key`. */
  datatype Item = Item(key: Text, index: nat)

  predicate IsItem(values: Values, o: Item) {
    o.key in values && o.index < |values[o.key]|
  }

  function ValueOf(values: Values, o: Item): Text
    requires IsItem(values, o)
  {
    values[o.key][o.index]
  }

  /** The snapshot is this very value. An empty one is none: nothing is printed for it. */
  predicate InSnapshot(values: Values, t: QueryParts, o: Item)
    requires IsItem(values, o)
  {
    NamesSnapshot(o.key) && ValueOf(values, o) != "" && t.shareSnapshot == ValueOf(values, o)
  }

  /** The field named prints as this very value, which is not empty. */
  ghost predicate InSas(values: Values, t: QueryParts, o: Item)
    requires IsItem(values, o) && ValidParams(t.sas)
  {
    match KeyOf(Lower(o.key))
    case None => false
    case Some(k) => ValueOf(values, o) != "" && FieldText(t.sas, k) == ValueOf(values, o)
  }

  ghost predicate InUnparsed(values: Values, t: QueryParts, o: Item)
    requires IsItem(values, o)
  {
    var u := ParseValues(t.unparsedParams);
    IsItem(u, o) && ValueOf(u, o) == ValueOf(values, o)
  }

  function Count(b: bool): nat {
    if b then 1 else 0
  }

  ghost function Places(values: Values, t: QueryParts, o: Item): nat
    requires IsItem(values, o) && ValidParams(t.sas)
  {
    Count(InSnapshot(values, t, o)) + Count(InSas(values, t, o)) + Count(InUnparsed(values, t, o))
  }

  /** Two values for the one place the snapshot, or a field of the SAS, has. */
  ghost predicate Crowded(values: Values, t: QueryParts, o: Item, o': Item)
    requires IsItem(values, o) && IsItem(values, o') && ValidParams(t.sas)
  {
    && o != o'
    && ((InSnapshot(values, t, o) && InSnapshot(values, t, o'))
        || (InSas(values, t, o) && InSas(values, t, o') && KeyOf(Lower(o.key)) == KeyOf(Lower(o'.key))))
  }

  /** Every value of the query is found in exactly one part, and nothing else has its place there. */
  ghost predicate AllLand(values: Values, t: QueryParts) {
    && ValidParams(t.sas)
    && (forall o :: IsItem(values, o) ==> Places(values, t, o) == 1)
    && forall o, o' :: IsItem(values, o) && IsItem(values, o') ==> !Crowded(values, t, o, o')
  }

  /** Something is printed after reading the value, and it is the value. */
  ghost predicate Verbatim(k: Key, value: Text) {
    value != "" && ValidParams(SetField(EMPTY, k, value)) && FieldText(SetField(EMPTY, k, value), k) == value
  }

  /** The lower-case name is the only one, with one value that is not empty; or it is missing, and
      what other spellings there are begin with an empty value. */
  ghost predicate OneSnapshotValue(values: Values)
    requires NoEmptyLists(values)
  {
    if SHARE_SNAPSHOT in values then
      && |values[SHARE_SNAPSHOT]| == 1 && values[SHARE_SNAPSHOT][0] != ""
      && forall x :: x in values && NamesSnapshot(x) ==> x == SHARE_SNAPSHOT
    else forall x :: x in values && NamesSnapshot(x) ==> values[x][0] == ""
  }

  ghost predicate OneSasValue(values: Values, x: Text, k: Key)
    requires x in values && values[x] != []
  {
    |values[x]| == 1 && Verbatim(k, values[x][0]) && forall y :: y in values && KeyOf(Lower(y)) == Some(k) ==> y == x
  }

  /** One value at most for the snapshot; every SAS parameter under one spelling, once, and with a
      value that prints as it reads. */
  ghost predicate OnePlaceEach(values: Values)
    requires NoEmptyLists(values)
  {
    && OneSnapshotValue(values)
    && forall x, k :: x in values && KeyOf(Lower(x)) == Some(k) ==> OneSasValue(values, x, k)
  }

  // ----- One place each is enough -----

  lemma SameText(p: SasQueryParameters, q: SasQueryParameters, k: Key)
    requires ValidParams(p) && ValidParams(q) && Same(p, q, k)
    ensures FieldText(p, k) == FieldText(q, k)
  {
  }

  lemma ReadingIsValid(values: Values, t: QueryParts)
    requires NoEmptyLists(values) && QueryRead(values, t)
    ensures ValidParams(t.sas)
  {
    hide NamesSnapshot, Reads, SnapshotRead, Encode, ParseValues, ValidParams;
    assert NoEmptyLists(AfterSnapshot(values));
    ReadsAreValid(AfterSnapshot(values), t.sas);
  }

  /** A field that only one name could fill prints as the value under that name reads. */
  lemma OnlyReading(values: Values, t: QueryParts, x: Text, k: Key)
    requires NoEmptyLists(values) && QueryRead(values, t) && ValidParams(t.sas)
    requires x in values && KeyOf(Lower(x)) == Some(k)
    requires forall y :: y in values && KeyOf(Lower(y)) == Some(k) ==> y == x
    ensures ValidParams(SetField(EMPTY, k, values[x][0]))
    ensures FieldText(t.sas, k) == FieldText(SetField(EMPTY, k, values[x][0]), k)
  {
    NamesApart(x);
    NamesApart(SHARE_SNAPSHOT);
    SetIsValid(k, values[x][0]);
    hide NamesSnapshot, KeyOf, Lower, SetField, Encode, SnapshotRead, ParseValues, ValidParams, Same, FieldText;
    var after := AfterSnapshot(values);
    assert NoEmptyLists(after) && x in after && after[x] == values[x];
    assert FieldRead(after, after.Keys, t.sas, k);
    SameText(t.sas, SetField(EMPTY, k, values[x][0]), k);
  }

  lemma SetIsValid(k: Key, value: Text)
    ensures ValidParams(SetField(EMPTY, k, value))
  {
    hide SasFormats.ParseSasTime, SasFormats.ParseIpRange;
    SasFormats.ParsedSasTimeIsValid(value);
    SasFormats.ParsedIpRangeIsValid(value);
  }

  lemma UnparsedPlace(values: Values, t: QueryParts, o: Item)
    requires NoEmptyLists(values) && QueryRead(values, t) && IsItem(values, o)
    ensures InUnparsed(values, t, o) <==> o.key != SHARE_SNAPSHOT && !IsSasKey(o.key)
  {
    LeftBehind(values, t, o.key);
    hide QueryRead, ParseValues, IsSasKey;
  }

  /** The snapshot can only be the one value there is, or none. */
  lemma OnlySnapshot(values: Values, t: QueryParts)
    requires NoEmptyLists(values) && QueryRead(values, t) && OneSnapshotValue(values)
    ensures t.shareSnapshot == if SHARE_SNAPSHOT in values then values[SHARE_SNAPSHOT][0] else ""
  {
    NamesApart(SHARE_SNAPSHOT);
    hide NamesSnapshot, Reads, Encode;
  }

  lemma SnapshotFound(values: Values, t: QueryParts, o: Item)
    requires NoEmptyLists(values) && OneSnapshotValue(values) && QueryRead(values, t)
    requires IsItem(values, o) && o.key == SHARE_SNAPSHOT
    ensures InSnapshot(values, t, o)
  {
    OnlySnapshot(values, t);
    hide NamesSnapshot, QueryRead;
  }

  lemma SnapshotLands(values: Values, t: QueryParts, o: Item)
    requires NoEmptyLists(values) && OneSnapshotValue(values) && QueryRead(values, t) && ValidParams(t.sas)
    requires IsItem(values, o) && o.key == SHARE_SNAPSHOT
    ensures Places(values, t, o) == 1
  {
    NamesApart(SHARE_SNAPSHOT);
    UnparsedPlace(values, t, o);
    SnapshotFound(values, t, o);
    hide NamesSnapshot, QueryRead, InUnparsed, InSnapshot, OneSnapshotValue, ValidParams, FieldText, KeyOf, Lower;
  }

  lemma SasFound(values: Values, t: QueryParts, o: Item, k: Key)
    requires NoEmptyLists(values) && QueryRead(values, t) && ValidParams(t.sas) && IsItem(values, o)
    requires KeyOf(Lower(o.key)) == Some(k) && OneSasValue(values, o.key, k)
    ensures InSas(values, t, o)
  {
    hide NamesSnapshot, QueryRead, ValidParams, FieldText, KeyOf, Lower, SetField;
    OnlyReading(values, t, o.key, k);
    assert o.index == 0;
  }

  lemma SasLands(values: Values, t: QueryParts, o: Item, k: Key)
    requires NoEmptyLists(values) && QueryRead(values, t) && ValidParams(t.sas) && IsItem(values, o)
    requires KeyOf(Lower(o.key)) == Some(k) && OneSasValue(values, o.key, k)
    ensures Places(values, t, o) == 1
  {
    hide NamesSnapshot, QueryRead, InUnparsed, InSas, ValidParams, KeyOf, Lower, OneSasValue;
    SasFound(values, t, o, k);
    NamesApart(o.key);
    UnparsedPlace(values, t, o);
  }

  lemma OtherLands(values: Values, t: QueryParts, o: Item)
    requires NoEmptyLists(values) && OneSnapshotValue(values) && QueryRead(values, t) && ValidParams(t.sas)
    requires IsItem(values, o) && o.key != SHARE_SNAPSHOT && !IsSasKey(o.key)
    ensures Places(values, t, o) == 1
  {
    UnparsedPlace(values, t, o);
    OnlySnapshot(values, t);
    hide NamesSnapshot, QueryRead, InUnparsed, ValidParams, FieldText, KeyOf, Lower;
  }

  lemma ItemLands(values: Values, t: QueryParts, o: Item)
    requires NoEmptyLists(values) && OnePlaceEach(values) && QueryRead(values, t) && ValidParams(t.sas) &&
             IsItem(values, o)
    ensures Places(values, t, o) == 1
  {
    hide NamesSnapshot, QueryRead, ValidParams, Places, KeyOf, Lower, OneSasValue;
    if o.key == SHARE_SNAPSHOT {
      SnapshotLands(values, t, o);
    } else if IsSasKey(o.key) {
      SasLands(values, t, o, KeyOf(Lower(o.key)).value);
    } else {
      OtherLands(values, t, o);
    }
  }

  lemma NothingCrowded(values: Values, t: QueryParts, o: Item, o': Item)
    requires NoEmptyLists(values) && OnePlaceEach(values) && QueryRead(values, t) && ValidParams(t.sas)
    requires IsItem(values, o) && IsItem(values, o')
    ensures !Crowded(values, t, o, o')
  {
    OnlySnapshot(values, t);
    hide QueryRead, NamesSnapshot, ValidParams, FieldText, Lower, Verbatim;
    var k := KeyOf(Lower(o.key));
    if k.Some? {
      assert OneSasValue(values, o.key, k.value);
    }
  }

  lemma OnePlaceIsEnough(values: Values, t: QueryParts)
    requires NoEmptyLists(values) && OnePlaceEach(values) && QueryRead(values, t)
    ensures AllLand(values, t)
  {
    ReadingIsValid(values, t);
    hide QueryRead, OnePlaceEach, Places, Crowded, ValidParams;
    forall o | IsItem(values, o)
      ensures Places(values, t, o) == 1
    {
      ItemLands(values, t, o);
    }
    forall o, o' | IsItem(values, o) && IsItem(values, o')
      ensures !Crowded(values, t, o, o')
    {
      NothingCrowded(values, t, o, o');
    }
  }

  // ----- And needed -----

  /** A snapshot in another spelling can be read, and is left behind as well. */
  lemma OtherSpellingLandsTwice(values: Values, x: Text) returns (t: QueryParts)
    requires NoEmptyLists(values) && x in values && NamesSnapshot(x) && x != SHARE_SNAPSHOT && values[x][0] != ""
    ensures QueryRead(values, t) && !AllLand(values, t)
  {
    t := ReadingWith(values, x);
    ReadingIsValid(values, t);
    var o := Item(x, 0);
    NamesApart(x);
    UnparsedPlace(values, t, o);
    hide NamesSnapshot, QueryRead, InUnparsed, ValidParams, InSas;
    assert IsItem(values, o) && Places(values, t, o) >= 2;
  }

  /** A value under the lower-case snapshot name, or a SAS name, is nowhere if it is not read. */
  lemma UnreadIsNowhere(values: Values, t: QueryParts, o: Item)
    requires NoEmptyLists(values) && QueryRead(values, t) && ValidParams(t.sas) && IsItem(values, o)
    requires o.key == SHARE_SNAPSHOT || IsSasKey(o.key)
    requires !InSnapshot(values, t, o) && !InSas(values, t, o)
    ensures Places(values, t, o) == 0
  {
    UnparsedPlace(values, t, o);
    hide NamesSnapshot, QueryRead, InUnparsed, InSas, InSnapshot, ValidParams, KeyOf, Lower;
  }

  /** The lower-case name beside another spelling that begins with nothing can be overlooked. */
  lemma EmptySpellingHides(values: Values, x: Text) returns (t: QueryParts)
    requires NoEmptyLists(values) && x in values && NamesSnapshot(x) && values[x][0] == "" && SHARE_SNAPSHOT in values
    ensures QueryRead(values, t) && !AllLand(values, t)
  {
    t := ReadingWith(values, x);
    ReadingIsValid(values, t);
    NamesApart(SHARE_SNAPSHOT);
    var o := Item(SHARE_SNAPSHOT, 0);
    assert IsItem(values, o) && !InSnapshot(values, t, o);
    hide QueryRead, ValidParams, FieldText;
    UnreadIsNowhere(values, t, o);
    assert Places(values, t, o) != 1;
  }

  /** Two values for the snapshot, or for a field of the SAS, do not both fit. */
  /** A value under the lower-case snapshot or a SAS name can only be found in that part. */
  lemma OnlyPlace(values: Values, t: QueryParts, o: Item)
    requires NoEmptyLists(values) && QueryRead(values, t) && IsItem(values, o) && ValidParams(t.sas)
    requires Places(values, t, o) == 1
    ensures o.key == SHARE_SNAPSHOT ==> InSnapshot(values, t, o)
    ensures IsSasKey(o.key) ==> InSas(values, t, o)
  {
    UnparsedPlace(values, t, o);
    NamesApart(o.key);
    hide NamesSnapshot, QueryRead, InUnparsed, ValidParams, KeyOf, Lower, FieldText;
  }

  lemma TwoDoNotFit(values: Values, t: QueryParts, o: Item, o': Item)
    requires NoEmptyLists(values) && QueryRead(values, t) && IsItem(values, o) && IsItem(values, o') && o != o'
    requires (o.key == SHARE_SNAPSHOT && o'.key == SHARE_SNAPSHOT)
             || (IsSasKey(o.key) && KeyOf(Lower(o.key)) == KeyOf(Lower(o'.key)))
    ensures !AllLand(values, t)
  {
    hide QueryRead, InSnapshot, InSas, Places, ValidParams, KeyOf, Lower;
    if ValidParams(t.sas) && Places(values, t, o) == 1 && Places(values, t, o') == 1 {
      OnlyPlace(values, t, o);
      OnlyPlace(values, t, o');
      assert Crowded(values, t, o, o');
    }
  }

  /** A value that does not print as it reads is not found in the SAS. */
  lemma OnlyVerbatimFits(values: Values, t: QueryParts, x: Text, k: Key)
    requires NoEmptyLists(values) && QueryRead(values, t) && AllLand(values, t)
    requires x in values && KeyOf(Lower(x)) == Some(k)
    requires forall y :: y in values && KeyOf(Lower(y)) == Some(k) ==> y == x
    ensures Verbatim(k, values[x][0])
  {
    var o := Item(x, 0);
    UnparsedPlace(values, t, o);
    NamesApart(x);
    OnlyReading(values, t, x, k);
    hide NamesSnapshot, QueryRead, InUnparsed, ValidParams, Lower, FieldText, SetField;
    assert IsItem(values, o) && Places(values, t, o) == 1;
  }

  lemma SasIsNeeded(values: Values, t: QueryParts, x: Text, k: Key)
    requires NoEmptyLists(values) && QueryRead(values, t) && AllLand(values, t)
    requires x in values && KeyOf(Lower(x)) == Some(k)
    ensures OneSasValue(values, x, k)
  {
    hide NamesSnapshot, QueryRead, AllLand, Verbatim, KeyOf, Lower;
    if |values[x]| > 1 {
      TwoDoNotFit(values, t, Item(x, 0), Item(x, 1));
    }
    forall y | y in values && KeyOf(Lower(y)) == Some(k)
      ensures y == x
    {
      if y != x {
        TwoDoNotFit(values, t, Item(x, 0), Item(y, 0));
      }
    }
    OnlyVerbatimFits(values, t, x, k);
  }

  lemma SnapshotIsNeeded(values: Values, x: Text)
    requires NoEmptyLists(values) && x in values && NamesSnapshot(x)
    requires forall t :: QueryRead(values, t) ==> AllLand(values, t)
    ensures SHARE_SNAPSHOT in values ==> x == SHARE_SNAPSHOT && |values[x]| == 1 && values[x][0] != ""
    ensures SHARE_SNAPSHOT !in values ==> values[x][0] == ""
  {
    hide NamesSnapshot, QueryRead, AllLand;
    if x != SHARE_SNAPSHOT && values[x][0] != "" {
      var t := OtherSpellingLandsTwice(values, x);
    } else if SHARE_SNAPSHOT in values && values[x][0] == "" {
      var t := EmptySpellingHides(values, x);
    } else if x == SHARE_SNAPSHOT && |values[x]| > 1 {
      var t := SomeReading(values);
      TwoDoNotFit(values, t, Item(x, 0), Item(x, 1));
    }
  }

  /** In every reading of a query every value is found in exactly one of the three parts, if and only
      if there is one value at most for the snapshot, and every SAS parameter comes once, in one
      spelling and with a value that prints as it reads. */
  lemma EveryValueLands(values: Values)
    requires NoEmptyLists(values)
    ensures (forall t :: QueryRead(values, t) ==> AllLand(values, t)) <==> OnePlaceEach(values)
  {
    hide QueryRead, AllLand, NamesSnapshot, KeyOf, Lower, OneSasValue;
    if OnePlaceEach(values) {
      forall t | QueryRead(values, t)
        ensures AllLand(values, t)
      {
        OnePlaceIsEnough(values, t);
      }
    }
    if forall t :: QueryRead(values, t) ==> AllLand(values, t) {
      var t := SomeReading(values);
      NamesApart(SHARE_SNAPSHOT);
      forall x | x in values && NamesSnapshot(x)
        ensures SHARE_SNAPSHOT in values ==> x == SHARE_SNAPSHOT && |values[x]| == 1 && values[x][0] != ""
        ensures SHARE_SNAPSHOT !in values ==> values[x][0] == ""
      {
        SnapshotIsNeeded(values, x);
      }
      forall x, k | x in values && KeyOf(Lower(x)) == Some(k)
        ensures OneSasValue(values, x, k)
      {
        SasIsNeeded(values, t, x, k);
      }
    }
  }

  // ----- A value that is lost -----

  const BOTH: Text := (SHARE_SNAPSHOT + EQUALS + OLD) + AMP + (MIXED + EQUALS + NEW)

  lemma RawPair(name: Text, value: Text)
    requires Clean(name) && '=' !in name && Clean(value)
    ensures ParsePairs(name + EQUALS + value) == [Pair(name, value)]
  {
    RawSurvives(name);
    RawSurvives(value);
    hide Unescape;
    RawSegment(name, value);
    hide ParsePair;
    ParseOneSegment(name + EQUALS + value);
  }

  lemma Spellings()
    ensures NamesSnapshot(MIXED) && MIXED != SHARE_SNAPSHOT && OLD != NEW
    ensures Clean(MIXED) && '=' !in MIXED && Clean(OLD) && Clean(NEW)
  {
    assert MIXED[0] != SHARE_SNAPSHOT[0] && OLD[0] != NEW[0];
  }

  lemma TwoPairs(p: Pair, q: Pair)
    requires p.key != q.key
    ensures FromPairs([p] + [q]) == map[p.key := [p.value], q.key := [q.value]]
  {
    assert PairsOf(p.key, [p.value]) == [p] && PairsOf(q.key, [q.value]) == [q];
    hide PairsOf;
    forall x
      ensures ValuesFor([p] + [q], x) == if x == p.key then [p.value] else if x == q.key then [q.value] else []
    {
      ValuesForAppend([p], [q], x);
      ValuesForPairsOf(p.key, [p.value], x);
      ValuesForPairsOf(q.key, [q.value], x);
      assert [p.value] + [] == [p.value] && [] + [q.value] == [q.value];
    }
    hide ValuesFor;
    assert Keys([p] + [q]) == {p.key, q.key};
  }

  lemma BothValues()
    ensures ParseValues(BOTH) == map[SHARE_SNAPSHOT := [OLD], MIXED := [NEW]]
  {
    Spellings();
    SnapshotName();
    RawPair(SHARE_SNAPSHOT, OLD);
    RawPair(MIXED, NEW);
    hide ParsePairs, Clean, NamesSnapshot, FromPairs, Unescape;
    ParseAppend(SHARE_SNAPSHOT + EQUALS + OLD, MIXED + EQUALS + NEW);
    var p, q := Pair(SHARE_SNAPSHOT, OLD), Pair(MIXED, NEW);
    TwoPairs(p, q);
  }

  lemma LostIn(values: Values) returns (t: QueryParts)
    requires values == map[SHARE_SNAPSHOT := [OLD], MIXED := [NEW]]
    ensures NoEmptyLists(values) && QueryRead(values, t) && t.shareSnapshot == NEW && ValidParams(t.sas)
    ensures var o := Item(SHARE_SNAPSHOT, 0);
            IsItem(values, o) && ValueOf(values, o) == OLD && Places(values, t, o) == 0
  {
    Spellings();
    NamesApart(SHARE_SNAPSHOT);
    hide QueryRead, NamesSnapshot, InUnparsed, FieldText, ValidParams, Lower, KeyOf, Clean;
    t := ReadingWith(values, MIXED);
    ReadingIsValid(values, t);
    UnparsedPlace(values, t, Item(SHARE_SNAPSHOT, 0));
  }

  /** ?sharesnapshot=a&ShareSnapshot=b can be read so that a is nowhere. */
  lemma SnapshotValueLost() returns (t: QueryParts)
    ensures QueryRead(ParseValues(BOTH), t) && t.shareSnapshot == NEW && ValidParams(t.sas)
    ensures var o := Item(SHARE_SNAPSHOT, 0);
            && IsItem(ParseValues(BOTH), o) && ValueOf(ParseValues(BOTH), o) == OLD
            && Places(ParseValues(BOTH), t, o) == 0
  {
    hide ParseValues, QueryRead, ValidParams, Places;
    BothValues();
    t := LostIn(ParseValues(BOTH));
  }

  const SIG: Text := "sig"

  lemma SigIsKey()
    ensures KeyOf(Lower(SIG)) == Some(Sig) && Clean(SIG) && '=' !in SIG
  {
    NamesAndKeys(Sig, SIG);
  }

  lemma SigValues()
    ensures ParseValues(SIG + EQUALS + "") == map[SIG := [""]]
  {
    SigIsKey();
    RawPair(SIG, "");
    hide ParsePairs, Clean, KeyOf;
    var p := Pair(SIG, "");
    assert PairsOf(SIG, [""]) == [p];
    ValuesForPairsOf(SIG, [""], SIG);
    assert Keys([p]) == {SIG};
  }

  /** In ?sig= the one parameter is nowhere, however it is read. */
  lemma EmptyValueLost(t: QueryParts)
    requires QueryRead(ParseValues(SIG + EQUALS + ""), t)
    ensures var o := Item(SIG, 0);
            && IsItem(ParseValues(SIG + EQUALS + ""), o) && ValidParams(t.sas)
            && Places(ParseValues(SIG + EQUALS + ""), t, o) == 0
  {
    hide ParseValues, QueryRead, ValidParams, FieldText, Lower, KeyOf, NamesSnapshot;
    SigValues();
    SigIsKey();
    var values := ParseValues(SIG + EQUALS + "");
    ReadingIsValid(values, t);
    UnreadIsNowhere(values, t, Item(SIG, 0));
  }
}
