/** A URL taken apart and put together again: when its query still has the same parameters
    (azfile/parsing_urls.go). */
module UrlRebuilt {
  import opened Text
  import opened Query
  import opened SasParams
  import opened FileUrl
  import opened UrlRoundTrip
  import opened UrlRestored
  import opened UrlPlaces

  /** What is put together from the parts has the parameters of the query they were read from. */
  ghost predicate Rebuilt(values: Values, t: QueryParts) {
    ValidParams(t.sas) && ParseValues(RawQuery(t)) == values
  }

  /** What the SAS prints under the name x of the field k. */
  ghost function PrintedUnder(x: Text, k: Key, p: SasQueryParameters): seq<Text>
    requires ValidParams(p)
  {
    if x == Name(k) && FieldText(p, k) != "" then [FieldText(p, k)] else []
  }

  /** The same, after the field was read from this value. */
  ghost function ReadAndPrinted(x: Text, k: Key, value: Text): seq<Text> {
    SetIsValid(k, value);
    PrintedUnder(x, k, SetField(EMPTY, k, value))
  }

  /** The values of the name x are what it gets when the snapshot s is printed raw: from the snapshot,
      and, if it is a SAS parameter, from the field, whichever spelling that was read from. */
  ghost predicate NameFits(values: Values, s: Text, x: Text)
    requires NoEmptyLists(values)
  {
    match KeyOf(Lower(x))
    case None => ListOf(Echo(s), x) == if x == SHARE_SNAPSHOT then ListOf(values, x) else []
    case Some(k) =>
      && (forall y :: y in values && KeyOf(Lower(y)) == Some(k) ==>
            ListOf(values, x) == ListOf(Echo(s), x) + ReadAndPrinted(x, k, values[y][0]))
      && (x in Echo(s) ==> x in values)
  }

  /** Every name fits, whichever spelling the snapshot is read from. */
  ghost predicate AllFit(values: Values)
    requires NoEmptyLists(values)
  {
    forall s, x :: SnapshotRead(values, s) ==> NameFits(values, s, x)
  }

  // ----- One reading, name by name -----

  ghost predicate ListFits(values: Values, t: QueryParts, x: Text)
    requires ValidParams(t.sas)
  {
    match KeyOf(Lower(x))
    case None => ListOf(Echo(t.shareSnapshot), x) == if x == SHARE_SNAPSHOT then ListOf(values, x) else []
    case Some(k) => ListOf(values, x) == ListOf(Echo(t.shareSnapshot), x) + PrintedUnder(x, k, t.sas)
  }

  lemma SasList(p: SasQueryParameters, x: Text)
    requires ValidParams(p)
    ensures ListOf(ToValues(p), x) ==
            match KeyOf(Lower(x)) case None => [] case Some(k) => PrintedUnder(x, k, p)
  {
    ToValuesAt(p, Sv);
    if x in ToValues(p) {
      NamesAndKeys(KeyOf(Lower(x)).value, x);
    }
    hide ToValues, FieldText;
    if IsSasKey(x) {
      ToValuesAt(p, KeyOf(Lower(x)).value);
    }
  }

  lemma ListMeans(values: Values, t: QueryParts, x: Text)
    requires NoEmptyLists(values) && QueryRead(values, t) && ValidParams(t.sas)
    ensures ListOf(ParseValues(RawQuery(t)), x) == ListOf(values, x) <==> ListFits(values, t, x)
  {
    LeftBehind(values, t, x);
    NamesApart(SHARE_SNAPSHOT);
    PrintedLists(t, x);
    SasList(t.sas, x);
    hide QueryRead, ParseValues, RawQuery, ToValues, Echo, KeyOf, Lower, ValidParams, PrintedUnder, NamesSnapshot;
    var u := ParseValues(t.unparsedParams);
    assert ListOf(u, x) == if x != SHARE_SNAPSHOT && !IsSasKey(x) then ListOf(values, x) else [];
    ThreeLists(ListOf(values, x), ListOf(u, x), ListOf(Echo(t.shareSnapshot), x), ListOf(ToValues(t.sas), x));
    hide ListOf;
  }

  lemma ThreeLists(l: seq<Text>, u: seq<Text>, e: seq<Text>, p: seq<Text>)
    ensures u == [] ==> (u + e + p == l <==> l == e + p)
    ensures p == [] ==> u + e + p == u + e && e + p == e
    ensures u == l && p == [] ==> (u + e + p == l <==> e == [])
  {
    assert u == [] ==> u + e + p == e + p;
    assert u + e == l && u == l ==> |e| == 0;
  }

  lemma SameLists(a: Values, b: Values)
    requires NoEmptyLists(a) && NoEmptyLists(b)
    ensures a == b <==> forall x :: ListOf(a, x) == ListOf(b, x)
  {
    if forall x :: ListOf(a, x) == ListOf(b, x) {
      forall x
        ensures x in a <==> x in b
        ensures x in a && x in b ==> a[x] == b[x]
      {
        assert ListOf(a, x) == ListOf(b, x);
      }
      assert a.Keys == b.Keys;
    }
  }

  lemma RebuiltMeans(values: Values, t: QueryParts)
    requires NoEmptyLists(values) && QueryRead(values, t) && ValidParams(t.sas)
    ensures Rebuilt(values, t) <==> forall x :: ListFits(values, t, x)
  {
    hide QueryRead, ParseValues, RawQuery, ValidParams, ListFits, ListOf;
    SameLists(ParseValues(RawQuery(t)), values);
    forall x
      ensures ListOf(ParseValues(RawQuery(t)), x) == ListOf(values, x) <==> ListFits(values, t, x)
    {
      ListMeans(values, t, x);
    }
  }

  // ----- Every reading -----

  /** Some spelling of the field's name is what it was read from; without one it prints nothing. */
  lemma FieldFrom(values: Values, t: QueryParts, k: Key) returns (y: Text)
    requires NoEmptyLists(values) && QueryRead(values, t) && ValidParams(t.sas)
    ensures if exists z :: z in values && KeyOf(Lower(z)) == Some(k) then
              && y in values && KeyOf(Lower(y)) == Some(k)
              && ValidParams(SetField(EMPTY, k, values[y][0]))
              && FieldText(t.sas, k) == FieldText(SetField(EMPTY, k, values[y][0]), k)
            else FieldText(t.sas, k) == []
  {
    hide NamesSnapshot, KeyOf, Lower, Encode, SnapshotRead, ParseValues, ValidParams, SetField, Same, FieldText;
    var after := AfterSnapshot(values);
    NamesApart(SHARE_SNAPSHOT);
    assert NoEmptyLists(after);
    assert FieldRead(after, after.Keys, t.sas, k);
    if z :| z in values && KeyOf(Lower(z)) == Some(k) {
      assert z in after;
      y :| y in after && KeyOf(Lower(y)) == Some(k) && Same(t.sas, SetField(EMPTY, k, after[y][0]), k);
      SetIsValid(k, values[y][0]);
      SameText(t.sas, SetField(EMPTY, k, values[y][0]), k);
    } else {
      y := "";
      EmptyIsValid(k);
      SameText(t.sas, EMPTY, k);
    }
  }

  lemma EmptyIsValid(k: Key)
    ensures ValidParams(EMPTY) && FieldText(EMPTY, k) == []
  {
  }

  lemma ReadingFits(values: Values, t: QueryParts, x: Text)
    requires NoEmptyLists(values) && QueryRead(values, t) && ValidParams(t.sas)
    requires NameFits(values, t.shareSnapshot, x)
    ensures ListFits(values, t, x)
  {
    hide QueryRead, ValidParams, KeyOf, Lower, Echo, SetField, FieldText;
    if IsSasKey(x) {
      var k := KeyOf(Lower(x)).value;
      var y := FieldFrom(values, t, k);
    }
  }

  /** The snapshot and a field of the SAS are read independently of each other. */
  lemma ReadingOf(values: Values, s: Text, y: Text) returns (t: QueryParts)
    requires NoEmptyLists(values) && SnapshotRead(values, s) && y in values && IsSasKey(y)
    ensures QueryRead(values, t) && t.shareSnapshot == s
    ensures var k := KeyOf(Lower(y)).value; Same(t.sas, SetField(EMPTY, k, values[y][0]), k)
  {
    hide QueryRead;
    t := ReadingSas(values, y);
    t := WithSnapshotRead(values, t, s);
  }

  lemma WithSnapshotRead(values: Values, t: QueryParts, s: Text) returns (t': QueryParts)
    requires NoEmptyLists(values) && QueryRead(values, t) && SnapshotRead(values, s)
    ensures t' == t.(shareSnapshot := s) && QueryRead(values, t')
  {
    hide SnapshotRead, Reads, Encode;
    t' := t.(shareSnapshot := s);
  }

  lemma FitsBack(values: Values, s: Text, x: Text)
    requires NoEmptyLists(values) && SnapshotRead(values, s)
    requires forall t :: QueryRead(values, t) ==> Rebuilt(values, t)
    ensures NameFits(values, s, x)
  {
    hide SnapshotRead, QueryRead, Echo, KeyOf, Lower, SetField, Same, ReadAndPrinted, ListFits, Rebuilt;
    var t := SomeReading(values);
    t := WithSnapshotRead(values, t, s);
    ReadingFitsBack(values, t, x);
    match KeyOf(Lower(x)) {
      case None =>
      case Some(k) =>
        forall y | y in values && KeyOf(Lower(y)) == Some(k)
          ensures ListOf(values, x) == ListOf(Echo(s), x) + ReadAndPrinted(x, k, values[y][0])
        {
          var t := ReadingOf(values, s, y);
          SasFitsBack(values, t, x, k, y);
        }
    }
  }

  lemma ReadingFitsBack(values: Values, t: QueryParts, x: Text)
    requires NoEmptyLists(values) && QueryRead(values, t) && Rebuilt(values, t)
    ensures ListFits(values, t, x)
    ensures KeyOf(Lower(x)) == None ==>
              ListOf(Echo(t.shareSnapshot), x) == if x == SHARE_SNAPSHOT then ListOf(values, x) else []
    ensures IsSasKey(x) && x in Echo(t.shareSnapshot) ==> x in values
  {
    hide QueryRead, ParseValues, RawQuery, ValidParams, Echo, KeyOf, Lower, PrintedUnder;
    RebuiltMeans(values, t);
    assert ListFits(values, t, x);
  }

  lemma SasFitsBack(values: Values, t: QueryParts, x: Text, k: Key, y: Text)
    requires NoEmptyLists(values) && QueryRead(values, t) && Rebuilt(values, t) && KeyOf(Lower(x)) == Some(k)
    requires y in values && Same(t.sas, SetField(EMPTY, k, values[y][0]), k)
    ensures ListOf(values, x) == ListOf(Echo(t.shareSnapshot), x) + ReadAndPrinted(x, k, values[y][0])
  {
    hide QueryRead, ParseValues, RawQuery, ValidParams, Echo, KeyOf, Lower, SetField, Same, FieldText;
    ReadingFitsBack(values, t, x);
    SetIsValid(k, values[y][0]);
    SameText(t.sas, SetField(EMPTY, k, values[y][0]), k);
  }

  /** Every reading of a query, printed again, has the same parameters as the query, if and only if
      every name fits with every value the snapshot can be read from. */
  lemma QueryRebuilt(values: Values)
    requires NoEmptyLists(values)
    ensures (forall t :: QueryRead(values, t) ==> Rebuilt(values, t)) <==> AllFit(values)
  {
    hide QueryRead, Rebuilt, NameFits, ListFits, ValidParams;
    if AllFit(values) {
      forall t | QueryRead(values, t)
        ensures Rebuilt(values, t)
      {
        ReadingIsValid(values, t);
        SnapshotOf(values, t);
        RebuiltMeans(values, t);
        forall x
          ensures ListFits(values, t, x)
        {
          ReadingFits(values, t, x);
        }
      }
    }
    if forall t :: QueryRead(values, t) ==> Rebuilt(values, t) {
      forall s, x | SnapshotRead(values, s)
        ensures NameFits(values, s, x)
      {
        FitsBack(values, s, x);
      }
    }
  }

  lemma SnapshotOf(values: Values, t: QueryParts)
    requires NoEmptyLists(values) && QueryRead(values, t)
    ensures SnapshotRead(values, t.shareSnapshot)
  {
  }

  // ----- With clean snapshots -----

  /** One clean snapshot that every spelling agrees on; or none, in any spelling. */
  ghost predicate SnapshotKept(values: Values)
    requires NoEmptyLists(values)
  {
    if SHARE_SNAPSHOT in values then
      var s := values[SHARE_SNAPSHOT][0];
      && values[SHARE_SNAPSHOT] == [s] && s != "" && Clean(s)
      && forall x :: x in values && NamesSnapshot(x) ==> values[x][0] == s
    else forall x :: x in values && NamesSnapshot(x) ==> values[x][0] == ""
  }

  ghost predicate SasKept(values: Values, x: Text, k: Key)
    requires x in values && values[x] != []
  {
    x == Name(k) && values[x] == [values[x][0]] && Verbatim(k, values[x][0])
  }

  /** The SAS parameters are in lower case, each once, with values that print as they read. */
  ghost predicate Rebuildable(values: Values)
    requires NoEmptyLists(values)
  {
    SnapshotKept(values) && forall x, k :: x in values && KeyOf(Lower(x)) == Some(k) ==> SasKept(values, x, k)
  }

  /** Other spellings of the snapshot begin with a value that is clean or empty. */
  ghost predicate OthersClean(values: Values)
    requires NoEmptyLists(values)
  {
    forall x :: x in values && NamesSnapshot(x) && x != SHARE_SNAPSHOT ==> values[x][0] == "" || Clean(values[x][0])
  }

  lemma CleanEcho(snapshot: Text, x: Text)
    requires snapshot == "" || Clean(snapshot)
    ensures ListOf(Echo(snapshot), x) == if snapshot != "" && x == SHARE_SNAPSHOT then [snapshot] else []
  {
    SnapshotParsed(snapshot);
    hide SnapshotPairs, Clean;
  }

  lemma KeptSnapshot(values: Values, s: Text)
    requires NoEmptyLists(values) && SnapshotRead(values, s) && SnapshotKept(values)
    ensures s == "" || Clean(s)
    ensures ListOf(values, SHARE_SNAPSHOT) == if s == "" then [] else [s]
  {
    NamesApart(SHARE_SNAPSHOT);
    hide NamesSnapshot, Clean;
  }

  lemma KeptFits(values: Values, s: Text, x: Text)
    requires NoEmptyLists(values) && SnapshotRead(values, s) && Rebuildable(values)
    ensures NameFits(values, s, x)
  {
    hide SnapshotRead, SnapshotKept, Echo, Clean, KeyOf, Lower, SetField, FieldText, ValidParams;
    KeptSnapshot(values, s);
    CleanEcho(s, x);
    CleanEcho(s, SHARE_SNAPSHOT);
    NamesApart(SHARE_SNAPSHOT);
    if IsSasKey(x) {
      var k := KeyOf(Lower(x)).value;
      assert x in values ==> SasKept(values, x, k);
      forall y | y in values && KeyOf(Lower(y)) == Some(k)
        ensures ListOf(values, x) == ReadAndPrinted(x, k, values[y][0])
      {
        assert SasKept(values, y, k);
      }
    }
  }

  /** The lower-case snapshot, when it is read, is printed raw and comes back: so it was clean. */
  lemma FitsIsClean(values: Values)
    requires NoEmptyLists(values) && SHARE_SNAPSHOT in values && AllFit(values)
    ensures var s := values[SHARE_SNAPSHOT][0]; values[SHARE_SNAPSHOT] == [s] && s != "" && Clean(s)
  {
    var s := values[SHARE_SNAPSHOT][0];
    NamesApart(SHARE_SNAPSHOT);
    assert SnapshotRead(values, s);
    hide Echo, Clean, NamesSnapshot, SnapshotRead, KeyOf, Lower;
    assert NameFits(values, s, SHARE_SNAPSHOT);
    assert SHARE_SNAPSHOT in Echo(s);
    EchoValue(s, SHARE_SNAPSHOT);
    if s == "" {
      CleanEcho(s, SHARE_SNAPSHOT);
    } else {
      OnlyCleanComesBack(s, SHARE_SNAPSHOT);
      CleanEcho(s, SHARE_SNAPSHOT);
    }
  }

  lemma SnapshotIsKept(values: Values)
    requires NoEmptyLists(values) && OthersClean(values) && AllFit(values)
    ensures SnapshotKept(values)
  {
    if SHARE_SNAPSHOT in values {
      FitsIsClean(values);
    }
    NamesApart(SHARE_SNAPSHOT);
    forall x | x in values && NamesSnapshot(x) && x != SHARE_SNAPSHOT
      ensures ListOf(values, SHARE_SNAPSHOT) == if values[x][0] == "" then [] else [values[x][0]]
    {
      assert SnapshotRead(values, values[x][0]);
      assert NameFits(values, values[x][0], SHARE_SNAPSHOT);
      CleanEcho(values[x][0], SHARE_SNAPSHOT);
      hide Echo, Clean, NamesSnapshot, KeyOf, Lower;
    }
    hide NamesSnapshot, Clean;
  }

  lemma SasIsKept(values: Values, s: Text, x: Text, k: Key)
    requires NoEmptyLists(values) && (s == "" || Clean(s)) && NameFits(values, s, x)
    requires x in values && KeyOf(Lower(x)) == Some(k)
    ensures SasKept(values, x, k)
  {
    CleanEcho(s, x);
    NamesApart(x);
    NamesApart(SHARE_SNAPSHOT);
    SetIsValid(k, values[x][0]);
    hide Echo, Clean, NamesSnapshot, KeyOf, Lower, SetField, FieldText, ValidParams;
    assert ListOf(values, x) == [] + ReadAndPrinted(x, k, values[x][0]);
  }

  /** Where other spellings have clean values or empty ones: the snapshot has one value, clean and
      agreed on, or none; the SAS is in lower case, each parameter once, and prints as it reads. */
  lemma CleanRebuilt(values: Values)
    requires NoEmptyLists(values) && OthersClean(values)
    ensures (forall t :: QueryRead(values, t) ==> Rebuilt(values, t)) <==> Rebuildable(values)
  {
    hide QueryRead, Rebuilt, NameFits, SasKept, KeyOf, Lower, Clean, SnapshotRead;
    QueryRebuilt(values);
    if Rebuildable(values) {
      forall s, x | SnapshotRead(values, s)
        ensures NameFits(values, s, x)
      {
        KeptFits(values, s, x);
      }
    }
    if AllFit(values) {
      SnapshotIsKept(values);
      var t := SomeReading(values);
      SnapshotOf(values, t);
      KeptSnapshot(values, t.shareSnapshot);
      forall x, k | x in values && KeyOf(Lower(x)) == Some(k)
        ensures SasKept(values, x, k)
      {
        SasIsKept(values, t.shareSnapshot, x, k);
      }
    }
  }
}
