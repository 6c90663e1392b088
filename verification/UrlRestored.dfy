/** Exactly when a printed URL gives its parts back, for all parts there are (azfile/parsing_urls.go). */
module UrlRestored {
  import opened Text
  import opened Query
  import opened SasParams
  import opened FileUrl
  import opened UrlRoundTrip

  /** What the snapshot, printed raw, is parsed to. */
  ghost function Echo(snapshot: Text): (values: Values)
    ensures NoEmptyLists(values)
  {
    FromPairsLists(SnapshotPairs(snapshot));
    FromPairs(SnapshotPairs(snapshot))
  }

  lemma ThreeParts(a: seq<Pair>, b: seq<Pair>, c: seq<Pair>, x: Text)
    ensures x in FromPairs(a + b + c) <==> x in FromPairs(a) || x in FromPairs(b) || x in FromPairs(c)
    ensures x in FromPairs(a + b + c) ==>
              FromPairs(a + b + c)[x] == ValuesFor(a, x) + ValuesFor(b, x) + ValuesFor(c, x)
    ensures x in FromPairs(a) <==> ValuesFor(a, x) != []
    ensures x in FromPairs(b) <==> ValuesFor(b, x) != []
    ensures x in FromPairs(c) <==> ValuesFor(c, x) != []
  {
    ValuesForAppend(a + b, c, x);
    ValuesForAppend(a, b, x);
    ValuesForKeys(a, x);
    ValuesForKeys(b, x);
    ValuesForKeys(c, x);
    ValuesForKeys(a + b + c, x);
    hide ValuesFor;
  }

  ghost function ListOf(values: Values, x: Text): seq<Text> {
    if x in values then values[x] else []
  }

  /** The values of a name in a printed query: first those of the unparsed parameters, then what
      the snapshot was parsed to, then the SAS. */
  lemma PrintedLists(r: QueryParts, x: Text)
    requires ValidParams(r.sas)
    ensures ListOf(ParseValues(RawQuery(r)), x) ==
            ListOf(ParseValues(r.unparsedParams), x) + ListOf(Echo(r.shareSnapshot), x) + ListOf(ToValues(r.sas), x)
  {
    PrintedPairs(r);
    SasParsed(r.sas);
    hide RawQuery, EncodeSas, SnapshotPairs, ParsePairs, ToValues, ValuesFor;
    ThreeParts(ParsePairs(r.unparsedParams), SnapshotPairs(r.shareSnapshot), ParsePairs(EncodeSas(r.sas)), x);
  }

  /** The value is read as what the field of a printed SAS holds. */
  ghost predicate Agrees(sas: SasQueryParameters, x: Text, value: Text) {
    match KeyOf(Lower(x))
    case None => false
    case Some(k) => Same(SetField(EMPTY, k, value), Normalize(sas), k)
  }

  /** A snapshot that is not clean is parsed to nothing but what the SAS says anyway. */
  ghost predicate Harmless(snapshot: Text, sas: SasQueryParameters) {
    forall x :: x in Echo(snapshot) ==> Agrees(sas, x, Echo(snapshot)[x][0])
  }

  /** The parts that survive: canonical unparsed parameters; and a snapshot that is clean, or else
      one that does no harm and is named by the unparsed parameters as well. */
  ghost predicate Restorable(r: QueryParts) {
    && CanonicalNames(r)
    && (r.shareSnapshot == "" || Clean(r.shareSnapshot)
        || (HasSnapshot(ParseValues(r.unparsedParams)) && Harmless(r.shareSnapshot, r.sas)))
  }

  // ----- Restorable parts come back -----

  lemma EchoIsSas(snapshot: Text, sas: SasQueryParameters)
    requires Harmless(snapshot, sas)
    ensures NoSnapshotNames(Echo(snapshot)) && SHARE_SNAPSHOT !in Echo(snapshot)
    ensures forall x :: x in Echo(snapshot) ==> IsSasKey(x)
  {
    hide Echo, NamesSnapshot, KeyOf, Same, SetField, Normalize;
    forall x | x in Echo(snapshot)
      ensures IsSasKey(x) && !NamesSnapshot(x) && x != SHARE_SNAPSHOT
    {
      assert Agrees(sas, x, Echo(snapshot)[x][0]);
      NamesApart(x);
    }
  }

  /** What was printed under a SAS name, or by the snapshot, reads as the printed SAS. */
  lemma PrintedFieldAgrees(sas: SasQueryParameters, x: Text)
    requires ValidParams(sas) && NoEmptyLists(ToValues(sas)) && x in ToValues(sas)
    ensures IsSasKey(x) && Agrees(sas, x, ToValues(sas)[x][0])
  {
    ToValuesAt(sas, Sv);
    var k := KeyOf(Lower(x)).value;
    NamesAndKeys(k, x);
    ToValuesAt(sas, k);
    FieldRoundTrip(sas, k);
    hide ToValues, FieldText, Normalize, Same;
  }

  /** Values whose SAS names all agree with the printed SAS, and leave none of its names out, are
      read as that SAS. */
  ghost predicate AllAgreeWith(v: Values, sas: SasQueryParameters)
    requires ValidParams(sas) && NoEmptyLists(v)
  {
    && (forall x :: x in v && IsSasKey(x) ==> Agrees(sas, x, v[x][0]))
    && forall x :: x in ToValues(sas) ==> x in v
  }

  lemma AgreeingField(v: Values, sas: SasQueryParameters, q: SasQueryParameters, k: Key)
    requires ValidParams(sas) && NoEmptyLists(v) && AllAgreeWith(v, sas) && FieldRead(v, v.Keys, q, k)
    ensures Same(q, Normalize(sas), k)
  {
    NamesAndKeys(k, Name(k));
    ToValuesAt(sas, k);
    FieldRoundTrip(sas, k);
    hide ToValues, FieldText, Normalize, SetField, KeyOf, Lower, Name, Same;
    if x :| x in v.Keys && KeyOf(Lower(x)) == Some(k) && Same(q, SetField(EMPTY, k, v[x][0]), k) {
      assert IsSasKey(x) && Agrees(sas, x, v[x][0]);
      SameTransitive(q, SetField(EMPTY, k, v[x][0]), Normalize(sas), k);
    } else {
      assert KeyOf(Lower(Name(k))) == Some(k);
      SameTransitive(q, EMPTY, Normalize(sas), k);
    }
  }

  lemma AgreeingSas(v: Values, sas: SasQueryParameters, q: SasQueryParameters)
    requires ValidParams(sas) && NoEmptyLists(v) && AllAgreeWith(v, sas) && Reads(v, q)
    ensures q == Normalize(sas)
  {
    hide AllAgreeWith, Normalize, Same, FieldRead, ValidParams;
    forall k
      ensures Same(q, Normalize(sas), k)
    {
      AgreeingField(v, sas, q, k);
    }
    SameEverywhere(q, Normalize(sas));
  }

  lemma SameSymmetric(p: SasQueryParameters, q: SasQueryParameters, k: Key)
    requires Same(p, q, k)
    ensures Same(q, p, k)
  {
  }

  lemma SameTransitive(p: SasQueryParameters, q: SasQueryParameters, r: SasQueryParameters, k: Key)
    requires Same(p, q, k) && Same(q, r, k)
    ensures Same(p, r, k)
  {
  }

  lemma InLists(values: Values, x: Text)
    requires NoEmptyLists(values)
    ensures x in values <==> ListOf(values, x) != []
  {
  }

  /** The names of a printed query, and the first value of each. */
  lemma PrintedNames(r: QueryParts, x: Text)
    requires ValidParams(r.sas)
    ensures var (v, u, b, p) := (ParseValues(RawQuery(r)), ParseValues(r.unparsedParams), Echo(r.shareSnapshot),
                                 ToValues(r.sas));
            && NoEmptyLists(p)
            && (x in v <==> x in u || x in b || x in p)
            && (x in v ==> v[x][0] == if x in u then u[x][0] else if x in b then b[x][0] else p[x][0])
            && (x in u && x !in b && x !in p ==> v[x] == u[x])
            && (x in u && x in b ==> v[x] != u[x])
  {
    SasParsed(r.sas);
    PrintedLists(r, x);
    hide RawQuery, ParseValues, Echo, ToValues;
    InLists(ParseValues(RawQuery(r)), x);
    InLists(ParseValues(r.unparsedParams), x);
    InLists(Echo(r.shareSnapshot), x);
    InLists(ToValues(r.sas), x);
    var lu, lb, lp := ListOf(ParseValues(r.unparsedParams), x), ListOf(Echo(r.shareSnapshot), x),
      ListOf(ToValues(r.sas), x);
    assert |lu + lb + lp| == |lu| + |lb| + |lp|;
  }

  /** The name x stands in v for what it is in u, or else for the SAS. */
  ghost predicate NameKept(v: Values, u: Values, sas: SasQueryParameters, x: Text)
    requires ValidParams(sas) && NoEmptyLists(v)
  {
    && (x in v <==> x in u || (x in v && IsSasKey(x)))
    && (x in u ==> !IsSasKey(x) && v[x] == u[x])
    && (x in v && IsSasKey(x) ==> Agrees(sas, x, v[x][0]))
    && (x in ToValues(sas) ==> x in v)
    && (NamesSnapshot(x) ==> !IsSasKey(x))
  }

  lemma HarmlessName(r: QueryParts, x: Text)
    requires ValidParams(r.sas) && CanonicalNames(r) && Harmless(r.shareSnapshot, r.sas)
    ensures NameKept(ParseValues(RawQuery(r)), ParseValues(r.unparsedParams), r.sas, x)
  {
    EchoIsSas(r.shareSnapshot, r.sas);
    SasParsed(r.sas);
    PrintedNames(r, x);
    NamesApart(x);
    hide RawQuery, ParseValues, Echo, ToValues, NamesSnapshot, IsSasKey, Encode, Agrees, NoOtherSnapshot, ValidParams;
    if x in ToValues(r.sas) {
      PrintedFieldAgrees(r.sas, x);
    }
  }

  /** A harmless snapshot leaves the unparsed parameters and the SAS as they are. */
  lemma HarmlessValues(r: QueryParts)
    requires ValidParams(r.sas) && CanonicalNames(r) && Harmless(r.shareSnapshot, r.sas)
    ensures var v, u := ParseValues(RawQuery(r)), ParseValues(r.unparsedParams);
            && SHARE_SNAPSHOT !in v && WithoutSas(v) == u && AllAgreeWith(v, r.sas)
            && forall x :: NamesSnapshot(x) ==> (x in v <==> x in u) && (x in v ==> v[x] == u[x])
  {
    NamesApart(SHARE_SNAPSHOT);
    hide RawQuery, ParseValues, ToValues, NamesSnapshot, IsSasKey, Encode, Agrees, NoOtherSnapshot, ValidParams,
         Harmless;
    var v, u := ParseValues(RawQuery(r)), ParseValues(r.unparsedParams);
    forall x
      ensures NameKept(v, u, r.sas, x)
    {
      HarmlessName(r, x);
    }
    assert forall x :: x in v || x in u || x in ToValues(r.sas) || NamesSnapshot(x) ==> NameKept(v, u, r.sas, x);
    assert WithoutSas(v) == u;
  }

  lemma HarmlessSnapshot(r: QueryParts, found: Text)
    requires ValidParams(r.sas) && CanonicalNames(r) && Harmless(r.shareSnapshot, r.sas)
    requires HasSnapshot(ParseValues(r.unparsedParams)) && SnapshotRead(ParseValues(RawQuery(r)), found)
    ensures found == r.shareSnapshot
  {
    HarmlessValues(r);
    hide RawQuery, ParseValues, Harmless, AllAgreeWith, NamesSnapshot, Encode, ValidParams, WithoutSas, NoSasKeys;
    assert HasSnapshot(ParseValues(RawQuery(r)));
  }

  lemma NothingToRemove(v: Values)
    requires SHARE_SNAPSHOT !in v
    ensures AfterSnapshot(v) == v
  {
    hide HasSnapshot;
    assert Remove(v, SHARE_SNAPSHOT) == v;
  }

  lemma HarmlessIsEnough(r: QueryParts, t: QueryParts)
    requires ValidParams(r.sas) && CanonicalNames(r) && Harmless(r.shareSnapshot, r.sas)
    requires HasSnapshot(ParseValues(r.unparsedParams))
    requires QueryRead(ParseValues(RawQuery(r)), t)
    ensures t == Expected(r)
  {
    var v := ParseValues(RawQuery(r));
    HarmlessValues(r);
    HarmlessSnapshot(r, t.shareSnapshot);
    NothingToRemove(v);
    assert t.unparsedParams == Encode(WithoutSas(v)) == r.unparsedParams && Reads(v, t.sas);
    hide RawQuery, ParseValues, Harmless, AllAgreeWith, NamesSnapshot, Reads, Encode, Normalize, ValidParams,
         QueryRead, CanonicalNames, HasSnapshot, SnapshotRead, AfterSnapshot, WithoutSas;
    AgreeingSas(v, r.sas, t.sas);
  }

  // ----- Nothing else comes back -----

  lemma ReadingSas(values: Values, x: Text) returns (t: QueryParts)
    requires NoEmptyLists(values) && x in values && IsSasKey(x)
    ensures QueryRead(values, t)
    ensures var k := KeyOf(Lower(x)).value; Same(t.sas, SetField(EMPTY, k, values[x][0]), k)
  {
    var before := SomeReading(values);
    NamesApart(x);
    NamesApart(SHARE_SNAPSHOT);
    hide Reads, Encode, SetField, Same, SnapshotRead, NamesSnapshot;
    var after := AfterSnapshot(values);
    assert NoEmptyLists(after) && x in after && after[x] == values[x];
    var sas := ReadsExistWith(after, x);
    t := before.(sas := sas);
  }

  ghost predicate AlwaysRestored(r: QueryParts)
    requires ValidParams(r.sas)
  {
    forall t :: QueryRead(ParseValues(RawQuery(r)), t) ==> t == Expected(r)
  }

  /** If the parts always come back, what is left behind of the printed query is what was unparsed. */
  lemma RestoredUnparsed(r: QueryParts, x: Text)
    requires ValidParams(r.sas) && AlwaysRestored(r)
    ensures var v, u := ParseValues(RawQuery(r)), ParseValues(r.unparsedParams);
            && NoSasKeys(u) && SHARE_SNAPSHOT !in u && Encode(u) == r.unparsedParams
            && (x in u <==> x in v && x != SHARE_SNAPSHOT && !IsSasKey(x))
            && (x in u ==> u[x] == v[x])
  {
    hide RawQuery, ParseValues, QueryRead, Encode, Normalize, ValidParams, NoSasKeys, IsSasKey;
    var v := ParseValues(RawQuery(r));
    var t := SomeReading(v);
    Unparsed(v, t);
    LeftBehind(v, t, x);
  }

  lemma EchoValue(snapshot: Text, x: Text)
    requires x in Echo(snapshot)
    ensures Pair(x, Echo(snapshot)[x][0]) in SnapshotPairs(snapshot)
  {
    ValuesForKeys(SnapshotPairs(snapshot), x);
    ValuesComeFromPairs(SnapshotPairs(snapshot), x, 0);
  }

  /** The snapshot's own name is not among what an unclean snapshot is parsed to. */
  lemma EchoNotSnapshot(r: QueryParts)
    requires ValidParams(r.sas) && AlwaysRestored(r) && r.shareSnapshot != "" && !Clean(r.shareSnapshot)
    ensures SHARE_SNAPSHOT !in Echo(r.shareSnapshot)
  {
    hide RawQuery, ParseValues, QueryRead, Encode, Normalize, ValidParams, NoSasKeys, Clean, Echo;
    var x := SHARE_SNAPSHOT;
    if x in Echo(r.shareSnapshot) {
      RestoredUnparsed(r, x);
      PrintedNames(r, x);
      NamesApart(x);
      var t := ReadingWith(ParseValues(RawQuery(r)), x);
      EchoValue(r.shareSnapshot, x);
      OnlyCleanComesBack(r.shareSnapshot, x);
    }
  }

  /** Whatever else it is parsed to is a SAS parameter that agrees with the SAS. */
  lemma RestoredEcho(r: QueryParts, x: Text)
    requires ValidParams(r.sas) && AlwaysRestored(r) && x != SHARE_SNAPSHOT && x in Echo(r.shareSnapshot)
    ensures Agrees(r.sas, x, Echo(r.shareSnapshot)[x][0])
  {
    hide RawQuery, ParseValues, QueryRead, Encode, Normalize, ValidParams, SetField, Same, Echo, KeyOf;
    RestoredUnparsed(r, x);
    PrintedNames(r, x);
    assert IsSasKey(x);
    var v := ParseValues(RawQuery(r));
    var t := ReadingSas(v, x);
    var k := KeyOf(Lower(x)).value;
    SameSymmetric(t.sas, SetField(EMPTY, k, v[x][0]), k);
  }

  lemma RestoredIsHarmless(r: QueryParts)
    requires ValidParams(r.sas) && AlwaysRestored(r) && r.shareSnapshot != "" && !Clean(r.shareSnapshot)
    ensures Harmless(r.shareSnapshot, r.sas) && HasSnapshot(ParseValues(r.unparsedParams))
  {
    hide RawQuery, ParseValues, Encode, Normalize, ValidParams, Echo, Agrees, Clean, Reads, NamesSnapshot;
    EchoNotSnapshot(r);
    forall x | x in Echo(r.shareSnapshot)
      ensures Agrees(r.sas, x, Echo(r.shareSnapshot)[x][0])
    {
      RestoredEcho(r, x);
    }
    var v := ParseValues(RawQuery(r));
    var t := SomeReading(v);
    assert t.shareSnapshot != "";
    var x :| x in v && NamesSnapshot(x);
    NamesApart(x);
    PrintedNames(r, SHARE_SNAPSHOT);
    SasParsed(r.sas);
    RestoredUnparsed(r, x);
    RestoredUnparsed(r, SHARE_SNAPSHOT);
  }

  lemma RestoredNames(r: QueryParts)
    requires ValidParams(r.sas) && AlwaysRestored(r)
    ensures CanonicalNames(r)
  {
    hide RawQuery, ParseValues, QueryRead, Encode, Normalize, ValidParams, NoSasKeys, NamesSnapshot;
    RestoredUnparsed(r, SHARE_SNAPSHOT);
    var v, u := ParseValues(RawQuery(r)), ParseValues(r.unparsedParams);
    forall x | x in u && NamesSnapshot(x) && x != SHARE_SNAPSHOT
      ensures u[x][0] == r.shareSnapshot
    {
      RestoredUnparsed(r, x);
      var t := ReadingWith(v, x);
    }
  }

  // ----- The condition -----

  /** For all parts: every reading of the printed query gives them back, a SAS up to printing, if and
      only if they are restorable. */
  lemma QueryRestored(r: QueryParts)
    requires ValidParams(r.sas)
    ensures AlwaysRestored(r) <==> Restorable(r)
  {
    hide RawQuery, ParseValues, QueryRead, CanonicalNames, Expected, ValidParams, Clean, Harmless, HasSnapshot;
    if Restorable(r) {
      forall t | QueryRead(ParseValues(RawQuery(r)), t)
        ensures t == Expected(r)
      {
        if r.shareSnapshot == "" || Clean(r.shareSnapshot) {
          NamesAreEnough(r, t);
        } else {
          HarmlessIsEnough(r, t);
        }
      }
    }
    if AlwaysRestored(r) {
      hide AlwaysRestored;
      RestoredNames(r);
      if r.shareSnapshot != "" && !Clean(r.shareSnapshot) {
        RestoredIsHarmless(r);
      }
    }
  }

  /** With a clean snapshot it is the unparsed parameters that decide. */
  lemma CleanRoundTrip(r: QueryParts)
    requires ValidParams(r.sas) && (r.shareSnapshot != "" ==> Clean(r.shareSnapshot))
    ensures (forall t :: QueryRead(ParseValues(RawQuery(r)), t) ==> t == Expected(r)) <==> CanonicalNames(r)
  {
    hide RawQuery, ParseValues, QueryRead, CanonicalNames, Expected, ValidParams, Clean, Harmless;
    QueryRestored(r);
  }

  lemma ReadingHasParts(isIp: Text -> bool, p: FileUrlParts, t: QueryParts) returns (q: FileUrlParts)
    requires ValidParams(p.sas) && QueryRead(ParseValues(RawQuery(QueryOf(p))), t)
    ensures Parses(isIp, ToUrl(isIp, p), q) && QueryOf(q) == t
  {
    hide RawQuery, ParseValues, ParsePath, PrintPath, QueryRead, ValidParams;
    var path := ParsePath(isIp(p.host), PrintPath(isIp(p.host), PathOf(p)));
    q := FileUrlParts(p.scheme, p.host, path.share, path.rest, t.shareSnapshot, t.sas, t.unparsedParams, path.account);
    assert PathOf(q) == path;
  }

  /** NewFileURLParts after FileURLParts.URL, for all parts, whatever order its map is ranged over. */
  lemma UrlReturns(isIp: Text -> bool, p: FileUrlParts)
    requires ValidParams(p.sas)
    ensures (forall q :: Parses(isIp, ToUrl(isIp, p), q) ==> q == p.(sas := Normalize(p.sas))) <==>
            Restorable(QueryOf(p)) && PathCanonical(isIp(p.host), PathOf(p))
  {
    var r, parts := QueryOf(p), PathOf(p);
    PathRoundTrip(isIp(p.host), parts);
    QueryRestored(r);
    hide RawQuery, ParseValues, ParsePath, PrintPath, QueryRead, Restorable, PathCanonical, Normalize, ValidParams;
    var path := ParsePath(isIp(p.host), PrintPath(isIp(p.host), parts));
    forall t | QueryRead(ParseValues(RawQuery(r)), t)
      ensures exists q :: Parses(isIp, ToUrl(isIp, p), q) && QueryOf(q) == t
    {
      var q := ReadingHasParts(isIp, p, t);
    }
    var some := SomeReading(ParseValues(RawQuery(r)));
    forall q | Parses(isIp, ToUrl(isIp, p), q)
      ensures q == p.(sas := Normalize(p.sas)) <==> path == parts && QueryOf(q) == Expected(r)
    {
      assert PathOf(q) == path && QueryRead(ParseValues(RawQuery(r)), QueryOf(q));
    }
  }

  // ----- Giving a URL a snapshot, or taking it away -----

  /** Another spelling of the snapshot's name than the lower-case one. */
  ghost predicate HasOtherSpelling(values: Values) {
    exists x :: x in values && NamesSnapshot(x) && x != SHARE_SNAPSHOT
  }

  lemma ParsedNames(values: Values, parsed: QueryParts, snapshot: Text)
    requires NoEmptyLists(values) && QueryRead(values, parsed)
    ensures CanonicalNames(parsed.(shareSnapshot := snapshot)) <==> NoOtherSnapshot(values, snapshot)
    ensures HasSnapshot(ParseValues(parsed.unparsedParams)) <==> HasOtherSpelling(values)
  {
    Unparsed(values, parsed);
    hide NamesSnapshot, QueryRead, ParseValues, Encode, NoSasKeys, IsSasKey;
    forall x
      ensures var u := ParseValues(parsed.unparsedParams);
              && (x in u && NamesSnapshot(x) <==> x in values && NamesSnapshot(x) && x != SHARE_SNAPSHOT)
              && (x in u ==> u[x] == values[x])
    {
      LeftBehind(values, parsed, x);
      NamesApart(x);
    }
  }

  /** A URL whose snapshot was set, or removed, is always read back as such if and only if no other
      spelling of the name in it says otherwise; and the snapshot is clean or none, or else does no
      harm and is in the URL in another spelling already. */
  lemma WithSnapshotWins(values: Values, parsed: QueryParts, snapshot: Text)
    requires NoEmptyLists(values) && QueryRead(values, parsed) && ValidParams(parsed.sas)
    ensures AlwaysRestored(parsed.(shareSnapshot := snapshot)) <==>
            && NoOtherSnapshot(values, snapshot)
            && (snapshot == "" || Clean(snapshot) || (HasOtherSpelling(values) && Harmless(snapshot, parsed.sas)))
  {
    hide QueryRead, ParseValues, CanonicalNames, NoOtherSnapshot, HasSnapshot, HasOtherSpelling, Harmless, Clean;
    hide AlwaysRestored, ValidParams;
    ParsedNames(values, parsed, snapshot);
    QueryRestored(parsed.(shareSnapshot := snapshot));
  }

  lemma MixedDisagrees(values: Values)
    requires values == map[MIXED := [OLD]]
    ensures NoEmptyLists(values) && !NoOtherSnapshot(values, NEW)
  {
    assert NamesSnapshot(MIXED) && |MIXED| == |SHARE_SNAPSHOT| && MIXED[0] != SHARE_SNAPSHOT[0];
    hide NamesSnapshot;
    assert values[MIXED][0] == OLD && OLD[0] != NEW[0];
  }

  /** ?ShareSnapshot=a, given the snapshot b, can still be read as the snapshot a. */
  lemma MixedCaseLoses(parsed: QueryParts)
    requires QueryRead(ParseValues(MIXED + EQUALS + OLD), parsed) && ValidParams(parsed.sas)
    ensures var r := parsed.(shareSnapshot := NEW);
            exists t :: QueryRead(ParseValues(RawQuery(r)), t) && t != Expected(r)
  {
    MixedValues();
    hide ParseValues, RawQuery, QueryRead, NoOtherSnapshot, ValidParams, Expected, NoEmptyLists, Clean, Harmless;
    MixedDisagrees(ParseValues(MIXED + EQUALS + OLD));
    WithSnapshotWins(ParseValues(MIXED + EQUALS + OLD), parsed, NEW);
  }

  // ----- A snapshot that is not clean and survives -----

  const PERCENT: Text := "%"

  lemma PercentEchoesNothing()
    ensures !Clean(PERCENT) && Echo(PERCENT) == map[]
  {
    assert PERCENT[0] == '%' && Unescape(PERCENT) == None;
    SnapshotSegment(PERCENT);
    hide Unescape, ParsePair;
    ParseOneSegment(SNAPSHOT_IS + PERCENT);
    assert SnapshotPairs(PERCENT) == [];
  }

  lemma MixedNames(u: Values)
    requires u == map[MIXED := [PERCENT]]
    ensures NoEmptyLists(u) && NoSasKeys(u) && SHARE_SNAPSHOT !in u && HasSnapshot(u) && NoOtherSnapshot(u, PERCENT)
  {
    assert NamesSnapshot(MIXED) && MIXED[0] != SHARE_SNAPSHOT[0];
    NamesApart(MIXED);
    hide NamesSnapshot, IsSasKey;
  }

  /** Not only clean snapshots survive: % does, with ShareSnapshot=%25 among the unparsed parameters. */
  lemma UncleanSnapshotKept()
    ensures !Clean(PERCENT) && Restorable(QueryParts(PERCENT, EMPTY, Encode(map[MIXED := [PERCENT]])))
  {
    var u: Values := map[MIXED := [PERCENT]];
    PercentEchoesNothing();
    MixedNames(u);
    hide Echo, Encode, ParseValues, HasSnapshot, NoOtherSnapshot, NoSasKeys, Clean;
    ParseEncode(u);
  }
}
