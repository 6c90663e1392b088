/** What a URL's query says after it was printed from parts and parsed again
    (azfile/parsing_urls.go). */
module UrlRoundTrip {
  import opened Text
  import opened Query
  import opened SasParams
  import opened FileUrl

  // ----- The printed query, pair by pair -----

  /** Nothing in the text would be read differently without escaping. */
  predicate Clean(s: Text) {
    '&' !in s && ';' !in s && '%' !in s && '+' !in s
  }

  ghost function SnapshotPairs(snapshot: Text): seq<Pair> {
    ParsePairs(SnapshotParam(snapshot))
  }

  lemma ParseAmp(q: Text, more: Text)
    ensures ParsePairs(WithParams(q, more)) == ParsePairs(q) + ParsePairs(more)
  {
    if q != "" && more != "" {
      ParseAppend(q, more);
      assert WithParams(q, more) == q + AMP + more;
      hide ParsePairs;
    } else {
      assert ParsePairs("") == [];
      hide ParsePairs;
      assert more == "" ==> WithParams(q, more) == q;
      assert more != "" && q == "" ==> WithParams(q, more) == more;
    }
  }

  lemma PrintedPairs(r: QueryParts)
    requires ValidParams(r.sas)
    ensures ParsePairs(RawQuery(r)) == ParsePairs(r.unparsedParams) + SnapshotPairs(r.shareSnapshot) +
            ParsePairs(EncodeSas(r.sas))
  {
    hide ParsePairs, EncodeSas, SnapshotParam, WithParams;
    ParseAmp(WithParams(r.unparsedParams, SnapshotParam(r.shareSnapshot)), EncodeSas(r.sas));
    ParseAmp(r.unparsedParams, SnapshotParam(r.shareSnapshot));
  }

  /** A segment whose name is printed raw as well. */
  lemma RawSegment(name: Text, s: Text)
    requires '=' !in name && ';' !in name && Unescape(name) == Some(name)
    ensures ';' in s ==> ParsePair(name + EQUALS + s) == None
    ensures ';' !in s ==> ParsePair(name + EQUALS + s) == match Unescape(s) case Some(v) => Some(Pair(name, v))
            case None => None
  {
    var segment := name + EQUALS + s;
    assert segment == name + ['='] + s;
    IndexOfAppend(name, '=', s);
    assert segment[..|name|] == name && segment[|name| + 1..] == s;
    hide IndexOf, Unescape;
  }

  lemma SnapshotName()
    ensures Clean(SHARE_SNAPSHOT) && '=' !in SHARE_SNAPSHOT
    ensures Unescape(SHARE_SNAPSHOT) == Some(SHARE_SNAPSHOT)
  {
    RawSurvives(SHARE_SNAPSHOT);
    hide Unescape;
  }

  lemma SnapshotSegment(s: Text)
    ensures ';' in s ==> ParsePair(SNAPSHOT_IS + s) == None
    ensures ';' !in s ==>
              ParsePair(SNAPSHOT_IS + s) == match Unescape(s) case Some(v) => Some(Pair(SHARE_SNAPSHOT, v))
                case None => None
    ensures '&' in SNAPSHOT_IS + s <==> '&' in s
  {
    SnapshotName();
    hide Unescape, ParsePair;
    RawSegment(SHARE_SNAPSHOT, s);
  }

  lemma CleanSnapshotPairs(s: Text)
    requires s != "" && Clean(s)
    ensures SnapshotPairs(s) == [Pair(SHARE_SNAPSHOT, s)]
  {
    SnapshotSegment(s);
    RawSurvives(s);
    hide Unescape, ParsePair;
    ParseOneSegment(SNAPSHOT_IS + s);
  }

  lemma Reassociate(a: Text, b: Text, c: Text, d: Text)
    ensures a + (b + c + d) == (a + b) + c + d
  {
  }

  lemma SnapshotCut(first: Text, rest: Text)
    requires '&' !in first
    ensures SnapshotPairs(first + AMP + rest) == ParseSegment(SNAPSHOT_IS + first) + ParsePairs(rest)
  {
    hide ParseSegment, ParsePairs;
    Reassociate(SNAPSHOT_IS, first, AMP, rest);
    SnapshotSegment(first);
    ParseHead(SNAPSHOT_IS + first, rest);
  }

  /** The values read from a segment are no longer than what follows its name. */
  lemma SegmentShort(s: Text, p: Pair)
    requires p in ParseSegment(SNAPSHOT_IS + s)
    ensures |p.value| <= |s|
    ensures p.value == s ==> '%' !in s && '+' !in s && ';' !in s
  {
    SnapshotSegment(s);
    UnescapeShortens(s);
    RawSurvives(s);
    hide Unescape, ParsePair;
  }

  lemma CutAt(s: Text, i: nat)
    requires i < |s| && s[i] == '&'
    ensures s == s[..i] + AMP + s[i + 1..]
  {
  }

  /** A snapshot printed raw comes back as some value of the query only if it was clean. */
  lemma OnlyCleanComesBack(s: Text, x: Text)
    requires s != "" && Pair(x, s) in SnapshotPairs(s)
    ensures Clean(s)
  {
    hide ParsePairs, ParseSegment;
    if '&' !in s {
      SnapshotSegment(s);
      ParseOneSegment(SNAPSHOT_IS + s);
      SegmentShort(s, Pair(x, s));
    } else {
      var i := IndexOf(s, '&');
      var first, rest := s[..i], s[i + 1..];
      CutAt(s, i);
      SnapshotCut(first, rest);
      if Pair(x, s) in ParseSegment(SNAPSHOT_IS + first) {
        SegmentShort(first, Pair(x, s));
      } else {
        ParsedValuesShort(rest, Pair(x, s));
      }
    }
  }

  // ----- The printed query as a map -----

  ghost function SnapshotValues(snapshot: Text): Values {
    if snapshot == "" then map[] else map[SHARE_SNAPSHOT := [snapshot]]
  }

  /** Parameters that the parser recognises under no name. */
  ghost predicate NoSasKeys(values: Values) {
    forall x :: x in values ==> !IsSasKey(x)
  }

  ghost predicate NoSnapshotNames(values: Values) {
    forall x :: x in values ==> !NamesSnapshot(x)
  }

  lemma NamesApart(x: Text)
    ensures NamesSnapshot(x) ==> !IsSasKey(x)
    ensures NamesSnapshot(SHARE_SNAPSHOT)
  {
  }

  lemma SnapshotParsed(s: Text)
    requires s != "" ==> Clean(s)
    ensures FromPairs(SnapshotPairs(s)) == SnapshotValues(s)
  {
    if s != "" {
      CleanSnapshotPairs(s);
      hide SnapshotPairs;
      var p := Pair(SHARE_SNAPSHOT, s);
      assert ValuesFor([p], SHARE_SNAPSHOT) == [s];
      assert Keys([p]) == {SHARE_SNAPSHOT};
    } else {
      assert SnapshotPairs(s) == [];
    }
  }

  lemma SasParsed(p: SasQueryParameters)
    requires ValidParams(p)
    ensures ParseValues(EncodeSas(p)) == ToValues(p) && NoEmptyLists(ToValues(p)) && WellFormed(EncodeSas(p))
    ensures forall x :: x in ToValues(p) ==> IsSasKey(x) && !NamesSnapshot(x)
  {
    FirstValuesLists(p, |KEYS|);
    ToValuesAt(p, Sv);
    hide ToValues, KeyOf;
    ParseEncode(ToValues(p));
    forall x | x in ToValues(p)
      ensures !NamesSnapshot(x)
    {
      NamesApart(x);
    }
  }

  /** The printed query parses to the unparsed parameters, the snapshot and the SAS side by side. */
  lemma PrintedValues(r: QueryParts)
    requires ValidParams(r.sas) && (r.shareSnapshot != "" ==> Clean(r.shareSnapshot))
    requires var u := ParseValues(r.unparsedParams); NoSasKeys(u) && SHARE_SNAPSHOT !in u
    ensures ParseValues(RawQuery(r)) == ParseValues(r.unparsedParams) + SnapshotValues(r.shareSnapshot) +
            ToValues(r.sas)
  {
    PrintedPairs(r);
    SnapshotParsed(r.shareSnapshot);
    SasParsed(r.sas);
    NamesApart(SHARE_SNAPSHOT);
    hide RawQuery, EncodeSas, SnapshotPairs, ParsePairs, ToValues, NamesSnapshot, IsSasKey;
    var a, b, c := ParsePairs(r.unparsedParams), SnapshotPairs(r.shareSnapshot), ParsePairs(EncodeSas(r.sas));
    FromPairsAppend(a, b);
    FromPairsAppend(a + b, c);
  }

  // ----- Reading it back -----

  lemma AfterSnapshotPrinted(u: Values, snapshot: Text, p: Values)
    requires SHARE_SNAPSHOT !in u && forall x :: x in p ==> !NamesSnapshot(x)
    ensures var v := u + SnapshotValues(snapshot) + p; AfterSnapshot(v) == u + p
  {
    var v := u + SnapshotValues(snapshot) + p;
    NamesApart(SHARE_SNAPSHOT);
    if snapshot != "" {
      assert SHARE_SNAPSHOT in v;
    }
    assert AfterSnapshot(v) == u + p;
  }

  lemma RereadValues(u: Values, snapshot: Text, sas: SasQueryParameters, t: QueryParts)
    requires ValidParams(sas) && NoSasKeys(u) && SHARE_SNAPSHOT !in u && NoEmptyLists(u)
    requires var v := u + SnapshotValues(snapshot) + ToValues(sas); NoEmptyLists(v) && QueryRead(v, t)
    ensures t.sas == Normalize(sas)
    ensures t.unparsedParams == Encode(u)
  {
    SasParsed(sas);
    hide EncodeSas, ToValues, Encode, NamesSnapshot, IsSasKey, Reads, SnapshotRead, Normalize, ValidParams;
    var p := ToValues(sas);
    AfterSnapshotPrinted(u, snapshot, p);
    assert NoEmptyLists(u + p);
    hide AfterSnapshot;
    WriteThenRead(sas, u, t.sas);
  }

  /** Whatever the parser makes of a printed query, it finds the SAS again, up to what printing
      keeps of it, and the unparsed parameters in canonical form; only the snapshot is open. */
  lemma Reread(r: QueryParts, t: QueryParts)
    requires ValidParams(r.sas) && (r.shareSnapshot != "" ==> Clean(r.shareSnapshot))
    requires var u := ParseValues(r.unparsedParams); NoSasKeys(u) && SHARE_SNAPSHOT !in u
    requires QueryRead(ParseValues(RawQuery(r)), t)
    ensures t.sas == Normalize(r.sas)
    ensures t.unparsedParams == Encode(ParseValues(r.unparsedParams))
  {
    hide RawQuery, ParseValues, ToValues, Encode, QueryRead, Normalize, ValidParams, NoSasKeys;
    PrintedValues(r);
    RereadValues(ParseValues(r.unparsedParams), r.shareSnapshot, r.sas, t);
  }

  /** The parts a query can be printed from without loss. */
  ghost predicate Canonical(r: QueryParts) {
    && (r.shareSnapshot != "" ==> Clean(r.shareSnapshot))
    && NoSasKeys(ParseValues(r.unparsedParams))
    && Encode(ParseValues(r.unparsedParams)) == r.unparsedParams
  }

  function Expected(r: QueryParts): QueryParts {
    r.(sas := Normalize(r.sas))
  }

  lemma OneSnapshot(u: Values, snapshot: Text, p: Values, found: Text)
    requires NoSnapshotNames(u) && NoSnapshotNames(p)
    requires var v := u + SnapshotValues(snapshot) + p; NoEmptyLists(v) && SnapshotRead(v, found)
    ensures found == snapshot
  {
    var v := u + SnapshotValues(snapshot) + p;
    NamesApart(SHARE_SNAPSHOT);
    hide NamesSnapshot;
    assert forall x :: x in v && NamesSnapshot(x) ==> x in SnapshotValues(snapshot) && v[x] == [snapshot];
    assert snapshot != "" ==> SHARE_SNAPSHOT in v;
  }

  lemma CanonicalIsEnough(r: QueryParts, t: QueryParts)
    requires ValidParams(r.sas) && NoSnapshotNames(ParseValues(r.unparsedParams)) && Canonical(r)
    requires QueryRead(ParseValues(RawQuery(r)), t)
    ensures t == Expected(r)
  {
    NamesApart(SHARE_SNAPSHOT);
    SasParsed(r.sas);
    hide RawQuery, ParseValues, ToValues, Encode, NamesSnapshot, Reads, Normalize, ValidParams, NoSasKeys, SnapshotRead;
    PrintedValues(r);
    OneSnapshot(ParseValues(r.unparsedParams), r.shareSnapshot, ToValues(r.sas), t.shareSnapshot);
    Reread(r, t);
  }

  lemma ValuesComeFromPairs(ps: seq<Pair>, k: Text, i: nat)
    requires i < |ValuesFor(ps, k)|
    ensures Pair(k, ValuesFor(ps, k)[i]) in ps
  {
    if ps[0].key == k && i == 0 {
      assert ps[0] == Pair(k, ps[0].value);
    } else {
      var j := if ps[0].key == k then i - 1 else i;
      ValuesComeFromPairs(ps[1..], k, j);
    }
  }

  /** Any value a printed query has for a snapshot name was printed as the snapshot, if the
      unparsed parameters have no such name. */
  lemma SnapshotComesFrom(r: QueryParts, x: Text)
    requires ValidParams(r.sas) && NoSnapshotNames(ParseValues(r.unparsedParams))
    requires NamesSnapshot(x) && x in ParseValues(RawQuery(r))
    ensures Pair(x, ParseValues(RawQuery(r))[x][0]) in SnapshotPairs(r.shareSnapshot)
  {
    PrintedPairs(r);
    SasParsed(r.sas);
    hide RawQuery, EncodeSas, SnapshotPairs, ParsePairs, ToValues, NamesSnapshot;
    var a, b, c := ParsePairs(r.unparsedParams), SnapshotPairs(r.shareSnapshot), ParsePairs(EncodeSas(r.sas));
    ValuesForKeys(a, x);
    ValuesForKeys(c, x);
    ValuesForKeys(a + b + c, x);
    ValuesForAppend(a + b, c, x);
    ValuesForAppend(a, b, x);
    assert x !in FromPairs(a) && x !in FromPairs(c);
    assert ValuesFor(a + b + c, x) == ValuesFor(b, x);
    ValuesComeFromPairs(b, x, 0);
  }

  lemma CanonicalIsNeeded(r: QueryParts)
    requires ValidParams(r.sas) && NoSnapshotNames(ParseValues(r.unparsedParams))
    requires QueryRead(ParseValues(RawQuery(r)), Expected(r))
    ensures Canonical(r)
  {
    var v := ParseValues(RawQuery(r));
    if r.shareSnapshot != "" {
      var x :| x in v && NamesSnapshot(x) && r.shareSnapshot == v[x][0];
      SnapshotComesFrom(r, x);
      OnlyCleanComesBack(r.shareSnapshot, x);
    }
    hide RawQuery, EncodeSas, ParseValues, Encode, SnapshotRead, Reads, IsSasKey, HasSnapshot;
    var w := WithoutSas(AfterSnapshot(v));
    assert NoEmptyLists(w);
    ParseEncode(w);
  }

  /** Printing a query and parsing it again is the identity, up to what printing keeps of a SAS,
      exactly on canonical parts; the parser has no choice, however it ranges over its map. */
  lemma QueryRoundTrip(r: QueryParts, t: QueryParts)
    requires ValidParams(r.sas) && NoSnapshotNames(ParseValues(r.unparsedParams))
    requires QueryRead(ParseValues(RawQuery(r)), t)
    ensures t == Expected(r) <==> Canonical(r)
  {
    if Canonical(r) {
      CanonicalIsEnough(r, t);
    } else if t == Expected(r) {
      CanonicalIsNeeded(r);
    }
  }

  /** NewFileURLParts after FileURLParts.URL. */
  lemma RoundTrip(isIp: Text -> bool, p: FileUrlParts, q: FileUrlParts)
    requires ValidParams(p.sas) && NoSnapshotNames(ParseValues(p.unparsedParams))
    requires Parses(isIp, ToUrl(isIp, p), q)
    ensures q == p.(sas := Normalize(p.sas)) <==> Canonical(QueryOf(p)) && PathCanonical(isIp(p.host), PathOf(p))
  {
    PathRoundTrip(isIp(p.host), PathOf(p));
    QueryRoundTrip(QueryOf(p), QueryOf(q));
    hide RawQuery, ParsePath, PrintPath, QueryRead, Canonical, PathCanonical, Normalize, ValidParams;
    assert q == p.(sas := Normalize(p.sas)) <==> PathOf(q) == PathOf(p) && QueryOf(q) == Expected(QueryOf(p));
  }

  // ----- Names in mixed case -----

  lemma ReadingWith(values: Values, x: Text) returns (t: QueryParts)
    requires NoEmptyLists(values) && x in values && NamesSnapshot(x)
    ensures QueryRead(values, t) && t.shareSnapshot == values[x][0]
  {
    hide NamesSnapshot, Reads, Encode;
    assert NoEmptyLists(AfterSnapshot(values));
    var sas := ReadsExist(AfterSnapshot(values));
    t := QueryParts(values[x][0], sas, Encode(WithoutSas(AfterSnapshot(values))));
  }

  /** What is left in the unparsed parameters of a parsed query. */
  lemma Unparsed(values: Values, t: QueryParts)
    requires NoEmptyLists(values) && QueryRead(values, t)
    ensures ParseValues(t.unparsedParams) == WithoutSas(AfterSnapshot(values))
    ensures SHARE_SNAPSHOT !in ParseValues(t.unparsedParams) && NoSasKeys(ParseValues(t.unparsedParams))
    ensures Encode(ParseValues(t.unparsedParams)) == t.unparsedParams
  {
    NamesApart(SHARE_SNAPSHOT);
    hide NamesSnapshot, IsSasKey, Encode, Reads, SnapshotRead, ParseValues;
    var w := WithoutSas(AfterSnapshot(values));
    assert NoEmptyLists(w);
    ParseEncode(w);
  }

  /** What a parsed query leaves behind is every parameter but the SAS ones and the lower-case
      snapshot name, with its values unchanged. */
  lemma LeftBehind(values: Values, t: QueryParts, x: Text)
    requires NoEmptyLists(values) && QueryRead(values, t)
    ensures var u := ParseValues(t.unparsedParams);
            && (x in u <==> x in values && x != SHARE_SNAPSHOT && !IsSasKey(x))
            && (x in u ==> u[x] == values[x])
  {
    Unparsed(values, t);
    NamesApart(SHARE_SNAPSHOT);
    hide NamesSnapshot, IsSasKey, Encode, Reads, SnapshotRead, ParseValues;
  }

  /** No other spelling of the snapshot's name in the URL says otherwise. */
  ghost predicate NoOtherSnapshot(values: Values, snapshot: Text)
    requires NoEmptyLists(values)
  {
    forall x :: x in values && NamesSnapshot(x) && x != SHARE_SNAPSHOT ==> values[x][0] == snapshot
  }

  lemma SomeReading(values: Values) returns (t: QueryParts)
    requires NoEmptyLists(values)
    ensures QueryRead(values, t)
  {
    hide NamesSnapshot, Reads, Encode;
    if HasSnapshot(values) {
      var x :| x in values && NamesSnapshot(x);
      t := ReadingWith(values, x);
    } else {
      var sas := ReadsExist(AfterSnapshot(values));
      t := QueryParts("", sas, Encode(WithoutSas(AfterSnapshot(values))));
    }
  }

  /** Canonical unparsed parameters, with any other spelling of the snapshot's name agreeing. */
  ghost predicate CanonicalNames(r: QueryParts) {
    var u := ParseValues(r.unparsedParams);
    NoSasKeys(u) && Encode(u) == r.unparsedParams && SHARE_SNAPSHOT !in u && NoOtherSnapshot(u, r.shareSnapshot)
  }

  lemma AgreedSnapshot(u: Values, snapshot: Text, p: Values, found: Text)
    requires SHARE_SNAPSHOT !in u && NoSnapshotNames(p) && NoEmptyLists(u) && NoOtherSnapshot(u, snapshot)
    requires var v := u + SnapshotValues(snapshot) + p; NoEmptyLists(v) && SnapshotRead(v, found)
    ensures found == snapshot
  {
    var v := u + SnapshotValues(snapshot) + p;
    NamesApart(SHARE_SNAPSHOT);
    hide NamesSnapshot;
    assert forall x :: x in v && NamesSnapshot(x) ==>
           (x in SnapshotValues(snapshot) && v[x] == [snapshot]) || (x in u && v[x] == u[x]);
    assert snapshot != "" ==> SHARE_SNAPSHOT in v;
  }

  lemma NamesAreEnough(r: QueryParts, t: QueryParts)
    requires ValidParams(r.sas) && (r.shareSnapshot != "" ==> Clean(r.shareSnapshot)) && CanonicalNames(r)
    requires QueryRead(ParseValues(RawQuery(r)), t)
    ensures t == Expected(r)
  {
    SasParsed(r.sas);
    hide RawQuery, ParseValues, ToValues, Encode, NamesSnapshot, Reads, Normalize, ValidParams, NoSasKeys,
         SnapshotRead, NoOtherSnapshot;
    PrintedValues(r);
    AgreedSnapshot(ParseValues(r.unparsedParams), r.shareSnapshot, ToValues(r.sas), t.shareSnapshot);
    Reread(r, t);
  }

  // ----- Inputs on which the code does not keep the promise -----

  const MIXED: Text := "ShareSnapshot"
  const OLD: Text := "a"
  const NEW: Text := "b"

  lemma OnePair(key: Text, value: Text)
    ensures FromPairs([Pair(key, value)]) == map[key := [value]]
  {
    var p := Pair(key, value);
    assert ValuesFor([p], key) == [value];
    assert Keys([p]) == {key};
  }

  lemma MixedValues()
    ensures ParseValues(MIXED + EQUALS + OLD) == map[MIXED := [OLD]]
  {
    RawSurvives(MIXED);
    RawSurvives(OLD);
    hide Unescape;
    RawSegment(MIXED, OLD);
    hide ParsePair;
    ParseOneSegment(MIXED + EQUALS + OLD);
    hide ParsePairs;
    OnePair(MIXED, OLD);
  }

  const UNCLEAN: QueryParts := QueryParts("a+b", EMPTY, "")

  lemma UncleanIsValid()
    ensures ValidParams(UNCLEAN.sas) && Expected(UNCLEAN) == UNCLEAN
    ensures ParseValues(UNCLEAN.unparsedParams) == map[]
    ensures UNCLEAN.shareSnapshot != "" && !Clean(UNCLEAN.shareSnapshot)
  {
    assert UNCLEAN.shareSnapshot[1] == '+';
  }

  /** The snapshot a+b alone, printed and parsed, is another one. */
  lemma UncleanSnapshotLost(t: QueryParts)
    requires ValidParams(UNCLEAN.sas) && QueryRead(ParseValues(RawQuery(UNCLEAN)), t)
    ensures t != UNCLEAN
  {
    hide QueryRead, ParseValues, RawQuery, Expected, Clean, ValidParams;
    UncleanIsValid();
    QueryRoundTrip(UNCLEAN, t);
  }
}
