/** The strings a shared key signs (azfile/zc_credential_shared_key.go). Go ranges over maps in any
    order; an order is a parameter of what the string may be. */
module SharedKey {
  import opened Text
  import opened Sorting
  import opened Query

  const COMMA: Text := ","
  const COLON: Text := ":"
  const X_MS: Text := "x-ms-"

  // ----- Header names -----

  predicate IsSpace(c: Octet) {
    c == ' ' || 9 <= c as int <= 13
  }

  function TrimLeft(s: Text): Text {
    if s != [] && IsSpace(s[0]) then TrimLeft(s[1..]) else s
  }

  function TrimRight(s: Text): Text {
    if s != [] && IsSpace(s[|s| - 1]) then TrimRight(s[..|s| - 1]) else s
  }

  /** The name a header is signed under: lower case, trimmed. */
  function HeaderName(key: Text): Text {
    TrimRight(TrimLeft(Lower(key)))
  }

  predicate IsSigned(key: Text) {
    X_MS <= HeaderName(key)
  }

  /** Tab, line feed, vertical tab, form feed, carriage return and blank. */
  predicate IsBlank(c: Octet) {
    c as int in {9, 10, 11, 12, 13, 32}
  }

  predicate AllBlank(s: Text) {
    forall c :: c in s ==> IsBlank(c)
  }

  /** A header is signed under its name in lower case and without the blanks around it, if that begins
      with "x-ms-". */
  ghost predicate SignedAs(key: Text, name: Text) {
    && "x-ms-" <= name && !IsBlank(name[|name| - 1])
    && exists before, after :: AllBlank(before) && AllBlank(after) && Lower(key) == before + name + after
  }

  lemma {:induction false} TrimLeftOf(before: Text, s: Text)
    requires AllBlank(before) && (s == "" || !IsBlank(s[0]))
    ensures TrimLeft(before + s) == s
  {
    if before != [] {
      assert (before + s)[1..] == before[1..] + s && (before + s)[0] == before[0] && before[0] in before;
      TrimLeftOf(before[1..], s);
    } else {
      assert before + s == s;
    }
  }

  lemma {:induction false} TrimRightOf(s: Text, after: Text)
    requires AllBlank(after) && (s == "" || !IsBlank(s[|s| - 1]))
    ensures TrimRight(s + after) == s
  {
    if after != [] {
      var k := |after| - 1;
      assert (s + after)[..|s| + k] == s + after[..k] && (s + after)[|s| + k] == after[k] && after[k] in after;
      TrimRightOf(s, after[..k]);
    } else {
      assert s + after == s;
    }
  }

  lemma {:induction false} TrimLeftCuts(s: Text) returns (before: Text)
    ensures AllBlank(before) && s == before + TrimLeft(s) && (TrimLeft(s) != "" ==> !IsBlank(TrimLeft(s)[0]))
  {
    if s != "" && IsSpace(s[0]) {
      before := TrimLeftCuts(s[1..]);
      before := [s[0]] + before;
    } else {
      before := "";
    }
  }

  lemma {:induction false} TrimRightCuts(s: Text) returns (after: Text)
    ensures AllBlank(after) && s == TrimRight(s) + after
    ensures TrimRight(s) != "" ==> !IsBlank(TrimRight(s)[|TrimRight(s)| - 1])
  {
    if s != "" && IsSpace(s[|s| - 1]) {
      var k := |s| - 1;
      after := TrimRightCuts(s[..k]);
      assert s == s[..k] + [s[k]];
      after := after + [s[k]];
    } else {
      after := "";
    }
  }

  lemma TrimmedName(key: Text, name: Text, before: Text, after: Text)
    requires AllBlank(before) && AllBlank(after) && Lower(key) == before + name + after
    requires name != [] && !IsBlank(name[0]) && !IsBlank(name[|name| - 1])
    ensures HeaderName(key) == name
  {
    hide Lower, TrimLeft, TrimRight, IsBlank, AllBlank;
    assert Lower(key) == before + (name + after) && (name + after)[0] == name[0];
    TrimLeftOf(before, name + after);
    TrimRightOf(name, after);
  }

  lemma NamedIsSigned(key: Text, name: Text)
    requires SignedAs(key, name)
    ensures IsSigned(key) && HeaderName(key) == name
  {
    var before, after :| AllBlank(before) && AllBlank(after) && Lower(key) == before + name + after;
    assert name[0] == 'x' && !IsBlank('x');
    hide Lower, HeaderName, AllBlank;
    TrimmedName(key, name, before, after);
  }

  lemma SignedIsNamed(key: Text)
    requires IsSigned(key)
    ensures SignedAs(key, HeaderName(key))
  {
    var before := TrimLeftCuts(Lower(key));
    var after := TrimRightCuts(TrimLeft(Lower(key)));
    assert Lower(key) == before + HeaderName(key) + after;
    hide Lower, TrimLeft, TrimRight, AllBlank;
  }

  lemma SignedAsMeans(key: Text, name: Text)
    ensures SignedAs(key, name) <==> IsSigned(key) && HeaderName(key) == name
  {
    hide SignedAs, IsSigned, HeaderName;
    if SignedAs(key, name) {
      NamedIsSigned(key, name);
    }
    if IsSigned(key) {
      SignedIsNamed(key);
    }
  }

  // ----- Canonicalized headers -----

  type Headers = map<Text, seq<Text>>

  /** What the first loop collects when it meets the headers in this order: the last one wins. */
  function Collect(headers: Headers, order: seq<Text>): Headers
    requires forall k :: k in order ==> k in headers
  {
    if order == [] then map[] else
      var k := order[|order| - 1];
      var cm := Collect(headers, order[..|order| - 1]);
      if IsSigned(k) then cm[HeaderName(k) := headers[k]] else cm
  }

  function Line(key: Text, values: seq<Text>): Text {
    key + COLON + Join(values, COMMA)
  }

  function Lines(cm: Headers, keys: seq<Text>): (lines: seq<Text>)
    requires forall k :: k in keys ==> k in cm
    ensures |lines| == |keys|
  {
    seq(|keys|, i requires 0 <= i < |keys| => Line(keys[i], cm[keys[i]]))
  }

  ghost function HeaderText(cm: Headers): Text {
    SortedKeysUnique(SomeOrder(cm.Keys), cm.Keys);
    Join(Lines(cm, SortedKeys(cm.Keys)), NEWLINE)
  }

  lemma CollectStep(headers: Headers, order: seq<Text>, i: nat)
    requires i < |order| && forall k :: k in order ==> k in headers
    ensures Collect(headers, order[..i + 1]) ==
            if IsSigned(order[i]) then Collect(headers, order[..i])[HeaderName(order[i]) := headers[order[i]]]
            else Collect(headers, order[..i])
  {
    assert order[..i + 1][..i] == order[..i];
  }

  /** What buildCanonicalizedHeader may return: the text for some order of the header map. */
  ghost predicate MayBeHeaderText(headers: Headers, s: Text) {
    exists order :: IsOrder(order, headers.Keys) && s == HeaderText(Collect(headers, order))
  }

  /** buildCanonicalizedHeader. */
  method BuildCanonicalizedHeader(headers: Headers) returns (s: Text)
    ensures MayBeHeaderText(headers, s)
  {
    var ranged := RangeOver(headers.Keys);
    var cm: Headers := map[];
    for i := 0 to |ranged|
      invariant cm == Collect(headers, ranged[..i])
    {
      var headerName := HeaderName(ranged[i]);
      CollectStep(headers, ranged, i);
      if X_MS <= headerName {
        cm := cm[headerName := headers[ranged[i]]];
      }
    }
    assert ranged[..|ranged|] == ranged;
    s := WriteHeaders(cm);
  }

  method WriteHeaders(cm: Headers) returns (s: Text)
    ensures s == HeaderText(cm)
  {
    var keys := RangeOver(cm.Keys);
    SortedKeysUnique(keys, cm.Keys);
    if |cm| == 0 {
      assert cm.Keys == {};
      return "";
    }
    keys := Sort(keys);
    s := WriteLines(cm, keys);
  }

  method WriteLines(cm: Headers, keys: seq<Text>) returns (ch: Text)
    requires forall k :: k in keys ==> k in cm
    ensures ch == Join(Lines(cm, keys), NEWLINE)
  {
    ghost var lines := Lines(cm, keys);
    ch := "";
    for i := 0 to |keys|
      invariant ch == Join(lines[..i], NEWLINE)
    {
      var line := Line(keys[i], cm[keys[i]]);
      assert lines[..i + 1] == lines[..i] + [line];
      JoinSnoc(lines[..i], line, NEWLINE);
      hide Join, Line;
      if i > 0 {
        ch := ch + NEWLINE;
      }
      ch := ch + line;
    }
    assert lines[..|keys|] == lines;
  }

  lemma JoinSnoc(a: seq<Text>, x: Text, sep: Text)
    ensures Join(a + [x], sep) == if a == [] then x else Join(a, sep) + sep + x
  {
    if a != [] {
      JoinAppend(a, [x], sep);
    } else {
      assert a + [x] == [x];
    }
  }

  // ----- When the order of the headers does not matter -----

  /** Headers signed under one name say the same. */
  ghost predicate Agree(headers: Headers) {
    forall j, k :: j in headers && k in headers && IsSigned(j) && IsSigned(k) && HeaderName(j) == HeaderName(k) ==>
      Join(headers[j], COMMA) == Join(headers[k], COMMA)
  }

  ghost predicate ComesFrom(headers: Headers, order: seq<Text>, name: Text, values: seq<Text>) {
    exists k :: k in order && k in headers && IsSigned(k) && HeaderName(k) == name && values == headers[k]
  }

  /** Every signed header leaves its name behind, and every name's values come from such a header. */
  lemma {:induction false} Collected(headers: Headers, order: seq<Text>)
    requires forall k :: k in order ==> k in headers
    ensures forall k :: k in order && IsSigned(k) ==> HeaderName(k) in Collect(headers, order)
    ensures forall n :: n in Collect(headers, order) ==> ComesFrom(headers, order, n, Collect(headers, order)[n])
  {
    hide HeaderName, IsSigned;
    if order != [] {
      var before, last := order[..|order| - 1], order[|order| - 1];
      assert order == before + [last];
      Collected(headers, before);
      forall n | n in Collect(headers, order)
        ensures ComesFrom(headers, order, n, Collect(headers, order)[n])
      {
        if IsSigned(last) && n == HeaderName(last) {
          assert last in order;
        } else {
          assert ComesFrom(headers, before, n, Collect(headers, before)[n]);
        }
      }
    }
  }

  lemma SameText(cm: Headers, cm': Headers)
    requires cm.Keys == cm'.Keys && forall n :: n in cm ==> Join(cm[n], COMMA) == Join(cm'[n], COMMA)
    ensures HeaderText(cm) == HeaderText(cm')
  {
    SortedKeysUnique(SomeOrder(cm.Keys), cm.Keys);
    hide Join;
    assert Lines(cm, SortedKeys(cm.Keys)) == Lines(cm', SortedKeys(cm.Keys));
  }

  lemma AgreeIsEnough(headers: Headers, o: seq<Text>, o': seq<Text>)
    requires Agree(headers) && IsOrder(o, headers.Keys) && IsOrder(o', headers.Keys)
    ensures HeaderText(Collect(headers, o)) == HeaderText(Collect(headers, o'))
  {
    hide HeaderName, IsSigned, Join;
    Collected(headers, o);
    Collected(headers, o');
    var cm, cm' := Collect(headers, o), Collect(headers, o');
    hide Collect;
    forall n
      ensures n in cm <==> n in cm'
      ensures n in cm && n in cm' ==> Join(cm[n], COMMA) == Join(cm'[n], COMMA)
    {
      if n in cm {
        assert ComesFrom(headers, o, n, cm[n]);
        var k :| k in o && IsSigned(k) && HeaderName(k) == n && cm[n] == headers[k];
        assert k in o' && HeaderName(k) in cm';
      }
      if n in cm' {
        assert ComesFrom(headers, o', n, cm'[n]);
        var k :| k in o' && IsSigned(k) && HeaderName(k) == n && cm'[n] == headers[k];
        assert k in o && HeaderName(k) in cm;
      }
    }
    SameText(cm, cm');
  }

  lemma CancelRight(x: Text, y: Text, z: Text)
    requires x + z == y + z
    ensures x == y
  {
    assert |x| == |y|;
    assert x == (x + z)[..|x|] && y == (y + z)[..|x|];
  }

  lemma CancelLeft(x: Text, y: Text, z: Text)
    requires z + x == z + y
    ensures x == y
  {
    assert x == (z + x)[|z|..] && y == (z + y)[|z|..];
  }

  lemma {:induction false} JoinCancel(lines: seq<Text>, i: nat, x: Text, y: Text)
    requires i < |lines| && Join(lines[i := x], NEWLINE) == Join(lines[i := y], NEWLINE)
    ensures x == y
  {
    if |lines| > 1 {
      var rest := lines[1..];
      if i == 0 {
        assert lines[0 := x][1..] == rest && lines[0 := y][1..] == rest;
        var tail := NEWLINE + Join(rest, NEWLINE);
        assert x + NEWLINE + Join(rest, NEWLINE) == x + tail && y + NEWLINE + Join(rest, NEWLINE) == y + tail;
        CancelRight(x, y, tail);
      } else {
        assert lines[i := x][1..] == rest[i - 1 := x] && lines[i := y][1..] == rest[i - 1 := y];
        CancelLeft(Join(rest[i - 1 := x], NEWLINE), Join(rest[i - 1 := y], NEWLINE), lines[0] + NEWLINE);
        JoinCancel(rest, i - 1, x, y);
      }
    }
  }

  lemma LinesAt(cm: Headers, keys: seq<Text>, i: nat, a: seq<Text>, b: seq<Text>)
    requires i < |keys| && forall j, k :: 0 <= j < k < |keys| ==> keys[j] != keys[k]
    requires forall k :: k in keys ==> k in cm[keys[i] := a]
    ensures Lines(cm[keys[i] := a], keys) == Lines(cm[keys[i] := b], keys)[i := Line(keys[i], a)]
  {
    hide Line;
  }

  /** One name's values can be recovered, joined, from the text and everything else. */
  lemma OneDifference(cm: Headers, n: Text, a: seq<Text>, b: seq<Text>)
    requires HeaderText(cm[n := a]) == HeaderText(cm[n := b])
    ensures Join(a, COMMA) == Join(b, COMMA)
  {
    var keys := cm.Keys + {n};
    SortedKeysUnique(SomeOrder(keys), keys);
    assert cm[n := a].Keys == keys && cm[n := b].Keys == keys;
    var sorted := SortedKeys(keys);
    assert n in sorted;
    hide Join, SortedKeys, Lines;
    var i :| 0 <= i < |sorted| && sorted[i] == n;
    var base := Lines(cm[n := b], sorted);
    LinesAt(cm, sorted, i, a, b);
    LinesAt(cm, sorted, i, b, b);
    assert |base| == |sorted|;
    JoinCancel(base, i, Line(n, a), Line(n, b));
    CancelLeft(Join(a, COMMA), Join(b, COMMA), n + COLON);
  }

  lemma TwoLast(headers: Headers, rest: seq<Text>, j: Text, k: Text)
    requires IsOrder(rest, headers.Keys - {j, k}) && j in headers && k in headers && j != k
    requires IsSigned(j) && IsSigned(k) && HeaderName(j) == HeaderName(k)
    ensures IsOrder(rest + [j, k], headers.Keys)
    ensures Collect(headers, rest + [j, k]) == Collect(headers, rest)[HeaderName(k) := headers[k]]
  {
    var o := rest + [j, k];
    assert o[..|o| - 1] == rest + [j] && (rest + [j])[..|rest|] == rest;
    hide HeaderName, IsSigned;
  }

  /** There is one header text only. */
  ghost predicate OrderFree(headers: Headers) {
    forall s, s' :: MayBeHeaderText(headers, s) && MayBeHeaderText(headers, s') ==> s == s'
  }

  lemma AgreeIsNeeded(headers: Headers, j: Text, k: Text)
    requires OrderFree(headers) && j in headers && k in headers
    requires IsSigned(j) && IsSigned(k) && HeaderName(j) == HeaderName(k)
    ensures Join(headers[j], COMMA) == Join(headers[k], COMMA)
  {
    hide HeaderName, IsSigned, Collect, Join, HeaderText;
    if j != k {
      var rest := SomeOrder(headers.Keys - {j, k});
      assert headers.Keys - {k, j} == headers.Keys - {j, k};
      TwoLast(headers, rest, j, k);
      TwoLast(headers, rest, k, j);
      assert MayBeHeaderText(headers, HeaderText(Collect(headers, rest + [j, k])));
      assert MayBeHeaderText(headers, HeaderText(Collect(headers, rest + [k, j])));
      OneDifference(Collect(headers, rest), HeaderName(k), headers[j], headers[k]);
    }
  }

  /** The canonicalized headers do not depend on the order in which the header map is ranged over
      if and only if headers that are signed under one name have the same values, joined. */
  lemma HeadersOrderFree(headers: Headers)
    ensures OrderFree(headers) <==> Agree(headers)
  {
    hide HeaderName, IsSigned, Collect, Join, HeaderText;
    if OrderFree(headers) {
      forall j, k | j in headers && k in headers && IsSigned(j) && IsSigned(k) && HeaderName(j) == HeaderName(k)
        ensures Join(headers[j], COMMA) == Join(headers[k], COMMA)
      {
        AgreeIsNeeded(headers, j, k);
      }
    }
    if Agree(headers) {
      forall s, s' | MayBeHeaderText(headers, s) && MayBeHeaderText(headers, s')
        ensures s == s'
      {
        var o :| IsOrder(o, headers.Keys) && s == HeaderText(Collect(headers, o));
        var o' :| IsOrder(o', headers.Keys) && s' == HeaderText(Collect(headers, o'));
        AgreeIsEnough(headers, o, o');
      }
    }
  }

  const TITLE: Text := "X-Ms-Meta-A"
  const PLAIN: Text := "x-ms-meta-a"

  lemma CollidingNames()
    ensures HeaderName(TITLE) == HeaderName(PLAIN) == PLAIN && IsSigned(TITLE) && IsSigned(PLAIN) && TITLE != PLAIN
  {
    assert Lower(TITLE) == PLAIN && Lower(PLAIN) == PLAIN;
    assert !IsSpace(PLAIN[0]) && !IsSpace(PLAIN[|PLAIN| - 1]);
    assert TITLE[0] != PLAIN[0];
  }

  /** Two spellings of one name with different values make the string depend on the order. */
  lemma CollidingHeaders()
    ensures !OrderFree(map[TITLE := ["1"], PLAIN := ["2"]])
  {
    var headers: Headers := map[TITLE := ["1"], PLAIN := ["2"]];
    CollidingNames();
    hide HeaderName, IsSigned, OrderFree;
    assert Join(headers[TITLE], COMMA) == "1" && Join(headers[PLAIN], COMMA) == "2";
    assert "1"[0] != "2"[0];
    HeadersOrderFree(headers);
  }

  // ----- Canonicalized resource -----

  /** A parameter's line, its values sorted. */
  function ParamLine(name: Text, values: seq<Text>): Text {
    name + COLON + Join(Sort(values), COMMA)
  }

  function ParamLines(params: Values, names: seq<Text>): Text
    requires forall n :: n in names ==> n in params
  {
    if names == [] then [] else
      var n := names[|names| - 1];
      ParamLines(params, names[..|names| - 1]) + (NEWLINE + ParamLine(n, params[n]))
  }

  function PathText(account: Text, escapedPath: Text): Text {
    SLASH + account + (if escapedPath != "" then escapedPath else SLASH)
  }

  ghost function ResourceText(account: Text, escapedPath: Text, params: Values): Text {
    SortedKeysUnique(SomeOrder(params.Keys), params.Keys);
    PathText(account, escapedPath) + ParamLines(params, SortedKeys(params.Keys))
  }

  /** buildCanonicalizedResource; None is the panic on a query that does not parse. */
  method BuildCanonicalizedResource(account: Text, escapedPath: Text, rawQuery: Text) returns (r: Option<Text>)
    ensures r == if WellFormed(rawQuery) then Some(ResourceText(account, escapedPath, ParseValues(rawQuery))) else None
  {
    if !WellFormed(rawQuery) {
      return None;
    }
    var params := ParseValues(rawQuery);
    hide ParseValues, WellFormed;
    var cr := SLASH + account;
    if escapedPath != "" {
      cr := cr + escapedPath;
    } else {
      cr := cr + SLASH;
    }
    assert cr == PathText(account, escapedPath);
    var names := RangeOver(params.Keys);
    SortedKeysUnique(names, params.Keys);
    if |params| == 0 {
      assert params.Keys == {};
    }
    var lines := WriteParams(params, Sort(names));
    return Some(cr + lines);
  }

  method WriteParams(params: Values, names: seq<Text>) returns (s: Text)
    requires forall n :: n in names ==> n in params
    ensures s == ParamLines(params, names)
  {
    s := "";
    for i := 0 to |names|
      invariant s == ParamLines(params, names[..i])
    {
      assert names[..i + 1][..i] == names[..i] && names[..i + 1][i] == names[i];
      var values := Sort(params[names[i]]);
      var line := NEWLINE + names[i] + COLON + Join(values, COMMA);
      assert line == NEWLINE + ParamLine(names[i], params[names[i]]);
      s := s + line;
    }
    assert names[..|names|] == names;
  }

  lemma {:induction false} CountValues(ps: seq<Pair>, k: Text, v: Text)
    ensures multiset(ValuesFor(ps, k))[v] == multiset(ps)[Pair(k, v)]
  {
    if ps != [] {
      CountValues(ps[1..], k, v);
      assert ps == [ps[0]] + ps[1..];
      assert ps[0] == Pair(ps[0].key, ps[0].value);
    }
  }

  lemma SameParams(ps: seq<Pair>, qs: seq<Pair>)
    requires multiset(ps) == multiset(qs)
    ensures Keys(ps) == Keys(qs)
    ensures forall k :: Sort(ValuesFor(ps, k)) == Sort(ValuesFor(qs, k))
  {
    forall p
      ensures p in ps <==> p in qs
    {
      assert p in ps <==> p in multiset(ps);
      assert p in qs <==> p in multiset(qs);
    }
    forall k
      ensures Sort(ValuesFor(ps, k)) == Sort(ValuesFor(qs, k))
    {
      forall v
        ensures multiset(ValuesFor(ps, k))[v] == multiset(ValuesFor(qs, k))[v]
      {
        CountValues(ps, k, v);
        CountValues(qs, k, v);
      }
      SortOrderFree(ValuesFor(ps, k), ValuesFor(qs, k));
    }
  }

  lemma {:induction false} SameParamLines(a: Values, b: Values, names: seq<Text>)
    requires forall n :: n in names ==> n in a && n in b && Sort(a[n]) == Sort(b[n])
    ensures ParamLines(a, names) == ParamLines(b, names)
  {
    hide Sort, Join;
    if names != [] {
      SameParamLines(a, b, names[..|names| - 1]);
    }
  }

  /** Permuting the pairs of a query, and so the values of a parameter, changes nothing. */
  lemma ResourceOrderFree(account: Text, escapedPath: Text, q: Text, q': Text)
    requires multiset(ParsePairs(q)) == multiset(ParsePairs(q'))
    ensures ResourceText(account, escapedPath, ParseValues(q)) == ResourceText(account, escapedPath, ParseValues(q'))
  {
    var ps, qs := ParsePairs(q), ParsePairs(q');
    SameParams(ps, qs);
    hide ParsePairs, Sort, ValuesFor;
    var a, b := ParseValues(q), ParseValues(q');
    assert a.Keys == b.Keys;
    SortedKeysUnique(SomeOrder(a.Keys), a.Keys);
    hide SortedKeys;
    SameParamLines(a, b, SortedKeys(a.Keys));
  }

  lemma LinesAre(cm: Headers, names: seq<Text>)
    requires forall k :: k in names ==> k in cm
    ensures forall i :: 0 <= i < |names| ==> Lines(cm, names)[i] == names[i] + ":" + Join(cm[names[i]], ",")
  {
    hide Join;
  }

  /** The name is signed with these values, which are a header's. */
  ghost predicate Signs(headers: Headers, name: Text, values: seq<Text>) {
    exists k :: k in headers && SignedAs(k, name) && values == headers[k]
  }

  lemma NameCollected(headers: Headers, order: seq<Text>, name: Text)
    requires IsOrder(order, headers.Keys)
    ensures var cm := Collect(headers, order);
            && (name in cm ==> Signs(headers, name, cm[name]))
            && ((exists values :: Signs(headers, name, values)) ==> name in cm)
  {
    Collected(headers, order);
    hide HeaderName, IsSigned, Collect, SignedAs;
    var cm := Collect(headers, order);
    if name in cm {
      assert ComesFrom(headers, order, name, cm[name]);
      var k :| k in headers && IsSigned(k) && HeaderName(k) == name && cm[name] == headers[k];
      SignedAsMeans(k, name);
    }
    if values :| Signs(headers, name, values) {
      var k :| k in headers && SignedAs(k, name) && values == headers[k];
      SignedAsMeans(k, name);
      assert k in order;
    }
  }

  /** The lines of the header text are those of all names to be signed, the names strictly increasing,
      each with the values of a header of that name, a comma between them. */
  lemma HeaderNamesIncrease(headers: Headers, s: Text)
    requires MayBeHeaderText(headers, s)
    ensures exists cm: Headers, names: seq<Text> ::
              && IsOrder(names, cm.Keys) && Increasing(names)
              && s == Join(Lines(cm, names), "\n")
              && (forall i :: 0 <= i < |names| ==> Lines(cm, names)[i] == names[i] + ":" + Join(cm[names[i]], ","))
              && (forall n :: n in names ==> Signs(headers, n, cm[n]))
              && forall n, values :: Signs(headers, n, values) ==> n in names
  {
    hide Join, Lines, Collect, Signs;
    var order :| IsOrder(order, headers.Keys) && s == HeaderText(Collect(headers, order));
    var cm := Collect(headers, order);
    SortedKeysUnique(SomeOrder(cm.Keys), cm.Keys);
    var names := SortedKeys(cm.Keys);
    LinesAre(cm, names);
    forall n
      ensures n in names ==> Signs(headers, n, cm[n])
      ensures (exists values :: Signs(headers, n, values)) ==> n in names
    {
      NameCollected(headers, order, n);
    }
  }

  function ParamLineList(params: Values, names: seq<Text>): (lines: seq<Text>)
    requires forall n :: n in names ==> n in params
    ensures |lines| == |names|
  {
    seq(|names|, i requires 0 <= i < |names| => ParamLine(names[i], params[names[i]]))
  }

  lemma {:induction false} ParamLinesJoined(head: Text, params: Values, names: seq<Text>)
    requires forall n :: n in names ==> n in params
    ensures head + ParamLines(params, names) == Join([head] + ParamLineList(params, names), NEWLINE)
  {
    hide ParamLine, Join;
    var lines := ParamLineList(params, names);
    if names == [] {
      assert [head] + lines == [head];
      JoinSnoc([], head, NEWLINE);
      assert [] + [head] == [head] && head + ParamLines(params, names) == head;
    } else {
      var k := |names| - 1;
      var line := ParamLine(names[k], params[names[k]]);
      assert lines[..k] == ParamLineList(params, names[..k]) && lines[k] == line;
      assert ParamLines(params, names) == ParamLines(params, names[..k]) + (NEWLINE + line);
      hide ParamLines, ParamLineList;
      ParamLinesJoined(head, params, names[..k]);
      assert [head] + lines == [head] + lines[..k] + [line];
      JoinSnoc([head] + lines[..k], line, NEWLINE);
    }
  }

  ghost predicate AreParamLines(params: Values, names: seq<Text>, lines: seq<Text>) {
    |lines| == |names| && (forall n :: n in names ==> n in params) &&
    forall i :: 0 <= i < |names| ==> lines[i] == names[i] + ":" + Join(Sort(params[names[i]]), ",")
  }

  /** The resource text is the path and a line for each parameter, their names strictly increasing, its
      values sorted and with a comma between them. */
  lemma ParamNamesIncrease(account: Text, escapedPath: Text, params: Values)
    ensures exists names, lines ::
              && IsOrder(names, params.Keys) && Increasing(names) && AreParamLines(params, names, lines)
              && ResourceText(account, escapedPath, params) ==
                 Join([PathText(account, escapedPath)] + lines, NEWLINE)
  {
    SortedKeysUnique(SomeOrder(params.Keys), params.Keys);
    var names := SortedKeys(params.Keys);
    ParamLinesJoined(PathText(account, escapedPath), params, names);
    ParamLineListMeans(params, names);
    hide ParamLines, ParamLineList, AreParamLines, Join, PathText;
    assert AreParamLines(params, names, ParamLineList(params, names));
  }

  lemma ParamLineListMeans(params: Values, names: seq<Text>)
    requires forall n :: n in names ==> n in params
    ensures AreParamLines(params, names, ParamLineList(params, names))
  {
    hide Join, Sort;
  }

  // ----- The string to sign -----

  datatype Request = Request(verb: Text, headers: Headers, escapedPath: Text, rawQuery: Text)

  /** http.Header.Get, given the name as Go spells it in the map. */
  function HeaderGet(headers: Headers, name: Text): Text {
    if name in headers && headers[name] != [] then headers[name][0] else ""
  }

  function ContentLength(headers: Headers): Text {
    var contentLength := HeaderGet(headers, "Content-Length");
    if contentLength == "0" then "" else contentLength
  }

  function Fields(req: Request, canonicalHeader: Text, canonicalResource: Text): (fields: seq<Text>)
    ensures |fields| == 14 && fields[12] == canonicalHeader && fields[13] == canonicalResource
  {
    [req.verb,
     HeaderGet(req.headers, "Content-Encoding"),
     HeaderGet(req.headers, "Content-Language"),
     ContentLength(req.headers),
     HeaderGet(req.headers, "Content-Md5"),
     HeaderGet(req.headers, "Content-Type"),
     "",
     HeaderGet(req.headers, "If-Modified-Since"),
     HeaderGet(req.headers, "If-Match"),
     HeaderGet(req.headers, "If-None-Match"),
     HeaderGet(req.headers, "If-Unmodified-Since"),
     HeaderGet(req.headers, "Range"),
     canonicalHeader,
     canonicalResource]
  }

  ghost function StringToSign(account: Text, req: Request, canonicalHeader: Text): Text {
    Join(Fields(req, canonicalHeader, ResourceText(account, req.escapedPath, ParseValues(req.rawQuery))), NEWLINE)
  }

  /** What buildStringToSign may return, as the header map is ranged over in one order or another;
      it returns nothing for a query that does not parse. */
  ghost predicate MayBeStringToSign(account: Text, req: Request, s: Text) {
    && WellFormed(req.rawQuery)
    && exists header :: MayBeHeaderText(req.headers, header) && s == StringToSign(account, req, header)
  }

  /** buildStringToSign; None is the panic on a query that does not parse. */
  method BuildStringToSign(account: Text, req: Request) returns (r: Option<Text>)
    ensures r.Some? <==> WellFormed(req.rawQuery)
    ensures r.Some? ==> MayBeStringToSign(account, req, r.value)
  {
    hide MayBeHeaderText, ResourceText, ParseValues, WellFormed, Join, Fields;
    var canonicalHeader := BuildCanonicalizedHeader(req.headers);
    var canonicalResource := BuildCanonicalizedResource(account, req.escapedPath, req.rawQuery);
    match canonicalResource {
      case None => return None;
      case Some(resource) =>
        assert Join(Fields(req, canonicalHeader, resource), NEWLINE) == StringToSign(account, req, canonicalHeader);
        return Some(Join(Fields(req, canonicalHeader, resource), NEWLINE));
    }
  }

  // ----- Its lines -----

  /** A text cut at its line breaks. */
  function Cut(s: Text): (lines: seq<Text>)
    ensures |lines| >= 1
    decreases |s|
  {
    var i := IndexOf(s, '\n');
    if i == -1 then [s] else [s[..i]] + Cut(s[i + 1..])
  }

  lemma CutFirst(line: Text, rest: Text)
    requires '\n' !in line
    ensures Cut(line + NEWLINE + rest) == [line] + Cut(rest)
  {
    var s := line + NEWLINE + rest;
    assert s == line + ['\n'] + rest;
    IndexOfAppend(line, '\n', rest);
    assert s[..|line|] == line && s[|line| + 1..] == rest;
  }

  lemma {:induction false} CutJoined(lines: seq<Text>, k: nat)
    requires k < |lines| && forall i :: 0 <= i < k ==> '\n' !in lines[i]
    ensures var cut := Cut(Join(lines, NEWLINE)); |cut| > k && cut[..k] == lines[..k]
  {
    hide Cut;
    if k > 0 {
      CutJoined(lines[1..], k - 1);
      CutFirst(lines[0], Join(lines[1..], NEWLINE));
      assert lines[..k] == [lines[0]] + lines[1..][..k - 1];
      var rest := Cut(Join(lines[1..], NEWLINE));
      assert ([lines[0]] + rest)[..k] == [lines[0]] + rest[..k - 1];
    }
  }

  /** The headers that have a line of their own, counted from one. */
  const HEADER_OF_LINE: map<nat, Text> :=
    map[2 := "Content-Encoding", 3 := "Content-Language", 5 := "Content-Md5", 6 := "Content-Type",
        8 := "If-Modified-Since", 9 := "If-Match", 10 := "If-None-Match", 11 := "If-Unmodified-Since", 12 := "Range"]

  /** The line is the first value of the header, or empty if there is none. */
  predicate IsFirstValue(headers: Headers, name: Text, line: Text) {
    if name in headers && headers[name] != [] then line == headers[name][0] else line == ""
  }

  ghost predicate OneLiners(req: Request) {
    '\n' !in req.verb && forall name, value :: name in req.headers && value in req.headers[name] ==> '\n' !in value
  }

  /** The first twelve lines as the service documents them: the verb; the headers listed; the content
      length, unless it is zero; and no date. */
  ghost predicate AsDocumented(req: Request, lines: seq<Text>)
    requires |lines| >= 12
  {
    && lines[0] == req.verb && lines[6] == ""
    && (exists length :: IsFirstValue(req.headers, "Content-Length", length)
                         && lines[3] == if length == "0" then "" else length)
    && forall line :: line in HEADER_OF_LINE ==>
         1 <= line <= 12 && IsFirstValue(req.headers, HEADER_OF_LINE[line], lines[line - 1])
  }

  lemma FirstValue(headers: Headers, name: Text)
    ensures IsFirstValue(headers, name, HeaderGet(headers, name))
    ensures (forall value :: name in headers && value in headers[name] ==> '\n' !in value) ==>
              '\n' !in HeaderGet(headers, name)
  {
    if name in headers && headers[name] != [] {
      assert headers[name][0] in headers[name];
    }
  }

  lemma FieldsAsDocumented(req: Request, canonicalHeader: Text, canonicalResource: Text)
    ensures AsDocumented(req, Fields(req, canonicalHeader, canonicalResource))
  {
    forall name
      ensures IsFirstValue(req.headers, name, HeaderGet(req.headers, name))
    {
      FirstValue(req.headers, name);
    }
    hide IsFirstValue, HeaderGet;
    TableOfFields(req, canonicalHeader, canonicalResource);
    var fields := Fields(req, canonicalHeader, canonicalResource);
    assert fields[0] == req.verb && fields[6] == "" && fields[3] == ContentLength(req.headers);
    hide Fields;
  }

  lemma TableOfFields(req: Request, canonicalHeader: Text, canonicalResource: Text)
    ensures forall line :: line in HEADER_OF_LINE ==>
              && 1 <= line <= 12
              && var fields := Fields(req, canonicalHeader, canonicalResource);
                 fields[line - 1] == HeaderGet(req.headers, HEADER_OF_LINE[line])
  {
    hide HeaderGet, ContentLength;
  }

  lemma FieldsAreLines(req: Request, canonicalHeader: Text, canonicalResource: Text)
    requires OneLiners(req)
    ensures forall i :: 0 <= i < 12 ==> '\n' !in Fields(req, canonicalHeader, canonicalResource)[i]
  {
    forall name
      ensures '\n' !in HeaderGet(req.headers, name)
    {
      FirstValue(req.headers, name);
    }
    hide HeaderGet;
  }

  lemma CutStarts(lines: seq<Text>, k: nat)
    requires k < |lines| && forall i :: 0 <= i < k ==> '\n' !in lines[i]
    ensures var cut := Cut(Join(lines, NEWLINE)); |cut| > k && forall i :: 0 <= i < k ==> cut[i] == lines[i]
  {
    CutJoined(lines, k);
    hide Cut, Join;
    var cut := Cut(Join(lines, NEWLINE));
    assert forall i :: 0 <= i < k ==> cut[i] == cut[..k][i] && lines[i] == lines[..k][i];
  }

  /** Of a request whose verb and header values have no line breaks, any string to sign, cut at its line
      breaks, begins with the twelve lines documented. */
  lemma LinesAsDocumented(account: Text, req: Request, s: Text)
    requires OneLiners(req) && MayBeStringToSign(account, req, s)
    ensures |Cut(s)| > 12 && AsDocumented(req, Cut(s))
  {
    hide MayBeHeaderText, ResourceText, ParseValues, WellFormed, Join, Cut, Fields, OneLiners, IsFirstValue;
    var header :| MayBeHeaderText(req.headers, header) && s == StringToSign(account, req, header);
    var resource := ResourceText(account, req.escapedPath, ParseValues(req.rawQuery));
    var fields := Fields(req, header, resource);
    FieldsAsDocumented(req, header, resource);
    FieldsAreLines(req, header, resource);
    CutStarts(fields, 12);
  }

  /** A request does not have two strings to sign, whatever the order of its header map, if and only
      if its query does not parse or its colliding headers agree. */
  lemma StringOrderFree(account: Text, req: Request)
    ensures (forall s, s' :: MayBeStringToSign(account, req, s) && MayBeStringToSign(account, req, s') ==> s == s')
            <==> !WellFormed(req.rawQuery) || Agree(req.headers)
  {
    HeadersOrderFree(req.headers);
    hide MayBeHeaderText, StringToSign, Agree, WellFormed;
    forall h, h'
      ensures StringToSign(account, req, h) == StringToSign(account, req, h') <==> h == h'
    {
      SameHeaders(account, req, h, h');
    }
    forall h | WellFormed(req.rawQuery) && MayBeHeaderText(req.headers, h)
      ensures MayBeStringToSign(account, req, StringToSign(account, req, h))
    {
    }
  }

  lemma SameHeaders(account: Text, req: Request, h: Text, h': Text)
    ensures StringToSign(account, req, h) == StringToSign(account, req, h') <==> h == h'
  {
    var resource := ResourceText(account, req.escapedPath, ParseValues(req.rawQuery));
    var fields := Fields(req, h, resource);
    assert fields[12 := h] == fields;
    assert fields[12 := h'] == Fields(req, h', resource);
    hide Join, Fields;
    if StringToSign(account, req, h) == StringToSign(account, req, h') {
      JoinCancel(fields, 12, h, h');
    }
  }

  /** Permuting the pairs of a request's query, malformed segments neither coming nor going, leaves
      its strings to sign alone. */
  lemma QueryOrderFree(account: Text, req: Request, rawQuery: Text, s: Text)
    requires multiset(ParsePairs(req.rawQuery)) == multiset(ParsePairs(rawQuery))
    requires WellFormed(req.rawQuery) <==> WellFormed(rawQuery)
    ensures MayBeStringToSign(account, req.(rawQuery := rawQuery), s) <==> MayBeStringToSign(account, req, s)
  {
    hide ParsePairs, ResourceText, Join, MayBeHeaderText, WellFormed;
    ResourceOrderFree(account, req.escapedPath, req.rawQuery, rawQuery);
    forall h
      ensures StringToSign(account, req.(rawQuery := rawQuery), h) == StringToSign(account, req, h)
    {
    }
  }
}
