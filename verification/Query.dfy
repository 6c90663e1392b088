/** Query strings: application/x-www-form-urlencoded text (section 5 of the WHATWG URL Standard) over
    percent-encoding (section 2.1 of RFC 3986), as Go's net/url writes and, from Go 1.17 on, reads it. */
module Query {
  import opened Text
  import opened Sorting

  const AMP: Text := "&"
  const EQUALS: Text := "="

  // ----- Percent-encoding -----

  predicate Unreserved(c: Octet) {
    'a' <= c <= 'z' || 'A' <= c <= 'Z' || '0' <= c <= '9' || c == '-' || c == '_' || c == '.' || c == '~'
  }

  function HexDigit(n: nat): Octet
    requires n < 16
  {
    if n < 10 then (n + 48) as char else (n + 55) as char
  }

  function FromHex(c: Octet): Option<nat> {
    if '0' <= c <= '9' then Some(c as int - 48)
    else if 'A' <= c <= 'F' then Some(c as int - 55)
    else if 'a' <= c <= 'f' then Some(c as int - 87)
    else None
  }

  function EscapeOctet(c: Octet): Text {
    if Unreserved(c) then [c]
    else if c == ' ' then "+"
    else ['%', HexDigit(c as int / 16), HexDigit(c as int % 16)]
  }

  /** url.QueryEscape. */
  function Escape(s: Text): Text {
    if s == [] then [] else EscapeOctet(s[0]) + Escape(s[1..])
  }

  /** url.QueryUnescape; None is an escape that is cut short or not hexadecimal. */
  function Unescape(s: Text): Option<Text> {
    if s == [] then Some([])
    else if s[0] == '%' then
      if |s| < 3 then None else
      match (FromHex(s[1]), FromHex(s[2]), Unescape(s[3..]))
      case (Some(h), Some(l), Some(rest)) => if h < 16 && l < 16 then Some([(16 * h + l) as char] + rest) else None
      case _ => None
    else
      match Unescape(s[1..])
      case Some(rest) => Some([if s[0] == '+' then ' ' else s[0]] + rest)
      case None => None
  }

  /** The octet is the hexadecimal digit n, in either case. */
  predicate IsDigit(c: Octet, n: nat) {
    if n < 10 then c as int == '0' as int + n
    else n < 16 && (c as int == 'A' as int + n - 10 || c as int == 'a' as int + n - 10)
  }

  /** What is written for a byte: itself, a plus for a blank, or an escape with upper-case digits. */
  lemma EscapeMeans(c: Octet)
    ensures var (code, e) := (c as int, EscapeOctet(c));
            if 48 <= code <= 57 || 65 <= code <= 90 || 97 <= code <= 122 || code in {45, 46, 95, 126} then e == [c]
            else if code == 32 then e == "+"
            else |e| == 3 && e[0] as int == 37 && IsDigit(e[1], code / 16) && IsDigit(e[2], code % 16) && IsUpper(e)
  {
  }

  predicate IsUpper(s: Text) {
    forall c :: c in s ==> !('a' <= c <= 'z')
  }

  predicate IsHex(c: Octet) {
    exists n: nat :: n < 16 && IsDigit(c, n)
  }

  lemma FromHexMeans(c: Octet)
    ensures forall n: nat :: FromHex(c) == Some(n) <==> IsDigit(c, n)
    ensures FromHex(c).Some? <==> IsHex(c)
    ensures FromHex(c).Some? ==> FromHex(c).value < 16
  {
    if FromHex(c).Some? {
      assert IsDigit(c, FromHex(c).value);
    }
  }

  /** An escape stands for the byte its two digits make, whatever their case. */
  lemma EitherCase(c: Octet, high: Octet, low: Octet, rest: Text)
    requires IsDigit(high, c as int / 16) && IsDigit(low, c as int % 16)
    ensures Unescape(['%', high, low] + rest) ==
            match Unescape(rest) case Some(r) => Some([c] + r) case None => None
  {
    FromHexMeans(high);
    FromHexMeans(low);
    hide FromHex, IsDigit;
    assert (['%', high, low] + rest)[3..] == rest;
  }

  /** A percent sign that two hexadecimal digits do not follow. */
  predicate BadEscape(s: Text, i: nat)
    requires i < |s|
  {
    s[i] == '%' && !(i + 2 < |s| && IsHex(s[i + 1]) && IsHex(s[i + 2]))
  }

  lemma LaterEscapes(s: Text, k: nat)
    requires k <= |s| && forall i :: 0 <= i < k ==> !BadEscape(s, i)
    ensures (exists i :: 0 <= i < |s| && BadEscape(s, i)) <==> exists i :: 0 <= i < |s| - k && BadEscape(s[k..], i)
  {
    hide IsHex;
    if i :| 0 <= i < |s| && BadEscape(s, i) {
      assert BadEscape(s[k..], i - k);
    }
    if i :| 0 <= i < |s| - k && BadEscape(s[k..], i) {
      assert BadEscape(s, i + k);
    }
  }

  /** Unescaping fails if and only if some percent sign is not followed by two hexadecimal digits. */
  lemma {:induction false} UnescapeFails(s: Text)
    ensures Unescape(s).None? <==> exists i :: 0 <= i < |s| && BadEscape(s, i)
    decreases |s|
  {
    if s != [] && s[0] != '%' {
      UnescapeFails(s[1..]);
      LaterEscapes(s, 1);
    } else if |s| >= 3 {
      FromHexMeans(s[1]);
      FromHexMeans(s[2]);
      hide FromHex;
      if IsHex(s[1]) && IsHex(s[2]) {
        UnescapeFails(s[3..]);
        assert s[1] != '%' && s[2] != '%';
        LaterEscapes(s, 3);
      } else {
        assert BadEscape(s, 0);
      }
    } else if s != [] {
      assert BadEscape(s, 0);
    }
  }

  lemma UnescapeOctet(c: Octet, rest: Text)
    ensures Unescape(EscapeOctet(c) + rest) ==
            match Unescape(rest) case Some(r) => Some([c] + r) case None => None
  {
    var e := EscapeOctet(c) + rest;
    assert e[|EscapeOctet(c)|..] == rest;
  }

  /** Every byte string survives escaping. */
  lemma {:induction false} UnescapeEscape(s: Text)
    ensures Unescape(Escape(s)) == Some(s)
  {
    if s != [] {
      UnescapeEscape(s[1..]);
      UnescapeOctet(s[0], Escape(s[1..]));
      assert [s[0]] + s[1..] == s;
    }
  }

  /** Escaped text is made of unreserved characters, '%' and '+'. */
  lemma {:induction false} EscapeIsClean(s: Text)
    ensures forall c :: c in Escape(s) ==> Unreserved(c) || c == '%' || c == '+'
  {
    if s != [] {
      EscapeIsClean(s[1..]);
      assert forall c :: c in EscapeOctet(s[0]) ==> Unreserved(c) || c == '%' || c == '+';
    }
  }

  lemma {:induction false} ParsedValuesShort(q: Text, p: Pair)
    requires p in ParsePairs(q)
    ensures |p.value| <= |q|
    decreases |q|
  {
    var i := IndexOf(q, '&');
    if i == -1 {
      SegmentValueShort(q, p);
    } else if p in ParseSegment(q[..i]) {
      SegmentValueShort(q[..i], p);
    } else {
      ParsedValuesShort(q[i + 1..], p);
    }
  }

  lemma SegmentValueShort(segment: Text, p: Pair)
    requires p in ParseSegment(segment)
    ensures |p.value| <= |segment|
  {
    var i := IndexOf(segment, '=');
    if i != -1 {
      UnescapeShortens(segment[i + 1..]);
    }
  }

  lemma {:induction false} UnescapeShortens(s: Text)
    ensures Unescape(s).Some? ==> |Unescape(s).value| <= |s|
    ensures Unescape(s).Some? && '%' in s ==> |Unescape(s).value| < |s|
  {
    if s != [] {
      assert s == [s[0]] + s[1..];
      if s[0] == '%' {
        if |s| >= 3 {
          UnescapeShortens(s[3..]);
        }
      } else {
        UnescapeShortens(s[1..]);
      }
    }
  }

  /** Text printed without escaping is read back unchanged if and only if it has no '%' and no '+'. */
  lemma {:induction false} RawSurvives(s: Text)
    ensures Unescape(s) == Some(s) <==> '%' !in s && '+' !in s
  {
    UnescapeShortens(s);
    if s != [] && '%' !in s {
      assert s == [s[0]] + s[1..];
      RawSurvives(s[1..]);
    }
  }

  // ----- Pairs -----

  datatype Pair = Pair(key: Text, value: Text)

  function PrintPair(p: Pair): Text {
    Escape(p.key) + EQUALS + Escape(p.value)
  }

  function PrintPairs(ps: seq<Pair>): Text {
    Join(seq(|ps|, i requires 0 <= i < |ps| => PrintPair(ps[i])), AMP)
  }

  /** One key=value segment; None when it has a semicolon or a malformed escape. */
  function ParsePair(segment: Text): Option<Pair> {
    if ';' in segment then None else
    var i := IndexOf(segment, '=');
    var (k, v) := if i == -1 then (segment, []) else (segment[..i], segment[i + 1..]);
    match (Unescape(k), Unescape(v))
    case (Some(key), Some(value)) => Some(Pair(key, value))
    case _ => None
  }

  function ParseSegment(segment: Text): seq<Pair> {
    if segment == [] then [] else
    match ParsePair(segment)
    case Some(p) => [p]
    case None => []
  }

  /** The pairs of a query, in order; empty and malformed segments are skipped. */
  function ParsePairs(q: Text): seq<Pair> {
    if q == [] then [] else
    var i := IndexOf(q, '&');
    if i == -1 then ParseSegment(q) else ParseSegment(q[..i]) + ParsePairs(q[i + 1..])
  }

  /** Whether url.ParseQuery reports no error. */
  predicate WellFormed(q: Text) {
    q == [] ||
    var i := IndexOf(q, '&');
    if i == -1 then ParsePair(q).Some? else (i == 0 || ParsePair(q[..i]).Some?) && WellFormed(q[i + 1..])
  }

  lemma ParseHead(segment: Text, rest: Text)
    requires '&' !in segment
    ensures ParsePairs(segment + AMP + rest) == ParseSegment(segment) + ParsePairs(rest)
    ensures WellFormed(segment + AMP + rest) <==> (segment == [] || ParsePair(segment).Some?) && WellFormed(rest)
  {
    var q: Text := segment + AMP + rest;
    assert q == segment + ['&'] + rest;
    IndexOfAppend(segment, '&', rest);
    assert q[..|segment|] == segment && q[|segment| + 1..] == rest;
    hide ParsePair, ParseSegment, IndexOf;
  }

  lemma ParseOneSegment(segment: Text)
    requires '&' !in segment
    ensures ParsePairs(segment) == ParseSegment(segment)
    ensures WellFormed(segment) <==> segment == [] || ParsePair(segment).Some?
  {
  }

  /** A query put together from two parts has the pairs of both. */
  lemma {:induction false} ParseAppend(a: Text, b: Text)
    ensures ParsePairs(a + AMP + b) == ParsePairs(a) + ParsePairs(b)
    ensures WellFormed(a) && WellFormed(b) ==> WellFormed(a + AMP + b)
    decreases |a|
  {
    hide ParsePairs, WellFormed, ParseSegment, ParsePair;
    var i := IndexOf(a, '&');
    if i == -1 {
      ParseHead(a, b);
      ParseOneSegment(a);
    } else {
      var head: Text, tail: Text := a[..i], a[i + 1..];
      assert a == head + AMP + tail && a + AMP + b == head + AMP + (tail + AMP + b);
      ParseHead(head, tail);
      ParseHead(head, tail + AMP + b);
      ParseAppend(tail, b);
    }
  }

  lemma ParsePrintPair(p: Pair)
    ensures '&' !in PrintPair(p) && PrintPair(p) != []
    ensures ParsePair(PrintPair(p)) == Some(p)
  {
    EscapeIsClean(p.key);
    EscapeIsClean(p.value);
    UnescapeEscape(p.key);
    UnescapeEscape(p.value);
    hide Escape, Unescape;
    var k, v := Escape(p.key), Escape(p.value);
    assert PrintPair(p) == k + ['='] + v;
    assert ';' !in PrintPair(p);
    IndexOfAppend(k, '=', v);
    hide IndexOf;
    assert PrintPair(p)[..|k|] == k && PrintPair(p)[|k| + 1..] == v;
  }

  lemma ParseOne(p: Pair)
    ensures ParsePairs(PrintPair(p)) == [p] && WellFormed(PrintPair(p))
  {
    ParsePrintPair(p);
    ParseOneSegment(PrintPair(p));
  }

  lemma PrintSnoc(p: Pair, ps: seq<Pair>)
    ensures PrintPairs([p] + ps) == if ps == [] then PrintPair(p) else PrintPair(p) + AMP + PrintPairs(ps)
  {
    var all := seq(|ps| + 1, i requires 0 <= i < |ps| + 1 => PrintPair(([p] + ps)[i]));
    assert all[1..] == seq(|ps|, i requires 0 <= i < |ps| => PrintPair(ps[i]));
  }

  /** Printing pairs and parsing them gives the pairs back, in order. */
  lemma {:induction false} ParsePrint(ps: seq<Pair>)
    ensures ParsePairs(PrintPairs(ps)) == ps && WellFormed(PrintPairs(ps))
    ensures ps != [] ==> PrintPairs(ps) != []
  {
    if ps != [] {
      var p, rest := ps[0], ps[1..];
      assert ps == [p] + rest;
      PrintSnoc(p, rest);
      ParseOne(p);
      ParsePrint(rest);
      ParsePrintPair(p);
      if rest != [] {
        ParseAppend(PrintPair(p), PrintPairs(rest));
      }
    }
  }

  // ----- Values: url.Values is a map from keys to lists -----

  type Values = map<Text, seq<Text>>

  function ValuesFor(ps: seq<Pair>, k: Text): seq<Text> {
    if ps == [] then [] else (if ps[0].key == k then [ps[0].value] else []) + ValuesFor(ps[1..], k)
  }

  function Keys(ps: seq<Pair>): set<Text> {
    set p | p in ps :: p.key
  }

  function FromPairs(ps: seq<Pair>): Values {
    map k | k in Keys(ps) :: ValuesFor(ps, k)
  }

  lemma {:induction false} ValuesForKeys(ps: seq<Pair>, k: Text)
    ensures ValuesFor(ps, k) != [] <==> k in Keys(ps)
  {
    if ps != [] {
      ValuesForKeys(ps[1..], k);
      assert ps == [ps[0]] + ps[1..];
    }
  }

  lemma {:induction false} ValuesForAppend(a: seq<Pair>, b: seq<Pair>, k: Text)
    ensures ValuesFor(a + b, k) == ValuesFor(a, k) + ValuesFor(b, k)
  {
    if a == [] {
      assert a + b == b;
    } else {
      assert (a + b)[1..] == a[1..] + b;
      ValuesForAppend(a[1..], b, k);
    }
  }

  function PairsOf(k: Text, vs: seq<Text>): seq<Pair> {
    seq(|vs|, i requires 0 <= i < |vs| => Pair(k, vs[i]))
  }

  lemma {:induction false} ValuesForPairsOf(k: Text, vs: seq<Text>, x: Text)
    ensures ValuesFor(PairsOf(k, vs), x) == if x == k then vs else []
  {
    if vs != [] {
      assert PairsOf(k, vs)[1..] == PairsOf(k, vs[1..]);
      ValuesForPairsOf(k, vs[1..], x);
      assert vs == [vs[0]] + vs[1..];
    }
  }

  function Flatten(m: Values, order: seq<Text>): seq<Pair>
    requires forall k :: k in order ==> k in m
  {
    if order == [] then [] else PairsOf(order[0], m[order[0]]) + Flatten(m, order[1..])
  }

  lemma {:induction false} ValuesForFlatten(m: Values, order: seq<Text>, x: Text)
    requires forall k :: k in order ==> k in m
    requires forall i, j :: 0 <= i < j < |order| ==> order[i] != order[j]
    ensures ValuesFor(Flatten(m, order), x) == if x in order then m[x] else []
  {
    if order != [] {
      var k, rest := order[0], order[1..];
      assert forall i :: 0 <= i < |rest| ==> rest[i] == order[i + 1] && rest[i] != k;
      assert Flatten(m, order) == PairsOf(k, m[k]) + Flatten(m, rest);
      hide *;
      ValuesForAppend(PairsOf(k, m[k]), Flatten(m, rest), x);
      ValuesForPairsOf(k, m[k], x);
      ValuesForFlatten(m, rest, x);
      var first, later := ValuesFor(PairsOf(k, m[k]), x), ValuesFor(Flatten(m, rest), x);
      assert first + [] == first && [] + later == later;
    }
  }

  ghost predicate NoEmptyLists(m: Values) {
    forall k :: k in m ==> m[k] != []
  }

  /** A map written out in any order of its keys is the map again. */
  lemma FromPairsFlatten(m: Values, order: seq<Text>)
    requires NoEmptyLists(m) && IsOrder(order, m.Keys)
    ensures FromPairs(Flatten(m, order)) == m
  {
    var ps := Flatten(m, order);
    forall k
      ensures k in Keys(ps) <==> k in m
      ensures k in m ==> ValuesFor(ps, k) == m[k]
    {
      ValuesForFlatten(m, order, k);
      ValuesForKeys(ps, k);
    }
  }

  lemma FromPairsLists(ps: seq<Pair>)
    ensures NoEmptyLists(FromPairs(ps))
  {
    forall k | k in FromPairs(ps)
      ensures FromPairs(ps)[k] != []
    {
      ValuesForKeys(ps, k);
    }
  }

  /** url.Values.Encode: sorted by key. */
  ghost function Encode(m: Values): Text {
    SortedKeysUnique(SomeOrder(m.Keys), m.Keys);
    PrintPairs(Flatten(m, SortedKeys(m.Keys)))
  }

  /** Encode as it is executed: collect the keys, sort them, write. */
  method EncodeValues(m: Values) returns (q: Text)
    ensures q == Encode(m)
  {
    var order := RangeOver(m.Keys);
    SortedKeysUnique(order, m.Keys);
    q := PrintPairs(Flatten(m, Sort(order)));
  }

  function ParseValues(q: Text): (m: Values)
    ensures NoEmptyLists(m)
  {
    FromPairsLists(ParsePairs(q));
    FromPairs(ParsePairs(q))
  }

  /** Encoding and parsing are inverse on every map without empty lists. */
  lemma ParseEncode(m: Values)
    requires NoEmptyLists(m)
    ensures ParseValues(Encode(m)) == m && WellFormed(Encode(m))
    ensures m != map[] ==> Encode(m) != []
  {
    SortedKeysUnique(SomeOrder(m.Keys), m.Keys);
    var ps := Flatten(m, SortedKeys(m.Keys));
    ParsePrint(ps);
    FromPairsFlatten(m, SortedKeys(m.Keys));
    if m != map[] {
      assert FromPairs(ps) != map[];
      assert ps != [];
    }
  }

  lemma FromPairsAppend(pa: seq<Pair>, pb: seq<Pair>)
    requires FromPairs(pa).Keys !! FromPairs(pb).Keys
    ensures FromPairs(pa + pb) == FromPairs(pa) + FromPairs(pb)
  {
    forall k
      ensures k in Keys(pa + pb) <==> k in Keys(pa) || k in Keys(pb)
      ensures ValuesFor(pa + pb, k) == ValuesFor(pa, k) + ValuesFor(pb, k)
      ensures k !in Keys(pa) ==> ValuesFor(pa, k) == []
      ensures k !in Keys(pb) ==> ValuesFor(pb, k) == []
    {
      ValuesForAppend(pa, pb, k);
      ValuesForKeys(pa, k);
      ValuesForKeys(pb, k);
      ValuesForKeys(pa + pb, k);
    }
    var m, u := FromPairs(pa + pb), FromPairs(pa) + FromPairs(pb);
    assert FromPairs(pa).Keys == Keys(pa) && FromPairs(pb).Keys == Keys(pb);
    assert m.Keys == Keys(pa + pb) == u.Keys;
    forall k | k in m
      ensures m[k] == u[k]
    {
      assert m[k] == ValuesFor(pa + pb, k);
      assert u[k] == if k in Keys(pb) then ValuesFor(pb, k) else ValuesFor(pa, k);
    }
  }
}
