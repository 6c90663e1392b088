/** Byte strings, as Go's `string` holds them, and the option and result types. */
module Text {
  type Octet = c: char | c as int < 256 witness 'a'
  type Text = seq<Octet>

  const SLASH: Text := "/"
  const NEWLINE: Text := "\n"

  datatype Option<+T> = None | Some(value: T)

  datatype Result<+T, +E> = Ok(value: T) | Err(error: E)

  /** Position of the first `c` in `s`, as strings.Index returns it; -1 when there is none. */
  function IndexOf(s: Text, c: Octet): (i: int)
    ensures i == -1 <==> c !in s
    ensures i != -1 ==> 0 <= i < |s| && s[i] == c && c !in s[..i]
  {
    if s == [] then -1
    else if s[0] == c then 0
    else
      var rest := IndexOf(s[1..], c);
      if rest == -1 then -1 else
        assert s[..rest + 1] == [s[0]] + s[1..][..rest];
        rest + 1
  }

  lemma {:induction false} IndexOfAppend(a: Text, c: Octet, b: Text)
    requires c !in a
    ensures IndexOf(a + [c] + b, c) == |a|
  {
    if a != [] {
      assert (a + [c] + b)[1..] == a[1..] + [c] + b;
      IndexOfAppend(a[1..], c, b);
    }
  }

  /** strings.ToLower on the ASCII letters; other bytes are left alone. */
  function LowerOctet(c: Octet): Octet {
    if 'A' <= c <= 'Z' then (c as int + 32) as char else c
  }

  function Lower(s: Text): (r: Text)
    ensures |r| == |s|
  {
    seq(|s|, i requires 0 <= i < |s| => LowerOctet(s[i]))
  }

  predicate IsLower(s: Text) {
    Lower(s) == s
  }

  /** strings.Join. */
  function Join(parts: seq<Text>, sep: Text): Text {
    if parts == [] then []
    else if |parts| == 1 then parts[0]
    else parts[0] + sep + Join(parts[1..], sep)
  }

  /** Joining two non-empty lists puts one separator between the two joins. */
  lemma {:induction false} JoinAppend(a: seq<Text>, b: seq<Text>, sep: Text)
    requires a != [] && b != []
    ensures Join(a + b, sep) == Join(a, sep) + sep + Join(b, sep)
  {
    assert (a + b)[0] == a[0];
    if |a| == 1 {
      assert (a + b)[1..] == b;
    } else {
      assert (a + b)[1..] == a[1..] + b;
      JoinAppend(a[1..], b, sep);
      var x, y, z := a[0] + sep, Join(a[1..], sep), sep + Join(b, sep);
      assert x + (y + sep + Join(b, sep)) == (x + y) + z;
    }
  }
}

/** Decimal numerals, as strconv.FormatInt and strconv.ParseInt write and read them. */
module Decimal {
  import opened Text

  function Digit(d: nat): Octet
    requires d < 10
  {
    (d + 48) as char
  }

  predicate IsDigit(c: Octet) {
    '0' <= c <= '9'
  }

  predicate AllDigits(s: Text) {
    forall c :: c in s ==> IsDigit(c)
  }

  function FormatNat(n: nat): Text {
    if n < 10 then [Digit(n)] else FormatNat(n / 10) + [Digit(n % 10)]
  }

  /** strconv.FormatInt in base 10. */
  function FormatInt(i: int): Text {
    if i < 0 then "-" + FormatNat(-i) else FormatNat(i)
  }

  function Value(s: Text): nat
    requires AllDigits(s)
  {
    if s == [] then 0 else
      assert IsDigit(s[|s| - 1]);
      Value(s[..|s| - 1]) * 10 + (s[|s| - 1] as int - 48)
  }

  function ParseNat(s: Text): Option<nat> {
    if s != [] && AllDigits(s) then Some(Value(s)) else None
  }

  /** Parsing a printed number gives the number back; the numeral has no sign and no leading zero. */
  lemma {:induction false} ParseFormat(n: nat)
    ensures FormatNat(n) != [] && AllDigits(FormatNat(n))
    ensures ParseNat(FormatNat(n)) == Some(n)
    ensures n > 0 ==> FormatNat(n)[0] != '0'
  {
    if n >= 10 {
      ParseFormat(n / 10);
      var s := FormatNat(n);
      assert s[..|s| - 1] == FormatNat(n / 10);
    } else {
      var s := FormatNat(n);
      assert s[..|s| - 1] == [];
      assert Value([]) == 0;
    }
  }
}
