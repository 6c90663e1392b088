/** The permission letters of a SAS (azfile/sas_service.go, azfile/zc_sas_account.go). */
module Permissions {
  import opened Text

  const SHARE_LETTERS: Text := "rcwdl"
  const FILE_LETTERS: Text := "rcwd"
  const ACCOUNT_LETTERS: Text := "rwdlacup"

  function LettersOf(s: Text): set<Octet> {
    set c | c in s
  }

  function Letter(on: bool, c: Octet): Text {
    if on then [c] else []
  }

  /** The granted letters of an alphabet, in the alphabet's order. */
  function InOrder(alphabet: Text, granted: set<Octet>): Text {
    if alphabet == [] then [] else
      var c := alphabet[|alphabet| - 1];
      InOrder(alphabet[..|alphabet| - 1], granted) + Letter(c in granted, c)
  }

  lemma LettersSnoc(s: Text, c: Octet)
    ensures LettersOf(s + [c]) == LettersOf(s) + {c}
  {
  }

  lemma InOrderSnoc(alphabet: Text, c: Octet, granted: set<Octet>)
    ensures InOrder(alphabet + [c], granted) == InOrder(alphabet, granted) + Letter(c in granted, c)
  {
    assert (alphabet + [c])[..|alphabet|] == alphabet;
  }

  /** One `if flag { b.WriteRune(letter) }`. */
  method WriteIf(b: Text, flag: bool, letter: Octet, ghost seen: Text, ghost granted: set<Octet>) returns (r: Text)
    requires b == InOrder(seen, granted) && (flag <==> letter in granted)
    ensures r == InOrder(seen + [letter], granted)
  {
    r := b;
    InOrderSnoc(seen, letter, granted);
    if flag {
      r := r + [letter];
    }
  }

  /** Nothing granted is lost and nothing else appears. */
  lemma {:induction false} InOrderLetters(alphabet: Text, granted: set<Octet>)
    ensures LettersOf(InOrder(alphabet, granted)) == granted * LettersOf(alphabet)
  {
    if alphabet != [] {
      var n := |alphabet| - 1;
      var c, rest := alphabet[n], InOrder(alphabet[..n], granted);
      InOrderLetters(alphabet[..n], granted);
      assert alphabet == alphabet[..n] + [c];
      LettersSnoc(alphabet[..n], c);
      if c in granted {
        LettersSnoc(rest, c);
      } else {
        assert rest + [] == rest;
      }
    }
  }

  /** Parsing stops at the first letter that is not in the alphabet, the ones before it granted. */
  ghost predicate ParsedInto(alphabet: Text, s: Text, granted: set<Octet>, ok: bool) {
    if LettersOf(s) <= LettersOf(alphabet) then ok && granted == LettersOf(s)
    else
      && !ok
      && exists i :: 0 <= i < |s| && s[i] !in alphabet && granted == LettersOf(s[..i]) && granted <= LettersOf(alphabet)
  }

  class ShareSasPermissions {
    var read: bool
    var create: bool
    var write: bool
    var delete: bool
    var list: bool

    constructor ()
      ensures Granted() == {}
    {
      read, create, write, delete, list := false, false, false, false, false;
    }

    ghost function Granted(): set<Octet>
      reads this
    {
      set c: Octet | Grants(c)
    }

    predicate Grants(c: Octet)
      reads this
    {
      match c {
        case 'r' => read
        case 'c' => create
        case 'w' => write
        case 'd' => delete
        case 'l' => list
        case _ => false
      }
    }

    method Parse(s: Text) returns (ok: bool)
      modifies this
      ensures ParsedInto(SHARE_LETTERS, s, Granted(), ok)
    {
      read, create, write, delete, list := false, false, false, false, false;
      for i := 0 to |s|
        invariant forall c :: Grants(c) <==> c in s[..i]
        invariant LettersOf(s[..i]) <= LettersOf(SHARE_LETTERS)
      {
        assert s[..i + 1] == s[..i] + [s[i]];
        LettersSnoc(s[..i], s[i]);
        match s[i] {
          case 'r' => read := true;
          case 'c' => create := true;
          case 'w' => write := true;
          case 'd' => delete := true;
          case 'l' => list := true;
          case _ =>
            assert s[i] in LettersOf(s) && s[i] !in SHARE_LETTERS;
            assert Granted() == LettersOf(s[..i]);
            return false;
        }
      }
      assert s[..|s|] == s && Granted() == LettersOf(s);
      return true;
    }

    method String() returns (b: Text)
      ensures b == InOrder(SHARE_LETTERS, Granted())
    {
      hide InOrder;
      ghost var granted, seen: Text := Granted(), "";
      b := "";
      InOrderNone(granted);
      b := WriteIf(b, read, 'r', seen, granted);
      seen := seen + ['r'];
      b := WriteIf(b, create, 'c', seen, granted);
      seen := seen + ['c'];
      b := WriteIf(b, write, 'w', seen, granted);
      seen := seen + ['w'];
      b := WriteIf(b, delete, 'd', seen, granted);
      seen := seen + ['d'];
      b := WriteIf(b, list, 'l', seen, granted);
      seen := seen + ['l'];
      assert seen == SHARE_LETTERS;
    }
  }

  class FileSasPermissions {
    var read: bool
    var create: bool
    var write: bool
    var delete: bool

    constructor ()
      ensures Granted() == {}
    {
      read, create, write, delete := false, false, false, false;
    }

    ghost function Granted(): set<Octet>
      reads this
    {
      set c: Octet | Grants(c)
    }

    predicate Grants(c: Octet)
      reads this
    {
      match c {
        case 'r' => read
        case 'c' => create
        case 'w' => write
        case 'd' => delete
        case _ => false
      }
    }

    method Parse(s: Text) returns (ok: bool)
      modifies this
      ensures ParsedInto(FILE_LETTERS, s, Granted(), ok)
    {
      read, create, write, delete := false, false, false, false;
      for i := 0 to |s|
        invariant forall c :: Grants(c) <==> c in s[..i]
        invariant LettersOf(s[..i]) <= LettersOf(FILE_LETTERS)
      {
        assert s[..i + 1] == s[..i] + [s[i]];
        LettersSnoc(s[..i], s[i]);
        match s[i] {
          case 'r' => read := true;
          case 'c' => create := true;
          case 'w' => write := true;
          case 'd' => delete := true;
          case _ =>
            assert s[i] in LettersOf(s) && s[i] !in FILE_LETTERS;
            assert Granted() == LettersOf(s[..i]);
            return false;
        }
      }
      assert s[..|s|] == s && Granted() == LettersOf(s);
      return true;
    }

    method String() returns (b: Text)
      ensures b == InOrder(FILE_LETTERS, Granted())
    {
      hide InOrder;
      ghost var granted, seen: Text := Granted(), "";
      b := "";
      InOrderNone(granted);
      b := WriteIf(b, read, 'r', seen, granted);
      seen := seen + ['r'];
      b := WriteIf(b, create, 'c', seen, granted);
      seen := seen + ['c'];
      b := WriteIf(b, write, 'w', seen, granted);
      seen := seen + ['w'];
      b := WriteIf(b, delete, 'd', seen, granted);
      seen := seen + ['d'];
      assert seen == FILE_LETTERS;
    }
  }

  class AccountSasPermissions {
    var read: bool
    var write: bool
    var delete: bool
    var list: bool
    var add: bool
    var create: bool
    var update: bool
    var process: bool

    constructor ()
      ensures Granted() == {}
    {
      read, write, delete, list, add, create, update, process := false, false, false, false, false, false, false, false;
    }

    ghost function Granted(): set<Octet>
      reads this
    {
      set c: Octet | Grants(c)
    }

    predicate Grants(c: Octet)
      reads this
    {
      match c {
        case 'r' => read
        case 'w' => write
        case 'd' => delete
        case 'l' => list
        case 'a' => add
        case 'c' => create
        case 'u' => update
        case 'p' => process
        case _ => false
      }
    }

    method Parse(s: Text) returns (ok: bool)
      modifies this
      ensures ParsedInto(ACCOUNT_LETTERS, s, Granted(), ok)
    {
      read, write, delete, list, add, create, update, process := false, false, false, false, false, false, false, false;
      for i := 0 to |s|
        invariant forall c :: Grants(c) <==> c in s[..i]
        invariant LettersOf(s[..i]) <= LettersOf(ACCOUNT_LETTERS)
      {
        assert s[..i + 1] == s[..i] + [s[i]];
        LettersSnoc(s[..i], s[i]);
        match s[i] {
          case 'r' => read := true;
          case 'w' => write := true;
          case 'd' => delete := true;
          case 'l' => list := true;
          case 'a' => add := true;
          case 'c' => create := true;
          case 'u' => update := true;
          case 'p' => process := true;
          case _ =>
            assert s[i] in LettersOf(s) && s[i] !in ACCOUNT_LETTERS;
            assert Granted() == LettersOf(s[..i]);
            return false;
        }
      }
      assert s[..|s|] == s && Granted() == LettersOf(s);
      return true;
    }

    method String() returns (b: Text)
      ensures b == InOrder(ACCOUNT_LETTERS, Granted())
    {
      hide InOrder;
      ghost var granted, seen: Text := Granted(), "";
      b := "";
      InOrderNone(granted);
      b := WriteIf(b, read, 'r', seen, granted);
      seen := seen + ['r'];
      b := WriteIf(b, write, 'w', seen, granted);
      seen := seen + ['w'];
      b := WriteIf(b, delete, 'd', seen, granted);
      seen := seen + ['d'];
      b := WriteIf(b, list, 'l', seen, granted);
      seen := seen + ['l'];
      b := WriteIf(b, add, 'a', seen, granted);
      seen := seen + ['a'];
      b := WriteIf(b, create, 'c', seen, granted);
      seen := seen + ['c'];
      b := WriteIf(b, update, 'u', seen, granted);
      seen := seen + ['u'];
      b := WriteIf(b, process, 'p', seen, granted);
      seen := seen + ['p'];
      assert seen == ACCOUNT_LETTERS;
    }
  }

  lemma InOrderNone(granted: set<Octet>)
    ensures InOrder("", granted) == ""
  {
  }
}
