/** The constraint validator (azfile/zz_generated_validation.go): a tree of constraints interpreted
    over a value, and what it means for the value to pass. */
module Validation {
  import opened Text

  datatype Name =
    | Empty | Null | ReadOnly | Pattern | MaxLength | MinLength | MaxItems | MinItems | MultipleOf | UniqueItems
    | InclusiveMaximum | ExclusiveMaximum | ExclusiveMinimum | InclusiveMinimum | OtherName

  /** A pattern that compiles is known by what it matches. */
  datatype Regex = Malformed | Regex(matches: Text -> bool)

  datatype Rule = BoolRule(b: bool) | IntRule(i: int) | FloatRule(r: real) | PatternRule(regex: Regex) | OtherRule

  datatype Constraint = Constraint(target: Text, name: Name, rule: Rule, chain: Chain)

  datatype Chain = NilChain | Chain(items: seq<Constraint>)

  datatype Atom = Number(n: int) | Word(w: Text)

  datatype Field = Field(name: Text, value: Value)

  /** A value as reflection sees it; slices and maps of plain elements, maps by their values. */
  datatype Value =
    | Pointer(elem: Option<Value>)
    | Struct(fields: seq<Field>)
    | Int(i: int)
    | Float(f: real)
    | String(s: Text)
    | Slice(isNil: bool, items: seq<Atom>)
    | Map(isNil: bool, entries: map<Text, Atom>)
    | OtherKind

  // ----- What a single constraint asks of a single value -----

  /** The last part of a dotted target. */
  function LastPart(target: Text): Text {
    var i := IndexOf(target, '.');
    if i == -1 then target else LastPart(target[i + 1..])
  }

  function FieldByName(fields: seq<Field>, name: Text): (r: Option<Value>)
    ensures r.Some? ==> exists i :: 0 <= i < |fields| && fields[i] == Field(name, r.value)
    ensures r.None? ==> forall i :: 0 <= i < |fields| ==> fields[i].name != name
  {
    if fields == [] then None
    else if fields[0].name == name then
      assert fields[0] == Field(name, fields[0].value);
      Some(fields[0].value)
    else
      var r := FieldByName(fields[1..], name);
      assert forall i :: 0 < i < |fields| ==> fields[i] == fields[1..][i - 1];
      r
  }

  /** checkNil and checkEmpty: absence is allowed by the rule `false` only. */
  predicate AbsenceAllowed(rule: Rule) {
    rule.BoolRule? && !rule.b
  }

  predicate IntPasses(i: int, c: Constraint) {
    c.rule.IntRule? &&
    match c.name
    case MultipleOf => c.rule.i != 0 && i % c.rule.i == 0
    case ExclusiveMinimum => c.rule.i < i
    case ExclusiveMaximum => i < c.rule.i
    case InclusiveMinimum => c.rule.i <= i
    case InclusiveMaximum => i <= c.rule.i
    case _ => false
  }

  predicate FloatPasses(f: real, c: Constraint) {
    c.rule.FloatRule? &&
    match c.name
    case ExclusiveMinimum => c.rule.r < f
    case ExclusiveMaximum => f < c.rule.r
    case InclusiveMinimum => c.rule.r <= f
    case InclusiveMaximum => f <= c.rule.r
    case _ => false
  }

  /** The rule is a pattern that compiles and matches the text. */
  predicate Matches(rule: Rule, s: Text) {
    rule.PatternRule? && rule.regex.Regex? && rule.regex.matches(s)
  }

  predicate StringPasses(s: Text, c: Constraint) {
    match c.name
    case Empty => s == "" ==> AbsenceAllowed(c.rule)
    case Pattern => Matches(c.rule, s)
    case MaxLength => c.rule.IntRule? && |s| <= c.rule.i
    case MinLength => c.rule.IntRule? && c.rule.i <= |s|
    case ReadOnly => s == ""
    case _ => false
  }

  ghost predicate Distinct(items: seq<Atom>) {
    forall i, j :: 0 <= i < j < |items| ==> items[i] != items[j]
  }

  ghost predicate DistinctValues(entries: map<Text, Atom>) {
    forall j, k :: j in entries && k in entries && j != k ==> entries[j] != entries[k]
  }

  /** `keys` says whether the keys match the constraint's pattern. */
  ghost predicate CollectionPasses(isNil: bool, length: nat, unique: bool, keys: bool, c: Constraint) {
    match c.name
    case Null => isNil ==> AbsenceAllowed(c.rule)
    case Empty => isNil || length == 0 ==> AbsenceAllowed(c.rule)
    case MaxItems => c.rule.IntRule? && length <= c.rule.i
    case MinItems => c.rule.IntRule? && c.rule.i <= length
    case UniqueItems => length > 0 && unique
    case ReadOnly => length == 0
    case Pattern => keys
    case _ => false
  }

  ghost predicate KeysMatch(rule: Rule, entries: map<Text, Atom>) {
    rule.PatternRule? && rule.regex.Regex? && forall k :: k in entries ==> rule.regex.matches(k)
  }

  /** What the constraint asks of this very value, its chain aside. */
  ghost predicate Passes(v: Value, c: Constraint) {
    match v
    case Pointer(elem) => if c.name == ReadOnly then elem.None? else elem.None? ==> AbsenceAllowed(c.rule)
    case Struct(fields) => FieldByName(fields, LastPart(c.target)).Some?
    case Int(i) => IntPasses(i, c)
    case Float(f) => FloatPasses(f, c)
    case String(s) => StringPasses(s, c)
    case Slice(isNil, items) => CollectionPasses(isNil, |items|, Distinct(items), false, c)
    case Map(isNil, entries) =>
      CollectionPasses(isNil, |entries|, DistinctValues(entries), KeysMatch(c.rule, entries), c)
    case OtherKind => false
  }

  // ----- Where the validator goes from there -----

  datatype Check = Check(value: Value, constraint: Constraint)

  function ChainOn(v: Value, c: Constraint): (r: seq<Check>)
    ensures forall k :: k in r ==> k.value == v && k.constraint < c
  {
    match c.chain
    case NilChain => []
    case Chain(chain) =>
      assert forall i :: 0 <= i < |chain| ==> chain[i] < c;
      seq(|chain|, i requires 0 <= i < |chain| => Check(v, chain[i]))
  }

  /** Whether the value is absent in the sense the constraint asks about; nothing further is then
      asked of it. */
  predicate Absent(v: Value, c: Constraint) {
    match v
    case String(s) => c.name == Empty && s == ""
    case Slice(isNil, items) => (c.name == Null && isNil) || (c.name == Empty && (isNil || items == []))
    case Map(isNil, entries) => (c.name == Null && isNil) || (c.name == Empty && (isNil || |entries| == 0))
    case _ => false
  }

  /** A constraint on a struct is one on the field it names, one on a pointer holds its chain
      against what is pointed to, and other chains are held against the value itself. */
  function Next(v: Value, c: Constraint): (r: seq<Check>)
    ensures forall k :: k in r ==> k.value < v || (k.value == v && k.constraint < c)
  {
    match v
    case Pointer(Some(elem)) => if c.name == ReadOnly then [] else ChainOn(elem, c)
    case Struct(fields) => (
      var f := FieldByName(fields, LastPart(c.target));
      match f
      case Some(value) =>
        assert value < v by {
          var i :| 0 <= i < |fields| && fields[i] == Field(LastPart(c.target), value);
          assert fields[i].value < v;
        }
        [Check(value, c)]
      case None => []
    )
    case Pointer(None) => []
    case Int(_) => []
    case Float(_) => []
    case OtherKind => []
    case _ => if Absent(v, c) then [] else ChainOn(v, c)
  }

  /** A value satisfies a constraint if it passes it and so does everything the constraint leads to. */
  ghost predicate Satisfies(v: Value, c: Constraint)
    decreases v, c
  {
    Passes(v, c) && forall k :: k in Next(v, c) ==> Satisfies(k.value, k.constraint)
  }

  ghost predicate SatisfiesAll(v: Value, cs: seq<Constraint>) {
    forall c :: c in cs ==> Satisfies(v, c)
  }

  /** The check that a path of choices among the next ones leads to. */
  function At(v: Value, c: Constraint, path: seq<nat>): Option<Check>
    decreases |path|
  {
    if path == [] then Some(Check(v, c))
    else if path[0] < |Next(v, c)| then
      var k := Next(v, c)[path[0]];
      At(k.value, k.constraint, path[1..])
    else None
  }

  ghost predicate PassesAt(v: Value, c: Constraint, path: seq<nat>) {
    match At(v, c, path)
    case None => true
    case Some(k) => Passes(k.value, k.constraint)
  }

  lemma {:induction false} SatisfiesAlong(v: Value, c: Constraint, path: seq<nat>)
    requires Satisfies(v, c)
    ensures PassesAt(v, c, path)
    decreases |path|
  {
    if path != [] && path[0] < |Next(v, c)| {
      var k := Next(v, c)[path[0]];
      SatisfiesAlong(k.value, k.constraint, path[1..]);
    }
  }

  lemma {:induction false} FailsAlong(v: Value, c: Constraint) returns (path: seq<nat>)
    requires !Satisfies(v, c)
    ensures !PassesAt(v, c, path)
    decreases v, c
  {
    if Passes(v, c) {
      var i :| 0 <= i < |Next(v, c)| && !Satisfies(Next(v, c)[i].value, Next(v, c)[i].constraint);
      var k := Next(v, c)[i];
      var rest := FailsAlong(k.value, k.constraint);
      path := [i] + rest;
    } else {
      path := [];
    }
  }

  /** Read declaratively: every check that can be reached passes. */
  lemma SatisfiesMeans(v: Value, c: Constraint)
    ensures Satisfies(v, c) <==> forall path :: PassesAt(v, c, path)
  {
    if Satisfies(v, c) {
      forall path
        ensures PassesAt(v, c, path)
      {
        SatisfiesAlong(v, c, path);
      }
    } else {
      var path := FailsAlong(v, c);
    }
  }

  /** The constraint that an error reports was reached, and its value did not pass it. */
  ghost predicate Fails(v: Value, c: Constraint, failed: Constraint) {
    exists path :: At(v, c, path).Some? && At(v, c, path).value.constraint == failed && !PassesAt(v, c, path)
  }

  lemma FailsBelow(v: Value, c: Constraint, k: Check, failed: Constraint)
    requires k in Next(v, c) && Fails(k.value, k.constraint, failed)
    ensures Fails(v, c, failed)
  {
    var i :| 0 <= i < |Next(v, c)| && Next(v, c)[i] == k;
    var path :| At(k.value, k.constraint, path).Some? && At(k.value, k.constraint, path).value.constraint == failed
                && !PassesAt(k.value, k.constraint, path);
    assert ([i] + path)[1..] == path;
    assert At(v, c, [i] + path) == At(k.value, k.constraint, path);
  }

  lemma FailsHere(v: Value, c: Constraint)
    requires !Passes(v, c)
    ensures Fails(v, c, c)
  {
    assert At(v, c, []) == Some(Check(v, c));
    assert !PassesAt(v, c, []);
  }

  // ----- The validator -----

  datatype Validation = Validation(targetValue: Value, constraints: seq<Constraint>)

  /** Checking the value, its chain aside, does not panic: by dividing by zero, by a pattern that is
      not one, or by asking a slice for its keys. */
  ghost predicate RunsHere(v: Value, c: Constraint) {
    match v
    case Int(_) => c.name == MultipleOf && c.rule.IntRule? ==> c.rule.i != 0
    case String(_) => c.name == Pattern ==> c.rule.PatternRule?
    case Map(_, _) => c.name == Pattern ==> c.rule.PatternRule?
    case Slice(_, _) => c.name == Pattern ==> c.rule.PatternRule? && c.rule.regex.Malformed?
    case _ => true
  }

  /** No check that can be reached panics. */
  ghost predicate Runs(v: Value, c: Constraint)
    decreases v, c
  {
    RunsHere(v, c) && forall k :: k in Next(v, c) ==> Runs(k.value, k.constraint)
  }

  /** Constraints without patterns and without multiples of zero panic on no value. */
  predicate Plain(c: Constraint) {
    && c.name != Pattern
    && (c.name == MultipleOf && c.rule.IntRule? ==> c.rule.i != 0)
    && (c.chain.Chain? ==> forall i :: 0 <= i < |c.chain.items| ==> Plain(c.chain.items[i]))
  }

  lemma {:induction false} PlainRuns(v: Value, c: Constraint)
    requires Plain(c)
    ensures Runs(v, c)
    decreases v, c
  {
    forall k | k in Next(v, c)
      ensures Runs(k.value, k.constraint)
    {
      if !v.Struct? {
        var i :| 0 <= i < |c.chain.items| && c.chain.items[i] == k.constraint;
      }
      PlainRuns(k.value, k.constraint);
    }
  }

  /** validate. */
  method Validate(m: seq<Validation>) returns (err: Option<Constraint>)
    requires forall item, c :: item in m && c in item.constraints ==> Runs(item.targetValue, c)
    ensures err.None? <==> forall item :: item in m ==> SatisfiesAll(item.targetValue, item.constraints)
    ensures err.Some? ==> exists item, c :: item in m && c in item.constraints && Fails(item.targetValue, c, err.value)
  {
    for i := 0 to |m|
      invariant forall j :: 0 <= j < i ==> SatisfiesAll(m[j].targetValue, m[j].constraints)
    {
      err := ValidateItem(m[i].targetValue, m[i].constraints);
      if err.Some? {
        ghost var c :| c in m[i].constraints && Fails(m[i].targetValue, c, err.value);
        assert m[i] in m;
        return;
      }
    }
    return None;
  }

  /** One round of validate's outer loop, and the shape of its recursive calls. */
  method ValidateItem(v: Value, cs: seq<Constraint>) returns (err: Option<Constraint>)
    requires forall c :: c in cs ==> Runs(v, c)
    ensures err.None? <==> SatisfiesAll(v, cs)
    ensures err.Some? ==> exists c :: c in cs && Fails(v, c, err.value)
    decreases v, cs, 1
  {
    for i := 0 to |cs|
      invariant forall j :: 0 <= j < i ==> Satisfies(v, cs[j])
    {
      match v {
        case Pointer(_) => err := ValidatePtr(v, cs[i]);
        case Struct(_) => err := ValidateStruct(v, cs[i]);
        case Int(_) => err := ValidateInt(v, cs[i]);
        case Float(_) => err := ValidateFloat(v, cs[i]);
        case String(_) => err := ValidateString(v, cs[i]);
        case Slice(_, _) => err := ValidateArrayMap(v, cs[i]);
        case Map(_, _) => err := ValidateArrayMap(v, cs[i]);
        case OtherKind =>
          FailsHere(v, cs[i]);
          err := Some(cs[i]);
      }
      if err.Some? {
        assert cs[i] in cs;
        return;
      }
    }
    return None;
  }

  method ValidateStruct(v: Value, c: Constraint) returns (err: Option<Constraint>)
    requires v.Struct? && Runs(v, c)
    ensures err.None? <==> Satisfies(v, c)
    ensures err.Some? ==> Fails(v, c, err.value)
    decreases v, c, 0
  {
    var f := FieldByName(v.fields, LastPart(c.target));
    if f.None? {
      FailsHere(v, c);
      return Some(c);
    }
    var k := Check(f.value, c);
    assert Next(v, c) == [k];
    err := ValidateItem(f.value, [c]);
    if err.Some? {
      FailsBelow(v, c, k, err.value);
    }
  }

  method ValidatePtr(v: Value, c: Constraint) returns (err: Option<Constraint>)
    requires v.Pointer? && Runs(v, c)
    ensures err.None? <==> Satisfies(v, c)
    ensures err.Some? ==> Fails(v, c, err.value)
    decreases v, c, 0
  {
    if c.name == ReadOnly {
      if v.elem.Some? {
        FailsHere(v, c);
        return Some(c);
      }
      return None;
    }
    if v.elem.None? {
      err := CheckAbsent(c);
      if err.Some? {
        FailsHere(v, c);
      }
      return;
    }
    if c.chain.Chain? {
      ChainRuns(v, v.elem.value, c);
      err := ValidateItem(v.elem.value, c.chain.items);
      ChainMeans(v, v.elem.value, c);
      if err.Some? {
        ChainFails(v, v.elem.value, c, err.value);
      }
      return;
    }
    return None;
  }

  /** checkNil and checkEmpty. */
  method CheckAbsent(c: Constraint) returns (err: Option<Constraint>)
    ensures err == if AbsenceAllowed(c.rule) then None else Some(c)
  {
    match c.rule {
      case BoolRule(b) => return if b then Some(c) else None;
      case _ => return Some(c);
    }
  }

  lemma ChainMeans(v: Value, on: Value, c: Constraint)
    requires c.chain.Chain? && Passes(v, c) && Next(v, c) == ChainOn(on, c)
    ensures Satisfies(v, c) <==> SatisfiesAll(on, c.chain.items)
  {
    forall i | 0 <= i < |c.chain.items|
      ensures Check(on, c.chain.items[i]) in Next(v, c)
    {
      assert Next(v, c)[i] == Check(on, c.chain.items[i]);
    }
  }

  lemma ChainRuns(v: Value, on: Value, c: Constraint)
    requires c.chain.Chain? && Runs(v, c) && Next(v, c) == ChainOn(on, c)
    ensures forall k :: k in c.chain.items ==> Runs(on, k)
  {
    forall i | 0 <= i < |c.chain.items|
      ensures Runs(on, c.chain.items[i])
    {
      assert Next(v, c)[i] == Check(on, c.chain.items[i]);
    }
  }

  lemma ChainFails(v: Value, on: Value, c: Constraint, failed: Constraint)
    requires c.chain.Chain? && Next(v, c) == ChainOn(on, c)
    requires exists k :: k in c.chain.items && Fails(on, k, failed)
    ensures Fails(v, c, failed)
  {
    var k :| k in c.chain.items && Fails(on, k, failed);
    var i :| 0 <= i < |c.chain.items| && c.chain.items[i] == k;
    assert Next(v, c)[i] == Check(on, k);
    FailsBelow(v, c, Check(on, k), failed);
  }

  method ValidateInt(v: Value, c: Constraint) returns (err: Option<Constraint>)
    requires v.Int? && Runs(v, c)
    ensures err.None? <==> Satisfies(v, c)
    ensures err.Some? ==> Fails(v, c, err.value)
  {
    var i := v.i;
    var ok: bool;
    match c.rule {
      case IntRule(r) =>
        match c.name {
          case MultipleOf => ok := i % r == 0;
          case ExclusiveMinimum => ok := !(i <= r);
          case ExclusiveMaximum => ok := !(i >= r);
          case InclusiveMinimum => ok := !(i < r);
          case InclusiveMaximum => ok := !(i > r);
          case _ => ok := false;
        }
      case _ => ok := false;
    }
    if ok {
      return None;
    }
    FailsHere(v, c);
    return Some(c);
  }

  method ValidateFloat(v: Value, c: Constraint) returns (err: Option<Constraint>)
    requires v.Float? && Runs(v, c)
    ensures err.None? <==> Satisfies(v, c)
    ensures err.Some? ==> Fails(v, c, err.value)
  {
    var f := v.f;
    var ok: bool;
    match c.rule {
      case FloatRule(r) =>
        match c.name {
          case ExclusiveMinimum => ok := !(f <= r);
          case ExclusiveMaximum => ok := !(f >= r);
          case InclusiveMinimum => ok := !(f < r);
          case InclusiveMaximum => ok := !(f > r);
          case _ => ok := false;
        }
      case _ => ok := false;
    }
    if ok {
      return None;
    }
    FailsHere(v, c);
    return Some(c);
  }

  /** The end of validateString and validateArrayMap: on to the chain. */
  method ValidateChain(v: Value, c: Constraint) returns (err: Option<Constraint>)
    requires Runs(v, c) && Passes(v, c) && Next(v, c) == ChainOn(v, c)
    ensures err.None? <==> Satisfies(v, c)
    ensures err.Some? ==> Fails(v, c, err.value)
    decreases v, c, 0
  {
    if c.chain.NilChain? {
      return None;
    }
    ChainRuns(v, v, c);
    err := ValidateItem(v, c.chain.items);
    ChainMeans(v, v, c);
    if err.Some? {
      ChainFails(v, v, c, err.value);
    }
  }

  method ValidateString(v: Value, c: Constraint) returns (err: Option<Constraint>)
    requires v.String? && Runs(v, c)
    ensures err.None? <==> Satisfies(v, c)
    ensures err.Some? ==> Fails(v, c, err.value)
    decreases v, c, 1
  {
    var s := v.s;
    var ok: bool;
    match c.name {
      case Empty =>
        if |s| == 0 {
          err := CheckAbsent(c);
          if err.Some? {
            FailsHere(v, c);
          }
          return;
        }
        ok := true;
      case Pattern =>
        match c.rule.regex {
          case Malformed => ok := false;
          case Regex(matches) => ok := matches(s);
        }
      case MaxLength => ok := c.rule.IntRule? && !(|s| > c.rule.i);
      case MinLength => ok := c.rule.IntRule? && !(|s| < c.rule.i);
      case ReadOnly => ok := !(|s| > 0);
      case _ => ok := false;
    }
    if !ok {
      FailsHere(v, c);
      return Some(c);
    }
    err := ValidateChain(v, c);
  }

  /** checkForUniqueInArray: nothing is unique in an empty array. */
  method CheckForUniqueInArray(items: seq<Atom>) returns (unique: bool)
    ensures unique <==> items != [] && Distinct(items)
  {
    if items == [] {
      return false;
    }
    var m: map<Atom, bool> := map[];
    for i := 0 to |items|
      invariant forall x :: x in m <==> x in items[..i]
      invariant Distinct(items[..i])
    {
      if items[i] in m {
        var j :| 0 <= j < i && items[j] == items[i];
        return false;
      }
      m := m[items[i] := true];
      assert items[..i + 1] == items[..i] + [items[i]];
    }
    assert items[..|items|] == items;
    return true;
  }

  /** checkForUniqueInMap. */
  method CheckForUniqueInMap(entries: map<Text, Atom>) returns (unique: bool)
    ensures unique <==> |entries| > 0 && DistinctValues(entries)
  {
    if |entries| == 0 {
      return false;
    }
    var m: map<Atom, bool> := map[];
    var todo := entries.Keys;
    while todo != {}
      invariant todo <= entries.Keys
      invariant forall x :: x in m <==> exists k :: k in entries && k !in todo && entries[k] == x
      invariant forall j, k :: j in entries && k in entries && j !in todo && k !in todo && j != k ==>
                entries[j] != entries[k]
      decreases todo
    {
      var k :| k in todo;
      if entries[k] in m {
        return false;
      }
      m := m[entries[k] := true];
      todo := todo - {k};
    }
    return true;
  }

  /** The loop over a map's keys. */
  method CheckKeys(entries: map<Text, Atom>, matches: Text -> bool) returns (ok: bool)
    ensures ok <==> forall k :: k in entries ==> matches(k)
  {
    var todo := entries.Keys;
    while todo != {}
      invariant todo <= entries.Keys
      invariant forall k :: k in entries && k !in todo ==> matches(k)
      decreases todo
    {
      var k :| k in todo;
      if !matches(k) {
        return false;
      }
      todo := todo - {k};
    }
    return true;
  }

  method ValidateArrayMap(v: Value, c: Constraint) returns (err: Option<Constraint>)
    requires (v.Slice? || v.Map?) && Runs(v, c)
    ensures err.None? <==> Satisfies(v, c)
    ensures err.Some? ==> Fails(v, c, err.value)
    decreases v, c, 1
  {
    var length := if v.Slice? then |v.items| else |v.entries|;
    var ok: bool;
    if Absent(v, c) {
      err := CheckAbsent(c);
      if err.Some? {
        FailsHere(v, c);
      }
      return;
    }
    match c.name {
      case Null => ok := true;
      case Empty => ok := true;
      case MaxItems => ok := c.rule.IntRule? && !(length > c.rule.i);
      case MinItems => ok := c.rule.IntRule? && !(length < c.rule.i);
      case UniqueItems =>
        if v.Slice? {
          ok := CheckForUniqueInArray(v.items);
        } else {
          ok := CheckForUniqueInMap(v.entries);
        }
      case ReadOnly => ok := !(length != 0);
      case Pattern =>
        match c.rule.regex {
          case Malformed => ok := false;
          case Regex(matches) => ok := CheckKeys(v.entries, matches);
        }
      case _ => ok := false;
    }
    if !ok {
      FailsHere(v, c);
      return Some(c);
    }
    err := ValidateChain(v, c);
  }
}
