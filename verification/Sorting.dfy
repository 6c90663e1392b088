/** The order sort.Strings sorts by, and the uniqueness of its result. */
module Sorting {
  import opened Text

  /** Go's <= on strings: bytewise, a proper prefix first. */
  predicate LessEq(a: Text, b: Text) {
    if a == [] then true
    else if b == [] then false
    else if a[0] == b[0] then LessEq(a[1..], b[1..])
    else a[0] < b[0]
  }

  lemma {:induction false} Total(a: Text, b: Text)
    ensures LessEq(a, b) || LessEq(b, a)
    ensures LessEq(a, b) && LessEq(b, a) ==> a == b
  {
    if a != [] && b != [] {
      Total(a[1..], b[1..]);
      assert a == [a[0]] + a[1..] && b == [b[0]] + b[1..];
    }
  }

  lemma {:induction false} Transitive(a: Text, b: Text, c: Text)
    requires LessEq(a, b) && LessEq(b, c)
    ensures LessEq(a, c)
  {
    if a != [] && b != [] && c != [] && a[0] == b[0] == c[0] {
      Transitive(a[1..], b[1..], c[1..]);
    }
  }

  ghost predicate Sorted(s: seq<Text>) {
    forall i, j :: 0 <= i < j < |s| ==> LessEq(s[i], s[j])
  }

  /** Sorted, and nothing twice. */
  ghost predicate Increasing(s: seq<Text>) {
    forall i, j :: 0 <= i < j < |s| ==> LessEq(s[i], s[j]) && s[i] != s[j]
  }

  function Insert(x: Text, s: seq<Text>): seq<Text> {
    if s == [] then [x]
    else if LessEq(x, s[0]) then [x] + s
    else [s[0]] + Insert(x, s[1..])
  }

  function Sort(s: seq<Text>): seq<Text> {
    if s == [] then [] else Insert(s[0], Sort(s[1..]))
  }

  lemma {:induction false} InsertAdds(x: Text, s: seq<Text>)
    ensures multiset(Insert(x, s)) == multiset(s) + multiset{x}
    ensures forall y :: y in Insert(x, s) ==> y == x || y in s
  {
    if s != [] && !LessEq(x, s[0]) {
      assert s == [s[0]] + s[1..];
      InsertAdds(x, s[1..]);
    }
  }

  lemma PrependSorted(x: Text, s: seq<Text>)
    requires Sorted(s) && forall y :: y in s ==> LessEq(x, y)
    ensures Sorted([x] + s)
  {
  }

  lemma {:induction false} InsertSorts(x: Text, s: seq<Text>)
    requires Sorted(s)
    ensures Sorted(Insert(x, s))
  {
    if s == [] {
    } else if LessEq(x, s[0]) {
      forall y | y in s
        ensures LessEq(x, y)
      {
        HeadLeast(s, y);
        Transitive(x, s[0], y);
      }
      PrependSorted(x, s);
    } else {
      Total(x, s[0]);
      InsertSorts(x, s[1..]);
      InsertAdds(x, s[1..]);
      forall y | y in Insert(x, s[1..])
        ensures LessEq(s[0], y)
      {
        if y != x {
          HeadLeast(s, y);
        }
      }
      PrependSorted(s[0], Insert(x, s[1..]));
    }
  }

  /** Sort returns a sorted permutation. */
  lemma {:induction false} SortSorts(s: seq<Text>)
    ensures Sorted(Sort(s)) && multiset(Sort(s)) == multiset(s)
  {
    if s != [] {
      SortSorts(s[1..]);
      InsertSorts(s[0], Sort(s[1..]));
      InsertAdds(s[0], Sort(s[1..]));
      assert s == [s[0]] + s[1..];
    }
  }

  lemma HeadLeast(a: seq<Text>, x: Text)
    requires Sorted(a) && x in a
    ensures LessEq(a[0], x)
  {
    var i :| 0 <= i < |a| && a[i] == x;
    if i == 0 {
      Total(x, x);
    }
  }

  lemma SameHead(a: seq<Text>, b: seq<Text>)
    requires Sorted(a) && Sorted(b) && multiset(a) == multiset(b) && a != []
    ensures b != [] && a[0] == b[0]
  {
    hide LessEq;
    assert a[0] in multiset(a) && a[0] in multiset(b) && a[0] in b;
    assert b[0] in multiset(b) && b[0] in multiset(a) && b[0] in a;
    HeadLeast(a, b[0]);
    HeadLeast(b, a[0]);
    Total(a[0], b[0]);
  }

  lemma TailMultiset(a: seq<Text>)
    requires a != []
    ensures multiset(a[1..]) == multiset(a) - multiset{a[0]}
  {
    assert a == [a[0]] + a[1..];
  }

  /** Two sorted lists with the same elements, counted, are the same list. */
  lemma {:induction false} SortedUnique(a: seq<Text>, b: seq<Text>)
    requires Sorted(a) && Sorted(b) && multiset(a) == multiset(b)
    ensures a == b
  {
    hide LessEq;
    if a == [] {
      assert |a| == |multiset(a)| == |multiset(b)| == |b|;
    } else {
      SameHead(a, b);
      TailMultiset(a);
      TailMultiset(b);
      SortedUnique(a[1..], b[1..]);
      assert a == [a[0]] + a[1..] && b == [b[0]] + b[1..];
    }
  }

  /** Sorting does not depend on the order it starts from. */
  lemma SortOrderFree(a: seq<Text>, b: seq<Text>)
    requires multiset(a) == multiset(b)
    ensures Sort(a) == Sort(b)
  {
    SortSorts(a);
    SortSorts(b);
    SortedUnique(Sort(a), Sort(b));
  }

  // ----- The keys of a map -----

  /** `order` is one of the orders in which Go may range over the keys. */
  ghost predicate IsOrder(order: seq<Text>, keys: set<Text>) {
    && (forall k :: k in order <==> k in keys)
    && forall i, j :: 0 <= i < j < |order| ==> order[i] != order[j]
  }

  /** Ranging over the keys of a map: some order. */
  method RangeOver(keys: set<Text>) returns (order: seq<Text>)
    ensures IsOrder(order, keys)
  {
    order := [];
    var todo := keys;
    while todo != {}
      invariant todo <= keys && IsOrder(order, keys - todo)
      decreases todo
    {
      var k :| k in todo;
      order, todo := order + [k], todo - {k};
    }
    assert keys - todo == keys;
  }

  ghost function SomeOrder(keys: set<Text>): (order: seq<Text>)
    ensures IsOrder(order, keys)
  {
    if keys == {} then [] else
      var k :| k in keys;
      [k] + SomeOrder(keys - {k})
  }

  ghost function SortedKeys(keys: set<Text>): seq<Text> {
    Sort(SomeOrder(keys))
  }

  lemma {:induction false} OrderMultiset(order: seq<Text>, keys: set<Text>)
    requires IsOrder(order, keys)
    ensures multiset(order) == multiset(keys)
  {
    if order != [] {
      var rest := order[1..];
      assert order == [order[0]] + rest;
      assert forall i :: 0 <= i < |rest| ==> rest[i] == order[i + 1];
      OrderMultiset(rest, keys - {order[0]});
    } else {
      assert keys == {};
    }
  }

  lemma MultisetOrder(s: seq<Text>, keys: set<Text>)
    requires multiset(s) == multiset(keys)
    ensures IsOrder(s, keys)
  {
    forall k
      ensures k in s <==> k in keys
    {
      assert k in s <==> k in multiset(s);
    }
    forall i, j | 0 <= i < j < |s|
      ensures s[i] != s[j]
    {
      TwiceCounted(s, i, j);
      assert multiset(keys)[s[j]] <= 1;
    }
  }

  lemma TwiceCounted(s: seq<Text>, i: nat, j: nat)
    requires i < j < |s|
    ensures s[i] == s[j] ==> multiset(s)[s[j]] >= 2
  {
    var a, b := s[..j], s[j..];
    assert s == a + b && a[i] == s[i] && b[0] == s[j];
    assert s[i] in multiset(a) && s[j] in multiset(b);
    assert multiset(s) == multiset(a) + multiset(b);
  }

  /** The keys in increasing order are the same whichever way the map was ranged over. */
  lemma SortedKeysUnique(order: seq<Text>, keys: set<Text>)
    requires IsOrder(order, keys)
    ensures Sort(order) == SortedKeys(keys)
    ensures IsOrder(SortedKeys(keys), keys) && Increasing(SortedKeys(keys))
  {
    OrderMultiset(order, keys);
    OrderMultiset(SomeOrder(keys), keys);
    SortOrderFree(order, SomeOrder(keys));
    SortSorts(order);
    MultisetOrder(Sort(order), keys);
  }
}
