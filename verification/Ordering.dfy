/**
 Python's `sorted(..., key=...)` for keys of up to three integer components,
 compared left to right. Fixed-width digests and closed sets of names enter as
 integers, which keeps their order.
 */
module Ordering {
  datatype Key = Key(major: int, middle: int, minor: int)

  predicate Below(x: Key, y: Key) {
    || x.major < y.major
    || (x.major == y.major && x.middle < y.middle)
    || (x.major == y.major && x.middle == y.middle && x.minor < y.minor)
  }

  predicate AtMost(x: Key, y: Key) {
    x == y || Below(x, y)
  }

  ghost predicate SortedBy<T>(s: seq<T>, key: T -> Key) {
    forall i, j | 0 <= i < j < |s| :: AtMost(key(s[i]), key(s[j]))
  }

  /** Inserts behind every element that is not above `x`, which keeps the sort stable. */
  function Insert<T>(s: seq<T>, x: T, key: T -> Key): (r: seq<T>)
    ensures multiset(r) == multiset(s) + multiset{x}
    ensures |r| == |s| + 1
  {
    if s == [] then [x]
    else
      assert s == [s[0]] + s[1..];
      if Below(key(x), key(s[0])) then [x] + s else [s[0]] + Insert(s[1..], x, key)
  }

  lemma {:induction false} InsertSorted<T>(s: seq<T>, x: T, key: T -> Key)
    requires SortedBy(s, key)
    ensures SortedBy(Insert(s, x, key), key)
  {
    if s != [] && !Below(key(x), key(s[0])) {
      var rest := Insert(s[1..], x, key);
      InsertSorted(s[1..], x, key);
      forall y | y in rest
        ensures AtMost(key(s[0]), key(y))
      {
        assert y in multiset(rest);
        assert y == x || y in s[1..];
      }
    }
  }

  /** `sorted(s, key=key)`: the same elements, in key order. */
  function Sort<T>(s: seq<T>, key: T -> Key): (r: seq<T>)
    ensures multiset(r) == multiset(s)
    ensures |r| == |s|
    ensures SortedBy(r, key)
  {
    if s == [] then []
    else
      assert s == s[..|s| - 1] + [s[|s| - 1]];
      InsertSorted(Sort(s[..|s| - 1], key), s[|s| - 1], key);
      Insert(Sort(s[..|s| - 1], key), s[|s| - 1], key)
  }

  /** `sorted(s, key=key)` as callers see it: what the result is, not how it is reached. */
  method SortSeq<T>(s: seq<T>, key: T -> Key) returns (r: seq<T>)
    ensures multiset(r) == multiset(s) && |r| == |s|
    ensures SortedBy(r, key)
  {
    r := Sort(s, key);
  }

  lemma {:induction false} LeastExists<T>(s: set<T>, key: T -> Key) returns (least: T)
    requires s != {}
    ensures least in s && forall y | y in s :: AtMost(key(least), key(y))
  {
    var x :| x in s;
    if s == {x} {
      least := x;
    } else {
      var rest := LeastExists(s - {x}, key);
      least := if AtMost(key(x), key(rest)) then x else rest;
    }
  }

  /** `sorted(set, key=key)`: each element once, in key order. */
  method SortSet<T(==)>(s: set<T>, key: T -> Key) returns (order: seq<T>)
    ensures forall x :: x in order <==> x in s
    ensures forall i, j | 0 <= i < j < |order| :: order[i] != order[j]
    ensures SortedBy(order, key)
  {
    order := [];
    var rest := s;
    while rest != {}
      invariant rest <= s
      invariant forall x :: x in order <==> x in s && x !in rest
      invariant forall i, j | 0 <= i < j < |order| :: order[i] != order[j]
      invariant SortedBy(order, key)
      invariant forall x, y | x in order && y in rest :: AtMost(key(x), key(y))
      decreases rest
    {
      ghost var least := LeastExists(rest, key);
      var x :| x in rest && forall y | y in rest :: AtMost(key(x), key(y));
      order := order + [x];
      rest := rest - {x};
    }
  }

  lemma {:induction false} SameMembers<T>(a: seq<T>, b: seq<T>)
    requires multiset(a) == multiset(b)
    ensures forall x :: x in a <==> x in b
  {
    forall x
      ensures x in a <==> x in b
    {
      assert x in a <==> x in multiset(a);
    }
  }
}
