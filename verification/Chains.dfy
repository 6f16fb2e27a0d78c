/**
 Parent chains: a `map` from a node to its optional parent pointer. The item
 scripts all walk such chains; everything they ask of one is stated here once,
 by the `k`-th pointer reached from a start node.
 */
module Chains {
  import opened Wrappers

  /** The pointer reached after following `k` parent pointers from `start`. */
  ghost function Up<T>(p: map<T, Option<T>>, start: T, k: nat): Option<T> {
    if k == 0 then Some(start)
    else
      match Up(p, start, k - 1)
      case None => None
      case Some(x) => if x in p then p[x] else None
  }

  /** `start` reaches the parentless node `root` after `k` pointers. */
  ghost predicate RootAt<T>(p: map<T, Option<T>>, start: T, k: nat, root: T) {
    Up(p, start, k) == Some(root) && root in p && p[root] == None
  }

  /** The first `k` nodes from `start` are known and pairwise different. */
  ghost predicate Simple<T>(p: map<T, Option<T>>, start: T, k: nat) {
    && (forall i | 0 <= i < k :: Up(p, start, i).Some? && Up(p, start, i).value in p)
    && (forall i, j | 0 <= i < j < k :: Up(p, start, i) != Up(p, start, j))
  }

  /** A walk meets a node it has already visited, within `max` visited nodes. */
  ghost predicate CycleWithin<T>(p: map<T, Option<T>>, start: T, max: nat) {
    exists k: nat :: k <= max && RepeatAt(p, start, k)
  }

  ghost predicate RepeatAt<T>(p: map<T, Option<T>>, start: T, k: nat) {
    Simple(p, start, k) && exists i: nat :: i < k && Up(p, start, i) == Up(p, start, k)
  }

  /** The walk runs off the end: a null pointer or an unknown node within `max` nodes. */
  ghost predicate EndsWithin<T>(p: map<T, Option<T>>, start: T, max: nat) {
    Up(p, start, max).None? || Up(p, start, max).value !in p
  }

  /** `x` is known and its parent, if any, lies in `inside`. */
  ghost predicate ParentInside<T>(p: map<T, Option<T>>, inside: set<T>, x: T) {
    x in p && (p[x].Some? ==> p[x].value in inside)
  }

  /** The explicit trigger keeps the prover from running up the whole chain by itself. */
  ghost predicate ParentClosed<T>(p: map<T, Option<T>>, closed: set<T>) {
    forall x {:trigger ParentInside(p, closed, x)} | x in closed :: ParentInside(p, closed, x)
  }

  lemma {:induction false} UpAdd<T>(p: map<T, Option<T>>, start: T, a: nat, b: nat)
    requires Up(p, start, a).Some?
    ensures Up(p, start, a + b) == Up(p, Up(p, start, a).value, b)
  {
    if b == 0 {
    } else {
      UpAdd(p, start, a, b - 1);
    }
  }

  /** A pointer that exists was reached through known nodes only. */
  lemma {:induction false} UpPrefix<T>(p: map<T, Option<T>>, start: T, i: nat, k: nat)
    requires i <= k && Up(p, start, k).Some?
    ensures Up(p, start, i).Some?
    ensures i < k ==> Up(p, start, i).value in p
  {
    if i < k {
      UpPrefix(p, start, i, k - 1);
    }
  }

  /** Two equal positions stay equal when both are followed further. */
  lemma {:induction false} UpShift<T>(p: map<T, Option<T>>, start: T, i: nat, j: nat, t: nat)
    requires Up(p, start, i).Some? && Up(p, start, i) == Up(p, start, j)
    ensures Up(p, start, i + t) == Up(p, start, j + t)
  {
    UpAdd(p, start, i, t);
    UpAdd(p, start, j, t);
  }

  /** The first repetition of a walk decides every later one: its chain never ends. */
  lemma {:induction false} RepeatNeverEnds<T>(p: map<T, Option<T>>, start: T, i: nat, j: nat, n: nat)
    requires i < j && Up(p, start, j).Some? && Up(p, start, i) == Up(p, start, j)
    ensures Up(p, start, n).Some?
  {
    if n <= j {
      UpPrefix(p, start, n, j);
    } else {
      RepeatNeverEnds(p, start, i, j, n - (j - i));
      UpShift(p, start, i, j, n - j);
    }
  }

  /** A chain that stops has no repetition. */
  lemma {:induction false} EndedIsSimple<T>(p: map<T, Option<T>>, start: T, n: nat)
    requires Up(p, start, n).None?
    ensures forall i: nat, j: nat | i < j && Up(p, start, j).Some? ::
              Up(p, start, i) != Up(p, start, j)
  {
    forall i: nat, j: nat | i < j && Up(p, start, j).Some?
      ensures Up(p, start, i) != Up(p, start, j)
    {
      if Up(p, start, i) == Up(p, start, j) {
        RepeatNeverEnds(p, start, i, j, n);
      }
    }
  }

  lemma {:induction false} NoneStays<T>(p: map<T, Option<T>>, start: T, k: nat, n: nat)
    requires k <= n && Up(p, start, k).None?
    ensures Up(p, start, n).None?
  {
    if Up(p, start, n).Some? {
      UpPrefix(p, start, k, n);
    }
  }

  /** A root is the last node of its chain. */
  lemma {:induction false} RootEndsChain<T>(p: map<T, Option<T>>, start: T, k: nat, root: T, n: nat)
    requires RootAt(p, start, k, root) && k < n
    ensures Up(p, start, n).None?
  {
    assert Up(p, start, k + 1).None?;
    NoneStays(p, start, k + 1, n);
  }

  /** A node has at most one root, at one distance. */
  lemma {:induction false} RootUnique<T>(p: map<T, Option<T>>, start: T, k: nat, root: T, k': nat, root': T)
    requires RootAt(p, start, k, root) && RootAt(p, start, k', root')
    ensures k == k' && root == root'
  {
    if k < k' {
      RootEndsChain(p, start, k, root, k');
    } else if k' < k {
      RootEndsChain(p, start, k', root', k);
    }
  }

  /** Every node on the way to a root has the same root, correspondingly closer. */
  lemma {:induction false} RootFromMiddle<T>(p: map<T, Option<T>>, start: T, k: nat, root: T, i: nat)
    requires RootAt(p, start, k, root) && i <= k
    ensures Up(p, start, i).Some? && Up(p, start, i).value in p
    ensures RootAt(p, Up(p, start, i).value, k - i, root)
  {
    UpPrefix(p, start, i, k);
    UpAdd(p, start, i, k - i);
  }

  /** A rooted chain visits pairwise different known nodes. */
  lemma {:induction false} RootedIsSimple<T>(p: map<T, Option<T>>, start: T, k: nat, root: T)
    requires RootAt(p, start, k, root)
    ensures Simple(p, start, k + 1)
  {
    RootEndsChain(p, start, k, root, k + 1);
    EndedIsSimple(p, start, k + 1);
    forall i | 0 <= i < k + 1
      ensures Up(p, start, i).Some? && Up(p, start, i).value in p
    {
      UpPrefix(p, start, i, k);
    }
  }

  /** A simple walk of `k` nodes over a known next node either repeats or stays simple. */
  lemma {:induction false} RepeatOrSimple<T>(p: map<T, Option<T>>, start: T, max: nat, k: nat)
    requires k <= max + 1
    requires Up(p, start, max).Some? && Up(p, start, max).value in p
    ensures CycleWithin(p, start, max) || Simple(p, start, k)
  {
    if k > 0 {
      RepeatOrSimple(p, start, max, k - 1);
      UpPrefix(p, start, k - 1, max);
      if Simple(p, start, k - 1) && exists i: nat :: i < k - 1 && Up(p, start, i) == Up(p, start, k - 1) {
        assert RepeatAt(p, start, k - 1);
      }
    }
  }

  /**
   What a bounded walk can find is exhaustive and exclusive: it repeats a node
   within the bound, or it sees one node too many, or it runs off the end.
   */
  lemma {:induction false} WalkTrichotomy<T>(p: map<T, Option<T>>, start: T, max: nat)
    ensures EndsWithin(p, start, max) <==> !CycleWithin(p, start, max) && !Simple(p, start, max + 1)
    ensures !(CycleWithin(p, start, max) && Simple(p, start, max + 1))
  {
    if CycleWithin(p, start, max) {
      var k: nat :| k <= max && RepeatAt(p, start, k);
      var i: nat :| i < k && Up(p, start, i) == Up(p, start, k);
      RepeatNeverEnds(p, start, i, k, max + 1);
      UpPrefix(p, start, max, max + 1);
    }
    if !EndsWithin(p, start, max) {
      RepeatOrSimple(p, start, max, max + 1);
    }
  }

  /** A chain that stops has a last pointer. */
  lemma {:induction false} LastPointer<T>(p: map<T, Option<T>>, start: T, n: nat) returns (k: nat)
    requires Up(p, start, n).None?
    ensures k < n && Up(p, start, k).Some? && Up(p, start, k + 1).None?
  {
    if Up(p, start, n - 1).Some? {
      k := n - 1;
    } else {
      k := LastPointer(p, start, n - 1);
    }
  }

  /** In a parent-closed set of known nodes, a chain that runs off the end has a root there. */
  lemma {:induction false} ClosedChainIsRooted<T>(p: map<T, Option<T>>, closed: set<T>, start: T, max: nat)
    returns (k: nat, root: T)
    requires start in closed && EndsWithin(p, start, max)
    requires ParentClosed(p, closed)
    ensures k < max && RootAt(p, start, k, root)
    ensures forall i: nat | i <= k :: Up(p, start, i).Some? && Up(p, start, i).value in closed
  {
    forall i: nat | Up(p, start, i).Some?
      ensures Up(p, start, i).value in closed && Up(p, start, i).value in p
    {
      ClosedStays(p, closed, start, i);
      assert ParentInside(p, closed, Up(p, start, i).value);
    }
    k := LastPointer(p, start, max);
    root := Up(p, start, k).value;
    forall i: nat | i <= k
      ensures Up(p, start, i).Some?
    {
      UpPrefix(p, start, i, k);
    }
  }

  lemma {:induction false} ClosedStays<T>(p: map<T, Option<T>>, closed: set<T>, start: T, i: nat)
    requires start in closed && Up(p, start, i).Some?
    requires ParentClosed(p, closed)
    ensures Up(p, start, i).value in closed
  {
    if i > 0 {
      ClosedStays(p, closed, start, i - 1);
      assert ParentInside(p, closed, Up(p, start, i - 1).value);
    }
  }

  /** A pointer carried over to the new names. */
  ghost function Renamed<T, U>(f: map<T, U>, pointer: Option<T>): Option<U> {
    if pointer.Some? && pointer.value in f then Some(f[pointer.value]) else None
  }

  /** The renamed pointer map `n` has, for `x`, the renamed parent of `x`. */
  ghost predicate PointerRenamed<T, U>(p: map<T, Option<T>>, n: map<U, Option<U>>, f: map<T, U>, x: T) {
    x in f && x in p && f[x] in n && n[f[x]] == Renamed(f, p[x])
  }

  ghost predicate PointersRenamed<T, U>(p: map<T, Option<T>>, n: map<U, Option<U>>, f: map<T, U>) {
    forall x {:trigger PointerRenamed(p, n, f, x)} | x in f :: PointerRenamed(p, n, f, x)
  }

  /** Renaming every node of a parent-closed set renames every chain in it. */
  lemma {:induction false} RenamedChain<T, U>(p: map<T, Option<T>>, n: map<U, Option<U>>, f: map<T, U>, start: T,
                                              k: nat)
    requires start in f
    requires ParentClosed(p, f.Keys)
    requires PointersRenamed(p, n, f)
    ensures Up(n, f[start], k) == Renamed(f, Up(p, start, k))
  {
    if k > 0 {
      RenamedChain(p, n, f, start, k - 1);
      if Up(p, start, k - 1).Some? {
        ClosedStays(p, f.Keys, start, k - 1);
        assert ParentInside(p, f.Keys, Up(p, start, k - 1).value);
        assert PointerRenamed(p, n, f, Up(p, start, k - 1).value);
      }
    }
  }

  /** Renaming keeps roots, at their distance. */
  lemma {:induction false} RenamedRoot<T, U>(p: map<T, Option<T>>, n: map<U, Option<U>>, f: map<T, U>, start: T, k: nat,
                                             root: T)
    requires start in f && RootAt(p, start, k, root)
    requires ParentClosed(p, f.Keys) && PointersRenamed(p, n, f)
    ensures root in f && RootAt(n, f[start], k, f[root])
  {
    ClosedStays(p, f.Keys, start, k);
    RenamedChain(p, n, f, start, k);
    assert PointerRenamed(p, n, f, root);
  }
}
