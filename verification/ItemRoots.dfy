/** `root_item_id` (scripts/chaos_eq_analyze.py): the outermost container of an item. */
module ItemRoots {
  import opened Wrappers
  import opened Chains

  /** Container pointers; an id that is not positive means no container. */
  function Pointers(containers: map<int, int>): map<int, Option<int>> {
    map id | id in containers :: if containers[id] <= 0 then None else Some(containers[id])
  }

  lemma {:induction false} RepeatedHasNoRoot(p: map<int, Option<int>>, id: int, i: nat, k: nat)
    requires i < k && Up(p, id, k).Some? && Up(p, id, i) == Up(p, id, k)
    ensures forall n: nat, root :: !RootAt(p, id, n, root)
  {
    forall n: nat, root
      ensures !RootAt(p, id, n, root)
    {
      RepeatNeverEnds(p, id, i, k, n + 1);
    }
  }

  lemma {:induction false} UnknownHasNoRoot(p: map<int, Option<int>>, id: int, k: nat)
    requires Up(p, id, k).Some? && Up(p, id, k).value !in p
    ensures forall n: nat, root :: !RootAt(p, id, n, root)
  {
    forall n: nat, root
      ensures !RootAt(p, id, n, root)
    {
      if RootAt(p, id, n, root) {
        if n < k {
          RootEndsChain(p, id, n, root, k);
        } else {
          UpPrefix(p, id, k, n);
        }
      }
    }
  }

  /** The walk finds the root exactly if the chain has one; a cycle or an unknown container gives None. */
  method RootItemId(containers: map<int, int>, id: int) returns (root: Option<int>)
    ensures root.Some? ==> exists k: nat :: RootAt(Pointers(containers), id, k, root.value)
    ensures root.None? ==> forall k: nat, r :: !RootAt(Pointers(containers), id, k, r)
  {
    var seen: set<int> := {};
    var current := id;
    ghost var p: map<int, Option<int>> := Pointers(containers);
    ghost var k: nat := 0;
    while true
      invariant Up(p, id, k) == Some(current)
      invariant forall x | x in seen :: x in containers && exists i: nat :: i < k && Up(p, id, i) == Some(x)
      decreases containers.Keys - seen
    {
      if current in seen {
        ghost var i: nat :| i < k && Up(p, id, i) == Some(current);
        RepeatedHasNoRoot(p, id, i, k);
        return None;
      }
      if current !in containers {
        UnknownHasNoRoot(p, id, k);
        return None;
      }
      seen := seen + {current};
      var parent := containers[current];
      if parent <= 0 {
        assert RootAt(p, id, k, current);
        return Some(current);
      }
      current := parent;
      k := k + 1;
    }
  }
}
