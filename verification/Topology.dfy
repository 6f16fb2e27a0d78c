/**
 The custody topology classifier (scripts/classify_item_topology.py): one row per
 item, payload roots resolved with memoised failures, and one category per item.
 */
module Topology {
  import opened Wrappers
  import opened Chains
  import opened Ordering

  type Uid = nat

  datatype Table = AccountLockerItems | CorpseItems | LockerItems | PlayerItems | SavedItems

  datatype Row = Row(
    sourceTable: Table, sourceRowId: nat, itemUid: Uid, payloadParentUid: Option<Uid>,
    payloadOwnerType: int, payloadOwnerId: Option<int>, payloadOwnerContextId: int, vnum: int,
    brokenParent: bool, quarantined: bool,
    currentRootUid: Option<Uid>, currentParentUid: Option<Uid>,
    currentOwnerType: Option<int>, currentOwnerId: Option<int>, currentOwnerContextId: Option<int>,
    itemRevision: Option<int>, currentVnum: Option<int>, state: Option<int>, expectedItemRevision: Option<int>,
    payloadParentState: Option<int>, payloadParentOwnerType: Option<int>,
    payloadParentOwnerId: Option<int>, payloadParentOwnerContextId: Option<int>)

  /** Declared in the alphabetical order of the reported names. */
  datatype Category =
    | AmbiguousPayload | Cycle | DepthExceeded | DuplicateCustodyRows | ExpectedInactiveState | ExpectedQuarantine
    | ForeignOrInactiveParent | ItemRevisionMismatch | MissingAncestor | MissingBaseline | MissingCurrentOwner
    | MissingCurrentParent | MissingPayloadOwner | MissingPayloadParent | OwnerDisagreement
    | RepairableProjectionLag | VnumMismatch

  datatype Finding = Finding(category: Category, row: Row, expectedRootUid: Option<Uid>) {
    predicate Expected() { category in {ExpectedQuarantine, ExpectedInactiveState} }
    predicate Repairable() { category == RepairableProjectionLag }
  }

  // ----- canonical rows -----

  /** `(row.payload_parent_uid, ..., row.vnum)`. */
  function Payload(row: Row): (Option<Uid>, int, Option<int>, int, int) {
    (row.payloadParentUid, row.payloadOwnerType, row.payloadOwnerId, row.payloadOwnerContextId, row.vnum)
  }

  /** The rows of one item, in input order. */
  function Candidates(rows: seq<Row>, uid: Uid): (c: seq<Row>)
    ensures forall r :: r in c <==> r in rows && r.itemUid == uid
  {
    if rows == [] then []
    else
      var last := rows[|rows| - 1];
      assert rows == rows[..|rows| - 1] + [last];
      Candidates(rows[..|rows| - 1], uid) + if last.itemUid == uid then [last] else []
  }

  /** Why an item's own rows disqualify it, if they do. */
  ghost function RowDefect(candidates: seq<Row>): Option<Category> {
    if exists r :: r in candidates && r.brokenParent then Some(MissingPayloadParent)
    else if exists r, s :: r in candidates && s in candidates && Payload(r) != Payload(s) then Some(AmbiguousPayload)
    else if |candidates| != 1 then Some(DuplicateCustodyRows)
    else None
  }

  ghost function Defect(rows: seq<Row>, uid: Uid): Option<Category> {
    RowDefect(Candidates(rows, uid))
  }

  ghost predicate GroupedUpTo(rows: seq<Row>, n: nat, grouped: map<Uid, seq<Row>>) {
    && n <= |rows|
    && (forall uid :: uid in grouped <==> Candidates(rows[..n], uid) != [])
    && forall uid | uid in grouped :: grouped[uid] == Candidates(rows[..n], uid)
  }

  lemma {:induction false} OneMoreRow(rows: seq<Row>, n: nat, uid: Uid)
    requires n < |rows|
    ensures Candidates(rows[..n + 1], uid) ==
              Candidates(rows[..n], uid) + if rows[n].itemUid == uid then [rows[n]] else []
  {
    assert rows[..n + 1][..n] == rows[..n];
  }

  lemma {:induction false} GroupNext(rows: seq<Row>, n: nat, grouped: map<Uid, seq<Row>>)
    requires n < |rows| && GroupedUpTo(rows, n, grouped)
    ensures var uid := rows[n].itemUid;
            GroupedUpTo(rows, n + 1, grouped[uid := (if uid in grouped then grouped[uid] else []) + [rows[n]]])
  {
    hide Candidates;
    forall uid: Uid
      ensures Candidates(rows[..n + 1], uid) ==
                Candidates(rows[..n], uid) + if rows[n].itemUid == uid then [rows[n]] else []
    {
      OneMoreRow(rows, n, uid);
    }
  }

  /** `grouped`. */
  method GroupRows(rows: seq<Row>) returns (grouped: map<Uid, seq<Row>>)
    ensures forall uid :: uid in grouped <==> Candidates(rows, uid) != []
    ensures forall uid | uid in grouped :: grouped[uid] == Candidates(rows, uid)
  {
    grouped := map[];
    assert GroupedUpTo(rows, 0, grouped);
    hide Candidates;
    for n := 0 to |rows|
      invariant GroupedUpTo(rows, n, grouped)
    {
      var row := rows[n];
      var soFar := if row.itemUid in grouped then grouped[row.itemUid] else [];
      GroupNext(rows, n, grouped);
      grouped := grouped[row.itemUid := soFar + [row]];
    }
    assert rows[..|rows|] == rows;
  }

  /** The three tests of `_canonical_rows` on one group. */
  method DefectOf(candidates: seq<Row>) returns (defect: Option<Category>)
    requires candidates != []
    ensures defect == RowDefect(candidates)
  {
    var payloads := set r | r in candidates :: Payload(r);
    var broken := exists r :: r in candidates && r.brokenParent;
    OnePayload(candidates, payloads);
    if broken {
      defect := Some(MissingPayloadParent);
    } else if |payloads| != 1 {
      defect := Some(AmbiguousPayload);
    } else if |candidates| != 1 {
      defect := Some(DuplicateCustodyRows);
    } else {
      defect := None;
    }
  }

  lemma {:induction false} OnePayload(candidates: seq<Row>, payloads: set<(Option<Uid>, int, Option<int>, int, int)>)
    requires candidates != [] && payloads == set r | r in candidates :: Payload(r)
    ensures |payloads| == 1 <==> forall r, s | r in candidates && s in candidates :: Payload(r) == Payload(s)
  {
    assert Payload(candidates[0]) in payloads;
    if |payloads| == 1 {
      assert |payloads - {Payload(candidates[0])}| == 0;
      forall r, s | r in candidates && s in candidates
        ensures Payload(r) == Payload(s)
      {
        assert Payload(r) in payloads && Payload(s) in payloads;
      }
    }
    if forall r, s | r in candidates && s in candidates :: Payload(r) == Payload(s) {
      assert payloads == {Payload(candidates[0])};
    }
  }

  /** `_canonical_rows`: the first row of every item, and the items whose rows disqualify them. */
  method CanonicalRows(rows: seq<Row>) returns (canonical: map<Uid, Row>, invalid: map<Uid, Category>)
    ensures IsCanonical(rows, canonical, invalid)
  {
    var grouped := GroupRows(rows);
    canonical, invalid := map[], map[];
    var todo := grouped.Keys;
    while todo != {}
      invariant todo <= grouped.Keys && canonical.Keys == grouped.Keys - todo && invalid.Keys <= canonical.Keys
      invariant forall uid | uid in canonical :: canonical[uid] == Candidates(rows, uid)[0]
      invariant forall uid | uid in canonical ::
                  Defect(rows, uid) == if uid in invalid then Some(invalid[uid]) else None
      decreases todo
    {
      var uid :| uid in todo;
      var defect := DefectOf(grouped[uid]);
      if defect.Some? {
        invalid := invalid[uid := defect.value];
      }
      canonical := canonical[uid := grouped[uid][0]];
      todo := todo - {uid};
    }
  }

  ghost predicate IsCanonical(rows: seq<Row>, canonical: map<Uid, Row>, invalid: map<Uid, Category>) {
    && invalid.Keys <= canonical.Keys
    && (forall uid :: uid in canonical <==> Candidates(rows, uid) != [])
    && (forall uid | uid in canonical :: canonical[uid] == Candidates(rows, uid)[0])
    && (forall uid | uid in canonical :: Defect(rows, uid) == if uid in invalid then Some(invalid[uid]) else None)
  }

  lemma {:induction false} CanonicalIsKeyed(rows: seq<Row>, canonical: map<Uid, Row>, invalid: map<Uid, Category>)
    requires IsCanonical(rows, canonical, invalid)
    ensures Keyed(canonical)
  {
    forall uid | uid in canonical
      ensures canonical[uid].itemUid == uid
    {
      assert canonical[uid] in Candidates(rows, uid);
    }
  }

  // ----- roots -----

  ghost function Parents(rows: map<Uid, Row>): map<Uid, Option<Uid>> {
    map u | u in rows :: rows[u].payloadParentUid
  }

  /** The plain ancestor walk: `root` is reached within the limit and nothing on the way is in `bad`. */
  ghost predicate CleanTo(p: map<Uid, Option<Uid>>, bad: set<Uid>, maximumDepth: nat, start: Uid, root: Uid) {
    exists k: nat :: k < maximumDepth && CleanAt(p, bad, start, k, root)
  }

  ghost predicate CleanAt(p: map<Uid, Option<Uid>>, bad: set<Uid>, start: Uid, k: nat, root: Uid) {
    RootAt(p, start, k, root) && forall i: nat | i <= k :: Up(p, start, i).Some? && Up(p, start, i).value !in bad
  }

  ghost predicate Clean(p: map<Uid, Option<Uid>>, bad: set<Uid>, maximumDepth: nat, start: Uid) {
    exists root :: CleanTo(p, bad, maximumDepth, start, root)
  }

  /** A defect of this category really is on the item's chain. */
  ghost predicate Blames(p: map<Uid, Option<Uid>>, invalid: map<Uid, Category>, maximumDepth: nat, start: Uid,
                         category: Category)
  {
    exists k: nat :: Up(p, start, k).Some? && BlamesNode(p, invalid, maximumDepth, Up(p, start, k).value, category)
  }

  ghost predicate BlamesNode(p: map<Uid, Option<Uid>>, invalid: map<Uid, Category>, maximumDepth: nat, node: Uid,
                             category: Category)
  {
    || (node in invalid && category == invalid[node])
    || (node !in p && category == MissingAncestor)
    || (category == Cycle && exists k: nat :: k > 0 && Up(p, node, k) == Some(node))
    || (category == DepthExceeded && Simple(p, node, maximumDepth + 1))
  }

  /** A node on a clean chain is clean itself. */
  lemma {:induction false} CleanFromMiddle(p: map<Uid, Option<Uid>>, bad: set<Uid>, maximumDepth: nat, start: Uid,
                                           root: Uid, k: nat, i: nat)
    requires k < maximumDepth && CleanAt(p, bad, start, k, root) && i <= k
    ensures CleanTo(p, bad, maximumDepth, Up(p, start, i).value, root)
  {
    var node := Up(p, start, i).value;
    RootFromMiddle(p, start, k, root, i);
    forall j: nat | j <= k - i
      ensures Up(p, node, j).Some? && Up(p, node, j).value !in bad
    {
      UpAdd(p, start, i, j);
    }
    assert CleanAt(p, bad, node, k - i, root);
  }

  lemma {:induction false} BlameAbove(p: map<Uid, Option<Uid>>, invalid: map<Uid, Category>, maximumDepth: nat,
                                      start: Uid, i: nat, category: Category)
    requires Up(p, start, i).Some? && Blames(p, invalid, maximumDepth, Up(p, start, i).value, category)
    ensures Blames(p, invalid, maximumDepth, start, category)
  {
    var k: nat :| Up(p, Up(p, start, i).value, k).Some?
                  && BlamesNode(p, invalid, maximumDepth, Up(p, Up(p, start, i).value, k).value, category);
    UpAdd(p, start, i, k);
    assert Up(p, start, i + k).Some?;
  }

  lemma {:induction false} BlameHere(p: map<Uid, Option<Uid>>, invalid: map<Uid, Category>, maximumDepth: nat,
                                     start: Uid, i: nat, category: Category)
    requires Up(p, start, i).Some? && BlamesNode(p, invalid, maximumDepth, Up(p, start, i).value, category)
    ensures Blames(p, invalid, maximumDepth, start, category)
  {
  }

  ghost predicate TrulyFailed(p: map<Uid, Option<Uid>>, invalid: map<Uid, Category>, maximumDepth: nat, u: Uid,
                              category: Category)
  {
    !Clean(p, invalid.Keys, maximumDepth, u) && Blames(p, invalid, maximumDepth, u, category)
  }

  /** The memoised failures: really unclean, and each with a defect that is really there. */
  ghost predicate SoundFailures(p: map<Uid, Option<Uid>>, invalid: map<Uid, Category>, maximumDepth: nat,
                                failures: map<Uid, Category>)
  {
    && invalid.Keys <= failures.Keys
    && (forall u | u in invalid :: failures[u] == invalid[u])
    && (forall u | u in failures :: TrulyFailed(p, invalid, maximumDepth, u, failures[u]))
  }

  datatype Walk = Rooted(root: Uid) | Failed(category: Category)

  /** The state of the walk after `k` nodes. */
  ghost predicate Walking(p: map<Uid, Option<Uid>>, failures: map<Uid, Category>, start: Uid, k: nat, current: Uid,
                          visited: set<Uid>)
  {
    && Up(p, start, k) == Some(current) && Simple(p, start, k)
    && (forall i: nat | i < k :: Up(p, start, i).value !in failures)
    && visited == set i | 0 <= i < k :: Up(p, start, i).value
  }

  lemma {:induction false} WalkOn(p: map<Uid, Option<Uid>>, failures: map<Uid, Category>, start: Uid, k: nat,
                                  current: Uid, visited: set<Uid>)
    requires Walking(p, failures, start, k, current, visited)
    requires current in p && current !in failures && current !in visited
    ensures Simple(p, start, k + 1)
    ensures p[current].Some? ==> Walking(p, failures, start, k + 1, p[current].value, visited + {current})
  {
  }

  /** Running into a failed node, a visited node or an unknown node rules out a clean chain. */
  lemma {:induction false} WalkFails(p: map<Uid, Option<Uid>>, invalid: map<Uid, Category>, maximumDepth: nat,
                                     failures: map<Uid, Category>,
                  start: Uid, k: nat, current: Uid, visited: set<Uid>, category: Category)
    requires SoundFailures(p, invalid, maximumDepth, failures) && Walking(p, failures, start, k, current, visited)
    requires || (current in failures && category == failures[current])
             || (current in visited && category == Cycle)
             || (current !in p && category == MissingAncestor)
    ensures !Clean(p, invalid.Keys, maximumDepth, start)
    ensures Blames(p, invalid, maximumDepth, start, category)
  {
    forall root, m: nat | m < maximumDepth && CleanAt(p, invalid.Keys, start, m, root)
      ensures false
    {
      if k > m {
        RootEndsChain(p, start, m, root, k);
      }
      RootedIsSimple(p, start, m, root);
      CleanFromMiddle(p, invalid.Keys, maximumDepth, start, root, m, k);
    }
    if current in failures && category == failures[current] {
      BlameAbove(p, invalid, maximumDepth, start, k, category);
    } else if current !in p && category == MissingAncestor {
      BlameHere(p, invalid, maximumDepth, start, k, category);
    } else {
      var i :| 0 <= i < k && Up(p, start, i).value == current;
      UpAdd(p, start, i, k - i);
      BlameHere(p, invalid, maximumDepth, start, k, Cycle);
    }
  }

  /** More than `maximumDepth` different nodes rule out a clean chain as well. */
  lemma {:induction false} WalkTooDeep(p: map<Uid, Option<Uid>>, invalid: map<Uid, Category>, maximumDepth: nat,
                                       start: Uid)
    requires Simple(p, start, maximumDepth + 1)
    ensures !Clean(p, invalid.Keys, maximumDepth, start)
    ensures Blames(p, invalid, maximumDepth, start, DepthExceeded)
  {
    forall root, m: nat | m < maximumDepth && CleanAt(p, invalid.Keys, start, m, root)
      ensures false
    {
      RootEndsChain(p, start, m, root, maximumDepth);
    }
    BlameHere(p, invalid, maximumDepth, start, 0, DepthExceeded);
  }

  lemma {:induction false} WalkRoots(p: map<Uid, Option<Uid>>, invalid: map<Uid, Category>, maximumDepth: nat,
                                     failures: map<Uid, Category>,
                  start: Uid, k: nat, current: Uid, visited: set<Uid>)
    requires SoundFailures(p, invalid, maximumDepth, failures) && Walking(p, failures, start, k, current, visited)
    requires current in p && current !in failures && p[current] == None && k < maximumDepth
    ensures CleanTo(p, invalid.Keys, maximumDepth, start, current)
  {
    forall i: nat | i <= k
      ensures Up(p, start, i).Some? && Up(p, start, i).value !in invalid.Keys
    {
      UpPrefix(p, start, i, k);
    }
    assert CleanAt(p, invalid.Keys, start, k, current);
  }

  /** The inner `while True` of `_roots`. */
  method WalkToRoot(rows: map<Uid, Row>, ghost invalid: map<Uid, Category>, failures: map<Uid, Category>,
                    maximumDepth: nat, start: Uid)
    returns (walk: Walk)
    requires start in rows && SoundFailures(Parents(rows), invalid, maximumDepth, failures)
    ensures walk.Rooted? ==> CleanTo(Parents(rows), invalid.Keys, maximumDepth, start, walk.root)
    ensures walk.Failed? ==>
              && !Clean(Parents(rows), invalid.Keys, maximumDepth, start)
              && Blames(Parents(rows), invalid, maximumDepth, start, walk.category)
  {
    ghost var p := Parents(rows);
    var visited: set<Uid> := {};
    var current := start;
    var length := 0;
    while true
      invariant Walking(p, failures, start, length, current, visited) && length <= maximumDepth
      decreases maximumDepth - length
    {
      if current in failures {
        WalkFails(p, invalid, maximumDepth, failures, start, length, current, visited, failures[current]);
        return Failed(failures[current]);
      }
      if current in visited {
        WalkFails(p, invalid, maximumDepth, failures, start, length, current, visited, Cycle);
        return Failed(Cycle);
      }
      if current !in rows {
        WalkFails(p, invalid, maximumDepth, failures, start, length, current, visited, MissingAncestor);
        return Failed(MissingAncestor);
      }
      WalkOn(p, failures, start, length, current, visited);
      if length + 1 > maximumDepth {
        WalkTooDeep(p, invalid, maximumDepth, start);
        return Failed(DepthExceeded);
      }
      if rows[current].payloadParentUid.None? {
        WalkRoots(p, invalid, maximumDepth, failures, start, length, current, visited);
        return Rooted(current);
      }
      visited := visited + {current};
      length := length + 1;
      current := rows[current].payloadParentUid.value;
    }
  }

  /** The two result dictionaries, with `todo` still to be resolved. */
  ghost predicate Resolved(p: map<Uid, Option<Uid>>, invalid: map<Uid, Category>, maximumDepth: nat,
                           todo: set<Uid>, roots: map<Uid, Uid>, failures: map<Uid, Category>)
  {
    && todo <= p.Keys && roots.Keys !! todo && roots.Keys !! failures.Keys
    && p.Keys - todo <= roots.Keys + failures.Keys <= p.Keys
    && SoundFailures(p, invalid, maximumDepth, failures)
    && forall u | u in roots :: CleanTo(p, invalid.Keys, maximumDepth, u, roots[u])
  }

  lemma {:induction false} ResolveRoot(p: map<Uid, Option<Uid>>, invalid: map<Uid, Category>, maximumDepth: nat,
                    todo: set<Uid>, roots: map<Uid, Uid>, failures: map<Uid, Category>, u: Uid, root: Uid)
    requires Resolved(p, invalid, maximumDepth, todo, roots, failures) && u in todo && u !in failures
    requires CleanTo(p, invalid.Keys, maximumDepth, u, root)
    ensures Resolved(p, invalid, maximumDepth, todo - {u}, roots[u := root], failures)
  {
  }

  lemma {:induction false} ResolveFailure(p: map<Uid, Option<Uid>>, invalid: map<Uid, Category>, maximumDepth: nat,
                       todo: set<Uid>, roots: map<Uid, Uid>, failures: map<Uid, Category>, u: Uid, category: Category)
    requires Resolved(p, invalid, maximumDepth, todo, roots, failures) && u in todo && u !in failures
    requires !Clean(p, invalid.Keys, maximumDepth, u) && Blames(p, invalid, maximumDepth, u, category)
    ensures Resolved(p, invalid, maximumDepth, todo - {u}, roots, failures[u := category])
  {
    AddFailure(p, invalid, maximumDepth, failures, u, category);
  }

  lemma {:induction false} AddFailure(p: map<Uid, Option<Uid>>, invalid: map<Uid, Category>, maximumDepth: nat,
                   failures: map<Uid, Category>, u: Uid, category: Category)
    requires SoundFailures(p, invalid, maximumDepth, failures) && u !in failures
    requires !Clean(p, invalid.Keys, maximumDepth, u) && Blames(p, invalid, maximumDepth, u, category)
    ensures SoundFailures(p, invalid, maximumDepth, failures[u := category])
  {
    assert TrulyFailed(p, invalid, maximumDepth, u, category);
    hide TrulyFailed, Clean, Blames;
  }

  /**
   `_roots`, with the items taken in an arbitrary order. The memo never changes who
   gets a root or which one; it can only change which of the chain's defects is named.
   */
  method Roots(rows: map<Uid, Row>, invalid: map<Uid, Category>, maximumDepth: nat)
    returns (roots: map<Uid, Uid>, failures: map<Uid, Category>)
    requires invalid.Keys <= rows.Keys
    ensures Resolved(Parents(rows), invalid, maximumDepth, {}, roots, failures)
  {
    ghost var p := Parents(rows);
    roots, failures := map[], invalid;
    InvalidIsSound(p, invalid, maximumDepth);
    var todo := rows.Keys;
    while todo != {}
      invariant Resolved(p, invalid, maximumDepth, todo, roots, failures)
      decreases todo
    {
      var uid :| uid in todo;
      if uid !in failures {
        var walk := WalkToRoot(rows, invalid, failures, maximumDepth, uid);
        match walk {
          case Rooted(root) =>
            ResolveRoot(p, invalid, maximumDepth, todo, roots, failures, uid, root);
            roots := roots[uid := root];
          case Failed(category) =>
            ResolveFailure(p, invalid, maximumDepth, todo, roots, failures, uid, category);
            failures := failures[uid := category];
        }
      }
      todo := todo - {uid};
    }
  }

  /** What `_roots` promises, in terms of the plain walk alone. */
  lemma {:induction false} MemoAgreesWithPlainWalk(p: map<Uid, Option<Uid>>, invalid: map<Uid, Category>,
                                                   maximumDepth: nat,
                                roots: map<Uid, Uid>, failures: map<Uid, Category>, u: Uid)
    requires Resolved(p, invalid, maximumDepth, {}, roots, failures) && u in p
    ensures u in roots <==> Clean(p, invalid.Keys, maximumDepth, u)
    ensures u in roots <==> u !in failures
    ensures forall root :: CleanTo(p, invalid.Keys, maximumDepth, u, root) <==> u in roots && roots[u] == root
  {
    forall root | CleanTo(p, invalid.Keys, maximumDepth, u, root)
      ensures u in roots && roots[u] == root
    {
      assert Clean(p, invalid.Keys, maximumDepth, u);
      RootsAreUnique(p, invalid.Keys, maximumDepth, u, root, roots[u]);
    }
  }

  lemma {:induction false} InvalidIsSound(p: map<Uid, Option<Uid>>, invalid: map<Uid, Category>, maximumDepth: nat)
    ensures SoundFailures(p, invalid, maximumDepth, invalid)
  {
    forall u | u in invalid
      ensures !Clean(p, invalid.Keys, maximumDepth, u) && Blames(p, invalid, maximumDepth, u, invalid[u])
    {
      assert Up(p, u, 0) == Some(u);
      BlameHere(p, invalid, maximumDepth, u, 0, invalid[u]);
    }
  }

  /** An item has at most one root, and a clean item has no defect: the two outcomes exclude each other. */
  lemma {:induction false} RootsAreUnique(p: map<Uid, Option<Uid>>, bad: set<Uid>, maximumDepth: nat, u: Uid, a: Uid,
                                          b: Uid)
    requires CleanTo(p, bad, maximumDepth, u, a) && CleanTo(p, bad, maximumDepth, u, b)
    ensures a == b
  {
    var k: nat :| k < maximumDepth && CleanAt(p, bad, u, k, a);
    var m: nat :| m < maximumDepth && CleanAt(p, bad, u, m, b);
    RootUnique(p, u, k, a, m, b);
  }

  // ----- classification -----

  predicate OwnersAgree(row: Row) {
    (row.currentOwnerType, row.currentOwnerId, row.currentOwnerContextId)
    == (Some(row.payloadOwnerType), row.payloadOwnerId, Some(row.payloadOwnerContextId))
  }

  predicate ParentOwnerAgrees(row: Row) {
    (row.payloadParentOwnerType, row.payloadParentOwnerId, row.payloadParentOwnerContextId)
    == (Some(row.payloadOwnerType), row.payloadOwnerId, Some(row.payloadOwnerContextId))
  }

  /** The `elif` chain of `classify` for one item; `None` is a clean item. */
  function CategoryOf(row: Row, root: Option<Uid>, failure: Option<Category>): Option<Category> {
    if row.payloadOwnerId.None? then Some(MissingPayloadOwner)
    else if failure.Some? then failure
    else if row.currentOwnerType.None? then Some(MissingCurrentOwner)
    else if row.currentVnum != Some(row.vnum) then Some(VnumMismatch)
    else if row.expectedItemRevision.None? && row.itemRevision == Some(0) then Some(MissingBaseline)
    else if row.expectedItemRevision.Some? && row.itemRevision != row.expectedItemRevision then
      Some(ItemRevisionMismatch)
    else if !OwnersAgree(row) then Some(OwnerDisagreement)
    else if row.payloadParentUid.Some? && row.payloadParentState.None? then Some(MissingCurrentParent)
    else if row.payloadParentUid.Some? && (row.payloadParentState != Some(1) || !ParentOwnerAgrees(row)) then
      Some(ForeignOrInactiveParent)
    else if row.quarantined then Some(ExpectedQuarantine)
    else if row.state != Some(1) then Some(ExpectedInactiveState)
    else if row.currentParentUid != row.payloadParentUid || row.currentRootUid != root then
      Some(RepairableProjectionLag)
    else None
  }

  function TableRank(table: Table): int {
    match table
    case AccountLockerItems => 0
    case CorpseItems => 1
    case LockerItems => 2
    case PlayerItems => 3
    case SavedItems => 4
  }

  function CategoryRank(category: Category): int {
    match category
    case AmbiguousPayload => 0
    case Cycle => 1
    case DepthExceeded => 2
    case DuplicateCustodyRows => 3
    case ExpectedInactiveState => 4
    case ExpectedQuarantine => 5
    case ForeignOrInactiveParent => 6
    case ItemRevisionMismatch => 7
    case MissingAncestor => 8
    case MissingBaseline => 9
    case MissingCurrentOwner => 10
    case MissingCurrentParent => 11
    case MissingPayloadOwner => 12
    case MissingPayloadParent => 13
    case OwnerDisagreement => 14
    case RepairableProjectionLag => 15
    case VnumMismatch => 16
  }

  function ReportKey(f: Finding): Key {
    Key(CategoryRank(f.category), TableRank(f.row.sourceTable), f.row.sourceRowId)
  }

  /** The finding the report holds for an item, if it holds one. */
  ghost predicate Reports(canonical: map<Uid, Row>, roots: map<Uid, Uid>, failures: map<Uid, Category>, f: Finding,
                          uid: Uid)
  {
    && uid in canonical && f.row == canonical[uid]
    && f.expectedRootUid == (if uid in roots then Some(roots[uid]) else None)
    && Some(f.category) == CategoryOf(canonical[uid], f.expectedRootUid,
                                      if uid in failures then Some(failures[uid]) else None)
  }

  ghost predicate IsClean(canonical: map<Uid, Row>, roots: map<Uid, Uid>, failures: map<Uid, Category>, uid: Uid)
    requires uid in canonical
  {
    CategoryOf(canonical[uid], if uid in roots then Some(roots[uid]) else None,
               if uid in failures then Some(failures[uid]) else None) == None
  }

  /** Every row stands for its own item. */
  ghost predicate Keyed(canonical: map<Uid, Row>) {
    forall uid | uid in canonical :: canonical[uid].itemUid == uid
  }

  /** No item is reported twice. */
  ghost predicate OnceEach(findings: seq<Finding>) {
    forall i, j | 0 <= i < j < |findings| :: findings[i].row.itemUid != findings[j].row.itemUid
  }

  ghost function Items(findings: seq<Finding>): set<Uid> {
    set f | f in findings :: f.row.itemUid
  }

  lemma {:induction false} OneMoreFinding(front: seq<Finding>, last: Finding)
    ensures Items(front + [last]) == Items(front) + {last.row.itemUid}
    ensures OnceEach(front + [last]) <==> OnceEach(front) && last.row.itemUid !in Items(front)
  {
    var all := front + [last];
    assert forall f | f in all :: f in front || f == last;
    assert forall i | 0 <= i < |front| :: all[i] == front[i] && front[i].row.itemUid in Items(front);
    if OnceEach(all) {
      assert forall i, j | 0 <= i < j < |front| :: all[i].row.itemUid != all[j].row.itemUid;
      assert forall i | 0 <= i < |front| :: all[i].row.itemUid != all[|front|].row.itemUid;
    }
  }

  lemma {:induction false} OnceEachBySize(findings: seq<Finding>)
    ensures |Items(findings)| <= |findings|
    ensures |Items(findings)| == |findings| <==> OnceEach(findings)
  {
    if findings != [] {
      var n := |findings| - 1;
      var front, last := findings[..n], findings[n];
      OnceEachBySize(front);
      OneMoreFinding(front, last);
      hide Items, OnceEach;
      assert findings == front + [last];
      assert last.row.itemUid in Items(front) ==> Items(front) + {last.row.itemUid} == Items(front);
    }
  }

  lemma {:induction false} OnceEachPermutes(a: seq<Finding>, b: seq<Finding>)
    requires multiset(a) == multiset(b) && |a| == |b| && OnceEach(a)
    ensures OnceEach(b)
  {
    SameMembers(a, b);
    assert Items(a) == Items(b);
    OnceEachBySize(a);
    OnceEachBySize(b);
  }

  /** The reporting loop of `classify`. */
  method CollectFindings(canonical: map<Uid, Row>, roots: map<Uid, Uid>, failures: map<Uid, Category>)
    returns (findings: seq<Finding>)
    requires Keyed(canonical)
    ensures forall f | f in findings :: exists uid :: Reports(canonical, roots, failures, f, uid)
    ensures forall uid | uid in canonical && !IsClean(canonical, roots, failures, uid) ::
              exists f :: f in findings && Reports(canonical, roots, failures, f, uid)
    ensures OnceEach(findings)
  {
    findings := [];
    var todo := canonical.Keys;
    while todo != {}
      invariant todo <= canonical.Keys
      invariant forall f | f in findings :: exists uid :: Reports(canonical, roots, failures, f, uid)
      invariant forall uid | uid in canonical && uid !in todo && !IsClean(canonical, roots, failures, uid) ::
                  exists f :: f in findings && Reports(canonical, roots, failures, f, uid)
      invariant OnceEach(findings) && forall f | f in findings :: f.row.itemUid !in todo
      decreases todo
    {
      var uid :| uid in todo;
      var root := if uid in roots then Some(roots[uid]) else None;
      var category := CategoryOf(canonical[uid], root, if uid in failures then Some(failures[uid]) else None);
      if category.Some? {
        var next := Finding(category.value, canonical[uid], root);
        assert Reports(canonical, roots, failures, next, uid);
        AddFinding(canonical, roots, failures, findings, next, uid, todo);
        findings := findings + [next];
      }
      todo := todo - {uid};
    }
  }

  lemma {:induction false} AddFinding(canonical: map<Uid, Row>, roots: map<Uid, Uid>, failures: map<Uid, Category>,
                   findings: seq<Finding>, next: Finding, at: Uid, todo: set<Uid>)
    requires Reports(canonical, roots, failures, next, at)
    requires forall uid | uid in canonical && uid !in todo && !IsClean(canonical, roots, failures, uid) ::
               exists f :: f in findings && Reports(canonical, roots, failures, f, uid)
    ensures forall uid | uid in canonical && uid !in todo - {at} && !IsClean(canonical, roots, failures, uid) ::
              exists f :: f in findings + [next] && Reports(canonical, roots, failures, f, uid)
  {
    forall uid | uid in canonical && uid !in todo - {at} && !IsClean(canonical, roots, failures, uid)
      ensures exists f :: f in findings + [next] && Reports(canonical, roots, failures, f, uid)
    {
      if uid == at {
        assert next in findings + [next];
      } else {
        var f :| f in findings && Reports(canonical, roots, failures, f, uid);
        assert f in findings + [next];
      }
    }
  }

  /** The canonical rows, roots and failures behind a report. */
  ghost predicate Basis(rows: seq<Row>, maximumDepth: nat, canonical: map<Uid, Row>, invalid: map<Uid, Category>,
                        roots: map<Uid, Uid>, failures: map<Uid, Category>)
  {
    && IsCanonical(rows, canonical, invalid)
    && Resolved(Parents(canonical), invalid, maximumDepth, {}, roots, failures)
  }

  ghost predicate Covers(canonical: map<Uid, Row>, roots: map<Uid, Uid>, failures: map<Uid, Category>,
                         findings: seq<Finding>)
  {
    && (forall f | f in findings :: exists uid :: Reports(canonical, roots, failures, f, uid))
    && (forall uid | uid in canonical && !IsClean(canonical, roots, failures, uid) ::
          exists f :: f in findings && Reports(canonical, roots, failures, f, uid))
  }

  /** `classify`. */
  method Classify(rows: seq<Row>, maximumDepth: nat)
    returns (findings: seq<Finding>, ghost canonical: map<Uid, Row>, ghost invalid: map<Uid, Category>,
             ghost roots: map<Uid, Uid>, ghost failures: map<Uid, Category>)
    ensures Basis(rows, maximumDepth, canonical, invalid, roots, failures)
    ensures Covers(canonical, roots, failures, findings) && OnceEach(findings)
    ensures SortedBy(findings, ReportKey)
  {
    hide CategoryOf;
    var first, defects := CanonicalRows(rows);
    var resolved, failed := Roots(first, defects, maximumDepth);
    CanonicalIsKeyed(rows, first, defects);
    var unsorted := CollectFindings(first, resolved, failed);
    findings := SortSeq(unsorted, ReportKey);
    OnceEachPermutes(unsorted, findings);
    SameMembers(findings, unsorted);
    canonical, invalid, roots, failures := first, defects, resolved, failed;
  }

  // ----- what a report means -----

  /** The row agrees with its own custody record and with its payload parent's. */
  predicate Settled(row: Row) {
    && row.payloadOwnerId.Some? && OwnersAgree(row)
    && row.currentVnum == Some(row.vnum)
    && (row.expectedItemRevision.Some? ==> row.itemRevision == row.expectedItemRevision)
    && (row.expectedItemRevision.None? ==> row.itemRevision != Some(0))
    && (row.payloadParentUid.Some? ==> row.payloadParentState == Some(1) && ParentOwnerAgrees(row))
    && !row.quarantined && row.state == Some(1)
    && row.currentParentUid == row.payloadParentUid
  }

  /** The recorded root is the true root, within the depth limit. */
  ghost predicate Placed(canonical: map<Uid, Row>, maximumDepth: nat, uid: Uid)
    requires uid in canonical
  {
    exists k: nat, root: Uid :: PlacedAt(canonical, maximumDepth, uid, k, root)
  }

  ghost predicate PlacedAt(canonical: map<Uid, Row>, maximumDepth: nat, uid: Uid, k: nat, root: Uid)
    requires uid in canonical
  {
    k < maximumDepth && RootAt(Parents(canonical), uid, k, root) && canonical[uid].currentRootUid == Some(root)
  }

  /** Every item is where its payload says it is. */
  ghost predicate AllHealthy(canonical: map<Uid, Row>, maximumDepth: nat) {
    forall u {:trigger Placed(canonical, maximumDepth, u)} | u in canonical ::
      Settled(canonical[u]) && Placed(canonical, maximumDepth, u)
  }

  lemma {:induction false} SettledCategory(row: Row, root: Option<Uid>)
    ensures CategoryOf(row, root, None) == None <==> Settled(row) && row.currentRootUid == root
  {
  }

  lemma {:induction false} HealthyIsClean(maximumDepth: nat, canonical: map<Uid, Row>, invalid: map<Uid, Category>,
                       roots: map<Uid, Uid>, failures: map<Uid, Category>, uid: Uid)
    requires Resolved(Parents(canonical), invalid, maximumDepth, {}, roots, failures) && invalid == map[]
    requires uid in canonical && Settled(canonical[uid]) && Placed(canonical, maximumDepth, uid)
    ensures IsClean(canonical, roots, failures, uid)
  {
    var p: map<Uid, Option<Uid>> := Parents(canonical);
    var k: nat, root: Uid :| PlacedAt(canonical, maximumDepth, uid, k, root);
    forall i: nat | i <= k
      ensures Up(p, uid, i).Some?
    {
      UpPrefix(p, uid, i, k);
    }
    assert CleanAt(p, invalid.Keys, uid, k, root);
    MemoAgreesWithPlainWalk(p, invalid, maximumDepth, roots, failures, uid);
    assert CleanTo(p, invalid.Keys, maximumDepth, uid, root);
    SettledCategory(canonical[uid], Some(root));
  }

  lemma {:induction false} CleanIsHealthy(maximumDepth: nat, canonical: map<Uid, Row>, invalid: map<Uid, Category>,
                       roots: map<Uid, Uid>, failures: map<Uid, Category>, uid: Uid)
    requires Resolved(Parents(canonical), invalid, maximumDepth, {}, roots, failures)
    requires uid in canonical && IsClean(canonical, roots, failures, uid)
    ensures uid !in invalid && Settled(canonical[uid]) && Placed(canonical, maximumDepth, uid)
  {
    var p: map<Uid, Option<Uid>> := Parents(canonical);
    MemoAgreesWithPlainWalk(p, invalid, maximumDepth, roots, failures, uid);
    SettledCategory(canonical[uid], Some(roots[uid]));
    var k: nat :| k < maximumDepth && CleanAt(p, invalid.Keys, uid, k, roots[uid]);
    assert PlacedAt(canonical, maximumDepth, uid, k, roots[uid]);
  }

  lemma {:induction false} NoFindingMeansClean(canonical: map<Uid, Row>, roots: map<Uid, Uid>,
                                               failures: map<Uid, Category>, findings: seq<Finding>)
    requires Covers(canonical, roots, failures, findings)
    ensures findings == [] <==> forall uid | uid in canonical :: IsClean(canonical, roots, failures, uid)
  {
    if findings != [] {
      assert findings[0] in findings;
      var uid :| Reports(canonical, roots, failures, findings[0], uid);
      assert !IsClean(canonical, roots, failures, uid);
    }
  }

  lemma {:induction false} NoDefectMeansValid(rows: seq<Row>, canonical: map<Uid, Row>, invalid: map<Uid, Category>)
    requires IsCanonical(rows, canonical, invalid)
    ensures invalid == map[] <==> forall uid | uid in canonical :: Defect(rows, uid) == None
  {
    if forall uid | uid in canonical :: Defect(rows, uid) == None {
      forall uid | uid in canonical
        ensures uid !in invalid
      {
        assert Defect(rows, uid) == None;
      }
      assert invalid == map[];
    }
  }

  /** The report is empty exactly when no item has defective rows and every item is healthy. */
  lemma {:induction false} EmptyReportMeansHealthy(rows: seq<Row>, maximumDepth: nat, canonical: map<Uid, Row>,
                                                   invalid: map<Uid, Category>,
                                roots: map<Uid, Uid>, failures: map<Uid, Category>, findings: seq<Finding>)
    requires Basis(rows, maximumDepth, canonical, invalid, roots, failures)
    requires Covers(canonical, roots, failures, findings)
    ensures findings == [] <==>
            (forall uid | uid in canonical :: Defect(rows, uid) == None) && AllHealthy(canonical, maximumDepth)
  {
    NoDefectMeansValid(rows, canonical, invalid);
    NoFindingMeansClean(canonical, roots, failures, findings);
    EmptyMeansHealthy(maximumDepth, canonical, invalid, roots, failures);
  }

  lemma {:induction false} InvalidAreCanonical(maximumDepth: nat, canonical: map<Uid, Row>, invalid: map<Uid, Category>,
                                               roots: map<Uid, Uid>, failures: map<Uid, Category>)
    requires Resolved(Parents(canonical), invalid, maximumDepth, {}, roots, failures)
    ensures invalid.Keys <= canonical.Keys
  {
    hide SoundFailures, CleanTo;
    FailuresCoverInvalid(Parents(canonical), invalid, maximumDepth, failures);
  }

  lemma {:induction false} FailuresCoverInvalid(p: map<Uid, Option<Uid>>, invalid: map<Uid, Category>,
                                                maximumDepth: nat,
                                                failures: map<Uid, Category>)
    requires SoundFailures(p, invalid, maximumDepth, failures)
    ensures invalid.Keys <= failures.Keys
  {
  }

  lemma {:induction false} EmptyMeansHealthy(maximumDepth: nat, canonical: map<Uid, Row>, invalid: map<Uid, Category>,
                          roots: map<Uid, Uid>, failures: map<Uid, Category>)
    requires Resolved(Parents(canonical), invalid, maximumDepth, {}, roots, failures)
    ensures (forall uid | uid in canonical :: IsClean(canonical, roots, failures, uid)) <==>
            invalid == map[] && AllHealthy(canonical, maximumDepth)
  {
    hide Resolved, IsClean, Settled, Placed;
    if forall uid | uid in canonical :: IsClean(canonical, roots, failures, uid) {
      forall uid | uid in canonical
        ensures uid !in invalid && Settled(canonical[uid]) && Placed(canonical, maximumDepth, uid)
      {
        CleanIsHealthy(maximumDepth, canonical, invalid, roots, failures, uid);
      }
      InvalidAreCanonical(maximumDepth, canonical, invalid, roots, failures);
      assert invalid.Keys == {};
    }
    if invalid == map[] && AllHealthy(canonical, maximumDepth) {
      forall uid | uid in canonical
        ensures IsClean(canonical, roots, failures, uid)
      {
        assert Placed(canonical, maximumDepth, uid);
        HealthyIsClean(maximumDepth, canonical, invalid, roots, failures, uid);
      }
    }
  }

  /** The custody pointers, as the database has them now. */
  ghost function CustodyParents(canonical: map<Uid, Row>): map<Uid, Option<Uid>> {
    map u | u in canonical :: canonical[u].currentParentUid
  }

  /**
   An empty report: the custody pointers are a forest within the depth limit, and every
   recorded root is the true one.
   */
  lemma {:induction false} EmptyReportIsCustodyForest(maximumDepth: nat, canonical: map<Uid, Row>, uid: Uid)
    returns (k: nat)
    requires uid in canonical && AllHealthy(canonical, maximumDepth)
    ensures CustodyParents(canonical) == Parents(canonical)
    ensures canonical[uid].currentRootUid.Some? && k < maximumDepth
    ensures RootAt(CustodyParents(canonical), uid, k, canonical[uid].currentRootUid.value)
    ensures Simple(CustodyParents(canonical), uid, k + 1)
  {
    forall u | u in canonical
      ensures canonical[u].currentParentUid == canonical[u].payloadParentUid
    {
      assert Placed(canonical, maximumDepth, u);
    }
    assert CustodyParents(canonical) == Parents(canonical);
    assert Placed(canonical, maximumDepth, uid);
    var root: Uid;
    k, root :| PlacedAt(canonical, maximumDepth, uid, k, root);
    RootedIsSimple(Parents(canonical), uid, k, root);
  }

  ghost function Owner(row: Row): (Option<int>, Option<int>, Option<int>) {
    (row.currentOwnerType, row.currentOwnerId, row.currentOwnerContextId)
  }

  /** The parent columns of a row repeat the parent item's own custody columns: both join the same table. */
  ghost predicate JoinedOnce(canonical: map<Uid, Row>) {
    forall u, v {:trigger Joined(canonical, u, v)} | u in canonical && v in canonical :: Joined(canonical, u, v)
  }

  ghost predicate Joined(canonical: map<Uid, Row>, u: Uid, v: Uid)
    requires u in canonical && v in canonical
  {
    canonical[u].payloadParentUid == Some(v) ==>
      (canonical[u].payloadParentOwnerType, canonical[u].payloadParentOwnerId, canonical[u].payloadParentOwnerContextId)
      == Owner(canonical[v])
  }

  /** With an empty report every container tree belongs to one owner. */
  lemma {:induction false} EmptyReportOneOwnerPerTree(maximumDepth: nat, canonical: map<Uid, Row>, uid: Uid, k: nat)
    requires uid in canonical && JoinedOnce(canonical) && AllHealthy(canonical, maximumDepth)
    requires Up(Parents(canonical), uid, k).Some?
    ensures Up(Parents(canonical), uid, k).value in canonical
    ensures Owner(canonical[Up(Parents(canonical), uid, k).value]) == Owner(canonical[uid])
  {
    if k > 0 {
      EmptyReportOneOwnerPerTree(maximumDepth, canonical, uid, k - 1);
      var below := Up(Parents(canonical), uid, k - 1).value;
      assert Placed(canonical, maximumDepth, below) && Settled(canonical[below]);
      ParentIsKnown(maximumDepth, canonical, below);
      assert Joined(canonical, below, Up(Parents(canonical), uid, k).value);
    }
  }

  lemma {:induction false} ParentIsKnown(maximumDepth: nat, canonical: map<Uid, Row>, uid: Uid)
    requires uid in canonical && Placed(canonical, maximumDepth, uid)
    ensures canonical[uid].payloadParentUid.Some? ==> canonical[uid].payloadParentUid.value in canonical
  {
    var p: map<Uid, Option<Uid>> := Parents(canonical);
    var k: nat, root: Uid :| PlacedAt(canonical, maximumDepth, uid, k, root);
    assert Up(p, uid, 0) == Some(uid) && Up(p, uid, 1) == p[uid];
    if p[uid].Some? && k > 0 {
      RootFromMiddle(p, uid, k, root, 1);
    }
  }

  /** Expected and repairable findings are about items whose payload chain is clean, and name its true root. */
  lemma {:induction false} LifecycleFindingsHaveTrueRoots(rows: seq<Row>, maximumDepth: nat, canonical: map<Uid, Row>,
                                                          invalid: map<Uid, Category>,
                                       roots: map<Uid, Uid>, failures: map<Uid, Category>, f: Finding, uid: Uid)
    requires Basis(rows, maximumDepth, canonical, invalid, roots, failures)
    requires Reports(canonical, roots, failures, f, uid)
    requires f.Expected() || f.Repairable()
    ensures f.expectedRootUid.Some?
    ensures CleanTo(Parents(canonical), invalid.Keys, maximumDepth, uid, f.expectedRootUid.value)
  {
    hide CleanTo, Clean, Resolved, IsCanonical, Blames;
    MemoAgreesWithPlainWalk(Parents(canonical), invalid, maximumDepth, roots, failures, uid);
    if uid in failures {
      FailureIsBlamed(Parents(canonical), invalid, maximumDepth, roots, failures, uid);
      FailureIsNotLifecycle(rows, maximumDepth, canonical, invalid, failures, uid);
    }
  }

  lemma {:induction false} FailureIsBlamed(p: map<Uid, Option<Uid>>, invalid: map<Uid, Category>, maximumDepth: nat,
                                           roots: map<Uid, Uid>, failures: map<Uid, Category>, uid: Uid)
    requires Resolved(p, invalid, maximumDepth, {}, roots, failures) && uid in failures
    ensures Blames(p, invalid, maximumDepth, uid, failures[uid])
  {
    hide Blames, CleanTo, Clean;
  }

  /** The labels of failures are never lifecycle categories. */
  lemma {:induction false} FailureIsNotLifecycle(rows: seq<Row>, maximumDepth: nat, canonical: map<Uid, Row>,
                                                 invalid: map<Uid, Category>,
                              failures: map<Uid, Category>, uid: Uid)
    requires IsCanonical(rows, canonical, invalid)
    requires uid in failures && Blames(Parents(canonical), invalid, maximumDepth, uid, failures[uid])
    ensures failures[uid] in {MissingPayloadParent, AmbiguousPayload, DuplicateCustodyRows, MissingAncestor, Cycle,
                              DepthExceeded}
  {
    var k: nat :| Up(Parents(canonical), uid, k).Some?
                  && BlamesNode(Parents(canonical), invalid, maximumDepth, Up(Parents(canonical), uid, k).value,
                                failures[uid]);
    DefectKinds(rows, Up(Parents(canonical), uid, k).value);
  }

  lemma {:induction false} DefectKinds(rows: seq<Row>, uid: Uid)
    ensures Defect(rows, uid).Some? ==>
              Defect(rows, uid).value in {MissingPayloadParent, AmbiguousPayload, DuplicateCustodyRows}
  {
  }

  // ----- repairing -----

  /** Writes an item's payload parent and expected root into its custody columns if it is reported as repairable. */
  ghost function RepairRow(findings: seq<Finding>, row: Row): (r: Row)
    ensures r == row.(currentParentUid := r.currentParentUid, currentRootUid := r.currentRootUid)
  {
    if f :| f in findings && f.Repairable() && f.row.itemUid == row.itemUid then
      row.(currentParentUid := f.row.payloadParentUid, currentRootUid := f.expectedRootUid)
    else row
  }

  ghost function RepairRows(findings: seq<Finding>, rows: seq<Row>): (r: seq<Row>)
    ensures |r| == |rows| && forall i | 0 <= i < |rows| :: r[i] == RepairRow(findings, rows[i])
  {
    seq(|rows|, i requires 0 <= i < |rows| => RepairRow(findings, rows[i]))
  }

  /** A repair touches no column that grouping looks at. */
  lemma {:induction false} CandidatesRepaired(findings: seq<Finding>, rows: seq<Row>, uid: Uid)
    ensures Candidates(RepairRows(findings, rows), uid) == RepairRows(findings, Candidates(rows, uid))
  {
    if rows != [] {
      var n := |rows| - 1;
      assert RepairRows(findings, rows)[..n] == RepairRows(findings, rows[..n]);
      CandidatesRepaired(findings, rows[..n], uid);
    }
  }

  /** The rows agree in the columns that can disqualify an item. */
  ghost predicate SamePayloads(a: seq<Row>, b: seq<Row>) {
    |a| == |b| && forall i | 0 <= i < |a| :: a[i].brokenParent == b[i].brokenParent && Payload(a[i]) == Payload(b[i])
  }

  lemma {:induction false} DefectCarries(a: seq<Row>, b: seq<Row>)
    requires SamePayloads(a, b)
    ensures (exists r :: r in a && r.brokenParent) ==> exists r :: r in b && r.brokenParent
    ensures (exists r, s :: r in a && s in a && Payload(r) != Payload(s)) ==>
              exists r, s :: r in b && s in b && Payload(r) != Payload(s)
  {
    hide Payload;
    if r :| r in a && r.brokenParent {
      var i :| 0 <= i < |a| && a[i] == r;
      assert b[i] in b;
    }
    if r, s :| r in a && s in a && Payload(r) != Payload(s) {
      var i :| 0 <= i < |a| && a[i] == r;
      var j :| 0 <= j < |a| && a[j] == s;
      assert b[i] in b && b[j] in b;
    }
  }

  lemma {:induction false} SameDefect(a: seq<Row>, b: seq<Row>)
    requires SamePayloads(a, b)
    ensures RowDefect(a) == RowDefect(b)
  {
    DefectCarries(a, b);
    DefectCarries(b, a);
    hide Payload;
  }

  lemma {:induction false} DefectRepaired(findings: seq<Finding>, rows: seq<Row>, uid: Uid)
    ensures Defect(RepairRows(findings, rows), uid) == Defect(rows, uid)
  {
    hide RowDefect, Candidates, RepairRow;
    CandidatesRepaired(findings, rows, uid);
    SameDefect(Candidates(rows, uid), RepairRows(findings, Candidates(rows, uid)));
  }

  lemma {:induction false} OneCanonicalRepaired(findings: seq<Finding>, rows: seq<Row>,
                                                canonical: map<Uid, Row>, invalid: map<Uid, Category>,
                                                canonical': map<Uid, Row>, invalid': map<Uid, Category>, uid: Uid)
    requires IsCanonical(rows, canonical, invalid) && IsCanonical(RepairRows(findings, rows), canonical', invalid')
    ensures uid in canonical' <==> uid in canonical
    ensures uid in canonical ==> canonical'[uid] == RepairRow(findings, canonical[uid])
    ensures uid in invalid' <==> uid in invalid
    ensures uid in invalid ==> invalid'[uid] == invalid[uid]
  {
    hide Defect, Candidates, RepairRow;
    CandidatesRepaired(findings, rows, uid);
    DefectRepaired(findings, rows, uid);
  }

  /** Canonical rows are repaired in place, and the disqualified items stay the same. */
  lemma {:induction false} CanonicalRepaired(findings: seq<Finding>, rows: seq<Row>,
                                             canonical: map<Uid, Row>, invalid: map<Uid, Category>,
                                             canonical': map<Uid, Row>, invalid': map<Uid, Category>)
    requires IsCanonical(rows, canonical, invalid) && IsCanonical(RepairRows(findings, rows), canonical', invalid')
    ensures canonical'.Keys == canonical.Keys && invalid' == invalid
    ensures forall uid | uid in canonical :: canonical'[uid] == RepairRow(findings, canonical[uid])
    ensures Parents(canonical') == Parents(canonical)
  {
    hide IsCanonical, RepairRow;
    forall uid: Uid
      ensures uid in canonical' <==> uid in canonical
      ensures uid in canonical ==> canonical'[uid] == RepairRow(findings, canonical[uid])
      ensures uid in invalid' <==> uid in invalid
      ensures uid in invalid ==> invalid'[uid] == invalid[uid]
    {
      OneCanonicalRepaired(findings, rows, canonical, invalid, canonical', invalid', uid);
    }
    forall uid | uid in canonical
      ensures canonical'[uid].payloadParentUid == canonical[uid].payloadParentUid
    {
      assert canonical'[uid] == RepairRow(findings, canonical[uid]);
    }
  }

  /** The same pointers and the same disqualified items have the same roots. */
  lemma {:induction false} RootsAgree(p: map<Uid, Option<Uid>>, invalid: map<Uid, Category>, maximumDepth: nat,
                                      roots: map<Uid, Uid>, failures: map<Uid, Category>,
                                      roots': map<Uid, Uid>, failures': map<Uid, Category>)
    requires Resolved(p, invalid, maximumDepth, {}, roots, failures)
             && Resolved(p, invalid, maximumDepth, {}, roots', failures')
    ensures roots' == roots && failures'.Keys == failures.Keys
  {
    forall u: Uid
      ensures u in roots' <==> u in roots
      ensures u in roots ==> roots'[u] == roots[u]
      ensures u in failures' <==> u in failures
    {
      if u in p {
        MemoAgreesWithPlainWalk(p, invalid, maximumDepth, roots, failures, u);
        MemoAgreesWithPlainWalk(p, invalid, maximumDepth, roots', failures', u);
      }
    }
  }

  /** What one item's category becomes. */
  lemma {:induction false} CategoryRepaired(row: Row, root: Option<Uid>, failure: Option<Category>,
                                            other: Option<Category>)
    requires failure.Some? <==> other.Some?
    requires failure.Some? ==> failure.value != RepairableProjectionLag && other.value != RepairableProjectionLag
    ensures CategoryOf(row, root, failure) == Some(RepairableProjectionLag) ==>
              CategoryOf(row.(currentParentUid := row.payloadParentUid, currentRootUid := root), root, other) == None
    ensures CategoryOf(row, root, failure) != Some(RepairableProjectionLag) ==>
              CategoryOf(row, root, other) != Some(RepairableProjectionLag)
              && (CategoryOf(row, root, other) == None <==> CategoryOf(row, root, failure) == None)
  {
  }

  /** A run of the classifier on rows, and another on the rows repaired as the first one's findings say. */
  ghost predicate Rerun(rows: seq<Row>, maximumDepth: nat, canonical: map<Uid, Row>, invalid: map<Uid, Category>,
                        roots: map<Uid, Uid>, failures: map<Uid, Category>, findings: seq<Finding>,
                        canonical': map<Uid, Row>, invalid': map<Uid, Category>,
                        roots': map<Uid, Uid>, failures': map<Uid, Category>)
  {
    && Basis(rows, maximumDepth, canonical, invalid, roots, failures)
    && Covers(canonical, roots, failures, findings)
    && Basis(RepairRows(findings, rows), maximumDepth, canonical', invalid', roots', failures')
  }

  /** What carries over from the first run to the second. */
  ghost predicate Carried(canonical: map<Uid, Row>, roots: map<Uid, Uid>, failures: map<Uid, Category>,
                          findings: seq<Finding>,
                          canonical': map<Uid, Row>, roots': map<Uid, Uid>, failures': map<Uid, Category>)
  {
    && Keyed(canonical) && Keyed(canonical') && Covers(canonical, roots, failures, findings)
    && canonical'.Keys == canonical.Keys && roots' == roots && failures'.Keys == failures.Keys
    && (forall uid | uid in canonical :: canonical'[uid] == RepairRow(findings, canonical[uid]))
    && forall uid | uid in failures ::
         failures[uid] != RepairableProjectionLag && failures'[uid] != RepairableProjectionLag
  }

  lemma {:induction false} RerunCarries(rows: seq<Row>, maximumDepth: nat, canonical: map<Uid, Row>,
                                        invalid: map<Uid, Category>,
                                        roots: map<Uid, Uid>, failures: map<Uid, Category>, findings: seq<Finding>,
                                        canonical': map<Uid, Row>, invalid': map<Uid, Category>,
                                        roots': map<Uid, Uid>, failures': map<Uid, Category>)
    requires Rerun(rows, maximumDepth, canonical, invalid, roots, failures, findings, canonical', invalid', roots',
                   failures')
    ensures Carried(canonical, roots, failures, findings, canonical', roots', failures')
  {
    hide Covers, RepairRow, IsCanonical, Blames, CleanTo;
    CanonicalRepaired(findings, rows, canonical, invalid, canonical', invalid');
    RootsAgree(Parents(canonical), invalid, maximumDepth, roots, failures, roots', failures');
    CanonicalIsKeyed(rows, canonical, invalid);
    CanonicalIsKeyed(RepairRows(findings, rows), canonical', invalid');
    forall uid | uid in failures
      ensures failures[uid] != RepairableProjectionLag && failures'[uid] != RepairableProjectionLag
    {
      FailureIsNotLifecycle(rows, maximumDepth, canonical, invalid, failures, uid);
      FailureIsNotLifecycle(RepairRows(findings, rows), maximumDepth, canonical', invalid', failures', uid);
    }
  }

  lemma {:induction false} ItemAfterRepair(canonical: map<Uid, Row>, roots: map<Uid, Uid>, failures: map<Uid, Category>,
                                           findings: seq<Finding>,
                                           canonical': map<Uid, Row>, roots': map<Uid, Uid>,
                                           failures': map<Uid, Category>, uid: Uid)
    requires Carried(canonical, roots, failures, findings, canonical', roots', failures') && uid in canonical
    ensures uid in canonical'
    ensures forall f' :: Reports(canonical', roots', failures', f', uid) ==> !f'.Repairable()
    ensures IsClean(canonical', roots', failures', uid) <==>
            IsClean(canonical, roots, failures, uid)
                || exists f :: f in findings && f.Repairable() && f.row.itemUid == uid
  {
    var row := canonical[uid];
    var root := if uid in roots then Some(roots[uid]) else None;
    var failure := if uid in failures then Some(failures[uid]) else None;
    var other := if uid in failures' then Some(failures'[uid]) else None;
    CategoryRepaired(row, root, failure, other);
    hide CategoryOf, RepairRow;
    if CategoryOf(row, root, failure) == Some(RepairableProjectionLag) {
      assert !IsClean(canonical, roots, failures, uid);
      var f :| f in findings && Reports(canonical, roots, failures, f, uid);
      assert f.Repairable() && f.row.itemUid == uid;
      RepairedAsReported(canonical, roots, failures, findings, uid);
    } else {
      NotRepairedUnreported(canonical, roots, failures, findings, uid);
    }
  }

  lemma {:induction false} RepairedAsReported(canonical: map<Uid, Row>, roots: map<Uid, Uid>,
                                              failures: map<Uid, Category>,
                                              findings: seq<Finding>, uid: Uid)
    requires Keyed(canonical) && uid in canonical && Covers(canonical, roots, failures, findings)
    requires exists f :: f in findings && f.Repairable() && f.row.itemUid == uid
    ensures RepairRow(findings, canonical[uid]) ==
            canonical[uid].(currentParentUid := canonical[uid].payloadParentUid,
                            currentRootUid := if uid in roots then Some(roots[uid]) else None)
  {
    forall f | f in findings && f.row.itemUid == uid
      ensures Reports(canonical, roots, failures, f, uid)
    {
      var at :| Reports(canonical, roots, failures, f, at);
    }
  }

  lemma {:induction false} NotRepairedUnreported(canonical: map<Uid, Row>, roots: map<Uid, Uid>,
                                                 failures: map<Uid, Category>,
                                                 findings: seq<Finding>, uid: Uid)
    requires Keyed(canonical) && uid in canonical && Covers(canonical, roots, failures, findings)
    requires CategoryOf(canonical[uid], if uid in roots then Some(roots[uid]) else None,
                        if uid in failures then Some(failures[uid]) else None) != Some(RepairableProjectionLag)
    ensures !exists f :: f in findings && f.Repairable() && f.row.itemUid == uid
    ensures RepairRow(findings, canonical[uid]) == canonical[uid]
  {
    hide CategoryOf;
    forall f | f in findings && f.row.itemUid == uid
      ensures !f.Repairable()
    {
      var at :| Reports(canonical, roots, failures, f, at);
      assert at == uid;
    }
  }

  lemma {:induction false} ReportedMeansUnclean(canonical: map<Uid, Row>, roots: map<Uid, Uid>,
                                                failures: map<Uid, Category>,
                                                findings: seq<Finding>, uid: Uid)
    requires Keyed(canonical) && Covers(canonical, roots, failures, findings)
    ensures uid in Items(findings) <==> uid in canonical && !IsClean(canonical, roots, failures, uid)
  {
    hide CategoryOf;
    if uid in Items(findings) {
      var f :| f in findings && f.row.itemUid == uid;
      var at :| Reports(canonical, roots, failures, f, at);
      assert at == uid;
    }
    if uid in canonical && !IsClean(canonical, roots, failures, uid) {
      var f :| f in findings && Reports(canonical, roots, failures, f, uid);
    }
  }

  ghost function RepairableItems(findings: seq<Finding>): set<Uid> {
    set f | f in findings && f.Repairable() :: f.row.itemUid
  }

  lemma {:induction false} NothingRepairableLeft(canonical: map<Uid, Row>, roots: map<Uid, Uid>,
                                                 failures: map<Uid, Category>, findings: seq<Finding>,
                                                 canonical': map<Uid, Row>, roots': map<Uid, Uid>,
                                                 failures': map<Uid, Category>, findings': seq<Finding>)
    requires Carried(canonical, roots, failures, findings, canonical', roots', failures')
             && Covers(canonical', roots', failures', findings')
    ensures forall f' | f' in findings' :: !f'.Repairable()
  {
    hide CategoryOf, RepairRow;
    forall f' | f' in findings'
      ensures !f'.Repairable()
    {
      var uid :| Reports(canonical', roots', failures', f', uid);
      ItemAfterRepair(canonical, roots, failures, findings, canonical', roots', failures', uid);
    }
  }

  lemma {:induction false} StillReported(canonical: map<Uid, Row>, roots: map<Uid, Uid>, failures: map<Uid, Category>,
                                         findings: seq<Finding>,
                                         canonical': map<Uid, Row>, roots': map<Uid, Uid>,
                                         failures': map<Uid, Category>, findings': seq<Finding>, uid: Uid)
    requires Carried(canonical, roots, failures, findings, canonical', roots', failures')
             && Covers(canonical', roots', failures', findings')
    ensures uid in Items(findings') <==> uid in Items(findings) && uid !in RepairableItems(findings)
  {
    hide CategoryOf, RepairRow, IsClean, Covers;
    ReportedMeansUnclean(canonical, roots, failures, findings, uid);
    ReportedMeansUnclean(canonical', roots', failures', findings', uid);
    if uid in canonical {
      ItemAfterRepair(canonical, roots, failures, findings, canonical', roots', failures', uid);
    }
  }

  /**
   Repairing converges: once every repairable finding has been written into custody, running
   the classifier again finds nothing repairable, and reports exactly the items it reported
   before for any other reason.
   */
  lemma {:induction false} RepairSettlesItem(rows: seq<Row>, maximumDepth: nat, canonical: map<Uid, Row>,
                                             invalid: map<Uid, Category>,
                                             roots: map<Uid, Uid>, failures: map<Uid, Category>, findings: seq<Finding>,
                                             canonical': map<Uid, Row>, invalid': map<Uid, Category>,
                                             roots': map<Uid, Uid>, failures': map<Uid, Category>,
                                             findings': seq<Finding>)
    requires Rerun(rows, maximumDepth, canonical, invalid, roots, failures, findings, canonical', invalid', roots',
                   failures')
    requires Covers(canonical', roots', failures', findings')
    ensures forall f' | f' in findings' :: !f'.Repairable()
    ensures Items(findings') == Items(findings) - RepairableItems(findings)
  {
    hide *;
    RerunCarries(rows, maximumDepth, canonical, invalid, roots, failures, findings, canonical', invalid', roots',
                 failures');
    NothingRepairableLeft(canonical, roots, failures, findings, canonical', roots', failures', findings');
    forall uid: Uid
      ensures uid in Items(findings') <==> uid in Items(findings) && uid !in RepairableItems(findings)
    {
      StillReported(canonical, roots, failures, findings, canonical', roots', failures', findings', uid);
    }
  }
}
