/**
 The recovery planner of scripts/classify_legacy_item_quarantine.py: seed an
 approved set from operator decisions, grow it by descendants, prune it by
 unapproved ancestors, allocate UIDs, and relabel the forest.
 */
module QuarantinePlan {
  import opened Wrappers
  import opened Chains
  import opened Ordering
  import opened Quarantine

  datatype Decision = Hold | Discard | RecoverNewUid | RecoverDescendant

  datatype Disposition = Disposition(rowRef: Ref, decision: Decision, evidenceRef: Ref)

  datatype RecoveryRow = RecoveryRow(row: EvidenceRow, newUid: nat, newParentUid: Option<nat>, newRootUid: nat)

  datatype Refusal =
    | ClassificationsMismatch | DispositionOutsideEvidence | StaleDisposition
    | OverrideOnRecoverable | UnsafeRecovery
    | DescendantNeedsApprovedAncestors | RecoveryNeedsApprovedAncestors
    | UidOverflow | NotAnAcyclicCompleteGraph

  /** `([rows], next_uid, undispositioned)`. */
  datatype Plan = Plan(rows: seq<RecoveryRow>, nextUid: nat, undispositioned: nat)

  // ----- seeding -----

  /** What the first loop of `plan_recovery` does with one classified row. */
  datatype Verdict = Approve | Candidate | Undecided | Settled | Invalid(refusal: Refusal)

  function VerdictOf(item: Classification, dispositions: map<Ref, Disposition>): Verdict {
    var reference := item.row.rowRef;
    var given := reference in dispositions;
    if item.primary == Recoverable then
      if !given then Approve
      else if dispositions[reference].decision in {Hold, Discard} then Settled
      else Invalid(OverrideOnRecoverable)
    else if item.reasons == {UidCollision} && (item.row.uidCandidates > 1 || item.row.liveUidConflict)
            && given && dispositions[reference].decision == RecoverNewUid then Approve
    else if item.reasons == {DependentAncestry} && given && dispositions[reference].decision == RecoverDescendant then
      Candidate
    else if !given then Undecided
    else if dispositions[reference].decision in {Hold, Discard} then Settled
    else Invalid(UnsafeRecovery)
  }

  ghost function WithVerdict(items: map<Ref, Classification>, dispositions: map<Ref, Disposition>, v: Verdict): set<Ref>
  {
    set r | r in items && VerdictOf(items[r], dispositions) == v
  }

  ghost predicate SomeInvalid(items: map<Ref, Classification>, dispositions: map<Ref, Disposition>) {
    exists r :: r in items && VerdictOf(items[r], dispositions).Invalid?
  }

  /** The seeding loop's accumulators, with `todo` still to be looked at. */
  ghost predicate Seeded(items: map<Ref, Classification>, dispositions: map<Ref, Disposition>, todo: set<Ref>,
                         approved: set<Ref>, candidates: set<Ref>, undecided: set<Ref>)
  {
    && todo <= items.Keys
    && (forall r | r in items.Keys - todo :: !VerdictOf(items[r], dispositions).Invalid?)
    && approved == WithVerdict(items, dispositions, Approve) - todo
    && candidates == WithVerdict(items, dispositions, Candidate) - todo
    && undecided == WithVerdict(items, dispositions, Undecided) - todo
  }

  lemma {:induction false} SeedStep(items: map<Ref, Classification>, dispositions: map<Ref, Disposition>,
                                    todo: set<Ref>, r: Ref,
                 approved: set<Ref>, candidates: set<Ref>, undecided: set<Ref>)
    requires Seeded(items, dispositions, todo, approved, candidates, undecided) && r in todo
    ensures r in items && r !in undecided
    ensures VerdictOf(items[r], dispositions).Invalid? ==> SomeInvalid(items, dispositions)
    ensures var v := VerdictOf(items[r], dispositions);
            && (v == Approve ==> Seeded(items, dispositions, todo - {r}, approved + {r}, candidates, undecided))
            && (v == Candidate ==> Seeded(items, dispositions, todo - {r}, approved, candidates + {r}, undecided))
            && (v == Undecided ==> Seeded(items, dispositions, todo - {r}, approved, candidates, undecided + {r}))
            && (v == Settled ==> Seeded(items, dispositions, todo - {r}, approved, candidates, undecided))
  {
  }

  lemma {:induction false} SeedStart(items: map<Ref, Classification>, dispositions: map<Ref, Disposition>)
    ensures Seeded(items, dispositions, items.Keys, {}, {}, {})
  {
  }

  lemma {:induction false} SeedEnd(items: map<Ref, Classification>, dispositions: map<Ref, Disposition>,
                approved: set<Ref>, candidates: set<Ref>, undecided: set<Ref>)
    requires Seeded(items, dispositions, {}, approved, candidates, undecided)
    ensures !SomeInvalid(items, dispositions)
    ensures approved == WithVerdict(items, dispositions, Approve)
    ensures candidates == WithVerdict(items, dispositions, Candidate)
    ensures undecided == WithVerdict(items, dispositions, Undecided)
  {
  }

  datatype Seeds = Seeds(approved: set<Ref>, candidates: set<Ref>, undecided: nat)

  method SeedApproved(items: map<Ref, Classification>, dispositions: map<Ref, Disposition>)
    returns (result: Result<Seeds, Refusal>)
    ensures result.Err? <==> SomeInvalid(items, dispositions)
    ensures result.Err? ==> exists r :: r in items && VerdictOf(items[r], dispositions) == Invalid(result.error)
    ensures result.Ok? ==>
              && result.value.approved == WithVerdict(items, dispositions, Approve)
              && result.value.candidates == WithVerdict(items, dispositions, Candidate)
              && result.value.undecided == |WithVerdict(items, dispositions, Undecided)|
  {
    hide Seeded, VerdictOf, SomeInvalid, WithVerdict;
    SeedStart(items, dispositions);
    var approved: set<Ref> := {};
    var candidates: set<Ref> := {};
    var undecided := 0;
    ghost var undecidedRefs: set<Ref> := {};
    var todo := items.Keys;
    while todo != {}
      invariant Seeded(items, dispositions, todo, approved, candidates, undecidedRefs)
      invariant undecided == |undecidedRefs|
      decreases todo
    {
      var reference :| reference in todo;
      SeedStep(items, dispositions, todo, reference, approved, candidates, undecidedRefs);
      var verdict := VerdictOf(items[reference], dispositions);
      assert |undecidedRefs + {reference}| == |undecidedRefs| + 1;
      match verdict {
        case Approve => approved := approved + {reference};
        case Candidate => candidates := candidates + {reference};
        case Undecided =>
          undecided := undecided + 1;
          undecidedRefs := undecidedRefs + {reference};
        case Settled =>
        case Invalid(refusal) => return Err(refusal);
      }
      todo := todo - {reference};
    }
    SeedEnd(items, dispositions, approved, candidates, undecidedRefs);
    return Ok(Seeds(approved, candidates, undecided));
  }

  // ----- growing by descendants -----

  /** `(row.source_table, row.source_row_id, reference)`. */
  function RowKey(rows: map<Ref, EvidenceRow>, r: Ref): Key {
    if r in rows then Key(TableRank(rows[r].sourceTable), rows[r].sourceRowId, r) else Key(0, 0, r)
  }

  /** `c` reaches an approved row through candidates only. */
  ghost predicate Anchored(p: map<Ref, Option<Ref>>, approved: set<Ref>, candidates: set<Ref>, c: Ref) {
    exists k: nat :: AnchoredAt(p, approved, candidates, c, k)
  }

  ghost predicate AnchoredAt(p: map<Ref, Option<Ref>>, approved: set<Ref>, candidates: set<Ref>, c: Ref, k: nat) {
    && Up(p, c, k).Some? && Up(p, c, k).value in approved
    && forall i: nat | i < k :: Up(p, c, i).Some? && Up(p, c, i).value in candidates
  }

  /** A chain that starts among `rest` and ends among `grown` crosses the border somewhere. */
  lemma {:induction false} CrossesBorder(p: map<Ref, Option<Ref>>, grown: set<Ref>, rest: set<Ref>, c: Ref, k: nat)
    requires grown !! rest && c in rest && Up(p, c, k).Some? && Up(p, c, k).value in grown
    requires forall i: nat | i <= k :: Up(p, c, i).Some? && Up(p, c, i).value in grown + rest
    ensures exists r :: r in rest && r in p && p[r].Some? && p[r].value in grown
  {
    if Up(p, c, k - 1).value in rest {
      assert Up(p, c, k - 1).value in p;
    } else {
      CrossesBorder(p, grown, rest, c, k - 1);
    }
  }

  /** If no remaining candidate has an approved parent, no remaining candidate is anchored. */
  lemma {:induction false} StuckMeansUnanchored(p: map<Ref, Option<Ref>>, approved: set<Ref>, candidates: set<Ref>,
                             grown: set<Ref>, rest: set<Ref>)
    requires grown !! rest && grown + rest == approved + candidates && approved <= grown
    requires forall r | r in rest && r in p && p[r].Some? :: p[r].value !in grown
    ensures forall c | c in rest :: !Anchored(p, approved, candidates, c)
  {
    forall c, k: nat | c in rest && AnchoredAt(p, approved, candidates, c, k)
      ensures false
    {
      CrossesBorder(p, grown, rest, c, k);
    }
  }

  lemma {:induction false} ParentAnchors(p: map<Ref, Option<Ref>>, approved: set<Ref>, candidates: set<Ref>, c: Ref)
    requires c in candidates && c in p && p[c].Some?
    requires p[c].value in approved || Anchored(p, approved, candidates, p[c].value)
    ensures Anchored(p, approved, candidates, c)
  {
    var q := p[c].value;
    assert Up(p, c, 0) == Some(c) && Up(p, c, 1) == Some(q);
    if q in approved {
      assert AnchoredAt(p, approved, candidates, c, 1);
    } else {
      var k: nat :| AnchoredAt(p, approved, candidates, q, k);
      forall i: nat | i <= k
        ensures Up(p, c, i + 1) == Up(p, q, i)
      {
        UpAdd(p, c, 1, i);
      }
      forall i: nat | i < k + 1
        ensures Up(p, c, i).Some? && Up(p, c, i).value in candidates
      {
        if i > 0 {
          assert Up(p, c, (i - 1) + 1) == Up(p, q, i - 1);
        }
      }
      assert AnchoredAt(p, approved, candidates, c, k + 1);
    }
  }

  /** The first `while` loop after seeding: approve candidates whose parent is approved. */
  method GrowDescendants(rows: map<Ref, EvidenceRow>, seeds: set<Ref>, candidates: set<Ref>)
    returns (result: Result<set<Ref>, Refusal>)
    requires seeds !! candidates && candidates <= rows.Keys
    ensures result.Ok? <==> forall c | c in candidates :: Anchored(Parents(rows), seeds, candidates, c)
    ensures result.Ok? ==> result.value == seeds + candidates
    ensures result.Err? ==> result.error == DescendantNeedsApprovedAncestors
  {
    ghost var p := Parents(rows);
    var approved, rest := seeds, candidates;
    while rest != {}
      invariant approved !! rest && approved + rest == seeds + candidates && seeds <= approved && rest <= candidates
      invariant forall c | c in approved && c in candidates :: Anchored(p, seeds, candidates, c)
      decreases rest
    {
      var progressed := false;
      ghost var before := rest;
      var order := SortSet(rest, r => RowKey(rows, r));
      for j := 0 to |order|
        invariant approved !! rest && approved + rest == seeds + candidates && seeds <= approved && rest <= before
        invariant forall c | c in approved && c in candidates :: Anchored(p, seeds, candidates, c)
        invariant forall i | j <= i < |order| :: order[i] in rest
        invariant progressed ==> rest < before
        invariant !progressed ==> rest == before
        invariant !progressed ==> forall i | 0 <= i < j && p[order[i]].Some? :: p[order[i]].value !in approved
      {
        var reference := order[j];
        var parent := rows[reference].parentRef;
        if parent.Some? && parent.value in approved {
          ParentAnchors(p, seeds, candidates, reference);
          approved := approved + {reference};
          rest := rest - {reference};
          progressed := true;
        }
      }
      if !progressed {
        assert forall r | r in rest :: exists i :: 0 <= i < |order| && order[i] == r;
        StuckMeansUnanchored(p, seeds, candidates, approved, rest);
        return Err(DescendantNeedsApprovedAncestors);
      }
    }
    return Ok(approved);
  }

  // ----- pruning by ancestors -----

  /** Some ancestor reference of the approved row `r` is not approved. */
  ghost predicate Orphaned(p: map<Ref, Option<Ref>>, approved: set<Ref>, r: Ref) {
    r in approved && exists k: nat :: Up(p, r, k).Some? && Up(p, r, k).value !in approved
  }

  ghost function Orphans(p: map<Ref, Option<Ref>>, approved: set<Ref>): set<Ref> {
    set r | r in approved && Orphaned(p, approved, r)
  }

  predicate AsksRecovery(dispositions: map<Ref, Disposition>, r: Ref) {
    r in dispositions && dispositions[r].decision in {RecoverNewUid, RecoverDescendant}
  }

  lemma {:induction false} OrphanFromParent(p: map<Ref, Option<Ref>>, approved: set<Ref>, r: Ref)
    requires r in approved && r in p && p[r].Some?
    requires p[r].value !in approved || Orphaned(p, approved, p[r].value)
    ensures Orphaned(p, approved, r)
  {
    assert Up(p, r, 0) == Some(r) && Up(p, r, 1) == p[r];
    if p[r].value in approved {
      var k: nat :| Up(p, p[r].value, k).Some? && Up(p, p[r].value, k).value !in approved;
      UpAdd(p, r, 1, k);
      assert Up(p, r, 1 + k).Some?;
    }
  }

  /** A parent-closed part of the approved set has no orphans. */
  lemma {:induction false} ClosedHasNoOrphans(p: map<Ref, Option<Ref>>, approved: set<Ref>, kept: set<Ref>)
    requires kept <= approved
    requires ParentClosed(p, kept)
    ensures forall r | r in kept :: !Orphaned(p, approved, r)
  {
    forall r, k: nat | r in kept && Up(p, r, k).Some?
      ensures Up(p, r, k).value in approved
    {
      ClosedStays(p, kept, r, k);
    }
  }

  datatype Pruned = Pruned(approved: set<Ref>, undecided: nat)

  /**
   The `while changed` loop: drop rows whose parent is not approved. The rows are
   taken in an arbitrary order in every pass, as iterating a Python set does; the
   contract leaves no room for the order to matter.
   */
  /** Dropped rows that nobody decided about. */
  function Unasked(gone: set<Ref>, dispositions: map<Ref, Disposition>): set<Ref> {
    set r | r in gone && r !in dispositions
  }

  /** Only orphans were dropped, none of them to be recovered, and the undecided ones were counted. */
  ghost predicate Pruning(p: map<Ref, Option<Ref>>, approved: set<Ref>, kept: set<Ref>,
                          dispositions: map<Ref, Disposition>,
                          undecided: nat)
  {
    && kept <= approved && approved - kept <= Orphans(p, approved)
    && (forall r | r in approved - kept :: !AsksRecovery(dispositions, r))
    && undecided == |Unasked(approved - kept, dispositions)|
  }

  lemma {:induction false} NothingPruned(p: map<Ref, Option<Ref>>, approved: set<Ref>,
                                         dispositions: map<Ref, Disposition>)
    ensures Pruning(p, approved, approved, dispositions, 0)
  {
    assert approved - approved == {};
  }

  lemma {:induction false} DropOrphan(p: map<Ref, Option<Ref>>, approved: set<Ref>, kept: set<Ref>,
                                      dispositions: map<Ref, Disposition>,
                                      undecided: nat, r: Ref)
    requires Pruning(p, approved, kept, dispositions, undecided) && r in kept && r in p && p[r].Some?
             && p[r].value !in kept
    ensures r in Orphans(p, approved)
    ensures !AsksRecovery(dispositions, r) ==>
              Pruning(p, approved, kept - {r}, dispositions, if r in dispositions then undecided else undecided + 1)
  {
    assert p[r].value in approved ==> p[r].value in Orphans(p, approved);
    OrphanFromParent(p, approved, r);
    hide Orphaned;
    assert approved - (kept - {r}) == approved - kept + {r};
    assert Unasked(approved - kept + {r}, dispositions) ==
           Unasked(approved - kept, dispositions) + if r in dispositions then {} else {r};
  }

  lemma {:induction false} PruningEnds(p: map<Ref, Option<Ref>>, approved: set<Ref>, kept: set<Ref>,
                                       dispositions: map<Ref, Disposition>,
                                       undecided: nat)
    requires Pruning(p, approved, kept, dispositions, undecided) && ParentClosed(p, kept)
    ensures kept == approved - Orphans(p, approved)
    ensures undecided == |set r | r in Orphans(p, approved) && r !in dispositions|
    ensures forall r | r in Orphans(p, approved) :: !AsksRecovery(dispositions, r)
  {
    ClosedHasNoOrphans(p, approved, kept);
    hide Orphaned, ParentClosed;
    assert approved - kept == Orphans(p, approved);
    assert Unasked(approved - kept, dispositions) == set r | r in Orphans(p, approved) && r !in dispositions;
  }

  method PruneOrphans(rows: map<Ref, EvidenceRow>, approved: set<Ref>, dispositions: map<Ref, Disposition>)
    returns (result: Result<Pruned, Refusal>)
    requires approved <= rows.Keys
    ensures result.Err? <==> exists r :: r in Orphans(Parents(rows), approved) && AsksRecovery(dispositions, r)
    ensures result.Err? ==> result.error == RecoveryNeedsApprovedAncestors
    ensures result.Ok? ==>
              && result.value.approved == approved - Orphans(Parents(rows), approved)
              && result.value.undecided == |set r | r in Orphans(Parents(rows), approved) && r !in dispositions|
  {
    hide Orphans, AsksRecovery, Pruning;
    ghost var p := Parents(rows);
    var kept, undecided, changed := approved, 0, true;
    NothingPruned(p, approved, dispositions);
    while changed
      invariant kept <= approved && Pruning(p, approved, kept, dispositions, undecided)
      invariant !changed ==> ParentClosed(p, kept)
      decreases kept, changed
    {
      changed := false;
      ghost var before := kept;
      var todo := kept;
      while todo != {}
        invariant todo <= kept <= before && Pruning(p, approved, kept, dispositions, undecided)
        invariant changed <==> kept != before
        invariant !changed ==> forall r {:trigger ParentInside(p, kept, r)} | r in kept - todo ::
                    ParentInside(p, kept, r)
        decreases todo
      {
        var reference :| reference in todo;
        todo := todo - {reference};
        var parent := rows[reference].parentRef;
        if parent.Some? && parent.value !in kept {
          DropOrphan(p, approved, kept, dispositions, undecided, reference);
          kept := kept - {reference};
          if AsksRecovery(dispositions, reference) {
            return Err(RecoveryNeedsApprovedAncestors);
          }
          if reference !in dispositions {
            undecided := undecided + 1;
          }
          changed := true;
        }
      }
    }
    PruningEnds(p, approved, kept, dispositions, undecided);
    return Ok(Pruned(kept, undecided));
  }

  // ----- UID allocation -----

  /**
   The pass of the assignment loop in which a row is reached: a child follows its
   parent in the same pass exactly when it comes later in the sorted order.
   `depth` bounds the chain.
   */
  ghost function Round(rows: map<Ref, EvidenceRow>, r: Ref, depth: nat): nat
    decreases depth
  {
    if depth == 0 || r !in rows || rows[r].parentRef.None? then 0
    else
      Round(rows, rows[r].parentRef.value, depth - 1)
      + if Below(RowKey(rows, rows[r].parentRef.value), RowKey(rows, r)) then 0 else 1
  }

  /** The order in which rows are given UIDs. */
  ghost predicate Before(rows: map<Ref, EvidenceRow>, depth: nat, a: Ref, b: Ref) {
    || Round(rows, a, depth) < Round(rows, b, depth)
    || (Round(rows, a, depth) == Round(rows, b, depth) && Below(RowKey(rows, a), RowKey(rows, b)))
  }

  /** Every row of the set sits on a complete chain of such rows, within the depth limit. */
  ghost predicate CompleteGraph(rows: map<Ref, EvidenceRow>, approved: set<Ref>, depth: nat) {
    && approved <= rows.Keys && ParentClosed(Parents(rows), approved)
    && (forall r | r in approved :: EndsWithin(Parents(rows), r, depth))
  }

  lemma {:induction false} RoundSettles(rows: map<Ref, EvidenceRow>, r: Ref, k: nat, root: Ref, depth: nat)
    requires RootAt(Parents(rows), r, k, root) && k <= depth
    ensures Round(rows, r, depth) == Round(rows, r, k)
    decreases k
  {
    assert Up(Parents(rows), r, 0) == Some(r);
    if k > 0 {
      RootFromMiddle(Parents(rows), r, k, root, 0);
      RootFromMiddle(Parents(rows), r, k, root, 1);
      RoundSettles(rows, rows[r].parentRef.value, k - 1, root, depth - 1);
    }
  }

  /** A child's pass, from its parent's. */
  lemma {:induction false} RoundOfChild(rows: map<Ref, EvidenceRow>, r: Ref, k: nat, root: Ref, depth: nat)
    requires RootAt(Parents(rows), r, k, root) && k < depth && r in rows
    ensures rows[r].parentRef.None? ==> Round(rows, r, depth) == 0
    ensures rows[r].parentRef.Some? ==>
              Round(rows, r, depth) == Round(rows, rows[r].parentRef.value, depth)
                + if Below(RowKey(rows, rows[r].parentRef.value), RowKey(rows, r)) then 0 else 1
  {
    if rows[r].parentRef.Some? {
      var q := rows[r].parentRef.value;
      assert Up(Parents(rows), r, 0) == Some(r) && Up(Parents(rows), r, 1) == Some(q);
      RootFromMiddle(Parents(rows), r, k, root, 1);
      RoundSettles(rows, q, k - 1, root, depth - 1);
      RoundSettles(rows, q, k - 1, root, depth);
    }
  }

  /** Some pending row has a parent that is no longer pending. */
  lemma {:induction false} TopmostPending(rows: map<Ref, EvidenceRow>, approved: set<Ref>, pending: set<Ref>,
                                          r: Ref, k: nat, root: Ref)
    returns (top: Ref)
    requires approved <= rows.Keys && pending <= approved && r in pending && RootAt(Parents(rows), r, k, root)
    requires ParentClosed(Parents(rows), approved)
    ensures top in pending && (rows[top].parentRef.Some? ==> rows[top].parentRef.value in approved - pending)
    decreases k
  {
    assert Up(Parents(rows), r, 0) == Some(r) && ParentInside(Parents(rows), approved, r);
    if rows[r].parentRef.None? || rows[r].parentRef.value !in pending {
      top := r;
    } else {
      RootFromMiddle(Parents(rows), r, k, root, 1);
      top := TopmostPending(rows, approved, pending, rows[r].parentRef.value, k - 1, root);
    }
  }

  /** How many of the rows done so far collide. */
  ghost function Count(done: set<Ref>, collisions: set<Ref>): nat {
    |done * collisions|
  }

  lemma {:induction false} CountNext(done: set<Ref>, collisions: set<Ref>, r: Ref)
    requires r !in done
    ensures Count(done + {r}, collisions) == Count(done, collisions) + if r in collisions then 1 else 0
  {
    if r in collisions {
      assert (done + {r}) * collisions == done * collisions + {r};
    } else {
      assert (done + {r}) * collisions == done * collisions;
    }
  }

  /**
   The allocation that the loop must produce: rows without a collision keep their
   UID; collision rows receive UIDs from `start` up to `next`, in the order `before`.
   */
  ghost predicate Allocated(rows: map<Ref, EvidenceRow>, before: (Ref, Ref) -> bool, done: set<Ref>,
                            collisions: set<Ref>,
                            uid: map<Ref, nat>, start: nat, next: nat)
  {
    && done <= rows.Keys && uid.Keys == done
    && (forall r | r in done :: if r in collisions then start <= uid[r] < next else uid[r] == rows[r].itemUid)
    && (forall a, b {:trigger before(a, b)} | a in done && b in done && a in collisions && b in collisions
        && before(a, b) :: uid[a] < uid[b])
  }

  /** A row later in the order than everything done takes the next UID if it collides, else keeps its own. */
  lemma {:induction false} AllocateNext(rows: map<Ref, EvidenceRow>, before: (Ref, Ref) -> bool, done: set<Ref>,
                                        collisions: set<Ref>,
                     uid: map<Ref, nat>, start: nat, next: nat, r: Ref)
    requires Allocated(rows, before, done, collisions, uid, start, next) && r !in done && r in rows && start <= next
    requires !before(r, r) && forall s | s in done :: !before(r, s)
    ensures r in collisions ==> Allocated(rows, before, done + {r}, collisions, uid[r := next], start, next + 1)
    ensures r !in collisions ==> Allocated(rows, before, done + {r}, collisions, uid[r := rows[r].itemUid], start, next)
  {
  }

  /** Between passes: exactly the rows of earlier passes are done. */
  ghost predicate PassBoundary(rows: map<Ref, EvidenceRow>, depth: nat, approved: set<Ref>, pending: set<Ref>,
                               pass: nat)
  {
    && pending <= approved
    && (forall r | r in approved && r !in pending :: Round(rows, r, depth) < pass)
    && (forall r | r in pending :: Round(rows, r, depth) >= pass)
  }

  /** Inside a pass over `order`, with the first `j` rows looked at: those of this pass are done. */
  ghost predicate InsidePass(rows: map<Ref, EvidenceRow>, depth: nat, approved: set<Ref>, atStart: set<Ref>,
                             pending: set<Ref>, order: seq<Ref>, j: nat, pass: nat)
  {
    && PassBoundary(rows, depth, approved, atStart, pass) && pending <= atStart && j <= |order|
    && (forall r :: r in order <==> r in atStart)
    && (forall i, k | 0 <= i < k < |order| :: Below(RowKey(rows, order[i]), RowKey(rows, order[k])))
    && (forall i | j <= i < |order| :: order[i] in pending)
    && (forall i | 0 <= i < j :: order[i] in pending <==> Round(rows, order[i], depth) > pass)
  }

  lemma {:induction false} SortedIsStrict(rows: map<Ref, EvidenceRow>, order: seq<Ref>)
    requires SortedBy(order, r => RowKey(rows, r))
    requires forall i, j | 0 <= i < j < |order| :: order[i] != order[j]
    ensures forall i, k | 0 <= i < k < |order| :: Below(RowKey(rows, order[i]), RowKey(rows, order[k]))
  {
    var key := r => RowKey(rows, r);
    forall i, k | 0 <= i < k < |order|
      ensures Below(RowKey(rows, order[i]), RowKey(rows, order[k]))
    {
      assert AtMost(key(order[i]), key(order[k]));
      assert key(order[i]).minor == order[i] && key(order[k]).minor == order[k];
    }
  }

  /** The loop's test, "the parent is assigned", finds exactly the rows of the current pass. */
  lemma {:induction false} TestFindsPass(rows: map<Ref, EvidenceRow>, depth: nat, approved: set<Ref>, atStart: set<Ref>,
                      pending: set<Ref>, order: seq<Ref>, j: nat, pass: nat)
    requires CompleteGraph(rows, approved, depth) && j < |order|
    requires InsidePass(rows, depth, approved, atStart, pending, order, j, pass)
    ensures var r := order[j];
            r in approved &&
            (rows[r].parentRef.None? || rows[r].parentRef.value in approved - pending <==>
             Round(rows, r, depth) == pass)
  {
    var r := order[j];
    var k, root := ClosedChainIsRooted(Parents(rows), approved, r, depth);
    RoundOfChild(rows, r, k, root, depth);
    assert ParentInside(Parents(rows), approved, r);
    if rows[r].parentRef.Some? {
      var q := rows[r].parentRef.value;
      if q in atStart {
        var i :| 0 <= i < |order| && order[i] == q;
        assert i != j || !Below(RowKey(rows, q), RowKey(rows, r));
      }
    }
  }

  lemma {:induction false} LaterInPass(rows: map<Ref, EvidenceRow>, depth: nat, approved: set<Ref>, atStart: set<Ref>,
                    pending: set<Ref>, order: seq<Ref>, j: nat, pass: nat)
    requires j < |order| && Round(rows, order[j], depth) == pass
    requires InsidePass(rows, depth, approved, atStart, pending, order, j, pass)
    ensures forall s | s in approved && s !in pending :: !Before(rows, depth, order[j], s)
  {
    forall s | s in approved && s !in pending
      ensures !Before(rows, depth, order[j], s)
    {
      if s in atStart {
        var i :| 0 <= i < |order| && order[i] == s;
        assert i < j;
      }
    }
  }

  /** After a pass nothing of that pass is pending, and something was found if anything was pending. */
  lemma {:induction false} PassEnds(rows: map<Ref, EvidenceRow>, depth: nat, approved: set<Ref>, atStart: set<Ref>,
                 pending: set<Ref>, order: seq<Ref>, pass: nat)
    requires CompleteGraph(rows, approved, depth) && atStart != {}
    requires InsidePass(rows, depth, approved, atStart, pending, order, |order|, pass)
    ensures PassBoundary(rows, depth, approved, pending, pass + 1)
    ensures pending < atStart
  {
    forall r | r in atStart
      ensures r in pending <==> Round(rows, r, depth) > pass
    {
      var i :| 0 <= i < |order| && order[i] == r;
    }
    var some :| some in atStart;
    var k, root := ClosedChainIsRooted(Parents(rows), approved, some, depth);
    var top := TopmostPending(rows, approved, atStart, some, k, root);
    var k', root' := ClosedChainIsRooted(Parents(rows), approved, top, depth);
    RoundOfChild(rows, top, k', root', depth);
    assert top !in pending;
  }

  ghost function Collisions(items: map<Ref, Classification>, approved: set<Ref>): set<Ref> {
    set r | r in approved && r in items && items[r].reasons == {UidCollision}
  }

  ghost function Earlier(rows: map<Ref, EvidenceRow>, depth: nat): (Ref, Ref) -> bool {
    (a: Ref, b: Ref) => Before(rows, depth, a, b)
  }

  /** The state inside the assignment loop. */
  ghost predicate Assigning(rows: map<Ref, EvidenceRow>, depth: nat, approved: set<Ref>, collisions: set<Ref>,
                            uids: map<Ref, nat>, start: nat, next: nat,
                            atStart: set<Ref>, pending: set<Ref>, order: seq<Ref>, j: nat, pass: nat)
  {
    && InsidePass(rows, depth, approved, atStart, pending, order, j, pass)
    && Allocated(rows, Earlier(rows, depth), approved - pending, collisions, uids, start, next)
    && next == start + Count(approved - pending, collisions)
  }

  /** A row whose parent is not assigned yet belongs to a later pass. */
  lemma {:induction false} SkipRow(rows: map<Ref, EvidenceRow>, depth: nat, approved: set<Ref>, collisions: set<Ref>,
                uids: map<Ref, nat>, start: nat, next: nat,
                atStart: set<Ref>, pending: set<Ref>, order: seq<Ref>, j: nat, pass: nat)
    requires CompleteGraph(rows, approved, depth) && j < |order|
    requires Assigning(rows, depth, approved, collisions, uids, start, next, atStart, pending, order, j, pass)
    requires order[j] in rows && rows[order[j]].parentRef.Some? && rows[order[j]].parentRef.value !in uids
    ensures Assigning(rows, depth, approved, collisions, uids, start, next, atStart, pending, order, j + 1, pass)
  {
    TestFindsPass(rows, depth, approved, atStart, pending, order, j, pass);
    InsideSkip(rows, depth, approved, atStart, pending, order, j, pass);
  }

  lemma {:induction false} InsideSkip(rows: map<Ref, EvidenceRow>, depth: nat, approved: set<Ref>, atStart: set<Ref>,
                   pending: set<Ref>, order: seq<Ref>, j: nat, pass: nat)
    requires j < |order| && Round(rows, order[j], depth) != pass
    requires InsidePass(rows, depth, approved, atStart, pending, order, j, pass)
    ensures InsidePass(rows, depth, approved, atStart, pending, order, j + 1, pass)
  {
  }

  /** A row whose parent is assigned is assigned now, after everything before it in the order. */
  lemma {:induction false} TakeRow(rows: map<Ref, EvidenceRow>, depth: nat, approved: set<Ref>, collisions: set<Ref>,
                uids: map<Ref, nat>, start: nat, next: nat,
                atStart: set<Ref>, pending: set<Ref>, order: seq<Ref>, j: nat, pass: nat)
    requires CompleteGraph(rows, approved, depth) && j < |order|
    requires Assigning(rows, depth, approved, collisions, uids, start, next, atStart, pending, order, j, pass)
    requires order[j] in rows && (rows[order[j]].parentRef.Some? ==> rows[order[j]].parentRef.value in uids)
    ensures order[j] in collisions ==>
              && Assigning(rows, depth, approved, collisions, uids[order[j] := next], start, next + 1,
                           atStart, pending - {order[j]}, order, j + 1, pass)
              && next + 1 <= start + Count(approved, collisions)
    ensures order[j] !in collisions ==>
              Assigning(rows, depth, approved, collisions, uids[order[j] := rows[order[j]].itemUid], start, next,
                        atStart, pending - {order[j]}, order, j + 1, pass)
  {
    var r := order[j];
    TestFindsPass(rows, depth, approved, atStart, pending, order, j, pass);
    LaterInPass(rows, depth, approved, atStart, pending, order, j, pass);
    AllocateNext(rows, Earlier(rows, depth), approved - pending, collisions, uids, start, next, r);
    CountNext(approved - pending, collisions, r);
    assert approved - (pending - {r}) == approved - pending + {r};
    CountGrows(approved - pending + {r}, approved, collisions);
    InsideNext(rows, depth, approved, atStart, pending, order, j, pass);
  }

  lemma {:induction false} InsideNext(rows: map<Ref, EvidenceRow>, depth: nat, approved: set<Ref>, atStart: set<Ref>,
                   pending: set<Ref>, order: seq<Ref>, j: nat, pass: nat)
    requires j < |order| && Round(rows, order[j], depth) == pass
    requires InsidePass(rows, depth, approved, atStart, pending, order, j, pass)
    ensures InsidePass(rows, depth, approved, atStart, pending - {order[j]}, order, j + 1, pass)
  {
    forall i | 0 <= i < |order| && i != j
      ensures order[i] != order[j]
    {
      assert i < j ==> Below(RowKey(rows, order[i]), RowKey(rows, order[j]));
      assert j < i ==> Below(RowKey(rows, order[j]), RowKey(rows, order[i]));
    }
  }

  datatype Allocation = Allocation(uid: map<Ref, nat>, nextUid: nat)

  /** Between passes of the assignment loop. */
  ghost predicate BetweenPasses(rows: map<Ref, EvidenceRow>, depth: nat, approved: set<Ref>, collisions: set<Ref>,
                                a: Allocation, start: nat, pending: set<Ref>, pass: nat)
  {
    && PassBoundary(rows, depth, approved, pending, pass)
    && Allocated(rows, Earlier(rows, depth), approved - pending, collisions, a.uid, start, a.nextUid)
    && a.nextUid == start + Count(approved - pending, collisions)
  }

  /** One pass: the `for reference in sorted(pending)` loop. */
  method AssignPass(rows: map<Ref, EvidenceRow>, items: map<Ref, Classification>, approved: set<Ref>, ghost depth: nat,
                    ghost start: nat, before: Allocation, atStart: set<Ref>, ghost pass: nat)
    returns (result: Option<Allocation>, pending: set<Ref>, progressed: bool)
    requires CompleteGraph(rows, approved, depth) && approved <= items.Keys
    requires BetweenPasses(rows, depth, approved, Collisions(items, approved), before, start, atStart, pass)
    requires before.nextUid <= MAX_UID && atStart != {}
    ensures result.None? ==> start + Count(approved, Collisions(items, approved)) > MAX_UID
    ensures result.Some? ==>
              && BetweenPasses(rows, depth, approved, Collisions(items, approved), result.value, start, pending,
                               pass + 1)
              && result.value.nextUid <= MAX_UID && pending < atStart && progressed
  {
    ghost var collisions := Collisions(items, approved);
    var uids: map<Ref, nat> := before.uid;
    var nextUid: nat := before.nextUid;
    var order := SortSet(atStart, r => RowKey(rows, r));
    SortedIsStrict(rows, order);
    pending, progressed := atStart, false;
    for j := 0 to |order|
      invariant Assigning(rows, depth, approved, collisions, uids, start, nextUid, atStart, pending, order, j, pass)
      invariant nextUid <= MAX_UID
      invariant !progressed ==> pending == atStart
    {
      var reference := order[j];
      if rows[reference].parentRef.Some? && rows[reference].parentRef.value !in uids {
        SkipRow(rows, depth, approved, collisions, uids, start, nextUid, atStart, pending, order, j, pass);
        continue;
      }
      TakeRow(rows, depth, approved, collisions, uids, start, nextUid, atStart, pending, order, j, pass);
      if items[reference].reasons == {UidCollision} {
        if nextUid >= MAX_UID {
          return None, pending, true;
        }
        uids, nextUid := uids[reference := nextUid], nextUid + 1;
      } else {
        uids := uids[reference := rows[reference].itemUid];
      }
      pending, progressed := pending - {reference}, true;
    }
    PassEnds(rows, depth, approved, atStart, pending, order, pass);
    return Some(Allocation(uids, nextUid)), pending, progressed;
  }

  /**
   The assignment loop: parents before children, one pass after another, fresh
   UIDs for collision rows. On a complete graph every pass makes progress, so the
   loop's "not an acyclic complete graph" refusal never happens.
   */
  method AssignUids(rows: map<Ref, EvidenceRow>, items: map<Ref, Classification>, approved: set<Ref>, ghost depth: nat,
                    start: nat)
    returns (result: Result<Allocation, Refusal>)
    requires CompleteGraph(rows, approved, depth) && approved <= items.Keys && start <= MAX_UID
    ensures result.Err? <==> start + Count(approved, Collisions(items, approved)) > MAX_UID
    ensures result.Err? ==> result.error == UidOverflow
    ensures result.Ok? ==>
              && result.value.nextUid == start + Count(approved, Collisions(items, approved))
              && Allocated(rows, Earlier(rows, depth), approved, Collisions(items, approved),
                           result.value.uid, start, result.value.nextUid)
  {
    ghost var collisions := Collisions(items, approved);
    ghost var pass: nat := 0;
    var soFar := Allocation(map[], start);
    var pending := approved;
    while pending != {}
      invariant BetweenPasses(rows, depth, approved, collisions, soFar, start, pending, pass)
      invariant soFar.nextUid <= MAX_UID
      decreases pending
    {
      var next, left, progressed := AssignPass(rows, items, approved, depth, start, soFar, pending, pass);
      if next.None? {
        return Err(UidOverflow);
      }
      if !progressed {
        assert false;  // NotAnAcyclicCompleteGraph is raised here
      }
      soFar, pending, pass := next.value, left, pass + 1;
    }
    assert approved - pending == approved;
    return Ok(soFar);
  }

  lemma {:induction false} CountGrows(part: set<Ref>, whole: set<Ref>, collisions: set<Ref>)
    requires part <= whole
    ensures Count(part, collisions) <= Count(whole, collisions)
  {
    var a, b := part * collisions, whole * collisions;
    assert b == a + (b - a);
  }

  // ----- relabelling -----

  /** The planned row: its own new UID and those of its old parent and old root. */
  ghost predicate Relabels(rows: map<Ref, EvidenceRow>, uids: map<Ref, nat>, x: RecoveryRow) {
    var r := x.row.rowRef;
    && r in rows && x.row == rows[r] && r in uids && x.newUid == uids[r]
    && (if rows[r].parentRef.None? then x.newParentUid == None
        else rows[r].parentRef.value in uids && x.newParentUid == Some(uids[rows[r].parentRef.value]))
    && exists k: nat, root :: RootAt(Parents(rows), r, k, root) && root in uids && x.newRootUid == uids[root]
  }

  ghost predicate LaidOut(rows: map<Ref, EvidenceRow>, approved: set<Ref>, uids: map<Ref, nat>, plan: seq<RecoveryRow>)
  {
    && (forall x | x in plan :: Relabels(rows, uids, x))
    && (set x | x in plan :: x.row.rowRef) == approved
    && |plan| == |approved|
  }

  function PlanKey(x: RecoveryRow): Key {
    Key(TableRank(x.row.sourceTable), x.row.sourceRowId, 0)
  }

  /** `while rows[root_ref].parent_ref is not None: root_ref = rows[root_ref].parent_ref`. */
  method FindRoot(rows: map<Ref, EvidenceRow>, approved: set<Ref>, reference: Ref, ghost depth: nat) returns (root: Ref)
    requires CompleteGraph(rows, approved, depth) && reference in approved
    ensures root in approved && exists k: nat :: RootAt(Parents(rows), reference, k, root)
  {
    ghost var k, top := ClosedChainIsRooted(Parents(rows), approved, reference, depth);
    root := reference;
    ghost var i: nat := 0;
    while rows[root].parentRef.Some?
      invariant i <= k && Up(Parents(rows), reference, i) == Some(root) && root in approved
      decreases k - i
    {
      RootEndsChain(Parents(rows), reference, k, top, k + 1);
      assert ParentInside(Parents(rows), approved, root);
      root := rows[root].parentRef.value;
      i := i + 1;
    }
    RootUnique(Parents(rows), reference, k, top, i, root);
  }

  lemma {:induction false} AddRow(rows: map<Ref, EvidenceRow>, done: set<Ref>, uids: map<Ref, nat>,
                                  built: seq<RecoveryRow>, next: RecoveryRow)
    requires LaidOut(rows, done, uids, built) && Relabels(rows, uids, next) && next.row.rowRef !in done
    ensures LaidOut(rows, done + {next.row.rowRef}, uids, built + [next])
  {
    assert next in built + [next];
    assert (set x | x in built + [next] :: x.row.rowRef) == (set x | x in built :: x.row.rowRef) + {next.row.rowRef};
  }

  lemma {:induction false} SortedIsLaidOut(rows: map<Ref, EvidenceRow>, approved: set<Ref>, uids: map<Ref, nat>,
                        built: seq<RecoveryRow>, sorted: seq<RecoveryRow>)
    requires LaidOut(rows, approved, uids, built) && multiset(built) == multiset(sorted) && |built| == |sorted|
    ensures LaidOut(rows, approved, uids, sorted)
  {
    SameMembers(built, sorted);
  }

  method RelabelRow(rows: map<Ref, EvidenceRow>, approved: set<Ref>, uids: map<Ref, nat>, reference: Ref,
                    ghost depth: nat)
    returns (x: RecoveryRow)
    requires CompleteGraph(rows, approved, depth) && uids.Keys == approved && IsIndex(rows) && reference in approved
    ensures Relabels(rows, uids, x) && x.row.rowRef == reference
  {
    var row := rows[reference];
    assert ParentInside(Parents(rows), approved, reference);
    var parentUid := if row.parentRef.Some? then Some(uids[row.parentRef.value]) else None;
    var rootRef := FindRoot(rows, approved, reference, depth);
    x := RecoveryRow(row, uids[reference], parentUid, uids[rootRef]);
  }

  /** The final loop over the approved set. */
  method CollectRows(rows: map<Ref, EvidenceRow>, approved: set<Ref>, uids: map<Ref, nat>, ghost depth: nat)
    returns (built: seq<RecoveryRow>)
    requires CompleteGraph(rows, approved, depth) && uids.Keys == approved && IsIndex(rows)
    ensures LaidOut(rows, approved, uids, built)
  {
    hide CompleteGraph, Relabels, IsIndex;
    built := [];
    var todo := approved;
    ghost var done: set<Ref> := {};
    while todo != {}
      invariant todo <= approved && done == approved - todo
      invariant LaidOut(rows, done, uids, built)
      decreases todo
    {
      var reference :| reference in todo;
      var next := RelabelRow(rows, approved, uids, reference, depth);
      AddRow(rows, done, uids, built, next);
      built := built + [next];
      todo := todo - {reference};
      done := done + {reference};
    }
    assert done == approved;
  }

  method BuildRows(rows: map<Ref, EvidenceRow>, approved: set<Ref>, uids: map<Ref, nat>, ghost depth: nat)
    returns (recovery: seq<RecoveryRow>)
    requires CompleteGraph(rows, approved, depth) && uids.Keys == approved && IsIndex(rows)
    ensures LaidOut(rows, approved, uids, recovery)
    ensures SortedBy(recovery, PlanKey)
  {
    var built := CollectRows(rows, approved, uids, depth);
    recovery := SortSeq(built, PlanKey);
    SortedIsLaidOut(rows, approved, uids, built, recovery);
  }
}
