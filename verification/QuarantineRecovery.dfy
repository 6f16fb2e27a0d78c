/**
 `plan_recovery` as a whole (scripts/classify_legacy_item_quarantine.py), and
 what its plan guarantees: which rows it covers, when it exists, that its UIDs
 are distinct, and that the new parent pointers are the old forest relabelled.
 */
module QuarantineRecovery {
  import opened Wrappers
  import opened Chains
  import opened Ordering
  import opened Quarantine
  import opened QuarantinePlan

  // ----- when a plan exists, said without any loop -----

  predicate Held(dispositions: map<Ref, Disposition>, r: Ref) {
    r in dispositions && dispositions[r].decision in {Hold, Discard}
  }

  /** The rows that an operator has not set aside. */
  ghost function Selected(rows: map<Ref, EvidenceRow>, dispositions: map<Ref, Disposition>): set<Ref> {
    set r | r in rows && !Held(dispositions, r)
  }

  predicate Collides(row: EvidenceRow) {
    row.uidCandidates > 1 || row.liveUidConflict
  }

  /** The row's reasons and the operator's decision about it fit together. */
  ghost predicate Eligible(depth: nat, rows: map<Ref, EvidenceRow>, dispositions: map<Ref, Disposition>, r: Ref)
    requires r in rows
  {
    var reasons := Reasons(rows, r, depth);
    || (reasons == {} && r !in dispositions)
    || (reasons == {UidCollision} && Collides(rows[r]) && r in dispositions
        && dispositions[r].decision == RecoverNewUid)
    || (reasons == {DependentAncestry} && r in dispositions && dispositions[r].decision == RecoverDescendant)
  }

  /** Every row that is not set aside is eligible, and so is its parent. */
  ghost predicate Admissible(depth: nat, rows: map<Ref, EvidenceRow>, dispositions: map<Ref, Disposition>) {
    && (forall r | r in Selected(rows, dispositions) :: Eligible(depth, rows, dispositions, r))
    && ParentClosed(Parents(rows), Selected(rows, dispositions))
  }

  // ----- what the loops decide -----

  datatype Course = Refuse | Withhold(undecided: nat) | Recover(approved: set<Ref>)

  /** The outcome of seeding, growing and pruning, as a function of the input alone. */
  ghost function Decide(rows: map<Ref, EvidenceRow>, items: map<Ref, Classification>,
                        dispositions: map<Ref, Disposition>): Course
  {
    var seeds := WithVerdict(items, dispositions, Approve);
    var candidates := WithVerdict(items, dispositions, Candidate);
    var p := Parents(rows);
    var orphans := Orphans(p, seeds + candidates);
    if SomeInvalid(items, dispositions) then Refuse
    else if WithVerdict(items, dispositions, Undecided) != {} then
      Withhold(|WithVerdict(items, dispositions, Undecided)|)
    else if exists c :: c in candidates && !Anchored(p, seeds, candidates, c) then Refuse
    else if exists r :: r in orphans && AsksRecovery(dispositions, r) then Refuse
    else if (set r | r in orphans && r !in dispositions) != {} then
      Withhold(|set r | r in orphans && r !in dispositions|)
    else Recover(seeds + candidates)
  }

  /** The items of `classify`, row by row. */
  lemma {:induction false} ExpectedItem(depth: nat, rows: map<Ref, EvidenceRow>, r: Ref)
    requires r in rows && IsIndex(rows)
    ensures var item := Expected(rows, depth)[r];
            && item.row == rows[r] && item.row.rowRef == r && item.reasons == Reasons(rows, r, depth)
            && (item.primary == Recoverable <==> item.reasons == {})
  {
  }

  lemma {:induction false} EligibleVerdict(depth: nat, rows: map<Ref, EvidenceRow>, dispositions: map<Ref, Disposition>,
                                           r: Ref)
    requires r in rows && IsIndex(rows)
    ensures var v := VerdictOf(Expected(rows, depth)[r], dispositions);
            && (v == Approve || v == Candidate <==> !Held(dispositions, r) && Eligible(depth, rows, dispositions, r))
            && (v == Settled <==> Held(dispositions, r))
            && (v == Candidate ==> Reasons(rows, r, depth) == {DependentAncestry})
            && (v == Approve && r in dispositions ==> AsksRecovery(dispositions, r))
            && (v == Candidate ==> AsksRecovery(dispositions, r))
            && (v == Undecided ==> r !in dispositions)
  {
    ExpectedItem(depth, rows, r);
  }

  /** An eligible row has a bounded chain. */
  lemma {:induction false} EligibleEnds(depth: nat, rows: map<Ref, EvidenceRow>, dispositions: map<Ref, Disposition>,
                                        r: Ref)
    requires r in rows && Eligible(depth, rows, dispositions, r)
    ensures EndsWithin(Parents(rows), r, depth)
  {
    var direct := DirectReasons(rows, r, depth);
    assert Cycle !in direct && DepthExceeded !in direct;
    assert !HasDirectReason(rows, r, Cycle, depth) && !HasDirectReason(rows, r, DepthExceeded, depth);
    NoGraphReasonEnds(rows, r, depth);
  }

  lemma {:induction false} EligibleClosedIsComplete(depth: nat, rows: map<Ref, EvidenceRow>,
                                                    dispositions: map<Ref, Disposition>)
    requires Admissible(depth, rows, dispositions)
    ensures CompleteGraph(rows, Selected(rows, dispositions), depth)
  {
    forall r | r in Selected(rows, dispositions)
      ensures EndsWithin(Parents(rows), r, depth)
    {
      EligibleEnds(depth, rows, dispositions, r);
    }
  }

  /** In an admissible selection every candidate descends from a seed: a root is never a mere dependant. */
  lemma {:induction false} CandidatesAreAnchored(depth: nat, rows: map<Ref, EvidenceRow>,
                                                 dispositions: map<Ref, Disposition>, c: Ref)
    requires IsIndex(rows) && Admissible(depth, rows, dispositions)
    requires c in WithVerdict(Expected(rows, depth), dispositions, Candidate)
    ensures Anchored(Parents(rows), WithVerdict(Expected(rows, depth), dispositions, Approve),
                     WithVerdict(Expected(rows, depth), dispositions, Candidate), c)
  {
    var items := Expected(rows, depth);
    var p := Parents(rows);
    var selected := Selected(rows, dispositions);
    EligibleVerdict(depth, rows, dispositions, c);
    EligibleClosedIsComplete(depth, rows, dispositions);
    var k, root := ClosedChainIsRooted(p, selected, c, depth);
    EligibleVerdict(depth, rows, dispositions, root);
    if VerdictOf(items[root], dispositions) == Candidate {
      RootIsUntainted(depth, rows, root);
      assert false;
    }
    FirstSeed(depth, rows, dispositions, c, k);
  }

  lemma {:induction false} RootIsUntainted(depth: nat, rows: map<Ref, EvidenceRow>, root: Ref)
    requires root in rows && rows[root].parentRef == None
    ensures Reasons(rows, root, depth) != {DependentAncestry}
  {
    forall k: nat | k >= 1
      ensures !TaintedAt(rows, root, k, depth)
    {
      assert RootAt(Parents(rows), root, 0, root);
      RootEndsChain(Parents(rows), root, 0, root, k);
    }
    assert !HasDirectReason(rows, root, DependentAncestry, depth);
    assert DependentAncestry !in DirectReasons(rows, root, depth);
  }

  lemma {:induction false} FirstSeed(depth: nat, rows: map<Ref, EvidenceRow>, dispositions: map<Ref, Disposition>,
                                     c: Ref, k: nat)
    requires IsIndex(rows) && Admissible(depth, rows, dispositions) && c in Selected(rows, dispositions)
    requires Up(Parents(rows), c, k).Some? && Up(Parents(rows), c, k).value in
               WithVerdict(Expected(rows, depth), dispositions, Approve)
    ensures exists m: nat :: AnchoredAt(Parents(rows), WithVerdict(Expected(rows, depth), dispositions, Approve),
                                        WithVerdict(Expected(rows, depth), dispositions, Candidate), c, m)
  {
    var p := Parents(rows);
    var items := Expected(rows, depth);
    var seeds, candidates := WithVerdict(items, dispositions, Approve), WithVerdict(items, dispositions, Candidate);
    if i: nat :| i < k && Up(p, c, i).Some? && Up(p, c, i).value in seeds {
      FirstSeed(depth, rows, dispositions, c, i);
    } else {
      forall i: nat | i < k
        ensures Up(p, c, i).Some? && Up(p, c, i).value in candidates
      {
        UpPrefix(p, c, i, k);
        ClosedStays(p, Selected(rows, dispositions), c, i);
        EligibleVerdict(depth, rows, dispositions, Up(p, c, i).value);
      }
      assert AnchoredAt(p, seeds, candidates, c, k);
    }
  }

  /**
   The two fixpoints compute what an operator means: a plan is made exactly when
   every row is either set aside or eligible with an equally selected parent, and
   it then covers precisely the rows that were not set aside.
   */
  lemma {:induction false} DecideIsAdmissible(depth: nat, rows: map<Ref, EvidenceRow>,
                                              dispositions: map<Ref, Disposition>)
    requires IsIndex(rows)
    ensures Decide(rows, Expected(rows, depth), dispositions).Recover? <==> Admissible(depth, rows, dispositions)
    ensures Decide(rows, Expected(rows, depth), dispositions).Recover? ==>
              Decide(rows, Expected(rows, depth), dispositions).approved == Selected(rows, dispositions)
  {
    var items := Expected(rows, depth);
    forall r | r in rows
      ensures var v := VerdictOf(items[r], dispositions);
              && (v == Approve || v == Candidate <==> !Held(dispositions, r) && Eligible(depth, rows, dispositions, r))
              && (v == Settled <==> Held(dispositions, r))
    {
      EligibleVerdict(depth, rows, dispositions, r);
    }
    if Admissible(depth, rows, dispositions) {
      AdmissibleIsDecided(depth, rows, dispositions);
    }
    if Decide(rows, items, dispositions).Recover? {
      DecidedIsAdmissible(depth, rows, dispositions);
    }
  }

  /** Seeding loses no row: an admissible selection is the seeds and the candidates. */
  lemma {:induction false} SelectedIsSeeded(depth: nat, rows: map<Ref, EvidenceRow>,
                                            dispositions: map<Ref, Disposition>)
    requires IsIndex(rows)
    requires forall r | r in Selected(rows, dispositions) :: Eligible(depth, rows, dispositions, r)
    ensures Selected(rows, dispositions) ==
            WithVerdict(Expected(rows, depth), dispositions, Approve) +
                WithVerdict(Expected(rows, depth), dispositions, Candidate)
    ensures !SomeInvalid(Expected(rows, depth), dispositions)
    ensures WithVerdict(Expected(rows, depth), dispositions, Undecided) == {}
  {
    forall r | r in rows
      ensures var v := VerdictOf(Expected(rows, depth)[r], dispositions);
              (v == Approve || v == Candidate <==> r in Selected(rows, dispositions)) && !v.Invalid? && v != Undecided
    {
      EligibleVerdict(depth, rows, dispositions, r);
    }
  }

  lemma {:induction false} AdmissibleIsDecided(depth: nat, rows: map<Ref, EvidenceRow>,
                                               dispositions: map<Ref, Disposition>)
    requires IsIndex(rows) && Admissible(depth, rows, dispositions)
    ensures Decide(rows, Expected(rows, depth), dispositions) == Recover(Selected(rows, dispositions))
  {
    var items := Expected(rows, depth);
    var seeds, candidates := WithVerdict(items, dispositions, Approve), WithVerdict(items, dispositions, Candidate);
    SelectedIsSeeded(depth, rows, dispositions);
    forall c | c in candidates
      ensures Anchored(Parents(rows), seeds, candidates, c)
    {
      CandidatesAreAnchored(depth, rows, dispositions, c);
    }
    NoOrphansWhenClosed(rows, seeds + candidates);
  }

  lemma {:induction false} NoOrphansWhenClosed(rows: map<Ref, EvidenceRow>, kept: set<Ref>)
    requires kept <= rows.Keys
    ensures Orphans(Parents(rows), kept) == {} <==> ParentClosed(Parents(rows), kept)
  {
    if ParentClosed(Parents(rows), kept) {
      ClosedHasNoOrphans(Parents(rows), kept, kept);
    } else {
      var r :| r in kept && !ParentInside(Parents(rows), kept, r);
      OrphanFromParent(Parents(rows), kept, r);
      assert r in Orphans(Parents(rows), kept);
    }
  }

  lemma {:induction false} DecidedIsAdmissible(depth: nat, rows: map<Ref, EvidenceRow>,
                                               dispositions: map<Ref, Disposition>)
    requires IsIndex(rows) && Decide(rows, Expected(rows, depth), dispositions).Recover?
    ensures Admissible(depth, rows, dispositions)
    ensures Decide(rows, Expected(rows, depth), dispositions).approved == Selected(rows, dispositions)
  {
    var items := Expected(rows, depth);
    var kept := WithVerdict(items, dispositions, Approve) + WithVerdict(items, dispositions, Candidate);
    forall r | r in Selected(rows, dispositions)
      ensures Eligible(depth, rows, dispositions, r)
    {
      EligibleVerdict(depth, rows, dispositions, r);
      assert r !in WithVerdict(items, dispositions, Undecided);
    }
    SelectedIsSeeded(depth, rows, dispositions);
    forall r | r in Orphans(Parents(rows), kept)
      ensures r !in dispositions
    {
      EligibleVerdict(depth, rows, dispositions, r);
    }
    assert (set r | r in Orphans(Parents(rows), kept) && r !in dispositions) == Orphans(Parents(rows), kept);
    NoOrphansWhenClosed(rows, kept);
  }

  // ----- UIDs -----

  /** The selected rows that need a fresh UID. */
  ghost function Fresh(rows: map<Ref, EvidenceRow>, dispositions: map<Ref, Disposition>): set<Ref> {
    set r | r in Selected(rows, dispositions) && Collides(rows[r])
  }

  lemma {:induction false} FreshAreCollisions(depth: nat, rows: map<Ref, EvidenceRow>,
                                              dispositions: map<Ref, Disposition>)
    requires IsIndex(rows) && Admissible(depth, rows, dispositions)
    ensures Collisions(Expected(rows, depth), Selected(rows, dispositions)) == Fresh(rows, dispositions)
    ensures forall r | r in Selected(rows, dispositions) && !Collides(rows[r]) :: rows[r].uidCandidates == 1
  {
    forall r | r in Selected(rows, dispositions)
      ensures r in Collisions(Expected(rows, depth), Selected(rows, dispositions)) <==> Collides(rows[r])
      ensures !Collides(rows[r]) ==> rows[r].uidCandidates == 1
    {
      ExpectedItem(depth, rows, r);
      assert Eligible(depth, rows, dispositions, r);
      assert UidCollision in DirectReasons(rows, r, depth) <==> HasDirectReason(rows, r, UidCollision, depth);
    }
  }

  function MaximumOf(rows: seq<EvidenceRow>): nat {
    if rows == [] then 0 else Max(MaximumOf(rows[..|rows| - 1]), rows[|rows| - 1].itemUid)
  }

  /** `max(row.item_uid for row in evidence.rows)`. */
  method MaximumUid(rows: seq<EvidenceRow>) returns (maximum: nat)
    ensures maximum == MaximumOf(rows)
  {
    maximum := 0;
    for i := 0 to |rows|
      invariant maximum == MaximumOf(rows[..i])
    {
      assert rows[..i + 1][..i] == rows[..i];
      maximum := Max(maximum, rows[i].itemUid);
    }
    assert rows[..|rows|] == rows;
  }

  function Max(a: nat, b: nat): nat {
    if a < b then b else a
  }

  /** The first UID that may be handed out. */
  function UidFloor(evidence: Evidence): nat {
    var maximum := MaximumOf(evidence.rows);
    Max(Max(evidence.allocatorNextUid, evidence.liveUidFloor), if maximum == MAX_UID then MAX_UID else maximum + 1)
  }

  lemma {:induction false} MaximumBounds(rows: seq<EvidenceRow>, i: nat)
    requires i < |rows|
    ensures rows[i].itemUid <= MaximumOf(rows)
  {
    if i < |rows| - 1 {
      MaximumBounds(rows[..|rows| - 1], i);
    }
  }

  lemma {:induction false} MaximumFits(rows: seq<EvidenceRow>)
    requires forall i | 0 <= i < |rows| :: rows[i].itemUid <= MAX_UID
    ensures MaximumOf(rows) <= MAX_UID
  {
    if rows != [] {
      MaximumFits(rows[..|rows| - 1]);
    }
  }

  /** No evidence row has the UID `start` or a higher one, unless `start` is the very last UID. */
  ghost predicate Clears(rows: map<Ref, EvidenceRow>, start: nat) {
    start < MAX_UID ==> forall r | r in rows :: rows[r].itemUid < start
  }

  /** The floor is beyond both allocator floors and beyond every evidence UID, as far as 64 bits allow. */
  lemma {:induction false} FloorClearsEvidence(evidence: Evidence)
    requires ValidEvidence(evidence)
    ensures evidence.allocatorNextUid <= UidFloor(evidence) <= MAX_UID && evidence.liveUidFloor <= UidFloor(evidence)
    ensures Clears(Index(evidence.rows), UidFloor(evidence))
  {
    MaximumFits(evidence.rows);
    forall i | 0 <= i < |evidence.rows|
      ensures evidence.rows[i].itemUid <= MaximumOf(evidence.rows)
    {
      MaximumBounds(evidence.rows, i);
    }
  }

  // ----- the planner -----

  /** The artifacts agree: every check before the first loop passes. */
  ghost predicate InputsMatch(depth: nat, rows: map<Ref, EvidenceRow>, classifications: seq<Classification>,
                              dispositions: map<Ref, Disposition>)
  {
    && |ByRef(classifications)| == |classifications|
    && ByRef(classifications) == Expected(rows, depth)
    && dispositions.Keys <= rows.Keys
    && forall r | r in dispositions :: dispositions[r].evidenceRef == rows[r].evidenceRef
  }

  const MISMATCH: set<Refusal> := {ClassificationsMismatch, DispositionOutsideEvidence, StaleDisposition}

  method CheckEvidenceRefs(rows: map<Ref, EvidenceRow>, dispositions: map<Ref, Disposition>) returns (current: bool)
    requires dispositions.Keys <= rows.Keys
    ensures current <==> forall r | r in dispositions :: dispositions[r].evidenceRef == rows[r].evidenceRef
  {
    var todo := dispositions.Keys;
    while todo != {}
      invariant todo <= dispositions.Keys
      invariant forall r | r in dispositions.Keys - todo :: dispositions[r].evidenceRef == rows[r].evidenceRef
      decreases todo
    {
      var reference :| reference in todo;
      if dispositions[reference].evidenceRef != rows[reference].evidenceRef {
        return false;
      }
      todo := todo - {reference};
    }
    return true;
  }

  method CheckInputs(depth: nat, evidence: Evidence, classifications: seq<Classification>,
                     dispositions: map<Ref, Disposition>)
    returns (refusal: Option<Refusal>)
    requires ValidEvidence(evidence)
    ensures refusal == None <==> InputsMatch(depth, Index(evidence.rows), classifications, dispositions)
    ensures refusal.Some? ==> refusal.value in MISMATCH
  {
    var rows := Index(evidence.rows);
    var byRef := ByRef(classifications);
    var expected := Classify(evidence, depth);
    if |byRef| != |classifications| || byRef != ByRef(expected) {
      return Some(ClassificationsMismatch);
    }
    assert byRef.Keys == rows.Keys;
    if !(dispositions.Keys <= byRef.Keys) {
      return Some(DispositionOutsideEvidence);
    }
    var current := CheckEvidenceRefs(rows, dispositions);
    return if current then None else Some(StaleDisposition);
  }

  /**
   Everything a plan with rows promises, for UIDs handed out from `start`; `uids` is
   the assignment it was built from.
   */
  ghost predicate SoundPlan(depth: nat, rows: map<Ref, EvidenceRow>, dispositions: map<Ref, Disposition>, start: nat,
                            plan: Plan, uids: map<Ref, nat>)
  {
    && plan.undispositioned == 0 && SortedBy(plan.rows, PlanKey)
    && SoundForest(depth, rows, dispositions, plan.rows, uids)
    && SoundUids(depth, rows, dispositions, start, plan.nextUid, uids)
  }

  ghost predicate SoundForest(depth: nat, rows: map<Ref, EvidenceRow>, dispositions: map<Ref, Disposition>,
                              plan: seq<RecoveryRow>, uids: map<Ref, nat>)
  {
    && CompleteGraph(rows, Selected(rows, dispositions), depth)
    && uids.Keys == Selected(rows, dispositions)
    && LaidOut(rows, Selected(rows, dispositions), uids, plan)
  }

  ghost predicate SoundUids(depth: nat, rows: map<Ref, EvidenceRow>, dispositions: map<Ref, Disposition>, start: nat,
                            next: nat,
                            uids: map<Ref, nat>)
  {
    && Allocated(rows, Earlier(rows, depth), Selected(rows, dispositions), Fresh(rows, dispositions), uids, start, next)
    && next == start + |Fresh(rows, dispositions)| && next <= MAX_UID
  }

  lemma {:induction false} InvalidErrors(items: map<Ref, Classification>, dispositions: map<Ref, Disposition>,
                                         error: Refusal)
    requires exists r :: r in items && VerdictOf(items[r], dispositions) == Invalid(error)
    ensures error in {OverrideOnRecoverable, UnsafeRecovery}
  {
  }

  lemma {:induction false} VerdictsAreApart(items: map<Ref, Classification>, dispositions: map<Ref, Disposition>)
    ensures WithVerdict(items, dispositions, Approve) !! WithVerdict(items, dispositions, Candidate)
    ensures WithVerdict(items, dispositions, Approve) + WithVerdict(items, dispositions, Candidate) <= items.Keys
  {
  }

  /** Seeding, growing and pruning together. */
  method ApprovedSet(rows: map<Ref, EvidenceRow>, items: map<Ref, Classification>, dispositions: map<Ref, Disposition>)
    returns (result: Result<Pruned, Refusal>)
    requires items.Keys == rows.Keys
    ensures Decide(rows, items, dispositions).Refuse? <==> result.Err?
    ensures result.Err? ==> result.error in {OverrideOnRecoverable, UnsafeRecovery, DescendantNeedsApprovedAncestors,
                                             RecoveryNeedsApprovedAncestors}
    ensures result.Ok? && result.value.undecided > 0 ==>
              Decide(rows, items, dispositions) == Withhold(result.value.undecided)
    ensures result.Ok? && result.value.undecided == 0 ==>
              && Decide(rows, items, dispositions).Recover?
              && result.value.approved == Decide(rows, items, dispositions).approved
                   - Orphans(Parents(rows), Decide(rows, items, dispositions).approved)
  {
    hide VerdictOf, WithVerdict, SomeInvalid, Anchored, Orphans, AsksRecovery, Parents;
    VerdictsAreApart(items, dispositions);
    var seeded := SeedApproved(items, dispositions);
    if seeded.Err? {
      InvalidErrors(items, dispositions, seeded.error);
      return Err(seeded.error);
    }
    if seeded.value.undecided > 0 {
      return Ok(Pruned({}, seeded.value.undecided));
    }
    var grown := GrowDescendants(rows, seeded.value.approved, seeded.value.candidates);
    if grown.Err? {
      return Err(grown.error);
    }
    result := PruneOrphans(rows, grown.value, dispositions);
  }

  /** On classified evidence the loops approve exactly the selected rows, or nothing. */
  method ApproveSelected(depth: nat, rows: map<Ref, EvidenceRow>, items: map<Ref, Classification>,
                         dispositions: map<Ref, Disposition>)
    returns (result: Result<Pruned, Refusal>)
    requires IsIndex(rows) && items == Expected(rows, depth)
    ensures match Decide(rows, items, dispositions)
            case Refuse =>
              result.Err? && result.error in {OverrideOnRecoverable, UnsafeRecovery, DescendantNeedsApprovedAncestors,
                                              RecoveryNeedsApprovedAncestors}
            case Withhold(n) => n > 0 && result.Ok? && result.value.undecided == n
            case Recover(selected) => selected == Selected(rows, dispositions) && result == Ok(Pruned(selected, 0))
  {
    ghost var decided := Decide(rows, items, dispositions);
    result := ApprovedSet(rows, items, dispositions);
    DecideIsAdmissible(depth, rows, dispositions);
    NoOrphansWhenClosed(rows, Selected(rows, dispositions));
    if decided.Recover? {
      assert result.value.approved == Selected(rows, dispositions);
    }
  }

  /** What `plan_recovery` owes for artifacts that match. */
  ghost predicate Delivers(depth: nat, rows: map<Ref, EvidenceRow>, dispositions: map<Ref, Disposition>,
                           allocatorNext: nat,
                           start: nat, decided: Course, result: Result<Plan, Refusal>, uids: map<Ref, nat>)
  {
    match decided
    case Refuse => result.Err? && result.error !in MISMATCH && result.error !in {UidOverflow, NotAnAcyclicCompleteGraph}
    case Withhold(n) => result == Ok(Plan([], allocatorNext, n))
    case Recover(_) =>
      && (result.Err? <==> start + |Fresh(rows, dispositions)| > MAX_UID)
      && (result.Err? ==> result.error == UidOverflow)
      && (result.Ok? ==> SoundPlan(depth, rows, dispositions, start, result.value, uids))
  }

  /** The second half of `plan_recovery`: UIDs and rows for an approved, parent-closed selection. */
  method PlanApproved(depth: nat, rows: map<Ref, EvidenceRow>, items: map<Ref, Classification>, approved: set<Ref>,
                      ghost dispositions: map<Ref, Disposition>, ghost allocatorNext: nat, start: nat)
    returns (result: Result<Plan, Refusal>)
    requires IsIndex(rows) && items == Expected(rows, depth) && start <= MAX_UID
    requires Decide(rows, items, dispositions) == Recover(approved)
    ensures exists uids :: Delivers(depth, rows, dispositions, allocatorNext, start, Recover(approved), result, uids)
  {
    DecideIsAdmissible(depth, rows, dispositions);
    FreshAreCollisions(depth, rows, dispositions);
    EligibleClosedIsComplete(depth, rows, dispositions);
    CountIsSize(approved, Fresh(rows, dispositions));
    var allocation := AssignUids(rows, items, approved, depth, start);
    if allocation.Err? {
      result := Err(allocation.error);
      assert Delivers(depth, rows, dispositions, allocatorNext, start, Recover(approved), result, map[]);
      return;
    }
    ghost var uids := allocation.value.uid;
    assert SoundUids(depth, rows, dispositions, start, allocation.value.nextUid, uids);
    var recovery := BuildRows(rows, approved, allocation.value.uid, depth);
    result := Ok(Plan(recovery, allocation.value.nextUid, 0));
    assert Delivers(depth, rows, dispositions, allocatorNext, start, Recover(approved), result, uids);
  }

  /** `max(evidence.allocator_next_uid, evidence.live_uid_floor, evidence_uid_floor)`. */
  method ComputeFloor(evidence: Evidence) returns (start: nat)
    requires ValidEvidence(evidence)
    ensures start == UidFloor(evidence) && start <= MAX_UID
  {
    FloorClearsEvidence(evidence);
    var maximum := MaximumUid(evidence.rows);
    start := Max(Max(evidence.allocatorNextUid, evidence.liveUidFloor), if maximum == MAX_UID then MAX_UID
                 else maximum + 1);
  }

  /** `plan_recovery` after its input checks. */
  method PlanMatching(depth: nat, rows: map<Ref, EvidenceRow>, items: map<Ref, Classification>,
                      dispositions: map<Ref, Disposition>, allocatorNext: nat, start: nat)
    returns (result: Result<Plan, Refusal>)
    requires IsIndex(rows) && items == Expected(rows, depth) && start <= MAX_UID
    ensures exists uids ::
              Delivers(depth, rows, dispositions, allocatorNext, start, Decide(rows, items, dispositions), result, uids)
  {
    hide SoundPlan, Expected, IsIndex;
    ghost var decided := Decide(rows, items, dispositions);
    var approved := ApproveSelected(depth, rows, items, dispositions);
    if approved.Err? {
      result := Err(approved.error);
      assert Delivers(depth, rows, dispositions, allocatorNext, start, decided, result, map[]);
      return;
    }
    if approved.value.undecided > 0 {
      result := Ok(Plan([], allocatorNext, approved.value.undecided));
      assert Delivers(depth, rows, dispositions, allocatorNext, start, decided, result, map[]);
      return;
    }
    result := PlanApproved(depth, rows, items, approved.value.approved, dispositions, allocatorNext, start);
  }

  /**
   `plan_recovery`, for a classification at any depth limit. With matching artifacts
   the outcome is decided by the evidence and the dispositions alone, whatever order
   the sets are iterated in.
   */
  method PlanWithin(depth: nat, evidence: Evidence, classifications: seq<Classification>,
                    dispositions: map<Ref, Disposition>)
    returns (result: Result<Plan, Refusal>)
    requires ValidEvidence(evidence)
    ensures Planned(depth, evidence, classifications, dispositions, result)
  {
    hide Delivers;
    var refusal := CheckInputs(depth, evidence, classifications, dispositions);
    if refusal.Some? {
      return Err(refusal.value);
    }
    var start := ComputeFloor(evidence);
    result := PlanMatching(depth, Index(evidence.rows), ByRef(classifications), dispositions, evidence.allocatorNextUid,
                           start);
  }

  ghost predicate Planned(depth: nat, evidence: Evidence, classifications: seq<Classification>,
                          dispositions: map<Ref, Disposition>, result: Result<Plan, Refusal>)
  {
    var rows := Index(evidence.rows);
    if InputsMatch(depth, rows, classifications, dispositions) then
      exists uids ::
        Delivers(depth, rows, dispositions, evidence.allocatorNextUid, UidFloor(evidence),
                 Decide(rows, ByRef(classifications), dispositions), result, uids)
    else result.Err? && result.error in MISMATCH
  }

  /** `plan_recovery` itself: the depth limit is 32. */
  method PlanRecovery(evidence: Evidence, classifications: seq<Classification>, dispositions: map<Ref, Disposition>)
    returns (result: Result<Plan, Refusal>)
    requires ValidEvidence(evidence)
    ensures Planned(MAX_DEPTH, evidence, classifications, dispositions, result)
  {
    hide Planned;
    result := PlanWithin(MAX_DEPTH, evidence, classifications, dispositions);
  }

  lemma {:induction false} CountIsSize(whole: set<Ref>, part: set<Ref>)
    requires part <= whole
    ensures Count(whole, part) == |part|
  {
    assert whole * part == part;
  }

  // ----- what a plan guarantees -----

  /** `uid_candidates == 1` is true of the rows that claim it: no other evidence row has the UID. */
  ghost predicate CandidateCountsTrue(rows: map<Ref, EvidenceRow>) {
    forall r, s | r in rows && s in rows && r != s && rows[r].uidCandidates == 1 :: rows[r].itemUid != rows[s].itemUid
  }

  /** Two selected rows that both keep their UID never share it. */
  ghost predicate KeptUidsDistinct(rows: map<Ref, EvidenceRow>, dispositions: map<Ref, Disposition>) {
    forall r, s | r in Selected(rows, dispositions) && s in Selected(rows, dispositions) && r != s
                  && !Collides(rows[r]) && !Collides(rows[s]) :: rows[r].itemUid != rows[s].itemUid
  }

  ghost predicate DistinctUids(uids: map<Ref, nat>) {
    forall r, s | r in uids && s in uids && r != s :: uids[r] != uids[s]
  }

  /** Fresh UIDs are new: not below the floor, below 2^64 - 1, and unlike every evidence UID. */
  lemma {:induction false} FreshUidsAreNew(depth: nat, rows: map<Ref, EvidenceRow>, dispositions: map<Ref, Disposition>,
                                           start: nat, next: nat,
                        uids: map<Ref, nat>, r: Ref)
    requires SoundUids(depth, rows, dispositions, start, next, uids) && Clears(rows, start)
    requires r in Fresh(rows, dispositions)
    ensures start <= uids[r] < MAX_UID
    ensures forall s | s in rows :: rows[s].itemUid != uids[r]
  {
  }

  lemma {:induction false} OrderIsTotal(rows: map<Ref, EvidenceRow>, depth: nat, a: Ref, b: Ref)
    requires a != b && a in rows && b in rows
    ensures Before(rows, depth, a, b) || Before(rows, depth, b, a)
  {
    assert RowKey(rows, a).minor == a && RowKey(rows, b).minor == b;
  }

  /** A fresh UID is shared with no other planned row. */
  lemma {:induction false} FreshUidIsOwn(depth: nat, rows: map<Ref, EvidenceRow>, dispositions: map<Ref, Disposition>,
                                         start: nat, next: nat,
                      uids: map<Ref, nat>, r: Ref, s: Ref)
    requires SoundUids(depth, rows, dispositions, start, next, uids) && Clears(rows, start)
    requires r in Fresh(rows, dispositions) && s in uids && r != s
    ensures uids[r] != uids[s]
  {
    if s in Fresh(rows, dispositions) {
      OrderIsTotal(rows, depth, r, s);
      assert Earlier(rows, depth)(r, s) || Earlier(rows, depth)(s, r);
    } else {
      FreshUidsAreNew(depth, rows, dispositions, start, next, uids, r);
    }
  }

  /**
   All planned UIDs are distinct exactly when no two rows that keep their UID share
   one. The reader does not check `uid_candidates` against the evidence, so this is
   a condition on the input, not a consequence of `ValidEvidence`.
   */
  lemma {:induction false} PlannedUidsDistinctIff(depth: nat, rows: map<Ref, EvidenceRow>,
                                                  dispositions: map<Ref, Disposition>, start: nat, next: nat,
                               uids: map<Ref, nat>)
    requires SoundUids(depth, rows, dispositions, start, next, uids) && Clears(rows, start)
    ensures DistinctUids(uids) <==> KeptUidsDistinct(rows, dispositions)
  {
    forall r, s | r in uids && s in uids && r != s && (Collides(rows[r]) || Collides(rows[s]))
      ensures uids[r] != uids[s]
    {
      if Collides(rows[r]) {
        FreshUidIsOwn(depth, rows, dispositions, start, next, uids, r, s);
      } else {
        FreshUidIsOwn(depth, rows, dispositions, start, next, uids, s, r);
      }
    }
  }

  /** The meaning of `uid_candidates` is enough. */
  lemma {:induction false} TrueCountsGiveDistinctUids(depth: nat, rows: map<Ref, EvidenceRow>,
                                                      dispositions: map<Ref, Disposition>, start: nat, next: nat,
                                   uids: map<Ref, nat>)
    requires SoundUids(depth, rows, dispositions, start, next, uids) && Clears(rows, start) && IsIndex(rows)
    requires Admissible(depth, rows, dispositions) && CandidateCountsTrue(rows)
    ensures DistinctUids(uids)
  {
    FreshAreCollisions(depth, rows, dispositions);
    PlannedUidsDistinctIff(depth, rows, dispositions, start, next, uids);
  }

  /**
   Nothing less is enough: valid evidence of two parentless clean rows that claim to be the
   only ones with their UID, and have the same, is planned, and every assignment repeats it.
   */
  lemma {:induction false} SharedUidIsPlannedTwice(depth: nat) returns (evidence: Evidence)
    requires depth > 0
    ensures ValidEvidence(evidence) && forall row | row in evidence.rows :: row.uidCandidates == 1
    ensures Admissible(depth, Index(evidence.rows), map[])
    ensures forall start, next, uids | SoundUids(depth, Index(evidence.rows), map[], start, next, uids) ::
              !DistinctUids(uids)
  {
    var one := EvidenceRow(1, PlayerItems, 1, 7, None, 5, true, 100, PrototypeCurrent, 0, 1, 1, false, 1);
    var two := EvidenceRow(2, PlayerItems, 2, 7, None, 5, true, 100, PrototypeCurrent, 0, 1, 1, false, 2);
    evidence := Evidence(8, 8, [one, two]);
    var rows := Index(evidence.rows);
    IndexFinds(evidence.rows, 0);
    IndexFinds(evidence.rows, 1);
    assert evidence.rows[0] == one && evidence.rows[1] == two;
    assert rows.Keys == {1, 2} by {
      forall r | r in rows
        ensures r in {1, 2}
      {
        assert rows[r] in evidence.rows;
      }
    }
    forall r | r in rows
      ensures Reasons(rows, r, depth) == {} && !Collides(rows[r])
    {
      assert Up(Parents(rows), r, 0) == Some(r);
      CleanIsRecoverable(rows, r, depth, 0, r);
    }
    SharedUidRepeats(depth, rows, 1, 2);
  }

  lemma {:induction false} SharedUidRepeats(depth: nat, rows: map<Ref, EvidenceRow>, r: Ref, s: Ref)
    requires r in rows && s in rows && r != s && rows[r].itemUid == rows[s].itemUid && !Collides(rows[r])
             && !Collides(rows[s])
    ensures forall start, next, uids | SoundUids(depth, rows, map[], start, next, uids) :: !DistinctUids(uids)
  {
    forall start, next, uids | SoundUids(depth, rows, map[], start, next, uids)
      ensures !DistinctUids(uids)
    {
      assert r in Selected(rows, map[]) && s in Selected(rows, map[]);
    }
  }

  // ----- the relabelled forest -----

  /** No two planned rows have the same new UID. */
  ghost predicate WellKeyed(plan: seq<RecoveryRow>) {
    forall x, y | x in plan && y in plan && x.newUid == y.newUid :: x == y
  }

  /** The parent pointers of the plan, by new UID. */
  ghost function NewParents(plan: seq<RecoveryRow>): map<nat, Option<nat>>
    requires WellKeyed(plan)
  {
    map x | x in plan :: x.newUid := x.newParentUid
  }

  /** The root behind a planned row's new root UID. */
  lemma {:induction false} PlannedRoot(rows: map<Ref, EvidenceRow>, uids: map<Ref, nat>, x: RecoveryRow)
    returns (k: nat, root: Ref)
    requires Relabels(rows, uids, x)
    ensures RootAt(Parents(rows), x.row.rowRef, k, root) && root in uids && x.newRootUid == uids[root]
  {
    k, root :| RootAt(Parents(rows), x.row.rowRef, k, root) && root in uids && x.newRootUid == uids[root];
  }

  /** Planned rows are determined by their references. */
  lemma {:induction false} PlanRowUnique(rows: map<Ref, EvidenceRow>, uids: map<Ref, nat>, x: RecoveryRow,
                                         y: RecoveryRow)
    requires Relabels(rows, uids, x) && Relabels(rows, uids, y) && x.row.rowRef == y.row.rowRef
    ensures x == y
  {
    var k, root := PlannedRoot(rows, uids, x);
    var k', root' := PlannedRoot(rows, uids, y);
    RootUnique(Parents(rows), x.row.rowRef, k, root, k', root');
  }

  lemma {:induction false} PlanIsWellKeyed(rows: map<Ref, EvidenceRow>, selected: set<Ref>, uids: map<Ref, nat>,
                                           plan: seq<RecoveryRow>)
    requires LaidOut(rows, selected, uids, plan) && DistinctUids(uids)
    ensures WellKeyed(plan)
  {
    forall x, y | x in plan && y in plan && x.newUid == y.newUid
      ensures x == y
    {
      assert Relabels(rows, uids, x) && Relabels(rows, uids, y);
      PlanRowUnique(rows, uids, x, y);
    }
  }

  lemma {:induction false} NewParentOf(rows: map<Ref, EvidenceRow>, selected: set<Ref>, uids: map<Ref, nat>,
                                       plan: seq<RecoveryRow>, r: Ref)
    requires LaidOut(rows, selected, uids, plan) && WellKeyed(plan) && r in selected && r in rows && r in uids
    ensures PointerRenamed(Parents(rows), NewParents(plan), uids, r)
  {
    assert r in set x | x in plan :: x.row.rowRef;
    var x :| x in plan && x.row.rowRef == r;
    assert Relabels(rows, uids, x);
    assert x.newUid in NewParents(plan);
  }

  /** The pointers of the plan, old and new, agree under the assignment. */
  lemma {:induction false} PointersAgree(rows: map<Ref, EvidenceRow>, plan: seq<RecoveryRow>, uids: map<Ref, nat>)
    requires LaidOut(rows, uids.Keys, uids, plan) && DistinctUids(uids) && uids.Keys <= rows.Keys
    ensures WellKeyed(plan)
    ensures PointersRenamed(Parents(rows), NewParents(plan), uids)
  {
    hide *;
    PlanIsWellKeyed(rows, uids.Keys, uids, plan);
    forall s {:trigger PointerRenamed(Parents(rows), NewParents(plan), uids, s)} | s in uids
      ensures PointerRenamed(Parents(rows), NewParents(plan), uids, s)
    {
      NewParentOf(rows, uids.Keys, uids, plan, s);
    }
    EachRenamed(Parents(rows), NewParents(plan), uids);
  }

  lemma {:induction false} EachRenamed(p: map<Ref, Option<Ref>>, n: map<nat, Option<nat>>, uids: map<Ref, nat>)
    requires forall s {:trigger PointerRenamed(p, n, uids, s)} | s in uids :: PointerRenamed(p, n, uids, s)
    ensures PointersRenamed(p, n, uids)
  {
    hide PointerRenamed;
  }

  /** The same for a planned forest, whose rows are all selected and known. */
  lemma {:induction false} ForestAgrees(depth: nat, rows: map<Ref, EvidenceRow>, dispositions: map<Ref, Disposition>,
                                        plan: seq<RecoveryRow>, uids: map<Ref, nat>)
    requires SoundForest(depth, rows, dispositions, plan, uids) && DistinctUids(uids)
    ensures WellKeyed(plan) && uids.Keys == Selected(rows, dispositions)
    ensures ParentClosed(Parents(rows), uids.Keys)
    ensures PointersRenamed(Parents(rows), NewParents(plan), uids)
  {
    hide LaidOut, WellKeyed, DistinctUids, PointersRenamed, NewParents;
    assert uids.Keys <= rows.Keys;
    PointersAgree(rows, plan, uids);
  }

  /**
   The plan relabels the forest: following `k` new parent pointers from a row's new
   UID leads to the new UID of the row reached by `k` old ones.
   */
  lemma {:induction false} PlanIsTheRelabelledForest(depth: nat, rows: map<Ref, EvidenceRow>,
                                                     dispositions: map<Ref, Disposition>,
                                  plan: seq<RecoveryRow>, uids: map<Ref, nat>, r: Ref, k: nat)
    requires SoundForest(depth, rows, dispositions, plan, uids) && DistinctUids(uids)
             && r in Selected(rows, dispositions)
    ensures WellKeyed(plan) && r in uids
    ensures Up(NewParents(plan), uids[r], k) == Renamed(uids, Up(Parents(rows), r, k))
  {
    ForestAgrees(depth, rows, dispositions, plan, uids);
    RenamedChain(Parents(rows), NewParents(plan), uids, r, k);
  }

  lemma {:induction false} PlannedDepth(depth: nat, rows: map<Ref, EvidenceRow>, selected: set<Ref>, r: Ref, k: nat,
                                        root: Ref)
    requires CompleteGraph(rows, selected, depth) && r in selected && RootAt(Parents(rows), r, k, root)
    ensures k < depth && root in selected
  {
    var k', root' := ClosedChainIsRooted(Parents(rows), selected, r, depth);
    RootUnique(Parents(rows), r, k, root, k', root');
  }

  lemma {:induction false} NewRootOf(depth: nat, rows: map<Ref, EvidenceRow>, uids: map<Ref, nat>,
                                     n: map<nat, Option<nat>>, x: RecoveryRow)
    returns (k: nat)
    requires CompleteGraph(rows, uids.Keys, depth) && Relabels(rows, uids, x)
    requires PointersRenamed(Parents(rows), n, uids)
    ensures k < depth && RootAt(n, x.newUid, k, x.newRootUid)
  {
    var root: Ref;
    k, root := PlannedRoot(rows, uids, x);
    PlannedDepth(depth, rows, uids.Keys, x.row.rowRef, k, root);
    RenamedRoot(Parents(rows), n, uids, x.row.rowRef, k, root);
  }

  /** The new root is the true root of the new chain, within the depth limit. */
  lemma {:induction false} NewRootsAreTrueRoots(depth: nat, rows: map<Ref, EvidenceRow>,
                                                dispositions: map<Ref, Disposition>,
                             plan: seq<RecoveryRow>, uids: map<Ref, nat>, x: RecoveryRow) returns (k: nat)
    requires SoundForest(depth, rows, dispositions, plan, uids) && DistinctUids(uids) && x in plan
    ensures WellKeyed(plan)
    ensures k < depth && RootAt(NewParents(plan), x.newUid, k, x.newRootUid)
  {
    ForestAgrees(depth, rows, dispositions, plan, uids);
    k := NewRootOf(depth, rows, uids, NewParents(plan), x);
  }

  /** A planned row's whole chain belongs to one owner. */
  lemma {:induction false} PlannedChainHasOneOwner(depth: nat, rows: map<Ref, EvidenceRow>,
                                                   dispositions: map<Ref, Disposition>, r: Ref, k: nat)
    requires IsIndex(rows) && Admissible(depth, rows, dispositions) && r in Selected(rows, dispositions)
    requires Up(Parents(rows), r, k).Some?
    ensures Up(Parents(rows), r, k).value in Selected(rows, dispositions)
    ensures rows[Up(Parents(rows), r, k).value].ownerRef == rows[r].ownerRef
  {
    if k > 0 {
      PlannedChainHasOneOwner(depth, rows, dispositions, r, k - 1);
      var below := Up(Parents(rows), r, k - 1).value;
      assert Eligible(depth, rows, dispositions, below)
             && ParentInside(Parents(rows), Selected(rows, dispositions), below);
      assert CrossOwner !in DirectReasons(rows, below, depth);
      assert !HasDirectReason(rows, below, CrossOwner, depth);
    }
  }
}