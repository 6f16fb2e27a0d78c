/**
 `ArchiveBatchMachine` (scripts/lifecycle_archive.py). A refused call leaves behind
 whatever it had already assigned; the state is kept as a value so that whole runs of
 calls, refused or not, can be spoken about.
 */
module ArchiveBatch {
  import opened Wrappers
  import opened Encoding
  import opened Fingerprints
  import opened Plans

  datatype Status = Planned | Paused | Copying | Copied | Verified | Finalizing | Completed | Failed | Blocked

  datatype FinalizeAuthorization = FinalizeAuthorization(
    jobId: Blob, batchId: Bytes, manifestChecksum: Blob, approval: Blob,
    count: nat, sourceChecksum: Option<Digest>, keysChecksum: Digest, token: Digest)

  /** What never changes about one batch. */
  datatype Batch = Batch(plan: Plan, sequence: int, cursor: Blob, upper: Blob)

  datatype State = State(
    status: Status, resumeStatus: Option<Status>, archived: seq<Row>,
    sourceCount: nat, sourceBytes: nat,
    sourceChecksum: Option<Digest>, archiveChecksum: Option<Digest>,
    before: bool, after: bool)

  function Initial(plan: Plan): State {
    State(if plan.blocked then Blocked else Planned, None, [], 0, 0, None, None, false, false)
  }

  // ----- copy -----

  function PayloadBytes(rows: seq<Row>): nat {
    if rows == [] then 0 else PayloadBytes(rows[..|rows| - 1]) + |rows[|rows| - 1].payload|
  }

  /** Every key lies in the batch's window, which is open below. */
  ghost predicate InWindow(batch: Batch, rows: seq<Row>) {
    forall row | row in rows :: Less(batch.cursor, row.key) && !Less(batch.upper, row.key)
  }

  /** A first copy, or a repetition of the one already archived. */
  ghost predicate Repeats(archived: seq<Row>, rows: seq<Row>) {
    archived == [] || (KeySet(archived) == KeySet(rows) && forall row | row in rows :: row in archived)
  }

  /** The checks made before anything is assigned. */
  predicate MayCopy(batch: Batch, s: State, count: nat, time: int) {
    && s.status in {Planned, Copying, Copied} && !batch.plan.dryRun
    && 0 <= time <= batch.plan.budget.time && count <= batch.plan.budget.rows
  }

  ghost predicate CopyAccepted(batch: Batch, s: State, rows: seq<Row>) {
    && InWindow(batch, rows) && PayloadBytes(SortRows(rows)) <= batch.plan.budget.bytes
    && Admissible(rows) && Repeats(s.archived, rows)
  }

  ghost function CopyStep(hash: Hash, batch: Batch, s: State, rows: seq<Row>, time: int): (State, bool) {
    if !MayCopy(batch, s, |rows|, time) then (s, false)
    else if !CopyAccepted(batch, s, rows) then (s.(status := Copying), false)
    else
      var archived := if s.archived == [] then SortRows(rows) else s.archived;
      (s.(status := Copied, archived := archived, sourceCount := |rows|,
          sourceBytes := PayloadBytes(SortRows(rows)),
          sourceChecksum := Some(FingerprintOf(hash, rows)),
          archiveChecksum := Some(FingerprintOf(hash, archived))), true)
  }

  /** `archived[row.source_key] = row` on an insertion-ordered dictionary. */
  function Put(archive: seq<Row>, row: Row): seq<Row> {
    if archive == [] then [row]
    else if archive[0].key == row.key then [row] + archive[1..]
    else [archive[0]] + Put(archive[1..], row)
  }

  function Get(archive: seq<Row>, key: Blob): (r: Option<Row>)
    ensures r.None? <==> key !in KeySet(archive)
    ensures r.Some? ==> r.value in archive && r.value.key == key
  {
    if archive == [] then None
    else
      assert archive == [archive[0]] + archive[1..];
      if archive[0].key == key then Some(archive[0]) else Get(archive[1..], key)
  }

  lemma {:induction false} PutNew(archive: seq<Row>, row: Row)
    requires row.key !in KeySet(archive)
    ensures Put(archive, row) == archive + [row]
  {
    if archive != [] {
      assert archive[0] in archive;
      PutNew(archive[1..], row);
    }
  }

  lemma {:induction false} PutAgain(archive: seq<Row>, row: Row)
    requires row in archive && forall i, j | 0 <= i < j < |archive| :: archive[i].key != archive[j].key
    ensures Put(archive, row) == archive
  {
    if archive[0] != row {
      assert row in archive[1..];
      PutAgain(archive[1..], row);
    }
  }

  lemma {:induction false} GetIsMembership(archive: seq<Row>, row: Row)
    requires UniqueKeys(archive)
    ensures Get(archive, row.key) == Some(row) <==> row in archive
  {
    UniqueKeysMeans(archive);
  }

  lemma {:induction false} WindowByEnds(batch: Batch, ordered: seq<Row>)
    requires KeyOrdered(ordered) && ordered != []
    ensures InWindow(batch, ordered) <==>
            Less(batch.cursor, ordered[0].key) && !Less(batch.upper, ordered[|ordered| - 1].key)
  {
    var low, high := ordered[0].key, ordered[|ordered| - 1].key;
    if Less(batch.cursor, low) && !Less(batch.upper, high) {
      forall row | row in ordered
        ensures Less(batch.cursor, row.key) && !Less(batch.upper, row.key)
      {
        var i :| 0 <= i < |ordered| && ordered[i] == row;
        LessIsTotal(row.key, row.key);
        assert !Less(row.key, low) && !Less(high, row.key);
        NotBelowKeeps(batch.cursor, low, row.key);
        NotAboveKeeps(batch.upper, high, row.key);
      }
    }
  }

  lemma {:induction false} NotBelowKeeps(cursor: Bytes, low: Bytes, key: Bytes)
    requires Less(cursor, low) && !Less(key, low)
    ensures Less(cursor, key)
  {
    LessIsTotal(key, low);
    if key != low {
      LessIsTransitive(cursor, low, key);
    }
  }

  lemma {:induction false} NotAboveKeeps(upper: Bytes, high: Bytes, key: Bytes)
    requires !Less(upper, high) && !Less(high, key)
    ensures !Less(upper, key)
  {
    LessIsTotal(upper, high);
    LessIsTotal(high, key);
    LessIsTotal(upper, key);
    if upper != high && high != key {
      LessIsTransitive(key, high, upper);
    }
  }

  lemma {:induction false} SortingChangesNothing(batch: Batch, archived: seq<Row>, rows: seq<Row>, ordered: seq<Row>)
    requires multiset(rows) == multiset(ordered)
    ensures InWindow(batch, rows) <==> InWindow(batch, ordered)
    ensures Repeats(archived, rows) <==> Repeats(archived, ordered)
  {
    SameRows(ordered, rows);
    assert KeySet(rows) == KeySet(ordered);
  }

  /** A repeated copy brings exactly the archived rows. */
  lemma {:induction false} RepetitionIsExact(hash: Hash, archived: seq<Row>, rows: seq<Row>)
    requires Admissible(archived) && Admissible(rows) && Repeats(archived, rows) && archived != []
    ensures multiset(rows) == multiset(archived) && FingerprintOf(hash, rows) == FingerprintOf(hash, archived)
  {
    UniqueKeysMeans(archived);
    forall row
      ensures row in archived <==> row in rows
    {
      if row in archived {
        assert row.key in KeySet(rows);
        var twin :| twin in rows && twin.key == row.key;
        assert twin in archived;
      }
    }
    SameMembersSameRows(rows, archived);
    FingerprintIgnoresOrder(hash, rows, archived);
  }

  // ----- the other calls -----

  ghost function PauseStep(s: State): (State, bool) {
    if s.status in {Completed, Blocked, Failed} then (s, false)
    else (s.(resumeStatus := Some(s.status), status := Paused), true)
  }

  ghost function ResumeStep(s: State): (State, bool) {
    if s.status != Paused || s.resumeStatus.None? then (s, false)
    else (s.(status := s.resumeStatus.value, resumeStatus := None), true)
  }

  ghost function VerifyStep(hash: Hash, s: State, source: seq<Row>, before: bool): (State, bool) {
    if s.status != Copied || !Admissible(source) then (s, false)
    else if !Matches(hash, s, source) || !before then (s.(status := Failed), false)
    else (s.(before := true, archiveChecksum := Some(FingerprintOf(hash, s.archived)), status := Verified), true)
  }

  ghost predicate Matches(hash: Hash, s: State, source: seq<Row>) {
    && |source| == |s.archived| && FingerprintOf(hash, source) == FingerprintOf(hash, s.archived)
    && s.sourceChecksum == Some(FingerprintOf(hash, source))
  }

  predicate MayFinalize(batch: Batch, s: State, manifest: Blob, approval: Blob) {
    && s.status in {Verified, Finalizing} && !batch.plan.dryRun && !batch.plan.blocked
    && manifest == batch.plan.manifestChecksum && approval == batch.plan.approval && s.before
  }

  ghost function FinalizeStep(batch: Batch, s: State, manifest: Blob, approval: Blob): (State, bool) {
    if MayFinalize(batch, s, manifest, approval) then (s.(status := Finalizing), true) else (s, false)
  }

  ghost function CompleteStep(hash: Hash, batch: Batch, s: State, ack: FinalizeAuthorization,
                              affected: int, remaining: int, after: bool): (State, bool) {
    var (f, ok) := FinalizeStep(batch, s, batch.plan.manifestChecksum, batch.plan.approval);
    if !ok || ack != Authorization(hash, batch, s) || affected != s.sourceCount || remaining != 0 || !after then
      (f, false)
    else (f.(after := true, status := Completed), true)
  }

  // ----- identities -----

  function BatchId(hash: Hash, batch: Batch): Bytes {
    StableKey(hash, [batch.plan.jobKey, Decimal(batch.sequence), batch.cursor, batch.upper])[..16]
  }

  function Keys(rows: seq<Row>): (r: seq<Blob>)
    ensures |r| == |rows| && forall i | 0 <= i < |rows| :: r[i] == rows[i].key
  {
    if rows == [] then [] else Keys(rows[..|rows| - 1]) + [rows[|rows| - 1].key]
  }

  function KeysChecksum(hash: Hash, archived: seq<Row>): Digest {
    hash(Frames(Keys(SortRows(archived))))
  }

  function DigestText(digest: Option<Digest>): Blob {
    match digest case None => [] case Some(d) => d
  }

  function Authorization(hash: Hash, batch: Batch, s: State): FinalizeAuthorization {
    var id, keys := BatchId(hash, batch), KeysChecksum(hash, s.archived);
    FinalizeAuthorization(
      batch.plan.jobId, id, batch.plan.manifestChecksum, batch.plan.approval, s.sourceCount, s.sourceChecksum, keys,
      StableKey(hash, [batch.plan.jobId, id, batch.plan.manifestChecksum, batch.plan.approval,
                       Decimal(s.sourceCount), DigestText(s.sourceChecksum), keys]))
  }

  // ----- runs -----

  datatype Call =
    | Pause
    | Resume
    | Copy(rows: seq<Row>, time: int)
    | Verify(source: seq<Row>, before: bool)
    | Finalize(manifest: Blob, approval: Blob)
    | Complete(ack: FinalizeAuthorization, affected: int, remaining: int, after: bool)

  ghost function Step(hash: Hash, batch: Batch, s: State, call: Call): (State, bool) {
    match call
    case Pause => PauseStep(s)
    case Resume => ResumeStep(s)
    case Copy(rows, time) => CopyStep(hash, batch, s, rows, time)
    case Verify(source, before) => VerifyStep(hash, s, source, before)
    case Finalize(manifest, approval) => FinalizeStep(batch, s, manifest, approval)
    case Complete(ack, affected, remaining, after) => CompleteStep(hash, batch, s, ack, affected, remaining, after)
  }

  ghost function Run(hash: Hash, batch: Batch, s: State, calls: seq<Call>): State
    decreases |calls|
  {
    if calls == [] then s else Run(hash, batch, Step(hash, batch, s, calls[0]).0, calls[1..])
  }

  /** The status a batch has, or had when it was paused. */
  function Effective(s: State): Status {
    if s.status == Paused && s.resumeStatus.Some? then s.resumeStatus.value else s.status
  }

  const LATE := {Verified, Finalizing, Completed}

  ghost predicate Inv(hash: Hash, batch: Batch, s: State) {
    && Admissible(s.archived)
    && (s.archived != [] ==> !batch.plan.dryRun && s.archiveChecksum.Some?)
    && (s.archiveChecksum.Some? ==> s.archiveChecksum == s.sourceChecksum == Some(FingerprintOf(hash, s.archived)))
    && (s.sourceChecksum.Some? ==> s.archiveChecksum.Some? && s.sourceCount == |s.archived|)
    && (Effective(s) in LATE + {Copied} ==> s.archiveChecksum.Some?)
    && (Effective(s) in LATE ==> s.before && !batch.plan.dryRun && !batch.plan.blocked)
    && (s.before ==> Effective(s) in LATE + {Paused})
    && (s.after <==> s.status == Completed) && (s.resumeStatus.Some? ==> s.status == Paused)
    && (s.resumeStatus.Some? ==> s.resumeStatus.value !in {Completed, Failed, Blocked})
    && (batch.plan.blocked <==> s.status == Blocked)
    && (batch.plan.dryRun ==> Effective(s) in {Planned, Paused, Blocked} && s.archiveChecksum.None?)
  }

  lemma {:induction false} InitialInv(hash: Hash, batch: Batch)
    ensures Inv(hash, batch, Initial(batch.plan))
  {
  }

  lemma {:induction false} CopyKeepsInv(hash: Hash, batch: Batch, s: State, rows: seq<Row>, time: int)
    requires Inv(hash, batch, s)
    ensures Inv(hash, batch, CopyStep(hash, batch, s, rows, time).0)
  {
    hide FingerprintOf, Admissible, SortRows, Authorization;
    if MayCopy(batch, s, |rows|, time) && CopyAccepted(batch, s, rows) {
      if s.archived == [] {
        FingerprintIgnoresOrder(hash, rows, SortRows(rows));
      } else {
        RepetitionIsExact(hash, s.archived, rows);
        assert |rows| == |multiset(rows)| == |multiset(s.archived)| == |s.archived|;
      }
    }
  }

  lemma {:induction false} StepKeepsInv(hash: Hash, batch: Batch, s: State, call: Call)
    requires Inv(hash, batch, s)
    ensures Inv(hash, batch, Step(hash, batch, s, call).0)
  {
    hide FingerprintOf, Admissible, SortRows, Authorization;
    if call.Copy? {
      CopyKeepsInv(hash, batch, s, call.rows, call.time);
    }
  }

  lemma {:induction false} RunKeepsInv(hash: Hash, batch: Batch, s: State, calls: seq<Call>)
    requires Inv(hash, batch, s)
    ensures Inv(hash, batch, Run(hash, batch, s, calls))
    decreases |calls|
  {
    hide FingerprintOf, Admissible, SortRows, Authorization;
    if calls != [] {
      StepKeepsInv(hash, batch, s, calls[0]);
      RunKeepsInv(hash, batch, Step(hash, batch, s, calls[0]).0, calls[1..]);
    }
  }

  /**
   A run that ends completed was mutation-capable, unblocked and reconciled on both sides;
   a dry run archives nothing.
   */
  lemma {:induction false} CompletedIsReconciled(hash: Hash, batch: Batch, calls: seq<Call>)
    ensures var s := Run(hash, batch, Initial(batch.plan), calls);
            && (s.status == Completed ==> !batch.plan.dryRun && !batch.plan.blocked && s.before && s.after)
            && (s.after ==> s.status == Completed)
            && (batch.plan.dryRun || batch.plan.blocked ==> s.archived == [])
            && (s.archived != [] ==>
                  Admissible(s.archived) && s.archiveChecksum == Some(FingerprintOf(hash, s.archived)))
  {
    InitialInv(hash, batch);
    RunKeepsInv(hash, batch, Initial(batch.plan), calls);
    if batch.plan.blocked {
      FinalIsFinal(hash, batch, Initial(batch.plan), calls);
    }
  }

  /** Completed, failed and blocked batches never change again, in any field. */
  lemma {:induction false} FinalIsFinal(hash: Hash, batch: Batch, s: State, calls: seq<Call>)
    requires s.status in {Completed, Failed, Blocked}
    ensures Run(hash, batch, s, calls) == s
    decreases |calls|
  {
    hide FingerprintOf, Admissible, SortRows, Authorization;
    if calls != [] {
      FinalIsFinal(hash, batch, s, calls[1..]);
    }
  }

  /** Once rows are archived, no run changes them. */
  lemma {:induction false} ArchiveIsWriteOnce(hash: Hash, batch: Batch, s: State, calls: seq<Call>)
    requires s.archived != []
    ensures Run(hash, batch, s, calls).archived == s.archived
    decreases |calls|
  {
    hide FingerprintOf, Admissible, SortRows, Authorization;
    if calls != [] {
      ArchiveIsWriteOnce(hash, batch, Step(hash, batch, s, calls[0]).0, calls[1..]);
    }
  }

  /** Only an accepted copy archives anything; a refused one leaves every row and checksum alone. */
  lemma {:induction false} RefusedCallKeepsArchive(hash: Hash, batch: Batch, s: State, call: Call)
    ensures var (t, ok) := Step(hash, batch, s, call);
            && (!ok ==> t == s.(status := t.status))
            && (!ok && t.status != s.status ==> t.status in {Copying, Failed, Finalizing})
            && (t.archived != s.archived ==>
                  ok && call.Copy? && s.archived == [] && multiset(t.archived) == multiset(call.rows))
  {
  }

  lemma {:induction false} LateStaysLate(hash: Hash, batch: Batch, s: State, calls: seq<Call>)
    requires Inv(hash, batch, s) && s.before
    ensures Run(hash, batch, s, calls).before && Run(hash, batch, s, calls).archived == s.archived
    decreases |calls|
  {
    hide FingerprintOf, Admissible, SortRows, Authorization;
    if calls != [] {
      StepKeepsInv(hash, batch, s, calls[0]);
      LateStaysLate(hash, batch, Step(hash, batch, s, calls[0]).0, calls[1..]);
    }
  }

  lemma {:induction false} RunSplits(hash: Hash, batch: Batch, s: State, a: seq<Call>, b: seq<Call>)
    ensures Run(hash, batch, s, a + b) == Run(hash, batch, Run(hash, batch, s, a), b)
    decreases |a|
  {
    hide FingerprintOf, Admissible, SortRows, Authorization;
    if a == [] {
      assert a + b == b;
    } else {
      assert (a + b)[1..] == a[1..] + b;
      RunSplits(hash, batch, Step(hash, batch, s, a[0]).0, a[1..], b);
    }
  }

  lemma {:induction false} AcceptedVerification(hash: Hash, batch: Batch, s: State, source: seq<Row>, before: bool)
    requires Step(hash, batch, s, Verify(source, before)).1
    ensures before && FingerprintOf(hash, source) == FingerprintOf(hash, s.archived)
    ensures Step(hash, batch, s, Verify(source, before)).0.before
    ensures Step(hash, batch, s, Verify(source, before)).0.archived == s.archived
  {
    hide FingerprintOf, Admissible;
  }

  /**
   Whatever happens before and after, a verification that succeeded fixes the archive:
   it holds exactly the rows that were verified, at that moment and ever after.
   */
  lemma {:induction false} VerifiedRowsAreTheArchive(hash: Hash, batch: Batch, earlier: seq<Call>, source: seq<Row>,
                                                     before: bool, later: seq<Call>)
    requires var s := Run(hash, batch, Initial(batch.plan), earlier);
             && Step(hash, batch, s, Verify(source, before)).1
             && Distinguishes(hash, HashedBy(hash, source) + HashedBy(hash, s.archived))
    ensures before
    ensures multiset(Run(hash, batch, Initial(batch.plan), earlier + [Verify(source, before)] + later).archived) ==
              multiset(source)
  {
    hide FingerprintOf, Inv, Step, HashedBy, Distinguishes, Initial;
    var s := Run(hash, batch, Initial(batch.plan), earlier);
    var call := Verify(source, before);
    InitialInv(hash, batch);
    RunKeepsInv(hash, batch, Initial(batch.plan), earlier);
    AcceptedVerification(hash, batch, s, source, before);
    FingerprintIdentifies(hash, source, s.archived);
    StepKeepsInv(hash, batch, s, call);
    LateStaysLate(hash, batch, Step(hash, batch, s, call).0, later);
    assert earlier + [call] + later == earlier + ([call] + later);
    RunSplits(hash, batch, Initial(batch.plan), earlier, [call] + later);
    assert ([call] + later)[1..] == later;
  }

  /** A verification of the archived rows themselves never fails the batch. */
  lemma {:induction false} FaithfulSourceVerifies(hash: Hash, batch: Batch, calls: seq<Call>, source: seq<Row>)
    requires var s := Run(hash, batch, Initial(batch.plan), calls);
             s.status == Copied && multiset(source) == multiset(s.archived)
    ensures Step(hash, batch, Run(hash, batch, Initial(batch.plan), calls), Verify(source, true)).1
  {
    hide FingerprintOf, Admissible, SortRows, Authorization;
    var s := Run(hash, batch, Initial(batch.plan), calls);
    InitialInv(hash, batch);
    RunKeepsInv(hash, batch, Initial(batch.plan), calls);
    FingerprintIgnoresOrder(hash, s.archived, source);
    assert |source| == |multiset(source)| == |multiset(s.archived)| == |s.archived|;
  }

  // ----- pause and resume -----

  /** Pausing and resuming is the identity exactly on batches that may be paused and are not paused already. */
  lemma {:induction false} PauseThenResume(s: State)
    ensures PauseStep(s).1 && ResumeStep(PauseStep(s).0) == (s, true) <==>
            s.status !in {Completed, Failed, Blocked} && s.resumeStatus.None?
  {
  }

  /** A paused batch that has lost the status to return to. */
  predicate Wedged(s: State) {
    s.status == Paused && s.resumeStatus in {None, Some(Paused)}
  }

  /** Pausing twice wedges a batch. */
  lemma {:induction false} SecondPauseWedges(s: State)
    requires s.status !in {Completed, Failed, Blocked}
    ensures Wedged(PauseStep(PauseStep(s).0).0)
  {
  }

  /** No sequence of calls ever moves a wedged batch on; any other paused batch resumes at once. */
  lemma {:induction false} WedgedForever(hash: Hash, batch: Batch, s: State, calls: seq<Call>)
    requires s.status == Paused
    ensures Wedged(s) ==> Wedged(Run(hash, batch, s, calls)) && Run(hash, batch, s, calls).archived == s.archived
    ensures !Wedged(s) ==> ResumeStep(s).1 && ResumeStep(s).0.status != Paused
    decreases |calls|
  {
    hide FingerprintOf, Admissible, SortRows, Authorization;
    if calls != [] && Wedged(s) {
      WedgedForever(hash, batch, Step(hash, batch, s, calls[0]).0, calls[1..]);
    }
  }

  // ----- finalization -----

  lemma {:induction false} AcceptedAcknowledgment(hash: Hash, batch: Batch, s: State, ack: FinalizeAuthorization,
                                                  affected: int, remaining: int, after: bool)
    requires Inv(hash, batch, s) && Step(hash, batch, s, Complete(ack, affected, remaining, after)).1
    ensures ack == Authorization(hash, batch, s) && affected == |s.archived| && remaining == 0 && after
    ensures s.sourceChecksum == Some(FingerprintOf(hash, s.archived))
  {
    hide FingerprintOf, Admissible, Authorization;
  }

  /** An acknowledgment is accepted only by a batch with the same keys and the same rows. */
  lemma {:induction false} AcknowledgmentNamesTheRows(hash: Hash, issued: Batch, at: State, batch: Batch, s: State,
                                   affected: int, remaining: int, after: bool)
    requires Inv(hash, issued, at) && Inv(hash, batch, s)
    requires Step(hash, batch, s, Complete(Authorization(hash, issued, at), affected, remaining, after)).1
    requires Distinguishes(hash, HashedBy(hash, at.archived) + HashedBy(hash, s.archived))
    ensures multiset(at.archived) == multiset(s.archived)
    ensures affected == |s.archived| && remaining == 0 && after
    ensures batch.plan.jobId == issued.plan.jobId && BatchId(hash, batch) == BatchId(hash, issued)
  {
    hide FingerprintOf, Admissible, SortRows, BatchId, KeysChecksum, StableKey, HashedBy, Distinguishes, Step;
    AcceptedAcknowledgment(hash, batch, s, Authorization(hash, issued, at), affected, remaining, after);
    assert at.sourceChecksum == s.sourceChecksum;
    FingerprintIdentifies(hash, at.archived, s.archived);
  }

  // ----- restore -----

  /** `restore` hands out the archived rows, whose checksum is rechecked, from the first successful copy on. */
  ghost function RestoreResult(hash: Hash, s: State): Option<seq<Row>> {
    if s.archiveChecksum == Some(FingerprintOf(hash, SortRows(s.archived))) then Some(SortRows(s.archived)) else None
  }

  lemma {:induction false} RestoreReturnsTheArchive(hash: Hash, batch: Batch, calls: seq<Call>)
    ensures var s := Run(hash, batch, Initial(batch.plan), calls);
            && (RestoreResult(hash, s).Some? <==> s.archiveChecksum.Some?)
            && (RestoreResult(hash, s).Some? ==> multiset(RestoreResult(hash, s).value) == multiset(s.archived))
            && (s.archived != [] ==> RestoreResult(hash, s).Some?)
  {
    var s := Run(hash, batch, Initial(batch.plan), calls);
    InitialInv(hash, batch);
    RunKeepsInv(hash, batch, Initial(batch.plan), calls);
    FingerprintIgnoresOrder(hash, s.archived, SortRows(s.archived));
  }

  // ----- the machine -----

  class ArchiveBatchMachine {
    const hash: Hash
    const batch: Batch
    var status: Status
    var resumeStatus: Option<Status>
    var archived: seq<Row>
    var sourceCount: nat
    var sourceBytes: nat
    var sourceChecksum: Option<Digest>
    var archiveChecksum: Option<Digest>
    var before: bool
    var after: bool

    function Snapshot(): State
      reads this
    {
      State(status, resumeStatus, archived, sourceCount, sourceBytes, sourceChecksum, archiveChecksum, before, after)
    }

    ghost predicate Valid()
      reads this
    {
      Inv(hash, batch, Snapshot())
    }

    constructor (hash: Hash, batch: Batch)
      ensures this.hash == hash && this.batch == batch && Snapshot() == Initial(batch.plan) && Valid()
    {
      this.hash, this.batch := hash, batch;
      status := if batch.plan.blocked then Blocked else Planned;
      resumeStatus, archived := None, [];
      sourceCount, sourceBytes, sourceChecksum, archiveChecksum := 0, 0, None, None;
      before, after := false, false;
      new;
      InitialInv(hash, batch);
    }

    /** Construction with the checks of `__post_init__`; null stands for the exception. */
    static method Open(hash: Hash, batch: Batch, authorization: Option<ExecutionAuthorization>)
      returns (machine: ArchiveBatchMachine?)
      ensures machine != null <==>
              && (batch.plan.dryRun || batch.plan.blocked || Authorized(hash, batch.plan, authorization))
              && batch.sequence >= 0 && batch.upper != []
      ensures machine != null ==> fresh(machine) && machine.batch == batch && machine.hash == hash
      ensures machine != null ==> machine.Valid() && machine.Snapshot() == Initial(batch.plan)
    {
      if !batch.plan.dryRun && !batch.plan.blocked && !Authorized(hash, batch.plan, authorization) {
        return null;
      }
      if batch.sequence < 0 || batch.upper == [] {
        return null;
      }
      machine := new ArchiveBatchMachine(hash, batch);
    }

    method Pause() returns (ok: bool)
      modifies this
      ensures (Snapshot(), ok) == PauseStep(old(Snapshot()))
    {
      if status in {Completed, Blocked, Failed} {
        return false;
      }
      resumeStatus := Some(status);
      status := Paused;
      return true;
    }

    method Resume() returns (ok: bool)
      modifies this
      ensures (Snapshot(), ok) == ResumeStep(old(Snapshot()))
    {
      if status != Paused || resumeStatus.None? {
        return false;
      }
      status := resumeStatus.value;
      resumeStatus := None;
      return true;
    }

    /** `copy` */
    method Copy(rows: seq<Row>, time: int) returns (ok: bool)
      requires Valid()
      modifies this
      ensures (Snapshot(), ok) == CopyStep(hash, batch, old(Snapshot()), rows, time)
    {
      hide FingerprintOf, SortRows, Less, Repeats, PayloadBytes, UniqueKeys;
      if status !in {Planned, Copying, Copied} || batch.plan.dryRun {
        return false;
      }
      if time < 0 || time > batch.plan.budget.time || |rows| > batch.plan.budget.rows {
        return false;
      }
      status := Copying;
      var ordered := SortRows(rows);
      var acceptable := CheckRows(ordered);
      FingerprintIgnoresOrder(hash, rows, ordered);
      SortingChangesNothing(batch, archived, rows, ordered);
      if !acceptable {
        return false;
      }
      StoreAll(ordered);
      sourceCount := |ordered|;
      sourceBytes := PayloadBytes(ordered);
      var source := Fingerprint(hash, ordered);
      var archive := Fingerprint(hash, archived);
      sourceChecksum := Some(source.value);
      archiveChecksum := Some(archive.value);
      // The last check of `copy`, that the counts agree, cannot fail.
      assert |archived| == sourceCount by {
        if old(archived) != [] {
          RepetitionIsExact(hash, old(archived), ordered);
          assert |ordered| == |multiset(ordered)| == |multiset(old(archived))|;
        }
      }
      status := Copied;
      return true;
    }

    /** The checks of `copy` on the sorted rows: window, bytes, identities, agreement with an earlier copy. */
    method CheckRows(ordered: seq<Row>) returns (ok: bool)
      requires KeyOrdered(ordered) && Admissible(archived)
      ensures ok <==>
              && InWindow(batch, ordered) && PayloadBytes(ordered) <= batch.plan.budget.bytes
              && Admissible(ordered) && Repeats(archived, ordered)
    {
      hide FingerprintOf, SortRows, Less, Repeats, PayloadBytes, UniqueKeys;
      if ordered != [] {
        WindowByEnds(batch, ordered);
        if !Less(batch.cursor, ordered[0].key) || Less(batch.upper, ordered[|ordered| - 1].key) {
          return false;
        }
      }
      if PayloadBytes(ordered) > batch.plan.budget.bytes {
        return false;
      }
      var checked := Fingerprint(hash, ordered);
      if checked.Err? {
        return false;
      }
      ok := RetryAgrees(ordered);
    }

    /** The two retry checks: the same keys, and no row with another payload. */
    method RetryAgrees(ordered: seq<Row>) returns (ok: bool)
      requires Admissible(archived)
      ensures ok <==> Repeats(archived, ordered)
    {
      hide Less, SortRows;
      if archived != [] && KeySet(archived) != KeySet(ordered) {
        return false;
      }
      for i := 0 to |ordered|
        invariant archived == [] || forall row | row in ordered[..i] :: row in archived
      {
        assert ordered[..i + 1] == ordered[..i] + [ordered[i]];
        GetIsMembership(archived, ordered[i]);
        var existing := Get(archived, ordered[i].key);
        if existing.Some? && existing.value.payload != ordered[i].payload {
          assert ordered[i] in ordered;
          return false;
        }
        assert ordered[i].key in KeySet(ordered);
      }
      assert ordered[..|ordered|] == ordered;
      return true;
    }

    /** The loop that files every row under its key. */
    method StoreAll(ordered: seq<Row>)
      requires Admissible(archived) && Admissible(ordered) && Repeats(archived, ordered)
      modifies this`archived
      ensures archived == if old(archived) == [] then ordered else old(archived)
    {
      UniqueKeysMeans(archived);
      for i := 0 to |ordered|
        invariant archived == if old(archived) == [] then ordered[..i] else old(archived)
      {
        assert ordered[..i + 1] == ordered[..i] + [ordered[i]];
        if old(archived) == [] {
          RepeatRefused(ordered, i);
          PutNew(archived, ordered[i]);
        } else {
          PutAgain(archived, ordered[i]);
        }
        archived := Put(archived, ordered[i]);
      }
      assert ordered[..|ordered|] == ordered;
    }

    method Verify(source: seq<Row>, reconciled: bool) returns (ok: bool)
      requires Valid()
      modifies this
      ensures (Snapshot(), ok) == VerifyStep(hash, old(Snapshot()), source, reconciled)
    {
      hide FingerprintOf;
      if status != Copied {
        return false;
      }
      var offered := Fingerprint(hash, source);
      if offered.Err? {
        return false;
      }
      var held := Fingerprint(hash, archived);
      if |source| != |archived| || offered.value != held.value || Some(offered.value) != sourceChecksum {
        status := Failed;
        return false;
      }
      if !reconciled {
        status := Failed;
        return false;
      }
      before := true;
      archiveChecksum := Some(held.value);
      status := Verified;
      return true;
    }

    /** `finalize`; None is the refusal. */
    method Finalize(manifest: Blob, approval: Blob) returns (result: Option<FinalizeAuthorization>)
      modifies this
      ensures (Snapshot(), result.Some?) == FinalizeStep(batch, old(Snapshot()), manifest, approval)
      ensures result.Some? ==> result.value == Authorization(hash, batch, old(Snapshot()))
    {
      hide Frames, Decimal, SortRows, Keys, DigestText;
      if !MayFinalize(batch, Snapshot(), manifest, approval) {
        return None;
      }
      status := Finalizing;
      var digest := new Sha();
      var keys := Keys(SortRows(archived));
      FeedAll(digest, keys);
      assert digest.fed == Frames(keys);
      var id, _ := StableIdentity(hash, [batch.plan.jobKey, Decimal(batch.sequence), batch.cursor, batch.upper]);
      var keysChecksum := hash(digest.fed);
      var _, token := StableIdentity(hash, [
        batch.plan.jobId, id, batch.plan.manifestChecksum, batch.plan.approval,
        Decimal(sourceCount), DigestText(sourceChecksum), keysChecksum]);
      return Some(FinalizeAuthorization(
        batch.plan.jobId, id, batch.plan.manifestChecksum, batch.plan.approval,
        sourceCount, sourceChecksum, keysChecksum, token));
    }

    method CompleteFinalize(ack: FinalizeAuthorization, affected: int, remaining: int, reconciled: bool)
      returns (ok: bool)
      modifies this
      ensures (Snapshot(), ok) == CompleteStep(hash, batch, old(Snapshot()), ack, affected, remaining, reconciled)
    {
      hide Authorization;
      var expected := Finalize(batch.plan.manifestChecksum, batch.plan.approval);
      if expected.None? || ack != expected.value {
        return false;
      }
      if affected != sourceCount || remaining != 0 || !reconciled {
        return false;
      }
      after := true;
      status := Completed;
      return true;
    }

    method Restore() returns (rows: Option<seq<Row>>)
      requires Valid()
      ensures rows == RestoreResult(hash, Snapshot())
    {
      hide FingerprintOf;
      var ordered := SortRows(archived);
      FingerprintIgnoresOrder(hash, archived, ordered);
      var found := Fingerprint(hash, ordered);
      return if Some(found.value) == archiveChecksum then Some(ordered) else None;
    }
  }
}
