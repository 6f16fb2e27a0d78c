/**
 The publish / replicate / rotate / receipt protocol of
 scripts/persistence_backup.py as a state machine. The durable state is what is in
 the backup root; the running job is lost by a crash at any point. A rename, the
 removal of a trash directory and the replacement of the receipt are atomic.
 */
module Publication {
  import opened Wrappers
  import opened Retention

  datatype Config = Config(policy: Policy, replicaConfigured: bool, resumePublished: bool, rpoSeconds: nat)

  datatype Replica = NotConfigured | ReadbackVerified | Pending

  datatype Outcome = Complete | ReplicationPending

  /** status.json */
  datatype Receipt = Receipt(generation: nat, completed: nat, replica: Replica, result: Outcome)

  /** Generations that would fail `verify` are in `damaged`. */
  datatype Disk = Disk(generations: set<Generation>, damaged: set<Generation>, staging: bool, trash: bool,
                       receipt: Option<Receipt>)

  datatype Job =
    | Idle
    | Admitted(admittedAt: nat, base: nat)
    | Capturing(stamp: nat, admittedAt: nat, base: nat)
    | Verifying(destination: Generation)
    | Completing(destination: Generation)
    | Replicating(destination: Generation)
    | Replicated(destination: Generation, replica: Replica)
    | Pruning(destination: Generation, replica: Replica, keep: set<Generation>, rotatedAt: nat)
    | EmptyingTrash(destination: Generation, replica: Replica, keep: set<Generation>, rotatedAt: nat)

  const SECOND: nat := 1_000_000_000

  /**
   `clock` is in nanoseconds; `time.time()` truncates it to seconds. `config` is what a
   process reads when it starts.
   */
  datatype State = State(disk: Disk, job: Job, clock: nat, config: Config) {
    function Now(): nat { clock / SECOND }
  }

  ghost predicate IsNewest(all: set<Generation>, g: Generation) {
    g in all && forall h | h in all :: h == g || Newer(g, h)
  }

  predicate WithinRpo(s: State, g: Generation) {
    0 <= s.Now() - g.created <= s.config.rpoSeconds
  }

  predicate Uninterrupted(d: Disk) {
    !d.staging && !d.trash
  }

  /** `previous_completion_matches`, with the newest and second newest generation named. */
  predicate PreviousCompletionMatches(c: Config, newest: Generation, second: Generation, r: Receipt) {
    && second.created <= r.completed <= newest.created + 300
    && r.result == Complete && r.generation == second.name
    && r.replica in {NotConfigured, ReadbackVerified}
    && (c.replicaConfigured ==> r.replica == ReadbackVerified)
  }

  ghost predicate SecondNewest(all: set<Generation>, newest: Generation, second: Generation) {
    IsNewest(all, newest) && IsNewest(all - {newest}, second)
  }

  // ----- the steps -----

  ghost predicate Init(s: State) {
    s.disk == Disk({}, {}, false, false, None) && s.job == Idle
  }

  /** Time passes. */
  ghost predicate Tick(s: State, s': State) {
    s' == s.(clock := s'.clock) && s.clock <= s'.clock
  }

  /** A generation rots on disk. */
  ghost predicate Rot(s: State, s': State, g: Generation) {
    s' == s.(disk := s.disk.(damaged := s.disk.damaged + {g}))
  }

  /**
   `backup` admits a capture: the receipt says "ok" for the newest generation, or there
   is no generation at all, and what retention keeps now fits.
   */
  ghost predicate Admits(s: State, s': State) {
    && s.job == Idle && s.disk.damaged == {} && Uninterrupted(s.disk)
    && (s.disk.generations != {} ==>
          && s.disk.receipt.Some? && s.disk.receipt.value.result == Complete
          && exists g :: IsNewest(s.disk.generations, g) && g.name == s.disk.receipt.value.generation)
    && TotalBytes(Retained(s.disk.generations, s.config.policy, s.Now())) <= s.config.policy.maxBytes
    && s' == s.(job := Admitted(s.Now(), TotalBytes(Retained(s.disk.generations, s.config.policy, s.Now()))))
  }

  /** The nanosecond clock names the new generation, later than every earlier name, and the stage is made. */
  ghost predicate Stages(s: State, s': State) {
    && s.job.Admitted?
    && (forall g | g in s.disk.generations :: g.name < s.clock)
    && s' == s.(disk := s.disk.(staging := true), job := Capturing(s.clock, s.job.admittedAt, s.job.base))
  }

  /** The capture ends within the admitted capacity and the stage is renamed into place. */
  ghost predicate Publishes(s: State, s': State, g: Generation) {
    && s.job.Capturing? && g.name == s.job.stamp
    && s.job.stamp / SECOND <= g.created <= s.Now()
    && s.job.base + g.bytes <= s.config.policy.maxBytes
    && s' == s.(disk := s.disk.(generations := s.disk.generations + {g}, staging := false), job := Verifying(g))
  }

  ghost predicate Verified(s: State, s': State) {
    && s.job.Verifying? && s.job.destination !in s.disk.damaged
    && s' == s.(job := Completing(s.job.destination))
  }

  /** `backup` picks up a published generation that has no receipt yet. */
  ghost predicate Resume(s: State, s': State, newest: Generation, second: Generation) {
    && s.job == Idle && s.disk.damaged == {} && Uninterrupted(s.disk) && s.config.resumePublished
    && s.disk.receipt.Some? && s.disk.receipt.value.generation != newest.name
    && SecondNewest(s.disk.generations, newest, second)
    && PreviousCompletionMatches(s.config, newest, second, s.disk.receipt.value)
    && WithinRpo(s, newest)
    && s' == s.(job := Completing(newest))
  }

  /** `backup` retries replication of the newest generation. */
  ghost predicate RetryReplication(s: State, s': State, newest: Generation) {
    && s.job == Idle && s.disk.damaged == {} && Uninterrupted(s.disk)
    && IsNewest(s.disk.generations, newest)
    && s.disk.receipt.Some? && s.disk.receipt.value.generation == newest.name
    && s.disk.receipt.value.result == ReplicationPending
    && WithinRpo(s, newest)
    && s' == s.(job := Completing(newest))
  }

  /** The `finalize` command completes the newest generation whatever the receipt says. */
  ghost predicate Finalize(s: State, s': State, newest: Generation) {
    && s.job == Idle && s.disk.damaged == {} && Uninterrupted(s.disk)
    && IsNewest(s.disk.generations, newest)
    && s' == s.(job := Completing(newest))
  }

  /** `complete_generation` begins. */
  ghost predicate StartsReplication(s: State, s': State) {
    && s.job.Completing? && WithinRpo(s, s.job.destination)
    && s' == s.(job := Replicating(s.job.destination))
  }

  ghost predicate Replicates(s: State, s': State) {
    && s.job.Replicating? && WithinRpo(s, s.job.destination)
    && s' == s.(job := Replicated(s.job.destination,
                                   if s.config.replicaConfigured then ReadbackVerified else NotConfigured))
  }

  /** Replication fails, however late: a pending receipt is written and the job ends. */
  ghost predicate ReplicationFails(s: State, s': State) {
    && s.job.Replicating? && s.config.replicaConfigured
    && s' == s.(disk := s.disk.(receipt := Some(Receipt(s.job.destination.name, s.Now(), Pending, ReplicationPending))),
                job := Idle)
  }

  /** `rotate` begins: every generation verifies, the destination is newest, what is kept fits. */
  ghost predicate Rotates(s: State, s': State) {
    && s.job.Replicated? && s.disk.damaged == {} && WithinRpo(s, s.job.destination)
    && IsNewest(s.disk.generations, s.job.destination)
    && TotalBytes(Retained(s.disk.generations, s.config.policy, s.Now())) <= s.config.policy.maxBytes
    && s' == s.(job := Pruning(s.job.destination, s.job.replica, Retained(s.disk.generations, s.config.policy, s.Now()),
                               s.Now()))
  }

  /** One generation outside the kept set is renamed to trash, after both it and the newest verify. */
  ghost predicate Prunes(s: State, s': State, g: Generation) {
    && s.job.Pruning? && g in s.disk.generations && g !in s.job.keep && !s.disk.trash
    && g !in s.disk.damaged && s.job.destination !in s.disk.damaged
    && s' == s.(disk := s.disk.(generations := s.disk.generations - {g}, trash := true),
                job := EmptyingTrash(s.job.destination, s.job.replica, s.job.keep, s.job.rotatedAt))
  }

  ghost predicate EmptiesTrash(s: State, s': State) {
    && s.job.EmptyingTrash?
    && s' == s.(disk := s.disk.(trash := false),
                job := Pruning(s.job.destination, s.job.replica, s.job.keep, s.job.rotatedAt))
  }

  /** Nothing is left to prune: the "ok" receipt is written and the job ends. */
  ghost predicate WritesReceipt(s: State, s': State) {
    && s.job.Pruning? && s.disk.generations <= s.job.keep && WithinRpo(s, s.job.destination)
    && s' == s.(disk := s.disk.(receipt := Some(Receipt(s.job.destination.name, s.Now(), s.job.replica, Complete))),
                job := Idle)
  }

  /** The process dies; the disk stays as it is. */
  ghost predicate Crash(s: State, s': State) {
    s' == s.(job := Idle)
  }

  /** A refusal inside the job: like a crash, except that an unpublished stage is removed. */
  ghost predicate Abort(s: State, s': State) {
    s' == s.(job := Idle, disk := if s.job.Capturing? then s.disk.(staging := false) else s.disk)
  }

  /** An operator inspects and removes what an interrupted job left behind. */
  ghost predicate Inspect(s: State, s': State) {
    && s.job == Idle
    && s' == s.(disk := s.disk.(staging := false, trash := false))
  }

  /** The configuration file is edited; a process that is running has already read it. */
  ghost predicate Reconfigures(s: State, s': State) {
    s.job == Idle && s' == s.(config := s'.config)
  }

  ghost predicate Next(s: State, s': State) {
    || Tick(s, s') || Admits(s, s') || Stages(s, s') || Verified(s, s') || StartsReplication(s, s') || Replicates(s, s')
    || ReplicationFails(s, s')
    || Rotates(s, s') || EmptiesTrash(s, s') || WritesReceipt(s, s') || Crash(s, s') || Abort(s, s') || Inspect(s, s')
    || Reconfigures(s, s') || exists g, h :: NextWith(s, s', g, h)
  }

  ghost predicate NextWith(s: State, s': State, g: Generation, h: Generation) {
    || Rot(s, s', g) || Publishes(s, s', g) || Resume(s, s', g, h) || RetryReplication(s, s', g)
    || Finalize(s, s', g) || Prunes(s, s', g)
  }

  /** Any run: backups, resumes and finalizations in any order, with crashes anywhere. */
  ghost predicate Run(states: seq<State>) {
    && states != [] && Init(states[0])
    && forall i | 0 <= i < |states| - 1 :: Next(states[i], states[i + 1])
  }

  // ----- what every state keeps -----

  /** The clock is never behind what the disk remembers. */
  ghost predicate ClockInv(s: State) {
    && (forall g | g in s.disk.generations :: g.name <= s.clock && g.name / SECOND <= g.created <= s.Now())
    && (s.disk.receipt.Some? ==> s.disk.receipt.value.completed <= s.Now())
    && (s.job.Admitted? ==> s.job.admittedAt <= s.Now())
    && (s.job.Capturing? ==> s.job.stamp <= s.clock && s.job.admittedAt <= s.job.stamp / SECOND)
  }

  /** The receipted generation is there, and at most one generation is newer. */
  ghost predicate ReceiptedAt(all: set<Generation>, r: Receipt, g: Generation) {
    && g in all && g.name == r.generation && AmongNewestTwo(all, g)
    && g.created <= r.completed
    && forall h | h in all && Newer(h, g) :: r.result == Complete && r.completed <= h.created
  }

  ghost predicate ReceiptInv(d: Disk) {
    match d.receipt
    case None => forall g, h | g in d.generations && h in d.generations :: g == h
    case Some(r) =>
      && (exists g :: ReceiptedAt(d.generations, r, g))
      && (r.result == Complete ==> r.replica in {NotConfigured, ReadbackVerified})
  }

  /** Between admission and publication nothing but the stage has changed. */
  ghost predicate CaptureInv(s: State) {
    && (s.job.Admitted? || s.job.Capturing? ==>
          && (forall g | g in s.disk.generations :: g.created <= s.job.admittedAt)
          && s.job.base == TotalBytes(Retained(s.disk.generations, s.config.policy, s.job.admittedAt))
          && match s.disk.receipt
             case None => s.disk.generations == {}
             case Some(r) => r.result == Complete && r.completed <= s.job.admittedAt
                             && exists g :: IsNewest(s.disk.generations, g) && g.name == r.generation)
    && (s.job.Capturing? ==> forall g | g in s.disk.generations :: g.name < s.job.stamp)
  }

  ghost predicate InFlight(s: State) {
    !s.job.Idle? && !s.job.Admitted? && !s.job.Capturing?
  }

  ghost predicate PruneInv(s: State) {
    && (InFlight(s) ==> IsNewest(s.disk.generations, s.job.destination))
    && (s.job.Replicated? || s.job.Pruning? || s.job.EmptyingTrash? ==>
          s.job.replica == if s.config.replicaConfigured then ReadbackVerified else NotConfigured)
    && (s.job.Pruning? || s.job.EmptyingTrash? ==>
          && s.job.rotatedAt <= s.Now() && s.job.keep <= s.disk.generations
          && s.job.keep == Retained(s.disk.generations, s.config.policy, s.job.rotatedAt)
          && Listable(s.disk.generations, s.job.rotatedAt))
  }

  ghost predicate Inv(s: State) {
    && DistinctNames(s.disk.generations)
    && ClockInv(s) && ReceiptInv(s.disk) && CaptureInv(s) && PruneInv(s)
  }

  // ----- the invariant holds in every state of every run -----

  lemma {:induction false} InvInit(s: State)
    requires Init(s)
    ensures Inv(s)
  {
  }

  lemma {:induction false} NowMonotone(s: State, s': State)
    requires s.clock <= s'.clock
    ensures s.Now() <= s'.Now()
  {
    DivMonotone(s.clock, s'.clock, SECOND);
  }

  lemma {:induction false} InvTick(s: State, s': State)
    requires Inv(s) && Tick(s, s')
    ensures Inv(s')
  {
    NowMonotone(s, s');
  }

  lemma {:induction false} InvAdmits(s: State, s': State)
    requires Inv(s) && Admits(s, s')
    ensures Inv(s')
  {
  }

  lemma {:induction false} InvStages(s: State, s': State)
    requires Inv(s) && Stages(s, s')
    ensures Inv(s')
  {
    DivMonotone(s.job.admittedAt * SECOND, s.clock, SECOND);
  }

  lemma {:induction false} PublishedIsNewest(s: State, s': State, g: Generation)
    requires Inv(s) && Publishes(s, s', g)
    ensures IsNewest(s'.disk.generations, g) && DistinctNames(s'.disk.generations)
    ensures forall h | h in s.disk.generations :: Newer(g, h) && h.created <= g.created
  {
  }

  /** Publishing makes the new generation the newest and the receipted one second. */
  lemma {:induction false} PublishKeepsReceipt(s: State, s': State, g: Generation)
    requires Inv(s) && Publishes(s, s', g)
    ensures ReceiptInv(s'.disk)
  {
    var all, more := s.disk.generations, s'.disk.generations;
    PublishedIsNewest(s, s', g);
    if s.disk.receipt.Some? {
      var r := s.disk.receipt.value;
      var receipted :| ReceiptedAt(all, r, receipted);
      var newest :| IsNewest(all, newest) && newest.name == r.generation;
      assert newest == receipted;
      forall h | h in more && Newer(h, receipted)
        ensures h == g
      {
        assert h in all ==> h == receipted || Newer(receipted, h);
      }
      assert ReceiptedAt(more, r, receipted);
    }
  }

  lemma {:induction false} InvPublishes(s: State, s': State, g: Generation)
    requires Inv(s) && Publishes(s, s', g)
    ensures Inv(s')
  {
    PublishedIsNewest(s, s', g);
    PublishKeepsReceipt(s, s', g);
  }

  lemma {:induction false} InvCompletes(s: State, s': State, g: Generation, h: Generation)
    requires Inv(s)
    requires || Verified(s, s') || Resume(s, s', g, h) || RetryReplication(s, s', g) || Finalize(s, s', g)
             || StartsReplication(s, s') || Replicates(s, s') || Rot(s, s', g)
    ensures Inv(s')
  {
  }

  lemma {:induction false} ReceiptForNewest(s: State, g: Generation, r: Receipt)
    requires IsNewest(s.disk.generations, g) && r.generation == g.name && g.created <= r.completed
    ensures ReceiptedAt(s.disk.generations, r, g)
  {
  }

  lemma {:induction false} InvWritesReceipt(s: State, s': State)
    requires Inv(s) && (WritesReceipt(s, s') || ReplicationFails(s, s'))
    ensures Inv(s')
  {
    ReceiptForNewest(s, s.job.destination, s'.disk.receipt.value);
  }

  lemma {:induction false} InvRotates(s: State, s': State)
    requires Inv(s) && Rotates(s, s')
    ensures Inv(s')
  {
    assert Listable(s.disk.generations, s.Now());
  }

  /** The newest two are always kept, so pruning spares the destination and the receipted generation. */
  lemma {:induction false} InvPrunes(s: State, s': State, g: Generation)
    requires Inv(s) && Prunes(s, s', g)
    ensures Inv(s')
  {
    var all, fewer := s.disk.generations, s'.disk.generations;
    var keep := s.job.keep;
    assert AmongNewestTwo(all, s.job.destination);
    assert s.job.destination in keep;
    RetainedFromSurvivors(all, fewer, s.config.policy, s.job.rotatedAt);
    match s.disk.receipt {
      case None =>
      case Some(r) =>
        var receipted :| ReceiptedAt(all, r, receipted);
        assert receipted in keep;
        assert ReceiptedAt(fewer, r, receipted);
    }
  }

  lemma {:induction false} InvEnds(s: State, s': State)
    requires Inv(s)
    requires EmptiesTrash(s, s') || Crash(s, s') || Abort(s, s') || Inspect(s, s') || Reconfigures(s, s')
    ensures Inv(s')
  {
  }

  lemma {:induction false} InvNext(s: State, s': State)
    requires Inv(s) && Next(s, s')
    ensures Inv(s')
  {
    if Tick(s, s') {
      InvTick(s, s');
    } else if Admits(s, s') {
      InvAdmits(s, s');
    } else if Stages(s, s') {
      InvStages(s, s');
    } else if Verified(s, s') || StartsReplication(s, s') || Replicates(s, s') {
      InvCompletes(s, s', Generation(0, 0, 0), Generation(0, 0, 0));
    } else if ReplicationFails(s, s') || WritesReceipt(s, s') {
      InvWritesReceipt(s, s');
    } else if Rotates(s, s') {
      InvRotates(s, s');
    } else if EmptiesTrash(s, s') || Crash(s, s') || Abort(s, s') || Inspect(s, s') || Reconfigures(s, s') {
      InvEnds(s, s');
    } else {
      var g, h :| NextWith(s, s', g, h);
      InvNextWith(s, s', g, h);
    }
  }

  lemma {:induction false} InvNextWith(s: State, s': State, g: Generation, h: Generation)
    requires Inv(s) && NextWith(s, s', g, h)
    ensures Inv(s')
  {
    if Publishes(s, s', g) {
      InvPublishes(s, s', g);
    } else if Prunes(s, s', g) {
      InvPrunes(s, s', g);
    } else {
      InvCompletes(s, s', g, h);
    }
  }

  lemma {:induction false} InvRun(states: seq<State>, i: nat)
    requires Run(states) && i < |states|
    ensures Inv(states[i])
  {
    if i == 0 {
      InvInit(states[0]);
    } else {
      InvRun(states, i - 1);
      assert Next(states[i - 1], states[i - 1 + 1]);
      InvNext(states[i - 1], states[i]);
    }
  }

  // ----- what that means -----

  /**
   Crash safety: in every state of every run the receipted generation is on disk and
   at most one generation is newer; before the first receipt there is at most one.
   */
  lemma {:induction false} ReceiptedGenerationSurvives(states: seq<State>, i: nat)
    requires Run(states) && i < |states|
    ensures match states[i].disk.receipt
            case None => forall g, h | g in states[i].disk.generations && h in states[i].disk.generations :: g == h
            case Some(r) =>
              exists g :: g in states[i].disk.generations && g.name == r.generation
                          && forall a, b | a in states[i].disk.generations && b in states[i].disk.generations
                                           && Newer(a, g) && Newer(b, g) :: a == b
  {
    InvRun(states, i);
    if states[i].disk.receipt.Some? {
      var g :| ReceiptedAt(states[i].disk.generations, states[i].disk.receipt.value, g);
    }
  }

  /**
   A published generation without a receipt can be resumed as far as the receipt goes:
   in every reachable state whose newest generation is not the receipted one
   `previous_completion_matches` holds, except where replication has been configured
   since the receipted generation was completed without it.
   */
  lemma {:induction false} ResumeIsRecognisedIff(states: seq<State>, i: nat, newest: Generation)
    requires Run(states) && i < |states|
    requires states[i].disk.receipt.Some? && IsNewest(states[i].disk.generations, newest)
    requires states[i].disk.receipt.value.generation != newest.name
    ensures exists second ::
              && SecondNewest(states[i].disk.generations, newest, second)
              && (PreviousCompletionMatches(states[i].config, newest, second, states[i].disk.receipt.value) <==>
                  !(states[i].config.replicaConfigured && states[i].disk.receipt.value.replica == NotConfigured))
  {
    InvRun(states, i);
    var all := states[i].disk.generations;
    var g :| ReceiptedAt(all, states[i].disk.receipt.value, g);
    assert Newer(newest, g);
    forall h | h in all - {newest}
      ensures h == g || Newer(g, h)
    {
      assert h.name != g.name || h == g;
    }
    assert SecondNewest(all, newest, g);
  }

  // ----- a run that ends with a generation nobody resumes -----

  /** What `policy_load` asks of the fields modelled here. */
  predicate Loadable(c: Config) {
    && 2 <= c.policy.hourly <= 8760 && c.policy.daily <= 3650 && c.policy.weekly <= 520
    && 0 < c.policy.maxBytes < 0x8000_0000_0000_0000 && 60 <= c.rpoSeconds <= 604800
  }

  /** Nothing on disk is empty: a generation holds its manifest at least. */
  predicate Real(s: State) {
    Loadable(s.config) && forall g | g in s.disk.generations :: g.bytes > 0
  }

  /** A run under configurations that load. */
  ghost predicate RealRun(states: seq<State>) {
    Run(states) && forall s | s in states :: Real(s)
  }

  lemma {:induction false} OneMore(states: seq<State>, s: State)
    requires RealRun(states) && Next(states[|states| - 1], s) && Real(s)
    ensures RealRun(states + [s])
  {
    hide Next, Real;
    var longer := states + [s];
    forall i | 0 <= i < |longer| - 1
      ensures Next(longer[i], longer[i + 1])
    {
      assert i < |states| - 1 ==> Next(states[i], states[i + 1]);
    }
  }

  lemma {:induction false} PublishingIsAStep(s: State, s': State, g: Generation)
    requires Publishes(s, s', g)
    ensures Next(s, s')
  {
    assert NextWith(s, s', g, g);
  }

  lemma {:induction false} StagingIsAStep(s: State, s': State)
    requires Stages(s, s')
    ensures Next(s, s')
  {
  }

  /** A capture of `g` can begin, and fits even if nothing is pruned. */
  ghost predicate MayCapture(s: State, g: Generation) {
    && s.job == Idle && s.disk.damaged == {} && Uninterrupted(s.disk)
    && g.name == s.clock && g.created == s.Now() && g.bytes > 0
    && TotalBytes(s.disk.generations) + g.bytes <= s.config.policy.maxBytes
    && (forall h | h in s.disk.generations :: h.name < s.clock)
    && match s.disk.receipt
       case None => s.disk.generations == {}
       case Some(r) => r.result == Complete && exists h :: IsNewest(s.disk.generations, h) && h.name == r.generation
  }

  function Adding(s: State, g: Generation): State {
    s.(disk := s.disk.(generations := s.disk.generations + {g}), job := Verifying(g))
  }

  lemma {:induction false} AdmissionIsAStep(s: State, g: Generation) returns (base: nat)
    requires MayCapture(s, g)
    ensures Next(s, s.(job := Admitted(s.Now(), base))) && base + g.bytes <= s.config.policy.maxBytes
  {
    base := TotalBytes(Retained(s.disk.generations, s.config.policy, s.Now()));
    TotalMonotone(Retained(s.disk.generations, s.config.policy, s.Now()), s.disk.generations);
    hide TotalBytes, Retained, IsNewest, NextWith;
    assert Admits(s, s.(job := Admitted(s.Now(), base)));
  }

  /** Admission, staging and publication of `g`. */
  lemma {:induction false} Captures(states: seq<State>, g: Generation) returns (longer: seq<State>)
    requires RealRun(states) && MayCapture(states[|states| - 1], g)
    ensures RealRun(longer) && longer[|longer| - 1] == Adding(states[|states| - 1], g)
  {
    hide Next, NextWith, IsNewest, TotalBytes;
    var s := states[|states| - 1];
    var base := AdmissionIsAStep(s, g);
    var admitted := s.(job := Admitted(s.Now(), base));
    var staged := s.(disk := s.disk.(staging := true), job := Capturing(s.clock, s.Now(), base));
    StagingIsAStep(admitted, staged);
    PublishingIsAStep(staged, Adding(s, g), g);
    assert Real(s) && Real(admitted) && Real(staged) && Real(Adding(s, g));
    hide RealRun, MayCapture, Real;
    OneMore(states, admitted);
    OneMore(states + [admitted], staged);
    OneMore(states + [admitted] + [staged], Adding(s, g));
    longer := states + [admitted] + [staged] + [Adding(s, g)];
  }

  function Receipted(s: State, g: Generation): State {
    s.(disk := s.disk.(receipt := Some(Receipt(g.name, s.Now(), NotConfigured, Complete))), job := Idle)
  }

  lemma {:induction false} RotationIsAStep(s: State, g: Generation)
    requires s.job == Replicated(g, NotConfigured) && s.disk.generations == {g} && s.disk.damaged == {}
    requires WithinRpo(s, g) && TotalBytes({g}) <= s.config.policy.maxBytes
    ensures var pruning := s.(job := Pruning(g, NotConfigured, {g}, s.Now()));
            Next(s, pruning) && Next(pruning, Receipted(s, g))
  {
    assert AmongNewestTwo({g}, g) && Retained({g}, s.config.policy, s.Now()) == {g};
    hide TotalBytes, Retained;
    var pruning := s.(job := Pruning(g, NotConfigured, {g}, s.Now()));
    assert Rotates(s, pruning) && WritesReceipt(pruning, Receipted(s, g));
  }

  lemma {:induction false} ReplicationIsAStep(s: State, g: Generation)
    requires s.job == Verifying(g) && g !in s.disk.damaged && WithinRpo(s, g) && !s.config.replicaConfigured
    ensures Next(s, s.(job := Completing(g))) && Next(s.(job := Completing(g)), s.(job := Replicating(g)))
    ensures Next(s.(job := Replicating(g)), s.(job := Replicated(g, NotConfigured)))
  {
    assert Verified(s, s.(job := Completing(g)));
    assert StartsReplication(s.(job := Completing(g)), s.(job := Replicating(g)));
    assert Replicates(s.(job := Replicating(g)), s.(job := Replicated(g, NotConfigured)));
  }

  /** Completion of the only generation, without a replica. */
  lemma {:induction false} Completes(states: seq<State>, g: Generation) returns (longer: seq<State>)
    requires RealRun(states)
    requires var s := states[|states| - 1];
             && s.job == Verifying(g) && s.disk == Disk({g}, {}, false, false, None) && WithinRpo(s, g)
             && !s.config.replicaConfigured && TotalBytes({g}) <= s.config.policy.maxBytes
    ensures RealRun(longer) && longer[|longer| - 1] == Receipted(states[|states| - 1], g)
  {
    hide Next, TotalBytes;
    var s := states[|states| - 1];
    ReplicationIsAStep(s, g);
    RotationIsAStep(s.(job := Replicated(g, NotConfigured)), g);
    var completing, replicating := s.(job := Completing(g)), s.(job := Replicating(g));
    var replicated, pruning := s.(job := Replicated(g, NotConfigured)),
        s.(job := Pruning(g, NotConfigured, {g}, s.Now()));
    assert Real(s) && Real(completing) && Real(replicating) && Real(replicated) && Real(pruning)
           && Real(Receipted(s, g));
    hide RealRun, Real;
    OneMore(states, completing);
    OneMore(states + [completing], replicating);
    OneMore(states + [completing] + [replicating], replicated);
    OneMore(states + [completing] + [replicating] + [replicated], pruning);
    OneMore(states + [completing] + [replicating] + [replicated] + [pruning], Receipted(s, g));
    longer := states + [completing] + [replicating] + [replicated] + [pruning] + [Receipted(s, g)];
  }

  lemma {:induction false} OnlyOne(g: Generation)
    ensures {} + {g} == {g} && TotalBytes({g}) == g.bytes && IsNewest({g}, g)
  {
    TotalWithout({g}, g);
    assert {g} - {g} == {};
  }

  /**
   The exception is reachable under configurations that load: one generation completed
   without replication, a second one published, a crash, and replication configured
   before the next attempt.
   */
  lemma {:induction false} StrandedGeneration() returns (states: seq<State>, newest: Generation)
    ensures RealRun(states)
    ensures var s := states[|states| - 1];
            && s.job == Idle && s.disk.damaged == {} && Uninterrupted(s.disk) && s.config.resumePublished
            && s.disk.receipt.Some? && IsNewest(s.disk.generations, newest) && WithinRpo(s, newest)
            && s.disk.receipt.value.generation != newest.name
            && forall second | SecondNewest(s.disk.generations, newest, second) ::
                 !PreviousCompletionMatches(s.config, newest, second, s.disk.receipt.value)
  {
    var before := Config(Policy(2, 0, 0, 1000), false, true, 3600);
    var first := Generation(SECOND, 1, 10);
    newest := Generation(2 * SECOND, 2, 10);
    OnlyOne(first);
    states := [State(Disk({}, {}, false, false, None), Idle, SECOND, before)];
    states := Captures(states, first);
    states := Completes(states, first);
    hide TotalBytes;
    var s := states[|states| - 1];
    var later := s.(clock := 2 * SECOND);
    assert Tick(s, later);
    OneMore(states, later);
    states := states + [later];
    states := Captures(states, newest);
    s := states[|states| - 1];
    var crashed := s.(job := Idle);
    assert Crash(s, crashed);
    OneMore(states, crashed);
    var edited := crashed.(config := before.(replicaConfigured := true));
    assert Reconfigures(crashed, edited);
    OneMore(states + [crashed], edited);
    states := states + [crashed] + [edited];
    assert IsNewest({first} + {newest}, newest);
  }

  // ----- capacity -----

  /** From now on, whatever a rotation keeps fits. */
  ghost predicate Fits(s: State) {
    forall t: nat | t >= s.Now() ::
        TotalBytes(Retained(s.disk.generations, s.config.policy, t)) <= s.config.policy.maxBytes
  }

  /** What is kept later is among what is kept now. */
  lemma {:induction false} FitsNowFitsLater(s: State, now: nat)
    requires Listable(s.disk.generations, now) && now <= s.Now()
    requires TotalBytes(Retained(s.disk.generations, s.config.policy, now)) <= s.config.policy.maxBytes
    ensures Fits(s)
  {
    var all, p := s.disk.generations, s.config.policy;
    forall t: nat | t >= s.Now()
      ensures TotalBytes(Retained(all, p, t)) <= p.maxBytes
    {
      forall g | g in Retained(all, p, t)
        ensures g in Retained(all, p, now)
      {
        KeptLaterWasKept(all, all, p, now, t, g);
      }
      TotalMonotone(Retained(all, p, t), Retained(all, p, now));
    }
  }

  lemma {:induction false} PublishFits(s: State, s': State, g: Generation)
    requires Inv(s) && Publishes(s, s', g)
    ensures Fits(s')
  {
    var all, more := s.disk.generations, s'.disk.generations;
    assert Listable(all, s.job.admittedAt);
    forall t: nat | t >= s.Now()
      ensures TotalBytes(Retained(more, s.config.policy, t)) <= s.config.policy.maxBytes
    {
      AdmittedCaptureFits(all, g, s.config.policy, s.job.admittedAt, t);
    }
  }

  lemma {:induction false} PruningKeepsFitting(s: State, s': State, g: Generation)
    requires Inv(s) && Fits(s) && Prunes(s, s', g)
    ensures Fits(s')
  {
    var all, fewer, p := s.disk.generations, s'.disk.generations, s.config.policy;
    forall t: nat | t >= s.Now()
      ensures TotalBytes(Retained(fewer, p, t)) <= p.maxBytes
    {
      NotKeptLater(s, s', g, t);
      RetainedFromSurvivors(all, fewer, p, t);
    }
  }

  /** What a rotation prunes no later evaluation would keep. */
  lemma {:induction false} NotKeptLater(s: State, s': State, g: Generation, t: nat)
    requires Inv(s) && Prunes(s, s', g) && t >= s.Now()
    ensures g !in Retained(s.disk.generations, s.config.policy, t)
  {
    if g in Retained(s.disk.generations, s.config.policy, t) {
      KeptLaterWasKept(s.disk.generations, s.disk.generations, s.config.policy, s.job.rotatedAt, t, g);
    }
  }

  /** The steps that check the capacity themselves. */
  ghost predicate Weighs(s: State, s': State) {
    Admits(s, s') || Rotates(s, s') || exists g :: Publishes(s, s', g)
  }

  lemma {:induction false} WeighingFits(s: State, s': State)
    requires Inv(s) && Weighs(s, s')
    ensures Fits(s')
  {
    if g :| Publishes(s, s', g) {
      PublishFits(s, s', g);
    } else {
      assert Listable(s.disk.generations, s.Now());
      FitsNowFitsLater(s', s.Now());
    }
  }

  lemma {:induction false} FitsNext(s: State, s': State)
    requires Inv(s) && Fits(s) && Next(s, s') && s'.config == s.config
    ensures Fits(s')
  {
    if Weighs(s, s') {
      WeighingFits(s, s');
    } else if g :| Prunes(s, s', g) {
      PruningKeepsFitting(s, s', g);
    } else {
      assert s'.disk.generations == s.disk.generations && s.clock <= s'.clock;
      NowMonotone(s, s');
    }
  }

  /**
   The `retention_exceeds_capacity` refusal of `rotate` needs an edited configuration: it
   cannot happen as long as the configuration is the one under which the capacity was
   last weighed, or the one the root was started with.
   */
  lemma {:induction false} RotationAlwaysFits(states: seq<State>, from: nat, i: nat)
    requires Run(states) && from <= i < |states|
    requires from == 0 || Weighs(states[from - 1], states[from])
    requires forall k | from < k <= i :: states[k].config == states[k - 1].config
    ensures Fits(states[i])
    decreases i
  {
    hide Next, Weighs, Fits, Inv;
    if i > from {
      RotationAlwaysFits(states, from, i - 1);
      InvRun(states, i - 1);
      assert Next(states[i - 1], states[i - 1 + 1]);
      FitsNext(states[i - 1], states[i]);
    } else if i > 0 {
      InvRun(states, i - 1);
      WeighingFits(states[i - 1], states[i]);
    } else {
      EmptyFits(states[0]);
    }
  }

  lemma {:induction false} EmptyFits(s: State)
    requires s.disk.generations == {}
    ensures Fits(s)
  {
    forall t: nat
      ensures Retained({}, s.config.policy, t) == {}
    {
    }
  }

  lemma {:induction false} OnlyIdleReconfigures(s: State, s': State)
    requires Next(s, s') && s.job != Idle
    ensures s'.config == s.config
  {
  }

  /** A job that captured a generation itself can always rotate, whatever was edited before it started. */
  lemma {:induction false} OwnCaptureFits(states: seq<State>, published: nat, i: nat, g: Generation)
    requires Run(states) && published < i < |states| && Publishes(states[published], states[published + 1], g)
    requires forall k | published < k <= i :: InFlight(states[k])
    ensures Fits(states[i])
  {
    assert Weighs(states[published], states[published + 1]);
    forall k | published + 1 < k <= i
      ensures states[k].config == states[k - 1].config
    {
      assert Next(states[k - 1], states[k - 1 + 1]);
      OnlyIdleReconfigures(states[k - 1], states[k]);
    }
    RotationAlwaysFits(states, published + 1, i);
  }

  /** Neither can `new_generation_not_newest`: whatever is being completed is the newest. */
  lemma {:induction false} CompletedIsNewest(states: seq<State>, i: nat)
    requires Run(states) && i < |states| && InFlight(states[i])
    ensures IsNewest(states[i].disk.generations, states[i].job.destination)
  {
    InvRun(states, i);
  }

  /**
   An "ok" receipt describes a finished rotation: at the step that writes it the
   destination is the newest generation, the root holds exactly what the policy keeps,
   replication was read back if it is configured, and the generation is within the RPO.
   */
  lemma {:induction false} OkReceiptMeansRotated(states: seq<State>, i: nat)
    requires Run(states) && i + 1 < |states|
    requires states[i + 1].disk.receipt != states[i].disk.receipt && states[i + 1].disk.receipt.Some?
    requires states[i + 1].disk.receipt.value.result == Complete
    ensures var s, s' := states[i], states[i + 1];
            var r := s'.disk.receipt.value;
            && (exists g :: IsNewest(s'.disk.generations, g) && g.name == r.generation && WithinRpo(s, g))
            && (exists t: nat ::
                  t <= s.Now() && s'.disk.generations == Retained(s'.disk.generations, s.config.policy, t))
            && r.replica == (if s.config.replicaConfigured then ReadbackVerified else NotConfigured)
            && |s'.disk.generations| <= 2 + s.config.policy.hourly + s.config.policy.daily + s.config.policy.weekly
  {
    var s, s' := states[i], states[i + 1];
    InvRun(states, i);
    assert Next(states[i], states[i + 1]);
    if !WritesReceipt(s, s') {
      if g, h :| NextWith(s, s', g, h) {
        assert false;
      }
    }
    assert IsNewest(s'.disk.generations, s.job.destination);
    assert s'.disk.generations == Retained(s'.disk.generations, s.config.policy, s.job.rotatedAt);
    RetainedIsBounded(s'.disk.generations, s.config.policy, s.job.rotatedAt);
  }

  /** A generation leaves the root only by a rotation that does not need it, never the newest or the receipted one. */
  lemma {:induction false} OnlyUnneededIsPruned(states: seq<State>, i: nat, g: Generation)
    requires Run(states) && i + 1 < |states|
    requires g in states[i].disk.generations && g !in states[i + 1].disk.generations
    ensures !IsNewest(states[i].disk.generations, g)
    ensures states[i].disk.receipt.Some? ==> g.name != states[i].disk.receipt.value.generation
    ensures forall t: nat | t >= states[i].Now() ::
              g !in Retained(states[i].disk.generations, states[i].config.policy, t)
  {
    var s, s' := states[i], states[i + 1];
    InvRun(states, i);
    assert Next(states[i], states[i + 1]);
    OnlyPruningRemoves(s, s', g);
    PrunedIsDispensable(s, s', g);
    forall t: nat | t >= s.Now()
      ensures g !in Retained(s.disk.generations, s.config.policy, t)
    {
      NotKeptLater(s, s', g, t);
    }
  }

  lemma {:induction false} OnlyPruningRemoves(s: State, s': State, g: Generation)
    requires Next(s, s') && g in s.disk.generations && g !in s'.disk.generations
    ensures Prunes(s, s', g)
  {
    var x, y :| NextWith(s, s', x, y);
    assert Prunes(s, s', x);
  }

  lemma {:induction false} PrunedIsDispensable(s: State, s': State, g: Generation)
    requires Inv(s) && Prunes(s, s', g)
    ensures !IsNewest(s.disk.generations, g)
    ensures s.disk.receipt.Some? ==> g.name != s.disk.receipt.value.generation
  {
    assert AmongNewestTwo(s.disk.generations, s.job.destination);
    if s.disk.receipt.Some? {
      var receipted :| ReceiptedAt(s.disk.generations, s.disk.receipt.value, receipted);
      assert receipted in s.job.keep;
    }
  }

  /** A rotation under way began with a full verification and an immediately preceding replication. */
  ghost predicate BeganAt(states: seq<State>, i: nat, replicated: nat, rotated: nat)
    requires replicated < rotated < i < |states| && InFlight(states[i])
  {
    && Replicates(states[replicated], states[replicated + 1])
    && Rotates(states[rotated], states[rotated + 1]) && states[rotated].disk.damaged == {}
    && (forall k | replicated < k <= rotated ::
          states[k].job.Replicated? && states[k].job.destination == states[i].job.destination)
    && (forall k | rotated < k <= i ::
          (states[k].job.Pruning? || states[k].job.EmptyingTrash?)
              && states[k].job.destination == states[i].job.destination)
  }

  lemma {:induction false} CameFromReplication(states: seq<State>, i: nat) returns (j: nat)
    requires Run(states) && i < |states| && states[i].job.Replicated?
    ensures j < i && Replicates(states[j], states[j + 1])
    ensures forall k | j < k <= i :: states[k].job == states[i].job
  {
    assert i > 0;
    var s, s' := states[i - 1], states[i];
    assert Next(states[i - 1], states[i - 1 + 1]);
    if Replicates(s, s') {
      j := i - 1;
    } else {
      assert s.job == s'.job;
      j := CameFromReplication(states, i - 1);
    }
  }

  lemma {:induction false} RotationStep(s: State, s': State)
    requires Next(s, s') && (s'.job.Pruning? || s'.job.EmptyingTrash?)
    ensures Rotates(s, s') || ((s.job.Pruning? || s.job.EmptyingTrash?) && s.job.destination == s'.job.destination)
    ensures Rotates(s, s') ==> s.job.Replicated? && s.disk.damaged == {} && s.job.destination == s'.job.destination
  {
  }

  lemma {:induction false} BeganEarlier(states: seq<State>, i: nat, replicated: nat, rotated: nat)
    requires replicated < rotated < i < i + 1 < |states| && InFlight(states[i])
             && BeganAt(states, i, replicated, rotated)
    requires (states[i + 1].job.Pruning? || states[i + 1].job.EmptyingTrash?)
             && states[i].job.destination == states[i + 1].job.destination
    ensures BeganAt(states, i + 1, replicated, rotated)
  {
    hide Replicates, Rotates;
  }

  lemma {:induction false} BeganJustNow(states: seq<State>, i: nat, replicated: nat)
    requires Run(states) && replicated < i < i + 1 < |states| && Rotates(states[i], states[i + 1])
    requires states[i + 1].job.Pruning? || states[i + 1].job.EmptyingTrash?
    requires Replicates(states[replicated], states[replicated + 1])
    requires states[i].job.Replicated? && forall k | replicated < k <= i :: states[k].job == states[i].job
    ensures BeganAt(states, i + 1, replicated, i)
  {
    assert Next(states[i], states[i + 1]);
    RotationStep(states[i], states[i + 1]);
    hide Replicates, Rotates, Next;
  }

  lemma {:induction false} CameFromRotation(states: seq<State>, i: nat) returns (replicated: nat, rotated: nat)
    requires Run(states) && i < |states| && (states[i].job.Pruning? || states[i].job.EmptyingTrash?)
    ensures replicated < rotated < i && BeganAt(states, i, replicated, rotated)
  {
    hide Next, Rotates, Replicates, BeganAt;
    assert i > 0;
    assert Next(states[i - 1], states[i - 1 + 1]);
    RotationStep(states[i - 1], states[i]);
    if Rotates(states[i - 1], states[i]) {
      rotated := i - 1;
      replicated := CameFromReplication(states, i - 1);
      BeganJustNow(states, i - 1, replicated);
    } else {
      replicated, rotated := CameFromRotation(states, i - 1);
      BeganEarlier(states, i - 1, replicated, rotated);
    }
  }

  /** An "ok" receipt is only ever written after replication and a rotation that verified every generation. */
  lemma {:induction false} OkReceiptFollowsItsSteps(states: seq<State>, i: nat) returns (replicated: nat, rotated: nat)
    requires Run(states) && i + 1 < |states| && WritesReceipt(states[i], states[i + 1])
    ensures replicated < rotated < i && BeganAt(states, i, replicated, rotated)
  {
    replicated, rotated := CameFromRotation(states, i);
  }
}
