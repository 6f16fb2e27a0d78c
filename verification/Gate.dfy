/**
 The readiness gate (scripts/session14_gate.py, `execute`). The adapters are an arbitrary
 sequence of replies, one for each call in turn; the log of calls made is kept beside the
 report so that the order of calls can be spoken about.
 */
module Gate {
  import opened Wrappers

  type Text = string

  // ----- manifest, requests and replies -----

  datatype Manifest = Manifest(
    profiles: seq<Text>, ramps: seq<nat>, holdClients: nat, minimumHold: nat,
    reconciliations: seq<Text>, faults: seq<Text>, privacyCases: seq<Text>,
    maxima: seq<(Text, real)>, requiredTrue: seq<Text>)

  datatype Phase = Preflight | Inject | Verify | Teardown

  datatype CaseId = WorkloadCase(profile: Text, clients: nat) | FaultCase(fault: Text) | PrivacyCase(privacy: Text)

  datatype Request =
    | Workload(profile: Text, clients: nat, seconds: nat)
    | Reconcile(case_: CaseId, reconciliation: Text)
    | Fault(fault: Text, phase: Phase)
    | Privacy(privacy: Text)

  datatype Metric = Number(value: real) | NotFinite | Flag(on: bool) | Other

  /** What one adapter call yields: an exception, or the fields the gate looks at. */
  datatype Reply =
    | Raised
    | Answer(caseId: Option<CaseId>, subject: Option<Text>, state: Text, evidence: Option<Text>, detail: Option<Text>,
             mismatches: Option<int>, metrics: Option<map<Text, Metric>>, elapsed: real)

  /** The reply to the call with this number. */
  type Adapter = nat -> Reply

  datatype Reason =
    | WorkloadNotPassed
    | EvidenceInvalid
    | HoldTooShort
    | MetricsMissing
    | MetricFailed(name: Text)
    | AdapterFailed
    | ReconciliationFailed(reconciliation: Text)
    | FaultFailed
    | TeardownFailed
    | SkippedAfterTeardownFailure
    | PrivacyFailed

  datatype Item = Item(case_: CaseId, reason: Reason)

  datatype Case = Case(id: CaseId, evidence: seq<Text>, failures: seq<Reason>)

  // ----- evidence and metrics -----

  predicate Alphanumeric(c: char) {
    '0' <= c <= '9' || 'A' <= c <= 'Z' || 'a' <= c <= 'z'
  }

  /** `safe_id` */
  predicate SafeId(value: Option<Text>) {
    && value.Some? && 1 <= |value.value| <= 80 && Alphanumeric(value.value[0])
    && forall c | c in value.value :: Alphanumeric(c) || c in {'_', '.', ':', '-'}
  }

  predicate WithinMaximum(metrics: map<Text, Metric>, bound: (Text, real)) {
    bound.0 in metrics && metrics[bound.0].Number? && 0.0 <= metrics[bound.0].value <= bound.1
  }

  predicate IsTrue(metrics: map<Text, Metric>, name: Text) {
    name in metrics && metrics[name] == Flag(true)
  }

  ghost predicate MetricsGood(manifest: Manifest, metrics: Option<map<Text, Metric>>) {
    && metrics.Some?
    && (forall bound | bound in manifest.maxima :: WithinMaximum(metrics.value, bound))
    && forall name | name in manifest.requiredTrue :: IsTrue(metrics.value, name)
  }

  /** `validate_metrics` */
  method ValidateMetrics(manifest: Manifest, metrics: Option<map<Text, Metric>>) returns (failures: seq<Reason>)
    ensures failures == [] <==> MetricsGood(manifest, metrics)
    ensures forall name | MetricFailed(name) in failures :: metrics.Some? && (
              (exists bound | bound in manifest.maxima :: bound.0 == name && !WithinMaximum(metrics.value, bound))
              || (name in manifest.requiredTrue && !IsTrue(metrics.value, name)))
    ensures MetricsMissing in failures <==> metrics.None?
  {
    if metrics.None? {
      return [MetricsMissing];
    }
    failures := [];
    for i := 0 to |manifest.maxima|
      invariant failures == [] <==> forall j | 0 <= j < i :: WithinMaximum(metrics.value, manifest.maxima[j])
      invariant MetricsMissing !in failures
      invariant forall name | MetricFailed(name) in failures ::
                  exists bound | bound in manifest.maxima :: bound.0 == name && !WithinMaximum(metrics.value, bound)
    {
      if !WithinMaximum(metrics.value, manifest.maxima[i]) {
        failures := failures + [MetricFailed(manifest.maxima[i].0)];
      }
    }
    for i := 0 to |manifest.requiredTrue|
      invariant failures == [] <==>
                && (forall bound | bound in manifest.maxima :: WithinMaximum(metrics.value, bound))
                && forall j | 0 <= j < i :: IsTrue(metrics.value, manifest.requiredTrue[j])
      invariant MetricsMissing !in failures
      invariant forall name | MetricFailed(name) in failures ::
                  (exists bound | bound in manifest.maxima :: bound.0 == name && !WithinMaximum(metrics.value, bound))
                  || (name in manifest.requiredTrue && !IsTrue(metrics.value, name))
    {
      if !IsTrue(metrics.value, manifest.requiredTrue[i]) {
        failures := failures + [MetricFailed(manifest.requiredTrue[i])];
      }
    }
  }

  // ----- what a correct reply is -----

  function ExpectedState(phase: Phase): Text {
    match phase
    case Preflight => "ready"
    case Inject => "injected"
    case Verify => "verified"
    case Teardown => "restored"
  }

  /** The identifier a reply offers as evidence. */
  function Evidence(request: Request, reply: Reply): Option<Text> {
    if reply.Raised? then None else if request.Fault? then reply.detail else reply.evidence
  }

  ghost predicate Answers(manifest: Manifest, request: Request, reply: Reply) {
    && reply.Answer? && SafeId(Evidence(request, reply))
    && match request
       case Workload(profile, clients, seconds) =>
         && reply.caseId == Some(WorkloadCase(profile, clients)) && reply.state == "passed"
         && (seconds > 0 ==> reply.elapsed >= seconds as real) && MetricsGood(manifest, reply.metrics)
       case Reconcile(_, reconciliation) => reply.subject == Some(reconciliation) && reply.mismatches == Some(0)
       case Fault(fault, phase) => reply.subject == Some(fault) && reply.state == ExpectedState(phase)
       case Privacy(privacy) => reply.subject == Some(privacy) && reply.state == "passed"
  }

  /** Every call was answered correctly, each with evidence no other call gave. */
  ghost predicate Good(manifest: Manifest, calls: seq<Request>, adapter: Adapter) {
    && (forall i | 0 <= i < |calls| :: Answers(manifest, calls[i], adapter(i)))
    && forall i, j | 0 <= i < j < |calls| :: Evidence(calls[i], adapter(i)) != Evidence(calls[j], adapter(j))
  }

  // ----- the schedule of a run without failures -----

  function Reconciliations(manifest: Manifest, id: CaseId): (r: seq<Request>)
    ensures |r| == |manifest.reconciliations|
    ensures forall i | 0 <= i < |r| :: r[i] == Reconcile(id, manifest.reconciliations[i])
  {
    seq(|manifest.reconciliations|,
        i requires 0 <= i < |manifest.reconciliations| => Reconcile(id, manifest.reconciliations[i]))
  }

  function HoldSeconds(manifest: Manifest, clients: nat): nat {
    if clients == manifest.holdClients then manifest.minimumHold else 0
  }

  function WorkloadPlan(manifest: Manifest, profile: Text, clients: nat): seq<Request> {
    [Workload(profile, clients, HoldSeconds(manifest, clients))] +
        Reconciliations(manifest, WorkloadCase(profile, clients))
  }

  const PHASES: seq<Phase> := [Preflight, Inject, Verify, Teardown]

  function Phases(fault: Text): (r: seq<Request>)
    ensures |r| == |PHASES| && forall i | 0 <= i < |r| :: r[i] == Fault(fault, PHASES[i])
  {
    [Fault(fault, Preflight), Fault(fault, Inject), Fault(fault, Verify), Fault(fault, Teardown)]
  }

  function FaultPlan(manifest: Manifest, fault: Text): seq<Request> {
    Phases(fault) + Reconciliations(manifest, FaultCase(fault))
  }

  function RampsPlan(manifest: Manifest, profile: Text, n: nat): seq<Request>
    requires n <= |manifest.ramps|
  {
    if n == 0 then [] else RampsPlan(manifest, profile, n - 1) + WorkloadPlan(manifest, profile, manifest.ramps[n - 1])
  }

  function ProfilesPlan(manifest: Manifest, n: nat): seq<Request>
    requires n <= |manifest.profiles|
  {
    if n == 0 then []
    else ProfilesPlan(manifest, n - 1) + RampsPlan(manifest, manifest.profiles[n - 1], |manifest.ramps|)
  }

  function FaultsPlan(manifest: Manifest, n: nat): seq<Request>
    requires n <= |manifest.faults|
  {
    if n == 0 then [] else FaultsPlan(manifest, n - 1) + FaultPlan(manifest, manifest.faults[n - 1])
  }

  function PrivacyPlan(manifest: Manifest, n: nat): seq<Request>
    requires n <= |manifest.privacyCases|
  {
    if n == 0 then [] else PrivacyPlan(manifest, n - 1) + [Privacy(manifest.privacyCases[n - 1])]
  }

  /** Every workload, reconciliation, four-phase fault and privacy case, in order. */
  function Schedule(manifest: Manifest): seq<Request> {
    ProfilesPlan(manifest, |manifest.profiles|) + FaultsPlan(manifest, |manifest.faults|)
    + PrivacyPlan(manifest, |manifest.privacyCases|)
  }

  // ----- tracking a run against its schedule -----

  function EvidenceSet(calls: seq<Request>, adapter: Adapter): set<Text> {
    set i | 0 <= i < |calls| && Evidence(calls[i], adapter(i)).Some? :: Evidence(calls[i], adapter(i)).value
  }

  /**
   `planned` is the part of the schedule dealt with. Without failures it is what was called,
   all of it answered well; otherwise some part of it that was called has gone wrong.
   */
  ghost predicate Tracks(manifest: Manifest, calls: seq<Request>, adapter: Adapter, failed: bool, seen: set<Text>,
                         planned: seq<Request>)
  {
    && (!failed ==> calls == planned && Good(manifest, calls, adapter) && seen == EvidenceSet(calls, adapter))
    && (failed ==> exists n: nat :: n <= |calls| && BadPrefix(manifest, calls, adapter, planned, n))
  }

  ghost predicate BadPrefix(manifest: Manifest, calls: seq<Request>, adapter: Adapter, planned: seq<Request>, n: nat) {
    n <= |calls| && calls[..n] <= planned && !Good(manifest, calls[..n], adapter)
  }

  lemma {:induction false} GoodPrefix(manifest: Manifest, calls: seq<Request>, adapter: Adapter, n: nat)
    requires n <= |calls| && Good(manifest, calls, adapter)
    ensures Good(manifest, calls[..n], adapter)
  {
    forall i | 0 <= i < n
      ensures Answers(manifest, calls[..n][i], adapter(i))
    {
      assert calls[..n][i] == calls[i];
    }
  }

  /** A planned call: accepted, it extends the good log; refused, it is where the run goes wrong. */
  lemma {:induction false} CallTracked(manifest: Manifest, calls: seq<Request>, adapter: Adapter, failed: bool,
                                       seen: set<Text>,
                    planned: seq<Request>, request: Request)
    requires Tracks(manifest, calls, adapter, failed, seen, planned)
    ensures var reply := adapter(|calls|);
            var accepted := Answers(manifest, request, reply) && Evidence(request, reply).value !in seen;
            && (!failed && accepted ==>
                  Tracks(manifest, calls + [request], adapter, false, seen + {Evidence(request, reply).value},
                         planned + [request]))
            && (failed || !accepted ==> forall s ::
                  Tracks(manifest, calls + [request], adapter, true, s, planned + [request]))
  {
    var reply := adapter(|calls|);
    var longer := calls + [request];
    assert longer[..|calls|] == calls && longer[..|calls| + 1] == longer;
    assert forall i | 0 <= i < |calls| :: longer[i] == calls[i];
    assert longer[|calls|] == request;
    if failed {
      StaysWrong(manifest, calls, longer, adapter, planned, planned + [request]);
    } else if Answers(manifest, request, reply) && Evidence(request, reply).value !in seen {
      hide Answers;
      assert EvidenceSet(longer, adapter) == EvidenceSet(calls, adapter) + {Evidence(request, reply).value};
    } else {
      assert !Good(manifest, longer, adapter);
      assert BadPrefix(manifest, longer, adapter, planned + [request], |calls| + 1);
    }
  }

  lemma {:induction false} StaysWrong(manifest: Manifest, calls: seq<Request>, more: seq<Request>, adapter: Adapter,
                   planned: seq<Request>, wider: seq<Request>)
    requires exists n: nat :: n <= |calls| && BadPrefix(manifest, calls, adapter, planned, n)
    requires calls <= more && planned <= wider
    ensures exists n: nat :: n <= |more| && BadPrefix(manifest, more, adapter, wider, n)
  {
    var n: nat :| n <= |calls| && BadPrefix(manifest, calls, adapter, planned, n);
    assert more[..n] == calls[..n];
    assert BadPrefix(manifest, more, adapter, wider, n);
  }

  /** A finished run is free of failures exactly if the adapter answers the whole schedule well. */
  lemma {:induction false} VerdictIsTheAdapters(manifest: Manifest, calls: seq<Request>, adapter: Adapter, failed: bool,
                                                seen: set<Text>)
    requires Tracks(manifest, calls, adapter, failed, seen, Schedule(manifest))
    ensures !failed <==> Good(manifest, Schedule(manifest), adapter)
    ensures !failed ==> calls == Schedule(manifest)
  {
    if failed {
      var n: nat :| n <= |calls| && BadPrefix(manifest, calls, adapter, Schedule(manifest), n);
      if Good(manifest, Schedule(manifest), adapter) {
        GoodPrefix(manifest, Schedule(manifest), adapter, n);
      }
      assert calls[..n] == Schedule(manifest)[..n];
    }
  }

  // ----- the teardown discipline -----

  /** An injected fault is torn down by the next calls, with at most its verification in between. */
  ghost predicate TornDown(calls: seq<Request>, i: nat) {
    i < |calls| && calls[i].Fault? &&
    exists j :: i < j < |calls| && calls[j] == Fault(calls[i].fault, Teardown)
                && forall k | i < k < j :: calls[k] == Fault(calls[i].fault, Verify)
  }

  ghost predicate Disciplined(calls: seq<Request>) {
    forall i | 0 <= i < |calls| && calls[i].Fault? && calls[i].phase.Inject? :: TornDown(calls, i)
  }

  predicate Restored(request: Request, reply: Reply) {
    request.Fault? && request.phase.Teardown? && reply.Answer?
    && reply.subject == Some(request.fault) && reply.state == ExpectedState(Teardown)
  }

  /** The last fault call there was, if any, is a teardown that was answered as restored. */
  predicate Settled(calls: seq<Request>, adapter: Adapter) {
    calls == [] ||
    if calls[|calls| - 1].Fault? then Restored(calls[|calls| - 1], adapter(|calls| - 1))
    else Settled(calls[..|calls| - 1], adapter)
  }

  /** A call that must not reach an unrestored target. */
  predicate NeedsSafeTarget(request: Request) {
    request.Privacy? || (request.Fault? && request.phase.Preflight?)
  }

  ghost predicate Guarded(calls: seq<Request>, adapter: Adapter) {
    forall i | 0 <= i < |calls| && NeedsSafeTarget(calls[i]) :: Settled(calls[..i], adapter)
  }

  /** A teardown was the last thing asked of the target, except for reconciliations. */
  ghost predicate Abandoned(calls: seq<Request>, last: nat) {
    && last < |calls| && calls[last].Fault? && calls[last].phase.Teardown?
    && forall k | last < k < |calls| :: calls[k].Reconcile?
  }

  ghost predicate Careful(calls: seq<Request>, adapter: Adapter, safe: bool) {
    && Disciplined(calls) && Guarded(calls, adapter)
    && (safe ==> Settled(calls, adapter))
    && (!safe ==> exists last: nat :: last < |calls| && Abandoned(calls, last))
  }

  lemma {:induction false} TornDownStays(calls: seq<Request>, more: seq<Request>, i: nat)
    requires TornDown(calls, i)
    ensures TornDown(calls + more, i)
  {
    var all := calls + more;
    var j :| i < j < |calls| && calls[j] == Fault(calls[i].fault, Teardown)
             && forall k | i < k < j :: calls[k] == Fault(calls[i].fault, Verify);
    assert forall k | i <= k <= j :: all[k] == calls[k];
  }

  /** A call that is no fault call changes neither safety nor discipline. */
  lemma {:induction false} OrdinaryCallIsCareful(calls: seq<Request>, adapter: Adapter, safe: bool, request: Request)
    requires Careful(calls, adapter, safe) && !request.Fault? && (safe || request.Reconcile?)
    ensures Careful(calls + [request], adapter, safe)
  {
    var longer := calls + [request];
    assert longer[..|calls|] == calls;
    forall i | 0 <= i < |longer| && NeedsSafeTarget(longer[i])
      ensures Settled(longer[..i], adapter)
    {
      assert i < |calls| ==> longer[i] == calls[i] && longer[..i] == calls[..i];
    }
    forall i | 0 <= i < |longer| && longer[i].Fault? && longer[i].phase.Inject?
      ensures TornDown(longer, i)
    {
      assert longer[i] == calls[i];
      TornDownStays(calls, [request], i);
    }
    if !safe {
      var last: nat :| last < |calls| && Abandoned(calls, last);
      assert longer[last] == calls[last] && forall k | last < k < |calls| :: longer[k] == calls[k];
      assert Abandoned(longer, last);
    }
  }

  /** The calls of one fault: its first phases, and a compensating teardown unless all four were accepted. */
  function FaultBlock(fault: Text, n: nat, compensated: bool): seq<Request>
    requires n <= 4
  {
    Phases(fault)[..n] + if compensated then [Fault(fault, Teardown)] else []
  }

  lemma {:induction false} BlockIsTornDown(calls: seq<Request>, fault: Text, n: nat, compensated: bool, i: nat)
    requires 1 <= n <= 4 && (compensated || n == 4)
    requires var all := calls + FaultBlock(fault, n, compensated);
             |calls| <= i < |all| && all[i].Fault? && all[i].phase.Inject?
    ensures TornDown(calls + FaultBlock(fault, n, compensated), i)
  {
    var block := FaultBlock(fault, n, compensated);
    var all := calls + block;
    assert all[i] == block[i - |calls|];
    assert i - |calls| == 1;
    assert forall k | 0 <= k < |block| :: all[|calls| + k] == block[k];
    if n == 4 {
      assert block[2] == Fault(fault, Verify) && block[3] == Fault(fault, Teardown);
      assert all[i + 2] == Fault(fault, Teardown) && all[i + 1] == Fault(fault, Verify);
    } else if n == 3 {
      assert block[2] == Fault(fault, Verify) && block[3] == Fault(fault, Teardown);
      assert all[i + 2] == Fault(fault, Teardown) && all[i + 1] == Fault(fault, Verify);
    } else {
      assert block[2] == Fault(fault, Teardown);
      assert all[i + 1] == Fault(fault, Teardown);
    }
  }

  lemma {:induction false} FaultIsDisciplined(calls: seq<Request>, fault: Text, n: nat, compensated: bool)
    requires Disciplined(calls) && 1 <= n <= 4 && (compensated || n == 4)
    ensures Disciplined(calls + FaultBlock(fault, n, compensated))
  {
    var block := FaultBlock(fault, n, compensated);
    var all := calls + block;
    forall i | 0 <= i < |all| && all[i].Fault? && all[i].phase.Inject?
      ensures TornDown(all, i)
    {
      if i < |calls| {
        assert all[i] == calls[i];
        TornDownStays(calls, block, i);
      } else {
        BlockIsTornDown(calls, fault, n, compensated, i);
      }
      hide TornDown, FaultBlock;
    }
  }

  /** The block begins with its only preflight. */
  lemma {:induction false} FaultIsGuarded(calls: seq<Request>, adapter: Adapter, fault: Text, n: nat, compensated: bool)
    requires Guarded(calls, adapter) && Settled(calls, adapter) && 1 <= n <= 4
    ensures Guarded(calls + FaultBlock(fault, n, compensated), adapter)
  {
    var block := FaultBlock(fault, n, compensated);
    var all := calls + block;
    assert forall k | 0 < k < |block| :: !NeedsSafeTarget(block[k]);
    hide FaultBlock, Settled, NeedsSafeTarget;
    forall i | 0 <= i < |all| && NeedsSafeTarget(all[i])
      ensures Settled(all[..i], adapter)
    {
      if i < |calls| {
        assert all[i] == calls[i] && all[..i] == calls[..i];
      } else {
        assert all[i] == block[i - |calls|];
        assert i == |calls| && all[..i] == calls;
      }
    }
  }

  lemma {:induction false} FaultIsCareful(calls: seq<Request>, adapter: Adapter, fault: Text, n: nat, compensated: bool)
    requires Careful(calls, adapter, true) && 1 <= n <= 4 && (compensated || n == 4)
    ensures var all := calls + FaultBlock(fault, n, compensated);
            && Careful(all, adapter, false)
            && (Restored(all[|all| - 1], adapter(|all| - 1)) ==> Careful(all, adapter, true))
  {
    var block := FaultBlock(fault, n, compensated);
    var all := calls + block;
    FaultIsDisciplined(calls, fault, n, compensated);
    FaultIsGuarded(calls, adapter, fault, n, compensated);
    assert all[|all| - 1] == block[|block| - 1] == Fault(fault, Teardown);
    hide Disciplined, Guarded, FaultBlock;
    assert Abandoned(all, |all| - 1);
  }

  // ----- the run -----

  function Reasons(items: seq<Item>, id: CaseId): (r: seq<Reason>)
    ensures r != [] <==> exists item | item in items :: item.case_ == id
  {
    if items == [] then []
    else
      assert items == items[..|items| - 1] + [items[|items| - 1]];
      Reasons(items[..|items| - 1], id) + if items[|items| - 1].case_ == id then [items[|items| - 1].reason] else []
  }

  class Execution {
    const manifest: Manifest
    const adapter: Adapter
    var calls: seq<Request>
    var cases: seq<Case>
    var failures: seq<Item>
    var seen: set<Text>
    var targetSafe: bool
    ghost var planned: seq<Request>

    constructor (manifest: Manifest, adapter: Adapter)
      ensures this.manifest == manifest && this.adapter == adapter
      ensures Valid() && planned == [] && cases == [] && targetSafe && CasesAgree()
    {
      this.manifest, this.adapter := manifest, adapter;
      calls, cases, failures, seen, targetSafe, planned := [], [], [], {}, true, [];
    }

    ghost predicate Valid()
      reads this
    {
      && Tracks(manifest, calls, adapter, failures != [], seen, planned)
      && Careful(calls, adapter, targetSafe) && (!targetSafe ==> failures != [])
    }

    /** `run_json_adapter` */
    method Call(request: Request) returns (reply: Reply)
      modifies this`calls
      ensures reply == adapter(|old(calls)|) && calls == old(calls) + [request]
    {
      reply := adapter(|calls|);
      calls := calls + [request];
    }

    /** `record_evidence` */
    method RecordEvidence(value: Option<Text>, evidence: seq<Text>) returns (ok: bool, more: seq<Text>)
      modifies this`seen
      ensures ok <==> SafeId(value) && value.value !in old(seen)
      ensures seen == (if ok then old(seen) + {value.value} else old(seen))
      ensures more == if ok then evidence + [value.value] else evidence
    {
      if !SafeId(value) || value.value in seen {
        return false, evidence;
      }
      seen := seen + {value.value};
      return true, evidence + [value.value];
    }

    /** The reconciliation loop, the same after a workload and after a fault. */
    method ReconcileAll(id: CaseId, evidence: seq<Text>) returns (more: seq<Text>, reasons: seq<Reason>)
      requires Valid()
      modifies this`calls, this`seen, this`failures, this`planned
      ensures Valid() && planned == old(planned) + Reconciliations(manifest, id)
      ensures old(calls) <= calls && old(failures) <= failures
      ensures reasons == [] <==> failures == old(failures)
    {
      hide Good, Careful, Answers;
      var plan := Reconciliations(manifest, id);
      more, reasons := evidence, [];
      for i := 0 to |manifest.reconciliations|
        invariant Valid() && planned == old(planned) + plan[..i]
        invariant old(calls) <= calls && old(failures) <= failures
        invariant reasons == [] <==> failures == old(failures)
      {
        var ok;
        assert plan[..i + 1] == plan[..i] + [plan[i]];
        ok, more := ReconcileOne(id, manifest.reconciliations[i], more);
        if !ok {
          reasons := reasons + [ReconciliationFailed(manifest.reconciliations[i])];
        }
      }
      assert plan[..|plan|] == plan;
    }

    method ReconcileOne(id: CaseId, reconciliation: Text, evidence: seq<Text>) returns (ok: bool, more: seq<Text>)
      requires Valid()
      modifies this`calls, this`seen, this`failures, this`planned
      ensures Valid() && planned == old(planned) + [Reconcile(id, reconciliation)]
      ensures old(calls) <= calls && calls == old(calls) + [Reconcile(id, reconciliation)]
      ensures failures == old(failures) + if ok then [] else [Item(id, ReconciliationFailed(reconciliation))]
    {
      hide Good, Disciplined, Guarded, MetricsGood, EvidenceSet, Settled, Abandoned;
      var request := Reconcile(id, reconciliation);
      more := evidence;
      CallTracked(manifest, calls, adapter, failures != [], seen, planned, request);
      OrdinaryCallIsCareful(calls, adapter, targetSafe, request);
      var reply := Call(request);
      ok := reply.Answer? && reply.subject == Some(reconciliation) && reply.mismatches == Some(0);
      if ok {
        ok, more := RecordEvidence(reply.evidence, evidence);
      }
      if !ok {
        failures := failures + [Item(id, ReconciliationFailed(reconciliation))];
      }
      planned := planned + [request];
    }

    /** The failures of a case, each filed under its id. */
    method File(id: CaseId, reasons: seq<Reason>)
      modifies this`failures
      ensures old(failures) <= failures && (failures == old(failures) <==> reasons == [])
    {
      for i := 0 to |reasons|
        invariant old(failures) <= failures && |failures| == |old(failures)| + i
      {
        failures := failures + [Item(id, reasons[i])];
      }
    }

    /** One workload at one ramp, with its reconciliations. */
    method RunWorkload(profile: Text, clients: nat)
      requires Valid() && targetSafe && CasesAgree()
      modifies this
      ensures Valid() && targetSafe && CasesAgree() && |cases| == |old(cases)| + 1
      ensures planned == old(planned) + WorkloadPlan(manifest, profile, clients)
    {
      hide Good, Careful, Reconciliations;
      var id := WorkloadCase(profile, clients);
      var evidence, reasons := AskWorkload(profile, clients);
      var more, unreconciled := ReconcileAll(id, evidence);
      cases := cases + [Case(id, more, reasons + unreconciled)];
    }

    method AskWorkload(profile: Text, clients: nat) returns (evidence: seq<Text>, reasons: seq<Reason>)
      requires Valid() && targetSafe
      modifies this`calls, this`seen, this`failures, this`planned
      ensures Valid() && old(failures) <= failures && (failures == old(failures) <==> reasons == [])
      ensures planned == old(planned) + [Workload(profile, clients, HoldSeconds(manifest, clients))]
    {
      hide Good, Disciplined, Guarded, MetricsGood, EvidenceSet, Settled, Abandoned;
      var id, seconds := WorkloadCase(profile, clients), HoldSeconds(manifest, clients);
      var request := Workload(profile, clients, seconds);
      CallTracked(manifest, calls, adapter, failures != [], seen, planned, request);
      OrdinaryCallIsCareful(calls, adapter, targetSafe, request);
      evidence, reasons := [], [];
      var reply := Call(request);
      if reply.Raised? {
        reasons := [AdapterFailed];
      } else {
        if reply.caseId != Some(id) || reply.state != "passed" {
          reasons := reasons + [WorkloadNotPassed];
        }
        var ok;
        ok, evidence := RecordEvidence(reply.evidence, evidence);
        if !ok {
          reasons := reasons + [EvidenceInvalid];
        }
        if seconds > 0 && reply.elapsed < seconds as real {
          reasons := reasons + [HoldTooShort];
        }
        var metricFailures := ValidateMetrics(manifest, reply.metrics);
        reasons := reasons + metricFailures;
      }
      File(id, reasons);
      planned := planned + [request];
    }

    /** One fault: its phases, compensation when one of them fails, and its reconciliations. */
    method RunFault(fault: Text)
      requires Valid() && CasesAgree()
      modifies this
      ensures Valid() && CasesAgree() && |cases| == |old(cases)| + 1
      ensures planned == old(planned) + FaultPlan(manifest, fault)
      ensures old(calls) <= calls && (targetSafe ==> Fault(fault, Preflight) in calls[|old(calls)|..])
      ensures !old(targetSafe) ==> calls == old(calls) && !targetSafe
    {
      hide Good, Careful, Reconciliations, Phases;
      var id := FaultCase(fault);
      if !targetSafe {
        Skip(id, FaultPlan(manifest, fault));
        return;
      }
      ghost var before := failures;
      var evidence := InjectFault(fault);
      label Injected:
      var reasons := Reasons(failures, id);
      var more, unreconciled := ReconcileAll(id, evidence);
      cases := cases + [Case(id, more, reasons + unreconciled)];
      assert calls[|old(calls)|..] == old@Injected(calls)[|old(calls)|..] + calls[|old@Injected(calls)|..];
    }

    /** A case that is not run because the target was left unrestored. */
    method Skip(id: CaseId, ghost plan: seq<Request>)
      requires Valid() && !targetSafe && CasesAgree()
      modifies this`failures, this`cases, this`planned
      ensures Valid() && CasesAgree() && |cases| == |old(cases)| + 1 && planned == old(planned) + plan
    {
      hide Good, Careful;
      failures := failures + [Item(id, SkippedAfterTeardownFailure)];
      cases := cases + [Case(id, [], [SkippedAfterTeardownFailure])];
      StaysWrong(manifest, calls, calls, adapter, planned, planned + plan);
      planned := planned + plan;
    }

    /** The phases of a fault and its compensating teardown. */
    method InjectFault(fault: Text) returns (evidence: seq<Text>)
      requires Valid() && targetSafe
      modifies this`calls, this`seen, this`failures, this`planned, this`targetSafe
      ensures Valid() && planned == old(planned) + Phases(fault)
      ensures old(calls) < calls && calls[|old(calls)|] == Fault(fault, Preflight)
      ensures old(failures) <= failures
      ensures failures != old(failures) ==> Item(FaultCase(fault), FaultFailed) in failures
    {
      hide Good, Disciplined, Guarded, EvidenceSet, Settled, Abandoned;
      var id := FaultCase(fault);
      var n, failed;
      evidence, n, failed := RunPhases(fault);
      assert calls[|old(calls)|] == Phases(fault)[0];
      FaultIsCareful(old(calls), adapter, fault, n, failed);
      planned := planned + Phases(fault);
      if failed {
        assert old(calls) + FaultBlock(fault, n, true) == calls + [Fault(fault, Teardown)];
        failures := failures + [Item(id, FaultFailed)];
        ghost var filed := failures;
        evidence := Compensate(fault, evidence);
        assert failures[|filed| - 1] == Item(id, FaultFailed);
      } else {
        assert old(calls) + FaultBlock(fault, n, false) == calls;
      }
    }

    /** The compensating teardown; unless it is answered well the target counts as unsafe. */
    method Compensate(fault: Text, evidence: seq<Text>) returns (more: seq<Text>)
      requires targetSafe && failures != [] && Tracks(manifest, calls, adapter, true, seen, planned)
      requires var all := calls + [Fault(fault, Teardown)];
               && Careful(all, adapter, false)
               && (Restored(all[|all| - 1], adapter(|all| - 1)) ==> Careful(all, adapter, true))
      modifies this`calls, this`seen, this`failures, this`targetSafe
      ensures Valid() && calls == old(calls) + [Fault(fault, Teardown)] && old(failures) <= failures
    {
      hide Good, Careful, EvidenceSet, BadPrefix;
      StaysWrong(manifest, calls, calls + [Fault(fault, Teardown)], adapter, planned, planned);
      more := evidence;
      var reply := Call(Fault(fault, Teardown));
      var ok := reply.Answer? && reply.subject == Some(fault) && reply.state == ExpectedState(Teardown);
      if ok {
        ok, more := RecordEvidence(reply.detail, evidence);
      }
      if !ok {
        failures := failures + [Item(FaultCase(fault), TeardownFailed)];
        targetSafe := false;
      }
    }

    /** The four phases, up to the first that is not answered well. */
    method RunPhases(fault: Text) returns (evidence: seq<Text>, n: nat, failed: bool)
      requires Tracks(manifest, calls, adapter, failures != [], seen, planned)
      modifies this`calls, this`seen
      ensures 1 <= n <= 4 && (failed || n == 4) && calls == old(calls) + Phases(fault)[..n]
      ensures Tracks(manifest, calls, adapter, failures != [] || failed, seen, planned + Phases(fault))
      ensures !failed ==> Restored(calls[|calls| - 1], adapter(|calls| - 1))
    {
      hide Tracks;
      var plan := Phases(fault);
      evidence, n, failed := [], 0, false;
      assert planned + plan[..0] == planned && calls + plan[..0] == calls;
      while n < |PHASES| && !failed
        invariant n <= 4 && (failed ==> n > 0) && calls == old(calls) + plan[..n]
        invariant Tracks(manifest, calls, adapter, failures != [] || failed, seen, planned + plan[..n])
        invariant !failed && n == 4 ==> Restored(calls[|calls| - 1], adapter(|calls| - 1))
        decreases |PHASES| - n
      {
        assert plan[..n + 1] == plan[..n] + [plan[n]];
        assert calls + [plan[n]] == old(calls) + plan[..n + 1];
        assert planned + plan[..n] + [plan[n]] == planned + plan[..n + 1];
        failed, evidence := RunPhase(fault, PHASES[n], failures != [] , planned + plan[..n], evidence);
        n := n + 1;
      }
      if failed {
        Widen(planned + plan[..n], planned + plan);
      } else {
        assert plan[..n] == plan;
      }
    }

    /** A log that has gone wrong stays wrong however much more is planned. */
    lemma {:induction false} Widen(part: seq<Request>, wider: seq<Request>)
      requires Tracks(manifest, calls, adapter, true, seen, part) && part <= wider
      ensures Tracks(manifest, calls, adapter, true, seen, wider)
    {
      StaysWrong(manifest, calls, calls, adapter, part, wider);
    }

    method RunPhase(fault: Text, phase: Phase, ghost earlier: bool, ghost part: seq<Request>, evidence: seq<Text>)
      returns (failed: bool, more: seq<Text>)
      requires Tracks(manifest, calls, adapter, earlier, seen, part)
      modifies this`calls, this`seen
      ensures calls == old(calls) + [Fault(fault, phase)]
      ensures Tracks(manifest, calls, adapter, earlier || failed, seen, part + [Fault(fault, phase)])
      ensures !failed && phase.Teardown? ==> Restored(calls[|calls| - 1], adapter(|calls| - 1))
    {
      hide Tracks;
      CallTracked(manifest, calls, adapter, earlier, seen, part, Fault(fault, phase));
      more := evidence;
      var reply := Call(Fault(fault, phase));
      failed := reply.Raised? || reply.subject != Some(fault) || reply.state != ExpectedState(phase);
      if !failed {
        var ok;
        ok, more := RecordEvidence(reply.detail, evidence);
        failed := !ok;
      }
    }

    method RunPrivacy(privacy: Text)
      requires Valid() && CasesAgree()
      modifies this
      ensures Valid() && CasesAgree() && |cases| == |old(cases)| + 1
      ensures planned == old(planned) + [Privacy(privacy)] && targetSafe == old(targetSafe)
      ensures calls == old(calls) + if targetSafe then [Privacy(privacy)] else []
    {
      hide Good, Disciplined, Guarded, MetricsGood, EvidenceSet, Settled, Abandoned;
      var id, request := PrivacyCase(privacy), Privacy(privacy);
      if !targetSafe {
        Skip(id, [request]);
        return;
      }
      CallTracked(manifest, calls, adapter, failures != [], seen, planned, request);
      OrdinaryCallIsCareful(calls, adapter, targetSafe, request);
      var reply := Call(request);
      var evidence: seq<Text> := [];
      var ok := reply.Answer? && reply.subject == Some(privacy) && reply.state == "passed";
      if ok {
        ok, evidence := RecordEvidence(reply.evidence, evidence);
      }
      if !ok {
        failures := failures + [Item(id, PrivacyFailed)];
      }
      cases := cases + [Case(id, evidence, if ok then [] else [PrivacyFailed])];
      planned := planned + [request];
    }

    /** The report blames a case exactly if it lists a failure at all. */
    ghost predicate CasesAgree()
      reads this
    {
      failures == [] <==> forall c | c in cases :: c.failures == []
    }

    method RunWorkloads()
      requires Valid() && planned == [] && targetSafe && cases == [] && CasesAgree()
      modifies this
      ensures Valid() && targetSafe && CasesAgree()
      ensures planned == ProfilesPlan(manifest, |manifest.profiles|)
      ensures |cases| == |manifest.profiles| * |manifest.ramps|
    {
      hide Tracks, Careful, WorkloadPlan, CasesAgree;
      for i := 0 to |manifest.profiles|
        invariant Valid() && targetSafe && CasesAgree()
        invariant planned == ProfilesPlan(manifest, i) && |cases| == i * |manifest.ramps|
      {
        ghost var head := planned;
        var profile := manifest.profiles[i];
        for k := 0 to |manifest.ramps|
          invariant Valid() && targetSafe && CasesAgree()
          invariant planned == head + RampsPlan(manifest, profile, k) && |cases| == i * |manifest.ramps| + k
        {
          RunWorkload(profile, manifest.ramps[k]);
        }
      }
    }

    method RunFaults()
      requires Valid() && CasesAgree()
      modifies this
      ensures Valid() && CasesAgree() && planned == old(planned) + FaultsPlan(manifest, |manifest.faults|)
      ensures |cases| == |old(cases)| + |manifest.faults| && old(calls) <= calls
      ensures targetSafe ==> forall fault | fault in manifest.faults :: Fault(fault, Preflight) in calls
    {
      hide Tracks, Careful, FaultPlan, CasesAgree;
      for i := 0 to |manifest.faults|
        invariant Valid() && CasesAgree() && planned == old(planned) + FaultsPlan(manifest, i)
        invariant |cases| == |old(cases)| + i && old(calls) <= calls
        invariant targetSafe ==> forall k | 0 <= k < i :: Fault(manifest.faults[k], Preflight) in calls
      {
        ghost var before := calls;
        RunFault(manifest.faults[i]);
        assert calls == before + calls[|before|..];
      }
    }

    method RunPrivacyCases()
      requires Valid() && CasesAgree()
      modifies this
      ensures Valid() && CasesAgree() && planned == old(planned) + PrivacyPlan(manifest, |manifest.privacyCases|)
      ensures |cases| == |old(cases)| + |manifest.privacyCases| && targetSafe == old(targetSafe) && old(calls) <= calls
      ensures targetSafe ==> forall privacy | privacy in manifest.privacyCases :: Privacy(privacy) in calls
    {
      hide Tracks, Careful, CasesAgree;
      for i := 0 to |manifest.privacyCases|
        invariant Valid() && CasesAgree() && planned == old(planned) + PrivacyPlan(manifest, i)
        invariant |cases| == |old(cases)| + i && targetSafe == old(targetSafe) && old(calls) <= calls
        invariant targetSafe ==> forall k | 0 <= k < i :: Privacy(manifest.privacyCases[k]) in calls
      {
        RunPrivacy(manifest.privacyCases[i]);
      }
    }
  }

  datatype Report = Report(pass: bool, cases: seq<Case>, failures: seq<Item>)

  /**
   `execute`, for any behaviour of the adapters. The verdict is theirs: it is PASS exactly
   if every scheduled call, at its place in the schedule, is answered well with evidence of
   its own, and then the calls made are the schedule.
   */
  method Execute(manifest: Manifest, adapter: Adapter) returns (report: Report, calls: seq<Request>, targetSafe: bool)
    ensures report.pass <==> Good(manifest, Schedule(manifest), adapter)
    ensures report.pass <==> report.failures == []
    ensures report.pass <==> forall c | c in report.cases :: c.failures == []
    ensures report.pass ==> calls == Schedule(manifest)
    ensures |report.cases| == |manifest.profiles| * |manifest.ramps| + |manifest.faults| + |manifest.privacyCases|
    ensures Disciplined(calls) && Guarded(calls, adapter)
    ensures targetSafe ==>
              && (forall fault | fault in manifest.faults :: Fault(fault, Preflight) in calls)
              && (forall privacy | privacy in manifest.privacyCases :: Privacy(privacy) in calls)
    ensures !targetSafe ==>
              !report.pass && exists last: nat :: last < |calls| && Abandoned(calls, last)
  {
    hide Good;
    var execution := new Execution(manifest, adapter);
    execution.RunWorkloads();
    execution.RunFaults();
    execution.RunPrivacyCases();
    // The coverage check of the original cannot fail.
    assert |execution.cases| == |manifest.profiles| * |manifest.ramps| + |manifest.faults| + |manifest.privacyCases|;
    VerdictIsTheAdapters(manifest, execution.calls, adapter, execution.failures != [], execution.seen);
    calls, targetSafe := execution.calls, execution.targetSafe;
    report := Report(execution.failures == [], execution.cases, execution.failures);
  }
}
