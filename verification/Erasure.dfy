/**
 Account erasure (scripts/account_erasure.py): the request's evidence, the coordinator's
 calls and the tombstone ledger that several requests share. A refused call leaves behind
 what it had already assigned.
 */
module Erasure {
  import opened Wrappers

  type Text = string

  datatype Status = Pending | Fenced | Drained | Applying | Verifying | Tombstoned | Complete | Cancelled

  datatype Evidence = Evidence(action: Text, affected: int, remaining: int, reconciled: bool, complete: bool)

  datatype Tombstone = Tombstone(requestId: Text, scope: Text, token: Text, manifest: Text, completedAt: int)

  datatype Request = Request(
    id: Text, scope: Text, token: Text, manifest: Text, status: Status,
    stores: map<Text, Evidence>, fence: Option<int>, confirmed: bool)

  type Ledger = map<Text, Tombstone>

  /** Requests in flight over one ledger. */
  datatype System = System(requests: seq<Request>, ledger: Ledger)

  datatype Call =
    | Cancel
    | Confirm(phrase: Text)
    | Fence(revision: int, closed: bool)
    | Drain(snapshots: int, commands: int, valuesReconciled: bool)
    | Apply(store: Text, affected: int, remaining: int, reconciled: bool, viaDomainCommand: bool)
    | Verify
    | Commit(completedAt: int)
    | Finalize(credentials: int, loadable: bool)

  const RETAIN: Text := "retain"

  // ----- text -----

  function Lower(s: Text): (r: Text)
    ensures |r| == |s|
  {
    seq(|s|, i requires 0 <= i < |s| => if 'A' <= s[i] <= 'Z' then s[i] - 'A' + 'a' else s[i])
  }

  predicate Contains(s: Text, part: Text) {
    exists i | 0 <= i <= |s| :: part <= s[i..]
  }

  const VALUE_DOMAINS: set<Text> :=
      {"currency", "wallet", "bank", "item", "auction", "locker", "reward", "ownership", "ledger"}

  predicate ValueDomain(store: Text) {
    exists name | name in VALUE_DOMAINS :: Contains(Lower(store), name)
  }

  function Phrase(id: Text): Text {
    "ERASE " + if |id| <= 8 then id else id[..8]
  }

  // ----- one call -----

  /** The checks `apply` makes before it records anything. */
  predicate MayApply(r: Request, call: Call)
    requires call.Apply?
  {
    && r.status in {Drained, Applying} && call.store in r.stores && call.affected >= 0 && call.remaining >= 0
    && (ValueDomain(call.store) ==> call.viaDomainCommand)
    && (r.stores[call.store].action == RETAIN ==> call.affected == 0)
    && (r.stores[call.store].action != RETAIN ==> call.remaining == 0)
  }

  predicate SameEvidence(e: Evidence, call: Call)
    requires call.Apply?
  {
    e.affected == call.affected && e.remaining == call.remaining && e.reconciled == call.reconciled
  }

  function ApplyStep(r: Request, call: Call): (Request, bool)
    requires call.Apply?
  {
    if !MayApply(r, call) then (r, false)
    else
      var e := r.stores[call.store];
      if e.complete then (r, SameEvidence(e, call))
      else
        var complete := call.reconciled && call.remaining == 0;
        var recorded := r.(stores := r.stores[call.store :=
                                              Evidence(e.action, call.affected, call.remaining, call.reconciled,
                                                       complete)]);
        (if complete then recorded.(status := Applying) else recorded, complete)
  }

  predicate Settled(e: Evidence) {
    e.complete && e.reconciled && e.remaining == 0
  }

  predicate AllSettled(stores: map<Text, Evidence>) {
    forall store | store in stores :: Settled(stores[store])
  }

  function TombstoneOf(r: Request, completedAt: int): Tombstone {
    Tombstone(r.id, r.scope, r.token, r.manifest, completedAt)
  }

  function CommitStep(r: Request, ledger: Ledger, completedAt: int): (Request, Ledger, bool) {
    if r.status.Tombstoned? && r.scope in ledger then (r, ledger, true)
    else if !r.status.Verifying? then (r, ledger, false)
    else
      var tombstone := TombstoneOf(r, completedAt);
      if r.scope !in ledger then (r.(status := Tombstoned), ledger[r.scope := tombstone], true)
      else if ledger[r.scope] != tombstone then (r, ledger, false)
      else (r.(status := Tombstoned), ledger, true)
  }

  /** A call on one request; only `Commit` writes the ledger. */
  function RequestStep(r: Request, ledger: Ledger, call: Call): (Request, Ledger, bool) {
    match call
    case Cancel => if r.status.Pending? then (r.(status := Cancelled), ledger, true) else (r, ledger, false)
    case Confirm(phrase) =>
      if r.status.Pending? && phrase == Phrase(r.id) then (r.(confirmed := true), ledger, true) else (r, ledger, false)
    case Fence(revision, closed) =>
      if r.status.Pending? && r.confirmed && revision >= 1 && closed then
        (r.(fence := Some(revision), status := Fenced), ledger, true)
      else (r, ledger, false)
    case Drain(snapshots, commands, valuesReconciled) =>
      if r.status.Fenced? && snapshots == 0 && commands == 0 && valuesReconciled then
        (r.(status := Drained), ledger, true)
      else (r, ledger, false)
    case Apply(_, _, _, _, _) =>
      var (after, ok) := ApplyStep(r, call);
      (after, ledger, ok)
    case Verify =>
      if r.status.Applying? && AllSettled(r.stores) then (r.(status := Verifying), ledger, true) else (r, ledger, false)
    case Commit(completedAt) => CommitStep(r, ledger, completedAt)
    case Finalize(credentials, loadable) =>
      if r.status.Tombstoned? && credentials == 0 && !loadable then (r.(status := Complete), ledger, true)
      else (r, ledger, false)
  }

  // ----- runs -----

  datatype Action = Action(request: nat, call: Call)

  function Step(s: System, action: Action): (r: System)
    ensures |r.requests| == |s.requests|
  {
    if action.request >= |s.requests| then s
    else
      var (r, ledger, _) := RequestStep(s.requests[action.request], s.ledger, action.call);
      System(s.requests[action.request := r], ledger)
  }

  function Run(s: System, actions: seq<Action>): (r: System)
    ensures |r.requests| == |s.requests|
    decreases |actions|
  {
    if actions == [] then s else Run(Step(s, actions[0]), actions[1..])
  }

  /** As `create_request` leaves it. */
  ghost predicate Created(r: Request) {
    && r.status.Pending? && r.fence.None? && !r.confirmed
    && forall store | store in r.stores :: r.stores[store] == Evidence(r.stores[store].action, 0, 0, false, false)
  }

  const FENCED: set<Status> := {Fenced, Drained, Applying, Verifying, Tombstoned, Complete}
  const DONE: set<Status> := {Verifying, Tombstoned, Complete}

  /** Evidence never overstates: complete means settled, and a retained store is never affected. */
  predicate Truthful(e: Evidence) {
    && (e.complete ==> e.reconciled && e.remaining == 0) && (e.action == RETAIN ==> e.affected == 0)
    && e.affected >= 0 && e.remaining >= 0 && (e.action != RETAIN ==> e.remaining == 0)
  }

  ghost predicate RequestInv(r: Request, ledger: Ledger) {
    && (r.status in FENCED <==> r.fence.Some?) && (r.fence.Some? ==> r.fence.value >= 1 && r.confirmed)
    && (forall store | store in r.stores :: Truthful(r.stores[store]))
    && (r.status in DONE ==> r.stores != map[] && AllSettled(r.stores))
    && (r.status.Applying? ==> exists store :: store in r.stores && r.stores[store].complete)
    && (r.status in {Pending, Fenced, Drained, Cancelled} ==>
          forall store | store in r.stores :: !r.stores[store].complete)
    && (r.status in {Tombstoned, Complete} ==>
          r.scope in ledger && ledger[r.scope] == TombstoneOf(r, ledger[r.scope].completedAt))
  }

  ghost predicate Grows(before: Ledger, after: Ledger) {
    forall scope | scope in before :: scope in after && after[scope] == before[scope]
  }

  ghost predicate Inv(s: System) {
    && (forall i | 0 <= i < |s.requests| :: RequestInv(s.requests[i], s.ledger))
    && forall scope | scope in s.ledger :: s.ledger[scope].scope == scope
  }

  lemma {:induction false} ApplyKeepsInv(r: Request, ledger: Ledger, call: Call)
    requires RequestInv(r, ledger) && call.Apply?
    ensures RequestInv(ApplyStep(r, call).0, ledger)
  {
    hide ValueDomain;
    var (after, ok) := ApplyStep(r, call);
    if after != r {
      assert after.stores[call.store].complete ==> after.status.Applying?;
      if r.status.Applying? {
        var store :| store in r.stores && r.stores[store].complete;
        assert store != call.store;
        assert after.stores[store].complete;
      }
    }
  }

  lemma {:induction false} StepKeepsRequest(r: Request, ledger: Ledger, call: Call)
    requires RequestInv(r, ledger)
    ensures var (after, more, _) := RequestStep(r, ledger, call); RequestInv(after, more) && Grows(ledger, more)
  {
    if call.Apply? {
      ApplyKeepsInv(r, ledger, call);
    }
  }

  lemma {:induction false} GrownKeepsRequest(r: Request, before: Ledger, after: Ledger)
    requires RequestInv(r, before) && Grows(before, after)
    ensures RequestInv(r, after)
  {
  }

  lemma {:induction false} StepKeepsInv(s: System, action: Action)
    requires Inv(s)
    ensures Inv(Step(s, action)) && Grows(s.ledger, Step(s, action).ledger)
  {
    hide RequestInv, RequestStep;
    if action.request < |s.requests| {
      StepKeepsRequest(s.requests[action.request], s.ledger, action.call);
      LedgerKeyed(s.requests[action.request], s.ledger, action.call);
      var next := Step(s, action);
      forall i | 0 <= i < |next.requests|
        ensures RequestInv(next.requests[i], next.ledger)
      {
        if i != action.request {
          GrownKeepsRequest(s.requests[i], s.ledger, next.ledger);
        }
      }
    }
  }

  lemma {:induction false} LedgerKeyed(r: Request, ledger: Ledger, call: Call)
    requires forall scope | scope in ledger :: ledger[scope].scope == scope
    ensures forall scope | scope in RequestStep(r, ledger, call).1 ::
              RequestStep(r, ledger, call).1[scope].scope == scope
  {
  }

  lemma {:induction false} RunKeepsInv(s: System, actions: seq<Action>)
    requires Inv(s)
    ensures Inv(Run(s, actions)) && Grows(s.ledger, Run(s, actions).ledger)
    decreases |actions|
  {
    hide Inv, Step;
    if actions != [] {
      StepKeepsInv(s, actions[0]);
      RunKeepsInv(Step(s, actions[0]), actions[1..]);
    }
  }

  lemma {:induction false} RunSplits(s: System, a: seq<Action>, b: seq<Action>)
    ensures Run(s, a + b) == Run(Run(s, a), b)
    decreases |a|
  {
    if a == [] {
      assert a + b == b;
    } else {
      assert (a + b)[1..] == a[1..] + b;
      RunSplits(Step(s, a[0]), a[1..], b);
    }
  }

  /** What a completed erasure has behind it. */
  ghost predicate Erased(r: Request, ledger: Ledger) {
    && r.fence.Some? && r.fence.value >= 1 && r.confirmed
    && r.stores != map[]
    && (forall store | store in r.stores ::
          Settled(r.stores[store]) && (r.stores[store].action == RETAIN ==> r.stores[store].affected == 0))
    && r.scope in ledger && ledger[r.scope].requestId == r.id && ledger[r.scope].token == r.token
  }

  /**
   Whatever the calls and however many requests share the ledger: a request that reaches
   COMPLETE is fenced, all its stores are settled, retained stores are untouched, and from
   then on, after any further calls, no restored record of its scope passes the preflight.
   */
  lemma {:induction false} CompleteMeansErased(s: System, earlier: seq<Action>, later: seq<Action>, i: nat,
                                               records: seq<Record>)
    requires (forall r | r in s.requests :: Created(r)) && s.ledger == map[]
    requires i < |s.requests| && Run(s, earlier).requests[i].status.Complete?
    ensures var r := Run(s, earlier).requests[i];
            && Erased(r, Run(s, earlier).ledger)
            && Run(s, earlier + later).requests[i] == r
            && forall record | record in Survivors(records, Run(s, earlier + later).ledger) ::
                 record.scope != Some(r.scope)
  {
    hide Step;
    assert Inv(s) by {
      forall k | 0 <= k < |s.requests|
        ensures RequestInv(s.requests[k], s.ledger)
      {
        assert s.requests[k] in s.requests;
      }
    }
    RunKeepsInv(s, earlier);
    RunSplits(s, earlier, later);
    RunKeepsInv(Run(s, earlier), later);
    FinalIsFinal(Run(s, earlier), later, i);
    SurvivorsAreUnscoped(records, Run(s, earlier + later).ledger);
  }

  /** Completed and cancelled requests never change again. */
  lemma {:induction false} FinalIsFinal(s: System, actions: seq<Action>, i: nat)
    requires i < |s.requests| && s.requests[i].status in {Complete, Cancelled}
    ensures Run(s, actions).requests[i] == s.requests[i]
    decreases |actions|
  {
    if actions != [] {
      OneStepOn(s, actions[0], i);
      FinalIsFinal(Step(s, actions[0]), actions[1..], i);
    }
  }

  lemma {:induction false} OneStepOn(s: System, action: Action, i: nat)
    requires i < |s.requests|
    ensures s.requests[i].status in {Complete, Cancelled} ==> Step(s, action).requests[i] == s.requests[i]
    ensures s.requests[i].fence.Some? && !s.requests[i].status.Pending? ==>
              Step(s, action).requests[i].fence == s.requests[i].fence
    ensures s.requests[i].status in DONE ==>
              Step(s, action).requests[i].stores == s.requests[i].stores && Step(s, action).requests[i].status in DONE
    ensures Step(s, action).requests[i].id == s.requests[i].id
            && Step(s, action).requests[i].scope == s.requests[i].scope
  {
  }

  /** A fence, once taken, stays at its revision and closes cancellation for good. */
  lemma {:induction false} FenceIsForever(s: System, actions: seq<Action>, i: nat)
    requires Inv(s) && i < |s.requests| && s.requests[i].fence.Some?
    ensures Run(s, actions).requests[i].fence == s.requests[i].fence
    ensures !Run(s, actions).requests[i].status.Cancelled?
    decreases |actions|
  {
    hide Step;
    if actions != [] {
      StepKeepsInv(s, actions[0]);
      OneStepOn(s, actions[0], i);
      FenceIsForever(Step(s, actions[0]), actions[1..], i);
    }
  }

  /** From verification on, the evidence is frozen. */
  lemma {:induction false} VerifiedEvidenceIsFrozen(s: System, actions: seq<Action>, i: nat)
    requires i < |s.requests| && s.requests[i].status in DONE
    ensures Run(s, actions).requests[i].stores == s.requests[i].stores
    ensures Run(s, actions).requests[i].status in DONE
    decreases |actions|
  {
    hide Step;
    if actions != [] {
      OneStepOn(s, actions[0], i);
      VerifiedEvidenceIsFrozen(Step(s, actions[0]), actions[1..], i);
    }
  }

  lemma {:induction false} IdentityIsFixed(s: System, actions: seq<Action>, i: nat)
    requires i < |s.requests|
    ensures Run(s, actions).requests[i].id == s.requests[i].id
            && Run(s, actions).requests[i].scope == s.requests[i].scope
    decreases |actions|
  {
    hide Step;
    if actions != [] {
      OneStepOn(s, actions[0], i);
      IdentityIsFixed(Step(s, actions[0]), actions[1..], i);
    }
  }

  /** Once a scope is tombstoned by one request, no run tombstones another request of that scope. */
  lemma {:induction false} OneRequestPerTombstone(s: System, actions: seq<Action>, i: nat)
    requires Inv(s) && i < |s.requests| && s.requests[i].scope in s.ledger
    requires s.ledger[s.requests[i].scope].requestId != s.requests[i].id
    ensures Run(s, actions).requests[i].status !in {Tombstoned, Complete}
  {
    RunKeepsInv(s, actions);
    IdentityIsFixed(s, actions, i);
  }

  /**
   A refused call changes nothing, with one exception: an `apply` that passed every check on
   an incomplete store but did not reconcile has overwritten that store's evidence. The
   status, the ledger and every other store stay as they were.
   */
  lemma {:induction false} RefusalLeavesEvidenceOnly(r: Request, ledger: Ledger, call: Call)
    requires !RequestStep(r, ledger, call).2
    ensures var (after, more, _) := RequestStep(r, ledger, call);
            && more == ledger && after == r.(stores := after.stores)
            && (after != r ==>
                  && call.Apply? && MayApply(r, call) && !r.stores[call.store].complete
                  && !(call.reconciled && call.remaining == 0)
                  && after.stores == r.stores[call.store := after.stores[call.store]])
  {
  }

  /** A retained store that still holds identifiers keeps its request from ever being verified. */
  lemma {:induction false} RetainedIdentifiersBlock(r: Request, ledger: Ledger, call: Call)
    requires RequestInv(r, ledger) && call.Apply? && call.remaining > 0
    ensures !RequestStep(r, ledger, call).2 || r.stores[call.store].complete
    ensures MayApply(r, call) ==> !RequestStep(r, ledger, call).2 && r.stores[call.store].action == RETAIN
  {
  }

  // ----- restores -----

  datatype Record = Record(scope: Option<Text>, payload: int)

  function Survivors(records: seq<Record>, ledger: Ledger): (r: seq<Record>) {
    if records == [] then []
    else
      var last := records[|records| - 1];
      Survivors(records[..|records| - 1], ledger)
      + if last.scope.Some? && last.scope.value in ledger then [] else [last]
  }

  lemma {:induction false} SurvivorsAreUnscoped(records: seq<Record>, ledger: Ledger)
    ensures forall record | record in Survivors(records, ledger) ::
              record in records && (record.scope.Some? ==> record.scope.value !in ledger)
  {
    if records != [] {
      SurvivorsAreUnscoped(records[..|records| - 1], ledger);
    }
  }

  /** Nothing else is lost: every other record survives as often as it was restored, in order. */
  lemma {:induction false} SurvivorsAreTheRest(records: seq<Record>, ledger: Ledger, record: Record)
    requires record.scope.Some?
    ensures multiset(Survivors(records, ledger))[record] ==
              if record.scope.value in ledger then 0 else multiset(records)[record]
  {
    if records != [] {
      SurvivorsAreTheRest(records[..|records| - 1], ledger, record);
      assert records == records[..|records| - 1] + [records[|records| - 1]];
    }
  }

  const RESTORE_SOURCES: set<Text> :=
    {"database_backup", "pfile_backup", "conversion_backup", "journal_replay", "cache_rebuild", "export_spool"}

  predicate HexDigest(s: Text) {
    |s| == 64 && forall c | c in s :: '0' <= c <= '9' || 'a' <= c <= 'f'
  }

  // ----- the objects -----

  class ErasureRequest {
    const id: Text
    const scope: Text
    const token: Text
    const manifest: Text
    var status: Status
    var stores: map<Text, Evidence>
    var fence: Option<int>
    var confirmed: bool

    function Snapshot(): Request
      reads this
    {
      Request(id, scope, token, manifest, status, stores, fence, confirmed)
    }

    constructor (id: Text, scope: Text, token: Text, manifest: Text, actions: map<Text, Text>)
      ensures Created(Snapshot()) && this.scope == scope && this.id == id
      ensures stores.Keys == actions.Keys && forall store | store in stores :: stores[store].action == actions[store]
    {
      this.id, this.scope, this.token, this.manifest := id, scope, token, manifest;
      status, fence, confirmed := Pending, None, false;
      stores := map store | store in actions :: Evidence(actions[store], 0, 0, false, false);
    }
  }

  class ErasureCoordinator {
    const request: ErasureRequest

    constructor (request: ErasureRequest)
      ensures this.request == request
    {
      this.request := request;
    }

    method Cancel() returns (ok: bool)
      modifies request
      ensures forall ledger :: (request.Snapshot(), ledger, ok) ==
                RequestStep(old(request.Snapshot()), ledger, Call.Cancel)
    {
      if !request.status.Pending? {
        return false;
      }
      request.status := Cancelled;
      return true;
    }

    method Confirm(phrase: Text) returns (ok: bool)
      modifies request
      ensures forall ledger :: (request.Snapshot(), ledger, ok) ==
                RequestStep(old(request.Snapshot()), ledger, Call.Confirm(phrase))
    {
      if !request.status.Pending? || phrase != Phrase(request.id) {
        return false;
      }
      request.confirmed := true;
      return true;
    }

    method Fence(revision: int, closed: bool) returns (ok: bool)
      modifies request
      ensures forall ledger :: (request.Snapshot(), ledger, ok) ==
                RequestStep(old(request.Snapshot()), ledger, Call.Fence(revision, closed))
    {
      if !request.status.Pending? || !request.confirmed || revision < 1 || !closed {
        return false;
      }
      request.fence := Some(revision);
      request.status := Fenced;
      return true;
    }

    method Drain(snapshots: int, commands: int, reconciled: bool) returns (ok: bool)
      modifies request
      ensures forall ledger ::
                (request.Snapshot(), ledger, ok) ==
                    RequestStep(old(request.Snapshot()), ledger, Call.Drain(snapshots, commands, reconciled))
    {
      if !request.status.Fenced? || snapshots != 0 || commands != 0 || !reconciled {
        return false;
      }
      request.status := Drained;
      return true;
    }

    method Apply(store: Text, affected: int, remaining: int, reconciled: bool, viaDomainCommand: bool)
      returns (ok: bool)
      modifies request
      ensures (request.Snapshot(), ok) ==
                ApplyStep(old(request.Snapshot()), Call.Apply(store, affected, remaining, reconciled, viaDomainCommand))
    {
      hide ValueDomain;
      if request.status !in {Drained, Applying} || store !in request.stores || affected < 0 || remaining < 0 {
        return false;
      }
      if ValueDomain(store) && !viaDomainCommand {
        return false;
      }
      var evidence := request.stores[store];
      if (evidence.action == RETAIN && affected != 0) || (evidence.action != RETAIN && remaining != 0) {
        return false;
      }
      if evidence.complete {
        return evidence.affected == affected && evidence.remaining == remaining && evidence.reconciled == reconciled;
      }
      evidence := evidence.(affected := affected);
      evidence := evidence.(remaining := remaining);
      evidence := evidence.(reconciled := reconciled);
      evidence := evidence.(complete := reconciled && remaining == 0);
      request.stores := request.stores[store := evidence];
      if !evidence.complete {
        return false;
      }
      request.status := Applying;
      return true;
    }

    method Verify() returns (ok: bool)
      modifies request
      ensures forall ledger :: (request.Snapshot(), ledger, ok) ==
                RequestStep(old(request.Snapshot()), ledger, Call.Verify)
    {
      if !request.status.Applying? || !AllSettled(request.stores) {
        return false;
      }
      request.status := Verifying;
      return true;
    }
  }

  class TombstoneLedger {
    var byScope: Ledger

    constructor ()
      ensures byScope == map[]
    {
      byScope := map[];
    }

    method Commit(request: ErasureRequest, completedAt: int) returns (tombstone: Option<Tombstone>)
      modifies this, request
      ensures (request.Snapshot(), byScope, tombstone.Some?) ==
                CommitStep(old(request.Snapshot()), old(byScope), completedAt)
      ensures tombstone.Some? ==> request.scope in byScope && tombstone.value == byScope[request.scope]
    {
      if request.status.Tombstoned? && request.scope in byScope {
        return Some(byScope[request.scope]);
      }
      if !request.status.Verifying? {
        return None;
      }
      var made := Tombstone(request.id, request.scope, request.token, request.manifest, completedAt);
      if request.scope !in byScope {
        byScope := byScope[request.scope := made];
      }
      if byScope[request.scope] != made {
        return None;
      }
      request.status := Tombstoned;
      return Some(made);
    }

    /** `restore_preflight`; None stands for the exceptions. */
    method RestorePreflight(source: Text, generation: Text, records: seq<Record>)
      returns (filtered: Option<seq<Record>>)
      ensures filtered.None? <==>
              source !in RESTORE_SOURCES || !HexDigest(generation)
                  || exists record :: record in records && record.scope.None?
      ensures filtered.Some? ==> filtered.value == Survivors(records, byScope)
    {
      if source !in RESTORE_SOURCES || !HexDigest(generation) {
        return None;
      }
      var kept: seq<Record> := [];
      for i := 0 to |records|
        invariant kept == Survivors(records[..i], byScope)
        invariant forall record | record in records[..i] :: record.scope.Some?
      {
        assert records[..i + 1][..i] == records[..i];
        if records[i].scope.None? {
          assert records[i] in records;
          return None;
        }
        if records[i].scope.value !in byScope {
          kept := kept + [records[i]];
        }
      }
      assert records[..|records|] == records;
      return Some(kept);
    }

    method Finalize(request: ErasureRequest, credentials: int, loadable: bool) returns (ok: bool)
      modifies request
      ensures forall ledger ::
                (request.Snapshot(), ledger, ok) ==
                    RequestStep(old(request.Snapshot()), ledger, Call.Finalize(credentials, loadable))
    {
      if !request.status.Tombstoned? || credentials != 0 || loadable {
        return false;
      }
      request.status := Complete;
      return true;
    }
  }
}
