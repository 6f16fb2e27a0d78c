/**
 Lifecycle plans and the authorization of their execution: `build_plan`,
 `authorize_execution` and the authorization check of a batch
 (scripts/lifecycle_archive.py). Text is held as its UTF-8 bytes.
 */
module Plans {
  import opened Wrappers
  import opened Encoding

  function Ascii(text: string): (r: Bytes)
    ensures |r| == |text|
  {
    seq(|text|, i requires 0 <= i < |text| => text[i] as int % 256)
  }

  // ----- the policy and the plan -----

  datatype Entry = Entry(isProtected: bool, terminalAction: Blob, approved: bool, reference: Blob)

  /** The approval that covers the whole manifest, and its entries by store. */
  datatype PolicySnapshot = PolicySnapshot(
    policyId: Blob, schemaVersion: int, approved: bool, rulesEnabled: bool, reference: Blob,
    entries: map<Blob, Entry>, checksum: Blob)

  datatype Budget = Budget(rows: int, bytes: int, time: int)

  datatype Request = Request(storeId: Blob, action: Blob, cutoff: Blob, cursor: Blob, upper: Blob)

  /** A plan is planned or blocked. */
  datatype Plan = Plan(
    jobId: Blob, jobKey: Blob, manifestChecksum: Blob, storeId: Blob, action: Blob, approval: Blob,
    budget: Budget, dryRun: bool, blocked: bool)

  const MAX_ROW_BUDGET := 256
  const MAX_BYTE_BUDGET := 1024 * 1024
  const MAX_TIME_BUDGET := 500000

  const DESTRUCTIVE_ACTIONS: set<Bytes> := {
    Ascii("archive"), Ascii("purge"), Ascii("pseudonymize"), Ascii("cascade"), Ascii("restore_tombstone")}

  predicate InBounds(budget: Budget) {
    && 1 <= budget.rows <= MAX_ROW_BUDGET && 1 <= budget.bytes <= MAX_BYTE_BUDGET
    && 1 <= budget.time <= MAX_TIME_BUDGET
  }

  predicate LowerCase(b: Byte) {
    97 <= b <= 122
  }

  /** `[a-z_]+:[a-z0-9_*.-]+` */
  predicate IsStoreId(id: Blob) {
    exists colon | 0 < colon < |id| - 1 ::
      && id[colon] == 58
      && (forall b | b in id[..colon] :: LowerCase(b) || b == 95)
      && (forall b | b in id[colon + 1..] :: LowerCase(b) || 48 <= b <= 57 || b in {95, 42, 46, 45})
  }

  predicate IsPending(reference: Blob) {
    Ascii("PENDING") <= reference
  }

  datatype Reason = UnknownStore | ProtectedStore | PolicyActionMismatch | EntryApprovalMissing | GlobalApprovalDisabled

  function EntryReasons(entry: Entry, action: Blob): set<Reason> {
    (if entry.isProtected then {ProtectedStore} else {})
    + (if entry.terminalAction != action then {PolicyActionMismatch} else {})
    + if !entry.approved || IsPending(entry.reference) then {EntryApprovalMissing} else {}
  }

  /** Why a plan is blocked. */
  function Reasons(snapshot: PolicySnapshot, request: Request): set<Reason> {
    (if request.storeId in snapshot.entries then EntryReasons(snapshot.entries[request.storeId], request.action)
     else {UnknownStore})
    + if snapshot.approved && snapshot.rulesEnabled then {} else {GlobalApprovalDisabled}
  }

  function ApprovalReference(snapshot: PolicySnapshot, request: Request): Blob {
    if request.storeId in snapshot.entries then snapshot.entries[request.storeId].reference
    else Ascii("PENDING-CONTROLLER-DECISION")
  }

  function JobFields(snapshot: PolicySnapshot, request: Request): seq<Blob> {
    [snapshot.policyId, Decimal(snapshot.schemaVersion), snapshot.checksum, request.storeId, request.action,
     request.cutoff, request.cursor, request.upper]
  }

  /** `build_plan`; None stands for the exception. */
  function BuildPlan(hash: Hash, snapshot: PolicySnapshot, request: Request, budget: Budget, dryRun: bool): Option<Plan>
  {
    if !InBounds(budget) || !IsStoreId(request.storeId) || request.action !in DESTRUCTIVE_ACTIONS
       || request.cutoff == [] || request.upper == [] then None
    else
      var jobKey := StableKey(hash, JobFields(snapshot, request));
      Some(Plan(jobKey[..16], jobKey, snapshot.checksum, request.storeId, request.action,
                ApprovalReference(snapshot, request), budget, dryRun, Reasons(snapshot, request) != {}))
  }

  // ----- authorization -----

  datatype ExecutionAuthorization = ExecutionAuthorization(
    jobId: Blob, manifestChecksum: Blob, approval: Blob,
    environment: Blob, host: Blob, role: Blob, token: Digest)

  /** `str.lower`, of which nothing is used but that it leaves the allowed targets alone. */
  type Lower = Blob -> Blob

  const ENVIRONMENTS: set<Bytes> := {Ascii("local"), Ascii("development"), Ascii("dev"), Ascii("test")}
  const HOSTS: set<Bytes> := {Ascii("127.0.0.1"), Ascii("localhost"), Ascii("::1")}
  const ADMIN: Bytes := Ascii("lifecycle-admin")

  predicate Allowed(environment: Blob, host: Blob, role: Blob) {
    environment in ENVIRONMENTS && host in HOSTS && role == ADMIN
  }

  ghost predicate KeepsTargets(lower: Lower) {
    forall name: Blob | name in ENVIRONMENTS + HOSTS :: lower(name) == name
  }

  function TokenFields(plan: Plan, environment: Blob, host: Blob, role: Blob): seq<Blob> {
    [plan.jobKey, plan.manifestChecksum, plan.approval, environment, host, role]
  }

  /** The policy still stands behind the plan. */
  predicate Supports(snapshot: PolicySnapshot, plan: Plan) {
    && snapshot.approved && snapshot.rulesEnabled && !IsPending(snapshot.reference)
    && plan.storeId in snapshot.entries
    && var entry := snapshot.entries[plan.storeId];
       && !entry.isProtected && entry.terminalAction == plan.action
       && snapshot.checksum == plan.manifestChecksum && entry.reference == plan.approval
  }

  /** `authorize_execution`; None stands for the exception. */
  function AuthorizeExecution(hash: Hash, lower: Lower, snapshot: PolicySnapshot, plan: Plan,
                              environment: Blob, host: Blob, role: Blob): Option<ExecutionAuthorization> {
    if plan.dryRun || plan.blocked || !Allowed(lower(environment), lower(host), role) || !Supports(snapshot, plan) then
      None
    else
      Some(ExecutionAuthorization(
        plan.jobId, plan.manifestChecksum, plan.approval, lower(environment), lower(host), role,
        StableKey(hash, TokenFields(plan, lower(environment), lower(host), role))))
  }

  /** What a batch that may mutate demands of its authorization. */
  predicate Authorized(hash: Hash, plan: Plan, authorization: Option<ExecutionAuthorization>) {
    match authorization
    case None => false
    case Some(a) =>
      && a.jobId == plan.jobId && a.manifestChecksum == plan.manifestChecksum && a.approval == plan.approval
      && Allowed(a.environment, a.host, a.role)
      && a.token == StableKey(hash, TokenFields(plan, a.environment, a.host, a.role))
  }

  /**
   The batch accepts exactly the authorizations that `authorize_execution` returns for its
   plan under some policy. Which policy that was, the batch cannot tell: of the policy the
   token covers the checksum and the entry's approval reference only.
   */
  lemma {:induction false} AuthorizedIffIssued(hash: Hash, lower: Lower, plan: Plan, a: ExecutionAuthorization)
    requires KeepsTargets(lower) && !plan.dryRun && !plan.blocked
    ensures Authorized(hash, plan, Some(a)) <==>
            exists snapshot, environment, host, role ::
              AuthorizeExecution(hash, lower, snapshot, plan, environment, host, role) == Some(a)
  {
    hide Ascii, TokenFields;
    if Authorized(hash, plan, Some(a)) {
      var entry := Entry(false, plan.action, true, plan.approval);
      var snapshot := PolicySnapshot([], 0, true, true, [], map[plan.storeId := entry], plan.manifestChecksum);
      EmptyIsNotPending();
      assert lower(a.environment) == a.environment && lower(a.host) == a.host;
      assert AuthorizeExecution(hash, lower, snapshot, plan, a.environment, a.host, a.role) == Some(a);
    }
  }

  lemma {:induction false} EmptyIsNotPending()
    ensures !IsPending([])
  {
    assert |Ascii("PENDING")| == 7;
  }

  /**
   A plan that may run can be authorized for an allowed target under the policy it was
   built from, unless the reference of the global approval is still pending:
   `build_plan` does not look at that reference.
   */
  lemma {:induction false} PlannedIsAuthorizedIff(hash: Hash, lower: Lower, snapshot: PolicySnapshot, request: Request,
                                                  budget: Budget, environment: Blob, host: Blob)
    requires Allowed(lower(environment), lower(host), ADMIN)
    requires BuildPlan(hash, snapshot, request, budget, false).Some?
    requires !BuildPlan(hash, snapshot, request, budget, false).value.blocked
    ensures AuthorizeExecution(hash, lower, snapshot, BuildPlan(hash, snapshot, request, budget, false).value,
                               environment, host, ADMIN).Some?
            <==> !IsPending(snapshot.reference)
  {
    hide Ascii, TokenFields, JobFields, IsStoreId, IsPending;
    assert GlobalApprovalDisabled !in Reasons(snapshot, request) && UnknownStore !in Reasons(snapshot, request);
    assert ProtectedStore !in Reasons(snapshot, request) && PolicyActionMismatch !in Reasons(snapshot, request);
  }

  /** A policy whose global approval is in force under a pending reference plans a batch that may run. */
  lemma {:induction false} PendingReferenceIsPlanned(hash: Hash)
    ensures exists snapshot, request, budget ::
              && BuildPlan(hash, snapshot, request, budget, false).Some?
              && !BuildPlan(hash, snapshot, request, budget, false).value.blocked && IsPending(snapshot.reference)
  {
    var id: Blob, action: Blob, text: Blob := [97, 58, 97], Ascii("purge"), [49];
    var entry := Entry(false, action, true, text);
    var snapshot := PolicySnapshot(text, 1, true, true, Ascii("PENDING"), map[id := entry], text);
    var request, budget := Request(id, action, text, [], text), Budget(1, 1, 1);
    assert |Ascii("PENDING")| == 7;
    OneLetterStore();
    assert Reasons(snapshot, request) == {};
    hide IsStoreId, Reasons, StableKey, JobFields;
    assert BuildPlan(hash, snapshot, request, budget, false).Some?;
    assert IsPending(snapshot.reference);
  }

  lemma {:induction false} OneLetterStore()
    ensures IsStoreId([97, 58, 97])
  {
    var id: Blob := [97, 58, 97];
    assert id[..1] == [97] && id[1 + 1..] == [97];
    assert id[1] == 58;
  }

  /**
   An authorization issued for one plan opens a batch of another only if the two agree on
   the job, the policy and the approval; built plans then came from the same request.
   */
  lemma {:induction false} AuthorizationNamesTheRequest(
      hash: Hash, a: ExecutionAuthorization, from: PolicySnapshot, asked: Request, budget: Budget,
      to: PolicySnapshot, other: Request, otherBudget: Budget)
    requires BuildPlan(hash, from, asked, budget, false).Some? && BuildPlan(hash, to, other, otherBudget, false).Some?
    requires Authorized(hash, BuildPlan(hash, from, asked, budget, false).value, Some(a))
    requires Authorized(hash, BuildPlan(hash, to, other, otherBudget, false).value, Some(a))
    requires Distinguishes(hash, {
               Frames(TokenFields(BuildPlan(hash, from, asked, budget, false).value, a.environment, a.host, a.role)),
               Frames(TokenFields(BuildPlan(hash, to, other, otherBudget, false).value, a.environment, a.host,
                                  a.role))})
    requires Distinguishes(hash, {Frames(JobFields(from, asked)), Frames(JobFields(to, other))})
    ensures asked == other && from.checksum == to.checksum
    ensures ApprovalReference(from, asked) == ApprovalReference(to, other)
  {
    var p, q := BuildPlan(hash, from, asked, budget, false).value, BuildPlan(hash, to, other, otherBudget, false).value;
    hide Frames, Ascii, IsStoreId, Reasons, Decimal;
    StableKeyIdentifies(hash, TokenFields(p, a.environment, a.host, a.role),
                        TokenFields(q, a.environment, a.host, a.role));
    assert p.jobKey == TokenFields(p, a.environment, a.host, a.role)[0] ==
             TokenFields(q, a.environment, a.host, a.role)[0] == q.jobKey;
    StableKeyIdentifies(hash, JobFields(from, asked), JobFields(to, other));
    var x, y := JobFields(from, asked), JobFields(to, other);
    assert x[3] == y[3] && x[4] == y[4] && x[5] == y[5] && x[6] == y[6] && x[7] == y[7];
  }
}
