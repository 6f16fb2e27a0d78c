/**
 Classification of frozen legacy item evidence
 (scripts/classify_legacy_item_quarantine.py): own defects, ancestry defects,
 and the one primary reason that is reported for a row.
 */
module Quarantine {
  import opened Wrappers
  import opened Chains
  import opened Ordering

  const MAX_DEPTH: nat := 32
  const MAX_UID: nat := 0xFFFF_FFFF_FFFF_FFFF

  /** A lowercase SHA-256 reference; digests have one width, so they order as numbers. */
  type Ref = nat

  datatype Table = LockerItems | PlayerItems

  datatype Prototype = PrototypeCurrent | PrototypeMissing | PrototypeArtifact

  datatype EvidenceRow = EvidenceRow(
    rowRef: Ref, sourceTable: Table, sourceRowId: nat, itemUid: nat, parentRef: Option<Ref>,
    ownerRef: Ref, ownerProven: bool, vnum: nat, prototype: Prototype, metadataFingerprint: Ref,
    metadataCandidates: nat, uidCandidates: nat, liveUidConflict: bool, evidenceRef: Ref)

  datatype Evidence = Evidence(allocatorNextUid: nat, liveUidFloor: nat, rows: seq<EvidenceRow>)

  datatype Reason =
    | Artifact | ConflictedOwner | UnknownPrototype | UidCollision | InsufficientMetadata
    | MissingAncestor | CrossOwner | Cycle | DepthExceeded | DependentAncestry

  datatype Primary = Recoverable | Rejected(reason: Reason)

  datatype Classification = Classification(row: EvidenceRow, primary: Primary, reasons: set<Reason>)

  const PRIMARY_ORDER: seq<Reason> := [
    Artifact, ConflictedOwner, UnknownPrototype, UidCollision, InsufficientMetadata,
    MissingAncestor, CrossOwner, Cycle, DepthExceeded]

  // ----- reading the evidence -----

  /** What `read_evidence` guarantees of the rows it returns. */
  ghost predicate DistinctRows(rows: seq<EvidenceRow>) {
    forall i, j | 0 <= i < j < |rows| ::
      && rows[i].rowRef != rows[j].rowRef
      && rows[i].evidenceRef != rows[j].evidenceRef
      && (rows[i].sourceTable, rows[i].sourceRowId) != (rows[j].sourceTable, rows[j].sourceRowId)
  }

  ghost predicate ValidEvidence(evidence: Evidence) {
    && evidence.rows != [] && DistinctRows(evidence.rows)
    && 1 <= evidence.allocatorNextUid <= MAX_UID && 1 <= evidence.liveUidFloor <= MAX_UID
    && forall i | 0 <= i < |evidence.rows| :: 1 <= evidence.rows[i].itemUid <= MAX_UID
  }

  /** The duplicate scan of `read_evidence`, over rows whose fields have the right shape. */
  method AdmitRows(raw: seq<EvidenceRow>) returns (rows: Option<seq<EvidenceRow>>)
    ensures rows.Some? <==> raw != [] && DistinctRows(raw)
    ensures rows.Some? ==> rows.value == raw
  {
    var references: set<Ref> := {};
    var evidenceReferences: set<Ref> := {};
    var sourceKeys: set<(Table, nat)> := {};
    for i := 0 to |raw|
      invariant references == set j | 0 <= j < i :: raw[j].rowRef
      invariant evidenceReferences == set j | 0 <= j < i :: raw[j].evidenceRef
      invariant sourceKeys == set j | 0 <= j < i :: (raw[j].sourceTable, raw[j].sourceRowId)
      invariant DistinctRows(raw[..i])
    {
      var sourceKey := (raw[i].sourceTable, raw[i].sourceRowId);
      if raw[i].rowRef in references || sourceKey in sourceKeys || raw[i].evidenceRef in evidenceReferences {
        return None;
      }
      references := references + {raw[i].rowRef};
      evidenceReferences := evidenceReferences + {raw[i].evidenceRef};
      sourceKeys := sourceKeys + {sourceKey};
      assert raw[..i + 1] == raw[..i] + [raw[i]];
    }
    assert raw[..|raw|] == raw;
    if raw == [] {
      return None;
    }
    return Some(raw);
  }

  /** `{row.row_ref: row for row in rows}`. */
  function Index(rows: seq<EvidenceRow>): (index: map<Ref, EvidenceRow>)
    ensures forall r | r in index :: index[r] in rows && index[r].rowRef == r
    ensures forall i | 0 <= i < |rows| :: rows[i].rowRef in index
  {
    if rows == [] then map[]
    else Index(rows[..|rows| - 1])[rows[|rows| - 1].rowRef := rows[|rows| - 1]]
  }

  lemma {:induction false} IndexFinds(rows: seq<EvidenceRow>, i: nat)
    requires DistinctRows(rows) && i < |rows|
    ensures rows[i].rowRef in Index(rows) && Index(rows)[rows[i].rowRef] == rows[i]
  {
    if i < |rows| - 1 {
      IndexFinds(rows[..|rows| - 1], i);
    }
  }

  ghost predicate IsIndex(rows: map<Ref, EvidenceRow>) {
    forall r | r in rows :: rows[r].rowRef == r
  }

  // ----- ancestry -----

  ghost function Parents(rows: map<Ref, EvidenceRow>): map<Ref, Option<Ref>> {
    map r | r in rows :: rows[r].parentRef
  }

  ghost predicate HasGraphReason(rows: map<Ref, EvidenceRow>, ref: Ref, reason: Reason, maximumDepth: nat)
    requires ref in rows
  {
    match reason
    case MissingAncestor => rows[ref].parentRef.Some? && rows[ref].parentRef.value !in rows
    case CrossOwner =>
      && rows[ref].parentRef.Some? && rows[ref].parentRef.value in rows
      && rows[rows[ref].parentRef.value].ownerRef != rows[ref].ownerRef
    case Cycle => CycleWithin(Parents(rows), ref, maximumDepth)
    case DepthExceeded => Simple(Parents(rows), ref, maximumDepth + 1)
    case _ => false
  }

  /** The inner walk of `_graph_reasons` from one start row. */
  method WalkAncestry(rows: map<Ref, EvidenceRow>, start: Ref, maximumDepth: nat) returns (found: set<Reason>)
    requires start in rows
    ensures found <= {Cycle, DepthExceeded}
    ensures Cycle in found <==> CycleWithin(Parents(rows), start, maximumDepth)
    ensures DepthExceeded in found <==> Simple(Parents(rows), start, maximumDepth + 1)
  {
    ghost var p := Parents(rows);
    var visited: set<Ref> := {};
    var current := Some(start);
    var depth := 0;
    found := {};
    while current.Some? && current.value in rows
      invariant current == Up(p, start, depth)
      invariant Simple(p, start, depth) && depth <= maximumDepth
      invariant visited == set i | 0 <= i < depth :: Up(p, start, i).value
      decreases maximumDepth - depth
    {
      WalkTrichotomy(p, start, maximumDepth);
      if current.value in visited {
        assert RepeatAt(p, start, depth);
        return {Cycle};
      }
      visited := visited + {current.value};
      depth := depth + 1;
      assert Simple(p, start, depth);
      if depth > maximumDepth {
        return {DepthExceeded};
      }
      current := rows[current.value].parentRef;
    }
    WalkTrichotomy(p, start, maximumDepth);
    if Up(p, start, depth).Some? && depth < maximumDepth {
      assert Up(p, start, depth + 1).None?;
      NoneStays(p, start, depth + 1, maximumDepth);
    } else if Up(p, start, depth).None? {
      NoneStays(p, start, depth, maximumDepth);
    }
  }

  /** `_graph_reasons`. */
  method GraphReasons(rows: map<Ref, EvidenceRow>, maximumDepth: nat) returns (reasons: map<Ref, set<Reason>>)
    ensures reasons.Keys == rows.Keys
    ensures forall ref, q | ref in rows :: q in reasons[ref] <==> HasGraphReason(rows, ref, q, maximumDepth)
  {
    reasons := map[];
    var todo := rows.Keys;
    while todo != {}
      invariant todo <= rows.Keys && reasons.Keys == rows.Keys - todo
      invariant forall ref, q | ref in reasons :: q in reasons[ref] <==> HasGraphReason(rows, ref, q, maximumDepth)
      decreases todo
    {
      var reference :| reference in todo;
      var row := rows[reference];
      var own: set<Reason> := {};
      if row.parentRef.Some? && row.parentRef.value !in rows {
        own := {MissingAncestor};
      } else if row.parentRef.Some? && rows[row.parentRef.value].ownerRef != row.ownerRef {
        own := {CrossOwner};
      }
      var walked := WalkAncestry(rows, reference, maximumDepth);
      reasons := reasons[reference := own + walked];
      todo := todo - {reference};
    }
  }

  // ----- classification -----

  /** A reason a row has by itself, before its ancestors' reasons count against it. */
  ghost predicate HasDirectReason(rows: map<Ref, EvidenceRow>, ref: Ref, reason: Reason, maximumDepth: nat)
    requires ref in rows
  {
    match reason
    case Artifact => rows[ref].prototype == PrototypeArtifact
    case ConflictedOwner => !rows[ref].ownerProven
    case UnknownPrototype => rows[ref].prototype == PrototypeMissing
    case UidCollision => rows[ref].uidCandidates != 1 || rows[ref].liveUidConflict
    case InsufficientMetadata => rows[ref].metadataCandidates != 1
    case _ => HasGraphReason(rows, ref, reason, maximumDepth)
  }

  ghost function DirectReasons(rows: map<Ref, EvidenceRow>, ref: Ref, maximumDepth: nat): set<Reason>
    requires ref in rows
  {
    set q: Reason | HasDirectReason(rows, ref, q, maximumDepth)
  }

  /** Some proper ancestor that can be reached has a direct reason. */
  ghost predicate TaintedAbove(rows: map<Ref, EvidenceRow>, ref: Ref, maximumDepth: nat) {
    exists k: nat :: k >= 1 && TaintedAt(rows, ref, k, maximumDepth)
  }

  ghost predicate TaintedAt(rows: map<Ref, EvidenceRow>, ref: Ref, k: nat, maximumDepth: nat) {
    var above := Up(Parents(rows), ref, k);
    above.Some? && above.value in rows && DirectReasons(rows, above.value, maximumDepth) != {}
  }

  ghost function Reasons(rows: map<Ref, EvidenceRow>, ref: Ref, maximumDepth: nat): set<Reason>
    requires ref in rows
  {
    if DirectReasons(rows, ref, maximumDepth) == {} && TaintedAbove(rows, ref, maximumDepth)
    then {DependentAncestry}
    else DirectReasons(rows, ref, maximumDepth)
  }

  /** `next(name for name in PRIMARY_ORDER if name in reasons)`; every other reason is in the order. */
  function FirstReason(order: seq<Reason>, reasons: set<Reason>): (reason: Reason)
    requires exists q :: q in order && q in reasons
    ensures reason in reasons
    ensures exists i :: 0 <= i < |order| && order[i] == reason && forall j | 0 <= j < i :: order[j] !in reasons
  {
    if order[0] in reasons then order[0] else FirstReason(order[1..], reasons)
  }

  function PrimaryOf(reasons: set<Reason>): Primary {
    if reasons == {} then Recoverable
    else if DependentAncestry in reasons then Rejected(DependentAncestry)
    else
      OrderIsComplete(reasons);
      Rejected(FirstReason(PRIMARY_ORDER, reasons))
  }

  lemma {:induction false} OrderIsComplete(reasons: set<Reason>)
    requires reasons != {} && DependentAncestry !in reasons
    ensures exists q :: q in PRIMARY_ORDER && q in reasons
  {
    var q :| q in reasons;
    match q
    case Artifact => assert PRIMARY_ORDER[0] == q;
    case ConflictedOwner => assert PRIMARY_ORDER[1] == q;
    case UnknownPrototype => assert PRIMARY_ORDER[2] == q;
    case UidCollision => assert PRIMARY_ORDER[3] == q;
    case InsufficientMetadata => assert PRIMARY_ORDER[4] == q;
    case MissingAncestor => assert PRIMARY_ORDER[5] == q;
    case CrossOwner => assert PRIMARY_ORDER[6] == q;
    case Cycle => assert PRIMARY_ORDER[7] == q;
    case DepthExceeded => assert PRIMARY_ORDER[8] == q;
  }

  ghost function Expected(rows: map<Ref, EvidenceRow>, maximumDepth: nat): map<Ref, Classification> {
    map ref | ref in rows :: Classification(
      rows[ref], PrimaryOf(Reasons(rows, ref, maximumDepth)), Reasons(rows, ref, maximumDepth))
  }

  /** Reasons in the alphabetical order of their names, the first component of the report order. */
  function PrimaryRank(primary: Primary): int {
    match primary
    case Recoverable => 8
    case Rejected(Artifact) => 0
    case Rejected(ConflictedOwner) => 1
    case Rejected(CrossOwner) => 2
    case Rejected(Cycle) => 3
    case Rejected(DependentAncestry) => 4
    case Rejected(DepthExceeded) => 5
    case Rejected(InsufficientMetadata) => 6
    case Rejected(MissingAncestor) => 7
    case Rejected(UidCollision) => 9
    case Rejected(UnknownPrototype) => 10
  }

  function TableRank(table: Table): int {
    if table == LockerItems then 0 else 1
  }

  function ReportKey(item: Classification): Key {
    Key(PrimaryRank(item.primary), TableRank(item.row.sourceTable), item.row.sourceRowId)
  }

  /** The direct reasons of one row: graph reasons joined by the row's own defects. */
  method JoinDirect(rows: map<Ref, EvidenceRow>, ref: Ref, graph: set<Reason>, ghost maximumDepth: nat)
    returns (reasons: set<Reason>)
    requires ref in rows
    requires forall q :: q in graph <==> HasGraphReason(rows, ref, q, maximumDepth)
    ensures reasons == DirectReasons(rows, ref, maximumDepth)
  {
    var row := rows[ref];
    reasons := graph;
    if row.prototype == PrototypeArtifact {
      reasons := reasons + {Artifact};
    }
    if !row.ownerProven {
      reasons := reasons + {ConflictedOwner};
    }
    if row.prototype == PrototypeMissing {
      reasons := reasons + {UnknownPrototype};
    }
    if row.uidCandidates != 1 || row.liveUidConflict {
      reasons := reasons + {UidCollision};
    }
    if row.metadataCandidates != 1 {
      reasons := reasons + {InsufficientMetadata};
    }
  }

  /** `v` is the `i`-th pointer above `start` for some `i` between 1 and `k - 1`. */
  ghost predicate SeenBefore(p: map<Ref, Option<Ref>>, start: Ref, v: Ref, k: nat) {
    exists i: nat :: 1 <= i < k && Up(p, start, i) == Some(v)
  }

  lemma {:induction false} NextIsUnseen(rows: map<Ref, EvidenceRow>, ref: Ref, k: nat, maximumDepth: nat)
    requires ref in rows && DirectReasons(rows, ref, maximumDepth) == {}
    requires Up(Parents(rows), ref, k).Some?
    ensures !SeenBefore(Parents(rows), ref, Up(Parents(rows), ref, k).value, k)
  {
    DirectlyCleanFacts(rows, ref, maximumDepth);
    assert Up(Parents(rows), ref, maximumDepth + 1).None?;
    EndedIsSimple(Parents(rows), ref, maximumDepth + 1);
  }

  lemma {:induction false} NothingBeyond(rows: map<Ref, EvidenceRow>, ref: Ref, k: nat, maximumDepth: nat)
    requires Up(Parents(rows), ref, k).None? || Up(Parents(rows), ref, k).value !in rows
    ensures forall t: nat | t >= k :: !TaintedAt(rows, ref, t, maximumDepth)
  {
    forall t: nat | t >= k
      ensures !TaintedAt(rows, ref, t, maximumDepth)
    {
      if t > k && Up(Parents(rows), ref, t).Some? {
        UpPrefix(Parents(rows), ref, k, t);
      }
    }
  }

  /** The ancestor scan of `classify` for a row without direct reasons. */
  method ScanAncestors(rows: map<Ref, EvidenceRow>, direct: map<Ref, set<Reason>>, ref: Ref, maximumDepth: nat)
    returns (tainted: bool)
    requires ref in rows && direct.Keys == rows.Keys
    requires forall r | r in rows :: direct[r] == DirectReasons(rows, r, maximumDepth)
    requires direct[ref] == {}
    ensures tainted <==> TaintedAbove(rows, ref, maximumDepth)
  {
    ghost var p := Parents(rows);
    var current := rows[ref].parentRef;
    var visited: set<Ref> := {};
    ghost var k: nat := 1;
    assert Up(p, ref, 0) == Some(ref);
    if current.Some? {
      NextIsUnseen(rows, ref, 1, maximumDepth);
    }
    while current.Some? && current.value in rows && current.value !in visited
      invariant k >= 1 && current == Up(p, ref, k)
      invariant forall i: nat | 1 <= i < k :: !TaintedAt(rows, ref, i, maximumDepth)
      invariant forall v | v in visited :: SeenBefore(p, ref, v, k)
      invariant current.Some? ==> !SeenBefore(p, ref, current.value, k)
      invariant visited <= rows.Keys
      decreases rows.Keys - visited
    {
      visited := visited + {current.value};
      if direct[current.value] != {} {
        assert TaintedAt(rows, ref, k, maximumDepth);
        return true;
      }
      current := rows[current.value].parentRef;
      k := k + 1;
      if current.Some? {
        NextIsUnseen(rows, ref, k, maximumDepth);
      }
    }
    NothingBeyond(rows, ref, k, maximumDepth);
    return false;
  }

  /** `{item.row.row_ref: item for item in classifications}`. */
  function ByRef(items: seq<Classification>): (byRef: map<Ref, Classification>)
    ensures forall r | r in byRef :: byRef[r] in items && byRef[r].row.rowRef == r
    ensures forall item | item in items :: item.row.rowRef in byRef
  {
    if items == [] then map[]
    else ByRef(items[..|items| - 1])[items[|items| - 1].row.rowRef := items[|items| - 1]]
  }

  /** The direct reasons of every row. */
  method DirectTable(rows: map<Ref, EvidenceRow>, maximumDepth: nat) returns (direct: map<Ref, set<Reason>>)
    ensures direct.Keys == rows.Keys
    ensures forall r | r in rows :: direct[r] == DirectReasons(rows, r, maximumDepth)
  {
    var graph := GraphReasons(rows, maximumDepth);
    direct := map[];
    var todo := rows.Keys;
    while todo != {}
      invariant todo <= rows.Keys && direct.Keys == rows.Keys - todo
      invariant forall r | r in direct :: direct[r] == DirectReasons(rows, r, maximumDepth)
      decreases todo
    {
      var reference :| reference in todo;
      var joined := JoinDirect(rows, reference, graph[reference], maximumDepth);
      direct := direct[reference := joined];
      todo := todo - {reference};
    }
  }

  /** The second loop of `classify`, in row order. */
  method ClassifyRows(evidence: Evidence, maximumDepth: nat, direct: map<Ref, set<Reason>>)
    returns (unsorted: seq<Classification>)
    requires DistinctRows(evidence.rows) && direct.Keys == Index(evidence.rows).Keys
    requires forall r | r in direct :: direct[r] == DirectReasons(Index(evidence.rows), r, maximumDepth)
    ensures |unsorted| == |evidence.rows|
    ensures forall j | 0 <= j < |evidence.rows| ::
              evidence.rows[j].rowRef in Expected(Index(evidence.rows), maximumDepth)
              && unsorted[j] == Expected(Index(evidence.rows), maximumDepth)[evidence.rows[j].rowRef]
  {
    hide DirectReasons, TaintedAbove;
    var rows := Index(evidence.rows);
    ghost var expected := Expected(rows, maximumDepth);
    unsorted := [];
    for i := 0 to |evidence.rows|
      invariant |unsorted| == i
      invariant forall j | 0 <= j < i ::
                  evidence.rows[j].rowRef in expected && unsorted[j] == expected[evidence.rows[j].rowRef]
    {
      IndexFinds(evidence.rows, i);
      var row := evidence.rows[i];
      var reasons := direct[row.rowRef];
      if reasons == {} {
        var tainted := ScanAncestors(rows, direct, row.rowRef, maximumDepth);
        if tainted {
          reasons := {DependentAncestry};
        }
      }
      unsorted := unsorted + [Classification(row, PrimaryOf(reasons), reasons)];
    }
  }

  lemma {:induction false} ExpectedIsKeyed(rows: map<Ref, EvidenceRow>, maximumDepth: nat)
    requires forall r | r in rows :: rows[r].rowRef == r
    ensures Expected(rows, maximumDepth).Keys == rows.Keys
    ensures forall r | r in rows :: Expected(rows, maximumDepth)[r].row.rowRef == r
  {
    hide Reasons, PrimaryOf;
  }

  /** `classify`: one classification for every evidence row, in report order. */
  method Classify(evidence: Evidence, maximumDepth: nat) returns (result: seq<Classification>)
    requires DistinctRows(evidence.rows)
    ensures |result| == |evidence.rows|
    ensures ByRef(result) == Expected(Index(evidence.rows), maximumDepth)
    ensures SortedBy(result, ReportKey)
  {
    hide *;
    ExpectedIsKeyed(Index(evidence.rows), maximumDepth);
    var direct := DirectTable(Index(evidence.rows), maximumDepth);
    var unsorted := ClassifyRows(evidence, maximumDepth, direct);
    result := SortSeq(unsorted, ReportKey);
    SortedByRef(evidence.rows, unsorted, result, Expected(Index(evidence.rows), maximumDepth));
  }

  lemma {:induction false} SortedByRef(rows: seq<EvidenceRow>, unsorted: seq<Classification>,
                                       result: seq<Classification>,
                    expected: map<Ref, Classification>)
    requires |unsorted| == |rows| && multiset(result) == multiset(unsorted)
    requires expected.Keys == Index(rows).Keys && forall r | r in expected :: expected[r].row.rowRef == r
    requires forall j | 0 <= j < |rows| :: rows[j].rowRef in expected && unsorted[j] == expected[rows[j].rowRef]
    ensures ByRef(result) == expected
  {
    forall item | item in result
      ensures item.row.rowRef in expected && item == expected[item.row.rowRef]
    {
      assert item in multiset(unsorted);
    }
    forall r | r in expected
      ensures r in ByRef(result)
    {
      var j :| 0 <= j < |rows| && rows[j] == Index(rows)[r];
      assert unsorted[j] in multiset(result);
    }
  }

  // ----- what a classification means -----

  /** The row's own evidence is complete: nothing about the row itself needs an operator. */
  ghost predicate OwnEvidenceClean(row: EvidenceRow) {
    && row.prototype == PrototypeCurrent && row.ownerProven && row.metadataCandidates == 1
    && row.uidCandidates == 1 && !row.liveUidConflict
  }

  /** A complete ancestry: `k` steps to a parentless row, one owner, no unclean row on the way. */
  ghost predicate CleanAncestry(rows: map<Ref, EvidenceRow>, ref: Ref, k: nat, root: Ref)
    requires ref in rows
  {
    && RootAt(Parents(rows), ref, k, root)
    && forall i: nat | i <= k ::
         var node := Up(Parents(rows), ref, i);
         && node.Some? && node.value in rows && OwnEvidenceClean(rows[node.value])
         && rows[node.value].ownerRef == rows[ref].ownerRef
  }

  /**
   The report means what it says: a row is called recoverable exactly when its
   whole chain is a complete, single-owner chain of clean rows that fits the
   depth limit. The right-hand side mentions no walk and no reason.
   */
  lemma {:induction false} RecoverableMeansCleanAncestry(rows: map<Ref, EvidenceRow>, ref: Ref, maximumDepth: nat)
    requires ref in rows
    ensures PrimaryOf(Reasons(rows, ref, maximumDepth)) == Recoverable <==>
            exists k: nat, root :: k < maximumDepth && CleanAncestry(rows, ref, k, root)
  {
    if PrimaryOf(Reasons(rows, ref, maximumDepth)) == Recoverable {
      var k, root := RecoverableIsClean(rows, ref, maximumDepth);
    }
    if k: nat, root :| k < maximumDepth && CleanAncestry(rows, ref, k, root) {
      CleanIsRecoverable(rows, ref, maximumDepth, k, root);
    }
  }

  /** A row without graph reasons has a chain that stops within the limit, at a real parent link. */
  lemma {:induction false} NoGraphReasonEnds(rows: map<Ref, EvidenceRow>, ref: Ref, maximumDepth: nat)
    requires ref in rows
    requires !HasGraphReason(rows, ref, Cycle, maximumDepth) && !HasGraphReason(rows, ref, DepthExceeded, maximumDepth)
    ensures EndsWithin(Parents(rows), ref, maximumDepth)
  {
    WalkTrichotomy(Parents(rows), ref, maximumDepth);
  }

  lemma {:induction false} DirectlyCleanFacts(rows: map<Ref, EvidenceRow>, ref: Ref, maximumDepth: nat)
    requires ref in rows && DirectReasons(rows, ref, maximumDepth) == {}
    ensures OwnEvidenceClean(rows[ref])
    ensures rows[ref].parentRef.Some? ==>
              rows[ref].parentRef.value in rows && rows[rows[ref].parentRef.value].ownerRef == rows[ref].ownerRef
    ensures EndsWithin(Parents(rows), ref, maximumDepth)
  {
    assert forall q: Reason :: !HasDirectReason(rows, ref, q, maximumDepth) by {
      forall q: Reason
        ensures !HasDirectReason(rows, ref, q, maximumDepth)
      {
        assert q !in DirectReasons(rows, ref, maximumDepth);
      }
    }
    assert !HasDirectReason(rows, ref, Artifact, maximumDepth)
           && !HasDirectReason(rows, ref, UnknownPrototype, maximumDepth);
    assert !HasDirectReason(rows, ref, ConflictedOwner, maximumDepth)
           && !HasDirectReason(rows, ref, UidCollision, maximumDepth);
    assert !HasDirectReason(rows, ref, InsufficientMetadata, maximumDepth);
    assert !HasDirectReason(rows, ref, MissingAncestor, maximumDepth)
           && !HasDirectReason(rows, ref, CrossOwner, maximumDepth);
    assert !HasDirectReason(rows, ref, Cycle, maximumDepth) && !HasDirectReason(rows, ref, DepthExceeded, maximumDepth);
    NoGraphReasonEnds(rows, ref, maximumDepth);
  }

  lemma {:induction false} RecoverableIsClean(rows: map<Ref, EvidenceRow>, ref: Ref, maximumDepth: nat)
    returns (k: nat, root: Ref)
    requires ref in rows && Reasons(rows, ref, maximumDepth) == {}
    ensures k < maximumDepth && CleanAncestry(rows, ref, k, root)
  {
    var p := Parents(rows);
    var clean := set r | r in rows && DirectReasons(rows, r, maximumDepth) == {};
    forall i: nat | Up(p, ref, i).Some?
      ensures Up(p, ref, i).value in clean && rows[Up(p, ref, i).value].ownerRef == rows[ref].ownerRef
    {
      CleanUpwards(rows, ref, maximumDepth, i);
    }
    DirectlyCleanFacts(rows, ref, maximumDepth);
    k := LastPointer(p, ref, maximumDepth);
    root := Up(p, ref, k).value;
    forall i: nat | i <= k
      ensures Up(p, ref, i).Some? && OwnEvidenceClean(rows[Up(p, ref, i).value])
    {
      UpPrefix(p, ref, i, k);
      DirectlyCleanFacts(rows, Up(p, ref, i).value, maximumDepth);
    }
  }

  lemma {:induction false} CleanUpwards(rows: map<Ref, EvidenceRow>, ref: Ref, maximumDepth: nat, i: nat)
    requires ref in rows && Reasons(rows, ref, maximumDepth) == {} && Up(Parents(rows), ref, i).Some?
    ensures Up(Parents(rows), ref, i).value in rows
    ensures DirectReasons(rows, Up(Parents(rows), ref, i).value, maximumDepth) == {}
    ensures rows[Up(Parents(rows), ref, i).value].ownerRef == rows[ref].ownerRef
  {
    if i > 0 {
      CleanUpwards(rows, ref, maximumDepth, i - 1);
      DirectlyCleanFacts(rows, Up(Parents(rows), ref, i - 1).value, maximumDepth);
      assert !TaintedAt(rows, ref, i, maximumDepth);
    }
  }

  lemma {:induction false} CleanIsRecoverable(rows: map<Ref, EvidenceRow>, ref: Ref, maximumDepth: nat, k: nat,
                                              root: Ref)
    requires ref in rows && k < maximumDepth && CleanAncestry(rows, ref, k, root)
    ensures Reasons(rows, ref, maximumDepth) == {}
  {
    var p := Parents(rows);
    forall i: nat | Up(p, ref, i).Some?
      ensures Up(p, ref, i).value in rows && DirectReasons(rows, Up(p, ref, i).value, maximumDepth) == {}
    {
      if i > k {
        RootEndsChain(p, ref, k, root, i);
      }
      CleanNodeHasNoReason(rows, ref, maximumDepth, k, root, i);
    }
    assert Up(p, ref, 0) == Some(ref);
    forall t: nat | t >= 1
      ensures !TaintedAt(rows, ref, t, maximumDepth)
    {
    }
  }

  lemma {:induction false} CleanNodeHasNoReason(rows: map<Ref, EvidenceRow>, ref: Ref, maximumDepth: nat, k: nat,
                                                root: Ref, i: nat)
    requires ref in rows && k < maximumDepth && CleanAncestry(rows, ref, k, root) && i <= k
    ensures DirectReasons(rows, Up(Parents(rows), ref, i).value, maximumDepth) == {}
  {
    var p := Parents(rows);
    var node := Up(p, ref, i).value;
    RootFromMiddle(p, ref, k, root, i);
    RootEndsChain(p, node, k - i, root, maximumDepth);
    WalkTrichotomy(p, node, maximumDepth);
    if i < k {
      assert Up(p, ref, i + 1) == rows[node].parentRef;
    } else {
      assert rows[node].parentRef == None;
    }
    forall q: Reason
      ensures !HasDirectReason(rows, node, q, maximumDepth)
    {
    }
  }
}
