/**
 Dependency graphs of the lifecycle manifest: `validate_dependency_graph`
 (scripts/validate_data_lifecycle.py) and `dependency_order`
 (scripts/lifecycle_archive.py). Both are the same depth-first visit; the first
 refuses an unknown dependency, the second skips a dependency that was not
 requested.
 */
module Dependencies {
  import opened Wrappers

  type Id = string

  /** Entry ids and their declared dependencies. */
  type Graph = map<Id, seq<Id>>

  datatype GraphError = DependencyCycle | MissingDependency | DuplicateOrUnknownStore

  // ----- what the visits are for -----

  predicate Edge(graph: Graph, scope: set<Id>, a: Id, b: Id) {
    a in graph && a in scope && b in scope && b in graph[a]
  }

  /** Consecutive elements are joined by dependency edges inside `scope`. */
  ghost predicate IsPath(graph: Graph, scope: set<Id>, path: seq<Id>) {
    forall i | 0 <= i < |path| - 1 :: Edge(graph, scope, path[i], path[i + 1])
  }

  ghost predicate IsCycle(graph: Graph, scope: set<Id>, path: seq<Id>) {
    |path| >= 2 && path[0] == path[|path| - 1] && IsPath(graph, scope, path)
  }

  ghost predicate Acyclic(graph: Graph, scope: set<Id>) {
    forall path :: !IsCycle(graph, scope, path)
  }

  /** Every declared dependency is an entry. */
  ghost predicate Resolves(graph: Graph) {
    forall a, b | a in graph && b in graph[a] :: b in graph
  }

  ghost predicate NoRepeats(s: seq<Id>) {
    forall i, j | 0 <= i < j < |s| :: s[i] != s[j]
  }

  /** Every element's dependencies inside `scope` come before it. */
  ghost predicate DependenciesFirst(graph: Graph, scope: set<Id>, order: seq<Id>) {
    forall i, b | 0 <= i < |order| && Edge(graph, scope, order[i], b) :: b in order[..i]
  }

  /** Following edges from a position of a dependencies-first order only moves left. */
  lemma {:induction false} PathMovesLeft(graph: Graph, scope: set<Id>, order: seq<Id>, path: seq<Id>, start: nat)
    returns (end: nat)
    requires DependenciesFirst(graph, scope, order) && IsPath(graph, scope, path) && path != []
    requires start < |order| && order[start] == path[0]
    ensures end <= start && order[end] == path[|path| - 1] && (|path| > 1 ==> end < start)
  {
    if |path| == 1 {
      end := start;
    } else {
      assert Edge(graph, scope, path[0], path[0 + 1]);
      var next :| 0 <= next < start && order[..start][next] == path[1];
      forall i | 0 <= i < |path[1..]| - 1
        ensures Edge(graph, scope, path[1..][i], path[1..][i + 1])
      {
        assert Edge(graph, scope, path[i + 1], path[i + 1 + 1]);
      }
      end := PathMovesLeft(graph, scope, order, path[1..], next);
    }
  }

  /** A dependencies-first order of the whole scope rules out cycles. */
  lemma {:induction false} OrderMeansAcyclic(graph: Graph, scope: set<Id>, order: seq<Id>)
    requires DependenciesFirst(graph, scope, order) && NoRepeats(order)
    requires forall a :: a in order <==> a in scope
    ensures Acyclic(graph, scope)
  {
    forall path | IsCycle(graph, scope, path)
      ensures false
    {
      assert Edge(graph, scope, path[0], path[0 + 1]);
      var start :| 0 <= start < |order| && order[start] == path[0];
      var end := PathMovesLeft(graph, scope, order, path, start);
    }
  }

  // ----- the visit -----

  /** The open visits form a dependency path, and what is finished is in dependency order. */
  ghost predicate Walking(graph: Graph, scope: set<Id>, strict: bool, stack: seq<Id>, ordered: seq<Id>) {
    && scope <= graph.Keys
    && (forall a | a in stack :: a in scope && a !in ordered) && (forall a | a in ordered :: a in scope)
    && NoRepeats(stack) && NoRepeats(ordered)
    && IsPath(graph, scope, stack)
    && DependenciesFirst(graph, scope, ordered)
    && (strict ==> forall a | a in ordered :: InScope(graph, scope, a))
  }

  ghost predicate InScope(graph: Graph, scope: set<Id>, a: Id) {
    a in graph && forall b | b in graph[a] :: b in scope
  }

  lemma {:induction false} OpenVisit(graph: Graph, scope: set<Id>, strict: bool, stack: seq<Id>, ordered: seq<Id>,
                                     entry: Id)
    requires Walking(graph, scope, strict, stack, ordered)
    requires entry in scope && entry !in stack && entry !in ordered
    requires stack != [] ==> Edge(graph, scope, stack[|stack| - 1], entry)
    ensures Walking(graph, scope, strict, stack + [entry], ordered)
  {
  }

  lemma {:induction false} CloseVisit(graph: Graph, scope: set<Id>, strict: bool, stack: seq<Id>, ordered: seq<Id>,
                                      entry: Id)
    requires Walking(graph, scope, strict, stack + [entry], ordered)
    requires forall b | b in graph[entry] && b in scope :: b in ordered
    requires strict ==> InScope(graph, scope, entry)
    ensures Walking(graph, scope, strict, stack, ordered + [entry])
  {
    var longer := stack + [entry];
    assert forall i | 0 <= i < |stack| :: longer[i] == stack[i];
    assert longer[|stack|] == entry && entry in longer;
    assert forall a | a in stack :: a in longer && a != entry;
    forall i | 0 <= i < |stack| - 1
      ensures Edge(graph, scope, stack[i], stack[i + 1])
    {
      assert Edge(graph, scope, longer[i], longer[i + 1]);
    }
    var more := ordered + [entry];
    forall i, b | 0 <= i < |more| && Edge(graph, scope, more[i], b)
      ensures b in more[..i]
    {
      assert i < |ordered| ==> more[..i] == ordered[..i] && more[i] == ordered[i];
    }
  }

  lemma {:induction false} BackEdgeIsCycle(graph: Graph, scope: set<Id>, stack: seq<Id>, entry: Id)
    requires IsPath(graph, scope, stack) && entry in stack && Edge(graph, scope, stack[|stack| - 1], entry)
    ensures !Acyclic(graph, scope)
  {
    var k :| 0 <= k < |stack| && stack[k] == entry;
    var path := stack[k..] + [entry];
    forall i | 0 <= i < |path| - 1
      ensures Edge(graph, scope, path[i], path[i + 1])
    {
      assert i + k + 1 < |stack| ==> Edge(graph, scope, stack[i + k], stack[i + k + 1]);
    }
    assert IsCycle(graph, scope, path);
  }

  // ----- the order a visit produces -----

  function Members(s: seq<Id>): set<Id> {
    set a | a in s
  }

  /** `visit(entry)` with these open visits and this much done: the order afterwards, or the refusal. */
  function VisitOrder(graph: Graph, scope: set<Id>, strict: bool, visiting: set<Id>, ordered: seq<Id>,
                      entry: Id): Result<seq<Id>, GraphError>
    requires scope <= graph.Keys && entry in scope
    decreases scope - visiting, 0
  {
    if entry in visiting then Err(DependencyCycle)
    else if entry in ordered then Ok(ordered)
    else
      match VisitEach(graph, scope, strict, visiting + {entry}, ordered, graph[entry])
      case Err(e) => Err(e)
      case Ok(o) => Ok(o + [entry])
  }

  /** The loop over the dependencies of an open visit. */
  function VisitEach(graph: Graph, scope: set<Id>, strict: bool, visiting: set<Id>, ordered: seq<Id>,
                     deps: seq<Id>): Result<seq<Id>, GraphError>
    requires scope <= graph.Keys
    decreases scope - visiting, |deps| + 1
  {
    if deps == [] then Ok(ordered)
    else if deps[0] !in scope then
      if strict then Err(MissingDependency) else VisitEach(graph, scope, strict, visiting, ordered, deps[1..])
    else
      match VisitOrder(graph, scope, strict, visiting, ordered, deps[0])
      case Err(e) => Err(e)
      case Ok(o) => VisitEach(graph, scope, strict, visiting, o, deps[1..])
  }

  /** The outer loop of both functions: visit every id in turn. */
  function VisitAllOrder(graph: Graph, scope: set<Id>, strict: bool, ordered: seq<Id>,
                         ids: seq<Id>): Result<seq<Id>, GraphError>
    requires scope <= graph.Keys && forall a | a in ids :: a in scope
    decreases |ids|
  {
    if ids == [] then Ok(ordered)
    else
      match VisitOrder(graph, scope, strict, {}, ordered, ids[0])
      case Err(e) => Err(e)
      case Ok(o) => VisitAllOrder(graph, scope, strict, o, ids[1..])
  }

  /** A chain of dependencies inside `scope` leads from `a` to `b`. */
  ghost predicate Joined(graph: Graph, scope: set<Id>, a: Id, b: Id) {
    exists path :: Leads(graph, scope, path, a, b)
  }

  ghost predicate Leads(graph: Graph, scope: set<Id>, path: seq<Id>, a: Id, b: Id) {
    path != [] && path[0] == a && path[|path| - 1] == b && IsPath(graph, scope, path)
  }

  lemma {:induction false} JoinedFurther(graph: Graph, scope: set<Id>, a: Id, b: Id, c: Id)
    requires Edge(graph, scope, a, b) && Joined(graph, scope, b, c)
    ensures Joined(graph, scope, a, c)
  {
    var path :| Leads(graph, scope, path, b, c);
    var longer := [a] + path;
    forall i | 0 <= i < |longer| - 1
      ensures Edge(graph, scope, longer[i], longer[i + 1])
    {
      assert i > 0 ==> Edge(graph, scope, path[i - 1], path[i - 1 + 1]);
    }
    assert Leads(graph, scope, longer, a, c);
  }

  lemma {:induction false} JoinedToItself(graph: Graph, scope: set<Id>, a: Id)
    ensures Joined(graph, scope, a, a)
  {
    assert Leads(graph, scope, [a], a, a);
  }

  /** What a refusal says about the graph. */
  ghost predicate Justified(graph: Graph, scope: set<Id>, strict: bool, e: GraphError) {
    match e
    case DependencyCycle => !Acyclic(graph, scope)
    case MissingDependency => strict && exists a :: a in scope && !InScope(graph, scope, a)
    case DuplicateOrUnknownStore => false
  }

  /** Everything added to `ordered` is reached from `entry`. */
  ghost predicate Extends(graph: Graph, scope: set<Id>, ordered: seq<Id>, after: seq<Id>, entry: Id) {
    ordered <= after && forall i | |ordered| <= i < |after| :: Joined(graph, scope, entry, after[i])
  }

  /** A visit adds the entry, last, and before it what it depends on and nothing else; or its refusal is justified. */
  lemma {:induction false} VisitKeeps(graph: Graph, scope: set<Id>, strict: bool, stack: seq<Id>, ordered: seq<Id>,
                                      entry: Id)
    requires Walking(graph, scope, strict, stack, ordered) && entry in scope
    requires stack != [] ==> Edge(graph, scope, stack[|stack| - 1], entry)
    ensures match VisitOrder(graph, scope, strict, Members(stack), ordered, entry)
            case Ok(o) =>
              && Walking(graph, scope, strict, stack, o) && Extends(graph, scope, ordered, o, entry) && entry in o
              && (entry !in ordered ==> o[|o| - 1] == entry)
            case Err(e) => Justified(graph, scope, strict, e)
    decreases scope - Members(stack), 0
  {
    if entry in stack {
      BackEdgeIsCycle(graph, scope, stack, entry);
    } else if entry !in ordered {
      OpenVisit(graph, scope, strict, stack, ordered, entry);
      assert Members(stack + [entry]) == Members(stack) + {entry};
      EachKeeps(graph, scope, strict, stack + [entry], ordered, graph[entry]);
      var inner := VisitEach(graph, scope, strict, Members(stack) + {entry}, ordered, graph[entry]);
      if inner.Ok? {
        CloseVisit(graph, scope, strict, stack, inner.value, entry);
        JoinedToItself(graph, scope, entry);
      }
    }
  }

  lemma {:induction false} EachKeeps(graph: Graph, scope: set<Id>, strict: bool, stack: seq<Id>, ordered: seq<Id>,
                                     deps: seq<Id>)
    requires Walking(graph, scope, strict, stack, ordered) && stack != []
    requires stack[|stack| - 1] in graph && forall d | d in deps :: d in graph[stack[|stack| - 1]]
    ensures match VisitEach(graph, scope, strict, Members(stack), ordered, deps)
            case Ok(o) =>
              && Walking(graph, scope, strict, stack, o) && Extends(graph, scope, ordered, o, stack[|stack| - 1])
              && (forall d | d in deps && d in scope :: d in o) && (strict ==> forall d | d in deps :: d in scope)
            case Err(e) => Justified(graph, scope, strict, e)
    decreases scope - Members(stack), |deps| + 1
  {
    hide Walking, Acyclic, VisitOrder;
    var top := stack[|stack| - 1];
    TopIsIn(graph, scope, strict, stack, ordered);
    if deps != [] {
      assert deps == [deps[0]] + deps[1..];
      assert deps[0] in deps && forall d | d in deps[1..] :: d in deps;
      if deps[0] !in scope {
        assert !InScope(graph, scope, top);
        if !strict {
          EachKeeps(graph, scope, strict, stack, ordered, deps[1..]);
        }
      } else {
        assert Edge(graph, scope, top, deps[0]);
        VisitKeeps(graph, scope, strict, stack, ordered, deps[0]);
        var one := VisitOrder(graph, scope, strict, Members(stack), ordered, deps[0]);
        if one.Ok? {
          EachKeeps(graph, scope, strict, stack, one.value, deps[1..]);
          var all := VisitEach(graph, scope, strict, Members(stack), one.value, deps[1..]);
          if all.Ok? {
            StillExtends(graph, scope, ordered, one.value, all.value, top, deps[0]);
          }
        }
      }
    }
  }

  lemma {:induction false} TopIsIn(graph: Graph, scope: set<Id>, strict: bool, stack: seq<Id>, ordered: seq<Id>)
    requires Walking(graph, scope, strict, stack, ordered) && stack != []
    ensures scope <= graph.Keys && stack[|stack| - 1] in scope
  {
  }

  lemma {:induction false} StillExtends(graph: Graph, scope: set<Id>, a: seq<Id>, b: seq<Id>, c: seq<Id>, top: Id,
                                        entry: Id)
    requires Edge(graph, scope, top, entry) && Extends(graph, scope, a, b, entry) && Extends(graph, scope, b, c, top)
    ensures Extends(graph, scope, a, c, top)
  {
    forall i | |a| <= i < |c|
      ensures Joined(graph, scope, top, c[i])
    {
      if i < |b| {
        assert c[i] == b[i];
        JoinedFurther(graph, scope, top, entry, b[i]);
      }
    }
  }

  lemma {:induction false} AllKeeps(graph: Graph, scope: set<Id>, strict: bool, ordered: seq<Id>, ids: seq<Id>)
    requires scope <= graph.Keys && Walking(graph, scope, strict, [], ordered) && forall a | a in ids :: a in scope
    ensures match VisitAllOrder(graph, scope, strict, ordered, ids)
            case Ok(o) => Walking(graph, scope, strict, [], o) && ordered <= o && forall a | a in ids :: a in o
            case Err(e) => Justified(graph, scope, strict, e)
    decreases |ids|
  {
    hide Walking, Justified;
    if ids != [] {
      assert ids == [ids[0]] + ids[1..];
      VisitKeeps(graph, scope, strict, [], ordered, ids[0]);
      assert Members([]) == {};
      var one := VisitOrder(graph, scope, strict, {}, ordered, ids[0]);
      if one.Ok? {
        AllKeeps(graph, scope, strict, one.value, ids[1..]);
      }
    }
  }

  lemma {:induction false} NothingDone(graph: Graph, scope: set<Id>, strict: bool)
    requires scope <= graph.Keys
    ensures Walking(graph, scope, strict, [], [])
  {
  }

  // ----- the visits as they are made -----

  /** The closure state of the nested `visit` functions. */
  class Visitor {
    const graph: Graph
    const scope: set<Id>
    const strict: bool
    var visiting: set<Id>
    var visited: set<Id>
    var ordered: seq<Id>

    constructor (graph: Graph, scope: set<Id>, strict: bool)
      requires scope <= graph.Keys
      ensures this.graph == graph && this.scope == scope && this.strict == strict
      ensures Valid() && visiting == {} && ordered == []
    {
      this.graph, this.scope, this.strict := graph, scope, strict;
      visiting, visited, ordered := {}, {}, [];
    }

    ghost predicate Valid()
      reads this
    {
      scope <= graph.Keys && visited == Members(ordered)
    }

    /** `visit(entry_id)`. A refusal leaves the open visits open, as the exception does. */
    method Visit(entry: Id) returns (error: Option<GraphError>)
      requires Valid() && entry in scope
      modifies this
      ensures match VisitOrder(graph, scope, strict, old(visiting), old(ordered), entry)
              case Ok(o) => error == None && Valid() && visiting == old(visiting) && ordered == o
              case Err(e) => error == Some(e)
      decreases scope - visiting
    {
      if entry in visiting {
        return Some(DependencyCycle);
      }
      if entry in visited {
        return None;
      }
      visiting := visiting + {entry};
      ghost var open := visiting;
      for i := 0 to |graph[entry]|
        invariant Valid() && visiting == open
        invariant VisitEach(graph, scope, strict, open, old(ordered), graph[entry]) ==
                  VisitEach(graph, scope, strict, open, ordered, graph[entry][i..])
      {
        var dependency := graph[entry][i];
        assert graph[entry][i..][0] == dependency && graph[entry][i..][1..] == graph[entry][i + 1..];
        if dependency !in scope {
          if strict {
            return Some(MissingDependency);
          }
        } else {
          error := Visit(dependency);
          if error.Some? {
            return;
          }
        }
      }
      visiting := visiting - {entry};
      assert visiting == old(visiting);
      visited := visited + {entry};
      ordered := ordered + [entry];
      return None;
    }
  }

  /** The outer loop. */
  method VisitAll(visitor: Visitor, ids: seq<Id>) returns (error: Option<GraphError>)
    requires visitor.Valid() && visitor.visiting == {} && visitor.ordered == []
    requires forall a | a in ids :: a in visitor.scope
    modifies visitor
    ensures match VisitAllOrder(visitor.graph, visitor.scope, visitor.strict, [], ids)
            case Ok(o) => error == None && visitor.ordered == o
            case Err(e) => error == Some(e)
  {
    for i := 0 to |ids|
      invariant visitor.Valid() && visitor.visiting == {}
      invariant VisitAllOrder(visitor.graph, visitor.scope, visitor.strict, [], ids) ==
                VisitAllOrder(visitor.graph, visitor.scope, visitor.strict, visitor.ordered, ids[i..])
    {
      assert ids[i..][0] == ids[i] && ids[i..][1..] == ids[i + 1..];
      error := visitor.Visit(ids[i]);
      if error.Some? {
        return;
      }
    }
    return None;
  }

  /**
   `validate_dependency_graph`, over any listing of the entries: it accepts exactly
   the graphs whose dependencies all resolve and that have no cycle.
   */
  method ValidateGraph(graph: Graph, entries: seq<Id>) returns (error: Option<GraphError>)
    requires forall a :: a in entries <==> a in graph
    ensures error.None? <==> Resolves(graph) && Acyclic(graph, graph.Keys)
    ensures error == Some(DependencyCycle) ==> !Acyclic(graph, graph.Keys)
    ensures error == Some(MissingDependency) ==> !Resolves(graph)
  {
    var visitor := new Visitor(graph, graph.Keys, true);
    NothingDone(graph, graph.Keys, true);
    AllKeeps(graph, graph.Keys, true, [], entries);
    error := VisitAll(visitor, entries);
    if error.None? {
      OrderMeansAcyclic(graph, graph.Keys, visitor.ordered);
      forall a, b | a in graph && b in graph[a]
        ensures b in graph
      {
        assert a in visitor.ordered && InScope(graph, graph.Keys, a);
      }
    }
  }

  /** No edge joins two elements of `scope`; chains may still join them through elements outside. */
  ghost predicate Unrelated(graph: Graph, scope: set<Id>) {
    forall a, b :: !Edge(graph, scope, a, b)
  }

  /** `a` stands before `b` in `order`. */
  ghost predicate Before(order: seq<Id>, a: Id, b: Id) {
    exists i, j :: 0 <= i < j < |order| && order[i] == a && order[j] == b
  }

  /** A permutation of the request with every requested dependency on the right side. */
  ghost predicate Ordered(graph: Graph, ids: seq<Id>, order: seq<Id>, finalization: bool) {
    && multiset(order) == multiset(ids)
    && forall a, b | a in ids && b in ids && a in graph && b in graph[a] ::
         if finalization then Before(order, a, b) else Before(order, b, a)
  }

  function Reversed(s: seq<Id>): (r: seq<Id>)
    ensures |r| == |s| && forall i | 0 <= i < |s| :: r[i] == s[|s| - 1 - i]
    ensures multiset(r) == multiset(s)
  {
    if s == [] then []
    else
      assert s == [s[0]] + s[1..];
      Reversed(s[1..]) + [s[0]]
  }

  lemma {:induction false} CountsOnce(s: seq<Id>, x: Id)
    requires NoRepeats(s)
    ensures multiset(s)[x] == if x in s then 1 else 0
  {
    if s != [] {
      assert s == [s[0]] + s[1..];
      CountsOnce(s[1..], x);
    }
  }

  lemma {:induction false} SameElementsSameMultiset(a: seq<Id>, b: seq<Id>)
    requires NoRepeats(a) && NoRepeats(b) && forall x :: x in a <==> x in b
    ensures multiset(a) == multiset(b)
  {
    forall x: Id
      ensures multiset(a)[x] == multiset(b)[x]
    {
      CountsOnce(a, x);
      CountsOnce(b, x);
    }
  }

  /** `dependency_order` */
  function OrderOf(graph: Graph, ids: seq<Id>, finalization: bool): Result<seq<Id>, GraphError> {
    if |Members(ids)| != |ids| || !(Members(ids) <= graph.Keys) then Err(DuplicateOrUnknownStore)
    else
      match VisitAllOrder(graph, Members(ids), false, [], ids)
      case Err(e) => Err(e)
      case Ok(o) => Ok(if finalization then Reversed(o) else o)
  }

  /** A request the function does not refuse outright. */
  ghost predicate Requestable(graph: Graph, ids: seq<Id>) {
    NoRepeats(ids) && forall a | a in ids :: a in graph
  }

  /** Before it is reversed, the order lists the request once, dependencies first. */
  lemma {:induction false} VisitedRequest(graph: Graph, ids: seq<Id>)
    requires Requestable(graph, ids) && Acyclic(graph, Members(ids))
    ensures |Members(ids)| == |ids| && Members(ids) <= graph.Keys
    ensures var visited := VisitAllOrder(graph, Members(ids), false, [], ids);
            && visited.Ok? && DependenciesFirst(graph, Members(ids), visited.value) && NoRepeats(visited.value)
            && (forall a :: a in visited.value <==> a in ids) && multiset(visited.value) == multiset(ids)
  {
    hide VisitAllOrder;
    RepeatsShrink(ids);
    NothingDone(graph, Members(ids), false);
    AllKeeps(graph, Members(ids), false, [], ids);
    var visited := VisitAllOrder(graph, Members(ids), false, [], ids);
    SameElementsSameMultiset(visited.value, ids);
  }

  lemma {:induction false} OutsideIsSkipped(graph: Graph, scope: set<Id>, visiting: set<Id>, ordered: seq<Id>,
                                            deps: seq<Id>)
    requires scope <= graph.Keys && forall d | d in deps :: d !in scope
    ensures VisitEach(graph, scope, false, visiting, ordered, deps) == Ok(ordered)
  {
    if deps != [] {
      OutsideIsSkipped(graph, scope, visiting, ordered, deps[1..]);
    }
  }

  lemma {:induction false} UnrelatedKeepTheirOrder(graph: Graph, scope: set<Id>, ordered: seq<Id>, ids: seq<Id>)
    requires scope <= graph.Keys && Unrelated(graph, scope) && NoRepeats(ordered + ids)
             && forall a | a in ids :: a in scope
    ensures VisitAllOrder(graph, scope, false, ordered, ids) == Ok(ordered + ids)
    decreases |ids|
  {
    if ids == [] {
      assert ordered + ids == ordered;
    } else {
      assert (ordered + ids)[|ordered|] == ids[0];
      assert ids[0] !in ordered by {
        forall i | 0 <= i < |ordered|
          ensures ordered[i] != ids[0]
        {
          assert (ordered + ids)[i] == ordered[i];
        }
      }
      forall d | d in graph[ids[0]]
        ensures d !in scope
      {
        assert !Edge(graph, scope, ids[0], d);
      }
      OutsideIsSkipped(graph, scope, {ids[0]}, ordered, graph[ids[0]]);
      assert {} + {ids[0]} == {ids[0]};
      assert ordered + [ids[0]] + ids[1..] == ordered + ids;
      UnrelatedKeepTheirOrder(graph, scope, ordered + [ids[0]], ids[1..]);
    }
  }

  /**
   What the order is: refused exactly for repeated or unknown stores and for cycles, else a
   permutation with every direct dependency on the right side.
   */
  lemma {:induction false} OrderIsOrdered(graph: Graph, ids: seq<Id>, finalization: bool)
    ensures OrderOf(graph, ids, finalization) == Err(DuplicateOrUnknownStore) <==> !Requestable(graph, ids)
    ensures OrderOf(graph, ids, finalization) == Err(DependencyCycle) <==>
              Requestable(graph, ids) && !Acyclic(graph, Members(ids))
    ensures OrderOf(graph, ids, finalization).Err? ==>
              OrderOf(graph, ids, finalization).error in {DuplicateOrUnknownStore, DependencyCycle}
    ensures OrderOf(graph, ids, finalization).Ok? ==>
              Ordered(graph, ids, OrderOf(graph, ids, finalization).value, finalization)
    ensures OrderOf(graph, ids, finalization).Ok? && Unrelated(graph, Members(ids)) ==>
              OrderOf(graph, ids, finalization).value == if finalization then Reversed(ids) else ids
  {
    RepeatsShrink(ids);
    if !Requestable(graph, ids) {
      assert NoRepeats(ids) ==> exists a :: a in Members(ids) && a !in graph.Keys;
    } else {
      hide VisitAllOrder;
      NothingDone(graph, Members(ids), false);
      AllKeeps(graph, Members(ids), false, [], ids);
      var visited := VisitAllOrder(graph, Members(ids), false, [], ids);
      if visited.Ok? {
        OrderMeansAcyclic(graph, Members(ids), visited.value);
        VisitedRequest(graph, ids);
        if Unrelated(graph, Members(ids)) {
          UnrelatedKeepTheirOrder(graph, Members(ids), [], ids);
          assert [] + ids == ids;
        }
        forall a, b | a in ids && b in ids && b in graph[a]
          ensures Before(visited.value, b, a) && Before(Reversed(visited.value), a, b)
        {
          DependencyPrecedes(graph, Members(ids), visited.value, a, b);
        }
      }
    }
  }

  /**
   `dependency_order`. Requests over an induced subgraph without cycles are never
   refused for a cycle; the result is the request itself, reordered.
   */
  method DependencyOrder(graph: Graph, ids: seq<Id>, finalization: bool) returns (result: Result<seq<Id>, GraphError>)
    ensures result == OrderOf(graph, ids, finalization)
    ensures result == Err(DuplicateOrUnknownStore) <==> !Requestable(graph, ids)
    ensures result == Err(DependencyCycle) <==> Requestable(graph, ids) && !Acyclic(graph, Members(ids))
    ensures result.Ok? ==> Ordered(graph, ids, result.value, finalization)
    ensures result.Ok? && Unrelated(graph, Members(ids)) ==> result.value == if finalization then Reversed(ids) else ids
    ensures result.Err? ==> result.error in {DuplicateOrUnknownStore, DependencyCycle}
  {
    OrderIsOrdered(graph, ids, finalization);
    var requested := Members(ids);
    if |requested| != |ids| || !(requested <= graph.Keys) {
      return Err(DuplicateOrUnknownStore);
    }
    var visitor := new Visitor(graph, requested, false);
    var error := VisitAll(visitor, ids);
    if error.Some? {
      return Err(error.value);
    }
    return Ok(if finalization then Reversed(visitor.ordered) else visitor.ordered);
  }

  // ----- dependencies through other stores -----

  /** Every chain of the whole graph between two requested stores is respected. */
  ghost predicate RespectsChains(graph: Graph, ids: seq<Id>, order: seq<Id>, finalization: bool) {
    forall a, b | a in ids && b in ids && a != b && Joined(graph, graph.Keys, a, b) ::
      if finalization then Before(order, a, b) else Before(order, b, a)
  }

  /** Requested stores that a chain joins at all are joined by a chain of requested stores. */
  ghost predicate ClosedUnderChains(graph: Graph, requested: set<Id>) {
    forall a, b | a in requested && b in requested && Joined(graph, graph.Keys, a, b) :: Joined(graph, requested, a, b)
  }

  lemma {:induction false} ReversedBefore(order: seq<Id>, a: Id, b: Id)
    requires Before(order, a, b)
    ensures Before(Reversed(order), b, a)
  {
    var i, j :| 0 <= i < j < |order| && order[i] == a && order[j] == b;
    var n := |order|;
    assert Reversed(order)[n - 1 - j] == b && Reversed(order)[n - 1 - i] == a;
  }

  lemma {:induction false} ReversedTwice(order: seq<Id>)
    ensures Reversed(Reversed(order)) == order
  {
    var back := Reversed(Reversed(order));
    forall i | 0 <= i < |order|
      ensures back[i] == order[i]
    {
    }
  }

  /** A chain inside the request is respected. */
  lemma {:induction false} ChainInsideIsRespected(graph: Graph, scope: set<Id>, order: seq<Id>, a: Id, b: Id)
    requires DependenciesFirst(graph, scope, order) && Joined(graph, scope, a, b) && a != b && a in order
    ensures Before(order, b, a)
  {
    var path :| Leads(graph, scope, path, a, b);
    var start :| 0 <= start < |order| && order[start] == a;
    var end := PathMovesLeft(graph, scope, order, path, start);
  }

  /** With `a` requested first, only what chains inside the request lead to from `a` is put before it. */
  lemma {:induction false} FirstRequestWaitsForItsOwn(graph: Graph, ids: seq<Id>, a: Id, b: Id)
    requires Requestable(graph, ids) && Acyclic(graph, Members(ids)) && ids != [] && ids[0] == a && a != b
    requires var visited := VisitAllOrder(graph, Members(ids), false, [], ids);
             visited.Ok? && Before(visited.value, b, a)
    ensures Joined(graph, Members(ids), a, b)
  {
    var scope := Members(ids);
    VisitedRequest(graph, ids);
    var order := VisitAllOrder(graph, scope, false, [], ids).value;
    NothingDone(graph, scope, false);
    VisitKeeps(graph, scope, false, [], [], a);
    assert Members([]) == {};
    var first := VisitOrder(graph, scope, false, {}, [], a).value;
    AllKeeps(graph, scope, false, first, ids[1..]);
    assert first <= order && first[|first| - 1] == a;
    var i, j :| 0 <= i < j < |order| && order[i] == b && order[j] == a;
    assert order[|first| - 1] == a;
    assert j == |first| - 1;
    assert first[i] == b;
  }

  lemma {:induction false} ConsIsDistinct(a: Id, rest: seq<Id>)
    requires NoRepeats(rest) && a !in rest
    ensures NoRepeats([a] + rest) && Members([a] + rest) == {a} + Members(rest)
  {
  }

  /** A listing of a set that begins with `a`. */
  lemma {:induction false} ListedFrom(s: set<Id>, a: Id) returns (ids: seq<Id>)
    requires a in s
    ensures NoRepeats(ids) && Members(ids) == s && ids != [] && ids[0] == a
    decreases |s|
  {
    if s - {a} == {} {
      assert s == {a};
      ids := [a];
    } else {
      hide NoRepeats;
      var b :| b in s - {a};
      var rest := ListedFrom(s - {a}, b);
      assert a !in rest by { assert a !in Members(rest); }
      ConsIsDistinct(a, rest);
      ids := [a] + rest;
      assert {a} + (s - {a}) == s;
    }
  }

  /**
   When transitive dependencies are ordered: every order of a set of stores, requested in any
   sequence, respects every chain of the graph exactly if requested stores that are joined
   at all are joined inside the request.
   */
  lemma {:induction false} ChainsAreRespectedIff(graph: Graph, requested: set<Id>, finalization: bool)
    requires Acyclic(graph, graph.Keys) && requested <= graph.Keys
    ensures (forall ids | NoRepeats(ids) && Members(ids) == requested ::
               OrderOf(graph, ids, finalization).Ok?
               && RespectsChains(graph, ids, OrderOf(graph, ids, finalization).value, finalization))
            <==> ClosedUnderChains(graph, requested)
  {
    AcceptedGraphNeverCycles(graph, requested);
    if ClosedUnderChains(graph, requested) {
      forall ids | NoRepeats(ids) && Members(ids) == requested
        ensures OrderOf(graph, ids, finalization).Ok?
                && RespectsChains(graph, ids, OrderOf(graph, ids, finalization).value, finalization)
      {
        ClosedRequestIsRespected(graph, ids, finalization);
      }
    } else {
      var a, b :| a in requested && b in requested && Joined(graph, graph.Keys, a, b)
          && !Joined(graph, requested, a, b);
      var ids := ListedFrom(requested, a);
      JoinedToItself(graph, requested, a);
      OpenRequestIsNot(graph, ids, a, b, finalization);
    }
  }

  lemma {:induction false} ClosedRequestIsRespected(graph: Graph, ids: seq<Id>, finalization: bool)
    requires Requestable(graph, ids) && Acyclic(graph, Members(ids)) && ClosedUnderChains(graph, Members(ids))
    ensures OrderOf(graph, ids, finalization).Ok?
    ensures RespectsChains(graph, ids, OrderOf(graph, ids, finalization).value, finalization)
  {
    hide VisitAllOrder;
    VisitedRequest(graph, ids);
    var visited := VisitAllOrder(graph, Members(ids), false, [], ids).value;
    forall a, b | a in ids && b in ids && a != b && Joined(graph, graph.Keys, a, b)
      ensures Before(visited, b, a) && Before(Reversed(visited), a, b)
    {
      ChainInsideIsRespected(graph, Members(ids), visited, a, b);
      ReversedBefore(visited, b, a);
    }
  }

  lemma {:induction false} OpenRequestIsNot(graph: Graph, ids: seq<Id>, a: Id, b: Id, finalization: bool)
    requires Requestable(graph, ids) && Acyclic(graph, Members(ids)) && ids != [] && ids[0] == a && b in ids && a != b
    requires Joined(graph, graph.Keys, a, b) && !Joined(graph, Members(ids), a, b)
    ensures OrderOf(graph, ids, finalization).Ok?
    ensures !RespectsChains(graph, ids, OrderOf(graph, ids, finalization).value, finalization)
  {
    hide VisitAllOrder;
    VisitedRequest(graph, ids);
    var visited := VisitAllOrder(graph, Members(ids), false, [], ids).value;
    if Before(visited, b, a) {
      FirstRequestWaitsForItsOwn(graph, ids, a, b);
    }
    if finalization && Before(Reversed(visited), a, b) {
      ReversedBefore(Reversed(visited), a, b);
      ReversedTwice(visited);
    }
  }

  lemma {:induction false} UnrelatedChainIsNotRespected(graph: Graph, a: Id, b: Id, path: seq<Id>)
    requires a != b && a in graph && b in graph && Acyclic(graph, graph.Keys)
    requires Unrelated(graph, Members([a, b])) && Leads(graph, graph.Keys, path, a, b)
    ensures OrderOf(graph, [a, b], false) == Ok([a, b]) && !RespectsChains(graph, [a, b], [a, b], false)
  {
    hide VisitAllOrder, Acyclic;
    var ids := [a, b];
    AcceptedGraphNeverCycles(graph, Members(ids));
    OrderIsOrdered(graph, ids, false);
    assert a in ids && b in ids && !Before(ids, b, a);
  }

  /**
   The condition can fail for an accepted graph: here the first store depends on the second
   through a store that is not requested.
   */
  lemma {:induction false} GapInTheRequest() returns (graph: Graph, ids: seq<Id>, path: seq<Id>)
    ensures Resolves(graph) && Acyclic(graph, graph.Keys) && NoRepeats(ids) && |ids| == 2
    ensures Unrelated(graph, Members(ids))
    ensures |path| == 3 && IsPath(graph, graph.Keys, path) && path[0] == ids[0] && path[2] == ids[1]
    ensures OrderOf(graph, ids, false) == Ok(ids) && !RespectsChains(graph, ids, ids, false)
  {
    graph, ids, path := map["a" := ["x"], "x" := ["b"], "b" := []], ["a", "b"], ["a", "x", "b"];
    var order := ["b", "x", "a"];
    assert order[..1] == ["b"] && order[..2] == ["b", "x"];
    OrderMeansAcyclic(graph, graph.Keys, order);
    hide OrderOf, RespectsChains, Acyclic;
    UnrelatedChainIsNotRespected(graph, "a", "b", path);
  }

  lemma {:induction false} DependencyPrecedes(graph: Graph, scope: set<Id>, ordered: seq<Id>, a: Id, b: Id)
    requires DependenciesFirst(graph, scope, ordered) && Edge(graph, scope, a, b) && a in ordered
    ensures Before(ordered, b, a) && Before(Reversed(ordered), a, b)
  {
    var j :| 0 <= j < |ordered| && ordered[j] == a;
    var i :| 0 <= i < j && ordered[..j][i] == b;
    var n := |ordered|;
    assert Reversed(ordered)[n - 1 - j] == a && Reversed(ordered)[n - 1 - i] == b;
  }

  /** `len(set(ids)) != len(ids)` detects exactly the repetitions. */
  lemma {:induction false} OneMoreMember(front: seq<Id>, last: Id)
    ensures Members(front + [last]) == Members(front) + {last}
    ensures NoRepeats(front + [last]) <==> NoRepeats(front) && last !in front
  {
    var all := front + [last];
    assert forall i | 0 <= i < |front| :: all[i] == front[i];
    if NoRepeats(all) {
      assert forall i, j | 0 <= i < j < |front| :: all[i] != all[j];
      assert forall i | 0 <= i < |front| :: all[i] != all[|front|];
    }
  }

  lemma {:induction false} RepeatsShrink(ids: seq<Id>)
    ensures |Members(ids)| <= |ids|
    ensures |Members(ids)| == |ids| <==> NoRepeats(ids)
  {
    if ids != [] {
      var front, last := ids[..|ids| - 1], ids[|ids| - 1];
      RepeatsShrink(front);
      OneMoreMember(front, last);
      assert last in front <==> last in Members(front);
      hide Members, NoRepeats;
      assert ids == front + [last];
      assert last in Members(front) ==> Members(front) + {last} == Members(front);
    }
  }

  /** A subgraph of an acyclic graph is acyclic, so an accepted manifest is never refused an order. */
  lemma {:induction false} AcceptedGraphNeverCycles(graph: Graph, scope: set<Id>)
    requires Acyclic(graph, graph.Keys) && scope <= graph.Keys
    ensures Acyclic(graph, scope)
  {
    forall path | IsCycle(graph, scope, path)
      ensures false
    {
      forall i | 0 <= i < |path| - 1
        ensures Edge(graph, graph.Keys, path[i], path[i + 1])
      {
        assert Edge(graph, scope, path[i], path[i + 1]);
      }
      assert IsCycle(graph, graph.Keys, path);
    }
  }

  /** `build` of a manifest that was accepted: every request over known, distinct stores is ordered. */
  method OrderAccepted(graph: Graph, entries: seq<Id>, ids: seq<Id>, finalization: bool)
    returns (order: Option<seq<Id>>)
    requires forall a :: a in entries <==> a in graph
    requires NoRepeats(ids) && forall a | a in ids :: a in graph
    ensures order.Some? <==> Resolves(graph) && Acyclic(graph, graph.Keys)
    ensures order.Some? ==> Ordered(graph, ids, order.value, finalization)
  {
    var error := ValidateGraph(graph, entries);
    if error.Some? {
      return None;
    }
    AcceptedGraphNeverCycles(graph, Members(ids));
    assert Members(ids) <= graph.Keys;
    var result := DependencyOrder(graph, ids, finalization);
    OrderIsOrdered(graph, ids, finalization);
    return Some(result.value);
  }
}
