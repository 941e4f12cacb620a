/**
 `transitiveDependencies` of tools/m5c-graph.ts: a depth-first closure with results memoised
 across all roots, which reports the first dependency cycle it meets.
 */
module WorkGraph {
  datatype Status = Ready | Blocked | Parked

  datatype Node = Node(id: string, dependencies: seq<string>, after: seq<string>, landed: bool, status: Status)

  type Graph = map<string, Node>

  datatype Result<+T, +E> = Ok(value: T) | Err(error: E)

  /** The prerequisites the traversal follows; an unknown node has none. */
  function Edges(g: Graph, includeAfter: bool, id: string): seq<string> {
    if id in g then g[id].dependencies + (if includeAfter then g[id].after else []) else []
  }

  // ----- Reachability -----

  ghost predicate Walk(g: Graph, includeAfter: bool, w: seq<string>) {
    w != [] && forall i | 0 <= i < |w| - 1 :: w[i + 1] in Edges(g, includeAfter, w[i])
  }

  /** A walk of at least one edge from `x` to `y`. */
  ghost predicate WalkFromTo(g: Graph, includeAfter: bool, w: seq<string>, x: string, y: string) {
    Walk(g, includeAfter, w) && |w| >= 2 && w[0] == x && w[|w| - 1] == y
  }

  ghost predicate Reaches(g: Graph, includeAfter: bool, x: string, y: string) {
    exists w :: WalkFromTo(g, includeAfter, w, x, y)
  }

  ghost predicate Acyclic(g: Graph, includeAfter: bool) {
    forall x :: !Reaches(g, includeAfter, x, x)
  }

  /** The same nodes with the same dependencies, whatever their `after` lists are. */
  ghost predicate SameDependencies(g: Graph, h: Graph) {
    g.Keys == h.Keys && forall id | id in g :: g[id].dependencies == h[id].dependencies
  }

  /** `after` orders nodes; it makes nothing a transitive dependency. */
  lemma OrderingIsNoDependency(g: Graph, h: Graph, x: string, y: string)
    requires SameDependencies(g, h)
    ensures Reaches(g, false, x, y) <==> Reaches(h, false, x, y)
  {
    assert forall id :: Edges(g, false, id) == Edges(h, false, id);
    if w :| WalkFromTo(g, false, w, x, y) {
      assert WalkFromTo(h, false, w, x, y);
    }
    if w :| WalkFromTo(h, false, w, x, y) {
      assert WalkFromTo(g, false, w, x, y);
    }
  }

  /** The graph with every `after` entry listed as a dependency. */
  function Folded(g: Graph): Graph {
    map id | id in g :: g[id].(dependencies := g[id].dependencies + g[id].after, after := [])
  }

  /** With ordering included, an `after` entry counts like a dependency. */
  lemma OrderingCountsWhenIncluded(g: Graph, x: string, y: string)
    ensures Reaches(g, true, x, y) <==> Reaches(Folded(g), false, x, y)
  {
    assert forall id :: Edges(g, true, id) == Edges(Folded(g), false, id);
    if w :| WalkFromTo(g, true, w, x, y) {
      assert WalkFromTo(Folded(g), false, w, x, y);
    }
    if w :| WalkFromTo(Folded(g), false, w, x, y) {
      assert WalkFromTo(g, true, w, x, y);
    }
  }

  lemma EdgeReaches(g: Graph, a: bool, x: string, d: string)
    requires d in Edges(g, a, x)
    ensures Reaches(g, a, x, d)
  {
    assert WalkFromTo(g, a, [x, d], x, d);
  }

  lemma StepReaches(g: Graph, a: bool, x: string, d: string, y: string)
    requires d in Edges(g, a, x) && Reaches(g, a, d, y)
    ensures Reaches(g, a, x, y)
  {
    var w :| WalkFromTo(g, a, w, d, y);
    assert WalkFromTo(g, a, [x] + w, x, y);
  }

  lemma ReachesTransitive(g: Graph, a: bool, x: string, y: string, z: string)
    requires Reaches(g, a, x, y) && Reaches(g, a, y, z)
    ensures Reaches(g, a, x, z)
  {
    var v :| WalkFromTo(g, a, v, x, y);
    var w :| WalkFromTo(g, a, w, y, z);
    var u := v + w[1..];
    forall i | 0 <= i < |u| - 1 ensures u[i + 1] in Edges(g, a, u[i]) {
      if i >= |v| - 1 {
        assert u[i] == w[i - |v| + 1] && u[i + 1] == w[i - |v| + 2];
      }
    }
    assert WalkFromTo(g, a, u, x, z);
  }

  /** The first step of a walk. */
  lemma FirstStep(g: Graph, a: bool, x: string, y: string) returns (d: string)
    requires Reaches(g, a, x, y)
    ensures d in Edges(g, a, x) && (d == y || Reaches(g, a, d, y))
  {
    var w :| WalkFromTo(g, a, w, x, y);
    d := w[1];
    if |w| > 2 {
      assert WalkFromTo(g, a, w[1..], d, y);
    }
  }

  /** What is reached from one of the first `n` prerequisites, or is one of them. */
  ghost predicate ReachedVia(g: Graph, a: bool, edges: seq<string>, y: string) {
    exists d :: d in edges && (d == y || Reaches(g, a, d, y))
  }

  lemma ReachesViaEdges(g: Graph, a: bool, x: string, y: string)
    ensures Reaches(g, a, x, y) <==> ReachedVia(g, a, Edges(g, a, x), y)
  {
    if Reaches(g, a, x, y) {
      var d := FirstStep(g, a, x, y);
    }
    if ReachedVia(g, a, Edges(g, a, x), y) {
      var d :| d in Edges(g, a, x) && (d == y || Reaches(g, a, d, y));
      if d == y {
        EdgeReaches(g, a, x, y);
      } else {
        StepReaches(g, a, x, d, y);
      }
    }
  }

  lemma ReachedViaNext(g: Graph, a: bool, edges: seq<string>, d: string, y: string)
    ensures ReachedVia(g, a, edges + [d], y) <==> ReachedVia(g, a, edges, y) || y == d || Reaches(g, a, d, y)
  {
    if ReachedVia(g, a, edges, y) {
      var e :| e in edges && (e == y || Reaches(g, a, e, y));
      assert e in edges + [d];
    }
    assert d in edges + [d];
  }

  ghost predicate Collects(g: Graph, a: bool, edges: seq<string>, reachable: set<string>) {
    forall y :: y in reachable <==> ReachedVia(g, a, edges, y)
  }

  lemma CollectsNext(g: Graph, a: bool, edges: seq<string>, d: string, reachable: set<string>, nested: set<string>)
    requires Collects(g, a, edges, reachable)
    requires forall y :: y in nested <==> Reaches(g, a, d, y)
    ensures Collects(g, a, edges + [d], reachable + {d} + nested)
  {
    forall y ensures y in reachable + {d} + nested <==> ReachedVia(g, a, edges + [d], y) {
      ReachedViaNext(g, a, edges, d, y);
    }
  }

  // ----- The memo -----

  type Memo = map<string, set<string>>

  /** A memo only gains entries. */
  ghost predicate Keeps(before: Memo, now: Memo) {
    forall x | x in before :: x in now && now[x] == before[x]
  }

  ghost predicate Finished(memo: Memo, ids: seq<string>) {
    forall d | d in ids :: d in memo
  }

  lemma FinishedNext(before: Memo, now: Memo, ids: seq<string>, d: string)
    requires Finished(before, ids) && Keeps(before, now) && d in now
    ensures Finished(now, ids + [d])
  {}

  /** Every finished node holds exactly what it reaches, and all its prerequisites are finished. */
  ghost predicate Exact(g: Graph, a: bool, memo: Memo) {
    && (forall id, y | id in memo :: y in memo[id] <==> Reaches(g, a, id, y))
    && (forall id, d | id in memo && d in Edges(g, a, id) :: d in memo)
  }

  /** A finished node only reaches finished nodes. */
  lemma {:induction false} MemoIsClosed(g: Graph, a: bool, memo: Memo, w: seq<string>)
    requires Exact(g, a, memo) && Walk(g, a, w) && w[0] in memo
    ensures w[|w| - 1] in memo
    decreases |w|
  {
    if |w| > 1 {
      assert w[1] in Edges(g, a, w[0]);
      MemoIsClosed(g, a, memo, w[1..]);
    }
  }

  lemma FinishedReachesFinished(g: Graph, a: bool, memo: Memo, x: string, y: string)
    requires Exact(g, a, memo) && x in memo && Reaches(g, a, x, y)
    ensures y in memo
  {
    var w :| WalkFromTo(g, a, w, x, y);
    MemoIsClosed(g, a, memo, w);
  }

  lemma MemoNext(g: Graph, a: bool, memo: Memo, id: string, reachable: set<string>)
    requires Exact(g, a, memo)
    requires Finished(memo, Edges(g, a, id))
    requires Collects(g, a, Edges(g, a, id), reachable)
    ensures Exact(g, a, memo[id := reachable])
  {
    forall y ensures y in reachable <==> Reaches(g, a, id, y) {
      ReachesViaEdges(g, a, id, y);
    }
  }

  /** All identifiers the graph mentions. */
  function Universe(g: Graph, a: bool): set<string> {
    g.Keys + set id, d | id in g && d in Edges(g, a, id) :: d
  }

  /** A reported cycle: a closed walk along the graph's edges. */
  ghost predicate ClosedWalk(g: Graph, a: bool, w: seq<string>) {
    |w| > 0 && WalkFromTo(g, a, w, w[0], w[0])
  }

  lemma ClosedWalkIsCycle(g: Graph, a: bool, w: seq<string>)
    requires ClosedWalk(g, a, w)
    ensures !Acyclic(g, a)
  {
    assert Reaches(g, a, w[0], w[0]);
  }

  /** The path of nodes being visited, extended by the node to visit next. */
  ghost predicate Trail(g: Graph, a: bool, trail: seq<string>, visiting: set<string>, id: string) {
    && (forall x :: x in visiting <==> x in trail)
    && Walk(g, a, trail + [id])
  }

  function IndexOf(trail: seq<string>, id: string): (i: nat)
    requires id in trail
    ensures i < |trail| && trail[i] == id && id !in trail[..i]
  {
    if trail[0] == id then 0
    else
      assert trail == [trail[0]] + trail[1..];
      var i := IndexOf(trail[1..], id);
      assert trail[..i + 1] == [trail[0]] + trail[1..][..i];
      1 + i
  }

  lemma TrailCloses(g: Graph, a: bool, trail: seq<string>, visiting: set<string>, id: string)
    requires Trail(g, a, trail, visiting, id) && id in trail
    ensures ClosedWalk(g, a, trail[IndexOf(trail, id)..] + [id])
  {
    var i := IndexOf(trail, id);
    var w := trail[i..] + [id];
    assert forall k | 0 <= k < |w| :: w[k] == (trail + [id])[i + k];
  }

  lemma TrailGrows(g: Graph, a: bool, trail: seq<string>, visiting: set<string>, id: string, d: string)
    requires Trail(g, a, trail, visiting, id) && d in Edges(g, a, id)
    ensures Trail(g, a, trail + [id], visiting + {id}, d)
  {
    var w := trail + [id] + [d];
    forall i | 0 <= i < |w| - 1 ensures w[i + 1] in Edges(g, a, w[i]) {
      if i < |trail| {
        assert w[i] == (trail + [id])[i] && w[i + 1] == (trail + [id])[i + 1];
      }
    }
  }

  /** A set of smaller cardinality inside another. */
  lemma ProperSubsetIsSmaller<T>(a: set<T>, b: set<T>)
    requires a < b
    ensures |a| < |b|
  {
    var rest := b - a;
    assert b == a + rest;
    assert rest != {} by {
      var x :| x in b && x !in a;
      assert x in rest;
    }
  }

  class Closure {
    const nodes: Graph
    const includeAfter: bool
    var resolved: Memo
    var visiting: set<string>

    constructor (nodes: Graph, includeAfter: bool)
      ensures this.nodes == nodes && this.includeAfter == includeAfter
      ensures resolved == map[] && visiting == {} && Valid()
    {
      this.nodes, this.includeAfter := nodes, includeAfter;
      resolved, visiting := map[], {};
    }

    ghost predicate Valid()
      reads this
    {
      && Exact(nodes, includeAfter, resolved)
      && visiting !! resolved.Keys
      && visiting <= Universe(nodes, includeAfter)
      && forall x | x in resolved :: !Reaches(nodes, includeAfter, x, x)
    }

    /** Visit one node below the nodes of `trail`; fails exactly by exhibiting a closed walk. */
    method Visit(id: string, trail: seq<string>) returns (r: Result<set<string>, seq<string>>)
      requires Valid() && id in Universe(nodes, includeAfter)
      requires Trail(nodes, includeAfter, trail, visiting, id)
      modifies this
      ensures r.Err? ==> ClosedWalk(nodes, includeAfter, r.error)
      ensures r.Ok? ==> Valid() && visiting == old(visiting)
      ensures r.Ok? ==> id in resolved && r.value == resolved[id]
      ensures r.Ok? ==> Keeps(old(resolved), resolved)
      decreases |Universe(nodes, includeAfter) - visiting|, 0
    {
      if id in resolved {
        return Ok(resolved[id]);
      }
      if id in visiting {
        TrailCloses(nodes, includeAfter, trail, visiting, id);
        return Err(trail[IndexOf(trail, id)..] + [id]);
      }
      ghost var before := visiting;
      UniverseShrinks(nodes, includeAfter, visiting, id);
      visiting := visiting + {id};
      r := VisitPrerequisites(id, trail, before);
      if r.Ok? {
        visiting := visiting - {id};
        assert visiting == before;
        MemoNext(nodes, includeAfter, resolved, id, r.value);
        NotOnCycle(nodes, includeAfter, resolved, id);
        resolved := resolved[id := r.value];
      }
    }

    /** One prerequisite of a node being visited, with the trail extended by that node. */
    method VisitPrerequisite(id: string, d: string, trail: seq<string>, ghost before: set<string>)
      returns (r: Result<set<string>, seq<string>>)
      requires Valid() && visiting == before + {id} && Trail(nodes, includeAfter, trail, before, id)
      requires d in Edges(nodes, includeAfter, id)
      modifies this
      ensures r.Err? ==> ClosedWalk(nodes, includeAfter, r.error)
      ensures r.Ok? ==> Valid() && visiting == old(visiting) && Keeps(old(resolved), resolved)
      ensures r.Ok? ==> d in resolved && forall y :: y in r.value <==> Reaches(nodes, includeAfter, d, y)
      decreases |Universe(nodes, includeAfter) - visiting|, 1
    {
      InUniverse(nodes, includeAfter, id, d);
      TrailGrows(nodes, includeAfter, trail, before, id, d);
      r := Visit(d, trail + [id]);
    }

    /** The loop of one visit: collect the prerequisites and everything they reach. */
    method VisitPrerequisites(id: string, trail: seq<string>, ghost before: set<string>)
      returns (r: Result<set<string>, seq<string>>)
      requires Valid() && visiting == before + {id} && Trail(nodes, includeAfter, trail, before, id)
      modifies this
      ensures r.Err? ==> ClosedWalk(nodes, includeAfter, r.error)
      ensures r.Ok? ==> Valid() && visiting == old(visiting)
      ensures r.Ok? ==> Finished(resolved, Edges(nodes, includeAfter, id))
      ensures r.Ok? ==> Collects(nodes, includeAfter, Edges(nodes, includeAfter, id), r.value)
      ensures r.Ok? ==> Keeps(old(resolved), resolved)
      decreases |Universe(nodes, includeAfter) - visiting|, 2
    {
      var reachable: set<string> := {};
      var prerequisites := Edges(nodes, includeAfter, id);
      for k := 0 to |prerequisites|
        invariant Valid() && visiting == before + {id}
        invariant Keeps(old(resolved), resolved)
        invariant Finished(resolved, prerequisites[..k])
        invariant Collects(nodes, includeAfter, prerequisites[..k], reachable)
      {
        var dependency := prerequisites[k];
        ghost var known := resolved;
        var nested := VisitPrerequisite(id, dependency, trail, before);
        if nested.Err? {
          return Err(nested.error);
        }
        var grown := reachable + {dependency} + nested.value;
        assert prerequisites[..k + 1] == prerequisites[..k] + [dependency];
        CollectsNext(nodes, includeAfter, prerequisites[..k], dependency, reachable, nested.value);
        FinishedNext(known, resolved, prerequisites[..k], dependency);
        reachable := grown;
      }
      assert prerequisites[..|prerequisites|] == prerequisites;
      r := Ok(reachable);
    }

    /** Visit every root in order, sharing the memo. */
    method VisitAll(order: seq<string>) returns (r: Result<(), seq<string>>)
      requires Valid() && visiting == {}
      requires forall id | id in order :: id in nodes
      modifies this
      ensures r.Err? ==> ClosedWalk(nodes, includeAfter, r.error)
      ensures r.Ok? ==> Valid() && Finished(resolved, order)
    {
      for k := 0 to |order|
        invariant Valid() && visiting == {}
        invariant Finished(resolved, order[..k])
      {
        ghost var known := resolved;
        assert Trail(nodes, includeAfter, [], {}, order[k]);
        var visited := Visit(order[k], []);
        if visited.Err? {
          return Err(visited.error);
        }
        assert order[..k + 1] == order[..k] + [order[k]];
        FinishedNext(known, resolved, order[..k], order[k]);
      }
      assert order[..|order|] == order;
      r := Ok(());
    }
  }

  lemma InUniverse(g: Graph, a: bool, id: string, d: string)
    requires d in Edges(g, a, id)
    ensures d in Universe(g, a)
  {}

  lemma UniverseShrinks(g: Graph, a: bool, visiting: set<string>, id: string)
    requires id in Universe(g, a) && id !in visiting
    ensures |Universe(g, a) - (visiting + {id})| < |Universe(g, a) - visiting|
  {
    ProperSubsetIsSmaller(Universe(g, a) - (visiting + {id}), Universe(g, a) - visiting);
  }

  /** An unfinished node whose prerequisites are all finished lies on no cycle. */
  lemma NotOnCycle(g: Graph, a: bool, memo: Memo, id: string)
    requires Exact(g, a, memo) && id !in memo
    requires Finished(memo, Edges(g, a, id))
    ensures !Reaches(g, a, id, id)
  {
    if Reaches(g, a, id, id) {
      var d := FirstStep(g, a, id, id);
      if Reaches(g, a, d, id) {
        FinishedReachesFinished(g, a, memo, d, id);
      }
    }
  }

  lemma AllFinishedAcyclic(g: Graph, a: bool, memo: Memo)
    requires forall id | id in g :: id in memo
    requires forall x | x in memo :: !Reaches(g, a, x, x)
    ensures Acyclic(g, a)
  {
    forall x ensures !Reaches(g, a, x, x) {
      if Reaches(g, a, x, x) {
        var d := FirstStep(g, a, x, x);
      }
    }
  }

  /**
   For every node exactly the nodes reachable by one or more edges; fails if and only if the
   graph has a cycle, and then with a genuine closed walk.
   */
  method TransitiveDependencies(order: seq<string>, nodes: Graph, includeAfter: bool)
    returns (r: Result<Memo, seq<string>>)
    requires forall id :: id in order <==> id in nodes
    ensures r.Ok? <==> Acyclic(nodes, includeAfter)
    ensures r.Ok? ==> forall id | id in nodes ::
      id in r.value && forall y :: y in r.value[id] <==> Reaches(nodes, includeAfter, id, y)
    ensures r.Err? ==> ClosedWalk(nodes, includeAfter, r.error)
  {
    var closure := new Closure(nodes, includeAfter);
    var failure := closure.VisitAll(order);
    if failure.Err? {
      ClosedWalkIsCycle(nodes, includeAfter, failure.error);
      return Err(failure.error);
    }
    AllFinishedAcyclic(nodes, includeAfter, closure.resolved);
    r := Ok(closure.resolved);
  }
}
