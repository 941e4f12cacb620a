/**
 The node checks of `validateM5cWorkGraph` and what they buy: an accepted graph never
 deadlocks, landing a ready node keeps it accepted, and every run of landings completes it.
 */
module WorkGraphStatus {
  import opened WorkGraph

  // ----- The rules -----

  /** What parsing one node record guarantees. */
  predicate NodeOk(n: Node) {
    && !(n.status == Parked && n.landed)
    && n.id !in n.dependencies && n.id !in n.after
  }

  predicate TargetOk(g: Graph, n: Node, target: string) {
    && target in g
    && (g[target].status == Parked ==> n.status == Parked)
    && (n.landed ==> g[target].landed)
  }

  predicate TargetsOk(g: Graph, n: Node) {
    forall t | t in n.dependencies + n.after :: TargetOk(g, n, t)
  }

  predicate AllLanded(g: Graph, ids: seq<string>) {
    forall d | d in ids :: d in g && g[d].landed
  }

  /** The status an unparked node must record. */
  function Expected(g: Graph, n: Node): Status {
    if AllLanded(g, n.dependencies + n.after) then Ready else Blocked
  }

  predicate StatusOk(g: Graph, n: Node) {
    n.status == Parked || n.status == Expected(g, n)
  }

  ghost predicate NodesOk(g: Graph) {
    forall id | id in g :: g[id].id == id && NodeOk(g[id]) && TargetsOk(g, g[id])
  }

  ghost predicate StatusesOk(g: Graph) {
    forall id | id in g :: StatusOk(g, g[id])
  }

  /** Every other node is a transitive dependency of the exit node; ordering edges do not count. */
  ghost predicate OnExitPath(g: Graph, exit: string) {
    exit in g && forall id | id in g && id != exit :: Reaches(g, false, exit, id)
  }

  /** `after` lists put no node on the exit path. */
  lemma ExitPathIgnoresOrdering(g: Graph, h: Graph, exit: string)
    requires SameDependencies(g, h)
    ensures OnExitPath(g, exit) <==> OnExitPath(h, exit)
  {
    forall id ensures Reaches(g, false, exit, id) <==> Reaches(h, false, exit, id) {
      OrderingIsNoDependency(g, h, exit, id);
    }
  }

  ghost predicate Accepts(g: Graph, exit: string, unreviewed: int) {
    && NodesOk(g)
    && Acyclic(g, true)
    && StatusesOk(g)
    && OnExitPath(g, exit)
    && (g[exit].landed ==> unreviewed == 0)
  }

  // ----- The validator -----

  datatype GraphError =
    | Empty
    | BadNode(id: string)
    | Repeated(id: string)
    | BadTarget(id: string, target: string)
    | Cycle(trail: seq<string>)
    | WrongStatus(id: string)
    | NoExit
    | OffPath(id: string)
    | ExitUnreviewed

  datatype Summary = Summary(blocked: nat, landed: nat, nodes: nat, parked: nat, ready: nat)

  ghost predicate DistinctIds(sources: seq<Node>) {
    forall i, j | 0 <= i < j < |sources| :: sources[i].id != sources[j].id
  }

  function GraphOf(sources: seq<Node>): (g: Graph)
    ensures forall id | id in g :: g[id] in sources && g[id].id == id
    ensures forall n | n in sources :: n.id in g
  {
    if sources == [] then map[]
    else
      var last := sources[|sources| - 1];
      assert forall n | n in sources :: n in sources[..|sources| - 1] || n == last;
      GraphOf(sources[..|sources| - 1])[last.id := last]
  }

  lemma {:induction false} GraphOfAt(sources: seq<Node>, n: Node)
    requires DistinctIds(sources) && n in sources
    ensures n.id in GraphOf(sources) && GraphOf(sources)[n.id] == n
  {
    var k := |sources| - 1;
    if n != sources[k] {
      GraphOfAt(sources[..k], n);
    }
  }

  function CountStatus(sources: seq<Node>, status: Status): nat {
    if sources == [] then 0
    else CountStatus(sources[1..], status) + if sources[0].status == status then 1 else 0
  }

  function CountLanded(sources: seq<Node>): nat {
    if sources == [] then 0
    else CountLanded(sources[1..]) + if sources[0].landed then 1 else 0
  }

  lemma {:induction false} StatusesPartition(sources: seq<Node>)
    ensures CountStatus(sources, Blocked) + CountStatus(sources, Parked) + CountStatus(sources, Ready) == |sources|
  {
    if sources != [] {
      StatusesPartition(sources[1..]);
    }
  }

  ghost function Those(sources: seq<Node>, p: Node -> bool): set<Node> {
    set n | n in sources && p(n)
  }

  function IsLanded(): Node -> bool {
    (n: Node) => n.landed
  }

  function HasStatus(status: Status): Node -> bool {
    (n: Node) => n.status == status
  }

  lemma ThoseUnfold(sources: seq<Node>, p: Node -> bool)
    requires sources != [] && sources[0] !in sources[1..]
    ensures |Those(sources, p)| == |Those(sources[1..], p)| + if p(sources[0]) then 1 else 0
  {
    var n, rest := sources[0], sources[1..];
    assert sources == [n] + rest;
    assert Those(sources, p) == if p(n) then Those(rest, p) + {n} else Those(rest, p);
  }

  lemma FirstIsAlone(sources: seq<Node>)
    requires DistinctIds(sources) && sources != []
    ensures DistinctIds(sources[1..]) && sources[0] !in sources[1..]
  {
  }

  /** The counts of a summary are those of nodes: so many are landed, and so many have a status. */
  lemma {:induction false} CountsAre(sources: seq<Node>, status: Status)
    requires DistinctIds(sources)
    ensures CountLanded(sources) == |Those(sources, IsLanded())|
    ensures CountStatus(sources, status) == |Those(sources, HasStatus(status))|
  {
    if sources == [] {
      assert Those(sources, IsLanded()) == {} && Those(sources, HasStatus(status)) == {};
    } else {
      FirstIsAlone(sources);
      CountsAre(sources[1..], status);
      ThoseUnfold(sources, IsLanded());
      ThoseUnfold(sources, HasStatus(status));
    }
  }

  lemma RepeatedId(sources: seq<Node>, i: nat)
    requires i < |sources| && sources[i].id in GraphOf(sources[..i])
    ensures !DistinctIds(sources)
  {
    var other := GraphOf(sources[..i])[sources[i].id];
    assert other in sources[..i];
    var j :| 0 <= j < i && sources[j] == other;
    assert sources[j].id == sources[i].id;
  }

  lemma FreshId(sources: seq<Node>, n: Node)
    requires DistinctIds(sources) && n.id !in GraphOf(sources)
    ensures DistinctIds(sources + [n])
  {
    forall i | 0 <= i < |sources| ensures sources[i].id != n.id {
      assert sources[i] in sources;
    }
  }

  /** The first nodes are indexed. */
  ghost predicate Collected(sources: seq<Node>, g: Graph, n: nat)
    requires n <= |sources|
  {
    g == GraphOf(sources[..n]) && DistinctIds(sources[..n]) && forall k | 0 <= k < n :: NodeOk(sources[k])
  }

  lemma CollectedNext(sources: seq<Node>, g: Graph, n: nat)
    requires n < |sources| && Collected(sources, g, n) && NodeOk(sources[n]) && sources[n].id !in g
    ensures Collected(sources, g[sources[n].id := sources[n]], n + 1)
  {
    FreshId(sources[..n], sources[n]);
    assert sources[..n + 1] == sources[..n] + [sources[n]] && sources[..n + 1][..n] == sources[..n];
  }

  /** Index the nodes, refusing a bad record or a repeated identifier. */
  method CollectNodes(sources: seq<Node>) returns (r: Result<Graph, GraphError>)
    ensures r.Ok? <==> DistinctIds(sources) && forall k | 0 <= k < |sources| :: NodeOk(sources[k])
    ensures r.Ok? ==> r.value == GraphOf(sources)
    ensures r.Err? ==> !r.error.Cycle?
  {
    var g: Graph := map[];
    for i := 0 to |sources|
      invariant Collected(sources, g, i)
    {
      var node := sources[i];
      if !NodeOk(node) {
        return Err(BadNode(node.id));
      }
      if node.id in g {
        RepeatedId(sources, i);
        return Err(Repeated(node.id));
      }
      CollectedNext(sources, g, i);
      g := g[node.id := node];
    }
    assert sources[..|sources|] == sources;
    r := Ok(g);
  }

  /** The reference checks of one node. */
  method CheckTargets(g: Graph, n: Node) returns (bad: Result<(), string>)
    ensures bad.Ok? <==> TargetsOk(g, n)
    ensures bad.Err? ==> bad.error in n.dependencies + n.after && !TargetOk(g, n, bad.error)
  {
    var targets := n.after + n.dependencies;
    for k := 0 to |targets|
      invariant forall i | 0 <= i < k :: TargetOk(g, n, targets[i])
    {
      if !TargetOk(g, n, targets[k]) {
        assert targets[k] in targets;
        assert targets[k] in n.dependencies + n.after;
        return Err(targets[k]);
      }
    }
    forall t | t in n.dependencies + n.after ensures TargetOk(g, n, t) {
      assert t in targets;
    }
    bad := Ok(());
  }

  method CheckReferences(g: Graph, sources: seq<Node>) returns (r: Result<(), GraphError>)
    ensures r.Ok? <==> forall n | n in sources :: TargetsOk(g, n)
    ensures r.Err? ==> r.error.BadTarget?
  {
    for i := 0 to |sources|
      invariant forall k | 0 <= k < i :: TargetsOk(g, sources[k])
    {
      var bad := CheckTargets(g, sources[i]);
      if bad.Err? {
        assert sources[i] in sources;
        return Err(BadTarget(sources[i].id, bad.error));
      }
    }
    r := Ok(());
  }

  method CheckStatuses(g: Graph, sources: seq<Node>) returns (r: Result<(), GraphError>)
    ensures r.Ok? <==> forall n | n in sources :: StatusOk(g, n)
    ensures r.Err? ==> r.error.WrongStatus?
  {
    for i := 0 to |sources|
      invariant forall k | 0 <= k < i :: StatusOk(g, sources[k])
    {
      if !StatusOk(g, sources[i]) {
        assert sources[i] in sources;
        return Err(WrongStatus(sources[i].id));
      }
    }
    r := Ok(());
  }

  method CheckExit(g: Graph, sources: seq<Node>, exitDependencies: set<string>, exit: string, unreviewed: int)
    returns (r: Result<(), GraphError>)
    requires forall n | n in sources :: n.id in g
    requires forall id | id in g :: g[id] in sources && g[id].id == id
    requires exit in g ==> forall y :: y in exitDependencies <==> Reaches(g, false, exit, y)
    ensures r.Ok? <==> OnExitPath(g, exit) && (g[exit].landed ==> unreviewed == 0)
    ensures r.Err? ==> !r.error.Cycle?
  {
    if exit !in g {
      return Err(NoExit);
    }
    for i := 0 to |sources|
      invariant forall k | 0 <= k < i :: sources[k].id == exit || sources[k].id in exitDependencies
    {
      var id := sources[i].id;
      if id != exit && id !in exitDependencies {
        assert sources[i] in sources;
        return Err(OffPath(id));
      }
    }
    forall id | id in g && id != exit ensures Reaches(g, false, exit, id) {
      var k :| 0 <= k < |sources| && sources[k] == g[id];
    }
    if g[exit].landed && unreviewed != 0 {
      return Err(ExitUnreviewed);
    }
    r := Ok(());
  }

  /** Without the ordering edges a graph has no more cycles than with them. */
  lemma AcyclicWithoutAfter(g: Graph)
    requires Acyclic(g, true)
    ensures Acyclic(g, false)
  {
    forall x ensures !Reaches(g, false, x, x) {
      if Reaches(g, false, x, x) {
        DependencyReaches(g, x, x);
      }
    }
  }

  lemma DependencyReaches(g: Graph, x: string, y: string)
    requires Reaches(g, false, x, y)
    ensures Reaches(g, true, x, y)
  {
    var w :| WalkFromTo(g, false, w, x, y);
    assert WalkFromTo(g, true, w, x, y);
  }

  lemma SourcesAreNodes(sources: seq<Node>)
    requires DistinctIds(sources)
    ensures var g := GraphOf(sources);
      && (forall n | n in sources :: n.id in g && g[n.id] == n)
      && (forall id | id in g :: g[id] in sources && g[id].id == id)
  {
    forall n | n in sources ensures n.id in GraphOf(sources) && GraphOf(sources)[n.id] == n {
      GraphOfAt(sources, n);
    }
  }

  /** Accept exactly the graphs that satisfy every rule. */
  method ValidateWorkGraph(sources: seq<Node>, exit: string, unreviewed: int)
    returns (r: Result<Summary, GraphError>)
    ensures r.Ok? <==> DistinctIds(sources) && Accepts(GraphOf(sources), exit, unreviewed)
    ensures r.Ok? ==>
      && r.value.nodes == |sources|
      && r.value.blocked + r.value.parked + r.value.ready == r.value.nodes
      && r.value.landed == CountLanded(sources)
    ensures r.Err? && r.error.Cycle? ==> ClosedWalk(GraphOf(sources), true, r.error.trail)
  {
    if |sources| == 0 {
      return Err(Empty);
    }
    var collected := CollectNodes(sources);
    if collected.Err? {
      BadSourcesRejected(sources, exit, unreviewed);
      return Err(collected.error);
    }
    var g := collected.value;
    SourcesAreNodes(sources);
    var references := CheckReferences(g, sources);
    if references.Err? {
      return Err(references.error);
    }
    var order := seq(|sources|, i requires 0 <= i < |sources| => sources[i].id);
    forall id ensures id in order <==> id in g {
      OrderLists(sources, order, id);
    }
    var ordered := TransitiveDependencies(order, g, true);
    if ordered.Err? {
      return Err(Cycle(ordered.error));
    }
    AcyclicWithoutAfter(g);
    var reachable := TransitiveDependencies(order, g, false);
    var statuses := CheckStatuses(g, sources);
    if statuses.Err? {
      return Err(statuses.error);
    }
    var exitDependencies := if exit in g then reachable.value[exit] else {};
    var end := CheckExit(g, sources, exitDependencies, exit, unreviewed);
    if end.Err? {
      return Err(end.error);
    }
    StatusesPartition(sources);
    r := Ok(Summary(CountStatus(sources, Blocked), CountLanded(sources), |sources|,
                    CountStatus(sources, Parked), CountStatus(sources, Ready)));
  }

  lemma BadSourcesRejected(sources: seq<Node>, exit: string, unreviewed: int)
    requires !(DistinctIds(sources) && forall k | 0 <= k < |sources| :: NodeOk(sources[k]))
    ensures !(DistinctIds(sources) && Accepts(GraphOf(sources), exit, unreviewed))
  {
    if DistinctIds(sources) {
      SourcesAreNodes(sources);
      var k :| 0 <= k < |sources| && !NodeOk(sources[k]);
      assert sources[k] in sources;
    }
  }

  lemma OrderLists(sources: seq<Node>, order: seq<string>, id: string)
    requires |order| == |sources| && forall i | 0 <= i < |order| :: order[i] == sources[i].id
    requires DistinctIds(sources)
    ensures id in order <==> id in GraphOf(sources)
  {
    SourcesAreNodes(sources);
    if id in order {
      var i :| 0 <= i < |order| && order[i] == id;
      assert sources[i] in sources;
    }
    if id in GraphOf(sources) {
      var n := GraphOf(sources)[id];
      var i :| 0 <= i < |sources| && sources[i] == n;
      assert order[i] == id;
    }
  }

  // ----- No deadlock -----

  /** The nodes reached from `x`, ordering edges included. */
  ghost function Below(g: Graph, x: string): set<string> {
    set y | y in Universe(g, true) && Reaches(g, true, x, y)
  }

  lemma BelowShrinks(g: Graph, x: string, d: string)
    requires Acyclic(g, true) && d in Edges(g, true, x)
    ensures |Below(g, d)| < |Below(g, x)|
  {
    forall y | y in Below(g, d) ensures y in Below(g, x) {
      StepReaches(g, true, x, d, y);
    }
    EdgeReaches(g, true, x, d);
    InUniverse(g, true, x, d);
    assert d in Below(g, x) && d !in Below(g, d);
    ProperSubsetIsSmaller(Below(g, d), Below(g, x));
  }

  /** Below every open unparked node, or at it, an open unparked node is ready. */
  lemma {:induction false} SomeReadyBelow(g: Graph, exit: string, unreviewed: int, x: string) returns (ready: string)
    requires Accepts(g, exit, unreviewed)
    requires x in g && !g[x].landed && g[x].status != Parked
    ensures ready in g && !g[ready].landed && g[ready].status == Ready
    ensures ready == x || Reaches(g, true, x, ready)
    decreases |Below(g, x)|
  {
    if g[x].status == Ready {
      return x;
    }
    assert StatusOk(g, g[x]);
    var d :| d in g[x].dependencies + g[x].after && !(d in g && g[d].landed);
    assert d in Edges(g, true, x);
    assert TargetsOk(g, g[x]);
    assert d in g[x].dependencies + g[x].after;
    assert TargetOk(g, g[x], d);
    BelowShrinks(g, x, d);
    EdgeReaches(g, true, x, d);
    ready := SomeReadyBelow(g, exit, unreviewed, d);
    if ready != d {
      ReachesTransitive(g, true, x, d, ready);
    }
  }

  /** In every accepted graph with open unparked work, some of it can start. */
  lemma NoDeadlock(g: Graph, exit: string, unreviewed: int)
    requires Accepts(g, exit, unreviewed)
    requires exists x :: x in g && !g[x].landed && g[x].status != Parked
    ensures exists ready :: ready in g && !g[ready].landed && g[ready].status == Ready
  {
    var x :| x in g && !g[x].landed && g[x].status != Parked;
    var ready := SomeReadyBelow(g, exit, unreviewed, x);
  }

  // ----- Landing -----

  function Recompute(g: Graph, n: Node): Node {
    if n.status == Parked then n else n.(status := Expected(g, n))
  }

  function MarkLanded(g: Graph, x: string): Graph
    requires x in g
  {
    g[x := g[x].(landed := true)]
  }

  /** Land one node and recompute the status of every unparked node. */
  function Land(g: Graph, x: string): (h: Graph)
    requires x in g
    ensures h.Keys == g.Keys
  {
    var marked := MarkLanded(g, x);
    map id | id in g :: Recompute(marked, marked[id])
  }

  predicate CanLand(g: Graph, exit: string, unreviewed: int, x: string) {
    && x in g && !g[x].landed && g[x].status == Ready
    && (x == exit ==> unreviewed == 0)
  }

  lemma {:induction false} SameEdgesReach(g: Graph, h: Graph, a: bool, x: string, y: string)
    requires forall id :: Edges(g, a, id) == Edges(h, a, id)
    requires Reaches(g, a, x, y)
    ensures Reaches(h, a, x, y)
  {
    var w :| WalkFromTo(g, a, w, x, y);
    assert WalkFromTo(h, a, w, x, y);
  }

  lemma LandKeepsEdges(g: Graph, x: string, a: bool)
    requires x in g
    ensures forall id :: Edges(Land(g, x), a, id) == Edges(g, a, id)
  {}

  lemma LandedAfter(g: Graph, x: string, id: string)
    requires x in g && id in g
    ensures Land(g, x)[id].landed <==> g[id].landed || id == x
    ensures Land(g, x)[id].status == Parked <==> g[id].status == Parked
    ensures Land(g, x)[id].id == (g[id].id) && Land(g, x)[id].dependencies == g[id].dependencies
    ensures Land(g, x)[id].after == g[id].after
  {}

  lemma ExpectedAfter(g: Graph, x: string, id: string)
    requires x in g && id in g
    ensures Expected(Land(g, x), Land(g, x)[id]) == Expected(MarkLanded(g, x), MarkLanded(g, x)[id])
  {
    var h, m := Land(g, x), MarkLanded(g, x);
    forall d | d in g ensures h[d].landed == m[d].landed {
      LandedAfter(g, x, d);
    }
    var targets := g[id].dependencies + g[id].after;
    assert h[id].dependencies + h[id].after == targets == m[id].dependencies + m[id].after;
    assert AllLanded(h, targets) <==> AllLanded(m, targets);
  }

  lemma TargetsAfter(g: Graph, exit: string, unreviewed: int, x: string, id: string)
    requires Accepts(g, exit, unreviewed) && CanLand(g, exit, unreviewed, x) && id in g
    ensures TargetsOk(Land(g, x), Land(g, x)[id])
  {
    var h := Land(g, x);
    LandedAfter(g, x, id);
    forall t | t in h[id].dependencies + h[id].after ensures TargetOk(h, h[id], t) {
      assert TargetsOk(g, g[id]) && TargetOk(g, g[id], t);
      LandedAfter(g, x, t);
      if id == x {
        assert StatusOk(g, g[x]);
        assert AllLanded(g, g[x].dependencies + g[x].after);
      }
    }
  }

  /** Landing a ready node (the exit only without unreviewed paths) keeps every check. */
  lemma LandKeepsAccepted(g: Graph, exit: string, unreviewed: int, x: string)
    requires Accepts(g, exit, unreviewed) && CanLand(g, exit, unreviewed, x)
    ensures Accepts(Land(g, x), exit, unreviewed)
  {
    var h := Land(g, x);
    forall id | id in h ensures h[id].id == id && NodeOk(h[id]) && TargetsOk(h, h[id]) {
      LandedAfter(g, x, id);
      TargetsAfter(g, exit, unreviewed, x, id);
    }
    forall id | id in h ensures StatusOk(h, h[id]) {
      ExpectedAfter(g, x, id);
    }
    LandKeepsEdges(g, x, true);
    LandKeepsEdges(g, x, false);
    forall y ensures !Reaches(h, true, y, y) {
      if Reaches(h, true, y, y) {
        SameEdgesReach(h, g, true, y, y);
      }
    }
    forall id | id in h && id != exit ensures Reaches(h, false, exit, id) {
      SameEdgesReach(g, h, false, exit, id);
    }
    LandedAfter(g, x, exit);
  }

  // ----- What a landed or parked node implies -----

  /** Along dependencies, a landed node makes everything below it landed. */
  lemma {:induction false} LandedBelow(g: Graph, w: seq<string>)
    requires NodesOk(g) && Walk(g, false, w) && w[0] in g && g[w[0]].landed
    ensures w[|w| - 1] in g && g[w[|w| - 1]].landed
    decreases |w|
  {
    if |w| > 1 {
      assert TargetOk(g, g[w[0]], w[1]);
      LandedBelow(g, w[1..]);
    }
  }

  /** Along dependencies, a parked node makes everything above it parked. */
  lemma {:induction false} ParkedAbove(g: Graph, w: seq<string>)
    requires NodesOk(g) && Walk(g, false, w) && w[0] in g
    requires w[|w| - 1] in g && g[w[|w| - 1]].status == Parked
    ensures g[w[0]].status == Parked
    decreases |w|
  {
    if |w| > 1 {
      assert TargetOk(g, g[w[0]], w[1]);
      ParkedAbove(g, w[1..]);
    }
  }

  /** Once the exit node has landed, every node has, and none is parked. */
  lemma LandedExitClosesGraph(g: Graph, exit: string, unreviewed: int)
    requires Accepts(g, exit, unreviewed) && g[exit].landed
    ensures forall id | id in g :: g[id].landed && g[id].status == Ready
    ensures unreviewed == 0
  {
    forall id | id in g ensures g[id].landed {
      if id != exit {
        var w :| WalkFromTo(g, false, w, exit, id);
        LandedBelow(g, w);
      }
    }
    forall id | id in g ensures g[id].status == Ready {
      assert NodeOk(g[id]) && StatusOk(g, g[id]);
      forall d | d in g[id].dependencies + g[id].after ensures d in g && g[d].landed {
        assert TargetOk(g, g[id], d);
      }
    }
  }

  /** The exit node is parked exactly when some node is: one parked node blocks closure. */
  lemma ParkedReachesExit(g: Graph, exit: string, unreviewed: int)
    requires Accepts(g, exit, unreviewed)
    ensures g[exit].status == Parked <==> exists id :: id in g && g[id].status == Parked
  {
    if id :| id in g && g[id].status == Parked {
      if id != exit {
        var w :| WalkFromTo(g, false, w, exit, id);
        ParkedAbove(g, w);
      }
    }
  }

  // ----- Runs -----

  /** A run lands one node after another, each one ready when its turn comes. */
  ghost predicate IsRun(g: Graph, exit: string, unreviewed: int, run: seq<string>) {
    run == [] ||
    (CanLand(g, exit, unreviewed, run[0]) && IsRun(Land(g, run[0]), exit, unreviewed, run[1..]))
  }

  ghost function After(g: Graph, exit: string, unreviewed: int, run: seq<string>): Graph
    requires IsRun(g, exit, unreviewed, run)
  {
    if run == [] then g else After(Land(g, run[0]), exit, unreviewed, run[1..])
  }

  function Open(g: Graph): set<string> {
    set id | id in g && !g[id].landed
  }

  /** Every run keeps the graph accepted and lands exactly the listed nodes, each once. */
  lemma {:induction false} RunKeepsAccepted(g: Graph, exit: string, unreviewed: int, run: seq<string>)
    requires Accepts(g, exit, unreviewed) && IsRun(g, exit, unreviewed, run)
    ensures Accepts(After(g, exit, unreviewed, run), exit, unreviewed)
    ensures Open(After(g, exit, unreviewed, run)) == Open(g) - set x | x in run
    ensures |run| + |Open(After(g, exit, unreviewed, run))| == |Open(g)|
    decreases run
  {
    if run != [] {
      var x, h := run[0], Land(g, run[0]);
      LandKeepsAccepted(g, exit, unreviewed, x);
      RunKeepsAccepted(h, exit, unreviewed, run[1..]);
      OpenAfterLand(g, x);
      HeadAndTail(run);
    }
  }

  lemma OpenAfterLand(g: Graph, x: string)
    requires x in g && !g[x].landed
    ensures Open(Land(g, x)) == Open(g) - {x}
    ensures |Open(Land(g, x))| == |Open(g)| - 1
  {
    forall id | id in g ensures id in Open(Land(g, x)) <==> id in Open(g) && id != x {
      LandedAfter(g, x, id);
    }
    assert x in Open(g);
  }

  lemma HeadAndTail(run: seq<string>)
    requires run != []
    ensures (set y | y in run) == {run[0]} + set y | y in run[1..]
  {}

  /**
   A run that cannot go on has finished: everything unparked has landed, except the exit node
   while unreviewed paths remain.
   */
  lemma StuckRunIsFinished(g: Graph, exit: string, unreviewed: int, run: seq<string>)
    requires Accepts(g, exit, unreviewed) && IsRun(g, exit, unreviewed, run)
    requires forall x :: !CanLand(After(g, exit, unreviewed, run), exit, unreviewed, x)
    ensures var h := After(g, exit, unreviewed, run);
      forall id | id in h :: h[id].landed || h[id].status == Parked || (id == exit && unreviewed != 0)
  {
    RunKeepsAccepted(g, exit, unreviewed, run);
    var h := After(g, exit, unreviewed, run);
    forall id | id in h && !h[id].landed && h[id].status != Parked ensures id == exit && unreviewed != 0 {
      var ready := SomeReadyBelow(h, exit, unreviewed, id);
      assert !CanLand(h, exit, unreviewed, ready);
      if id != exit {
        DependencyReaches(h, exit, id);
        ReachesTransitive(h, true, exit, id, exit);
      }
    }
  }

  /** With nothing parked and nothing unreviewed, every maximal run lands the whole graph. */
  lemma EveryMaximalRunLandsAll(g: Graph, exit: string, run: seq<string>)
    requires Accepts(g, exit, 0) && IsRun(g, exit, 0, run) && g[exit].status != Parked
    requires forall x :: !CanLand(After(g, exit, 0, run), exit, 0, x)
    ensures Open(After(g, exit, 0, run)) == {} && |run| == |Open(g)|
  {
    StuckRunIsFinished(g, exit, 0, run);
    RunKeepsAccepted(g, exit, 0, run);
    RunKeepsParked(g, exit, 0, run);
    ParkedReachesExit(After(g, exit, 0, run), exit, 0);
  }

  lemma {:induction false} RunKeepsParked(g: Graph, exit: string, unreviewed: int, run: seq<string>)
    requires IsRun(g, exit, unreviewed, run) && exit in g
    ensures exit in After(g, exit, unreviewed, run)
    ensures After(g, exit, unreviewed, run)[exit].status == Parked <==> g[exit].status == Parked
    decreases run
  {
    if run != [] {
      LandedAfter(g, run[0], exit);
      RunKeepsParked(Land(g, run[0]), exit, unreviewed, run[1..]);
    }
  }
}
