/**
 `macosLanes` (tools/generate-macos-lanes.ts) can return a placement its own feasibility test
 rejects: the greedy pass prefers a hosted lane for a job whose hosted cost is unmeasured, and
 every feasible placement ends later, so the search accepts none.
 */
module InfeasiblePlacement {
  import opened Basics
  import opened LaneSimulation
  import opened LanePlacement
  import opened Parts
  import opened RealLists
  import opened Sorting
  import opened GreedyPlacement
  import opened LanePlans
  import LaneGuarantees

  const OWN_1 := Job("own-1", OWN_KEY, "macos-15", "", 30.0)
  const OWN_2 := Job("own-2", OWN_KEY, "macos-15", "", 20.0)
  const OWN_3 := Job("own-3", OWN_KEY, "macos-15", "", 10.0)
  const NATIVE := Job("unmeasured", "native", "macos-15", "", 10.0)
  const JOBS := [OWN_1, OWN_2, OWN_3, NATIVE]

  const ROUNDING := 0.000001

  /** One Mac lane on which every job takes five seconds after a minute of readiness. */
  function Example(): (c: Costs)
    ensures CostsOk(c)
  {
    Costs(Model(_ => 5.0, (_, _) => 1.0, 60.0, ROUNDING), 2.0, [], [], 1, ROUNDING)
  }

  lemma {:induction false} FiveEach(lane: Lane, n: nat)
    requires n <= |lane|
    ensures LaneGuarantees.Total(Example().model, lane, n) == 5.0 * n as real
  {
    if n > 0 {
      FiveEach(lane, n - 1);
    }
  }

  /** The only Mac lane ends one minute plus five seconds a job after the start, up to rounding. */
  lemma MacEnd(lanes: seq<Lane>)
    requires |lanes| == 1
    ensures var n := |lanes[0]| as real;
      60.0 + 5.0 * n - ROUNDING * n <= LaneEnds(Example().model, lanes)[0] <= 60.0 + 5.0 * n
  {
    LaneGuarantees.LaneEndBounds(Example().model, lanes, 0, 1.0);
    FiveEach(lanes[0], |lanes[0]|);
  }

  // ----- What the greedy pass does -----

  lemma PlaceOneMore(c: Costs, init: seq<Job>, j: Job)
    requires CostsOk(c) && PlaceAll(c, init).Placed?
    ensures PlaceAll(c, init + [j]) == PlaceJob(c, PlaceAll(c, init).greedy, j)
  {
    assert (init + [j])[..|init|] == init;
  }

  /** With a Mac lane an own-key job goes to the first one, whatever the costs. */
  lemma OwnKeyGoesFirst(c: Costs, g: Greedy, j: Job)
    requires CostsOk(c) && Shaped(c, g) && c.macLanes > 0 && IsOwnKey(j) && j.os == "macos-15"
    ensures PlaceJob(c, g, j).Placed?
    ensures var h := PlaceJob(c, g, j).greedy;
      h.lanes == Push(g.lanes, HOSTED_LANES, j) && h.loads == g.loads
  {
    assert Allowed(c, g.lanes, j, HOSTED_LANES);
    BestIsLeast(c, g, j, |g.lanes|, HOSTED_LANES);
  }

  lemma MacProjection(g: Greedy, j: Job)
    requires Shaped(Example(), g)
    ensures Projected(Example(), g, j, HOSTED_LANES) >= 60.0
  {
    var c := Example();
    var ends := MacEndsWith(c, g, j, HOSTED_LANES);
    MacEnd(Push(g.lanes, HOSTED_LANES, j)[HOSTED_LANES..]);
    assert Delayed(g.macEnds, ends, 0, 1) == [ends[0]];
  }

  /** The hosted surcharge never outweighs the readiness minute. */
  lemma NativeGoesToHosted(g: Greedy)
    requires Shaped(Example(), g) && g.loads[0] == 0.0 && g.lanes[0] == []
    ensures PlaceJob(Example(), g, NATIVE).Placed?
    ensures exists l | 0 <= l < HOSTED_LANES :: PlaceJob(Example(), g, NATIVE).greedy.lanes == Push(g.lanes, l, NATIVE)
  {
    var c := Example();
    assert ReservationOk(g.lanes, NATIVE, 0);
    assert Allowed(c, g.lanes, NATIVE, 0);
    BestIsLeast(c, g, NATIVE, |g.lanes|, 0);
    var best := Best(c, g, NATIVE, |g.lanes|).value;
    MacProjection(g, NATIVE);
    assert PlaceJob(c, g, NATIVE).greedy.lanes == Push(g.lanes, best.lane, NATIVE);
  }

  ghost predicate Misplaced(lanes: seq<Lane>) {
    && |lanes| == HOSTED_LANES + 1
    && lanes[HOSTED_LANES] == [OWN_1, OWN_2, OWN_3]
    && exists l | 0 <= l < HOSTED_LANES :: HoldsOnly(lanes, l)
  }

  /** Among the hosted lanes only lane `l` holds a job, the unmeasured one. */
  ghost predicate HoldsOnly(lanes: seq<Lane>, l: nat)
    requires |lanes| == HOSTED_LANES + 1 && l < HOSTED_LANES
  {
    lanes[l] == [NATIVE] && forall k | 0 <= k < HOSTED_LANES && k != l :: lanes[k] == []
  }

  /** Nothing is placed but the own-key shards of the Mac lane. */
  ghost predicate OnlyMac(g: Greedy, lane: Lane) {
    && Shaped(Example(), g) && g.loads[0] == 0.0
    && g.lanes[HOSTED_LANES] == lane && forall l | 0 <= l < HOSTED_LANES :: g.lanes[l] == []
  }

  lemma OwnKeyKeeps(g: Greedy, lane: Lane, j: Job)
    requires OnlyMac(g, lane) && IsOwnKey(j) && j.os == "macos-15"
    ensures var r := PlaceJob(Example(), g, j); r.Placed? && OnlyMac(r.greedy, lane + [j])
  {
    OwnKeyGoesFirst(Example(), g, j);
  }

  lemma OwnKeyStep(init: seq<Job>, j: Job)
    requires IsOwnKey(j) && j.os == "macos-15"
    requires var r := PlaceAll(Example(), init); r.Placed? && OnlyMac(r.greedy, init)
    ensures var r := PlaceAll(Example(), init + [j]); r.Placed? && OnlyMac(r.greedy, init + [j])
  {
    PlaceOneMore(Example(), init, j);
    OwnKeyKeeps(PlaceAll(Example(), init).greedy, init, j);
  }

  lemma NativeMisplaced(g: Greedy)
    requires OnlyMac(g, [OWN_1, OWN_2, OWN_3])
    ensures PlaceJob(Example(), g, NATIVE).Placed? && Misplaced(PlaceJob(Example(), g, NATIVE).greedy.lanes)
  {
    NativeGoesToHosted(g);
    var lanes := PlaceJob(Example(), g, NATIVE).greedy.lanes;
    var l :| 0 <= l < HOSTED_LANES && lanes == Push(g.lanes, l, NATIVE);
    assert [] + [NATIVE] == [NATIVE];
    assert HoldsOnly(lanes, l);
  }

  lemma GreedyMisplaces()
    ensures PlaceAll(Example(), JOBS).Placed? && Misplaced(PlaceAll(Example(), JOBS).greedy.lanes)
  {
    OwnKeyStep([], OWN_1);
    OwnKeyStep([] + [OWN_1], OWN_2);
    OwnKeyStep([] + [OWN_1] + [OWN_2], OWN_3);
    var own := [] + [OWN_1] + [OWN_2] + [OWN_3];
    assert own == [OWN_1, OWN_2, OWN_3];
    assert JOBS == own + [NATIVE];
    PlaceOneMore(Example(), own, NATIVE);
    NativeMisplaced(PlaceAll(Example(), own).greedy);
  }

  lemma OwnKeysAreInOrder()
    ensures PlacementOrder(Example(), [OWN_1, OWN_2, OWN_3]) == [OWN_1, OWN_2, OWN_3]
  {
    var one, two := [OWN_1], [OWN_1, OWN_2];
    assert [] + [OWN_1] == one && one + [OWN_2] == two && two + [OWN_3] == [OWN_1, OWN_2, OWN_3];
    OrderOneMore(Example(), [], OWN_1);
    OrderOneMore(Example(), one, OWN_2);
    OrderOneMore(Example(), two, OWN_3);
  }

  lemma JobsAreInOrder()
    ensures PlacementOrder(Example(), JOBS) == JOBS
  {
    OwnKeysAreInOrder();
    var own := [OWN_1, OWN_2, OWN_3];
    assert own + [NATIVE] == JOBS;
    OrderOneMore(Example(), own, NATIVE);
  }

  /** A job no sooner than any placed before it comes last. */
  lemma OrderOneMore(c: Costs, s: seq<Job>, j: Job)
    requires PlacementOrder(c, s) == s && forall k | 0 <= k < |s| :: !Sooner(c, j, s[k])
    ensures PlacementOrder(c, s + [j]) == s + [j]
  {
    assert (s + [j])[..|s|] == s;
    InsertLast(PlacedBefore(c), j, s);
  }

  // ----- No feasible placement is accepted -----

  lemma NoneFitsHosted(j: Job)
    requires j in JOBS
    ensures IsOwnKey(j) || SelfHostedEligible(j)
  {}

  /** A feasible placement of these jobs leaves the hosted lanes empty. */
  lemma FeasibleHoldsAllOnMac(lanes: seq<Lane>)
    requires |lanes| == HOSTED_LANES + 1 && AllOf(lanes) == multiset(JOBS) && Feasible(lanes, [], 1)
    ensures |lanes[HOSTED_LANES]| == 4
  {
    forall l | 0 <= l < HOSTED_LANES ensures lanes[l] == [] {
      assert LaneOk(lanes, [], l);
      if lanes[l] != [] {
        var j := lanes[l][0];
        HeldSomewhere(lanes, j);
        assert j in JOBS;
        NoneFitsHosted(j);
        assert false;
      }
    }
    NothingYet(lanes[..HOSTED_LANES]);
    assert multiset(lanes[HOSTED_LANES]) == multiset(JOBS);
    assert |multiset(lanes[HOSTED_LANES])| == |multiset(JOBS)|;
  }

  lemma MaxEndAtLeastMac(lanes: seq<Lane>)
    requires |lanes| == HOSTED_LANES + 1
    ensures var n := |lanes[HOSTED_LANES]| as real;
      MaxEnd(Example().model, lanes) >= 60.0 + 5.0 * n - ROUNDING * n
  {
    MacEnd(lanes[HOSTED_LANES..]);
    var ends := MacosLaneEnds(Example().model, lanes);
    assert ends[HOSTED_LANES] in ends;
  }

  lemma CanonicalSize(lane: Lane)
    ensures |CanonicalLane(lane)| == |lane|
  {
    assert |multiset(CanonicalLane(lane))| == |multiset(lane)|;
  }

  lemma OneJobEnd(lane: Lane)
    requires lane == [] || lane == [NATIVE]
    ensures HostedEnd(CanonicalLane(lane)) <= 10.0
  {
    CanonicalSize(lane);
    if lane != [] {
      assert CanonicalLane(lane)[0] in multiset(CanonicalLane(lane));
      assert CanonicalLane(lane)[..0] == [];
    }
  }

  lemma MaxEndBelow(lanes: seq<Lane>, bound: real)
    requires |lanes| == HOSTED_LANES + 1 && 60.0 + 5.0 * |lanes[HOSTED_LANES]| as real <= bound
    requires forall l | 0 <= l < HOSTED_LANES :: HostedEnd(lanes[l]) <= bound
    ensures MaxEnd(Example().model, lanes) <= bound
  {
    MacEnd(lanes[HOSTED_LANES..]);
    var ends := MacosLaneEnds(Example().model, lanes);
    forall l | 0 <= l < |ends| ensures ends[l] <= bound {
      if l < HOSTED_LANES {
        assert ends[l] == HostedEnd(lanes[l]);
      }
    }
    AllBelow(ends, bound);
  }

  lemma AllBelow(xs: seq<real>, bound: real)
    requires xs != [] && forall l | 0 <= l < |xs| :: xs[l] <= bound
    ensures Largest(xs) <= bound
  {
    var x := Largest(xs);
    assert x in xs;
  }

  lemma MisplacedEnd(lanes: seq<Lane>)
    requires Misplaced(lanes)
    ensures MaxEnd(Example().model, CanonicalLanes(lanes)) <= 75.0
  {
    var canonical := CanonicalLanes(lanes);
    CanonicalSize(lanes[HOSTED_LANES]);
    forall l | 0 <= l < HOSTED_LANES ensures HostedEnd(canonical[l]) <= 10.0 {
      OneJobEnd(lanes[l]);
    }
    MaxEndBelow(canonical, 75.0);
  }

  lemma MisplacedPlan(greedy: seq<Lane>, lanes: seq<Lane>)
    requires Misplaced(greedy) && IsPlan(Example(), JOBS, greedy, lanes)
    ensures !Feasible(lanes, [], 1)
  {
    MisplacedEnd(greedy);
    PlanIsCanonical(Example(), JOBS, greedy, lanes);
    if Feasible(lanes, [], 1) {
      FeasibleHoldsAllOnMac(lanes);
      MaxEndAtLeastMac(lanes);
      assert false;
    }
  }

  /** Whatever number of Mac lanes is allowed, the plan for these jobs is infeasible. */
  lemma PlanIsInfeasible(maxMacLanes: nat, r: Plan)
    requires maxMacLanes > 0 && Answers(Example(), JOBS, maxMacLanes, r)
    ensures r.Plan? && !Feasible(r.lanes, Example().measured, Example().macLanes)
  {
    JobsAreInOrder();
    GreedyMisplaces();
    MisplacedPlan(PlaceAll(Example(), JOBS).greedy.lanes, r.lanes);
  }
}
