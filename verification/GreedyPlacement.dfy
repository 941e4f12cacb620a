/**
 The constrained greedy placement of `macosLanes`. It only surcharges an unmeasured job on a
 hosted lane where the feasibility test forbids it, so its own result is feasible exactly under
 a condition stated below.
 */
module GreedyPlacement {
  import opened Basics
  import opened CodeUnits
  import opened LaneSimulation
  import opened LanePlacement
  import opened Parts
  import opened RealLists
  import opened Sorting
  import LaneGuarantees

  /**
   Costs, the surcharge on unmeasured hosted jobs, the names with a Mac measurement and with a
   hosted one, the number of Mac lanes, and the improvement margin.
   */
  datatype Costs = Costs(model: Model, allowance: real, timed: seq<string>, measured: seq<string>, macLanes: nat,
                         margin: real)

  ghost predicate CostsOk(c: Costs) {
    ModelOk(c.model) && c.margin >= 0.0
  }

  datatype Greedy = Greedy(lanes: seq<Lane>, loads: seq<real>, macEnds: seq<real>)

  predicate Shaped(c: Costs, g: Greedy) {
    |g.lanes| == |g.loads| == HOSTED_LANES + c.macLanes && |g.macEnds| == c.macLanes
  }

  function EmptyGreedy(c: Costs): (g: Greedy)
    requires CostsOk(c)
    ensures Shaped(c, g)
  {
    Greedy(seq(HOSTED_LANES + c.macLanes, _ => []), seq(HOSTED_LANES + c.macLanes, _ => 0.0),
           LaneEnds(c.model, seq(c.macLanes, _ => [])))
  }

  // ----- Which lanes may take a job -----

  function EligibleLanes(c: Costs, j: Job): nat {
    if SelfHostedEligible(j) then HOSTED_LANES + c.macLanes else HOSTED_LANES
  }

  predicate HoldsSuite(lane: Lane, suite: Option<string>) {
    exists p | p in lane :: SanitizerSuite(p) == suite
  }

  /** The first lane that already holds a job of the suite, or the lane count. */
  function Reserved(lanes: seq<Lane>, suite: Option<string>): (l: nat)
    ensures l <= |lanes|
    ensures forall k | 0 <= k < l :: !HoldsSuite(lanes[k], suite)
    ensures l < |lanes| ==> HoldsSuite(lanes[l], suite)
  {
    if lanes == [] || HoldsSuite(lanes[0], suite) then 0
    else
      var rest := Reserved(lanes[1..], suite);
      assert forall k | 1 <= k < 1 + rest :: lanes[k] == lanes[1..][k - 1];
      1 + rest
  }

  /** A hosted lane serves one sanitizer suite or none. */
  predicate ReservationOk(lanes: seq<Lane>, j: Job, candidate: nat)
    requires candidate < |lanes|
  {
    var suite := SanitizerSuite(j);
    var reserved := Reserved(lanes, suite);
    if suite.Some? && reserved < |lanes| then candidate == reserved
    else !(exists p | p in lanes[candidate] :: IsSanitizer(p)) && !(suite.Some? && lanes[candidate] != [])
  }

  predicate Allowed(c: Costs, lanes: seq<Lane>, j: Job, candidate: nat)
    requires |lanes| == HOSTED_LANES + c.macLanes
  {
    && candidate < EligibleLanes(c, j)
    && (IsOwnKey(j) && c.macLanes > 0 ==> candidate == HOSTED_LANES)
    && (c.macLanes > 0 && candidate < HOSTED_LANES ==> ReservationOk(lanes, j, candidate))
  }

  // ----- Projected ends -----

  predicate Unmeasured(c: Costs, j: Job) {
    SelfHostedEligible(j) && j.name !in c.measured
  }

  /** The ends of the Mac lanes once lane `candidate` takes the job. */
  function MacEndsWith(c: Costs, g: Greedy, j: Job, candidate: nat): (ends: seq<real>)
    requires CostsOk(c) && Shaped(c, g) && HOSTED_LANES <= candidate < |g.lanes|
    ensures |ends| == c.macLanes
  {
    LaneEnds(c.model, Push(g.lanes, candidate, j)[HOSTED_LANES..])
  }

  /** The ends that count: the candidate lane's own, and those that the new overlap delays. */
  function Delayed(before: seq<real>, now: seq<real>, own: nat, n: nat): (r: seq<real>)
    requires |before| == |now| && n <= |now|
    ensures own < n ==> r != []
  {
    if n == 0 then []
    else Delayed(before, now, own, n - 1) + if n - 1 == own || now[n - 1] > before[n - 1] then [now[n - 1]] else []
  }

  /** What a job adds to a hosted lane's projected end: more than it takes when its cost is unmeasured. */
  function Charge(c: Costs, j: Job): real {
    j.seconds * (if Unmeasured(c, j) then c.allowance else 1.0)
  }

  function Projected(c: Costs, g: Greedy, j: Job, candidate: nat): real
    requires CostsOk(c) && Shaped(c, g) && candidate < |g.lanes|
  {
    if candidate < HOSTED_LANES then
      g.loads[candidate] + Charge(c, j)
    else
      Largest(Delayed(g.macEnds, MacEndsWith(c, g, j, candidate), candidate - HOSTED_LANES, c.macLanes))
  }

  datatype Choice = Choice(lane: nat, finish: real)

  /** The first allowed lane of least projected end among the first `n`. */
  function Best(c: Costs, g: Greedy, j: Job, n: nat): (r: Option<Choice>)
    requires CostsOk(c) && Shaped(c, g) && n <= |g.lanes|
    ensures r.Some? ==> r.value.lane < n && Allowed(c, g.lanes, j, r.value.lane)
    ensures r == None <==> forall k | 0 <= k < n :: !Allowed(c, g.lanes, j, k)
  {
    if n == 0 then None
    else
      var best := Best(c, g, j, n - 1);
      if !Allowed(c, g.lanes, j, n - 1) then best
      else
        var projected := Projected(c, g, j, n - 1);
        if best == None || projected < best.value.finish then Some(Choice(n - 1, projected)) else best
  }

  function Put(c: Costs, g: Greedy, j: Job, choice: Choice): (r: Greedy)
    requires CostsOk(c) && Shaped(c, g) && choice.lane < |g.lanes|
    ensures Shaped(c, r)
  {
    var lanes := Push(g.lanes, choice.lane, j);
    if choice.lane < HOSTED_LANES then Greedy(lanes, g.loads[choice.lane := choice.finish], g.macEnds)
    else Greedy(lanes, g.loads, MacEndsWith(c, g, j, choice.lane))
  }

  datatype Outcome = Placed(greedy: Greedy) | NoLane(job: Job) | OwnKeyIneligible(job: Job)

  function PlaceJob(c: Costs, g: Greedy, j: Job): (r: Outcome)
    requires CostsOk(c) && Shaped(c, g)
    ensures r.Placed? ==> Shaped(c, r.greedy)
  {
    if IsOwnKey(j) && c.macLanes > 0 && EligibleLanes(c, j) != |g.lanes| then OwnKeyIneligible(j)
    else
      match Best(c, g, j, |g.lanes|)
      case None => NoLane(j)
      case Some(choice) => Placed(Put(c, g, j, choice))
  }

  function PlaceAll(c: Costs, jobs: seq<Job>): (r: Outcome)
    requires CostsOk(c)
    ensures r.Placed? ==> Shaped(c, r.greedy)
  {
    if jobs == [] then Placed(EmptyGreedy(c))
    else
      match PlaceAll(c, jobs[..|jobs| - 1])
      case Placed(g) => PlaceJob(c, g, jobs[|jobs| - 1])
      case other => other
  }

  // ----- The order of placement -----

  function Pinned(c: Costs, j: Job): int {
    if c.macLanes == 0 then 1
    else if IsOwnKey(j) then 0
    else if SelfHostedEligible(j) then 2
    else 1
  }

  predicate Sooner(c: Costs, a: Job, b: Job) {
    if Pinned(c, a) != Pinned(c, b) then Pinned(c, a) < Pinned(c, b)
    else if a.seconds != b.seconds then a.seconds > b.seconds
    else Less(a.name, b.name)
  }

  function PlacedBefore(c: Costs): (Job, Job) -> bool {
    (a, b) => Sooner(c, a, b)
  }

  function PlacementOrder(c: Costs, jobs: seq<Job>): (r: seq<Job>)
    ensures multiset(r) == multiset(jobs)
  {
    Sort(PlacedBefore(c), jobs)
  }

  // ----- What every placement keeps -----

  ghost predicate MacLanesEligible(lanes: seq<Lane>) {
    forall l, j | HOSTED_LANES <= l < |lanes| && j in lanes[l] :: SelfHostedEligible(j)
  }

  ghost predicate OwnKeyTogether(lanes: seq<Lane>) {
    forall l, j | 0 <= l < |lanes| && j in lanes[l] && IsOwnKey(j) :: l == HOSTED_LANES
  }

  ghost predicate OneSuitePerLane(lanes: seq<Lane>) {
    forall l, a, b | 0 <= l < |lanes| && a in lanes[l] && b in lanes[l] && IsSanitizer(a) ::
      SanitizerSuite(b) == SanitizerSuite(a)
  }

  ghost predicate OneLanePerSuite(lanes: seq<Lane>) {
    forall l, k, a, b | 0 <= l < |lanes| && 0 <= k < |lanes| && a in lanes[l] && b in lanes[k] ::
      IsSanitizer(a) && SanitizerSuite(b) == SanitizerSuite(a) ==> l == k
  }

  ghost predicate Rules(lanes: seq<Lane>) {
    MacLanesEligible(lanes) && OwnKeyTogether(lanes) && OneSuitePerLane(lanes) && OneLanePerSuite(lanes)
  }

  lemma PushMember(lanes: seq<Lane>, l: nat, j: Job, k: nat, p: Job)
    requires l < |lanes| && k < |lanes|
    ensures p in Push(lanes, l, j)[k] <==> p in lanes[k] || (k == l && p == j)
  {}

  lemma PushKeepsPlaces(c: Costs, lanes: seq<Lane>, j: Job, l: nat)
    requires |lanes| == HOSTED_LANES + c.macLanes && c.macLanes > 0 && l < |lanes| && Allowed(c, lanes, j, l)
    requires MacLanesEligible(lanes) && OwnKeyTogether(lanes)
    ensures MacLanesEligible(Push(lanes, l, j)) && OwnKeyTogether(Push(lanes, l, j))
  {
    var grown := Push(lanes, l, j);
    forall k, p | 0 <= k < |grown| && p in grown[k]
      ensures k >= HOSTED_LANES ==> SelfHostedEligible(p)
      ensures IsOwnKey(p) ==> k == HOSTED_LANES
    {
      PushMember(lanes, l, j, k, p);
    }
  }

  /** A sanitizer job never reaches a Mac lane, so its lane obeys the reservation. */
  lemma SanitizerIsHosted(c: Costs, lanes: seq<Lane>, j: Job, l: nat)
    requires |lanes| == HOSTED_LANES + c.macLanes && l < |lanes| && Allowed(c, lanes, j, l) && IsSanitizer(j)
    ensures l < HOSTED_LANES
  {}

  lemma SanitizerIneligible(p: Job)
    requires IsSanitizer(p)
    ensures !SelfHostedEligible(p)
  {}

  lemma SanitizersAreHosted(lanes: seq<Lane>, l: nat, p: Job)
    requires l < |lanes| && p in lanes[l] && MacLanesEligible(lanes)
    ensures IsSanitizer(p) ==> l < HOSTED_LANES
  {
    if IsSanitizer(p) {
      SanitizerIneligible(p);
    }
  }

  lemma NewJobMatchesLane(c: Costs, lanes: seq<Lane>, j: Job, l: nat, p: Job)
    requires |lanes| == HOSTED_LANES + c.macLanes && c.macLanes > 0 && l < |lanes| && Allowed(c, lanes, j, l)
    requires Rules(lanes) && p in lanes[l] && (IsSanitizer(j) || IsSanitizer(p))
    ensures SanitizerSuite(p) == SanitizerSuite(j)
  {
    SanitizersAreHosted(lanes, l, p);
    var reserved := Reserved(lanes, SanitizerSuite(j));
    assert IsSanitizer(j) && reserved < |lanes| by {
      assert ReservationOk(lanes, j, l);
    }
    var q :| q in lanes[l] && SanitizerSuite(q) == SanitizerSuite(j);
    assert IsSanitizer(q);
  }

  lemma NewJobsSuiteIsHere(c: Costs, lanes: seq<Lane>, j: Job, l: nat, k: nat, p: Job)
    requires |lanes| == HOSTED_LANES + c.macLanes && c.macLanes > 0 && l < |lanes| && Allowed(c, lanes, j, l)
    requires Rules(lanes) && k < |lanes| && p in lanes[k] && IsSanitizer(j)
    requires SanitizerSuite(p) == SanitizerSuite(j)
    ensures k == l
  {
    SanitizerIsHosted(c, lanes, j, l);
    var reserved := Reserved(lanes, SanitizerSuite(j));
    assert HoldsSuite(lanes[k], SanitizerSuite(j));
    assert l == reserved;
    var q :| q in lanes[l] && SanitizerSuite(q) == SanitizerSuite(j);
    assert IsSanitizer(q);
  }

  lemma PushKeepsSuites(c: Costs, lanes: seq<Lane>, j: Job, l: nat)
    requires |lanes| == HOSTED_LANES + c.macLanes && c.macLanes > 0 && l < |lanes| && Allowed(c, lanes, j, l)
    requires Rules(lanes)
    ensures OneSuitePerLane(Push(lanes, l, j)) && OneLanePerSuite(Push(lanes, l, j))
  {
    var grown := Push(lanes, l, j);
    forall k, a, b | 0 <= k < |grown| && a in grown[k] && b in grown[k] && IsSanitizer(a)
      ensures SanitizerSuite(b) == SanitizerSuite(a)
    {
      PushMember(lanes, l, j, k, a);
      PushMember(lanes, l, j, k, b);
      if a !in lanes[k] && b in lanes[k] {
        NewJobMatchesLane(c, lanes, j, l, b);
      } else if a in lanes[k] && b !in lanes[k] {
        NewJobMatchesLane(c, lanes, j, l, a);
      }
    }
    forall k, i, a, b | 0 <= k < |grown| && 0 <= i < |grown| && a in grown[k] && b in grown[i] && IsSanitizer(a)
        && SanitizerSuite(b) == SanitizerSuite(a)
      ensures k == i
    {
      PushMember(lanes, l, j, k, a);
      PushMember(lanes, l, j, i, b);
      if a !in lanes[k] && b in lanes[i] {
        NewJobsSuiteIsHere(c, lanes, j, l, i, b);
      } else if a in lanes[k] && b !in lanes[i] {
        NewJobsSuiteIsHere(c, lanes, j, l, k, a);
      }
    }
  }

  lemma PlaceJobKeepsRules(c: Costs, g: Greedy, j: Job)
    requires CostsOk(c) && Shaped(c, g) && PlaceJob(c, g, j).Placed?
    requires c.macLanes > 0 ==> Rules(g.lanes)
    ensures AllOf(PlaceJob(c, g, j).greedy.lanes) == AllOf(g.lanes) + multiset{j}
    ensures c.macLanes > 0 ==> Rules(PlaceJob(c, g, j).greedy.lanes)
  {
    var l := Best(c, g, j, |g.lanes|).value.lane;
    PushAdds(g.lanes, l, j);
    if c.macLanes > 0 {
      PushKeepsPlaces(c, g.lanes, j, l);
      PushKeepsSuites(c, g.lanes, j, l);
    }
  }

  /** For any jobs and costs, greedy placement places every job once and obeys its rules. */
  lemma {:induction false} GreedyKeepsRules(c: Costs, jobs: seq<Job>)
    requires CostsOk(c) && PlaceAll(c, jobs).Placed?
    ensures AllOf(PlaceAll(c, jobs).greedy.lanes) == multiset(jobs)
    ensures c.macLanes > 0 ==> Rules(PlaceAll(c, jobs).greedy.lanes)
  {
    if jobs == [] {
      NothingYet(EmptyGreedy(c).lanes);
    } else {
      var init, j := jobs[..|jobs| - 1], jobs[|jobs| - 1];
      assert jobs == init + [j];
      GreedyKeepsRules(c, init);
      PlaceJobKeepsRules(c, PlaceAll(c, init).greedy, j);
    }
  }

  // ----- Least projected end -----

  /** The chosen lane is the first of least projected end among the allowed ones. */
  lemma {:induction false} BestIsLeast(c: Costs, g: Greedy, j: Job, n: nat, k: nat)
    requires CostsOk(c) && Shaped(c, g) && k < n <= |g.lanes| && Allowed(c, g.lanes, j, k)
    ensures Best(c, g, j, n).Some?
    ensures var best := Best(c, g, j, n).value;
      && best.finish == Projected(c, g, j, best.lane)
      && best.finish <= Projected(c, g, j, k)
      && (k < best.lane ==> best.finish < Projected(c, g, j, k))
    decreases n
  {
    if k < n - 1 {
      BestIsLeast(c, g, j, n - 1, k);
    } else if Best(c, g, j, n - 1).Some? {
      BestIsLeast(c, g, j, n - 1, Best(c, g, j, n - 1).value.lane);
    }
  }

  // ----- The running ends are those of the lanes so far -----

  function ChargedEnd(c: Costs, lane: Lane): real {
    if lane == [] then 0.0 else ChargedEnd(c, lane[..|lane| - 1]) + Charge(c, lane[|lane| - 1])
  }

  /** Loads and Mac ends are what recomputing them from the lanes would give. */
  ghost predicate Current(c: Costs, g: Greedy)
    requires CostsOk(c) && Shaped(c, g)
  {
    && g.macEnds == LaneEnds(c.model, g.lanes[HOSTED_LANES..])
    && forall l | 0 <= l < HOSTED_LANES :: g.loads[l] == ChargedEnd(c, g.lanes[l])
  }

  lemma ChargedAppend(c: Costs, lane: Lane, j: Job)
    ensures ChargedEnd(c, lane + [j]) == ChargedEnd(c, lane) + Charge(c, j)
  {
    assert (lane + [j])[..|lane|] == lane;
  }

  lemma PutKeepsCurrent(c: Costs, g: Greedy, j: Job, choice: Choice)
    requires CostsOk(c) && Shaped(c, g) && Current(c, g) && choice.lane < |g.lanes|
    requires choice.finish == Projected(c, g, j, choice.lane)
    ensures Current(c, Put(c, g, j, choice))
  {
    var now := Put(c, g, j, choice);
    if choice.lane < HOSTED_LANES {
      assert now.lanes[HOSTED_LANES..] == g.lanes[HOSTED_LANES..];
      ChargedAppend(c, g.lanes[choice.lane], j);
    }
  }

  lemma PlaceJobKeepsCurrent(c: Costs, g: Greedy, j: Job)
    requires CostsOk(c) && Shaped(c, g) && Current(c, g) && PlaceJob(c, g, j).Placed?
    ensures Current(c, PlaceJob(c, g, j).greedy)
  {
    var choice := Best(c, g, j, |g.lanes|).value;
    BestIsLeast(c, g, j, |g.lanes|, choice.lane);
    PutKeepsCurrent(c, g, j, choice);
  }

  lemma EmptyIsCurrent(c: Costs)
    requires CostsOk(c)
    ensures Current(c, EmptyGreedy(c))
  {
    assert EmptyGreedy(c).lanes[HOSTED_LANES..] == seq(c.macLanes, _ => []);
  }

  /** The incrementally kept loads and ends never drift from the lanes they describe. */
  lemma {:induction false} GreedyIsCurrent(c: Costs, jobs: seq<Job>)
    requires CostsOk(c) && PlaceAll(c, jobs).Placed?
    ensures Current(c, PlaceAll(c, jobs).greedy)
  {
    if jobs == [] {
      EmptyIsCurrent(c);
    } else {
      GreedyIsCurrent(c, jobs[..|jobs| - 1]);
      PlaceJobKeepsCurrent(c, PlaceAll(c, jobs[..|jobs| - 1]).greedy, jobs[|jobs| - 1]);
    }
  }

  lemma EndOnItsMachine(m: Model, lanes: seq<Lane>, k: nat, side: nat)
    requires ModelOk(m) && m.tolerance == 0.0 && side < 2 && 2 * k + side < |lanes|
    ensures var own := LaneEnds(m, LaneGuarantees.MachineLanes(lanes, k));
      side < |own| && LaneEnds(m, lanes)[2 * k + side] == own[side]
  {
    LaneGuarantees.MachinesAreIndependent(m, lanes, k);
    LaneOfMachine(LaneEnds(m, lanes), k, side);
  }

  lemma LaneOfMachine<T>(xs: seq<T>, k: nat, side: nat)
    requires side < 2 && 2 * k + side < |xs|
    ensures side < |LaneGuarantees.MachineLanes(xs, k)|
    ensures LaneGuarantees.MachineLanes(xs, k)[side] == xs[2 * k + side]
  {}

  /** A job placed on a Mac lane moves no end of another machine, in exact arithmetic. */
  lemma OtherMachinesKeepTheirEnds(m: Model, lanes: seq<Lane>, l: nat, j: Job, i: nat)
    requires ModelOk(m) && m.tolerance == 0.0 && l < |lanes| && i < |lanes| && i / 2 != l / 2
    ensures LaneEnds(m, Push(lanes, l, j))[i] == LaneEnds(m, lanes)[i]
  {
    var pushed := Push(lanes, l, j);
    var k, side := i / 2, i % 2;
    assert LaneGuarantees.MachineLanes(pushed, k) == LaneGuarantees.MachineLanes(lanes, k);
    EndOnItsMachine(m, lanes, k, side);
    EndOnItsMachine(m, pushed, k, side);
  }

  // ----- When the greedy placement is feasible -----

  /** No hosted lane holds an eligible job whose hosted cost is unmeasured. */
  predicate HostedMeasured(c: Costs, lanes: seq<Lane>) {
    forall l | 0 <= l < HOSTED_LANES && l < |lanes| :: forall j | j in lanes[l] :: !Unmeasured(c, j)
  }

  /** The feasibility test accepts a rule-abiding placement exactly when nothing hosted is unmeasured. */
  lemma FeasibleIff(c: Costs, lanes: seq<Lane>)
    requires c.macLanes > 0 && |lanes| == HOSTED_LANES + c.macLanes && Rules(lanes)
    ensures Feasible(lanes, c.measured, c.macLanes) <==>
      HostedMeasured(c, lanes) && |OwnKeyJobs(lanes[HOSTED_LANES])| == 3
  {
    forall l | 0 <= l < |lanes|
      ensures LaneOk(lanes, c.measured, l) <==>
        (l < HOSTED_LANES ==> forall j | j in lanes[l] :: !Unmeasured(c, j))
    {
    }
  }

  /** Reordering a lane does not change what the feasibility test sees. */
  lemma CanonicalKeepsOwnKeys(lane: Lane)
    ensures OwnKeyJobs(CanonicalLane(lane)) == OwnKeyJobs(lane)
    ensures forall j :: j in CanonicalLane(lane) <==> j in lane
  {
    LaneSplits(lane);
    SameMembers(CanonicalLane(lane), lane);
    var own, rest := OwnKeyJobs(lane), SortJobs(OtherJobs(lane));
    SameMembers(rest, OtherJobs(lane));
    ChosenConcat(IsOwnKey, own, rest);
    ChosenAllOrNone(IsOwnKey, own);
    ChosenAllOrNone(IsOwnKey, rest);
  }

  ghost predicate SameLane(a: Lane, b: Lane) {
    forall j :: j in a <==> j in b
  }

  lemma SameLaneHosted(a: Lane, b: Lane, measured: seq<string>)
    requires SameLane(a, b) && HostedLaneOk(a, measured)
    ensures HostedLaneOk(b, measured)
  {
  }

  lemma SameLaneOk(a: Lane, b: Lane, measured: seq<string>)
    requires SameLane(a, b)
    ensures HostedLaneOk(a, measured) <==> HostedLaneOk(b, measured)
    ensures MacLaneOk(a) <==> MacLaneOk(b)
    ensures Carries(a) <==> Carries(b)
  {
    if HostedLaneOk(a, measured) {
      SameLaneHosted(a, b, measured);
    }
    if HostedLaneOk(b, measured) {
      SameLaneHosted(b, a, measured);
    }
  }

  lemma CanonicalKeepsLaneOk(lanes: seq<Lane>, measured: seq<string>, l: nat)
    requires l < |lanes|
    ensures LaneOk(CanonicalLanes(lanes), measured, l) <==> LaneOk(lanes, measured, l)
    ensures Carries(CanonicalLanes(lanes)[l]) <==> Carries(lanes[l])
  {
    CanonicalKeepsOwnKeys(lanes[l]);
    SameLaneOk(CanonicalLane(lanes[l]), lanes[l], measured);
  }

  lemma FeasibleCanonical(lanes: seq<Lane>, measured: seq<string>, n: nat)
    ensures Feasible(CanonicalLanes(lanes), measured, n) <==> Feasible(lanes, measured, n)
  {
    forall l | 0 <= l < |lanes|
      ensures LaneOk(CanonicalLanes(lanes), measured, l) <==> LaneOk(lanes, measured, l)
      ensures Carries(CanonicalLanes(lanes)[l]) <==> Carries(lanes[l])
    {
      CanonicalKeepsLaneOk(lanes, measured, l);
    }
    if |lanes| > HOSTED_LANES {
      CanonicalKeepsOwnKeys(lanes[HOSTED_LANES]);
    }
  }

  // ----- The source's loops -----

  method ChooseLane(c: Costs, g: Greedy, j: Job) returns (best: Option<Choice>)
    requires CostsOk(c) && Shaped(c, g)
    ensures best == Best(c, g, j, |g.lanes|)
  {
    best := None;
    for candidate := 0 to |g.lanes|
      invariant best == Best(c, g, j, candidate)
    {
      if Allowed(c, g.lanes, j, candidate) {
        var projected := Projected(c, g, j, candidate);
        if best == None || projected < best.value.finish {
          best := Some(Choice(candidate, projected));
        }
      }
    }
  }

  method PlaceJobs(c: Costs, jobs: seq<Job>) returns (r: Outcome)
    requires CostsOk(c)
    ensures r == PlaceAll(c, jobs)
  {
    var g := EmptyGreedy(c);
    for i := 0 to |jobs|
      invariant Shaped(c, g) && PlaceAll(c, jobs[..i]) == Placed(g)
    {
      var j := jobs[i];
      assert jobs[..i + 1][..i] == jobs[..i];
      if IsOwnKey(j) && c.macLanes > 0 && EligibleLanes(c, j) != |g.lanes| {
        FailureStays(c, jobs, i + 1);
        return OwnKeyIneligible(j);
      }
      var best := ChooseLane(c, g, j);
      if best == None {
        FailureStays(c, jobs, i + 1);
        return NoLane(j);
      }
      g := Put(c, g, j, best.value);
    }
    assert jobs[..|jobs|] == jobs;
    r := Placed(g);
  }

  lemma {:induction false} FailureStays(c: Costs, jobs: seq<Job>, n: nat)
    requires CostsOk(c) && n <= |jobs| && !PlaceAll(c, jobs[..n]).Placed?
    ensures PlaceAll(c, jobs) == PlaceAll(c, jobs[..n])
    decreases |jobs|
  {
    if n < |jobs| {
      assert jobs[..|jobs| - 1][..n] == jobs[..n];
      FailureStays(c, jobs[..|jobs| - 1], n);
    } else {
      assert jobs[..n] == jobs;
    }
  }
}
