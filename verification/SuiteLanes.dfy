/**
 Whether the search keeps a sanitizer suite on one lane, as the greedy placement does. The
 feasibility test never asks for it: a suite is split exactly when the returned placement ends
 before the suite's jobs take back to back.
 */
module SuiteLanes {
  import opened Basics
  import opened Courses
  import opened LaneSimulation
  import opened LanePlacement
  import opened Parts
  import opened RealLists
  import opened Sorting
  import opened GreedyPlacement
  import opened LaneRefinement
  import opened LanePlans

  function InSuite(suite: string): Job -> bool {
    (j: Job) => SanitizerSuite(j) == Some(suite)
  }

  /** One lane holds every job of the suite. */
  ghost predicate Together(lanes: seq<Lane>, suite: string) {
    forall l, k, a, b | 0 <= l < |lanes| && 0 <= k < |lanes| && a in lanes[l] && b in lanes[k] ::
      InSuite(suite)(a) && InSuite(suite)(b) ==> l == k
  }

  /** The suite's jobs back to back. */
  function SuiteSeconds(jobs: seq<Job>, suite: string): real {
    HostedEnd(Chosen(InSuite(suite), jobs))
  }

  ghost predicate Durations(jobs: multiset<Job>) {
    forall j | j in jobs :: j.seconds >= 0.0
  }

  lemma OneLanePerSuiteIff(lanes: seq<Lane>)
    ensures OneLanePerSuite(lanes) <==> forall suite :: Together(lanes, suite)
  {
    if forall suite :: Together(lanes, suite) {
      forall l, k, a, b | 0 <= l < |lanes| && 0 <= k < |lanes| && a in lanes[l] && b in lanes[k]
          && IsSanitizer(a) && SanitizerSuite(b) == SanitizerSuite(a)
        ensures l == k
      {
        assert Together(lanes, a.suite);
        assert InSuite(a.suite)(a) && InSuite(a.suite)(b);
      }
    }
  }

  // ----- Sums of seconds -----

  lemma {:induction false} HostedEndWithout(lane: Lane, i: nat)
    requires i < |lane|
    ensures HostedEnd(Without(lane, i)) == HostedEnd(lane) - lane[i].seconds
  {
    var n := |lane| - 1;
    if i < n {
      HostedEndWithout(lane[..n], i);
      var less := Without(lane, i);
      assert less[..n - 1] == Without(lane[..n], i) && less[n - 1] == lane[n];
    } else {
      assert Without(lane, i) == lane[..n];
    }
  }

  /** The end of a hosted lane does not depend on its order. */
  lemma {:induction false} HostedEndSame(a: Lane, b: Lane)
    requires multiset(a) == multiset(b)
    ensures HostedEnd(a) == HostedEnd(b)
  {
    if a == [] {
      assert b == [] by {
        assert |multiset(b)| == 0;
      }
    } else {
      var n := |a| - 1;
      assert a == a[..n] + [a[n]];
      assert a[n] in multiset(b);
      var i :| 0 <= i < |b| && b[i] == a[n];
      WithoutKeeps(b, i);
      assert multiset(a[..n]) == multiset(a) - multiset{a[n]};
      assert multiset(Without(b, i)) == multiset(b) - multiset{a[n]};
      HostedEndSame(a[..n], Without(b, i));
      HostedEndWithout(b, i);
    }
  }

  lemma {:induction false} HostedEndNonNegative(lane: Lane)
    requires forall j | j in lane :: j.seconds >= 0.0
    ensures HostedEnd(lane) >= 0.0
  {
    if lane != [] {
      assert forall j | j in lane[..|lane| - 1] :: j in lane;
      HostedEndNonNegative(lane[..|lane| - 1]);
    }
  }

  // ----- Ends of a placement -----

  lemma EndIsBelowMax(m: Model, lanes: seq<Lane>, l: nat)
    requires ModelOk(m) && |lanes| >= HOSTED_LANES && l < |lanes|
    ensures MacosLaneEnds(m, lanes)[l] <= MaxEnd(m, lanes)
    ensures l < HOSTED_LANES ==> MacosLaneEnds(m, lanes)[l] == HostedEnd(lanes[l])
  {
    var ends := MacosLaneEnds(m, lanes);
    assert ends[l] in ends;
  }

  lemma SomeEndIsMax(m: Model, lanes: seq<Lane>) returns (l: nat)
    requires ModelOk(m) && |lanes| >= HOSTED_LANES
    ensures l < |lanes| && MacosLaneEnds(m, lanes)[l] == MaxEnd(m, lanes)
  {
    var ends := MacosLaneEnds(m, lanes);
    var x := MaxEnd(m, lanes);
    assert x in ends;
    l :| 0 <= l < |ends| && ends[l] == x;
  }

  lemma UnchangedEnd(m: Model, a: seq<Lane>, b: seq<Lane>, l: nat)
    requires ModelOk(m) && |a| == |b| && |a| >= HOSTED_LANES && l < |a|
    requires b[HOSTED_LANES..] == a[HOSTED_LANES..] && (l < HOSTED_LANES ==> b[l] == a[l])
    ensures MacosLaneEnds(m, b)[l] == MacosLaneEnds(m, a)[l]
  {}

  /** When two hosted lanes change and the maximum falls, a lane that does not end earlier did not hold it. */
  lemma FallenLane(m: Model, a: seq<Lane>, b: seq<Lane>, from: nat, to: nat)
    requires ModelOk(m) && |a| == |b| && |a| >= HOSTED_LANES && from < HOSTED_LANES && to < HOSTED_LANES
    requires forall l | 0 <= l < |a| && l != from && l != to :: b[l] == a[l]
    requires HostedEnd(b[to]) >= HostedEnd(a[to]) && MaxEnd(m, b) < MaxEnd(m, a)
    ensures HostedEnd(a[from]) == MaxEnd(m, a)
  {
    var l := SomeEndIsMax(m, a);
    EndIsBelowMax(m, a, l);
    EndIsBelowMax(m, b, l);
    if l != from && l != to {
      assert b[HOSTED_LANES..] == a[HOSTED_LANES..];
      UnchangedEnd(m, a, b, l);
    }
  }

  // ----- One step of the search -----

  /** What a placement of the search has, beside the jobs. */
  ghost predicate Placed(lanes: seq<Lane>) {
    |lanes| >= HOSTED_LANES && MacLanesEligible(lanes) && OneSuitePerLane(lanes)
  }

  lemma LaneOfSuite(lanes: seq<Lane>, l: nat, j: Job, suite: string)
    requires Placed(lanes) && l < |lanes| && j in lanes[l] && InSuite(suite)(j)
    ensures l < HOSTED_LANES && forall p | p in lanes[l] :: InSuite(suite)(p)
  {
    SanitizersAreHosted(lanes, l, j);
  }

  /** A lane that holds a whole suite holds nothing else. */
  lemma SuiteLaneEnd(lanes: seq<Lane>, jobs: seq<Job>, l: nat, j: Job, suite: string)
    requires Placed(lanes) && AllOf(lanes) == multiset(jobs) && Together(lanes, suite)
    requires l < |lanes| && j in lanes[l] && InSuite(suite)(j)
    ensures l < HOSTED_LANES && HostedEnd(lanes[l]) == SuiteSeconds(jobs, suite)
  {
    LaneOfSuite(lanes, l, j, suite);
    ChosenAllOrNone(InSuite(suite), lanes[l]);
    ChosenHere(InSuite(suite), lanes, jobs, l);
    HostedEndSame(Chosen(InSuite(suite), lanes[l]), Chosen(InSuite(suite), jobs));
  }

  /** What a move does to the members of lanes, and to the end of the lane that gets the job. */
  ghost predicate Moved(a: seq<Lane>, b: seq<Lane>, from: nat, to: nat, j: Job) {
    && |a| == |b| && from < |a| && to < |a| && from != to && j in a[from]
    && (forall p | p in b[from] :: p in a[from])
    && (forall p | p in b[to] :: p in a[to] || p == j)
    && j in b[to]
    && (forall l | 0 <= l < |a| && l != from && l != to :: b[l] == a[l])
    && HostedEnd(b[from]) == HostedEnd(a[from]) - j.seconds
    && HostedEnd(b[to]) == HostedEnd(a[to]) + j.seconds
  }

  lemma CanonicalHas(lane: Lane)
    ensures SameLane(CanonicalLane(lane), lane) && HostedEnd(CanonicalLane(lane)) == HostedEnd(lane)
  {
    SameMembers(CanonicalLane(lane), lane);
    HostedEndSame(CanonicalLane(lane), lane);
  }

  lemma LaneWithout(lane: Lane, index: nat)
    requires index < |lane|
    ensures var less := CanonicalLane(Without(lane, index));
      (forall p | p in less :: p in lane) && HostedEnd(less) == HostedEnd(lane) - lane[index].seconds
  {
    CanonicalHas(Without(lane, index));
    HostedEndWithout(lane, index);
    forall p | p in Without(lane, index) ensures p in lane {
    }
  }

  lemma LaneWith(lane: Lane, j: Job)
    ensures var more := CanonicalLane(lane + [j]);
      && (forall p | p in more :: p in lane || p == j)
      && j in more && HostedEnd(more) == HostedEnd(lane) + j.seconds
  {
    var more := lane + [j];
    CanonicalHas(more);
    assert more[..|lane|] == lane;
    assert j in more;
  }

  lemma MoveMoves(a: seq<Lane>, from: nat, index: nat, to: nat)
    requires IsMove(a, from, index, to)
    ensures Moved(a, Move(a, from, index, to), from, to, a[from][index])
  {
    LaneWithout(a[from], index);
    LaneWith(a[to], a[from][index]);
  }

  lemma MoveStaysTogether(a: seq<Lane>, b: seq<Lane>, from: nat, to: nat, j: Job, suite: string)
    requires Moved(a, b, from, to, j) && Together(a, suite) && !InSuite(suite)(j)
    ensures Together(b, suite)
  {
    forall l, p | 0 <= l < |b| && p in b[l] && InSuite(suite)(p) ensures p in a[l] {
    }
  }

  /** A move of a suite's job off the suite's lane ends before the suite's jobs back to back. */
  lemma SplittingMove(c: Costs, jobs: seq<Job>, a: seq<Lane>, b: seq<Lane>, from: nat, to: nat, j: Job, suite: string)
    requires CostsOk(c) && Moved(a, b, from, to, j) && Placed(a) && Placed(b)
    requires AllOf(a) == multiset(jobs) && j.seconds >= 0.0
    requires Together(a, suite) && InSuite(suite)(j) && MaxEnd(c.model, b) < MaxEnd(c.model, a)
    ensures MaxEnd(c.model, b) < SuiteSeconds(jobs, suite)
  {
    SuiteLaneEnd(a, jobs, from, j, suite);
    LaneOfSuite(b, to, j, suite);
    FallenLane(c.model, a, b, from, to);
  }

  /** What an exchange does to the members of lanes. */
  ghost predicate Traded(a: seq<Lane>, b: seq<Lane>, from: nat, here: Job, to: nat, there: Job) {
    && |a| == |b| && from < |a| && to < |a| && from != to
    && here in a[from] && there in a[to] && here in b[to] && there in b[from]
    && (forall p | p in b[from] :: p in a[from] || p == there)
    && (forall p | p in b[to] :: p in a[to] || p == here)
    && (forall l | 0 <= l < |a| && l != from && l != to :: b[l] == a[l])
  }

  lemma TradedMembers(lane: Lane, index: nat, j: Job)
    requires index < |lane|
    ensures j in Without(lane, index) + [j] && forall p | p in Without(lane, index) + [j] :: p in lane || p == j
  {}

  lemma ExchangeTrades(a: seq<Lane>, from: nat, index: nat, to: nat, other: nat)
    requires IsExchange(a, from, index, to, other)
    ensures Traded(a, Exchange(a, from, index, to, other), from, a[from][index], to, a[to][other])
  {
    var less, more := Without(a[from], index) + [a[to][other]], Without(a[to], other) + [a[from][index]];
    CanonicalHas(less);
    CanonicalHas(more);
    TradedMembers(a[from], index, a[to][other]);
    TradedMembers(a[to], other, a[from][index]);
  }

  /** A lane of one suite that gave a job of it for another kind of job gave all of it. */
  lemma TradedAway(a: seq<Lane>, b: seq<Lane>, from: nat, here: Job, to: nat, there: Job, suite: string)
    requires Traded(a, b, from, here, to, there) && Together(a, suite) && OneSuitePerLane(b)
    requires InSuite(suite)(here) && !InSuite(suite)(there)
    ensures Together(b, suite)
  {
    forall l, p | 0 <= l < |b| && p in b[l] && InSuite(suite)(p) ensures l == to {
      if l == from {
        NothingLeft(b, from, p, there, suite);
      }
    }
  }

  lemma NothingLeft(b: seq<Lane>, l: nat, p: Job, there: Job, suite: string)
    requires OneSuitePerLane(b) && l < |b| && there in b[l] && !InSuite(suite)(there) && InSuite(suite)(p)
    ensures p !in b[l]
  {}

  lemma TradeStaysTogether(a: seq<Lane>, b: seq<Lane>, from: nat, here: Job, to: nat, there: Job, suite: string)
    requires Traded(a, b, from, here, to, there) && Together(a, suite) && OneSuitePerLane(b)
    ensures Together(b, suite)
  {
    if InSuite(suite)(here) && !InSuite(suite)(there) {
      TradedAway(a, b, from, here, to, there, suite);
    } else if !InSuite(suite)(here) && InSuite(suite)(there) {
      TradedAway(a, b, to, there, from, here, suite);
    } else if !InSuite(suite)(here) {
      forall l, p | 0 <= l < |b| && p in b[l] && InSuite(suite)(p) ensures p in a[l] {
      }
    }
  }

  // ----- The whole search -----

  /** The suite is on one lane, or the placement ends before its jobs would back to back. */
  ghost predicate Guarded(c: Costs, jobs: seq<Job>, suite: string, lanes: seq<Lane>)
    requires CostsOk(c)
  {
    && Placed(lanes) && AllOf(lanes) == multiset(jobs)
    && (Together(lanes, suite) || MaxEnd(c.model, lanes) < SuiteSeconds(jobs, suite))
  }

  lemma ChangeGuards(c: Costs, jobs: seq<Job>, suite: string, a: seq<Lane>, x: Change)
    requires CostsOk(c) && Durations(multiset(jobs)) && Guarded(c, jobs, suite, a) && IsChange(a, x)
    requires Placed(Apply(a, x)) && MaxEnd(c.model, Apply(a, x)) < MaxEnd(c.model, a)
    ensures Together(Apply(a, x), suite) || MaxEnd(c.model, Apply(a, x)) < SuiteSeconds(jobs, suite)
  {
    var b := Apply(a, x);
    if Together(a, suite) {
      match x
      case Shift(from, index, to) =>
        var j := a[from][index];
        MoveMoves(a, from, index, to);
        HeldSomewhere(a, j);
        if InSuite(suite)(j) {
          SplittingMove(c, jobs, a, b, from, to, j, suite);
        } else {
          MoveStaysTogether(a, b, from, to, j, suite);
        }
      case Swap(from, index, to, other) =>
        ExchangeTrades(a, from, index, to, other);
        TradeStaysTogether(a, b, from, a[from][index], to, a[to][other], suite);
    }
  }

  lemma StepGuards(c: Costs, jobs: seq<Job>, suite: string, a: seq<Lane>, b: seq<Lane>)
    requires CostsOk(c) && c.macLanes > 0 && Durations(multiset(jobs)) && Guarded(c, jobs, suite, a)
    requires Improving(SearchSetting(c))(a, b)
    ensures Guarded(c, jobs, suite, b)
  {
    var s := SearchSetting(c);
    ImprovesWell(s, a, b);
    FeasibleHasPlaces(b, c.measured, c.macLanes);
    var x :| First(Accepting(s, s.maxEnd(a), a), a, x) && b == Apply(a, x);
    ChangeGuards(c, jobs, suite, a, x);
  }

  ghost function Guarding(c: Costs, jobs: seq<Job>, suite: string): (holds: (seq<Lane>, nat) -> bool)
    requires CostsOk(c)
    ensures forall lanes, n: nat :: holds(lanes, n) <==> Guarded(c, jobs, suite, lanes)
  {
    (lanes: seq<Lane>, n: nat) => CostsOk(c) && Guarded(c, jobs, suite, lanes)
  }

  lemma CanonicalStaysTogether(lanes: seq<Lane>, suite: string)
    requires Together(lanes, suite)
    ensures Together(CanonicalLanes(lanes), suite)
  {
    var canonical := CanonicalLanes(lanes);
    forall l, j | 0 <= l < |canonical| && j in canonical[l] ensures j in lanes[l] {
      CanonicalMember(lanes, l, j);
    }
  }

  lemma StartGuards(c: Costs, jobs: seq<Job>, suite: string, greedy: seq<Lane>)
    requires CostsOk(c) && |greedy| >= HOSTED_LANES && AllOf(greedy) == multiset(jobs) && Rules(greedy)
    ensures Guarding(c, jobs, suite)(CanonicalLanes(greedy), 0)
  {
    CanonicalLanesAre(greedy);
    CanonicalKeepsPlaces(greedy);
    OneLanePerSuiteIff(greedy);
    CanonicalStaysTogether(greedy, suite);
  }

  lemma StepsGuard(c: Costs, jobs: seq<Job>, suite: string)
    requires CostsOk(c) && c.macLanes > 0 && Durations(multiset(jobs))
    ensures var step, holds := Improving(SearchSetting(c)), Guarding(c, jobs, suite);
      forall a, b, n: nat :: step(a, b) && holds(a, n) ==> holds(b, n + 1)
  {
    var step, holds := Improving(SearchSetting(c)), Guarding(c, jobs, suite);
    forall a, b, n: nat | step(a, b) && holds(a, n) ensures holds(b, n + 1) {
      StepGuards(c, jobs, suite, a, b);
    }
  }

  lemma EndHolds(c: Setting, start: seq<Lane>, limit: nat, lanes: seq<Lane>, holds: (seq<Lane>, nat) -> bool)
    returns (n: nat)
    requires SettingOk(c) && EndsSearch(c, start, limit, lanes) && holds(start, 0)
    requires forall a, b, n: nat :: Improving(c)(a, b) && holds(a, n) ==> holds(b, n + 1)
    ensures holds(lanes, n)
  {
    var trail :| SearchFrom(c, start, limit, trail) && Last(trail) == lanes;
    n := |trail| - 1;
    Kept(Improving(c), holds, trail, n);
  }

  lemma SearchGuards(c: Costs, jobs: seq<Job>, suite: string, greedy: seq<Lane>, lanes: seq<Lane>)
    requires CostsOk(c) && c.macLanes > 0 && Durations(multiset(jobs)) && IsPlan(c, jobs, greedy, lanes)
    ensures Guarded(c, jobs, suite, lanes)
  {
    StartGuards(c, jobs, suite, greedy);
    StepsGuard(c, jobs, suite);
    var n := EndHolds(SearchSetting(c), CanonicalLanes(greedy), SweepLimit(greedy), lanes, Guarding(c, jobs, suite));
  }

  /** A suite on one lane fits under the maximum. */
  lemma TogetherFits(c: Costs, jobs: seq<Job>, suite: string, lanes: seq<Lane>)
    requires CostsOk(c) && Durations(multiset(jobs)) && Placed(lanes) && AllOf(lanes) == multiset(jobs)
    requires Together(lanes, suite)
    ensures SuiteSeconds(jobs, suite) <= MaxEnd(c.model, lanes)
  {
    if l, j :| 0 <= l < |lanes| && j in lanes[l] && InSuite(suite)(j) {
      SuiteLaneEnd(lanes, jobs, l, j, suite);
      EndIsBelowMax(c.model, lanes, l);
    } else {
      forall j | j in jobs ensures !InSuite(suite)(j) && j.seconds >= 0.0 {
        HeldSomewhere(lanes, j);
        assert j in multiset(jobs);
      }
      ChosenAllOrNone(InSuite(suite), jobs);
      FirstLaneIsNonNegative(jobs, lanes);
      EndIsBelowMax(c.model, lanes, 0);
    }
  }

  lemma FirstLaneIsNonNegative(jobs: seq<Job>, lanes: seq<Lane>)
    requires Durations(multiset(jobs)) && |lanes| > 0 && AllOf(lanes) == multiset(jobs)
    ensures HostedEnd(lanes[0]) >= 0.0
  {
    forall j | j in lanes[0] ensures j.seconds >= 0.0 {
      HeldSomewhere(lanes, j);
    }
    HostedEndNonNegative(lanes[0]);
  }

  /** The returned lanes keep a suite together exactly when its jobs back to back end by the maximum. */
  lemma SuiteStaysIff(c: Costs, jobs: seq<Job>, greedy: seq<Lane>, lanes: seq<Lane>, suite: string)
    requires CostsOk(c) && c.macLanes > 0 && Durations(multiset(jobs)) && IsPlan(c, jobs, greedy, lanes)
    ensures Together(lanes, suite) <==> SuiteSeconds(jobs, suite) <= MaxEnd(c.model, lanes)
  {
    SearchGuards(c, jobs, suite, greedy, lanes);
    if Together(lanes, suite) {
      TogetherFits(c, jobs, suite, lanes);
    }
  }

  /** In particular one lane per suite is kept exactly when every suite ends by the maximum. */
  lemma SuitesStayIff(c: Costs, jobs: seq<Job>, greedy: seq<Lane>, lanes: seq<Lane>)
    requires CostsOk(c) && c.macLanes > 0 && Durations(multiset(jobs)) && IsPlan(c, jobs, greedy, lanes)
    ensures OneLanePerSuite(lanes) <==> forall suite :: SuiteSeconds(jobs, suite) <= MaxEnd(c.model, lanes)
  {
    forall suite ensures Together(lanes, suite) <==> SuiteSeconds(jobs, suite) <= MaxEnd(c.model, lanes) {
      SuiteStaysIff(c, jobs, greedy, lanes, suite);
    }
    OneLanePerSuiteIff(lanes);
  }

  lemma ShortPlanSplits(c: Costs, jobs: seq<Job>, greedy: seq<Lane>, lanes: seq<Lane>, suite: string)
    requires CostsOk(c) && c.macLanes > 0 && Durations(multiset(jobs)) && IsPlan(c, jobs, greedy, lanes)
    requires MaxEnd(c.model, lanes) < SuiteSeconds(jobs, suite)
    ensures !OneLanePerSuite(lanes)
  {
    SuitesStayIff(c, jobs, greedy, lanes);
  }

  lemma LaneEndsAfterJob(jobs: seq<Job>, lanes: seq<Lane>, l: nat, j: Job)
    requires Durations(multiset(jobs)) && AllOf(lanes) == multiset(jobs) && l < |lanes| && j in lanes[l]
    ensures HostedEnd(lanes[l]) >= j.seconds
  {
    var i :| 0 <= i < |lanes[l]| && lanes[l][i] == j;
    HostedEndWithout(lanes[l], i);
    forall p | p in Without(lanes[l], i) ensures p.seconds >= 0.0 {
      assert p in lanes[l];
      HeldSomewhere(lanes, p);
    }
    HostedEndNonNegative(Without(lanes[l], i));
  }

  /** A suite that takes no longer than some one hosted-only job is never split. */
  lemma ShortSuiteStays(c: Costs, jobs: seq<Job>, greedy: seq<Lane>, lanes: seq<Lane>, suite: string, j: Job)
    requires CostsOk(c) && c.macLanes > 0 && Durations(multiset(jobs)) && IsPlan(c, jobs, greedy, lanes)
    requires j in jobs && !SelfHostedEligible(j) && SuiteSeconds(jobs, suite) <= j.seconds
    ensures Together(lanes, suite)
  {
    SuiteStaysIff(c, jobs, greedy, lanes, suite);
    PlanKeepsPlaces(c, jobs, greedy, lanes);
    var l := HostedLaneOf(jobs, lanes, j);
    LaneEndsAfterJob(jobs, lanes, l, j);
    EndIsBelowMax(c.model, lanes, l);
  }

  lemma HostedLaneOf(jobs: seq<Job>, lanes: seq<Lane>, j: Job) returns (l: nat)
    requires AllOf(lanes) == multiset(jobs) && MacLanesEligible(lanes) && j in jobs && !SelfHostedEligible(j)
    ensures l < |lanes| && l < HOSTED_LANES && j in lanes[l]
  {
    assert j in multiset(jobs);
    HeldSomewhere(lanes, j);
    l :| 0 <= l < |lanes| && j in lanes[l];
  }

  // ----- Known before the search -----

  /** A greedy placement that no single change improves is returned, with every suite on its lane. */
  lemma OptimumKeepsSuites(c: Costs, jobs: seq<Job>, greedy: seq<Lane>, lanes: seq<Lane>, suite: string)
    requires CostsOk(c) && c.macLanes > 0 && IsPlan(c, jobs, greedy, lanes) && !Improvable(c, greedy)
    ensures Together(lanes, suite)
  {
    CanonicalLanesAre(greedy);
    OptimaStay(SearchSetting(c), CanonicalLanes(greedy), SweepLimit(greedy), lanes);
    OneLanePerSuiteIff(greedy);
    CanonicalStaysTogether(greedy, suite);
  }

  /** A suite that decides the end of the greedy placement, up to the margin, stays exactly when that is an optimum. */
  lemma CriticalSuiteStaysIff(c: Costs, jobs: seq<Job>, greedy: seq<Lane>, lanes: seq<Lane>, suite: string)
    requires CostsOk(c) && c.macLanes > 0 && Durations(multiset(jobs)) && IsPlan(c, jobs, greedy, lanes)
    requires SuiteSeconds(jobs, suite) + c.margin >= MaxEnd(c.model, CanonicalLanes(greedy))
    ensures Together(lanes, suite) <==> !Improvable(c, greedy)
  {
    if Improvable(c, greedy) {
      PlanEndsEarlier(c, jobs, greedy, lanes);
      SuiteStaysIff(c, jobs, greedy, lanes, suite);
    } else {
      OptimumKeepsSuites(c, jobs, greedy, lanes, suite);
    }
  }

  function HostedOnly(): Job -> bool {
    (j: Job) => !SelfHostedEligible(j)
  }

  /** The jobs of several lanes, one lane after the other. */
  function Joined(lanes: seq<Lane>): (lane: Lane)
    ensures multiset(lane) == AllOf(lanes)
  {
    if lanes == [] then []
    else
      assert lanes[..|lanes| - 1] + [lanes[|lanes| - 1]] == lanes;
      Joined(lanes[..|lanes| - 1]) + lanes[|lanes| - 1]
  }

  lemma {:induction false} HostedEndConcat(a: Lane, b: Lane)
    ensures HostedEnd(a + b) == HostedEnd(a) + HostedEnd(b)
  {
    if b == [] {
      assert a + b == a;
    } else {
      var n := |b| - 1;
      assert (a + b)[..|a| + n] == a + b[..n] && (a + b)[|a| + n] == b[n];
      HostedEndConcat(a, b[..n]);
    }
  }

  lemma {:induction false} JoinedEnd(lanes: seq<Lane>, bound: real)
    requires forall l | 0 <= l < |lanes| :: HostedEnd(lanes[l]) <= bound
    ensures HostedEnd(Joined(lanes)) <= Margins(bound, |lanes|)
  {
    if lanes != [] {
      var n := |lanes| - 1;
      JoinedEnd(lanes[..n], bound);
      HostedEndConcat(Joined(lanes[..n]), lanes[n]);
    }
  }

  lemma SharedEvenly(bound: real)
    ensures Margins(bound, HOSTED_LANES) == (HOSTED_LANES as real) * bound
  {
    assert Margins(bound, 1) == bound;
    assert Margins(bound, 3) == Margins(bound, 2) + bound == bound + bound + bound;
  }

  lemma {:induction false} ChosenEnd(p: Job -> bool, lane: Lane)
    requires forall j | j in lane :: j.seconds >= 0.0
    ensures HostedEnd(Chosen(p, lane)) <= HostedEnd(lane)
  {
    if lane != [] {
      var n := |lane| - 1;
      assert forall j | j in lane[..n] :: j in lane;
      ChosenEnd(p, lane[..n]);
      assert lane[n] in lane;
      LaneAdds(Chosen(p, lane[..n]), lane[n]);
      var kept := if p(lane[n]) then [lane[n]] else [];
      assert Chosen(p, lane) == Chosen(p, lane[..n]) + kept;
      assert kept == [] ==> Chosen(p, lane[..n]) + kept == Chosen(p, lane[..n]);
    }
  }

  lemma LaneAdds(lane: Lane, j: Job)
    ensures HostedEnd(lane + [j]) == HostedEnd(lane) + j.seconds
  {
    assert (lane + [j])[..|lane|] == lane;
  }

  lemma NotOnMacs(lanes: seq<Lane>, j: Job)
    requires |lanes| >= HOSTED_LANES && MacLanesEligible(lanes) && !SelfHostedEligible(j)
    ensures j !in AllOf(lanes[HOSTED_LANES..])
  {
    var macs := lanes[HOSTED_LANES..];
    HeldSomewhere(macs, j);
    assert forall l | 0 <= l < |macs| :: macs[l] == lanes[HOSTED_LANES + l];
  }

  /** Jobs for hosted lanes only are on those. */
  lemma HostedOnlyJobs(jobs: seq<Job>, lanes: seq<Lane>)
    requires |lanes| >= HOSTED_LANES && AllOf(lanes) == multiset(jobs) && MacLanesEligible(lanes)
    ensures var hosted := Joined(lanes[..HOSTED_LANES]);
      multiset(Chosen(HostedOnly(), hosted)) == multiset(Chosen(HostedOnly(), jobs))
  {
    var hosted, macs := Joined(lanes[..HOSTED_LANES]), Joined(lanes[HOSTED_LANES..]);
    assert lanes[..HOSTED_LANES] + lanes[HOSTED_LANES..] == lanes;
    AllOfConcat(lanes[..HOSTED_LANES], lanes[HOSTED_LANES..]);
    forall j ensures multiset(Chosen(HostedOnly(), hosted))[j] == multiset(Chosen(HostedOnly(), jobs))[j] {
      ChosenCounts(HostedOnly(), hosted, j);
      ChosenCounts(HostedOnly(), jobs, j);
      if HostedOnly()(j) {
        NotOnMacs(lanes, j);
        assert multiset(macs)[j] == 0;
      }
    }
  }

  /** The hosted lanes share at least the hosted-only jobs, so the latest of them ends after an equal share. */
  lemma HostedShare(c: Costs, jobs: seq<Job>, lanes: seq<Lane>)
    requires CostsOk(c) && Durations(multiset(jobs)) && |lanes| >= HOSTED_LANES
    requires AllOf(lanes) == multiset(jobs) && MacLanesEligible(lanes)
    ensures HostedEnd(Chosen(HostedOnly(), jobs)) <= (HOSTED_LANES as real) * MaxEnd(c.model, lanes)
  {
    var hosted := lanes[..HOSTED_LANES];
    forall l | 0 <= l < |hosted| ensures HostedEnd(hosted[l]) <= MaxEnd(c.model, lanes) {
      EndIsBelowMax(c.model, lanes, l);
    }
    JoinedEnd(hosted, MaxEnd(c.model, lanes));
    SharedEvenly(MaxEnd(c.model, lanes));
    HostedOnlyJobs(jobs, lanes);
    HostedEndSame(Chosen(HostedOnly(), Joined(hosted)), Chosen(HostedOnly(), jobs));
    JoinedDurations(jobs, lanes);
    ChosenEnd(HostedOnly(), Joined(hosted));
  }

  lemma JoinedDurations(jobs: seq<Job>, lanes: seq<Lane>)
    requires Durations(multiset(jobs)) && |lanes| >= HOSTED_LANES && AllOf(lanes) == multiset(jobs)
    ensures forall j | j in Joined(lanes[..HOSTED_LANES]) :: j.seconds >= 0.0
  {
    assert lanes[..HOSTED_LANES] + lanes[HOSTED_LANES..] == lanes;
    AllOfConcat(lanes[..HOSTED_LANES], lanes[HOSTED_LANES..]);
    forall j | j in Joined(lanes[..HOSTED_LANES]) ensures j.seconds >= 0.0 {
      assert j in multiset(Joined(lanes[..HOSTED_LANES]));
      assert j in multiset(jobs);
    }
  }

  /** A suite that takes no longer than a hosted lane's share of the hosted-only jobs is never split. */
  lemma LightSuiteStays(c: Costs, jobs: seq<Job>, greedy: seq<Lane>, lanes: seq<Lane>, suite: string)
    requires CostsOk(c) && c.macLanes > 0 && Durations(multiset(jobs)) && IsPlan(c, jobs, greedy, lanes)
    requires (HOSTED_LANES as real) * SuiteSeconds(jobs, suite) <= HostedEnd(Chosen(HostedOnly(), jobs))
    ensures Together(lanes, suite)
  {
    PlanKeepsPlaces(c, jobs, greedy, lanes);
    HostedShare(c, jobs, lanes);
    SuiteStaysIff(c, jobs, greedy, lanes, suite);
  }
}
