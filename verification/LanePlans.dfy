/**
 `macosLanes`: refuse stale measurements, place greedily, and with Mac lanes refine by local
 search. What the lanes it returns keep, and exactly when they are feasible.
 */
module LanePlans {
  import opened Basics
  import opened LaneSimulation
  import opened LanePlacement
  import opened Parts
  import opened Sorting
  import opened GreedyPlacement
  import opened LaneRefinement

  function SearchSetting(c: Costs): (s: Setting)
    requires CostsOk(c)
    ensures SettingOk(s) && s.margin == c.margin
    ensures forall lanes :: s.feasible(lanes) == Feasible(lanes, c.measured, c.macLanes)
    ensures forall lanes: seq<Lane> | |lanes| >= HOSTED_LANES :: s.maxEnd(lanes) == MaxEnd(c.model, lanes)
  {
    Setting(lanes => Feasible(lanes, c.measured, c.macLanes),
            (lanes: seq<Lane>) requires ModelOk(c.model) && |lanes| >= HOSTED_LANES => MaxEnd(c.model, lanes),
            c.margin)
  }

  // ----- Measurements of jobs that are gone -----

  /** Whether the first job of this name is missing or may not run on a Mac lane. */
  predicate Stale(jobs: seq<Job>, name: string) {
    if jobs == [] then true
    else if jobs[0].name == name then !SelfHostedEligible(jobs[0])
    else Stale(jobs[1..], name)
  }

  function FirstStale(jobs: seq<Job>, names: seq<string>): Option<string> {
    if names == [] then None
    else if Stale(jobs, names[0]) then Some(names[0])
    else FirstStale(jobs, names[1..])
  }

  /** The job that a search by name finds. */
  ghost predicate NamedFirst(jobs: seq<Job>, name: string, i: nat) {
    i < |jobs| && jobs[i].name == name && forall k | 0 <= k < i :: jobs[k].name != name
  }

  /** A name is not stale exactly when the first job of that name may run on a Mac lane. */
  lemma {:induction false} StaleIff(jobs: seq<Job>, name: string)
    ensures !Stale(jobs, name) <==> exists i: nat :: NamedFirst(jobs, name, i) && SelfHostedEligible(jobs[i])
  {
    if jobs != [] && jobs[0].name != name {
      var rest := jobs[1..];
      StaleIff(rest, name);
      forall i: nat ensures NamedFirst(rest, name, i) <==> NamedFirst(jobs, name, i + 1) {
        assert i < |rest| ==> rest[i] == jobs[i + 1];
        assert NamedFirst(rest, name, i) ==> forall k | 1 <= k < i + 1 :: jobs[k] == rest[k - 1];
        assert NamedFirst(jobs, name, i + 1) ==> forall k | 0 <= k < i :: rest[k] == jobs[k + 1];
      }
      if i: nat :| NamedFirst(jobs, name, i) && SelfHostedEligible(jobs[i]) {
        assert NamedFirst(rest, name, i - 1);
      }
    } else if jobs != [] {
      assert NamedFirst(jobs, name, 0);
      assert forall i: nat :: NamedFirst(jobs, name, i) ==> i == 0;
    }
  }

  method FindStale(jobs: seq<Job>, names: seq<string>) returns (r: Option<string>)
    ensures r == FirstStale(jobs, names)
  {
    for n := 0 to |names|
      invariant FirstStale(jobs, names) == FirstStale(jobs, names[n..])
    {
      assert names[n..][1..] == names[n + 1..];
      if Stale(jobs, names[n]) {
        return Some(names[n]);
      }
    }
    r := None;
  }

  // ----- The plan -----

  datatype Plan =
    | Plan(lanes: seq<Lane>)
    | TooManyMacLanes
    | StaleMeasurement(name: string)
    | StaleObservation(name: string)
    | Unplaceable(outcome: Outcome)

  /** Each job placed once; with Mac lanes, the end of the search from the greedy placement. */
  ghost predicate IsPlan(c: Costs, jobs: seq<Job>, greedy: seq<Lane>, lanes: seq<Lane>)
    requires CostsOk(c)
  {
    && |lanes| == |greedy| == HOSTED_LANES + c.macLanes
    && AllOf(greedy) == multiset(jobs)
    && AllOf(lanes) == multiset(jobs)
    && (c.macLanes == 0 ==> lanes == greedy)
    && (c.macLanes > 0 ==> Rules(greedy) && EndsRefinement(c, greedy, lanes))
  }

  /** The search under these costs, from the canonicalised greedy placement, ends here. */
  ghost predicate EndsRefinement(c: Costs, greedy: seq<Lane>, lanes: seq<Lane>)
    requires CostsOk(c)
  {
    EndsSearch(SearchSetting(c), CanonicalLanes(greedy), SweepLimit(greedy), lanes)
  }

  /** What the planner may answer. */
  ghost predicate Answers(c: Costs, jobs: seq<Job>, maxMacLanes: nat, r: Plan)
    requires CostsOk(c)
  {
    if c.macLanes > maxMacLanes then r == TooManyMacLanes
    else if FirstStale(jobs, c.timed).Some? then r == StaleMeasurement(FirstStale(jobs, c.timed).value)
    else if FirstStale(jobs, c.measured).Some? then r == StaleObservation(FirstStale(jobs, c.measured).value)
    else
      var greedy := PlaceAll(c, PlacementOrder(c, jobs));
      if !greedy.Placed? then r == Unplaceable(greedy)
      else r.Plan? && IsPlan(c, jobs, greedy.greedy.lanes, r.lanes)
  }

  method MacosLanes(c: Costs, jobs: seq<Job>, maxMacLanes: nat) returns (r: Plan)
    requires CostsOk(c)
    ensures Answers(c, jobs, maxMacLanes, r)
  {
    if c.macLanes > maxMacLanes {
      return TooManyMacLanes;
    }
    var stale := FindStale(jobs, c.timed);
    if stale.Some? {
      return StaleMeasurement(stale.value);
    }
    stale := FindStale(jobs, c.measured);
    if stale.Some? {
      return StaleObservation(stale.value);
    }
    var ordered := PlacementOrder(c, jobs);
    var greedy := PlaceJobs(c, ordered);
    if !greedy.Placed? {
      return Unplaceable(greedy);
    }
    GreedyKeepsRules(c, ordered);
    if c.macLanes == 0 {
      return Plan(greedy.greedy.lanes);
    }
    var lanes := Refine(c, jobs, greedy.greedy.lanes);
    r := Plan(lanes);
  }

  method Refine(c: Costs, jobs: seq<Job>, greedy: seq<Lane>) returns (lanes: seq<Lane>)
    requires CostsOk(c) && c.macLanes > 0 && |greedy| == HOSTED_LANES + c.macLanes
    requires AllOf(greedy) == multiset(jobs) && Rules(greedy)
    ensures IsPlan(c, jobs, greedy, lanes)
  {
    lanes := RefineLanes(SearchSetting(c), greedy);
    SearchKeeps(c, greedy, lanes);
  }

  /** What the search does to the canonicalised greedy placement. */
  lemma SearchKeeps(c: Costs, greedy: seq<Lane>, lanes: seq<Lane>)
    requires CostsOk(c) && |greedy| >= HOSTED_LANES && EndsRefinement(c, greedy, lanes)
    ensures |lanes| == |greedy| && AllOf(lanes) == AllOf(greedy) && AllCanonical(lanes)
    ensures MaxEnd(c.model, lanes) <= MaxEnd(c.model, CanonicalLanes(greedy))
    ensures lanes == CanonicalLanes(greedy) || Feasible(lanes, c.measured, c.macLanes)
  {
    CanonicalLanesAre(greedy);
    EndKeeps(SearchSetting(c), CanonicalLanes(greedy), SweepLimit(greedy), lanes);
  }

  // ----- What the returned lanes keep -----

  /** The planner has one answer. */
  lemma PlanIsUnique(c: Costs, jobs: seq<Job>, maxMacLanes: nat, r: Plan, s: Plan)
    requires CostsOk(c) && Answers(c, jobs, maxMacLanes, r) && Answers(c, jobs, maxMacLanes, s)
    ensures r == s
  {
    if r.Plan? && c.macLanes > 0 {
      var greedy := PlaceAll(c, PlacementOrder(c, jobs)).greedy.lanes;
      OneEnd(SearchSetting(c), CanonicalLanes(greedy), SweepLimit(greedy), r.lanes, s.lanes);
    }
  }

  /** The returned lanes are in canonical order and end no later than the canonicalised greedy ones. */
  lemma PlanIsCanonical(c: Costs, jobs: seq<Job>, greedy: seq<Lane>, lanes: seq<Lane>)
    requires CostsOk(c) && c.macLanes > 0 && IsPlan(c, jobs, greedy, lanes)
    ensures AllCanonical(lanes)
    ensures MaxEnd(c.model, lanes) <= MaxEnd(c.model, CanonicalLanes(greedy))
  {
    SearchKeeps(c, greedy, lanes);
  }

  /** No single change improves the returned lanes, or the limit's worth of margins was gained. */
  lemma PlanIsLocallyOptimal(c: Costs, jobs: seq<Job>, greedy: seq<Lane>, lanes: seq<Lane>)
    requires CostsOk(c) && c.macLanes > 0 && IsPlan(c, jobs, greedy, lanes)
    ensures LocallyOptimal(SearchSetting(c), lanes) ||
      FellBy(SearchSetting(c), CanonicalLanes(greedy), lanes, SweepLimit(greedy))
  {
    CanonicalLanesAre(greedy);
    EndIsLocallyOptimal(SearchSetting(c), CanonicalLanes(greedy), SweepLimit(greedy), lanes);
  }

  lemma CanonicalMember(lanes: seq<Lane>, l: nat, j: Job)
    requires l < |lanes|
    ensures j in CanonicalLanes(lanes)[l] <==> j in lanes[l]
  {
    CanonicalKeepsOwnKeys(lanes[l]);
  }

  lemma CanonicalKeepsPlaces(lanes: seq<Lane>)
    requires MacLanesEligible(lanes) && OwnKeyTogether(lanes) && OneSuitePerLane(lanes)
    ensures var canonical := CanonicalLanes(lanes);
      MacLanesEligible(canonical) && OwnKeyTogether(canonical) && OneSuitePerLane(canonical)
  {
    forall l, j | 0 <= l < |lanes| && j in CanonicalLanes(lanes)[l] ensures j in lanes[l] {
      CanonicalMember(lanes, l, j);
    }
  }

  lemma FeasibleHasPlaces(lanes: seq<Lane>, measured: seq<string>, n: nat)
    requires n > 0 && Feasible(lanes, measured, n)
    ensures MacLanesEligible(lanes) && OwnKeyTogether(lanes) && OneSuitePerLane(lanes)
  {
    forall l, j | HOSTED_LANES <= l < |lanes| && j in lanes[l] ensures SelfHostedEligible(j) {
      assert LaneOk(lanes, measured, l);
    }
    forall l, a, b | 0 <= l < |lanes| && a in lanes[l] && b in lanes[l] && IsSanitizer(a)
      ensures SanitizerSuite(b) == SanitizerSuite(a)
    {
      assert LaneOk(lanes, measured, l);
    }
    forall l, j | 0 <= l < |lanes| && j in lanes[l] && IsOwnKey(j) ensures l == HOSTED_LANES {
      assert Carries(lanes[l]);
    }
  }

  /** With Mac lanes, what the search returns keeps every placement rule but one. */
  lemma PlanKeepsPlaces(c: Costs, jobs: seq<Job>, greedy: seq<Lane>, lanes: seq<Lane>)
    requires CostsOk(c) && c.macLanes > 0 && IsPlan(c, jobs, greedy, lanes)
    ensures MacLanesEligible(lanes) && OwnKeyTogether(lanes) && OneSuitePerLane(lanes)
  {
    SearchKeeps(c, greedy, lanes);
    if Feasible(lanes, c.measured, c.macLanes) {
      FeasibleHasPlaces(lanes, c.measured, c.macLanes);
    } else {
      CanonicalKeepsPlaces(greedy);
    }
  }

  // ----- When the plan is feasible -----

  /** Some single change of the canonicalised greedy placement is feasible and better by the margin. */
  ghost predicate Improvable(c: Costs, greedy: seq<Lane>)
    requires CostsOk(c) && |greedy| >= HOSTED_LANES
  {
    !LocallyOptimal(SearchSetting(c), CanonicalLanes(greedy))
  }

  lemma PlanEndsEarlier(c: Costs, jobs: seq<Job>, greedy: seq<Lane>, lanes: seq<Lane>)
    requires CostsOk(c) && c.macLanes > 0 && IsPlan(c, jobs, greedy, lanes) && Improvable(c, greedy)
    ensures MaxEnd(c.model, lanes) < MaxEnd(c.model, CanonicalLanes(greedy)) - c.margin
    ensures Feasible(lanes, c.measured, c.macLanes)
  {
    CanonicalLanesAre(greedy);
    OptimaStay(SearchSetting(c), CanonicalLanes(greedy), SweepLimit(greedy), lanes);
  }

  /** The plan is feasible exactly when the greedy placement is, or its canonical form can be improved. */
  lemma PlanFeasibleIff(c: Costs, jobs: seq<Job>, greedy: seq<Lane>, lanes: seq<Lane>)
    requires CostsOk(c) && c.macLanes > 0 && IsPlan(c, jobs, greedy, lanes)
    ensures Feasible(lanes, c.measured, c.macLanes) <==>
      Feasible(greedy, c.measured, c.macLanes) || Improvable(c, greedy)
  {
    if Improvable(c, greedy) {
      PlanEndsEarlier(c, jobs, greedy, lanes);
    } else {
      CanonicalLanesAre(greedy);
      OptimaStay(SearchSetting(c), CanonicalLanes(greedy), SweepLimit(greedy), lanes);
    }
    FeasibleCanonical(greedy, c.measured, c.macLanes);
  }

  /** With the own-key shards together, the first Mac lane holds all there are. */
  lemma OwnKeysAreThere(lanes: seq<Lane>, jobs: seq<Job>)
    requires AllOf(lanes) == multiset(jobs) && OwnKeyTogether(lanes) && |lanes| > HOSTED_LANES
    ensures |OwnKeyJobs(lanes[HOSTED_LANES])| == |OwnKeyJobs(jobs)|
  {
    ChosenHere(IsOwnKey, lanes, jobs, HOSTED_LANES);
    assert |multiset(OwnKeyJobs(jobs))| == |OwnKeyJobs(jobs)|;
  }

  /** A feasible plan holds exactly three own-key shards. */
  lemma FeasibleNeedsThree(c: Costs, jobs: seq<Job>, greedy: seq<Lane>, lanes: seq<Lane>)
    requires CostsOk(c) && c.macLanes > 0 && IsPlan(c, jobs, greedy, lanes)
    requires Feasible(lanes, c.measured, c.macLanes)
    ensures |OwnKeyJobs(jobs)| == 3
  {
    FeasibleHasPlaces(lanes, c.measured, c.macLanes);
    OwnKeysAreThere(lanes, jobs);
  }

  /** When every eligible job has a hosted measurement, three own-key shards are all that is needed. */
  lemma MeasuredPlanFeasibleIff(c: Costs, jobs: seq<Job>, greedy: seq<Lane>, lanes: seq<Lane>)
    requires CostsOk(c) && c.macLanes > 0 && IsPlan(c, jobs, greedy, lanes)
    requires forall j | j in jobs :: !Unmeasured(c, j)
    ensures Feasible(lanes, c.measured, c.macLanes) <==> |OwnKeyJobs(jobs)| == 3
  {
    if |OwnKeyJobs(jobs)| == 3 {
      forall l, j | 0 <= l < HOSTED_LANES && j in greedy[l] ensures !Unmeasured(c, j) {
        HeldSomewhere(greedy, j);
        assert j in multiset(jobs);
      }
      OwnKeysAreThere(greedy, jobs);
      FeasibleIff(c, greedy);
      PlanFeasibleIff(c, jobs, greedy, lanes);
    } else if Feasible(lanes, c.measured, c.macLanes) {
      FeasibleNeedsThree(c, jobs, greedy, lanes);
    }
  }
}
