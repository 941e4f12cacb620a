/**
 The rules of the placement in plain terms (tools/generate-macos-lanes.ts): which jobs a Mac lane
 may take, the two orders, what a lane is projected to end at, and which refusals are made.
 */
module PlacementRules {
  import opened Basics
  import opened CodeUnits
  import opened LaneSimulation
  import opened LanePlacement
  import opened Parts
  import opened RealLists
  import opened Sorting
  import opened GreedyPlacement
  import opened LaneRefinement
  import opened LanePlans

  // ----- Jobs for Mac lanes -----

  const MAC_FAMILIES: set<string> := {
    "native", "native support", "test262", "own-key cases", "reflect cases", "regexp exhaustive cases"
  }

  lemma EligibleIff(j: Job)
    ensures SelfHostedEligible(j) <==> j.os == "macos-15" && j.family in MAC_FAMILIES
  {}

  /** A suite is that of a sanitizer job, and of no other. */
  lemma SuiteIff(j: Job, suite: string)
    ensures SanitizerSuite(j) == Some(suite) <==> j.family == "host C sanitizers" && j.suite == suite
  {}

  // ----- The order within a lane -----

  /** Jobs only hosted lanes may take come first, then longer ones, then by name. */
  ghost predicate InLaneOrder(a: Job, b: Job) {
    if SelfHostedEligible(a) == SelfHostedEligible(b) then
      a.seconds > b.seconds || (a.seconds == b.seconds && !Less(b.name, a.name))
    else !SelfHostedEligible(a)
  }

  /** Own-key shards lead a canonical lane in the order they had; the other jobs follow in lane order. */
  lemma CanonicalLaneOrder(lane: Lane, i: nat, k: nat)
    requires i < k < |lane|
    ensures |CanonicalLane(lane)| == |lane| && OwnKeyJobs(CanonicalLane(lane)) == OwnKeyJobs(lane)
    ensures var a, b := CanonicalLane(lane)[i], CanonicalLane(lane)[k];
      if b.family == "own-key cases" then a.family == "own-key cases"
      else a.family == "own-key cases" || InLaneOrder(a, b)
  {
    var own, rest := OwnKeyJobs(lane), SortJobs(OtherJobs(lane));
    var r := CanonicalLane(lane);
    LaneSplits(lane);
    assert |multiset(r)| == |multiset(lane)|;
    SameMembers(rest, OtherJobs(lane));
    BeforeIsWeakOrder();
    SortSorts(Before, OtherJobs(lane));
    assert r == own + rest;
    OwnOfParts(own, rest);
    assert if k < |own| then r[k] in own else r[k] in rest;
    assert if i < |own| then r[i] in own else r[i] in rest;
    if i >= |own| {
      assert !Before(rest[k - |own|], rest[i - |own|]);
    }
  }

  lemma OwnOfParts(own: Lane, rest: Lane)
    requires (forall j | j in own :: IsOwnKey(j)) && forall j | j in rest :: !IsOwnKey(j)
    ensures OwnKeyJobs(own + rest) == own
  {
    ChosenConcat(IsOwnKey, own, rest);
    ChosenAllOrNone(IsOwnKey, own);
    ChosenAllOrNone(IsOwnKey, rest);
  }

  // ----- The order of placement -----

  /** With Mac lanes own-key shards are placed first, then the jobs only hosted lanes may take, then the others. */
  function Turn(c: Costs, j: Job): int {
    if c.macLanes == 0 then 0
    else if j.family == "own-key cases" then 0
    else if SelfHostedEligible(j) then 2
    else 1
  }

  /** Within a turn longer jobs are placed first, equally long ones by name. */
  ghost predicate InTurn(c: Costs, a: Job, b: Job) {
    || Turn(c, a) < Turn(c, b)
    || (Turn(c, a) == Turn(c, b) && (a.seconds > b.seconds || (a.seconds == b.seconds && !Less(b.name, a.name))))
  }

  lemma SoonerIsWeakOrder(c: Costs)
    ensures WeakOrder(PlacedBefore(c))
  {
    forall a, b | Sooner(c, a, b) ensures !Sooner(c, b, a) {
      if Less(a.name, b.name) && Less(b.name, a.name) {
        LessTransitive(a.name, b.name, a.name);
        LessIrreflexive(a.name);
      }
    }
    forall a, b, d | !Sooner(c, b, a) && !Sooner(c, d, b) ensures !Sooner(c, d, a) {
      SoonerTransitive(c, a, b, d);
    }
  }

  lemma SoonerTransitive(c: Costs, a: Job, b: Job, d: Job)
    requires !Sooner(c, b, a) && !Sooner(c, d, b)
    ensures !Sooner(c, d, a)
  {
    if a.seconds == b.seconds == d.seconds && Less(d.name, a.name) {
      LessTotal(a.name, b.name);
      LessTotal(b.name, d.name);
      if Less(a.name, b.name) {
        LessTransitive(d.name, a.name, b.name);
      }
    }
  }

  lemma JobsInTurn(c: Costs, jobs: seq<Job>, i: nat, k: nat)
    requires i < k < |jobs|
    ensures |PlacementOrder(c, jobs)| == |jobs|
    ensures InTurn(c, PlacementOrder(c, jobs)[i], PlacementOrder(c, jobs)[k])
  {
    var r := PlacementOrder(c, jobs);
    assert |multiset(r)| == |multiset(jobs)|;
    SoonerIsWeakOrder(c);
    SortSorts(PlacedBefore(c), jobs);
    assert !PlacedBefore(c)(r[k], r[i]);
  }

  // ----- Projected ends -----

  /** A hosted lane of jobs that are measured, or only for hosted lanes, is projected at their sum. */
  lemma {:induction false} MeasuredLoadIsSum(c: Costs, lane: Lane)
    requires forall j | j in lane :: SelfHostedEligible(j) ==> j.name in c.measured
    ensures ChargedEnd(c, lane) == HostedEnd(lane)
  {
    if lane != [] {
      var n := |lane| - 1;
      assert forall j | j in lane[..n] :: j in lane;
      MeasuredLoadIsSum(c, lane[..n]);
      assert lane[n] in lane;
    }
  }

  /** One of jobs that a Mac lane could take and no hosted run has measured is projected at the surcharged sum. */
  lemma {:induction false} UnmeasuredLoadIsSurcharged(c: Costs, lane: Lane)
    requires forall j | j in lane :: SelfHostedEligible(j) && j.name !in c.measured
    ensures ChargedEnd(c, lane) == HostedEnd(lane) * c.allowance
  {
    if lane != [] {
      var n := |lane| - 1;
      assert forall j | j in lane[..n] :: j in lane;
      UnmeasuredLoadIsSurcharged(c, lane[..n]);
      assert lane[n] in lane;
    }
  }

  /** The candidate's own end, or that of a lane which the job delays. */
  ghost predicate Counts(before: seq<real>, now: seq<real>, own: nat, l: nat)
    requires |before| == |now|
  {
    l < |now| && (l == own || now[l] > before[l])
  }

  lemma {:induction false} DelayedHolds(before: seq<real>, now: seq<real>, own: nat, n: nat, x: real)
    requires |before| == |now| && n <= |now|
    ensures x in Delayed(before, now, own, n) <==> exists l: nat :: l < n && Counts(before, now, own, l) && now[l] == x
  {
    if n > 0 {
      DelayedHolds(before, now, own, n - 1, x);
      if l: nat :| l < n && Counts(before, now, own, l) && now[l] == x {
        assert l < n - 1 || l == n - 1;
      }
      assert Counts(before, now, own, n - 1) <==> n - 1 == own || now[n - 1] > before[n - 1];
    }
  }

  /** On a Mac lane a job is projected to end when the last lane ends that it goes to or delays. */
  lemma MacProjection(c: Costs, g: Greedy, j: Job, candidate: nat)
    requires CostsOk(c) && Shaped(c, g) && HOSTED_LANES <= candidate < |g.lanes|
    ensures var now, own := MacEndsWith(c, g, j, candidate), candidate - HOSTED_LANES;
      && (forall l: nat | Counts(g.macEnds, now, own, l) :: now[l] <= Projected(c, g, j, candidate))
      && (exists l: nat :: Counts(g.macEnds, now, own, l) && now[l] == Projected(c, g, j, candidate))
  {
    var now, own := MacEndsWith(c, g, j, candidate), candidate - HOSTED_LANES;
    var delayed := Delayed(g.macEnds, now, own, c.macLanes);
    var most := Largest(delayed);
    assert most in delayed;
    DelayedHolds(g.macEnds, now, own, c.macLanes, most);
    forall l: nat | Counts(g.macEnds, now, own, l) ensures now[l] <= most {
      DelayedHolds(g.macEnds, now, own, c.macLanes, now[l]);
      var i :| 0 <= i < |delayed| && delayed[i] == now[l];
    }
  }

  // ----- Refusals -----

  /** With Mac lanes an own-key shard that they may not take is refused as such, and nothing else is. */
  lemma OwnKeyRefused(c: Costs, g: Greedy, j: Job)
    requires CostsOk(c) && Shaped(c, g)
    ensures PlaceJob(c, g, j).OwnKeyIneligible? <==>
      c.macLanes > 0 && j.family == "own-key cases" && j.os != "macos-15"
    ensures PlaceJob(c, g, j).OwnKeyIneligible? ==> PlaceJob(c, g, j).job == j
  {}

  /** The first name of a list that is stale. */
  ghost predicate FirstStaleAt(jobs: seq<Job>, names: seq<string>, k: nat) {
    k < |names| && Stale(jobs, names[k]) && forall i | 0 <= i < k :: !Stale(jobs, names[i])
  }

  /** A list of names is refused for its first stale one, if it has one. */
  lemma {:induction false} FirstStaleIff(jobs: seq<Job>, names: seq<string>, name: string)
    ensures FirstStale(jobs, names) == Some(name) <==> exists k: nat :: FirstStaleAt(jobs, names, k) && names[k] == name
  {
    if names != [] {
      var rest := names[1..];
      FirstStaleIff(jobs, rest, name);
      if !Stale(jobs, names[0]) {
        forall k: nat ensures FirstStaleAt(jobs, rest, k) <==> FirstStaleAt(jobs, names, k + 1) {
          assert k < |rest| ==> rest[k] == names[k + 1];
          assert FirstStaleAt(jobs, rest, k) ==> forall i | 1 <= i < k + 1 :: names[i] == rest[i - 1];
          assert FirstStaleAt(jobs, names, k + 1) ==> forall i | 0 <= i < k :: rest[i] == names[i + 1];
        }
        if k: nat :| FirstStaleAt(jobs, names, k) && names[k] == name {
          assert FirstStaleAt(jobs, rest, k - 1);
        }
      } else {
        assert FirstStaleAt(jobs, names, 0);
        assert forall k: nat :: FirstStaleAt(jobs, names, k) ==> k == 0;
      }
    }
  }

  // ----- Lanes that may take a job -----

  /** Some job of a lane belongs to this suite. */
  ghost predicate HasSuite(lane: Lane, suite: string) {
    exists p :: p in lane && p.family == "host C sanitizers" && p.suite == suite
  }

  /** A Mac lane, behind the five hosted ones, takes what it may run, and own-key shards only if it is the first. */
  ghost predicate MacTakes(j: Job, candidate: nat) {
    j.os == "macos-15" && j.family in MAC_FAMILIES && (j.family == "own-key cases" ==> candidate == 5)
  }

  /** A sanitizer job goes where its suite is, or to an empty lane; any other job to a lane without one. */
  ghost predicate SuiteTakes(lanes: seq<Lane>, j: Job, candidate: nat)
    requires candidate < |lanes|
  {
    if j.family != "host C sanitizers" then forall p | p in lanes[candidate] :: p.family != "host C sanitizers"
    else if exists k :: 0 <= k < |lanes| && HasSuite(lanes[k], j.suite) then
      HasSuite(lanes[candidate], j.suite) && forall k | 0 <= k < candidate :: !HasSuite(lanes[k], j.suite)
    else lanes[candidate] == []
  }

  lemma SuiteHeld(lane: Lane, suite: string)
    ensures HoldsSuite(lane, Some(suite)) <==> HasSuite(lane, suite)
  {
    if p :| p in lane && p.family == "host C sanitizers" && p.suite == suite {
      SuiteIff(p, suite);
    }
    if p :| p in lane && SanitizerSuite(p) == Some(suite) {
      SuiteIff(p, suite);
    }
  }

  lemma ReservationIff(lanes: seq<Lane>, j: Job, candidate: nat)
    requires candidate < |lanes|
    ensures ReservationOk(lanes, j, candidate) <==> SuiteTakes(lanes, j, candidate)
  {
    if j.family == "host C sanitizers" {
      SuiteIff(j, j.suite);
      forall k | 0 <= k < |lanes| ensures HoldsSuite(lanes[k], Some(j.suite)) <==> HasSuite(lanes[k], j.suite) {
        SuiteHeld(lanes[k], j.suite);
      }
      var reserved := Reserved(lanes, Some(j.suite));
      assert reserved < |lanes| ==> HasSuite(lanes[reserved], j.suite);
    }
  }

  /** Which lanes may take a job, in plain terms. */
  lemma AllowedIff(c: Costs, lanes: seq<Lane>, j: Job, candidate: nat)
    requires |lanes| == 5 + c.macLanes && candidate < |lanes|
    ensures Allowed(c, lanes, j, candidate) <==>
      if candidate >= 5 then MacTakes(j, candidate)
      else c.macLanes == 0 || (j.family != "own-key cases" && SuiteTakes(lanes, j, candidate))
  {
    EligibleIff(j);
    ReservationIff(lanes, j, candidate);
  }

  function SecondsOf(lane: Lane): seq<real> {
    seq(|lane|, i requires 0 <= i < |lane| => lane[i].seconds)
  }

  /** Hosted lanes run their jobs back to back. */
  lemma {:induction false} HostedEndIsSum(lane: Lane)
    ensures HostedEnd(lane) == Sum(SecondsOf(lane))
  {
    if lane != [] {
      HostedEndIsSum(lane[..|lane| - 1]);
      assert SecondsOf(lane)[..|lane| - 1] == SecondsOf(lane[..|lane| - 1]);
    }
  }

  // ----- Where the search ends -----

  /** A change can be made, but the search does not accept it. */
  ghost predicate Rejects(c: Setting, lanes: seq<Lane>, x: Change)
    requires SettingOk(c) && |lanes| >= HOSTED_LANES
  {
    IsChange(lanes, x) && !Acceptable(c, c.maxEnd(lanes), Apply(lanes, x))
  }

  /** No job may go to any other lane. */
  ghost predicate NoneMoves(c: Setting, lanes: seq<Lane>)
    requires SettingOk(c) && |lanes| >= HOSTED_LANES
  {
    forall from: nat, index: nat, to: nat |
      from < |lanes| && to < |lanes| && from != to && index < |lanes[from]| ::
      Rejects(c, lanes, Shift(from, index, to))
  }

  /** No two jobs of different lanes may change places. */
  ghost predicate NoneExchanges(c: Setting, lanes: seq<Lane>)
    requires SettingOk(c) && |lanes| >= HOSTED_LANES
  {
    forall from: nat, index: nat, to: nat, other: nat |
      from < to < |lanes| && index < |lanes[from]| && other < |lanes[to]| ::
      Rejects(c, lanes, Swap(from, index, to, other))
  }

  /** A placement is locally optimal if and only if no job may move and no two may change places. */
  lemma OptimumIff(c: Setting, lanes: seq<Lane>)
    requires SettingOk(c) && |lanes| >= HOSTED_LANES
    ensures LocallyOptimal(c, lanes) <==> NoneMoves(c, lanes) && NoneExchanges(c, lanes)
  {
    if NoneMoves(c, lanes) && NoneExchanges(c, lanes) {
      forall x | IsChange(lanes, x) ensures Rejects(c, lanes, x) {
        match x
        case Shift(from, index, to) => assert Rejects(c, lanes, Shift(from, index, to));
        case Swap(from, index, to, other) => assert Rejects(c, lanes, Swap(from, index, to, other));
      }
    }
  }

  /** A search makes at most 64 changes for each lane. */
  lemma SearchIsShort(c: Setting, initial: seq<Lane>, trail: seq<seq<Lane>>)
    requires SettingOk(c) && |initial| >= HOSTED_LANES
    requires SearchFrom(c, CanonicalLanes(initial), SweepLimit(initial), trail)
    ensures 0 < |trail| <= 64 * |initial| + 1
  {}

  /** Without Mac lanes a placement is feasible exactly if every hosted lane keeps its rules. */
  lemma HostedFeasibleIff(lanes: seq<Lane>, measured: seq<string>)
    requires |lanes| <= 5
    ensures Feasible(lanes, measured, 0) <==> forall lane | lane in lanes :: HostedKeeps(lane, measured)
  {
    forall l | 0 <= l < |lanes| ensures LaneOk(lanes, measured, l) <==> HostedKeeps(lanes[l], measured) {
      HostedKeepsIff(lanes[l], measured);
    }
    if Feasible(lanes, measured, 0) {
      forall lane | lane in lanes ensures HostedKeeps(lane, measured) {
        var l :| 0 <= l < |lanes| && lanes[l] == lane;
        assert LaneOk(lanes, measured, l);
      }
    }
  }

  /** No own-key shard, nothing beside the jobs of a sanitizer suite, and no eligible job without a measurement. */
  ghost predicate HostedKeeps(lane: Lane, measured: seq<string>) {
    && (forall j | j in lane :: j.family != "own-key cases")
    && (forall a, b | a in lane && b in lane && a.family == "host C sanitizers" ::
          b.family == "host C sanitizers" && a.suite == b.suite)
    && (forall j | j in lane && j.os == "macos-15" && j.family in MAC_FAMILIES :: j.name in measured)
  }

  lemma HostedKeepsIff(lane: Lane, measured: seq<string>)
    ensures HostedLaneOk(lane, measured) <==> HostedKeeps(lane, measured)
  {
    forall j ensures SelfHostedEligible(j) <==> j.os == "macos-15" && j.family in MAC_FAMILIES {
      EligibleIff(j);
    }
  }
}
