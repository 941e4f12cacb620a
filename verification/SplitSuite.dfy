/**
 `macosLanes` (tools/generate-macos-lanes.ts) can split a sanitizer suite over two lanes: two
 shards that the greedy pass chains on one hosted lane, which the search then separates.
 */
module SplitSuite {
  import opened Basics
  import opened LaneSimulation
  import opened LanePlacement
  import opened Parts
  import opened Sorting
  import opened GreedyPlacement
  import opened LaneRefinement
  import opened LanePlans
  import opened SuiteLanes
  import opened InfeasiblePlacement

  const SUITE := "native"
  const SHARD_1 := Job("sanitizers-1", SANITIZERS, "macos-15", SUITE, 100.0)
  const SHARD_2 := Job("sanitizers-2", SANITIZERS, "macos-15", SUITE, 90.0)
  const OWN := [OWN_1, OWN_2, OWN_3]
  const SHARDED := [OWN_1, OWN_2, OWN_3, SHARD_1, SHARD_2]

  predicate IsShard(j: Job) {
    j == SHARD_1 || j == SHARD_2
  }

  // ----- The greedy pass chains the shards -----

  /** What the placement rules read of these jobs. */
  lemma Kinds()
    ensures forall j | IsShard(j) :: IsSanitizer(j) && !IsOwnKey(j) && !SelfHostedEligible(j) && InSuite(SUITE)(j)
    ensures forall j | j in OWN :: IsOwnKey(j) && SelfHostedEligible(j) && !InSuite(SUITE)(j)
  {}

  lemma OwnKeysComeFirst(own: Job, shard: Job)
    requires own in OWN && IsShard(shard)
    ensures !Sooner(Example(), shard, own)
  {
    Kinds();
  }

  lemma FirstShardIsLast()
    ensures forall k | 0 <= k < |OWN| :: !Sooner(Example(), SHARD_1, OWN[k])
  {
    forall k | 0 <= k < |OWN| ensures !Sooner(Example(), SHARD_1, OWN[k]) {
      OwnKeysComeFirst(OWN[k], SHARD_1);
    }
  }

  lemma SecondShardIsLast()
    ensures forall k | 0 <= k < |OWN + [SHARD_1]| :: !Sooner(Example(), SHARD_2, (OWN + [SHARD_1])[k])
  {
    var four := OWN + [SHARD_1];
    forall k | 0 <= k < |four| ensures !Sooner(Example(), SHARD_2, four[k]) {
      if k < |OWN| {
        OwnKeysComeFirst(OWN[k], SHARD_2);
      }
    }
  }

  lemma ShardsAreInOrder()
    ensures PlacementOrder(Example(), SHARDED) == SHARDED
  {
    OwnKeysAreInOrder();
    assert OWN + [SHARD_1] + [SHARD_2] == SHARDED;
    FirstShardIsLast();
    OrderOneMore(Example(), OWN, SHARD_1);
    SecondShardIsLast();
    OrderOneMore(Example(), OWN + [SHARD_1], SHARD_2);
  }

  /** Hosted lane `l` alone holds `lane`; the Mac lane holds the own-key shards. */
  ghost predicate Chains(lanes: seq<Lane>, l: nat, lane: Lane) {
    && |lanes| == HOSTED_LANES + 1 && l < HOSTED_LANES && lanes[l] == lane && lanes[HOSTED_LANES] == OWN
    && forall k | 0 <= k < HOSTED_LANES && k != l :: lanes[k] == []
  }

  lemma FirstShard(g: Greedy) returns (l: nat)
    requires OnlyMac(g, OWN)
    ensures PlaceJob(Example(), g, SHARD_1).Placed?
    ensures Chains(PlaceJob(Example(), g, SHARD_1).greedy.lanes, l, [SHARD_1])
  {
    var c := Example();
    assert Reserved(g.lanes, Some(SUITE)) == |g.lanes|;
    assert ReservationOk(g.lanes, SHARD_1, 0);
    assert Allowed(c, g.lanes, SHARD_1, 0);
    BestIsLeast(c, g, SHARD_1, |g.lanes|, 0);
    l := Best(c, g, SHARD_1, |g.lanes|).value.lane;
    assert [] + [SHARD_1] == [SHARD_1];
  }

  lemma SecondShard(g: Greedy, l: nat)
    requires Shaped(Example(), g) && Chains(g.lanes, l, [SHARD_1])
    ensures PlaceJob(Example(), g, SHARD_2).Placed?
    ensures Chains(PlaceJob(Example(), g, SHARD_2).greedy.lanes, l, [SHARD_1, SHARD_2])
  {
    var c := Example();
    assert SHARD_1 in g.lanes[l] && HoldsSuite(g.lanes[l], Some(SUITE));
    assert Reserved(g.lanes, Some(SUITE)) == l;
    assert ReservationOk(g.lanes, SHARD_2, l);
    assert Allowed(c, g.lanes, SHARD_2, l);
    BestIsLeast(c, g, SHARD_2, |g.lanes|, l);
    assert Best(c, g, SHARD_2, |g.lanes|).value.lane == l;
    assert [SHARD_1] + [SHARD_2] == [SHARD_1, SHARD_2];
  }

  lemma GreedyChains() returns (l: nat)
    ensures PlaceAll(Example(), SHARDED).Placed?
    ensures Chains(PlaceAll(Example(), SHARDED).greedy.lanes, l, [SHARD_1, SHARD_2])
  {
    OwnKeyStep([], OWN_1);
    OwnKeyStep([] + [OWN_1], OWN_2);
    OwnKeyStep([] + [OWN_1] + [OWN_2], OWN_3);
    assert [] + [OWN_1] + [OWN_2] + [OWN_3] == OWN;
    assert OWN + [SHARD_1] + [SHARD_2] == SHARDED;
    PlaceOneMore(Example(), OWN, SHARD_1);
    l := FirstShard(PlaceAll(Example(), OWN).greedy);
    PlaceOneMore(Example(), OWN + [SHARD_1], SHARD_2);
    SecondShard(PlaceAll(Example(), OWN + [SHARD_1]).greedy, l);
  }

  // ----- The search separates them -----

  lemma HostedEndPush(lane: Lane, j: Job)
    ensures HostedEnd(lane + [j]) == HostedEnd(lane) + j.seconds
  {
    assert (lane + [j])[..|lane|] == lane;
  }

  lemma ShardsEnd()
    ensures HostedEnd([SHARD_1, SHARD_2]) == 190.0
  {
    HostedEndPush([], SHARD_1);
    HostedEndPush([] + [SHARD_1], SHARD_2);
    assert [SHARD_1, SHARD_2] == [] + [SHARD_1] + [SHARD_2];
  }

  ghost predicate HoldsShards(lane: Lane) {
    |lane| == 2 && HostedEnd(lane) == 190.0 && forall j | j in lane :: IsShard(j)
  }

  ghost predicate HoldsOwn(lane: Lane) {
    |lane| == 3 && forall j | j in lane :: j in OWN
  }

  /** A start at which the shards share a hosted lane and all else is on the Mac lane. */
  ghost predicate SharesLane(start: seq<Lane>, l: nat) {
    && |start| == HOSTED_LANES + 1 && l < HOSTED_LANES && HoldsShards(start[l]) && HoldsOwn(start[HOSTED_LANES])
    && forall k | 0 <= k < HOSTED_LANES && k != l :: start[k] == []
  }

  lemma CanonicalShape(lane: Lane)
    ensures |CanonicalLane(lane)| == |lane| && HostedEnd(CanonicalLane(lane)) == HostedEnd(lane)
    ensures forall j | j in CanonicalLane(lane) :: j in lane
  {
    CanonicalHas(lane);
    CanonicalSize(lane);
  }

  lemma TheyShare(greedy: seq<Lane>, l: nat)
    requires Chains(greedy, l, [SHARD_1, SHARD_2])
    ensures SharesLane(greedy, l)
  {
    ShardsEnd();
  }

  lemma CanonicalShares(lanes: seq<Lane>, l: nat)
    requires SharesLane(lanes, l)
    ensures SharesLane(CanonicalLanes(lanes), l)
  {
    CanonicalShape(lanes[l]);
    CanonicalShape(lanes[HOSTED_LANES]);
    CanonicalShape([]);
    assert forall k | 0 <= k < HOSTED_LANES && k != l :: CanonicalLanes(lanes)[k] == CanonicalLane([]);
  }

  lemma ShardLane(lane: Lane)
    requires forall p | p in lane :: IsShard(p)
    ensures HostedLaneOk(lane, []) && !Carries(lane)
  {
    Kinds();
  }

  lemma OwnLane(lane: Lane)
    requires |lane| == 3 && forall p | p in lane :: p in OWN
    ensures MacLaneOk(lane) && |OwnKeyJobs(lane)| == 3
  {
    Kinds();
    ChosenAllOrNone(IsOwnKey, lane);
  }

  /** Moving a shard to an empty hosted lane is feasible and ends far earlier. */
  lemma ShardMoves(start: seq<Lane>, b: seq<Lane>, l: nat, k: nat, j: Job)
    requires SharesLane(start, l) && k < HOSTED_LANES && Moved(start, b, l, k, j)
    ensures Feasible(b, [], 1) && MaxEnd(Example().model, b) <= 100.0
  {
    assert IsShard(j);
    assert b[HOSTED_LANES] == start[HOSTED_LANES];
    OwnLane(b[HOSTED_LANES]);
    forall i | 0 <= i < HOSTED_LANES ensures HostedEnd(b[i]) <= 100.0 && HostedLaneOk(b[i], []) && !Carries(b[i]) {
      ShardLane(b[i]);
    }
    MaxEndBelow(b, 100.0);
  }

  lemma StartEnds(start: seq<Lane>, l: nat)
    requires SharesLane(start, l)
    ensures MaxEnd(Example().model, start) == 190.0
  {
    EndIsBelowMax(Example().model, start, l);
    MaxEndBelow(start, 190.0);
  }

  lemma StartIsImproved(greedy: seq<Lane>, l: nat)
    requires Chains(greedy, l, [SHARD_1, SHARD_2])
    ensures Improvable(Example(), greedy) && MaxEnd(Example().model, CanonicalLanes(greedy)) == 190.0
  {
    var start := CanonicalLanes(greedy);
    TheyShare(greedy, l);
    CanonicalShares(greedy, l);
    StartEnds(start, l);
    var k := if l == 0 then 1 else 0;
    MoveMoves(start, l, 1, k);
    ShardMoves(start, Move(start, l, 1, k), l, k, start[l][1]);
    MoveImproves(greedy, Shift(l, 1, k));
  }

  lemma MoveImproves(greedy: seq<Lane>, x: Change)
    requires |greedy| == HOSTED_LANES + 1 && IsChange(CanonicalLanes(greedy), x)
    requires var b := Apply(CanonicalLanes(greedy), x);
      Feasible(b, [], 1) && MaxEnd(Example().model, b) < MaxEnd(Example().model, CanonicalLanes(greedy)) - ROUNDING
    ensures Improvable(Example(), greedy)
  {
    var start, s := CanonicalLanes(greedy), SearchSetting(Example());
    assert Acceptable(s, s.maxEnd(start), Apply(start, x));
  }

  lemma ShardSeconds()
    ensures SuiteSeconds(SHARDED, SUITE) == 190.0
  {
    var both := [SHARD_1, SHARD_2];
    assert SHARDED == OWN + both;
    Kinds();
    ChosenConcat(InSuite(SUITE), OWN, both);
    ChosenAllOrNone(InSuite(SUITE), OWN);
    ChosenAllOrNone(InSuite(SUITE), both);
    assert Chosen(InSuite(SUITE), SHARDED) == [] + both == both;
    ShardsEnd();
  }

  lemma ShardedDurations()
    ensures Durations(multiset(SHARDED))
  {
    forall j | j in multiset(SHARDED) ensures j.seconds >= 0.0 {
      assert j in SHARDED;
    }
  }

  lemma EarlyPlanSplits(greedy: seq<Lane>, lanes: seq<Lane>)
    requires IsPlan(Example(), SHARDED, greedy, lanes) && MaxEnd(Example().model, lanes) < 190.0
    ensures !OneLanePerSuite(lanes)
  {
    ShardSeconds();
    ShardedDurations();
    ShortPlanSplits(Example(), SHARDED, greedy, lanes, SUITE);
  }

  lemma SplitPlan(greedy: seq<Lane>, lanes: seq<Lane>, l: nat)
    requires Chains(greedy, l, [SHARD_1, SHARD_2]) && IsPlan(Example(), SHARDED, greedy, lanes)
    ensures !OneLanePerSuite(lanes)
  {
    StartIsImproved(greedy, l);
    PlanEndsEarlier(Example(), SHARDED, greedy, lanes);
    EarlyPlanSplits(greedy, lanes);
  }

  /** The plan for these jobs runs the two shards of one suite on two lanes. */
  lemma SuiteIsSplit(maxMacLanes: nat, r: Plan)
    requires maxMacLanes > 0 && Answers(Example(), SHARDED, maxMacLanes, r)
    ensures r.Plan? && !OneLanePerSuite(r.lanes)
  {
    ShardsAreInOrder();
    var l := GreedyChains();
    SplitPlan(PlaceAll(Example(), SHARDED).greedy.lanes, r.lanes, l);
  }
}
