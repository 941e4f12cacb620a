/**
 Rules and costs of a placement of jobs on lanes (tools/generate-macos-lanes.ts): five hosted
 lanes, then the Mac lanes.
 */
module LanePlacement {
  import opened Basics
  import opened CodeUnits
  import opened LaneSimulation
  import opened Parts
  import opened RealLists
  import opened Sorting

  const HOSTED_LANES := 5
  const OWN_KEY := "own-key cases"
  const SANITIZERS := "host C sanitizers"

  predicate SelfHostedEligible(j: Job) {
    j.os == "macos-15" &&
    (j.family == "native" || j.family == "native support" || j.family == "test262" || j.family == OWN_KEY ||
     j.family == "reflect cases" || j.family == "regexp exhaustive cases")
  }

  predicate IsOwnKey(j: Job) { j.family == OWN_KEY }

  predicate IsSanitizer(j: Job) { j.family == SANITIZERS }

  /** The hosted lane a sanitizer job reserves. */
  function SanitizerSuite(j: Job): Option<string> {
    if IsSanitizer(j) then Some(j.suite) else None
  }

  // ----- The canonical order of one lane -----

  /** Hosted-only jobs first, then longer jobs, then by name. */
  predicate Before(a: Job, b: Job) {
    var ea, eb := SelfHostedEligible(a), SelfHostedEligible(b);
    if ea != eb then !ea
    else if a.seconds != b.seconds then a.seconds > b.seconds
    else Less(a.name, b.name)
  }

  function SortJobs(jobs: seq<Job>): (r: seq<Job>)
    ensures multiset(r) == multiset(jobs)
  {
    Sort(Before, jobs)
  }

  function OwnKeyJobs(lane: Lane): Lane {
    Chosen(IsOwnKey, lane)
  }

  predicate IsOther(j: Job) { !IsOwnKey(j) }

  function OtherJobs(lane: Lane): Lane {
    Chosen(IsOther, lane)
  }

  lemma LaneSplits(lane: Lane)
    ensures multiset(lane) == multiset(OwnKeyJobs(lane)) + multiset(OtherJobs(lane))
    ensures forall j | j in OwnKeyJobs(lane) :: IsOwnKey(j)
    ensures forall j | j in OtherJobs(lane) :: !IsOwnKey(j)
  {
    var own, others := OwnKeyJobs(lane), OtherJobs(lane);
    forall j ensures multiset(own)[j] == if IsOwnKey(j) then multiset(lane)[j] else 0 {
      ChosenCounts(IsOwnKey, lane, j);
    }
    forall j ensures multiset(others)[j] == if IsOwnKey(j) then 0 else multiset(lane)[j] {
      ChosenCounts(IsOther, lane, j);
    }
    forall j | j in own ensures IsOwnKey(j) {
      assert j in multiset(own);
    }
    forall j | j in others ensures !IsOwnKey(j) {
      assert j in multiset(others);
    }
  }

  /** Own-key shards lead; the others follow in the fixed order. */
  function CanonicalLane(lane: Lane): (r: Lane)
    ensures multiset(r) == multiset(lane)
  {
    LaneSplits(lane);
    OwnKeyJobs(lane) + SortJobs(OtherJobs(lane))
  }

  lemma BeforeTransitive(a: Job, b: Job, c: Job)
    requires !Before(b, a) && !Before(c, b)
    ensures !Before(c, a)
  {
    if a.seconds == b.seconds == c.seconds && Less(c.name, a.name) {
      LessTotal(a.name, b.name);
      LessTotal(b.name, c.name);
      if Less(a.name, b.name) {
        LessTransitive(c.name, a.name, b.name);
      }
    }
  }

  lemma BeforeIsWeakOrder()
    ensures WeakOrder(Before)
  {
    forall a, b | Before(a, b) ensures !Before(b, a) {
      if Less(a.name, b.name) && Less(b.name, a.name) {
        LessTransitive(a.name, b.name, a.name);
        LessIrreflexive(a.name);
      }
    }
    forall a, b, c | !Before(b, a) && !Before(c, b) ensures !Before(c, a) {
      BeforeTransitive(a, b, c);
    }
  }

  /** A lane in canonical order: some own-key shards, then the sorted rest. */
  ghost predicate Canonical(lane: Lane) {
    exists k :: 0 <= k <= |lane| && SplitAt(lane, k)
  }

  ghost predicate SplitAt(lane: Lane, k: nat)
    requires k <= |lane|
  {
    && (forall j | j in lane[..k] :: IsOwnKey(j)) && (forall j | j in lane[k..] :: !IsOwnKey(j))
    && Sorted(Before, lane[k..])
  }

  lemma CanonicalLaneIsCanonical(lane: Lane)
    ensures Canonical(CanonicalLane(lane))
  {
    LaneSplits(lane);
    var own, rest := OwnKeyJobs(lane), SortJobs(OtherJobs(lane));
    BeforeIsWeakOrder();
    SortSorts(Before, OtherJobs(lane));
    SameMembers(rest, OtherJobs(lane));
    var r := CanonicalLane(lane);
    assert r[..|own|] == own && r[|own|..] == rest;
    assert SplitAt(r, |own|);
  }

  // ----- Feasibility -----

  predicate HostedLaneOk(lane: Lane, measured: seq<string>) {
    && (forall j | j in lane :: !IsOwnKey(j))
    && ((exists j | j in lane :: IsSanitizer(j)) ==>
          forall a, b | a in lane && b in lane :: SanitizerSuite(a) == SanitizerSuite(b))
    && (forall j | j in lane :: SelfHostedEligible(j) ==> j.name in measured)
  }

  predicate MacLaneOk(lane: Lane) {
    forall j | j in lane :: SelfHostedEligible(j)
  }

  predicate Carries(lane: Lane) {
    exists j | j in lane :: IsOwnKey(j)
  }

  /** All three own-key shards share the first Mac lane. */
  predicate OwnKeyOk(lanes: seq<Lane>) {
    && |lanes| > HOSTED_LANES
    && |OwnKeyJobs(lanes[HOSTED_LANES])| == 3
    && forall l | 0 <= l < |lanes| && l != HOSTED_LANES :: !Carries(lanes[l])
  }

  predicate LaneOk(lanes: seq<Lane>, measured: seq<string>, l: nat)
    requires l < |lanes|
  {
    if l < HOSTED_LANES then HostedLaneOk(lanes[l], measured) else MacLaneOk(lanes[l])
  }

  predicate Feasible(lanes: seq<Lane>, measured: seq<string>, selfHostedCount: nat) {
    && (forall l | 0 <= l < |lanes| :: LaneOk(lanes, measured, l))
    && (selfHostedCount > 0 ==> OwnKeyOk(lanes))
  }

  // ----- Costs -----

  function HostedEnd(lane: Lane): real {
    if lane == [] then 0.0 else HostedEnd(lane[..|lane| - 1]) + lane[|lane| - 1].seconds
  }

  function MacosLaneEnds(m: Model, lanes: seq<Lane>): (ends: seq<real>)
    requires ModelOk(m) && |lanes| >= HOSTED_LANES
    ensures |ends| == |lanes|
  {
    seq(HOSTED_LANES, l requires 0 <= l < HOSTED_LANES => HostedEnd(lanes[l])) + LaneEnds(m, lanes[HOSTED_LANES..])
  }

  function MaxEnd(m: Model, lanes: seq<Lane>): real
    requires ModelOk(m) && |lanes| >= HOSTED_LANES
  {
    Largest(MacosLaneEnds(m, lanes))
  }

  function CanonicalLanes(lanes: seq<Lane>): (r: seq<Lane>)
    ensures |r| == |lanes| && forall l | 0 <= l < |lanes| :: r[l] == CanonicalLane(lanes[l])
  {
    seq(|lanes|, l requires 0 <= l < |lanes| => CanonicalLane(lanes[l]))
  }
}
