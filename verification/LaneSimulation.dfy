/**
 `selfHostedLaneEnds` of tools/generate-macos-lanes.ts: a discrete-event simulation of lanes
 that run their jobs back to back, two lanes to a machine, where the two jobs running on one
 machine slow each other down. Times are exact reals; the rounding tolerance is a parameter.
 */
module LaneSimulation {
  import opened Basics

  datatype Job = Job(name: string, family: string, os: string, suite: string, seconds: real)

  type Lane = seq<Job>

  /** Job costs, pair slowdowns, the start of every lane, and the rounding tolerance. */
  datatype Model = Model(cost: Job -> real, slowdown: (Job, Job) -> real, probe: real, tolerance: real)

  /** Costs are durations and no partner ever speeds a job up. */
  ghost predicate ModelOk(m: Model) {
    && (forall j :: m.cost(j) >= 0.0)
    && (forall a, b :: m.slowdown(a, b) >= 1.0)
    && m.tolerance >= 0.0
  }

  // ----- States -----

  datatype Sim = Sim(now: real, next: seq<nat>, remaining: seq<real>, ends: seq<real>)

  predicate Wf(lanes: seq<Lane>, s: Sim) {
    && |s.next| == |s.remaining| == |s.ends| == |lanes|
    && forall l | 0 <= l < |lanes| :: s.next[l] <= |lanes[l]|
  }

  /** The seconds of a lane's job, or zero past its last job. */
  function CostAt(m: Model, lane: Lane, i: nat): real {
    if i < |lane| then m.cost(lane[i]) else 0.0
  }

  function Start(m: Model, lanes: seq<Lane>): (s: Sim)
    ensures Wf(lanes, s)
  {
    Sim(m.probe, seq(|lanes|, _ => 0),
        seq(|lanes|, l requires 0 <= l < |lanes| => CostAt(m, lanes[l], 0)),
        seq(|lanes|, _ => m.probe))
  }

  predicate Active(lanes: seq<Lane>, s: Sim, l: int)
    requires Wf(lanes, s)
  {
    0 <= l < |lanes| && s.next[l] < |lanes[l]|
  }

  predicate AnyActive(lanes: seq<Lane>, s: Sim)
    requires Wf(lanes, s)
  {
    exists l | 0 <= l < |lanes| :: Active(lanes, s, l)
  }

  /** The other lane of the same machine. */
  function Partner(l: nat): nat {
    if l % 2 == 0 then l + 1 else l - 1
  }

  /** How fast a lane advances: at one-lane speed unless its machine's other lane is busy. */
  function Rate(m: Model, lanes: seq<Lane>, s: Sim, l: nat): real
    requires Wf(lanes, s) && Active(lanes, s, l)
    requires ModelOk(m)
  {
    var p := Partner(l);
    if Active(lanes, s, p) then 1.0 / m.slowdown(lanes[l][s.next[l]], lanes[p][s.next[p]]) else 1.0
  }

  lemma RateBounds(m: Model, lanes: seq<Lane>, s: Sim, l: nat)
    requires Wf(lanes, s) && Active(lanes, s, l) && ModelOk(m)
    ensures 0.0 < Rate(m, lanes, s, l) <= 1.0
  {
    var p := Partner(l);
    if Active(lanes, s, p) {
      InverseBounds(m.slowdown(lanes[l][s.next[l]], lanes[p][s.next[p]]));
    }
  }

  lemma InverseBounds(x: real)
    requires x >= 1.0
    ensures 0.0 < 1.0 / x <= 1.0
  {}

  /** The time a lane still needs for its current job at its current rate. */
  function TimeLeft(m: Model, lanes: seq<Lane>, s: Sim, l: nat): real
    requires Wf(lanes, s) && Active(lanes, s, l) && ModelOk(m)
  {
    RateBounds(m, lanes, s, l);
    s.remaining[l] / Rate(m, lanes, s, l)
  }

  /** The least time left among the first `n` lanes. */
  function Soonest(m: Model, lanes: seq<Lane>, s: Sim, n: nat): (r: Option<real>)
    requires Wf(lanes, s) && ModelOk(m) && n <= |lanes|
    ensures r == None <==> forall l | 0 <= l < n :: !Active(lanes, s, l)
  {
    if n == 0 then None
    else
      var best := Soonest(m, lanes, s, n - 1);
      if !Active(lanes, s, n - 1) then best
      else
        var mine := TimeLeft(m, lanes, s, n - 1);
        if best.Some? && best.value <= mine then best else Some(mine)
  }

  lemma {:induction false} SoonestIsLeast(m: Model, lanes: seq<Lane>, s: Sim, n: nat)
    requires Wf(lanes, s) && ModelOk(m) && n <= |lanes|
    ensures var r := Soonest(m, lanes, s, n);
      r.Some? ==>
        && (forall l | 0 <= l < n && Active(lanes, s, l) :: r.value <= TimeLeft(m, lanes, s, l))
        && (exists l | 0 <= l < n && Active(lanes, s, l) :: r.value == TimeLeft(m, lanes, s, l))
  {
    if n > 0 {
      SoonestIsLeast(m, lanes, s, n - 1);
    }
  }

  /** The length of the next step: the least time left on any lane. */
  function NextStep(m: Model, lanes: seq<Lane>, s: Sim): real
    requires Wf(lanes, s) && ModelOk(m) && AnyActive(lanes, s)
  {
    Soonest(m, lanes, s, |lanes|).value
  }

  // ----- One event -----

  function Worked(m: Model, lanes: seq<Lane>, s: Sim, step: real, l: nat): real
    requires Wf(lanes, s) && l < |lanes| && ModelOk(m)
  {
    if Active(lanes, s, l) then s.remaining[l] - step * Rate(m, lanes, s, l) else s.remaining[l]
  }

  predicate Finishes(m: Model, lanes: seq<Lane>, s: Sim, step: real, l: nat)
    requires Wf(lanes, s) && l < |lanes| && ModelOk(m)
  {
    Active(lanes, s, l) && Worked(m, lanes, s, step, l) <= m.tolerance
  }

  function NextAt(m: Model, lanes: seq<Lane>, s: Sim, step: real, l: nat): nat
    requires Wf(lanes, s) && l < |lanes| && ModelOk(m)
  {
    if Finishes(m, lanes, s, step, l) then s.next[l] + 1 else s.next[l]
  }

  function RemainingAt(m: Model, lanes: seq<Lane>, s: Sim, step: real, l: nat): real
    requires Wf(lanes, s) && l < |lanes| && ModelOk(m)
  {
    if Finishes(m, lanes, s, step, l) then CostAt(m, lanes[l], s.next[l] + 1) else Worked(m, lanes, s, step, l)
  }

  function EndAt(m: Model, lanes: seq<Lane>, s: Sim, step: real, l: nat): real
    requires Wf(lanes, s) && l < |lanes| && ModelOk(m)
  {
    if Finishes(m, lanes, s, step, l) then s.now + step else s.ends[l]
  }

  function Advance(m: Model, lanes: seq<Lane>, s: Sim, step: real): (t: Sim)
    requires Wf(lanes, s) && ModelOk(m)
    ensures Wf(lanes, t)
  {
    Sim(s.now + step,
        seq(|lanes|, l requires 0 <= l < |lanes| => NextAt(m, lanes, s, step, l)),
        seq(|lanes|, l requires 0 <= l < |lanes| => RemainingAt(m, lanes, s, step, l)),
        seq(|lanes|, l requires 0 <= l < |lanes| => EndAt(m, lanes, s, step, l)))
  }

  function Event(m: Model, lanes: seq<Lane>, s: Sim): Sim
    requires Wf(lanes, s) && ModelOk(m) && AnyActive(lanes, s)
  {
    Advance(m, lanes, s, NextStep(m, lanes, s))
  }

  // ----- Every event finishes a job -----

  function JobsLeft(lanes: seq<Lane>, next: seq<nat>): nat
    requires |next| == |lanes| && forall l | 0 <= l < |lanes| :: next[l] <= |lanes[l]|
  {
    if lanes == [] then 0
    else
      var n := |lanes| - 1;
      JobsLeft(lanes[..n], next[..n]) + |lanes[n]| - next[n]
  }

  lemma {:induction false} JobsLeftFalls(lanes: seq<Lane>, before: seq<nat>, now: seq<nat>)
    requires |before| == |now| == |lanes|
    requires forall l | 0 <= l < |lanes| :: before[l] <= now[l] <= |lanes[l]|
    ensures JobsLeft(lanes, now) <= JobsLeft(lanes, before)
    ensures (exists l | 0 <= l < |lanes| :: before[l] < now[l]) ==> JobsLeft(lanes, now) < JobsLeft(lanes, before)
  {
    if lanes != [] {
      var n := |lanes| - 1;
      JobsLeftFalls(lanes[..n], before[..n], now[..n]);
      if l :| 0 <= l < |lanes| && before[l] < now[l] {
        if l < n {
          assert before[..n][l] < now[..n][l];
        }
      }
    }
  }

  lemma QuotientTimes(x: real, y: real)
    requires y > 0.0
    ensures (x / y) * y == x
  {}

  lemma TimeLeftUsesUp(m: Model, lanes: seq<Lane>, s: Sim, l: nat)
    requires Wf(lanes, s) && ModelOk(m) && Active(lanes, s, l)
    ensures Worked(m, lanes, s, TimeLeft(m, lanes, s, l), l) == 0.0
  {
    RateBounds(m, lanes, s, l);
    QuotientTimes(s.remaining[l], Rate(m, lanes, s, l));
  }

  lemma AdvanceKeepsOrder(m: Model, lanes: seq<Lane>, s: Sim, step: real)
    requires Wf(lanes, s) && ModelOk(m)
    ensures forall l | 0 <= l < |lanes| :: s.next[l] <= Advance(m, lanes, s, step).next[l] <= |lanes[l]|
  {}

  /** The lane with the least time left finishes exactly, so each event finishes a job. */
  lemma EventFinishesJob(m: Model, lanes: seq<Lane>, s: Sim)
    requires Wf(lanes, s) && ModelOk(m) && AnyActive(lanes, s)
    ensures JobsLeft(lanes, Event(m, lanes, s).next) < JobsLeft(lanes, s.next)
  {
    var step := NextStep(m, lanes, s);
    SoonestIsLeast(m, lanes, s, |lanes|);
    var l :| 0 <= l < |lanes| && Active(lanes, s, l) && step == TimeLeft(m, lanes, s, l);
    TimeLeftUsesUp(m, lanes, s, l);
    var t := Advance(m, lanes, s, step);
    AdvanceKeepsOrder(m, lanes, s, step);
    assert s.next[l] < t.next[l];
    JobsLeftFalls(lanes, s.next, t.next);
  }

  /** The simulated lane ends: events until every lane has run its last job. */
  function Simulate(m: Model, lanes: seq<Lane>, s: Sim): (ends: seq<real>)
    requires Wf(lanes, s) && ModelOk(m)
    ensures |ends| == |lanes|
    decreases JobsLeft(lanes, s.next)
  {
    if !AnyActive(lanes, s) then s.ends
    else
      EventFinishesJob(m, lanes, s);
      Simulate(m, lanes, Event(m, lanes, s))
  }

  function LaneEnds(m: Model, lanes: seq<Lane>): (ends: seq<real>)
    requires ModelOk(m)
    ensures |ends| == |lanes|
  {
    Simulate(m, lanes, Start(m, lanes))
  }

  // ----- The source's loop -----

  datatype Result = Ends(ends: seq<real>) | TooManyLanes

  method SelfHostedLaneEnds(m: Model, lanes: seq<Lane>, maxLanes: nat) returns (r: Result)
    requires ModelOk(m)
    ensures r == if |lanes| > maxLanes then TooManyLanes else Ends(LaneEnds(m, lanes))
  {
    if |lanes| > maxLanes {
      return TooManyLanes;
    }
    var s := Start(m, lanes);
    while AnyActive(lanes, s)
      invariant Wf(lanes, s)
      invariant Simulate(m, lanes, s) == LaneEnds(m, lanes)
      decreases JobsLeft(lanes, s.next)
    {
      EventFinishesJob(m, lanes, s);
      var step := LeastTimeLeft(m, lanes, s);
      s := ApplyStep(m, lanes, s, step);
    }
    r := Ends(s.ends);
  }

  method LeastTimeLeft(m: Model, lanes: seq<Lane>, s: Sim) returns (step: real)
    requires Wf(lanes, s) && ModelOk(m) && AnyActive(lanes, s)
    ensures step == NextStep(m, lanes, s)
  {
    var best: Option<real> := None;
    for l := 0 to |lanes|
      invariant best == Soonest(m, lanes, s, l)
    {
      if Active(lanes, s, l) {
        var mine := TimeLeft(m, lanes, s, l);
        if best == None || mine < best.value {
          best := Some(mine);
        }
      }
    }
    step := best.value;
  }

  method ApplyStep(m: Model, lanes: seq<Lane>, s: Sim, step: real) returns (t: Sim)
    requires Wf(lanes, s) && ModelOk(m)
    ensures t == Advance(m, lanes, s, step)
  {
    var now := s.now + step;
    var next, remaining, ends := s.next, s.remaining, s.ends;
    for l := 0 to |lanes|
      invariant |next| == |remaining| == |ends| == |lanes|
      invariant forall k | 0 <= k < l :: next[k] == NextAt(m, lanes, s, step, k)
      invariant forall k | 0 <= k < l :: remaining[k] == RemainingAt(m, lanes, s, step, k)
      invariant forall k | 0 <= k < l :: ends[k] == EndAt(m, lanes, s, step, k)
      invariant forall k | l <= k < |lanes| :: next[k] == s.next[k] && remaining[k] == s.remaining[k]
      invariant forall k | l <= k < |lanes| :: ends[k] == s.ends[k]
    {
      if Active(lanes, s, l) {
        var left := Worked(m, lanes, s, step, l);
        if left <= m.tolerance {
          next, ends := next[l := next[l] + 1], ends[l := now];
          left := CostAt(m, lanes[l], next[l]);
        }
        remaining := remaining[l := left];
      }
    }
    t := Sim(now, next, remaining, ends);
  }
}
