/**
 What the lane simulation guarantees for all lanes and costs: how far each lane end can lie
 from the plain sum of its jobs, and that machines do not influence each other.
 */
module LaneGuarantees {
  import opened LaneSimulation

  // ----- Bounds on every lane end -----

  /** The total cost of a lane's first `n` jobs. */
  function Total(m: Model, lane: Lane, n: nat): real
    requires n <= |lane|
  {
    if n == 0 then 0.0 else Total(m, lane, n - 1) + m.cost(lane[n - 1])
  }

  /** No job of the partner lane slows a job of lane `l` by more than `factor`. */
  ghost predicate SlowedAtMost(m: Model, lanes: seq<Lane>, l: nat, factor: real)
    requires l < |lanes|
  {
    && factor >= 1.0
    && (Partner(l) < |lanes| ==>
          forall a, b | a in lanes[l] && b in lanes[Partner(l)] :: m.slowdown(a, b) <= factor)
  }

  /** The work a lane has done, in one-lane seconds. */
  function Done(m: Model, lanes: seq<Lane>, s: Sim, l: nat): real
    requires Wf(lanes, s) && l < |lanes|
  {
    Total(m, lanes[l], s.next[l]) +
    if Active(lanes, s, l) then m.cost(lanes[l][s.next[l]]) - s.remaining[l] else 0.0
  }

  /** Elapsed time covers the work done up to an allowance, and work advances at a bounded slowdown. */
  predicate Between(done: real, allowance: real, elapsed: real, factor: real) {
    done - allowance <= elapsed <= factor * done
  }

  function Allowance(m: Model, n: nat): real {
    m.tolerance * (n as real)
  }

  function Elapsed(m: Model, lanes: seq<Lane>, s: Sim, l: nat): real
    requires Wf(lanes, s) && l < |lanes|
  {
    (if Active(lanes, s, l) then s.now else s.ends[l]) - m.probe
  }

  ghost predicate LaneInv(m: Model, lanes: seq<Lane>, s: Sim, l: nat, factor: real)
    requires Wf(lanes, s) && l < |lanes|
  {
    Between(Done(m, lanes, s, l), Allowance(m, s.next[l]), Elapsed(m, lanes, s, l), factor)
  }

  ghost predicate RemainingOk(m: Model, lanes: seq<Lane>, s: Sim)
    requires Wf(lanes, s)
  {
    forall k | 0 <= k < |lanes| && Active(lanes, s, k) :: 0.0 <= s.remaining[k]
  }

  lemma StartLane(m: Model, lanes: seq<Lane>, l: nat, factor: real)
    requires ModelOk(m) && l < |lanes|
    ensures LaneInv(m, lanes, Start(m, lanes), l, factor)
    ensures RemainingOk(m, lanes, Start(m, lanes))
  {}

  // Facts of real arithmetic.

  lemma SlowdownTimesRate(slowdown: real, factor: real)
    requires 1.0 <= slowdown <= factor
    ensures factor * (1.0 / slowdown) >= 1.0
  {
    assert slowdown * (1.0 / slowdown) == 1.0;
    assert (factor - slowdown) * (1.0 / slowdown) >= 0.0;
  }

  lemma QuotientNonNegative(x: real, y: real)
    requires x >= 0.0 && y > 0.0
    ensures x / y >= 0.0
  {}

  lemma ProductMonotone(x: real, y: real, z: real)
    requires x <= y && z >= 0.0
    ensures x * z <= y * z
  {
    assert (y - x) * z >= 0.0;
  }

  lemma WorkBounds(step: real, rate: real, factor: real)
    requires 0.0 <= step && 0.0 < rate <= 1.0 <= factor * rate
    ensures 0.0 <= step * rate <= step <= factor * (step * rate)
  {
    ProductMonotone(rate, 1.0, step);
    ProductMonotone(1.0, factor * rate, step);
    assert factor * (step * rate) == (factor * rate) * step;
  }

  lemma StillBetween(done: real, allowance: real, elapsed: real, factor: real, worked: real, step: real)
    requires Between(done, allowance, elapsed, factor) && 0.0 <= worked <= step <= factor * worked
    ensures Between(done + worked, allowance, elapsed + step, factor)
  {
    assert factor * (done + worked) == factor * done + factor * worked;
  }

  lemma FinishedBetween(done: real, allowance: real, elapsed: real, factor: real, left: real, tolerance: real)
    requires Between(done, allowance, elapsed, factor) && 0.0 <= left <= tolerance && factor >= 1.0
    ensures Between(done + left, allowance + tolerance, elapsed, factor)
  {
    assert factor * (done + left) == factor * done + factor * left;
    ProductMonotone(0.0, left, factor);
  }

  lemma ExactlyBetween(done: real, allowance: real, elapsed: real)
    requires Between(done, allowance, elapsed, 1.0) && allowance == 0.0
    ensures elapsed == done
  {}

  lemma AllowanceGrows(m: Model, n: nat)
    ensures Allowance(m, n + 1) == Allowance(m, n) + m.tolerance
  {
    assert (n + 1) as real == n as real + 1.0;
  }

  // One event.

  lemma RateAtLeast(m: Model, lanes: seq<Lane>, s: Sim, l: nat, factor: real)
    requires Wf(lanes, s) && Active(lanes, s, l) && ModelOk(m) && SlowedAtMost(m, lanes, l, factor)
    ensures 0.0 < Rate(m, lanes, s, l) <= 1.0 <= factor * Rate(m, lanes, s, l)
  {
    RateBounds(m, lanes, s, l);
    var p := Partner(l);
    if Active(lanes, s, p) {
      SlowdownTimesRate(m.slowdown(lanes[l][s.next[l]], lanes[p][s.next[p]]), factor);
    }
  }

  lemma TimeLeftNonNegative(m: Model, lanes: seq<Lane>, s: Sim, l: nat)
    requires Wf(lanes, s) && ModelOk(m) && Active(lanes, s, l) && 0.0 <= s.remaining[l]
    ensures 0.0 <= TimeLeft(m, lanes, s, l)
  {
    RateBounds(m, lanes, s, l);
    QuotientNonNegative(s.remaining[l], Rate(m, lanes, s, l));
  }

  /** No step up to the time left uses more than what remains. */
  lemma ShortStepLeaves(m: Model, lanes: seq<Lane>, s: Sim, step: real, l: nat)
    requires Wf(lanes, s) && ModelOk(m) && Active(lanes, s, l) && step <= TimeLeft(m, lanes, s, l)
    ensures 0.0 <= Worked(m, lanes, s, step, l)
  {
    RateBounds(m, lanes, s, l);
    ProductMonotone(step, TimeLeft(m, lanes, s, l), Rate(m, lanes, s, l));
    QuotientTimes(s.remaining[l], Rate(m, lanes, s, l));
  }

  lemma StepIsFeasible(m: Model, lanes: seq<Lane>, s: Sim)
    requires Wf(lanes, s) && ModelOk(m) && AnyActive(lanes, s) && RemainingOk(m, lanes, s)
    ensures var step := NextStep(m, lanes, s);
      0.0 <= step && forall l | 0 <= l < |lanes| && Active(lanes, s, l) :: 0.0 <= Worked(m, lanes, s, step, l)
  {
    var step := NextStep(m, lanes, s);
    SoonestIsLeast(m, lanes, s, |lanes|);
    var k :| 0 <= k < |lanes| && Active(lanes, s, k) && step == TimeLeft(m, lanes, s, k);
    TimeLeftNonNegative(m, lanes, s, k);
    forall l | 0 <= l < |lanes| && Active(lanes, s, l) ensures 0.0 <= Worked(m, lanes, s, step, l) {
      ShortStepLeaves(m, lanes, s, step, l);
    }
  }

  lemma WorkedAmount(m: Model, lanes: seq<Lane>, s: Sim, step: real, l: nat, factor: real) returns (worked: real)
    requires Wf(lanes, s) && ModelOk(m) && Active(lanes, s, l) && SlowedAtMost(m, lanes, l, factor)
    requires 0.0 <= step
    ensures worked == s.remaining[l] - Worked(m, lanes, s, step, l)
    ensures 0.0 <= worked <= step <= factor * worked
  {
    var rate := Rate(m, lanes, s, l);
    RateAtLeast(m, lanes, s, l, factor);
    WorkBounds(step, rate, factor);
    worked := step * rate;
  }

  lemma DoneAfter(m: Model, lanes: seq<Lane>, s: Sim, step: real, l: nat)
    requires Wf(lanes, s) && ModelOk(m) && Active(lanes, s, l)
    ensures var t := Advance(m, lanes, s, step);
      var worked := s.remaining[l] - Worked(m, lanes, s, step, l);
      && Elapsed(m, lanes, t, l) == Elapsed(m, lanes, s, l) + step
      && Done(m, lanes, t, l) == Done(m, lanes, s, l) + worked +
           (if Finishes(m, lanes, s, step, l) then Worked(m, lanes, s, step, l) else 0.0)
  {}

  /** One event keeps a lane's bounds, given a feasible step. */
  lemma AdvanceKeepsLane(m: Model, lanes: seq<Lane>, s: Sim, step: real, l: nat, factor: real)
    requires Wf(lanes, s) && ModelOk(m) && l < |lanes| && SlowedAtMost(m, lanes, l, factor)
    requires LaneInv(m, lanes, s, l, factor) && 0.0 <= step
    requires Active(lanes, s, l) ==> 0.0 <= Worked(m, lanes, s, step, l)
    ensures LaneInv(m, lanes, Advance(m, lanes, s, step), l, factor)
  {
    if Active(lanes, s, l) {
      var worked := WorkedAmount(m, lanes, s, step, l, factor);
      var done, elapsed := Done(m, lanes, s, l), Elapsed(m, lanes, s, l);
      var allowance := Allowance(m, s.next[l]);
      DoneAfter(m, lanes, s, step, l);
      StillBetween(done, allowance, elapsed, factor, worked, step);
      if Finishes(m, lanes, s, step, l) {
        FinishedBetween(done + worked, allowance, elapsed + step, factor, Worked(m, lanes, s, step, l), m.tolerance);
        AllowanceGrows(m, s.next[l]);
      }
    }
  }

  lemma EventKeepsRemaining(m: Model, lanes: seq<Lane>, s: Sim)
    requires Wf(lanes, s) && ModelOk(m) && AnyActive(lanes, s) && RemainingOk(m, lanes, s)
    ensures RemainingOk(m, lanes, Event(m, lanes, s))
  {
    StepIsFeasible(m, lanes, s);
  }

  /** Total cost of a whole lane. */
  function LaneTotal(m: Model, lane: Lane): real {
    Total(m, lane, |lane|)
  }

  lemma {:induction false} SimulateKeepsLane(m: Model, lanes: seq<Lane>, s: Sim, l: nat, factor: real)
    requires Wf(lanes, s) && ModelOk(m) && l < |lanes| && SlowedAtMost(m, lanes, l, factor)
    requires LaneInv(m, lanes, s, l, factor) && RemainingOk(m, lanes, s)
    ensures Between(LaneTotal(m, lanes[l]), Allowance(m, |lanes[l]|), Simulate(m, lanes, s)[l] - m.probe, factor)
    decreases JobsLeft(lanes, s.next)
  {
    if AnyActive(lanes, s) {
      StepIsFeasible(m, lanes, s);
      AdvanceKeepsLane(m, lanes, s, NextStep(m, lanes, s), l, factor);
      EventKeepsRemaining(m, lanes, s);
      EventFinishesJob(m, lanes, s);
      SimulateKeepsLane(m, lanes, Event(m, lanes, s), l, factor);
    } else {
      assert !Active(lanes, s, l);
    }
  }

  /**
   Every lane ends no earlier than its jobs back to back, less the tolerance per job, and no
   later than those jobs at the worst slowdown its partner lane can cause.
   */
  lemma LaneEndBounds(m: Model, lanes: seq<Lane>, l: nat, factor: real)
    requires ModelOk(m) && l < |lanes| && SlowedAtMost(m, lanes, l, factor)
    ensures Between(LaneTotal(m, lanes[l]), Allowance(m, |lanes[l]|), LaneEnds(m, lanes)[l] - m.probe, factor)
  {
    var s := Start(m, lanes);
    StartLane(m, lanes, l, factor);
    SimulateKeepsLane(m, lanes, s, l, factor);
  }

  /** A lane whose partner never runs a job is a plain sum, in exact arithmetic. */
  lemma LoneLaneIsSum(m: Model, lanes: seq<Lane>, l: nat)
    requires ModelOk(m) && m.tolerance == 0.0 && l < |lanes|
    requires Partner(l) >= |lanes| || lanes[Partner(l)] == []
    ensures LaneEnds(m, lanes)[l] == m.probe + LaneTotal(m, lanes[l])
  {
    LaneEndBounds(m, lanes, l, 1.0);
    ExactlyBetween(LaneTotal(m, lanes[l]), Allowance(m, |lanes[l]|), LaneEnds(m, lanes)[l] - m.probe);
  }

  // ----- Machines are independent -----

  /** The lanes of machine `k`. */
  function MachineLanes<T>(xs: seq<T>, k: nat): (r: seq<T>)
    requires 2 * k <= |xs|
  {
    if 2 * k + 2 <= |xs| then xs[2 * k..2 * k + 2] else xs[2 * k..]
  }

  function MachineSim(lanes: seq<Lane>, s: Sim, k: nat): (r: Sim)
    requires Wf(lanes, s) && 2 * k <= |lanes|
    ensures Wf(MachineLanes(lanes, k), r)
  {
    Sim(s.now, MachineLanes(s.next, k), MachineLanes(s.remaining, k), MachineLanes(s.ends, k))
  }

  /** Let time pass without letting any job finish. */
  function Wait(m: Model, lanes: seq<Lane>, s: Sim, step: real): (t: Sim)
    requires Wf(lanes, s) && ModelOk(m)
    ensures Wf(lanes, t)
  {
    Sim(s.now + step, s.next,
        seq(|lanes|, l requires 0 <= l < |lanes| => Worked(m, lanes, s, step, l)), s.ends)
  }

  lemma WaitKeepsActive(m: Model, lanes: seq<Lane>, s: Sim, step: real, l: nat)
    requires Wf(lanes, s) && ModelOk(m) && l < |lanes|
    ensures Active(lanes, Wait(m, lanes, s, step), l) <==> Active(lanes, s, l)
    ensures Active(lanes, s, l) ==> Rate(m, lanes, Wait(m, lanes, s, step), l) == Rate(m, lanes, s, l)
  {}

  lemma WaitShortensTimeLeft(m: Model, lanes: seq<Lane>, s: Sim, step: real, l: nat)
    requires Wf(lanes, s) && ModelOk(m) && Active(lanes, s, l)
    ensures Active(lanes, Wait(m, lanes, s, step), l)
    ensures TimeLeft(m, lanes, Wait(m, lanes, s, step), l) == TimeLeft(m, lanes, s, l) - step
  {
    WaitKeepsActive(m, lanes, s, step, l);
    RateBounds(m, lanes, s, l);
    DifferenceQuotient(s.remaining[l], step, Rate(m, lanes, s, l));
  }

  lemma DifferenceQuotient(x: real, step: real, rate: real)
    requires rate > 0.0
    ensures (x - step * rate) / rate == x / rate - step
  {
    assert (x - step * rate) / rate == x / rate - (step * rate) / rate;
  }

  lemma WaitShortensSoonest(m: Model, lanes: seq<Lane>, s: Sim, step: real)
    requires Wf(lanes, s) && ModelOk(m) && AnyActive(lanes, s)
    ensures AnyActive(lanes, Wait(m, lanes, s, step))
    ensures NextStep(m, lanes, Wait(m, lanes, s, step)) == NextStep(m, lanes, s) - step
  {
    var w := Wait(m, lanes, s, step);
    SoonestIsLeast(m, lanes, s, |lanes|);
    SoonestIsLeast(m, lanes, w, |lanes|);
    var r, r' := Soonest(m, lanes, s, |lanes|), Soonest(m, lanes, w, |lanes|);
    var l :| 0 <= l < |lanes| && Active(lanes, s, l) && r.value == TimeLeft(m, lanes, s, l);
    WaitShortensTimeLeft(m, lanes, s, step, l);
    assert Active(lanes, w, l);
    var l' :| 0 <= l' < |lanes| && Active(lanes, w, l') && r'.value == TimeLeft(m, lanes, w, l');
    WaitKeepsActive(m, lanes, s, step, l');
    WaitShortensTimeLeft(m, lanes, s, step, l');
  }

  lemma WaitThenWork(m: Model, lanes: seq<Lane>, s: Sim, step: real, rest: real, l: nat)
    requires Wf(lanes, s) && ModelOk(m) && l < |lanes|
    ensures Worked(m, lanes, Wait(m, lanes, s, step), rest, l) == Worked(m, lanes, s, step + rest, l)
  {
    WaitKeepsActive(m, lanes, s, step, l);
    if Active(lanes, s, l) {
      var rate := Rate(m, lanes, s, l);
      assert (step + rest) * rate == step * rate + rest * rate;
    }
  }

  /** Waiting and then advancing is one longer advance. */
  lemma WaitThenAdvance(m: Model, lanes: seq<Lane>, s: Sim, step: real, rest: real)
    requires Wf(lanes, s) && ModelOk(m)
    ensures Advance(m, lanes, Wait(m, lanes, s, step), rest) == Advance(m, lanes, s, step + rest)
  {
    var w := Wait(m, lanes, s, step);
    var a, b := Advance(m, lanes, w, rest), Advance(m, lanes, s, step + rest);
    forall l | 0 <= l < |lanes|
      ensures a.next[l] == b.next[l] && a.remaining[l] == b.remaining[l] && a.ends[l] == b.ends[l]
    {
      WaitThenWork(m, lanes, s, step, rest, l);
      WaitKeepsActive(m, lanes, s, step, l);
    }
    assert a.next == b.next && a.remaining == b.remaining && a.ends == b.ends;
  }

  /** States whose next events coincide have the same simulated ends. */
  lemma SameEventSameEnds(m: Model, lanes: seq<Lane>, s: Sim, w: Sim)
    requires Wf(lanes, s) && Wf(lanes, w) && ModelOk(m) && AnyActive(lanes, s) && AnyActive(lanes, w)
    requires Advance(m, lanes, w, NextStep(m, lanes, w)) == Advance(m, lanes, s, NextStep(m, lanes, s))
    ensures Simulate(m, lanes, w) == Simulate(m, lanes, s)
  {}

  lemma SplitAdvance(m: Model, lanes: seq<Lane>, s: Sim, step: real, whole: real, rest: real)
    requires Wf(lanes, s) && ModelOk(m) && rest == whole - step
    ensures Advance(m, lanes, Wait(m, lanes, s, step), rest) == Advance(m, lanes, s, whole)
  {
    WaitThenAdvance(m, lanes, s, step, rest);
    assert step + rest == whole;
  }

  /** Splitting a step early changes no simulated end. */
  lemma WaitingIsHarmless(m: Model, lanes: seq<Lane>, s: Sim, step: real)
    requires Wf(lanes, s) && ModelOk(m)
    ensures Simulate(m, lanes, Wait(m, lanes, s, step)) == Simulate(m, lanes, s)
  {
    if AnyActive(lanes, s) {
      WaitShortensSoonest(m, lanes, s, step);
      SplitAdvance(m, lanes, s, step, NextStep(m, lanes, s), NextStep(m, lanes, Wait(m, lanes, s, step)));
      SameEventSameEnds(m, lanes, s, Wait(m, lanes, s, step));
    } else {
      forall l | 0 <= l < |lanes| ensures !Active(lanes, Wait(m, lanes, s, step), l) {
        WaitKeepsActive(m, lanes, s, step, l);
      }
    }
  }

  // The lanes of one machine, seen alone.

  lemma MachineActive(lanes: seq<Lane>, s: Sim, k: nat, i: nat)
    requires Wf(lanes, s) && 2 * k <= |lanes|
    ensures Active(MachineLanes(lanes, k), MachineSim(lanes, s, k), i) <==> i < 2 && Active(lanes, s, 2 * k + i)
  {}

  lemma MachineRate(m: Model, lanes: seq<Lane>, s: Sim, k: nat, i: nat)
    requires Wf(lanes, s) && ModelOk(m) && 2 * k <= |lanes|
    requires Active(MachineLanes(lanes, k), MachineSim(lanes, s, k), i)
    ensures Active(lanes, s, 2 * k + i)
    ensures Rate(m, MachineLanes(lanes, k), MachineSim(lanes, s, k), i) == Rate(m, lanes, s, 2 * k + i)
  {
    MachineActive(lanes, s, k, i);
    MachineActive(lanes, s, k, Partner(i));
    assert Partner(2 * k + i) == 2 * k + Partner(i);
  }

  lemma MachineWorked(m: Model, lanes: seq<Lane>, s: Sim, step: real, k: nat, i: nat)
    requires Wf(lanes, s) && ModelOk(m) && 2 * k <= |lanes| && i < |MachineLanes(lanes, k)|
    ensures Worked(m, MachineLanes(lanes, k), MachineSim(lanes, s, k), step, i) == Worked(m, lanes, s, step, 2 * k + i)
  {
    MachineActive(lanes, s, k, i);
    if Active(lanes, s, 2 * k + i) {
      MachineRate(m, lanes, s, k, i);
    }
  }

  lemma MachineTimeLeft(m: Model, lanes: seq<Lane>, s: Sim, k: nat, i: nat)
    requires Wf(lanes, s) && ModelOk(m) && 2 * k <= |lanes|
    requires Active(MachineLanes(lanes, k), MachineSim(lanes, s, k), i)
    ensures Active(lanes, s, 2 * k + i)
    ensures TimeLeft(m, MachineLanes(lanes, k), MachineSim(lanes, s, k), i) == TimeLeft(m, lanes, s, 2 * k + i)
  {
    MachineRate(m, lanes, s, k, i);
  }

  lemma MachineLaneAdvance(m: Model, lanes: seq<Lane>, s: Sim, step: real, k: nat, i: nat)
    requires Wf(lanes, s) && ModelOk(m) && 2 * k <= |lanes| && i < |MachineLanes(lanes, k)|
    ensures var own, r := MachineLanes(lanes, k), MachineSim(lanes, s, k);
      && NextAt(m, own, r, step, i) == NextAt(m, lanes, s, step, 2 * k + i)
      && RemainingAt(m, own, r, step, i) == RemainingAt(m, lanes, s, step, 2 * k + i)
      && EndAt(m, own, r, step, i) == EndAt(m, lanes, s, step, 2 * k + i)
  {
    MachineActive(lanes, s, k, i);
    MachineWorked(m, lanes, s, step, k, i);
  }

  /** Advancing all machines advances each one by the same step. */
  lemma MachineAdvance(m: Model, lanes: seq<Lane>, s: Sim, step: real, k: nat)
    requires Wf(lanes, s) && ModelOk(m) && 2 * k <= |lanes|
    ensures MachineSim(lanes, Advance(m, lanes, s, step), k)
         == Advance(m, MachineLanes(lanes, k), MachineSim(lanes, s, k), step)
  {
    var own, r := MachineLanes(lanes, k), MachineSim(lanes, s, k);
    var t, b := Advance(m, lanes, s, step), Advance(m, own, r, step);
    forall i | 0 <= i < |own|
      ensures t.next[2 * k + i] == b.next[i] && t.remaining[2 * k + i] == b.remaining[i]
      ensures t.ends[2 * k + i] == b.ends[i]
    {
      MachineLaneAdvance(m, lanes, s, step, k, i);
    }
    MachineSlice(t.next, b.next, k);
    MachineSlice(t.remaining, b.remaining, k);
    MachineSlice(t.ends, b.ends, k);
  }

  lemma MachineSlice<T>(xs: seq<T>, part: seq<T>, k: nat)
    requires 2 * k <= |xs| && |part| == |MachineLanes(xs, k)|
    requires forall i | 0 <= i < |part| :: xs[2 * k + i] == part[i]
    ensures MachineLanes(xs, k) == part
  {}

  /** The global step never exceeds the step the machine would take alone. */
  lemma GlobalStepIsShorter(m: Model, lanes: seq<Lane>, s: Sim, k: nat)
    requires Wf(lanes, s) && ModelOk(m) && 2 * k <= |lanes|
    requires AnyActive(MachineLanes(lanes, k), MachineSim(lanes, s, k))
    ensures AnyActive(lanes, s)
    ensures NextStep(m, lanes, s) <= NextStep(m, MachineLanes(lanes, k), MachineSim(lanes, s, k))
  {
    var own, r := MachineLanes(lanes, k), MachineSim(lanes, s, k);
    SoonestIsLeast(m, own, r, |own|);
    var i :| 0 <= i < |own| && Active(own, r, i) && NextStep(m, own, r) == TimeLeft(m, own, r, i);
    MachineTimeLeft(m, lanes, s, k, i);
    SoonestIsLeast(m, lanes, s, |lanes|);
  }

  /** Strictly before its own next event a machine only waits, in exact arithmetic. */
  lemma EarlyAdvanceIsWait(m: Model, lanes: seq<Lane>, s: Sim, step: real)
    requires Wf(lanes, s) && ModelOk(m) && m.tolerance == 0.0
    requires AnyActive(lanes, s) ==> step < NextStep(m, lanes, s)
    ensures Advance(m, lanes, s, step) == Wait(m, lanes, s, step)
  {
    var a, b := Advance(m, lanes, s, step), Wait(m, lanes, s, step);
    forall l | 0 <= l < |lanes| ensures !Finishes(m, lanes, s, step, l) {
      if Active(lanes, s, l) {
        SoonestIsLeast(m, lanes, s, |lanes|);
        EarlyStepLeavesWork(m, lanes, s, step, l);
      }
    }
    assert a.next == b.next && a.remaining == b.remaining && a.ends == b.ends;
  }

  lemma EarlyStepLeavesWork(m: Model, lanes: seq<Lane>, s: Sim, step: real, l: nat)
    requires Wf(lanes, s) && ModelOk(m) && Active(lanes, s, l) && step < TimeLeft(m, lanes, s, l)
    ensures 0.0 < Worked(m, lanes, s, step, l)
  {
    RateBounds(m, lanes, s, l);
    QuotientTimes(s.remaining[l], Rate(m, lanes, s, l));
    ProductStrictlyMonotone(step, TimeLeft(m, lanes, s, l), Rate(m, lanes, s, l));
  }

  lemma ProductStrictlyMonotone(x: real, y: real, z: real)
    requires x < y && z > 0.0
    ensures x * z < y * z
  {
    assert (y - x) * z > 0.0;
  }

  lemma OwnStepIsEvent(m: Model, lanes: seq<Lane>, s: Sim, step: real)
    requires Wf(lanes, s) && ModelOk(m) && AnyActive(lanes, s) && step == NextStep(m, lanes, s)
    ensures Simulate(m, lanes, Advance(m, lanes, s, step)) == Simulate(m, lanes, s)
  {}

  /** Any step up to its own next event leaves a machine's simulated ends unchanged. */
  lemma ShortAdvanceIsHarmless(m: Model, lanes: seq<Lane>, s: Sim, step: real)
    requires Wf(lanes, s) && ModelOk(m) && m.tolerance == 0.0
    requires AnyActive(lanes, s) ==> step <= NextStep(m, lanes, s)
    ensures Simulate(m, lanes, Advance(m, lanes, s, step)) == Simulate(m, lanes, s)
  {
    if AnyActive(lanes, s) && step == NextStep(m, lanes, s) {
      OwnStepIsEvent(m, lanes, s, step);
    } else {
      EarlyAdvanceIsWait(m, lanes, s, step);
      WaitingIsHarmless(m, lanes, s, step);
    }
  }

  lemma {:induction false} SimulateByMachine(m: Model, lanes: seq<Lane>, s: Sim, k: nat)
    requires Wf(lanes, s) && ModelOk(m) && m.tolerance == 0.0 && 2 * k <= |lanes|
    ensures MachineLanes(Simulate(m, lanes, s), k) == Simulate(m, MachineLanes(lanes, k), MachineSim(lanes, s, k))
    decreases JobsLeft(lanes, s.next)
  {
    var own, r := MachineLanes(lanes, k), MachineSim(lanes, s, k);
    if AnyActive(lanes, s) {
      var step := NextStep(m, lanes, s);
      EventFinishesJob(m, lanes, s);
      SimulateByMachine(m, lanes, Event(m, lanes, s), k);
      MachineAdvance(m, lanes, s, step, k);
      if AnyActive(own, r) {
        GlobalStepIsShorter(m, lanes, s, k);
      }
      ShortAdvanceIsHarmless(m, own, r, step);
    } else {
      forall i | 0 <= i < |own| ensures !Active(own, r, i) {
        MachineActive(lanes, s, k, i);
      }
    }
  }

  /**
   In exact arithmetic the ends of one machine's lanes are those of simulating that machine
   alone, although every event of any machine splits the global step.
   */
  lemma MachinesAreIndependent(m: Model, lanes: seq<Lane>, k: nat)
    requires ModelOk(m) && m.tolerance == 0.0 && 2 * k <= |lanes|
    ensures MachineLanes(LaneEnds(m, lanes), k) == LaneEnds(m, MachineLanes(lanes, k))
  {
    var own := MachineLanes(lanes, k);
    var a, b := MachineSim(lanes, Start(m, lanes), k), Start(m, own);
    assert a.next == b.next && a.remaining == b.remaining && a.ends == b.ends;
    SimulateByMachine(m, lanes, Start(m, lanes), k);
  }
}
