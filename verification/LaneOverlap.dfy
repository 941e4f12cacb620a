/**
 How two busy lanes of one machine slow each other down: what a lane takes at least beside a
 partner that is never idle, and the exact course of a machine from one event to the next.
 */
module LaneOverlap {
  import opened LaneSimulation
  import opened LaneGuarantees

  // ----- A partner that is never idle -----

  /** Every job of the partner lane slows every job of lane `l` by at least `least`. */
  ghost predicate SlowedAtLeast(m: Model, lanes: seq<Lane>, l: nat, least: real) {
    && l < |lanes| && Partner(l) < |lanes| && least >= 1.0
    && forall a, b | a in lanes[l] && b in lanes[Partner(l)] :: m.slowdown(a, b) >= least
  }

  /** No lane has ended later than now. */
  ghost predicate EndsPast(lanes: seq<Lane>, s: Sim)
    requires Wf(lanes, s)
  {
    forall l | 0 <= l < |lanes| :: s.ends[l] <= s.now
  }

  /** A lane that has run its last job keeps its end. */
  lemma {:induction false} IdleLaneStays(m: Model, lanes: seq<Lane>, s: Sim, l: nat)
    requires Wf(lanes, s) && ModelOk(m) && l < |lanes| && !Active(lanes, s, l)
    ensures Simulate(m, lanes, s)[l] == s.ends[l]
    decreases JobsLeft(lanes, s.next)
  {
    if AnyActive(lanes, s) {
      EventFinishesJob(m, lanes, s);
      IdleLaneStays(m, lanes, Event(m, lanes, s), l);
    }
  }

  lemma EventKeepsPast(m: Model, lanes: seq<Lane>, s: Sim)
    requires Wf(lanes, s) && ModelOk(m) && AnyActive(lanes, s) && RemainingOk(m, lanes, s) && EndsPast(lanes, s)
    ensures EndsPast(lanes, Event(m, lanes, s)) && NextStep(m, lanes, s) >= 0.0
  {
    StepIsFeasible(m, lanes, s);
  }

  /** A busy lane ends no earlier than the next event. */
  lemma {:induction false} BusyLaneEndsLater(m: Model, lanes: seq<Lane>, s: Sim, l: nat)
    requires Wf(lanes, s) && ModelOk(m) && Active(lanes, s, l) && RemainingOk(m, lanes, s)
    ensures AnyActive(lanes, s) && Simulate(m, lanes, s)[l] >= s.now + NextStep(m, lanes, s)
    decreases JobsLeft(lanes, s.next)
  {
    assert AnyActive(lanes, s);
    var t := Event(m, lanes, s);
    EventFinishesJob(m, lanes, s);
    EventKeepsRemaining(m, lanes, s);
    if Active(lanes, t, l) {
      BusyLaneEndsLater(m, lanes, t, l);
      StepIsFeasible(m, lanes, t);
    } else {
      IdleLaneStays(m, lanes, t, l);
    }
  }

  /** Elapsed time is at least so many seconds for each second of work beyond the allowance. */
  predicate AtLeast(least: real, work: real, allowance: real, elapsed: real) {
    least * (work - allowance) <= elapsed
  }

  ghost predicate SlowSoFar(m: Model, lanes: seq<Lane>, s: Sim, l: nat, least: real)
    requires Wf(lanes, s) && l < |lanes|
  {
    AtLeast(least, Done(m, lanes, s, l), Allowance(m, s.next[l]), Elapsed(m, lanes, s, l))
  }

  lemma Cancels(step: real, slowdown: real)
    requires slowdown >= 1.0
    ensures slowdown * (step * (1.0 / slowdown)) == step
  {
    var rate := 1.0 / slowdown;
    assert slowdown * rate == 1.0;
    assert slowdown * (step * rate) == step * (slowdown * rate);
  }

  lemma SlowProduct(least: real, slowdown: real, step: real)
    requires 1.0 <= least <= slowdown && step >= 0.0
    ensures AtLeast(least, step * (1.0 / slowdown), 0.0, step)
  {
    var work := step * (1.0 / slowdown);
    InverseBounds(slowdown);
    ProductMonotone(0.0, step, 1.0 / slowdown);
    Cancels(step, slowdown);
    ProductMonotone(least, slowdown, work);
    assert work - 0.0 == work && least * work <= slowdown * work == step;
  }

  /** Beside a busy partner, or in no time, a lane does at most a `least`th of the step's work. */
  lemma SlowStep(m: Model, lanes: seq<Lane>, s: Sim, step: real, l: nat, least: real)
    requires Wf(lanes, s) && ModelOk(m) && Active(lanes, s, l) && SlowedAtLeast(m, lanes, l, least) && step >= 0.0
    requires Active(lanes, s, Partner(l)) || step == 0.0
    ensures AtLeast(least, s.remaining[l] - Worked(m, lanes, s, step, l), 0.0, step)
  {
    var p := Partner(l);
    if Active(lanes, s, p) {
      var a, b := lanes[l][s.next[l]], lanes[p][s.next[p]];
      assert a in lanes[l] && b in lanes[p];
      SlowProduct(least, m.slowdown(a, b), step);
    }
  }

  lemma SlowSum(least: real, done: real, allowance: real, elapsed: real, worked: real, step: real, left: real,
                tolerance: real)
    requires least >= 1.0 && AtLeast(least, done, allowance, elapsed) && AtLeast(least, worked, 0.0, step)
    requires left <= tolerance
    ensures AtLeast(least, done + worked + left, allowance + tolerance, elapsed + step)
  {
    assert least * (done + worked - allowance) == least * (done - allowance) + least * (worked - 0.0);
    ProductMonotone(done + worked + left - (allowance + tolerance), done + worked - allowance, least);
  }

  lemma AdvanceStaysSlow(m: Model, lanes: seq<Lane>, s: Sim, step: real, l: nat, least: real)
    requires Wf(lanes, s) && ModelOk(m) && SlowedAtLeast(m, lanes, l, least) && SlowSoFar(m, lanes, s, l, least)
    requires step >= 0.0 && (Active(lanes, s, l) ==> Active(lanes, s, Partner(l)) || step == 0.0)
    ensures SlowSoFar(m, lanes, Advance(m, lanes, s, step), l, least)
  {
    if Active(lanes, s, l) {
      SlowStep(m, lanes, s, step, l, least);
      DoneAfter(m, lanes, s, step, l);
      var left := Worked(m, lanes, s, step, l);
      var done, worked := Done(m, lanes, s, l), s.remaining[l] - left;
      AllowanceGrows(m, s.next[l]);
      if Finishes(m, lanes, s, step, l) {
        SlowSum(least, done, Allowance(m, s.next[l]), Elapsed(m, lanes, s, l), worked, step, left, m.tolerance);
      } else {
        SlowSum(least, done, Allowance(m, s.next[l]), Elapsed(m, lanes, s, l), worked, step, 0.0, 0.0);
      }
    }
  }

  lemma StartIsSlow(m: Model, lanes: seq<Lane>, l: nat, least: real)
    requires ModelOk(m) && l < |lanes|
    ensures SlowSoFar(m, lanes, Start(m, lanes), l, least)
  {
    assert least * 0.0 == 0.0;
  }

  lemma {:induction false} SimulateStaysSlow(m: Model, lanes: seq<Lane>, s: Sim, l: nat, least: real)
    requires Wf(lanes, s) && ModelOk(m) && SlowedAtLeast(m, lanes, l, least) && SlowSoFar(m, lanes, s, l, least)
    requires RemainingOk(m, lanes, s) && EndsPast(lanes, s)
    requires Simulate(m, lanes, s)[Partner(l)] >= Simulate(m, lanes, s)[l]
    ensures AtLeast(least, LaneTotal(m, lanes[l]), Allowance(m, |lanes[l]|), Simulate(m, lanes, s)[l] - m.probe)
    decreases JobsLeft(lanes, s.next)
  {
    if AnyActive(lanes, s) {
      var step := NextStep(m, lanes, s);
      EventKeepsPast(m, lanes, s);
      if Active(lanes, s, l) && !Active(lanes, s, Partner(l)) {
        IdleLaneStays(m, lanes, s, Partner(l));
        BusyLaneEndsLater(m, lanes, s, l);
      }
      AdvanceStaysSlow(m, lanes, s, step, l, least);
      EventKeepsRemaining(m, lanes, s);
      EventFinishesJob(m, lanes, s);
      SimulateStaysSlow(m, lanes, Event(m, lanes, s), l, least);
    } else {
      assert !Active(lanes, s, l);
    }
  }

  /**
   A lane whose partner ends no earlier takes at least `least` times its jobs back to back, less
   the tolerance per job, when every pair of their jobs slows it down that much.
   */
  lemma BesideBusyPartner(m: Model, lanes: seq<Lane>, l: nat, least: real)
    requires ModelOk(m) && SlowedAtLeast(m, lanes, l, least)
    requires LaneEnds(m, lanes)[Partner(l)] >= LaneEnds(m, lanes)[l]
    ensures AtLeast(least, LaneTotal(m, lanes[l]), Allowance(m, |lanes[l]|), LaneEnds(m, lanes)[l] - m.probe)
  {
    var s := Start(m, lanes);
    StartLane(m, lanes, l, 1.0);
    StartIsSlow(m, lanes, l, least);
    SimulateStaysSlow(m, lanes, s, l, least);
  }

  // ----- From one event to the next -----

  /** Two lanes of one machine, both busy. */
  ghost predicate BothRun(m: Model, lanes: seq<Lane>, s: Sim) {
    && ModelOk(m) && |lanes| == 2 && Wf(lanes, s)
    && s.next[0] < |lanes[0]| && s.next[1] < |lanes[1]|
  }

  /** How long the running job of lane `l` would take beside the running job of the other lane. */
  function Overlapped(m: Model, lanes: seq<Lane>, s: Sim, l: nat): real
    requires BothRun(m, lanes, s) && l < 2
  {
    s.remaining[l] * m.slowdown(lanes[l][s.next[l]], lanes[1 - l][s.next[1 - l]])
  }

  lemma QuotientByInverse(x: real, slowdown: real)
    requires slowdown >= 1.0
    ensures x / (1.0 / slowdown) == x * slowdown
  {
    var rate := 1.0 / slowdown;
    InverseBounds(slowdown);
    assert rate * slowdown == 1.0;
    assert (x * slowdown) * rate == x * (slowdown * rate) == x;
    QuotientIs(x, rate, x * slowdown);
  }

  lemma QuotientIs(x: real, y: real, q: real)
    requires y > 0.0 && q * y == x
    ensures x / y == q
  {
    QuotientTimes(x, y);
    if x / y < q {
      ProductStrictlyMonotone(x / y, q, y);
    } else if q < x / y {
      ProductStrictlyMonotone(q, x / y, y);
    }
  }

  lemma TimeBeside(m: Model, lanes: seq<Lane>, s: Sim, l: nat)
    requires BothRun(m, lanes, s) && l < 2
    ensures Active(lanes, s, l) && TimeLeft(m, lanes, s, l) == Overlapped(m, lanes, s, l)
  {
    QuotientByInverse(s.remaining[l], m.slowdown(lanes[l][s.next[l]], lanes[1 - l][s.next[1 - l]]));
  }

  lemma StepOfTwo(m: Model, lanes: seq<Lane>, s: Sim, l: nat)
    requires BothRun(m, lanes, s) && l < 2 && Overlapped(m, lanes, s, l) <= Overlapped(m, lanes, s, 1 - l)
    ensures AnyActive(lanes, s) && NextStep(m, lanes, s) == Overlapped(m, lanes, s, l)
  {
    TimeBeside(m, lanes, s, 0);
    TimeBeside(m, lanes, s, 1);
    assert Active(lanes, s, 0);
    SoonestIsLeast(m, lanes, s, 2);
  }

  /** What a lane has left of its job after working so long beside the other. */
  lemma LeftBeside(m: Model, lanes: seq<Lane>, s: Sim, step: real, l: nat)
    requires BothRun(m, lanes, s) && l < 2
    ensures Worked(m, lanes, s, step, l)
      == s.remaining[l] - step / m.slowdown(lanes[l][s.next[l]], lanes[1 - l][s.next[1 - l]])
    ensures step < Overlapped(m, lanes, s, l) ==> Worked(m, lanes, s, step, l) > 0.0
    ensures step == Overlapped(m, lanes, s, l) ==> Worked(m, lanes, s, step, l) == 0.0
  {
    TimeBeside(m, lanes, s, l);
    var slowdown := m.slowdown(lanes[l][s.next[l]], lanes[1 - l][s.next[1 - l]]);
    Cancels(step, slowdown);
    QuotientIs(step, slowdown, step * (1.0 / slowdown));
    if step < Overlapped(m, lanes, s, l) {
      EarlyStepLeavesWork(m, lanes, s, step, l);
    } else if step == Overlapped(m, lanes, s, l) {
      TimeLeftUsesUp(m, lanes, s, l);
    }
  }

  /** A lane after a step that uses up its job, up to the tolerance, or leaves some of it. */
  lemma LaneAfter(m: Model, lanes: seq<Lane>, s: Sim, step: real, l: nat)
    requires ModelOk(m) && Wf(lanes, s) && l < |lanes|
    ensures var t, left := Advance(m, lanes, s, step), Worked(m, lanes, s, step, l);
      && t.now == s.now + step
      && (Active(lanes, s, l) && left <= m.tolerance ==>
            t.next[l] == s.next[l] + 1 && t.ends[l] == t.now && t.remaining[l] == CostAt(m, lanes[l], s.next[l] + 1))
      && (Active(lanes, s, l) && left > m.tolerance ==>
            t.next[l] == s.next[l] && t.ends[l] == s.ends[l] && t.remaining[l] == left)
      && (!Active(lanes, s, l) ==> t.next[l] == s.next[l] && t.ends[l] == s.ends[l])
  {}

  /**
   Of two running jobs the one that would end earlier beside the other ends exactly then, and its
   lane goes on with its next job. The other job has done what that time allows at its own
   slowdown. It goes on with what is left, or ends as well if that is within the tolerance.
   */
  lemma EarlierJobEnds(m: Model, lanes: seq<Lane>, s: Sim, l: nat)
    requires BothRun(m, lanes, s) && l < 2 && Overlapped(m, lanes, s, l) <= Overlapped(m, lanes, s, 1 - l)
    ensures AnyActive(lanes, s)
    ensures var t, end, o := Event(m, lanes, s), s.now + Overlapped(m, lanes, s, l), 1 - l;
      var left := s.remaining[o] - Overlapped(m, lanes, s, l) / m.slowdown(lanes[o][s.next[o]], lanes[l][s.next[l]]);
      && t.now == end
      && t.next[l] == s.next[l] + 1 && t.ends[l] == end && t.remaining[l] == CostAt(m, lanes[l], s.next[l] + 1)
      && (left > m.tolerance ==> t.next[o] == s.next[o] && t.ends[o] == s.ends[o] && t.remaining[o] == left)
      && (left <= m.tolerance ==>
            t.next[o] == s.next[o] + 1 && t.ends[o] == end && t.remaining[o] == CostAt(m, lanes[o], s.next[o] + 1))
      && (Overlapped(m, lanes, s, l) < Overlapped(m, lanes, s, o) ==> left > 0.0)
      && (Overlapped(m, lanes, s, l) == Overlapped(m, lanes, s, o) ==> left == 0.0)
  {
    var step := Overlapped(m, lanes, s, l);
    StepOfTwo(m, lanes, s, l);
    LeftBeside(m, lanes, s, step, l);
    LeftBeside(m, lanes, s, step, 1 - l);
    LaneAfter(m, lanes, s, step, l);
    LaneAfter(m, lanes, s, step, 1 - l);
  }

  /** A lane whose partner has run its last job ends its job after what is left of it. */
  lemma LastJobEnds(m: Model, lanes: seq<Lane>, s: Sim, l: nat)
    requires ModelOk(m) && |lanes| == 2 && Wf(lanes, s) && l < 2
    requires s.next[l] < |lanes[l]| && s.next[1 - l] == |lanes[1 - l]|
    ensures AnyActive(lanes, s)
    ensures var t, end := Event(m, lanes, s), s.now + s.remaining[l];
      && t.now == end && t.next[l] == s.next[l] + 1 && t.next[1 - l] == s.next[1 - l]
      && t.ends[l] == end && t.ends[1 - l] == s.ends[1 - l]
      && t.remaining[l] == CostAt(m, lanes[l], s.next[l] + 1)
  {
    StepOfOne(m, lanes, s, l);
    TimeLeftUsesUp(m, lanes, s, l);
    LaneAfter(m, lanes, s, s.remaining[l], l);
    LaneAfter(m, lanes, s, s.remaining[l], 1 - l);
  }

  lemma StepOfOne(m: Model, lanes: seq<Lane>, s: Sim, l: nat)
    requires ModelOk(m) && |lanes| == 2 && Wf(lanes, s) && l < 2
    requires s.next[l] < |lanes[l]| && s.next[1 - l] == |lanes[1 - l]|
    ensures AnyActive(lanes, s) && Active(lanes, s, l) && !Active(lanes, s, 1 - l)
    ensures NextStep(m, lanes, s) == TimeLeft(m, lanes, s, l) == s.remaining[l]
  {
    assert Active(lanes, s, l) && !Active(lanes, s, 1 - l) && Rate(m, lanes, s, l) == 1.0;
    SoonestIsLeast(m, lanes, s, 2);
    QuotientIs(s.remaining[l], 1.0, s.remaining[l]);
  }

  // ----- Two jobs -----

  function Beside(m: Model, a: Job, b: Job): real {
    m.cost(a) * m.slowdown(a, b)
  }

  lemma FirstOfTwo(m: Model, x: Job, y: Job)
    requires ModelOk(m) && m.tolerance == 0.0 && Beside(m, x, y) < Beside(m, y, x)
    ensures var lanes, end := [[x], [y]], m.probe + Beside(m, x, y);
      && AnyActive(lanes, Start(m, lanes))
      && var t := Event(m, lanes, Start(m, lanes));
         && t.now == t.ends[0] == end && t.next[0] == 1 && t.next[1] == 0
         && t.remaining[1] == m.cost(y) - Beside(m, x, y) / m.slowdown(y, x)
  {
    var lanes := [[x], [y]];
    var s := Start(m, lanes);
    assert s.next[0] == s.next[1] == 0 && s.remaining[0] == m.cost(x) && s.remaining[1] == m.cost(y);
    assert Overlapped(m, lanes, s, 0) == Beside(m, x, y) && Overlapped(m, lanes, s, 1) == Beside(m, y, x);
    EarlierJobEnds(m, lanes, s, 0);
  }

  /**
   Two jobs on the two lanes of one machine: the one that ends earlier beside the other takes its
   cost at its slowdown; the other then finishes what is left of it undisturbed.
   */
  lemma TwoJobs(m: Model, x: Job, y: Job)
    requires ModelOk(m) && m.tolerance == 0.0 && Beside(m, x, y) < Beside(m, y, x)
    ensures var end := m.probe + Beside(m, x, y);
      LaneEnds(m, [[x], [y]]) == [end, end + m.cost(y) - Beside(m, x, y) / m.slowdown(y, x)]
  {
    var lanes := [[x], [y]];
    FirstOfTwo(m, x, y);
    var s := Event(m, lanes, Start(m, lanes));
    LastJobEnds(m, lanes, s, 1);
    var t := Event(m, lanes, s);
    assert t.next[0] == t.next[1] == 1 && !AnyActive(lanes, t);
    EventFinishesJob(m, lanes, Start(m, lanes));
    EventFinishesJob(m, lanes, s);
    assert Simulate(m, lanes, t) == t.ends;
    assert Simulate(m, lanes, s) == t.ends;
  }
}
