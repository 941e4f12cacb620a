/**
 `refineLanes`: first-improvement local search over single-job moves and exchanges. It keeps
 the jobs, accepts only feasible strictly better placements, and stops at a local optimum or
 after a fixed number of improvements.
 */
module LaneRefinement {
  import opened Basics
  import opened Courses
  import opened LaneSimulation
  import opened LanePlacement
  import opened Parts
  import opened RealLists
  import opened Sorting

  /** The rules and costs a search runs under, for placements with all hosted lanes. */
  datatype Setting = Setting(feasible: seq<Lane> -> bool, maxEnd: seq<Lane> --> real, margin: real)

  ghost predicate SettingOk(c: Setting) {
    && c.margin >= 0.0
    && forall lanes: seq<Lane> | |lanes| >= HOSTED_LANES :: c.maxEnd.requires(lanes)
  }

  // ----- Neighbours -----

  function Without(lane: Lane, index: nat): Lane
    requires index < |lane|
  {
    lane[..index] + lane[index + 1..]
  }

  predicate IsMove(lanes: seq<Lane>, from: int, index: int, to: int) {
    0 <= from < |lanes| && 0 <= to < |lanes| && from != to && 0 <= index < |lanes[from]|
  }

  function Move(lanes: seq<Lane>, from: nat, index: nat, to: nat): (r: seq<Lane>)
    requires IsMove(lanes, from, index, to)
    ensures |r| == |lanes|
  {
    lanes[from := CanonicalLane(Without(lanes[from], index))]
         [to := CanonicalLane(lanes[to] + [lanes[from][index]])]
  }

  predicate IsExchange(lanes: seq<Lane>, from: int, index: int, to: int, other: int) {
    0 <= from < to < |lanes| && 0 <= index < |lanes[from]| && 0 <= other < |lanes[to]|
  }

  function Exchange(lanes: seq<Lane>, from: nat, index: nat, to: nat, other: nat): (r: seq<Lane>)
    requires IsExchange(lanes, from, index, to, other)
    ensures |r| == |lanes|
  {
    lanes[from := CanonicalLane(Without(lanes[from], index) + [lanes[to][other]])]
         [to := CanonicalLane(Without(lanes[to], other) + [lanes[from][index]])]
  }

  /** A neighbour of a placement, by what it changes. */
  datatype Change = Shift(from: nat, index: nat, to: nat) | Swap(from: nat, index: nat, to: nat, other: nat) | Keep

  predicate IsChange(lanes: seq<Lane>, x: Change) {
    match x
    case Shift(from, index, to) => IsMove(lanes, from, index, to)
    case Swap(from, index, to, other) => IsExchange(lanes, from, index, to, other)
    case Keep => false
  }

  function Apply(lanes: seq<Lane>, x: Change): (r: seq<Lane>)
    requires IsChange(lanes, x)
    ensures |r| == |lanes|
  {
    match x
    case Shift(from, index, to) => Move(lanes, from, index, to)
    case Swap(from, index, to, other) => Exchange(lanes, from, index, to, other)
  }

  /** What a search accepts, as a test on the changes of one placement. */
  type Test = Change --> bool

  ghost predicate Tests(ok: Test, lanes: seq<Lane>) {
    forall x | IsChange(lanes, x) :: ok.requires(x)
  }

  /** The sweep order: moves before exchanges, each by lane, position, target lane, and other position. */
  predicate Earlier(x: Change, y: Change) {
    match (x, y)
    case (Shift(f, i, t), Shift(g, k, u)) => f < g || (f == g && (i < k || (i == k && t < u)))
    case (Shift(_, _, _), Swap(_, _, _, _)) => true
    case (Swap(f, i, t, o), Swap(g, k, u, p)) =>
      f < g || (f == g && (i < k || (i == k && (t < u || (t == u && o < p)))))
    case _ => false
  }

  ghost predicate Passes(ok: Test, lanes: seq<Lane>, x: Change)
    requires Tests(ok, lanes)
  {
    IsChange(lanes, x) && ok(x)
  }

  /** The first change of the sweep order that passes. */
  ghost predicate First(ok: Test, lanes: seq<Lane>, x: Change)
    requires Tests(ok, lanes)
  {
    Passes(ok, lanes, x) && forall y | IsChange(lanes, y) && Earlier(y, x) :: !ok(y)
  }

  /** No move of this job to one of the first `n` lanes passes. */
  ghost predicate NoMoveTo(ok: Test, lanes: seq<Lane>, from: nat, index: nat, n: nat)
    requires Tests(ok, lanes)
  {
    forall to: nat | to < n && IsMove(lanes, from, index, to) :: !ok(Shift(from, index, to))
  }

  /** No move passes from the first `n` lanes. */
  ghost predicate NoMove(ok: Test, lanes: seq<Lane>, n: nat)
    requires Tests(ok, lanes) && n <= |lanes|
  {
    forall from, index | 0 <= from < n && 0 <= index < |lanes[from]| :: NoMoveTo(ok, lanes, from, index, |lanes|)
  }

  /** No exchange of this job with one of the first `n` of lane `to` passes. */
  ghost predicate NoExchangeWith(ok: Test, lanes: seq<Lane>, from: nat, index: nat, to: nat, n: nat)
    requires Tests(ok, lanes)
  {
    forall other: nat | other < n && IsExchange(lanes, from, index, to, other) :: !ok(Swap(from, index, to, other))
  }

  /** No exchange of this job with a lane before `n` passes. */
  ghost predicate NoExchangeTo(ok: Test, lanes: seq<Lane>, from: nat, index: nat, n: nat)
    requires Tests(ok, lanes) && n <= |lanes|
  {
    forall to | from < to < n :: NoExchangeWith(ok, lanes, from, index, to, |lanes[to]|)
  }

  ghost predicate NoExchange(ok: Test, lanes: seq<Lane>, n: nat)
    requires Tests(ok, lanes) && n <= |lanes|
  {
    forall from, index | 0 <= from < n && 0 <= index < |lanes[from]| :: NoExchangeTo(ok, lanes, from, index, |lanes|)
  }

  lemma WithoutKeeps(lane: Lane, index: nat)
    requires index < |lane|
    ensures multiset(Without(lane, index)) + multiset{lane[index]} == multiset(lane)
  {
    assert lane == lane[..index] + [lane[index]] + lane[index + 1..];
  }

  /** Taking a job out of one lane and putting it into another keeps the total. */
  lemma TransferKeeps(a: multiset<Job>, b: multiset<Job>, c: multiset<Job>,
                      from: multiset<Job>, less: multiset<Job>, to: multiset<Job>, more: multiset<Job>)
    requires b + from == a + less && c + to == b + more && less + more == from + to
    ensures c == a
  {
    forall j ensures c[j] == a[j] {
      assert (b + from)[j] == (a + less)[j] && (c + to)[j] == (b + more)[j] && (less + more)[j] == (from + to)[j];
    }
  }

  lemma ReplaceTwo(lanes: seq<Lane>, from: nat, less: Lane, to: nat, more: Lane)
    requires from < |lanes| && to < |lanes| && from != to
    requires multiset(less) + multiset(more) == multiset(lanes[from]) + multiset(lanes[to])
    ensures AllOf(lanes[from := less][to := more]) == AllOf(lanes)
  {
    var mid := lanes[from := less];
    AllOfUpdate(lanes, from, less);
    AllOfUpdate(mid, to, more);
    TransferKeeps(AllOf(lanes), AllOf(mid), AllOf(mid[to := more]),
                  multiset(lanes[from]), multiset(less), multiset(lanes[to]), multiset(more));
  }

  lemma MoveKeepsJobs(lanes: seq<Lane>, from: nat, index: nat, to: nat)
    requires IsMove(lanes, from, index, to)
    ensures AllOf(Move(lanes, from, index, to)) == AllOf(lanes)
  {
    var less, more := Without(lanes[from], index), lanes[to] + [lanes[from][index]];
    WithoutKeeps(lanes[from], index);
    Regroup(multiset(less), multiset(lanes[to]), multiset{lanes[from][index]}, multiset{});
    ReplaceTwo(lanes, from, CanonicalLane(less), to, CanonicalLane(more));
  }

  lemma ExchangeKeepsJobs(lanes: seq<Lane>, from: nat, index: nat, to: nat, other: nat)
    requires IsExchange(lanes, from, index, to, other)
    ensures AllOf(Exchange(lanes, from, index, to, other)) == AllOf(lanes)
  {
    var here, there := lanes[from][index], lanes[to][other];
    var less, more := Without(lanes[from], index) + [there], Without(lanes[to], other) + [here];
    WithoutKeeps(lanes[from], index);
    WithoutKeeps(lanes[to], other);
    Regroup(multiset(Without(lanes[from], index)), multiset(Without(lanes[to], other)),
            multiset{here}, multiset{there});
    ReplaceTwo(lanes, from, CanonicalLane(less), to, CanonicalLane(more));
  }

  /** A moved job leaves its lane for the other one, and no third lane changes. */
  lemma MoveChangesTwo(lanes: seq<Lane>, from: nat, index: nat, to: nat, l: nat)
    requires IsMove(lanes, from, index, to) && l < |lanes|
    ensures var r, job := Move(lanes, from, index, to), lanes[from][index];
      if l == from then multiset(lanes[l]) == multiset(r[l]) + multiset{job}
      else if l == to then multiset(r[l]) == multiset(lanes[l]) + multiset{job}
      else r[l] == lanes[l]
  {
    WithoutKeeps(lanes[from], index);
  }

  /** Exchanged jobs change places, and no third lane changes. */
  lemma ExchangeChangesTwo(lanes: seq<Lane>, from: nat, index: nat, to: nat, other: nat, l: nat)
    requires IsExchange(lanes, from, index, to, other) && l < |lanes|
    ensures var r, here, there := Exchange(lanes, from, index, to, other), lanes[from][index], lanes[to][other];
      if l == from then multiset(r[l]) + multiset{here} == multiset(lanes[l]) + multiset{there}
      else if l == to then multiset(r[l]) + multiset{there} == multiset(lanes[l]) + multiset{here}
      else r[l] == lanes[l]
  {
    WithoutKeeps(lanes[from], index);
    WithoutKeeps(lanes[to], other);
  }

  lemma Regroup(a: multiset<Job>, b: multiset<Job>, x: multiset<Job>, y: multiset<Job>)
    ensures (a + y) + (b + x) == (a + x) + (b + y)
    ensures a + (b + x) == (a + x) + b
  {}

  // ----- The sweeps -----

  ghost predicate AllCanonical(lanes: seq<Lane>) {
    forall l | 0 <= l < |lanes| :: Canonical(lanes[l])
  }

  /** A neighbour holds the same jobs in lanes that are canonical where they changed. */
  ghost predicate Neighbour(before: seq<Lane>, now: seq<Lane>) {
    && |now| == |before|
    && AllOf(now) == AllOf(before)
    && (AllCanonical(before) ==> AllCanonical(now))
  }

  lemma StaysCanonical(lanes: seq<Lane>, from: nat, to: nat, a: Lane, b: Lane)
    requires from < |lanes| && to < |lanes|
    ensures AllCanonical(lanes) ==> AllCanonical(lanes[from := CanonicalLane(a)][to := CanonicalLane(b)])
  {
    CanonicalLaneIsCanonical(a);
    CanonicalLaneIsCanonical(b);
  }

  lemma MoveIsNeighbour(lanes: seq<Lane>, from: nat, index: nat, to: nat)
    requires IsMove(lanes, from, index, to)
    ensures Neighbour(lanes, Move(lanes, from, index, to))
  {
    MoveKeepsJobs(lanes, from, index, to);
    StaysCanonical(lanes, from, to, Without(lanes[from], index), lanes[to] + [lanes[from][index]]);
  }

  lemma ExchangeIsNeighbour(lanes: seq<Lane>, from: nat, index: nat, to: nat, other: nat)
    requires IsExchange(lanes, from, index, to, other)
    ensures Neighbour(lanes, Exchange(lanes, from, index, to, other))
  {
    ExchangeKeepsJobs(lanes, from, index, to, other);
    StaysCanonical(lanes, from, to, Without(lanes[from], index) + [lanes[to][other]],
                   Without(lanes[to], other) + [lanes[from][index]]);
  }

  /** Which move of one job a sweep finds. */
  ghost predicate FoundMove(ok: Test, lanes: seq<Lane>, from: nat, index: nat, x: Change)
    requires Tests(ok, lanes)
  {
    && x.Shift? && x.from == from && x.index == index
    && Passes(ok, lanes, x) && NoMoveTo(ok, lanes, from, index, x.to)
  }

  method FindMoveOf(ok: Test, lanes: seq<Lane>, from: nat, index: nat) returns (x: Change)
    requires Tests(ok, lanes) && from < |lanes| && index < |lanes[from]|
    ensures x != Keep ==> FoundMove(ok, lanes, from, index, x)
    ensures x == Keep ==> NoMoveTo(ok, lanes, from, index, |lanes|)
  {
    for to := 0 to |lanes|
      invariant NoMoveTo(ok, lanes, from, index, to)
    {
      if to != from && ok(Shift(from, index, to)) {
        return Shift(from, index, to);
      }
    }
    x := Keep;
  }

  lemma FirstMove(ok: Test, lanes: seq<Lane>, from: nat, index: nat, x: Change)
    requires Tests(ok, lanes) && from < |lanes| && index < |lanes[from]|
    requires NoMove(ok, lanes, from) && FoundMove(ok, lanes, from, index, x)
    requires forall i | 0 <= i < index :: NoMoveTo(ok, lanes, from, i, |lanes|)
    ensures First(ok, lanes, x)
  {
    forall y | IsChange(lanes, y) && Earlier(y, x) ensures !ok(y) {
      assert y.Shift?;
      if y.from < from {
        assert NoMoveTo(ok, lanes, y.from, y.index, |lanes|);
      } else if y.index < index {
        assert NoMoveTo(ok, lanes, from, y.index, |lanes|);
      }
    }
  }

  /** The move sweep: the first move that passes, in lane, position, and target order. */
  method FindMove(ok: Test, lanes: seq<Lane>) returns (x: Change)
    requires Tests(ok, lanes)
    ensures x != Keep ==> First(ok, lanes, x)
    ensures x == Keep ==> NoMove(ok, lanes, |lanes|)
  {
    for from := 0 to |lanes|
      invariant NoMove(ok, lanes, from)
    {
      for index := 0 to |lanes[from]|
        invariant forall i | 0 <= i < index :: NoMoveTo(ok, lanes, from, i, |lanes|)
      {
        x := FindMoveOf(ok, lanes, from, index);
        if x != Keep {
          FirstMove(ok, lanes, from, index, x);
          return;
        }
      }
    }
    x := Keep;
  }

  /** Which exchange of one job a sweep finds. */
  ghost predicate FoundExchange(ok: Test, lanes: seq<Lane>, from: nat, index: nat, x: Change)
    requires Tests(ok, lanes)
  {
    && x.Swap? && x.from == from && x.index == index
    && Passes(ok, lanes, x) && NoExchangeTo(ok, lanes, from, index, x.to)
    && NoExchangeWith(ok, lanes, from, index, x.to, x.other)
  }

  method FindExchangeWith(ok: Test, lanes: seq<Lane>, from: nat, index: nat, to: nat) returns (x: Change)
    requires Tests(ok, lanes) && from < to < |lanes| && index < |lanes[from]|
    requires NoExchangeTo(ok, lanes, from, index, to)
    ensures x != Keep ==> FoundExchange(ok, lanes, from, index, x)
    ensures x == Keep ==> NoExchangeWith(ok, lanes, from, index, to, |lanes[to]|)
  {
    for other := 0 to |lanes[to]|
      invariant NoExchangeWith(ok, lanes, from, index, to, other)
    {
      if ok(Swap(from, index, to, other)) {
        return Swap(from, index, to, other);
      }
    }
    x := Keep;
  }

  method FindExchangeOf(ok: Test, lanes: seq<Lane>, from: nat, index: nat) returns (x: Change)
    requires Tests(ok, lanes) && from < |lanes| && index < |lanes[from]|
    ensures x != Keep ==> FoundExchange(ok, lanes, from, index, x)
    ensures x == Keep ==> NoExchangeTo(ok, lanes, from, index, |lanes|)
  {
    for to := from + 1 to |lanes|
      invariant NoExchangeTo(ok, lanes, from, index, to)
    {
      x := FindExchangeWith(ok, lanes, from, index, to);
      if x != Keep {
        return;
      }
    }
    x := Keep;
  }

  lemma FirstExchange(ok: Test, lanes: seq<Lane>, from: nat, index: nat, x: Change)
    requires Tests(ok, lanes) && from < |lanes| && index < |lanes[from]|
    requires NoMove(ok, lanes, |lanes|) && NoExchange(ok, lanes, from) && FoundExchange(ok, lanes, from, index, x)
    requires forall i | 0 <= i < index :: NoExchangeTo(ok, lanes, from, i, |lanes|)
    ensures First(ok, lanes, x)
  {
    forall y | IsChange(lanes, y) && Earlier(y, x) ensures !ok(y) {
      if y.Shift? {
        assert NoMoveTo(ok, lanes, y.from, y.index, |lanes|);
      } else if y.from < from || y.index < index {
        assert NoExchangeTo(ok, lanes, y.from, y.index, |lanes|);
        assert NoExchangeWith(ok, lanes, y.from, y.index, y.to, |lanes[y.to]|);
      } else if y.to < x.to {
        assert NoExchangeWith(ok, lanes, from, index, y.to, |lanes[y.to]|);
      }
    }
  }

  /** The exchange sweep, in the same order. */
  method FindExchange(ok: Test, lanes: seq<Lane>) returns (x: Change)
    requires Tests(ok, lanes) && NoMove(ok, lanes, |lanes|)
    ensures x != Keep ==> First(ok, lanes, x)
    ensures x == Keep ==> NoExchange(ok, lanes, |lanes|)
  {
    for from := 0 to |lanes|
      invariant NoExchange(ok, lanes, from)
    {
      for index := 0 to |lanes[from]|
        invariant forall i | 0 <= i < index :: NoExchangeTo(ok, lanes, from, i, |lanes|)
      {
        x := FindExchangeOf(ok, lanes, from, index);
        if x != Keep {
          FirstExchange(ok, lanes, from, index, x);
          return;
        }
      }
    }
    x := Keep;
  }

  lemma ChangeIsNeighbour(lanes: seq<Lane>, x: Change)
    requires IsChange(lanes, x)
    ensures Neighbour(lanes, Apply(lanes, x))
  {
    match x
    case Shift(from, index, to) => MoveIsNeighbour(lanes, from, index, to);
    case Swap(from, index, to, other) => ExchangeIsNeighbour(lanes, from, index, to, other);
  }

  /** A sweep that finds nothing has looked at every change. */
  lemma NothingFound(ok: Test, lanes: seq<Lane>, x: Change)
    requires Tests(ok, lanes) && NoMove(ok, lanes, |lanes|) && NoExchange(ok, lanes, |lanes|) && IsChange(lanes, x)
    ensures !ok(x)
  {
    match x
    case Shift(from, index, to) => assert NoMoveTo(ok, lanes, from, index, |lanes|);
    case Swap(from, index, to, other) =>
      assert NoExchangeTo(ok, lanes, from, index, |lanes|);
      assert NoExchangeWith(ok, lanes, from, index, to, |lanes[to]|);
  }

  /** One sweep: the first change that passes, or none does. */
  method Sweep(ok: Test, lanes: seq<Lane>) returns (x: Change)
    requires Tests(ok, lanes)
    ensures x != Keep ==> First(ok, lanes, x)
    ensures x == Keep ==> forall y | IsChange(lanes, y) :: !ok(y)
  {
    x := FindMove(ok, lanes);
    if x == Keep {
      x := FindExchange(ok, lanes);
    }
    if x == Keep {
      forall y | IsChange(lanes, y) ensures !ok(y) {
        NothingFound(ok, lanes, y);
      }
    }
  }

  // ----- The search -----

  /** Feasible, and better than `best` by more than the margin. */
  predicate Acceptable(c: Setting, best: real, lanes: seq<Lane>)
    requires SettingOk(c)
  {
    |lanes| >= HOSTED_LANES && c.feasible(lanes) && c.maxEnd(lanes) < best - c.margin
  }

  function Accepting(c: Setting, best: real, lanes: seq<Lane>): (ok: Test)
    requires SettingOk(c)
    ensures Tests(ok, lanes)
    ensures forall x | IsChange(lanes, x) :: ok(x) == Acceptable(c, best, Apply(lanes, x))
  {
    (x: Change) requires SettingOk(c) && IsChange(lanes, x) => Acceptable(c, best, Apply(lanes, x))
  }

  /** No single move or exchange gives a feasible placement that is better by more than the margin. */
  ghost predicate LocallyOptimal(c: Setting, lanes: seq<Lane>)
    requires SettingOk(c) && |lanes| >= HOSTED_LANES
  {
    forall x | IsChange(lanes, x) :: !Acceptable(c, c.maxEnd(lanes), Apply(lanes, x))
  }

  /** The next placement of the search: the first acceptable change in sweep order is made. */
  ghost predicate Improves(c: Setting, lanes: seq<Lane>, next: seq<Lane>)
    requires SettingOk(c) && |lanes| >= HOSTED_LANES
  {
    exists x :: First(Accepting(c, c.maxEnd(lanes), lanes), lanes, x) && next == Apply(lanes, x)
  }

  lemma ImprovesWell(c: Setting, lanes: seq<Lane>, next: seq<Lane>)
    requires SettingOk(c) && |lanes| >= HOSTED_LANES && Improves(c, lanes, next)
    ensures Neighbour(lanes, next) && Acceptable(c, c.maxEnd(lanes), next) && !LocallyOptimal(c, lanes)
  {
    var x :| First(Accepting(c, c.maxEnd(lanes), lanes), lanes, x) && next == Apply(lanes, x);
    ChangeIsNeighbour(lanes, x);
  }

  lemma FirstIsUnique(ok: Test, lanes: seq<Lane>, x: Change, y: Change)
    requires Tests(ok, lanes) && First(ok, lanes, x) && First(ok, lanes, y)
    ensures x == y
  {
    assert x == y || Earlier(x, y) || Earlier(y, x);
  }

  lemma ImprovesOneWay(c: Setting, lanes: seq<Lane>, a: seq<Lane>, b: seq<Lane>)
    requires SettingOk(c) && |lanes| >= HOSTED_LANES && Improves(c, lanes, a) && Improves(c, lanes, b)
    ensures a == b
  {
    var ok := Accepting(c, c.maxEnd(lanes), lanes);
    var x :| First(ok, lanes, x) && a == Apply(lanes, x);
    var y :| First(ok, lanes, y) && b == Apply(lanes, y);
    FirstIsUnique(ok, lanes, x, y);
  }

  /** Make the first acceptable change, or find that the placement is locally optimal. */
  method Improve(c: Setting, lanes: seq<Lane>, best: real) returns (r: Option<seq<Lane>>)
    requires SettingOk(c) && |lanes| >= HOSTED_LANES && best == c.maxEnd(lanes)
    ensures r.Some? ==> Improves(c, lanes, r.value)
    ensures r == None <==> LocallyOptimal(c, lanes)
  {
    var ok := Accepting(c, best, lanes);
    var x := Sweep(ok, lanes);
    if x == Keep {
      return None;
    }
    r := Some(Apply(lanes, x));
    ImprovesWell(c, lanes, r.value);
  }

  function SweepLimit(lanes: seq<Lane>): nat {
    |lanes| * 64
  }

  function Margins(margin: real, n: nat): real {
    if n == 0 then 0.0 else Margins(margin, n - 1) + margin
  }

  /** After `n` improvements the maximum has fallen by at least `n` margins. */
  predicate Gained(c: Setting, start: real, best: real, n: nat) {
    best <= start - Margins(c.margin, n)
  }

  lemma {:induction false} MarginsGrow(margin: real, n: nat)
    requires margin >= 0.0
    ensures Margins(margin, n) >= 0.0
  {
    if n > 0 {
      MarginsGrow(margin, n - 1);
    }
  }

  lemma GainMore(c: Setting, start: real, best: real, next: real, n: nat)
    requires SettingOk(c) && Gained(c, start, best, n) && next < best - c.margin
    ensures Gained(c, start, next, n + 1) && best <= start
  {
    MarginsGrow(c.margin, n);
  }

  lemma StillAcceptable(c: Setting, start: real, best: real, lanes: seq<Lane>)
    requires SettingOk(c) && best <= start && Acceptable(c, best, lanes)
    ensures Acceptable(c, start, lanes)
  {}

  /**
   What `n` improvements of a canonical placement `start` give: the same jobs in canonical
   lanes, the start itself or a feasible placement better by more than the margin, and a
   maximum that has fallen by at least `n` margins.
   */
  ghost predicate Refined(c: Setting, start: seq<Lane>, lanes: seq<Lane>, n: nat)
    requires SettingOk(c) && |start| >= HOSTED_LANES
  {
    && |lanes| == |start| && AllOf(lanes) == AllOf(start) && AllCanonical(lanes)
    && (if n == 0 then lanes == start else Acceptable(c, c.maxEnd(start), lanes))
    && Gained(c, c.maxEnd(start), c.maxEnd(lanes), n)
  }

  lemma RefinedMore(c: Setting, start: seq<Lane>, lanes: seq<Lane>, next: seq<Lane>, n: nat)
    requires SettingOk(c) && |start| >= HOSTED_LANES && Refined(c, start, lanes, n)
    requires Neighbour(lanes, next) && Acceptable(c, c.maxEnd(lanes), next)
    ensures Refined(c, start, next, n + 1)
  {
    GainMore(c, c.maxEnd(start), c.maxEnd(lanes), c.maxEnd(next), n);
    StillAcceptable(c, c.maxEnd(start), c.maxEnd(lanes), next);
  }

  lemma RefinedStart(c: Setting, start: seq<Lane>)
    requires SettingOk(c) && |start| >= HOSTED_LANES && AllCanonical(start)
    ensures Refined(c, start, start, 0)
  {}

  /** One improvement, as a step of a course of placements. */
  ghost function Improving(c: Setting): (step: (seq<Lane>, seq<Lane>) -> bool)
    requires SettingOk(c)
    ensures forall a, b :: step(a, b) <==> |a| >= HOSTED_LANES && Improves(c, a, b)
  {
    (a: seq<Lane>, b: seq<Lane>) => SettingOk(c) && |a| >= HOSTED_LANES && Improves(c, a, b)
  }

  lemma ImprovingIsDeterministic(c: Setting)
    requires SettingOk(c)
    ensures Deterministic(Improving(c))
  {
    var step := Improving(c);
    forall lanes, a, b | step(lanes, a) && step(lanes, b) ensures a == b {
      ImprovesOneWay(c, lanes, a, b);
    }
  }

  /** The placements of a search, from some start to a last one that is not improved further. */
  ghost predicate Search(c: Setting, trail: seq<seq<Lane>>, limit: nat)
    requires SettingOk(c)
  {
    Course(Improving(c), trail) && |trail| - 1 <= limit && (|trail| - 1 < limit ==> Stops(c, Last(trail)))
  }

  ghost predicate Stops(c: Setting, lanes: seq<Lane>)
    requires SettingOk(c)
  {
    |lanes| >= HOSTED_LANES && LocallyOptimal(c, lanes)
  }

  lemma NothingFollows(c: Setting, lanes: seq<Lane>, next: seq<Lane>)
    requires SettingOk(c) && Stops(c, lanes)
    ensures !Improving(c)(lanes, next)
  {
    if Improving(c)(lanes, next) {
      ImprovesWell(c, lanes, next);
    }
  }

  lemma NoneIsLonger(c: Setting, a: seq<seq<Lane>>, b: seq<seq<Lane>>, limit: nat)
    requires SettingOk(c) && Search(c, a, limit) && Search(c, b, limit) && a[0] == b[0] && |a| <= |b|
    ensures a == b
  {
    var n := |a|;
    ImprovingIsDeterministic(c);
    ShorterStartsLonger(Improving(c), a, b);
    if n < |b| {
      assert StepTo(Improving(c), b, n);
      NothingFollows(c, b[n - 1], b[n]);
    }
  }

  /** A search from one start with one limit takes one course. */
  lemma SearchIsDeterministic(c: Setting, a: seq<seq<Lane>>, b: seq<seq<Lane>>, limit: nat)
    requires SettingOk(c) && Search(c, a, limit) && Search(c, b, limit) && a[0] == b[0]
    ensures a == b
  {
    if |a| <= |b| {
      NoneIsLonger(c, a, b, limit);
    } else {
      NoneIsLonger(c, b, a, limit);
    }
  }

  lemma StepRefines(c: Setting, start: seq<Lane>, a: seq<Lane>, b: seq<Lane>, n: nat)
    requires SettingOk(c) && |start| >= HOSTED_LANES && Refined(c, start, a, n) && Improving(c)(a, b)
    ensures Refined(c, start, b, n + 1)
  {
    ImprovesWell(c, a, b);
    RefinedMore(c, start, a, b, n);
  }

  ghost function Refining(c: Setting, start: seq<Lane>): (holds: (seq<Lane>, nat) -> bool)
    requires SettingOk(c) && |start| >= HOSTED_LANES
    ensures forall lanes, n: nat :: holds(lanes, n) <==> Refined(c, start, lanes, n)
  {
    (lanes: seq<Lane>, n: nat) => SettingOk(c) && Refined(c, start, lanes, n)
  }

  lemma StepsRefine(c: Setting, start: seq<Lane>)
    requires SettingOk(c) && |start| >= HOSTED_LANES
    ensures forall a, b, n: nat :: Improving(c)(a, b) && Refining(c, start)(a, n) ==> Refining(c, start)(b, n + 1)
  {
    forall a, b, n: nat | Improving(c)(a, b) && Refining(c, start)(a, n) ensures Refining(c, start)(b, n + 1) {
      StepRefines(c, start, a, b, n);
    }
  }

  /** What the improvements of a search keep. */
  lemma SearchRefines(c: Setting, trail: seq<seq<Lane>>, n: nat)
    requires SettingOk(c) && Course(Improving(c), trail) && n < |trail|
    requires |trail[0]| >= HOSTED_LANES && AllCanonical(trail[0])
    ensures Refined(c, trail[0], trail[n], n)
  {
    RefinedStart(c, trail[0]);
    StepsRefine(c, trail[0]);
    Kept(Improving(c), Refining(c, trail[0]), trail, n);
  }

  /** The sweeps from a start. */
  method ImproveRepeatedly(c: Setting, start: seq<Lane>, limit: nat)
    returns (lanes: seq<Lane>, ghost trail: seq<seq<Lane>>)
    requires SettingOk(c) && |start| >= HOSTED_LANES
    ensures Search(c, trail, limit) && trail[0] == start && lanes == Last(trail)
  {
    lanes, trail := start, [start];
    var improvements := 0;
    while improvements < limit
      invariant improvements <= limit && |trail| == improvements + 1 && |lanes| == |start|
      invariant Course(Improving(c), trail) && trail[0] == start && lanes == trail[improvements]
    {
      var next := Improve(c, lanes, c.maxEnd(lanes));
      if next == None {
        return;
      }
      Continue(Improving(c), trail, next.value);
      ImprovesWell(c, lanes, next.value);
      trail := trail + [next.value];
      lanes, improvements := next.value, improvements + 1;
    }
  }

  lemma CanonicalLanesAre(initial: seq<Lane>)
    ensures AllCanonical(CanonicalLanes(initial))
    ensures AllOf(CanonicalLanes(initial)) == AllOf(initial)
  {
    AllOfSame(CanonicalLanes(initial), initial);
    forall l | 0 <= l < |initial| ensures Canonical(CanonicalLanes(initial)[l]) {
      CanonicalLaneIsCanonical(initial[l]);
    }
  }

  // ----- Where the search ends -----

  /** A search from `start` with this limit. */
  ghost predicate SearchFrom(c: Setting, start: seq<Lane>, limit: nat, trail: seq<seq<Lane>>)
    requires SettingOk(c)
  {
    Search(c, trail, limit) && trail[0] == start
  }

  /** The placement at which the search from `start` ends. */
  ghost predicate EndsSearch(c: Setting, start: seq<Lane>, limit: nat, lanes: seq<Lane>)
    requires SettingOk(c)
  {
    exists trail :: SearchFrom(c, start, limit, trail) && Last(trail) == lanes
  }

  lemma OneEnd(c: Setting, start: seq<Lane>, limit: nat, a: seq<Lane>, b: seq<Lane>)
    requires SettingOk(c) && EndsSearch(c, start, limit, a) && EndsSearch(c, start, limit, b)
    ensures a == b
  {
    var u :| SearchFrom(c, start, limit, u) && Last(u) == a;
    var v :| SearchFrom(c, start, limit, v) && Last(v) == b;
    SearchIsDeterministic(c, u, v, limit);
  }

  /** What the search keeps: jobs, order within lanes, and feasibility once it accepts anything. */
  ghost predicate KeptBySearch(c: Setting, start: seq<Lane>, lanes: seq<Lane>)
    requires SettingOk(c) && |start| >= HOSTED_LANES
  {
    && |lanes| == |start| && AllOf(lanes) == AllOf(start) && AllCanonical(lanes)
    && (lanes == start || Acceptable(c, c.maxEnd(start), lanes))
  }

  lemma TrailKeeps(c: Setting, trail: seq<seq<Lane>>)
    requires SettingOk(c) && Course(Improving(c), trail) && |trail[0]| >= HOSTED_LANES && AllCanonical(trail[0])
    ensures KeptBySearch(c, trail[0], Last(trail))
  {
    SearchRefines(c, trail, |trail| - 1);
  }

  lemma EndKeeps(c: Setting, start: seq<Lane>, limit: nat, lanes: seq<Lane>)
    requires SettingOk(c) && |start| >= HOSTED_LANES && AllCanonical(start) && EndsSearch(c, start, limit, lanes)
    ensures KeptBySearch(c, start, lanes)
  {
    var trail :| SearchFrom(c, start, limit, trail) && Last(trail) == lanes;
    TrailKeeps(c, trail);
  }

  /** A maximum that has fallen by `n` margins. */
  ghost predicate FellBy(c: Setting, start: seq<Lane>, lanes: seq<Lane>, n: nat)
    requires SettingOk(c) && |start| >= HOSTED_LANES && |lanes| >= HOSTED_LANES
  {
    c.maxEnd(lanes) <= c.maxEnd(start) - Margins(c.margin, n)
  }

  lemma SearchGains(c: Setting, start: seq<Lane>, limit: nat, trail: seq<seq<Lane>>)
    requires SettingOk(c) && |start| >= HOSTED_LANES && AllCanonical(start) && SearchFrom(c, start, limit, trail)
    ensures |Last(trail)| == |start| && FellBy(c, start, Last(trail), |trail| - 1)
  {
    SearchRefines(c, trail, |trail| - 1);
  }

  /** The search ends at a local optimum or after the limit's worth of margins. */
  lemma EndIsLocallyOptimal(c: Setting, start: seq<Lane>, limit: nat, lanes: seq<Lane>)
    requires SettingOk(c) && |start| >= HOSTED_LANES && AllCanonical(start) && EndsSearch(c, start, limit, lanes)
    ensures |lanes| == |start|
    ensures LocallyOptimal(c, lanes) || FellBy(c, start, lanes, limit)
  {
    var trail :| SearchFrom(c, start, limit, trail) && Last(trail) == lanes;
    SearchGains(c, start, limit, trail);
    if |trail| - 1 < limit {
      assert Stops(c, lanes);
    }
  }

  /** Whether the search leaves a placement alone or for a feasible one that ends earlier. */
  ghost predicate LeftAlone(c: Setting, start: seq<Lane>, lanes: seq<Lane>)
    requires SettingOk(c) && |start| >= HOSTED_LANES
  {
    if LocallyOptimal(c, start) then lanes == start else Acceptable(c, c.maxEnd(start), lanes)
  }

  lemma LongTrailImproves(c: Setting, trail: seq<seq<Lane>>)
    requires SettingOk(c) && Course(Improving(c), trail) && |trail| > 1
    requires |trail[0]| >= HOSTED_LANES && AllCanonical(trail[0])
    ensures Acceptable(c, c.maxEnd(trail[0]), Last(trail))
  {
    SearchRefines(c, trail, |trail| - 1);
  }

  lemma LongTrailStartsLow(c: Setting, trail: seq<seq<Lane>>)
    requires SettingOk(c) && Course(Improving(c), trail) && |trail| > 1 && |trail[0]| >= HOSTED_LANES
    ensures !LocallyOptimal(c, trail[0])
  {
    assert StepTo(Improving(c), trail, 1);
    ImprovesWell(c, trail[0], trail[1]);
  }

  lemma TrailLeaves(c: Setting, trail: seq<seq<Lane>>, limit: nat)
    requires SettingOk(c) && Search(c, trail, limit) && limit > 0
    requires |trail[0]| >= HOSTED_LANES && AllCanonical(trail[0])
    ensures LeftAlone(c, trail[0], Last(trail))
  {
    if |trail| == 1 {
      assert Stops(c, trail[0]);
    } else {
      LongTrailImproves(c, trail);
      LongTrailStartsLow(c, trail);
    }
  }

  /** The search leaves a local optimum alone, and anything else for a feasible placement that ends earlier. */
  lemma OptimaStay(c: Setting, start: seq<Lane>, limit: nat, lanes: seq<Lane>)
    requires SettingOk(c) && |start| >= HOSTED_LANES && AllCanonical(start)
    requires limit > 0 && EndsSearch(c, start, limit, lanes)
    ensures LeftAlone(c, start, lanes)
  {
    var trail :| SearchFrom(c, start, limit, trail) && Last(trail) == lanes;
    TrailLeaves(c, trail, limit);
  }

  /** Refine a placement: the result is where the search from the canonicalised input ends. */
  method RefineLanes(c: Setting, initial: seq<Lane>) returns (lanes: seq<Lane>)
    requires SettingOk(c) && |initial| >= HOSTED_LANES
    ensures EndsSearch(c, CanonicalLanes(initial), SweepLimit(initial), lanes)
  {
    ghost var trail;
    lanes, trail := ImproveRepeatedly(c, CanonicalLanes(initial), SweepLimit(initial));
    assert SearchFrom(c, CanonicalLanes(initial), SweepLimit(initial), trail);
  }
}
