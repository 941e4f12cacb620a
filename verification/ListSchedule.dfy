/**
 List scheduling: every job starts on the first worker that is free, as Node's test runner
 does with the files it is given (`modeledWall` of tools/node-shard.ts).
 */
module ListSchedule {
  import opened RealLists

  /** Add a job to the first least loaded worker. */
  function Place(loads: seq<real>, weight: real): (r: seq<real>)
    requires loads != []
    ensures |r| == |loads|
  {
    var worker := LeastIndex(loads);
    loads[worker := loads[worker] + weight]
  }

  function PlaceAll(loads: seq<real>, weights: seq<real>): (r: seq<real>)
    requires loads != []
    ensures |r| == |loads|
  {
    if weights == [] then loads else Place(PlaceAll(loads, weights[..|weights| - 1]), weights[|weights| - 1])
  }

  function Idle(width: nat): (loads: seq<real>)
    ensures |loads| == width
  {
    seq(width, _ => 0.0)
  }

  /** How long the weights take on `width` workers. */
  function Wall(width: nat, weights: seq<real>): real
    requires width > 0
  {
    Largest(PlaceAll(Idle(width), weights))
  }

  ghost predicate NonNegative(weights: seq<real>) {
    forall i | 0 <= i < |weights| :: weights[i] >= 0.0
  }

  lemma {:induction false} PlaceAllConcat(loads: seq<real>, a: seq<real>, b: seq<real>)
    requires loads != []
    ensures PlaceAll(loads, a + b) == PlaceAll(PlaceAll(loads, a), b)
    decreases |b|
  {
    if b == [] {
      assert a + b == a;
    } else {
      assert (a + b)[..|a + b| - 1] == a + b[..|b| - 1];
      PlaceAllConcat(loads, a, b[..|b| - 1]);
    }
  }

  lemma PlaceAllNext(loads: seq<real>, weights: seq<real>, i: nat)
    requires loads != [] && i < |weights|
    ensures PlaceAll(loads, weights[..i + 1]) == Place(PlaceAll(loads, weights[..i]), weights[i])
  {
    assert weights[..i + 1][..i] == weights[..i];
  }

  // ----- Bounds -----

  lemma {:induction false} IdleSum(width: nat)
    ensures Sum(Idle(width)) == 0.0
  {
    if width > 0 {
      assert Idle(width)[..width - 1] == Idle(width - 1);
      IdleSum(width - 1);
    }
  }

  /** No work is lost: the workers together hold the total weight. */
  lemma {:induction false} LoadsSum(loads: seq<real>, weights: seq<real>)
    requires loads != []
    ensures Sum(PlaceAll(loads, weights)) == Sum(loads) + Sum(weights)
  {
    if weights != [] {
      var init := PlaceAll(loads, weights[..|weights| - 1]);
      LoadsSum(loads, weights[..|weights| - 1]);
      SumUpdate(init, LeastIndex(init), init[LeastIndex(init)] + weights[|weights| - 1]);
    }
  }

  /** No worker is ahead of another by more than one job. */
  ghost predicate Level(loads: seq<real>, heaviest: real) {
    forall i, j | 0 <= i < |loads| && 0 <= j < |loads| :: loads[i] <= loads[j] + heaviest
  }

  lemma {:induction false} StaysLevel(loads: seq<real>, weights: seq<real>, heaviest: real)
    requires loads != [] && Level(loads, heaviest)
    requires forall i | 0 <= i < |weights| :: 0.0 <= weights[i] <= heaviest
    ensures Level(PlaceAll(loads, weights), heaviest)
  {
    if weights != [] {
      StaysLevel(loads, weights[..|weights| - 1], heaviest);
    }
  }

  /** `n` copies of `x` added up. */
  function Copies(n: nat, x: real): real {
    if n == 0 then 0.0 else Copies(n - 1, x) + x
  }

  lemma {:induction false} CopiesAreProduct(n: nat, x: real)
    ensures Copies(n, x) == n as real * x
  {
    if n > 0 {
      CopiesAreProduct(n - 1, x);
      OneMoreCopy((n - 1) as real, x);
    }
  }

  lemma OneMoreCopy(n: real, x: real)
    ensures (n + 1.0) * x == n * x + x
  {}

  lemma {:induction false} CopiesOfDifference(n: nat, x: real, y: real)
    ensures Copies(n, x - y) == Copies(n, x) - Copies(n, y)
  {
    if n > 0 {
      CopiesOfDifference(n - 1, x, y);
    }
  }

  lemma {:induction false} SumAtMost(loads: seq<real>, bound: real)
    requires forall i | 0 <= i < |loads| :: loads[i] <= bound
    ensures Sum(loads) <= Copies(|loads|, bound)
  {
    if loads != [] {
      SumAtMost(loads[..|loads| - 1], bound);
    }
  }

  lemma {:induction false} SumAtLeast(loads: seq<real>, bound: real)
    requires forall i | 0 <= i < |loads| :: loads[i] >= bound
    ensures Sum(loads) >= Copies(|loads|, bound)
  {
    if loads != [] {
      SumAtLeast(loads[..|loads| - 1], bound);
    }
  }

  /** The busiest worker exceeds an even share by less than one job. */
  lemma BusiestBound(loads: seq<real>, heaviest: real, k: nat)
    requires k < |loads| && Level(loads, heaviest)
    ensures Copies(|loads|, loads[k]) <= Sum(loads) + Copies(|loads| - 1, heaviest)
  {
    var behind := loads[k] - heaviest;
    SumAtLeast(loads[k := behind], behind);
    SumUpdate(loads, k, behind);
    CopiesOfDifference(|loads|, loads[k], heaviest);
  }

  lemma LargestBounds(loads: seq<real>, heaviest: real)
    requires loads != [] && Level(loads, heaviest)
    ensures Sum(loads) <= Copies(|loads|, Largest(loads)) <= Sum(loads) + Copies(|loads| - 1, heaviest)
  {
    var top := Largest(loads);
    forall i | 0 <= i < |loads| ensures loads[i] <= top {
      assert loads[i] in loads;
    }
    SumAtMost(loads, top);
    var k :| 0 <= k < |loads| && loads[k] == top;
    BusiestBound(loads, heaviest, k);
  }

  lemma WallInCopies(width: nat, weights: seq<real>, heaviest: real)
    requires width > 0 && heaviest >= 0.0
    requires forall i | 0 <= i < |weights| :: 0.0 <= weights[i] <= heaviest
    ensures Sum(weights) <= Copies(width, Wall(width, weights)) <= Sum(weights) + Copies(width - 1, heaviest)
  {
    IdleSum(width);
    LoadsSum(Idle(width), weights);
    StaysLevel(Idle(width), weights, heaviest);
    LargestBounds(PlaceAll(Idle(width), weights), heaviest);
  }

  lemma InProducts(width: nat, wall: real, sum: real, heaviest: real)
    requires width > 0 && sum <= Copies(width, wall) <= sum + Copies(width - 1, heaviest)
    ensures sum <= width as real * wall <= sum + (width - 1) as real * heaviest
  {
    CopiesAreProduct(width, wall);
    CopiesAreProduct(width - 1, heaviest);
  }

  /** The wall is at least an even share and at most one job above it, per worker. */
  lemma WallBounds(width: nat, weights: seq<real>, heaviest: real) returns (wall: real, total: real)
    requires width > 0 && heaviest >= 0.0
    requires forall i | 0 <= i < |weights| :: 0.0 <= weights[i] <= heaviest
    ensures wall == Wall(width, weights) && total == Sum(weights)
    ensures total <= width as real * wall <= total + (width - 1) as real * heaviest
  {
    wall, total := Wall(width, weights), Sum(weights);
    WallInCopies(width, weights, heaviest);
    InProducts(width, wall, total, heaviest);
  }

  // ----- Adding a job -----

  /** How many workers are loaded above `t`. */
  function Above(loads: seq<real>, t: real): (n: nat)
    ensures n <= |loads|
  {
    if loads == [] then 0
    else Above(loads[..|loads| - 1], t) + if loads[|loads| - 1] > t then 1 else 0
  }

  /** At every height at least as many workers of `b` reach above it. */
  ghost predicate Dominated(a: seq<real>, b: seq<real>) {
    |a| == |b| && forall t: real :: Above(a, t) <= Above(b, t)
  }

  lemma {:induction false} AboveUpdate(loads: seq<real>, i: nat, x: real, t: real)
    requires i < |loads|
    ensures Above(loads[i := x], t) ==
      Above(loads, t) - (if loads[i] > t then 1 else 0) + (if x > t then 1 else 0)
  {
    var n := |loads| - 1;
    if i < n {
      AboveUpdate(loads[..n], i, x, t);
      assert loads[i := x][..n] == loads[..n][i := x];
    } else {
      assert loads[i := x][..n] == loads[..n];
    }
  }

  lemma {:induction false} AllAbove(loads: seq<real>, t: real)
    ensures Above(loads, t) == |loads| <==> forall i | 0 <= i < |loads| :: loads[i] > t
    ensures Above(loads, t) == 0 <==> forall i | 0 <= i < |loads| :: loads[i] <= t
  {
    if loads != [] {
      AllAbove(loads[..|loads| - 1], t);
    }
  }

  /** The least load decides whether every worker is above `t`. */
  lemma LeastDecides(loads: seq<real>, t: real)
    requires loads != []
    ensures loads[LeastIndex(loads)] > t <==> Above(loads, t) == |loads|
  {
    AllAbove(loads, t);
  }

  lemma PlaceAbove(loads: seq<real>, weight: real, t: real)
    requires loads != []
    ensures var least := loads[LeastIndex(loads)];
      Above(Place(loads, weight), t) ==
        Above(loads, t) - (if least > t then 1 else 0) + (if least + weight > t then 1 else 0)
  {
    AboveUpdate(loads, LeastIndex(loads), loads[LeastIndex(loads)] + weight, t);
  }

  lemma DominatedLeast(a: seq<real>, b: seq<real>)
    requires Dominated(a, b) && a != []
    ensures a[LeastIndex(a)] <= b[LeastIndex(b)]
  {
    LeastDecides(a, b[LeastIndex(b)]);
    LeastDecides(b, b[LeastIndex(b)]);
  }

  lemma PlaceKeepsDominated(a: seq<real>, b: seq<real>, weight: real)
    requires Dominated(a, b) && a != [] && weight >= 0.0
    ensures Dominated(Place(a, weight), Place(b, weight))
  {
    DominatedLeast(a, b);
    forall t: real ensures Above(Place(a, weight), t) <= Above(Place(b, weight), t) {
      PlaceAbove(a, weight, t);
      PlaceAbove(b, weight, t);
      LeastDecides(a, t);
      LeastDecides(b, t);
    }
  }

  lemma {:induction false} PlaceAllKeepsDominated(a: seq<real>, b: seq<real>, weights: seq<real>)
    requires Dominated(a, b) && a != [] && NonNegative(weights)
    ensures Dominated(PlaceAll(a, weights), PlaceAll(b, weights))
  {
    if weights != [] {
      var init := weights[..|weights| - 1];
      PlaceAllKeepsDominated(a, b, init);
      PlaceKeepsDominated(PlaceAll(a, init), PlaceAll(b, init), weights[|weights| - 1]);
    }
  }

  lemma PlaceDominates(loads: seq<real>, weight: real)
    requires loads != [] && weight >= 0.0
    ensures Dominated(loads, Place(loads, weight))
  {
    forall t: real ensures Above(loads, t) <= Above(Place(loads, weight), t) {
      PlaceAbove(loads, weight, t);
    }
  }

  lemma DominatedLargest(a: seq<real>, b: seq<real>)
    requires Dominated(a, b) && a != []
    ensures Largest(a) <= Largest(b)
  {
    var t := Largest(b);
    assert forall i | 0 <= i < |b| :: b[i] in b;
    AllAbove(b, t);
    AllAbove(a, t);
    assert Above(a, t) == 0;
  }

  /** One more job, wherever it comes in the order, never shortens the run. */
  lemma AddingNeverShortens(width: nat, before: seq<real>, weight: real, after: seq<real>)
    requires width > 0 && weight >= 0.0 && NonNegative(after)
    ensures Wall(width, before + after) <= Wall(width, before + [weight] + after)
  {
    var loads := PlaceAll(Idle(width), before);
    PlaceAllConcat(Idle(width), before, after);
    PlaceAllConcat(Idle(width), before, [weight]);
    PlaceAllConcat(Idle(width), before + [weight], after);
    assert [weight][..0] == [];
    PlaceDominates(loads, weight);
    PlaceAllKeepsDominated(loads, Place(loads, weight), after);
    DominatedLargest(PlaceAll(loads, after), PlaceAll(Place(loads, weight), after));
  }
}
