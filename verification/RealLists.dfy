/** Extremes and sums of lists of reals. */
module RealLists {

  function Largest(xs: seq<real>): (r: real)
    requires xs != []
    ensures r in xs && forall x | x in xs :: x <= r
  {
    if |xs| == 1 then xs[0]
    else
      var rest := Largest(xs[1..]);
      assert xs == [xs[0]] + xs[1..];
      if xs[0] > rest then xs[0] else rest
  }

  /** The first index of a least element. */
  function LeastIndex(xs: seq<real>): (i: nat)
    requires xs != []
    ensures i < |xs| && forall k | 0 <= k < |xs| :: xs[i] <= xs[k]
    ensures forall k | 0 <= k < i :: xs[i] < xs[k]
  {
    var n := |xs| - 1;
    if n == 0 then 0
    else
      var i := LeastIndex(xs[..n]);
      if xs[n] < xs[i] then n else i
  }

  function Sum(xs: seq<real>): real {
    if xs == [] then 0.0 else Sum(xs[..|xs| - 1]) + xs[|xs| - 1]
  }

  lemma {:induction false} SumUpdate(xs: seq<real>, i: nat, x: real)
    requires i < |xs|
    ensures Sum(xs[i := x]) == Sum(xs) - xs[i] + x
  {
    var n := |xs| - 1;
    if i < n {
      SumUpdate(xs[..n], i, x);
      assert xs[i := x][..n] == xs[..n][i := x];
    } else {
      assert xs[i := x][..n] == xs[..n];
    }
  }
}
