/**
 Shards of native test files (tools/native-shard.ts): batches of one file per worker, each on
 the shard with the shortest modeled run, and the own-key file alone on the first Linux shard.
 */
module NativeShards {
  import opened Basics
  import opened CodeUnits
  import opened ListSchedule
  import opened NodeShards
  import opened Parts
  import opened PathLists
  import opened RealLists
  import opened Sorting

  /** The host model, and the file that Linux isolates. */
  datatype Target = Target(host: Host, linux: bool, isolated: string)

  /** Files and worker loads of each shard. */
  datatype Plan = Plan(parts: seq<seq<string>>, slots: seq<seq<real>>)

  ghost predicate Shaped(h: Host, p: Plan) {
    h.width > 0 && |p.parts| == |p.slots| && forall i | 0 <= i < |p.slots| :: |p.slots[i]| == h.width
  }

  function Empty(h: Host, count: nat): (p: Plan)
    requires h.width > 0
    ensures Shaped(h, p) && |p.parts| == count
  {
    Plan(seq(count, _ => []), seq(count, _ => Idle(h.width)))
  }

  /** When each shard is done with what it has. */
  function Loads(h: Host, p: Plan): (loads: seq<real>)
    requires Shaped(h, p)
    ensures |loads| == |p.slots|
  {
    seq(|p.slots|, i requires 0 <= i < |p.slots| => Largest(p.slots[i]))
  }

  /** Give one batch to the shard that is done first. */
  function Fill(h: Host, p: Plan, batch: seq<string>): (r: Plan)
    requires Shaped(h, p) && p.parts != []
    ensures Shaped(h, r) && |r.parts| == |p.parts|
  {
    var index := LeastIndex(Loads(h, p));
    Plan(p.parts[index := p.parts[index] + batch],
         p.slots[index := ListSchedule.PlaceAll(p.slots[index], Weights(h, batch))])
  }

  function Least(a: nat, b: nat): nat {
    if a < b then a else b
  }

  function FillAll(h: Host, p: Plan, rest: seq<string>): (r: Plan)
    requires Shaped(h, p) && p.parts != []
    ensures Shaped(h, r) && |r.parts| == |p.parts|
    decreases |rest|
  {
    if rest == [] then p
    else
      var n := Least(h.width, |rest|);
      FillAll(h, Fill(h, p, rest[..n]), rest[n..])
  }

  /** How many batches of `h.width` hold the files; the last may be smaller. */
  function BatchCount(h: Host, files: nat): nat
    requires h.width > 0
  {
    if files == 0 then 0 else 1 + BatchCount(h, files - Least(h.width, files))
  }

  /** The number of batches is the quotient rounded up. */
  lemma {:induction false} BatchCountRoundsUp(h: Host, files: nat)
    requires h.width > 0
    ensures files <= BatchCount(h, files) * h.width < files + h.width
  {
    if files > 0 {
      var rest := BatchCount(h, files - Least(h.width, files));
      BatchCountRoundsUp(h, files - Least(h.width, files));
      assert (1 + rest) * h.width == rest * h.width + h.width;
      if files < h.width {
        assert rest == 0;
      }
    }
  }

  /** The shards that receive a batch. */
  function Populated(h: Host, total: nat, files: nat): nat
    requires h.width > 0
  {
    Least(total, BatchCount(h, files))
  }

  predicate Isolates(t: Target, files: seq<string>, total: nat) {
    t.linux && total > 1 && t.isolated in files
  }

  function Differs(f: string): string -> bool {
    x => x != f
  }

  function Without(files: seq<string>, f: string): seq<string> {
    Chosen(Differs(f), files)
  }

  lemma WithoutDrops(files: seq<string>, f: string)
    ensures multiset(Without(files, f)) == multiset(files)[f := 0]
  {
    forall x ensures multiset(Without(files, f))[x] == multiset(files)[f := 0][x] {
      ChosenCounts(Differs(f), files, x);
    }
  }

  /** The shards once every batch is placed. */
  function Placed(h: Host, files: seq<string>, count: nat): (parts: seq<seq<string>>)
    requires h.width > 0 && count > 0
    ensures |parts| == count
  {
    FillAll(h, Empty(h, count), Sort(ByWeight(h), files)).parts
  }

  /** The files of shard `index` of `total`. */
  function Select(t: Target, files: seq<string>, index: nat, total: nat): seq<string>
    requires t.host.width > 0 && 1 <= index <= total
    decreases total
  {
    if Isolates(t, files, total) then
      if index == 1 then [t.isolated] else Select(t, Without(files, t.isolated), index - 1, total - 1)
    else
      var count := Populated(t.host, total, |files|);
      if index > count then [] else Placed(t.host, files, count)[index - 1]
  }

  // ----- The source's loops -----

  method SelectNativeTestShard(t: Target, files: seq<string>, index: nat, total: nat) returns (r: Selection)
    requires t.host.width > 0 && 1 <= index <= total
    ensures r == if Distinct(files) then Selected(Select(t, files, index, total)) else Repeated
    decreases total, 1
  {
    var repeated := HasRepeats(files);
    if repeated {
      return Repeated;
    }
    var selected := SelectDistinct(t, files, index, total);
    r := Selected(selected);
  }

  method SelectDistinct(t: Target, files: seq<string>, index: nat, total: nat) returns (r: seq<string>)
    requires t.host.width > 0 && 1 <= index <= total && Distinct(files)
    ensures r == Select(t, files, index, total)
    decreases total, 0
  {
    if !Isolates(t, files, total) {
      r := SelectBatched(t.host, files, index, total);
    } else if index == 1 {
      r := [t.isolated];
    } else {
      r := SelectOthers(t, files, index, total);
    }
  }

  method SelectOthers(t: Target, files: seq<string>, index: nat, total: nat) returns (r: seq<string>)
    requires t.host.width > 0 && 1 < index <= total && Distinct(files) && Isolates(t, files, total)
    ensures r == Select(t, Without(files, t.isolated), index - 1, total - 1)
    decreases total - 1, 2
  {
    var rest := Without(files, t.isolated);
    WithoutStaysDistinct(files, t.isolated);
    var selection := SelectNativeTestShard(t, rest, index - 1, total - 1);
    r := selection.files;
  }

  method SelectBatched(h: Host, files: seq<string>, index: nat, total: nat) returns (r: seq<string>)
    requires h.width > 0 && 1 <= index <= total
    ensures var count := Populated(h, total, |files|);
      r == if index > count then [] else Placed(h, files, count)[index - 1]
  {
    var count := Populated(h, total, |files|);
    if index > count {
      return [];
    }
    var parts := PlaceBatches(h, files, count);
    r := parts[index - 1];
  }

  method PlaceBatches(h: Host, files: seq<string>, count: nat) returns (parts: seq<seq<string>>)
    requires h.width > 0 && count > 0
    ensures parts == Placed(h, files, count)
  {
    var plan := PlaceInOrder(h, Empty(h, count), Sort(ByWeight(h), files));
    parts := plan.parts;
  }

  /** The plan so far ends as `filled` once the files from `offset` on are placed. */
  ghost predicate Leads(h: Host, p: Plan, ordered: seq<string>, offset: nat, filled: Plan) {
    Shaped(h, p) && p.parts != [] && FillAll(h, p, ordered[Least(offset, |ordered|)..]) == filled
  }

  method PlaceInOrder(h: Host, empty: Plan, ordered: seq<string>) returns (plan: Plan)
    requires Shaped(h, empty) && empty.parts != []
    ensures plan == FillAll(h, empty, ordered)
  {
    plan := empty;
    var offset := 0;
    ghost var filled := FillAll(h, empty, ordered);
    AllIsLeft(h, empty, ordered);
    while offset < |ordered|
      invariant Leads(h, plan, ordered, offset, filled)
      decreases |ordered| - offset
    {
      plan := NextBatch(h, plan, ordered, offset, filled);
      offset := offset + h.width;
    }
    NothingIsLeft(h, plan, ordered, offset, filled);
  }

  lemma AllIsLeft(h: Host, p: Plan, ordered: seq<string>)
    requires Shaped(h, p) && p.parts != []
    ensures Leads(h, p, ordered, 0, FillAll(h, p, ordered))
  {
    assert ordered[0..] == ordered;
  }

  lemma NothingIsLeft(h: Host, p: Plan, ordered: seq<string>, offset: nat, filled: Plan)
    requires |ordered| <= offset && Leads(h, p, ordered, offset, filled)
    ensures p == filled
  {}

  method NextBatch(h: Host, p: Plan, ordered: seq<string>, offset: nat, ghost filled: Plan) returns (r: Plan)
    requires offset < |ordered| && Leads(h, p, ordered, offset, filled)
    ensures h.width > 0 && Leads(h, r, ordered, offset + h.width, filled)
  {
    var end := Least(offset + h.width, |ordered|);
    FirstBatch(ordered, offset, end, ordered[offset..]);
    r := PlaceBatch(h, p, ordered[offset..end]);
    FillAllNext(h, p, ordered[offset..], end - offset);
  }

  lemma FillAllNext(h: Host, p: Plan, rest: seq<string>, n: nat)
    requires Shaped(h, p) && p.parts != [] && rest != [] && n == Least(h.width, |rest|)
    ensures FillAll(h, p, rest) == FillAll(h, Fill(h, p, rest[..n]), rest[n..])
  {}

  lemma FirstBatch(ordered: seq<string>, offset: nat, end: nat, rest: seq<string>)
    requires offset <= end <= |ordered| && rest == ordered[offset..]
    ensures rest[..end - offset] == ordered[offset..end] && rest[end - offset..] == ordered[end..]
  {}

  method PlaceBatch(h: Host, p: Plan, batch: seq<string>) returns (r: Plan)
    requires Shaped(h, p) && p.parts != []
    ensures r == Fill(h, p, batch)
  {
    var index := LeastIndex(Loads(h, p));
    var workers := StartEach(h, p.slots[index], batch, Weights(h, batch));
    r := Plan(p.parts[index := p.parts[index] + batch], p.slots[index := workers]);
  }

  lemma WithoutStaysDistinct(files: seq<string>, f: string)
    requires Distinct(files)
    ensures Distinct(Without(files, f))
  {
    var r := Without(files, f);
    WithoutDrops(files, f);
    forall i, j | 0 <= i < j < |r| ensures r[i] != r[j] {
      if r[i] == r[j] {
        CountedTwice(r, i, j);
        assert r[i] in multiset(files);
        CountedOnce(files, r[i]);
        assert false;
      }
    }
  }

  // ----- Every file runs in exactly one shard -----

  lemma FillAdds(h: Host, p: Plan, batch: seq<string>)
    requires Shaped(h, p) && p.parts != []
    ensures AllOf(Fill(h, p, batch).parts) == AllOf(p.parts) + multiset(batch)
  {
    var index := LeastIndex(Loads(h, p));
    AllOfUpdate(p.parts, index, p.parts[index] + batch);
    Cancel(AllOf(Fill(h, p, batch).parts), AllOf(p.parts), multiset(p.parts[index]), multiset(batch));
  }

  lemma SplitCounts(s: seq<string>, n: nat)
    requires n <= |s|
    ensures multiset(s) == multiset(s[..n]) + multiset(s[n..])
  {
    assert s == s[..n] + s[n..];
  }

  lemma {:induction false} FillAllAdds(h: Host, p: Plan, rest: seq<string>)
    requires Shaped(h, p) && p.parts != []
    ensures AllOf(FillAll(h, p, rest).parts) == AllOf(p.parts) + multiset(rest)
    decreases |rest|
  {
    if rest != [] {
      var n := Least(h.width, |rest|);
      var next := Fill(h, p, rest[..n]);
      FillAdds(h, p, rest[..n]);
      FillAllAdds(h, next, rest[n..]);
      SplitCounts(rest, n);
    }
  }

  /** The selections of all shards. */
  function Selections(t: Target, files: seq<string>, total: nat): (r: seq<seq<string>>)
    requires t.host.width > 0
    ensures |r| == total
  {
    seq(total, i requires 0 <= i < total => Select(t, files, i + 1, total))
  }

  lemma PlacedHoldAll(h: Host, files: seq<string>, count: nat)
    requires h.width > 0 && count > 0
    ensures AllOf(Placed(h, files, count)) == multiset(files)
  {
    var empty := Empty(h, count);
    FillAllAdds(h, empty, Sort(ByWeight(h), files));
    NothingYet(empty.parts);
  }

  lemma BatchedFirst(t: Target, files: seq<string>, total: nat, parts: seq<seq<string>>)
    requires t.host.width > 0 && !Isolates(t, files, total) && Populated(t.host, total, |files|) > 0
    requires parts == Placed(t.host, files, Populated(t.host, total, |files|))
    ensures var all := Selections(t, files, total);
      forall i | 0 <= i < |all| :: all[i] == if i < |parts| then parts[i] else []
  {
    forall i | 0 <= i < total
      ensures Selections(t, files, total)[i] == if i < |parts| then parts[i] else []
    {
      assert Selections(t, files, total)[i] == Select(t, files, i + 1, total);
    }
  }

  lemma BatchedHoldAll(t: Target, files: seq<string>, total: nat)
    requires t.host.width > 0 && total > 0 && !Isolates(t, files, total)
    ensures AllOf(Selections(t, files, total)) == multiset(files)
  {
    var count := Populated(t.host, total, |files|);
    if count > 0 {
      PlacedHoldAll(t.host, files, count);
      BatchedFirst(t, files, total, Placed(t.host, files, count));
      PaddedHoldAll(Placed(t.host, files, count), Selections(t, files, total));
    } else {
      assert files == [];
      NothingYet(Selections(t, files, total));
    }
  }

  lemma PaddedHoldAll<T>(parts: seq<seq<T>>, all: seq<seq<T>>)
    requires |parts| <= |all|
    requires forall i | 0 <= i < |all| :: all[i] == if i < |parts| then parts[i] else []
    ensures AllOf(all) == AllOf(parts)
  {
    NothingYet(all[|parts|..]);
    AllOfConcat(parts, all[|parts|..]);
    assert all == parts + all[|parts|..];
  }

  lemma IsolatedHoldAll(files: seq<string>, f: string, others: seq<seq<string>>)
    requires Distinct(files) && f in files && AllOf(others) == multiset(files)[f := 0]
    ensures AllOf([[f]] + others) == multiset(files)
  {
    AllOfConcat([[f]], others);
    assert [[f]][..0] == [];
    CountedOnce(files, f);
    assert multiset(files) == multiset(files)[f := 0] + multiset{f};
  }

  lemma IsolatedFirst(t: Target, files: seq<string>, total: nat)
    requires t.host.width > 0 && Isolates(t, files, total)
    ensures Selections(t, files, total) == [[t.isolated]] + Selections(t, Without(files, t.isolated), total - 1)
  {
    var all := Selections(t, files, total);
    var joined := [[t.isolated]] + Selections(t, Without(files, t.isolated), total - 1);
    forall i | 0 <= i < total ensures all[i] == joined[i] {
      assert all[i] == Select(t, files, i + 1, total);
    }
  }

  /** The shards together hold every file exactly as often as it is listed. */
  lemma {:induction false} ShardsHoldAll(t: Target, files: seq<string>, total: nat)
    requires t.host.width > 0 && total > 0 && Distinct(files)
    ensures AllOf(Selections(t, files, total)) == multiset(files)
    decreases total
  {
    if Isolates(t, files, total) {
      WithoutStaysDistinct(files, t.isolated);
      ShardsHoldAll(t, Without(files, t.isolated), total - 1);
      WithoutDrops(files, t.isolated);
      IsolatedHoldAll(files, t.isolated, Selections(t, Without(files, t.isolated), total - 1));
      IsolatedFirst(t, files, total);
    } else {
      BatchedHoldAll(t, files, total);
    }
  }

  /** On Linux the isolated file runs alone on the first of several shards. */
  lemma OwnKeyIsAlone(t: Target, files: seq<string>, index: nat, total: nat)
    requires t.host.width > 0 && Distinct(files) && 1 <= index <= total
    requires t.linux && total > 1 && t.isolated in files
    ensures t.isolated in Select(t, files, index, total) <==> index == 1
    ensures index == 1 ==> Select(t, files, index, total) == [t.isolated]
  {
    var all := Selections(t, files, total);
    ShardsHoldAll(t, files, total);
    CountedOnce(files, t.isolated);
    SelectionAt(t, files, total, 0);
    SelectionAt(t, files, total, index - 1);
    if t.isolated in all[index - 1] {
      HeldOnce(all, t.isolated, 0, index - 1);
    }
  }

  lemma SelectionAt(t: Target, files: seq<string>, total: nat, i: nat)
    requires t.host.width > 0 && i < total
    ensures Selections(t, files, total)[i] == Select(t, files, i + 1, total)
    ensures Isolates(t, files, total) && i == 0 ==> Selections(t, files, total)[i] == [t.isolated]
  {}

  // ----- No populated shard is empty -----

  ghost predicate Positive(h: Host) {
    h.width > 0 && h.fallback > 0.0 && forall p | p in h.costs :: h.costs[p] > 0.0
  }

  /** The first `k` shards have work, the others none. */
  ghost predicate Started(h: Host, p: Plan, k: nat) {
    && Shaped(h, p)
    && (forall i | 0 <= i < |p.parts| && i < k :: p.parts[i] != [] && Largest(p.slots[i]) > 0.0)
    && (forall i | k <= i < |p.parts| :: p.parts[i] == [] && p.slots[i] == Idle(h.width))
  }

  lemma {:induction false} PositiveSum(weights: seq<real>)
    requires forall i | 0 <= i < |weights| :: weights[i] > 0.0
    ensures Sum(weights) >= 0.0 && (weights != [] ==> Sum(weights) > 0.0)
  {
    if weights != [] {
      PositiveSum(weights[..|weights| - 1]);
    }
  }

  lemma {:induction false} ZeroCopies(n: nat)
    ensures Copies(n, 0.0) == 0.0
  {
    if n > 0 {
      ZeroCopies(n - 1);
    }
  }

  lemma NothingPositive(loads: seq<real>)
    requires loads != [] && Largest(loads) <= 0.0
    ensures Sum(loads) <= 0.0
  {
    forall i | 0 <= i < |loads| ensures loads[i] <= 0.0 {
      assert loads[i] in loads;
    }
    SumAtMost(loads, 0.0);
    ZeroCopies(|loads|);
  }

  lemma {:induction false} LargestGrows(loads: seq<real>, weights: seq<real>)
    requires loads != [] && NonNegative(weights)
    ensures Largest(loads) <= Largest(ListSchedule.PlaceAll(loads, weights))
  {
    if weights != [] {
      var init := weights[..|weights| - 1];
      LargestGrows(loads, init);
      PlaceDominates(ListSchedule.PlaceAll(loads, init), weights[|weights| - 1]);
      DominatedLargest(ListSchedule.PlaceAll(loads, init), ListSchedule.PlaceAll(loads, weights));
    }
  }

  lemma BusyFromIdle(width: nat, weights: seq<real>)
    requires width > 0 && weights != [] && forall i | 0 <= i < |weights| :: weights[i] > 0.0
    ensures Largest(ListSchedule.PlaceAll(Idle(width), weights)) > 0.0
  {
    var loads := ListSchedule.PlaceAll(Idle(width), weights);
    LoadsSum(Idle(width), weights);
    IdleSum(width);
    PositiveSum(weights);
    if Largest(loads) <= 0.0 {
      NothingPositive(loads);
      assert false;
    }
  }

  lemma BusyAfter(h: Host, loads: seq<real>, batch: seq<string>)
    requires Positive(h) && |loads| == h.width && batch != [] && (loads == Idle(h.width) || Largest(loads) > 0.0)
    ensures Largest(ListSchedule.PlaceAll(loads, Weights(h, batch))) > 0.0
  {
    if loads == Idle(h.width) {
      BusyFromIdle(h.width, Weights(h, batch));
    } else {
      LargestGrows(loads, Weights(h, batch));
    }
  }

  lemma IdleLargest(width: nat)
    requires width > 0
    ensures Largest(Idle(width)) == 0.0
  {}

  /** While a shard is idle the next batch goes to the first idle one. */
  lemma FirstIdleIsNext(h: Host, p: Plan, k: nat)
    requires Started(h, p, k) && k < |p.parts|
    ensures LeastIndex(Loads(h, p)) == k
  {
    IdleLargest(h.width);
    assert Loads(h, p)[k] == 0.0;
  }

  lemma FillStarts(h: Host, p: Plan, k: nat, batch: seq<string>)
    requires Positive(h) && Started(h, p, k) && p.parts != [] && batch != []
    ensures Started(h, Fill(h, p, batch), k + 1)
  {
    var index := LeastIndex(Loads(h, p));
    if k < |p.parts| {
      FirstIdleIsNext(h, p, k);
    }
    BusyAfter(h, p.slots[index], batch);
  }

  lemma {:induction false} FillAllStarts(h: Host, p: Plan, k: nat, rest: seq<string>)
    requires Positive(h) && Started(h, p, k) && p.parts != []
    ensures Started(h, FillAll(h, p, rest), k + BatchCount(h, |rest|))
    decreases |rest|
  {
    if rest != [] {
      var n := Least(h.width, |rest|);
      FillStarts(h, p, k, rest[..n]);
      FillAllStarts(h, Fill(h, p, rest[..n]), k + 1, rest[n..]);
    }
  }

  lemma BatchedShardsAreBusy(t: Target, files: seq<string>, index: nat, total: nat)
    requires Positive(t.host) && !Isolates(t, files, total) && 1 <= index <= total
    ensures Select(t, files, index, total) != [] <==> index <= Populated(t.host, total, |files|)
  {
    var count := Populated(t.host, total, |files|);
    if index <= count {
      var sorted := Sort(ByWeight(t.host), files);
      assert |multiset(sorted)| == |multiset(files)|;
      FillAllStarts(t.host, Empty(t.host, count), 0, sorted);
    }
  }

  /**
   With positive weights, which shards have files: those up to the populated count, or, when a
   file is isolated, the first and those up to the populated count of the others after it.
   */
  lemma PopulatedShardsAreBusy(t: Target, files: seq<string>, index: nat, total: nat)
    requires Positive(t.host) && 1 <= index <= total
    ensures Select(t, files, index, total) != [] <==>
      if Isolates(t, files, total) then
        index == 1 || index - 1 <= Populated(t.host, total - 1, |Without(files, t.isolated)|)
      else index <= Populated(t.host, total, |files|)
  {
    if !Isolates(t, files, total) {
      BatchedShardsAreBusy(t, files, index, total);
    } else if index > 1 {
      IsolatedIsGone(t, files, total);
      BatchedShardsAreBusy(t, Without(files, t.isolated), index - 1, total - 1);
    }
  }

  lemma IsolatedIsGone(t: Target, files: seq<string>, total: nat)
    requires total > 0
    ensures !Isolates(t, Without(files, t.isolated), total - 1)
  {
    WithoutDrops(files, t.isolated);
    assert t.isolated !in multiset(Without(files, t.isolated));
  }

  // ----- The order of listing -----

  lemma PlacedIgnoresOrder(h: Host, a: seq<string>, b: seq<string>, count: nat)
    requires h.width > 0 && count > 0 && multiset(a) == multiset(b)
    ensures Placed(h, a, count) == Placed(h, b, count)
  {
    ByWeightIsTotal(h);
    SortIgnoresOrder(ByWeight(h), a, b);
  }

  lemma BatchedIgnoresOrder(t: Target, a: seq<string>, b: seq<string>, index: nat, total: nat)
    requires t.host.width > 0 && 1 <= index <= total && multiset(a) == multiset(b) && |a| == |b|
    requires !Isolates(t, a, total) && !Isolates(t, b, total)
    ensures Select(t, a, index, total) == Select(t, b, index, total)
  {
    var count := Populated(t.host, total, |a|);
    if index <= count {
      PlacedIgnoresOrder(t.host, a, b, count);
      BatchedIs(t, a, index, total);
      BatchedIs(t, b, index, total);
    }
  }

  lemma BatchedIs(t: Target, files: seq<string>, index: nat, total: nat)
    requires t.host.width > 0 && 1 <= index <= Populated(t.host, total, |files|) && !Isolates(t, files, total)
    ensures index <= total
    ensures Select(t, files, index, total) == Placed(t.host, files, Populated(t.host, total, |files|))[index - 1]
  {}

  lemma IsolationIgnoresOrder(t: Target, a: seq<string>, b: seq<string>, total: nat)
    requires multiset(a) == multiset(b)
    ensures |a| == |b| && (Isolates(t, a, total) <==> Isolates(t, b, total))
    ensures multiset(Without(a, t.isolated)) == multiset(Without(b, t.isolated))
  {
    SameMembers(a, b);
    assert |multiset(a)| == |multiset(b)|;
    WithoutDrops(a, t.isolated);
    WithoutDrops(b, t.isolated);
  }

  /** The shards do not depend on the order in which files are listed. */
  lemma {:induction false} SelectionIgnoresOrder(t: Target, a: seq<string>, b: seq<string>, index: nat, total: nat)
    requires t.host.width > 0 && 1 <= index <= total && multiset(a) == multiset(b)
    ensures Select(t, a, index, total) == Select(t, b, index, total)
    decreases total
  {
    IsolationIgnoresOrder(t, a, b, total);
    if !Isolates(t, a, total) {
      BatchedIgnoresOrder(t, a, b, index, total);
    } else if index > 1 {
      SelectionIgnoresOrder(t, Without(a, t.isolated), Without(b, t.isolated), index - 1, total - 1);
    }
  }

  // ----- Isolation and order -----

  /** Only on Linux, and only with several shards, does it matter which file is named for isolation. */
  lemma OnlyLinuxIsolates(t: Target, named: string, files: seq<string>, index: nat, total: nat)
    requires t.host.width > 0 && 1 <= index <= total && (!t.linux || total == 1)
    ensures Select(t, files, index, total) == Select(t.(isolated := named), files, index, total)
  {}

  /** Every shard holds heavier files first, and no file that is left is heavier. */
  ghost predicate FilledInOrder(h: Host, p: Plan, rest: seq<string>) {
    && (forall k | 0 <= k < |p.parts| :: HeaviestFirst(h, p.parts[k]))
    && (forall k, f, i | 0 <= k < |p.parts| && f in p.parts[k] && 0 <= i < |rest| :: !Heavier(h, rest[i], f))
    && Sorted(ByWeight(h), rest)
  }

  lemma {:induction false} BatchInOrder(h: Host, part: seq<string>, batch: seq<string>)
    requires HeaviestFirst(h, part) && Sorted(ByWeight(h), batch)
    requires forall f, i | f in part && 0 <= i < |batch| :: !Heavier(h, batch[i], f)
    ensures HeaviestFirst(h, part + batch)
  {
    var now := part + batch;
    forall i, j | 0 <= i < j < |now|
      ensures Weight(h, now[i]) >= Weight(h, now[j])
      ensures Weight(h, now[i]) == Weight(h, now[j]) ==> !Less(now[j], now[i])
    {
      if i < |part| <= j {
        assert part[i] in part && !Heavier(h, batch[j - |part|], part[i]);
      } else if |part| <= i {
        assert !ByWeight(h)(batch[j - |part|], batch[i - |part|]);
      }
    }
  }

  lemma FillInOrder(h: Host, p: Plan, rest: seq<string>, n: nat)
    requires Shaped(h, p) && p.parts != [] && n <= |rest| && FilledInOrder(h, p, rest)
    ensures FilledInOrder(h, Fill(h, p, rest[..n]), rest[n..])
  {
    var now, batch, left := Fill(h, p, rest[..n]), rest[..n], rest[n..];
    forall k | 0 <= k < |now.parts| ensures HeaviestFirst(h, now.parts[k]) {
      BatchInOrder(h, p.parts[k], batch);
    }
    forall k, f, i | 0 <= k < |now.parts| && f in now.parts[k] && 0 <= i < |left| ensures !Heavier(h, left[i], f) {
      assert left[i] == rest[n + i];
      if f !in p.parts[k] {
        var j :| 0 <= j < n && batch[j] == f;
        assert !ByWeight(h)(rest[n + i], rest[j]);
      }
    }
    forall i, j | 0 <= i < j < |left| ensures !ByWeight(h)(left[j], left[i]) {
      assert !ByWeight(h)(rest[n + j], rest[n + i]);
    }
  }

  lemma {:induction false} FillAllInOrder(h: Host, p: Plan, rest: seq<string>, k: nat)
    requires Shaped(h, p) && p.parts != [] && FilledInOrder(h, p, rest) && k < |p.parts|
    ensures HeaviestFirst(h, FillAll(h, p, rest).parts[k])
    decreases |rest|
  {
    if rest != [] {
      var n := Least(h.width, |rest|);
      FillInOrder(h, p, rest, n);
      FillAllInOrder(h, Fill(h, p, rest[..n]), rest[n..], k);
    }
  }

  /** Every shard gets its heavier files first. */
  lemma BatchesAreHeaviestFirst(h: Host, files: seq<string>, count: nat, k: nat)
    requires h.width > 0 && k < count
    ensures HeaviestFirst(h, Placed(h, files, count)[k])
  {
    ByWeightIsTotal(h);
    SortSorts(ByWeight(h), files);
    FillAllInOrder(h, Empty(h, count), Sort(ByWeight(h), files), k);
  }

  // ----- When batches start -----

  /** The workers of every shard are loaded with its files in their order. */
  ghost predicate LoadedInOrder(h: Host, p: Plan) {
    && Shaped(h, p)
    && forall k | 0 <= k < |p.parts| :: p.slots[k] == ListSchedule.PlaceAll(Idle(h.width), Weights(h, p.parts[k]))
  }

  /** The last batch of a shard begins behind `n` files, when no shard of the end is done any earlier. */
  ghost predicate LastBatchAt(h: Host, parts: seq<seq<string>>, k: nat, n: nat)
    requires h.width > 0 && k < |parts|
  {
    && n < |parts[k]| <= n + h.width
    && forall l | 0 <= l < |parts| :: Wall(h.width, Weights(h, parts[k][..n])) <= Wall(h.width, Weights(h, parts[l]))
  }

  ghost predicate NoneStartsLate(h: Host, parts: seq<seq<string>>)
    requires h.width > 0
  {
    forall k: nat | k < |parts| && parts[k] != [] :: exists n :: LastBatchAt(h, parts, k, n)
  }

  lemma WeightsConcat(h: Host, a: seq<string>, b: seq<string>)
    ensures Weights(h, a + b) == Weights(h, a) + Weights(h, b)
  {}

  lemma MoreFilesEndLater(h: Host, a: seq<string>, b: seq<string>)
    requires HostOk(h)
    ensures Wall(h.width, Weights(h, a)) <= Wall(h.width, Weights(h, a + b))
  {
    WeightsConcat(h, a, b);
    PlaceAllConcat(Idle(h.width), Weights(h, a), Weights(h, b));
    LargestGrows(ListSchedule.PlaceAll(Idle(h.width), Weights(h, a)), Weights(h, b));
  }

  lemma FillStaysLoaded(h: Host, p: Plan, batch: seq<string>)
    requires LoadedInOrder(h, p) && p.parts != []
    ensures LoadedInOrder(h, Fill(h, p, batch))
  {
    var index := LeastIndex(Loads(h, p));
    WeightsConcat(h, p.parts[index], batch);
    PlaceAllConcat(Idle(h.width), Weights(h, p.parts[index]), Weights(h, batch));
  }

  /** No shard ends earlier than before. */
  ghost predicate EndsLater(h: Host, before: seq<seq<string>>, now: seq<seq<string>>)
    requires h.width > 0
  {
    && |now| == |before|
    && forall l | 0 <= l < |now| :: Wall(h.width, Weights(h, before[l])) <= Wall(h.width, Weights(h, now[l]))
  }

  lemma StillInTime(h: Host, before: seq<seq<string>>, now: seq<seq<string>>, k: nat, n: nat)
    requires h.width > 0 && EndsLater(h, before, now) && k < |now| && now[k] == before[k]
    requires LastBatchAt(h, before, k, n)
    ensures LastBatchAt(h, now, k, n)
  {
    forall l | 0 <= l < |now| ensures Wall(h.width, Weights(h, now[k][..n])) <= Wall(h.width, Weights(h, now[l])) {
      assert Wall(h.width, Weights(h, before[k][..n])) <= Wall(h.width, Weights(h, before[l]));
    }
  }

  lemma NewBatchInTime(h: Host, before: seq<seq<string>>, now: seq<seq<string>>, k: nat, batch: seq<string>)
    requires h.width > 0 && EndsLater(h, before, now) && k < |now| && now[k] == before[k] + batch
    requires 0 < |batch| <= h.width
    requires forall l | 0 <= l < |before| ::
      Wall(h.width, Weights(h, before[k])) <= Wall(h.width, Weights(h, before[l]))
    ensures LastBatchAt(h, now, k, |before[k]|)
  {
    assert now[k][..|before[k]|] == before[k];
    forall l | 0 <= l < |now|
      ensures Wall(h.width, Weights(h, now[k][..|before[k]|])) <= Wall(h.width, Weights(h, now[l]))
    {
      assert Wall(h.width, Weights(h, before[k])) <= Wall(h.width, Weights(h, before[l]));
    }
  }

  lemma FillGoesToShortest(h: Host, p: Plan, batch: seq<string>, l: nat)
    requires LoadedInOrder(h, p) && l < |p.parts|
    ensures var index := LeastIndex(Loads(h, p));
      Wall(h.width, Weights(h, p.parts[index])) <= Wall(h.width, Weights(h, p.parts[l]))
  {
    assert Loads(h, p)[LeastIndex(Loads(h, p))] <= Loads(h, p)[l];
  }

  lemma FillEndsLater(h: Host, p: Plan, batch: seq<string>)
    requires HostOk(h) && Shaped(h, p) && p.parts != []
    ensures EndsLater(h, p.parts, Fill(h, p, batch).parts)
  {
    MoreFilesEndLater(h, p.parts[LeastIndex(Loads(h, p))], batch);
  }

  /** A batch starts on a shard that is done no later than any other. */
  lemma FillStartsInTime(h: Host, p: Plan, batch: seq<string>)
    requires HostOk(h) && LoadedInOrder(h, p) && p.parts != [] && 0 < |batch| <= h.width
    requires NoneStartsLate(h, p.parts)
    ensures NoneStartsLate(h, Fill(h, p, batch).parts)
  {
    var index, now := LeastIndex(Loads(h, p)), Fill(h, p, batch).parts;
    FillEndsLater(h, p, batch);
    forall k: nat | k < |now| && now[k] != [] ensures exists n :: LastBatchAt(h, now, k, n) {
      if k == index {
        forall l: nat | l < |p.parts|
          ensures Wall(h.width, Weights(h, p.parts[k])) <= Wall(h.width, Weights(h, p.parts[l]))
        {
          FillGoesToShortest(h, p, batch, l);
        }
        NewBatchInTime(h, p.parts, now, k, batch);
      } else {
        var n :| LastBatchAt(h, p.parts, k, n);
        StillInTime(h, p.parts, now, k, n);
      }
    }
  }

  lemma {:induction false} FillAllStartsInTime(h: Host, p: Plan, rest: seq<string>)
    requires HostOk(h) && LoadedInOrder(h, p) && p.parts != [] && NoneStartsLate(h, p.parts)
    ensures NoneStartsLate(h, FillAll(h, p, rest).parts)
    decreases |rest|
  {
    if rest != [] {
      var n := Least(h.width, |rest|);
      FillStaysLoaded(h, p, rest[..n]);
      FillStartsInTime(h, p, rest[..n]);
      FillAllStartsInTime(h, Fill(h, p, rest[..n]), rest[n..]);
    }
  }

  /** No shard is given its last batch later than some shard could take it. */
  lemma NoBatchStartsLate(h: Host, files: seq<string>, count: nat)
    requires HostOk(h) && count > 0
    ensures NoneStartsLate(h, Placed(h, files, count))
  {
    FillAllStartsInTime(h, Empty(h, count), Sort(ByWeight(h), files));
  }
}
