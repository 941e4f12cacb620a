/**
 Shards of ordinary Node test files (tools/node-shard.ts): files placed heaviest first, each on
 the shard whose modeled run ends earliest with it added.
 */
module NodeShards {
  import opened Basics
  import opened CodeUnits
  import opened ListSchedule
  import opened Parts
  import opened PathLists
  import opened RealLists
  import opened Sorting

  /** Measured seconds, the weight of an unknown file, and Node's file concurrency. */
  datatype Host = Host(costs: map<string, real>, fallback: real, width: nat)

  ghost predicate HostOk(h: Host) {
    h.width > 0 && h.fallback >= 0.0 && forall p | p in h.costs :: h.costs[p] >= 0.0
  }

  /** The measured seconds of a file, or the fallback of one that was not measured. */
  function Weight(h: Host, path: string): (w: real)
    ensures path in h.costs ==> w == h.costs[path]
    ensures path !in h.costs ==> w == h.fallback
  {
    if path in h.costs then h.costs[path] else h.fallback
  }

  function Weights(h: Host, files: seq<string>): (r: seq<real>)
    ensures |r| == |files|
  {
    seq(|files|, i requires 0 <= i < |files| => Weight(h, files[i]))
  }

  /** Seconds of one Node run, which sorts its files and starts each on the first free worker. */
  function RunSeconds(h: Host, files: seq<string>): real
    requires h.width > 0
  {
    Wall(h.width, Weights(h, Sort(Less, files)))
  }

  method ModeledWall(h: Host, files: seq<string>) returns (seconds: real)
    requires h.width > 0
    ensures seconds == RunSeconds(h, files)
  {
    var sorted := Sort(Less, files);
    var workers := StartEach(h, Idle(h.width), sorted, Weights(h, sorted));
    seconds := Largest(workers);
  }

  /** Start each file on the first free worker. */
  method StartEach(h: Host, loads: seq<real>, files: seq<string>, ghost weights: seq<real>) returns (workers: seq<real>)
    requires loads != [] && weights == Weights(h, files)
    ensures workers == ListSchedule.PlaceAll(loads, weights)
  {
    workers := loads;
    for i := 0 to |files|
      invariant workers == ListSchedule.PlaceAll(loads, weights[..i])
    {
      PlaceAllNext(loads, weights, i);
      var worker := LeastIndex(workers);
      workers := workers[worker := workers[worker] + Weight(h, files[i])];
    }
    assert weights[..|files|] == weights;
  }

  // ----- Orders -----

  predicate Heavier(h: Host, a: string, b: string) {
    Weight(h, a) > Weight(h, b) || (Weight(h, a) == Weight(h, b) && Less(a, b))
  }

  function ByWeight(h: Host): (string, string) -> bool {
    (a, b) => Heavier(h, a, b)
  }

  lemma ByWeightIsTotal(h: Host)
    ensures TotalOrder(ByWeight(h))
  {
    LessIsTotal();
  }

  // ----- Partitions -----

  /** Each shard's modeled end with the file added. */
  function Ends(h: Host, parts: seq<seq<string>>, path: string): (ends: seq<real>)
    requires h.width > 0
    ensures |ends| == |parts|
  {
    seq(|parts|, i requires 0 <= i < |parts| => RunSeconds(h, parts[i] + [path]))
  }

  function PlaceFile(h: Host, parts: seq<seq<string>>, path: string): (r: seq<seq<string>>)
    requires h.width > 0 && parts != []
    ensures |r| == |parts|
  {
    Push(parts, LeastIndex(Ends(h, parts, path)), path)
  }

  function Partitions(h: Host, total: nat, ordered: seq<string>): (r: seq<seq<string>>)
    requires h.width > 0 && total > 0
    ensures |r| == total
  {
    if ordered == [] then seq(total, _ => [])
    else PlaceFile(h, Partitions(h, total, ordered[..|ordered| - 1]), ordered[|ordered| - 1])
  }

  function Shards(h: Host, total: nat, files: seq<string>): (r: seq<seq<string>>)
    requires h.width > 0 && total > 0
    ensures |r| == total
  {
    Partitions(h, total, Sort(ByWeight(h), files))
  }

  datatype Selection = Selected(files: seq<string>) | Repeated

  /** The files of one shard, in path order. */
  method SelectNodeTestShard(h: Host, files: seq<string>, index: nat, total: nat) returns (r: Selection)
    requires h.width > 0 && 1 <= index <= total
    ensures r == if Distinct(files) then Selected(Sort(Less, Shards(h, total, files)[index - 1])) else Repeated
  {
    var repeated := HasRepeats(files);
    if repeated {
      return Repeated;
    }
    var ordered := Sort(ByWeight(h), files);
    var partitions: seq<seq<string>> := seq(total, _ => []);
    for i := 0 to |ordered|
      invariant |partitions| == total && partitions == Partitions(h, total, ordered[..i])
    {
      assert ordered[..i + 1][..i] == ordered[..i];
      var ends := ComputeEnds(h, partitions, ordered[i]);
      var shortest := LeastIndex(ends);
      partitions := partitions[shortest := partitions[shortest] + [ordered[i]]];
    }
    assert ordered[..|ordered|] == ordered;
    r := Selected(Sort(Less, partitions[index - 1]));
  }

  method ComputeEnds(h: Host, parts: seq<seq<string>>, path: string) returns (ends: seq<real>)
    requires h.width > 0
    ensures ends == Ends(h, parts, path)
  {
    ends := [];
    for i := 0 to |parts|
      invariant ends == Ends(h, parts, path)[..i]
    {
      var seconds := ModeledWall(h, parts[i] + [path]);
      ends := ends + [seconds];
    }
  }

  // ----- Every file runs in exactly one shard -----

  lemma PlaceFileAdds(h: Host, parts: seq<seq<string>>, path: string)
    requires h.width > 0 && parts != []
    ensures AllOf(PlaceFile(h, parts, path)) == AllOf(parts) + multiset{path}
  {
    PushAdds(parts, LeastIndex(Ends(h, parts, path)), path);
  }

  lemma {:induction false} PartitionsHoldAll(h: Host, total: nat, ordered: seq<string>)
    requires h.width > 0 && total > 0
    ensures AllOf(Partitions(h, total, ordered)) == multiset(ordered)
  {
    if ordered == [] {
      NothingYet(Partitions(h, total, ordered));
    } else {
      var init, last := ordered[..|ordered| - 1], ordered[|ordered| - 1];
      PartitionsHoldAll(h, total, init);
      PlaceFileAdds(h, Partitions(h, total, init), last);
      Unsnoc(ordered);
    }
  }

  lemma Unsnoc(s: seq<string>)
    requires s != []
    ensures multiset(s) == multiset(s[..|s| - 1]) + multiset{s[|s| - 1]}
  {
    assert s == s[..|s| - 1] + [s[|s| - 1]];
  }

  /** The shards together hold every file, and no file twice. */
  lemma EveryFileInOneShard(h: Host, total: nat, files: seq<string>, f: string)
    requires h.width > 0 && total > 0 && Distinct(files)
    ensures f in files <==> exists i | 0 <= i < total :: f in Shards(h, total, files)[i]
    ensures forall i, j | 0 <= i < total && 0 <= j < total
                          && f in Shards(h, total, files)[i] && f in Shards(h, total, files)[j] ::
      i == j && multiset(Shards(h, total, files)[i])[f] == 1
  {
    var parts := Shards(h, total, files);
    PartitionsHoldAll(h, total, Sort(ByWeight(h), files));
    HeldSomewhere(parts, f);
    assert f in files <==> f in multiset(files);
    forall i, j | 0 <= i < total && 0 <= j < total && f in parts[i] && f in parts[j]
      ensures i == j && multiset(parts[i])[f] == 1
    {
      CountedOnce(files, f);
      HeldOnce(parts, f, i, j);
    }
  }

  /** The shards depend on the files only, not on the order they are listed in. */
  lemma ListingOrderIsIrrelevant(h: Host, total: nat, a: seq<string>, b: seq<string>)
    requires h.width > 0 && total > 0 && multiset(a) == multiset(b)
    ensures Shards(h, total, a) == Shards(h, total, b)
  {
    ByWeightIsTotal(h);
    SortIgnoresOrder(ByWeight(h), a, b);
  }

  // ----- More files never make a run shorter -----

  lemma AddFile(h: Host, files: seq<string>, path: string)
    requires HostOk(h)
    ensures RunSeconds(h, files) <= RunSeconds(h, files + [path])
  {
    var sorted := Sort(Less, files);
    assert (files + [path])[..|files|] == files;
    var k := InsertSplits(Less, path, sorted);
    assert sorted == sorted[..k] + sorted[k..];
    InsertedFile(h, sorted[..k], path, sorted[k..]);
  }

  lemma InsertedFile(h: Host, before: seq<string>, path: string, after: seq<string>)
    requires HostOk(h)
    ensures Wall(h.width, Weights(h, before + after)) <= Wall(h.width, Weights(h, before + [path] + after))
  {
    assert Weights(h, before + after) == Weights(h, before) + Weights(h, after);
    assert Weights(h, before + [path] + after) == Weights(h, before) + [Weight(h, path)] + Weights(h, after);
    AddingNeverShortens(h.width, Weights(h, before), Weight(h, path), Weights(h, after));
  }

  lemma RunIgnoresOrder(h: Host, a: seq<string>, b: seq<string>)
    requires h.width > 0 && multiset(a) == multiset(b)
    ensures RunSeconds(h, a) == RunSeconds(h, b)
  {
    LessIsTotal();
    SortIgnoresOrder(Less, a, b);
  }

  lemma SameCounts(a: multiset<string>, b: multiset<string>)
    requires forall f :: a[f] == b[f]
    ensures a == b
  {}

  lemma ExtraFile(part: multiset<string>, whole: multiset<string>) returns (f: string)
    requires part < whole
    ensures part[f] < whole[f]
  {
    if forall f :: part[f] == whole[f] {
      SameCounts(part, whole);
      assert false;
    }
    f :| part[f] < whole[f];
  }

  /** A run of some of the files never takes longer than a run of all of them. */
  lemma {:induction false} FewerFilesFinishSooner(h: Host, part: seq<string>, whole: seq<string>)
    requires HostOk(h) && multiset(part) <= multiset(whole)
    ensures RunSeconds(h, part) <= RunSeconds(h, whole)
    decreases |multiset(whole)| - |multiset(part)|
  {
    if multiset(part) == multiset(whole) {
      RunIgnoresOrder(h, part, whole);
    } else {
      var f := ExtraFile(multiset(part), multiset(whole));
      AddFile(h, part, f);
      assert multiset(part + [f]) == multiset(part) + multiset{f};
      SubCardinality(multiset(part + [f]), multiset(whole));
      FewerFilesFinishSooner(h, part + [f], whole);
    }
  }

  lemma SubCardinality(a: multiset<string>, b: multiset<string>)
    requires a <= b
    ensures |a| <= |b|
  {
    assert b == a + (b - a);
  }

  /** Sharding never makes one run longer than running everything at once. */
  lemma ShardIsNoLongerThanAll(h: Host, total: nat, files: seq<string>, i: nat)
    requires HostOk(h) && i < total
    ensures RunSeconds(h, Shards(h, total, files)[i]) <= RunSeconds(h, files)
  {
    var parts := Shards(h, total, files);
    PartitionsHoldAll(h, total, Sort(ByWeight(h), files));
    OnePart(parts, i);
    FewerFilesFinishSooner(h, parts[i], files);
  }

  lemma {:induction false} OnePart(parts: seq<seq<string>>, i: nat)
    requires i < |parts|
    ensures multiset(parts[i]) <= AllOf(parts)
  {
    if i < |parts| - 1 {
      OnePart(parts[..|parts| - 1], i);
    }
  }

  // ----- Balance -----

  /** Moving the file a shard took last to another shard never ends earlier. */
  ghost predicate Balanced(h: Host, parts: seq<seq<string>>)
    requires h.width > 0
  {
    forall i, j | 0 <= i < |parts| && 0 <= j < |parts| && parts[i] != [] :: NoGain(h, parts[i], parts[j])
  }

  ghost predicate NoGain(h: Host, mine: seq<string>, theirs: seq<string>)
    requires h.width > 0 && mine != []
  {
    RunSeconds(h, mine) <= RunSeconds(h, theirs + [mine[|mine| - 1]])
  }

  lemma PlaceFileKeepsBalance(h: Host, parts: seq<seq<string>>, path: string)
    requires HostOk(h) && parts != [] && Balanced(h, parts)
    ensures Balanced(h, PlaceFile(h, parts, path))
  {
    var now := PlaceFile(h, parts, path);
    forall i, j | 0 <= i < |now| && 0 <= j < |now| && now[i] != [] ensures NoGain(h, now[i], now[j]) {
      if i == LeastIndex(Ends(h, parts, path)) {
        PlacedShardBalanced(h, parts, path, j);
      } else {
        assert NoGain(h, parts[i], parts[j]);
        OthersOnlyGrow(h, parts, path, j, parts[i][|parts[i]| - 1]);
      }
    }
  }

  lemma OthersOnlyGrow(h: Host, parts: seq<seq<string>>, path: string, j: nat, f: string)
    requires HostOk(h) && j < |parts|
    ensures RunSeconds(h, parts[j] + [f]) <= RunSeconds(h, PlaceFile(h, parts, path)[j] + [f])
  {
    var now := PlaceFile(h, parts, path)[j];
    assert multiset(now + [f]) == multiset(now) + multiset{f};
    assert multiset(parts[j] + [f]) == multiset(parts[j]) + multiset{f};
    assert now == parts[j] || now == parts[j] + [path];
    FewerFilesFinishSooner(h, parts[j] + [f], now + [f]);
  }

  lemma PlacedShardBalanced(h: Host, parts: seq<seq<string>>, path: string, j: nat)
    requires HostOk(h) && j < |parts|
    ensures var n := LeastIndex(Ends(h, parts, path));
      NoGain(h, parts[n] + [path], PlaceFile(h, parts, path)[j])
  {
    var ends := Ends(h, parts, path);
    assert ends[LeastIndex(ends)] <= ends[j];
    OthersOnlyGrow(h, parts, path, j, path);
  }

  /** The finished shards are balanced: no shard gains by giving away the file it took last. */
  lemma {:induction false} ShardsAreBalanced(h: Host, total: nat, ordered: seq<string>)
    requires HostOk(h) && total > 0
    ensures Balanced(h, Partitions(h, total, ordered))
  {
    if ordered != [] {
      ShardsAreBalanced(h, total, ordered[..|ordered| - 1]);
      PlaceFileKeepsBalance(h, Partitions(h, total, ordered[..|ordered| - 1]), ordered[|ordered| - 1]);
    }
  }

  // ----- Heaviest first -----

  /** A shard takes its files from the heaviest to the lightest, equally heavy ones in path order. */
  ghost predicate HeaviestFirst(h: Host, part: seq<string>) {
    forall i, j | 0 <= i < j < |part| ::
      && Weight(h, part[i]) >= Weight(h, part[j])
      && (Weight(h, part[i]) == Weight(h, part[j]) ==> !Less(part[j], part[i]))
  }

  lemma LighterLast(h: Host, part: seq<string>, path: string)
    requires HeaviestFirst(h, part) && forall f | f in part :: !Heavier(h, path, f)
    ensures HeaviestFirst(h, part + [path])
  {
    var now := part + [path];
    forall i, j | 0 <= i < j < |now|
      ensures Weight(h, now[i]) >= Weight(h, now[j])
      ensures Weight(h, now[i]) == Weight(h, now[j]) ==> !Less(now[j], now[i])
    {
      if j == |part| {
        assert part[i] in part;
      }
    }
  }

  lemma PlacedAreHeavier(h: Host, total: nat, ordered: seq<string>, n: nat, k: nat, f: string)
    requires h.width > 0 && k < total && n < |ordered| && Sorted(ByWeight(h), ordered)
    requires f in Partitions(h, total, ordered[..n])[k]
    ensures !Heavier(h, ordered[n], f)
  {
    PartitionsHoldAll(h, total, ordered[..n]);
    HeldSomewhere(Partitions(h, total, ordered[..n]), f);
    assert f in multiset(ordered[..n]);
    var i :| 0 <= i < n && ordered[i] == f;
    assert !ByWeight(h)(ordered[n], ordered[i]);
  }

  lemma {:induction false} PartitionsKeepOrder(h: Host, total: nat, ordered: seq<string>, n: nat, k: nat)
    requires h.width > 0 && k < total && n <= |ordered| && Sorted(ByWeight(h), ordered)
    ensures HeaviestFirst(h, Partitions(h, total, ordered[..n])[k])
    decreases n
  {
    if n > 0 {
      assert ordered[..n][..n - 1] == ordered[..n - 1];
      var before := Partitions(h, total, ordered[..n - 1]);
      PartitionsKeepOrder(h, total, ordered, n - 1, k);
      forall f | f in before[k] ensures !Heavier(h, ordered[n - 1], f) {
        PlacedAreHeavier(h, total, ordered, n - 1, k, f);
      }
      LighterLast(h, before[k], ordered[n - 1]);
    }
  }

  /** Every shard gets its heavier files first. */
  lemma ShardsAreHeaviestFirst(h: Host, total: nat, files: seq<string>, k: nat)
    requires h.width > 0 && k < total
    ensures HeaviestFirst(h, Shards(h, total, files)[k])
  {
    ByWeightIsTotal(h);
    SortSorts(ByWeight(h), files);
    var ordered := Sort(ByWeight(h), files);
    assert ordered[..|ordered|] == ordered;
    PartitionsKeepOrder(h, total, ordered, |ordered|, k);
  }

  // ----- Empty shards -----

  /** Behind an empty shard all others are empty. */
  ghost predicate EmptyLast(parts: seq<seq<string>>) {
    forall i, j | 0 <= i < j < |parts| && parts[i] == [] :: parts[j] == []
  }

  /** A run of one file takes no longer than any run with it. */
  lemma OneFileFinishesFirst(h: Host, part: seq<string>, path: string)
    requires HostOk(h)
    ensures RunSeconds(h, [] + [path]) <= RunSeconds(h, part + [path])
  {
    assert [] + [path] == [path];
    assert multiset(part + [path]) == multiset(part) + multiset{path};
    FewerFilesFinishSooner(h, [path], part + [path]);
  }

  /** No shard before the one that a file goes to is empty: there the file would end as early. */
  lemma PassesNoEmptyShard(h: Host, parts: seq<seq<string>>, path: string, i: nat)
    requires HostOk(h) && parts != [] && i < LeastIndex(Ends(h, parts, path))
    ensures parts[i] != []
  {
    var ends := Ends(h, parts, path);
    var n := LeastIndex(ends);
    OneFileFinishesFirst(h, parts[n], path);
    assert ends[n] < ends[i];
  }

  lemma {:induction false} PartitionsFillInOrder(h: Host, total: nat, ordered: seq<string>)
    requires HostOk(h) && total > 0
    ensures EmptyLast(Partitions(h, total, ordered))
  {
    if ordered != [] {
      var before, path := Partitions(h, total, ordered[..|ordered| - 1]), ordered[|ordered| - 1];
      PartitionsFillInOrder(h, total, ordered[..|ordered| - 1]);
      forall i | 0 <= i < LeastIndex(Ends(h, before, path)) ensures before[i] != [] {
        PassesNoEmptyShard(h, before, path, i);
      }
    }
  }

  /** With equal ends the lowest index is taken, so empty shards come last. */
  lemma EmptyShardsAreLast(h: Host, total: nat, files: seq<string>)
    requires HostOk(h) && total > 0
    ensures EmptyLast(Shards(h, total, files))
  {
    PartitionsFillInOrder(h, total, Sort(ByWeight(h), files));
  }

  /** A run starts its files in path order, whatever order they are given in. */
  lemma RunsInPathOrder(h: Host, files: seq<string>, inOrder: seq<string>)
    requires h.width > 0 && multiset(files) == multiset(inOrder)
    requires forall i, j | 0 <= i < j < |inOrder| :: !Less(inOrder[j], inOrder[i])
    ensures RunSeconds(h, files) == Wall(h.width, Weights(h, inOrder))
  {
    LessIsTotal();
    SortSorts(Less, files);
    SortedIsUnique(Less, Sort(Less, files), inOrder);
  }
}
