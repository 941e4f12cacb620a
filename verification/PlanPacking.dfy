/**
 That a plan is packed: no two neighbouring chunks of a class would fit together, and a class
 that fits is one chunk under one prefix that no separator would lengthen. Which prerequisite
 sets are classes of their own.
 */
module PlanPacking {
  import opened Basics
  import opened CodeUnits
  import opened BatchPlan
  import opened BatchAssign
  import opened BatchIds
  import opened PrefixPlan
  import opened PlanGuarantees
  import opened SelectorPlan
  import opened PathLists
  import opened Sorting

  // ----- Neighbours -----

  /** The `i`th chunk and the one before it exceed the limits together. */
  ghost predicate Full(chunks: seq<Chunk>, limits: Limits, i: nat)
    requires 0 < i < |chunks|
  {
    !Fits(chunks[i - 1].facts + chunks[i].facts, limits)
  }

  ghost predicate Packed(chunks: seq<Chunk>, limits: Limits) {
    forall i: nat | 0 < i < |chunks| :: Full(chunks, limits, i)
  }

  lemma PackStaysPacked(packed: seq<Chunk>, chunk: Chunk, limits: Limits)
    requires Packed(packed, limits)
    ensures Packed(Pack(packed, chunk, limits), limits)
  {
    var r, n := Pack(packed, chunk, limits), |packed|;
    forall i: nat | 0 < i < |r| ensures Full(r, limits, i) {
      if i < n {
        assert Full(packed, limits, i);
        if Fits(r[i - 1].facts + r[i].facts, limits) {
          FitsShrinks(packed[i - 1].facts + packed[i].facts, r[i - 1].facts + r[i].facts, limits);
        }
      }
    }
  }

  lemma {:induction false} PackAllIsPacked(chunks: seq<Chunk>, limits: Limits)
    ensures Packed(PackAll([], chunks, limits), limits)
  {
    if chunks != [] {
      var n := |chunks| - 1;
      PackAllIsPacked(chunks[..n], limits);
      PackStaysPacked(PackAll([], chunks[..n], limits), chunks[n], limits);
    }
  }

  /** In the plan of a class no two neighbouring chunks fit the limits together. */
  lemma {:induction false} NeighboursDoNotFit(prefix: string, facts: seq<Fact>, limits: Limits)
    requires Plannable(prefix, facts, limits)
    ensures Packed(PlanPrefix(prefix, facts, limits), limits)
    decreases Slack(prefix, facts)
  {
    var children := ChildGroups(prefix, facts);
    RecursionShrinks(prefix, facts, limits);
    if Descends(prefix, children) {
      NeighboursDoNotFit(children[0].prefix, children[0].facts, limits);
    } else if !Fits(facts, limits) {
      PackAllIsPacked(PlanChildren(children, |facts|, limits), limits);
    }
  }

  // ----- Filling in turn -----

  /** The `i`th chunk is the pieces from one cut to the next, and the piece behind them no longer fits with it. */
  ghost predicate FilledFrom(pieces: seq<Chunk>, packed: seq<Chunk>, cuts: seq<nat>, limits: Limits, i: nat)
    requires i < |packed| && |cuts| == |packed| + 1
  {
    && cuts[i] < cuts[i + 1] <= |pieces|
    && packed[i].facts == ChunkFacts(pieces[cuts[i]..cuts[i + 1]])
    && packed[i].prefixes == ChunkPrefixes(pieces[cuts[i]..cuts[i + 1]])
    && (cuts[i + 1] < |pieces| ==> !Fits(packed[i].facts + pieces[cuts[i + 1]].facts, limits))
  }

  /** The chunks take the pieces in order, each as many as fit. */
  ghost predicate Fills(pieces: seq<Chunk>, packed: seq<Chunk>, cuts: seq<nat>, limits: Limits) {
    && |cuts| == |packed| + 1 && cuts[0] == 0 && cuts[|packed|] == |pieces|
    && forall i: nat | i < |packed| :: FilledFrom(pieces, packed, cuts, limits, i)
  }

  lemma SliceOfInit<T>(s: seq<T>, from: nat, to: nat)
    requires from <= to < |s|
    ensures s[from..to] == s[..|s| - 1][from..to]
  {}

  lemma StillFilled(pieces: seq<Chunk>, packed: seq<Chunk>, cuts: seq<nat>, limits: Limits, next: seq<Chunk>,
                    later: seq<nat>, i: nat)
    requires pieces != [] && Fills(pieces[..|pieces| - 1], packed, cuts, limits)
    requires |later| == |next| + 1 && i < |next| && i < |packed| && next[i] == packed[i]
    requires later[i] == cuts[i] && later[i + 1] == cuts[i + 1]
    requires cuts[i + 1] == |pieces| - 1 ==> !Fits(packed[i].facts + pieces[|pieces| - 1].facts, limits)
    ensures FilledFrom(pieces, next, later, limits, i)
  {
    assert FilledFrom(pieces[..|pieces| - 1], packed, cuts, limits, i);
    SliceOfInit(pieces, cuts[i], cuts[i + 1]);
  }

  lemma {:induction false} CutsRise(pieces: seq<Chunk>, packed: seq<Chunk>, cuts: seq<nat>, limits: Limits, i: nat)
    requires Fills(pieces, packed, cuts, limits) && i < |packed|
    ensures cuts[i + 1] == |pieces| ==> i + 1 == |packed|
    decreases |packed| - i
  {
    if i + 1 < |packed| {
      assert FilledFrom(pieces, packed, cuts, limits, i + 1);
    }
  }

  lemma LastTakesPiece(pieces: seq<Chunk>, packed: seq<Chunk>, cuts: seq<nat>, limits: Limits)
    requires pieces != [] && Fills(pieces[..|pieces| - 1], packed, cuts, limits) && packed != []
    ensures var n := |packed|;
      Fills(pieces, packed[..n - 1] + [Merge(packed[n - 1], pieces[|pieces| - 1])], cuts[n := |pieces|], limits)
  {
    var n, init, last := |packed|, pieces[..|pieces| - 1], pieces[|pieces| - 1];
    var next, later := packed[..n - 1] + [Merge(packed[n - 1], last)], cuts[n := |pieces|];
    forall i: nat | i < n ensures FilledFrom(pieces, next, later, limits, i) {
      assert FilledFrom(init, packed, cuts, limits, i);
      if i < n - 1 {
        CutsRise(init, packed, cuts, limits, i);
        StillFilled(pieces, packed, cuts, limits, next, later, i);
      } else {
        ChunkLast(init[cuts[i]..], last);
        assert pieces[cuts[i]..|pieces|] == init[cuts[i]..] + [last] && init[cuts[i]..cuts[n]] == init[cuts[i]..];
      }
    }
  }

  lemma PieceStartsChunk(pieces: seq<Chunk>, packed: seq<Chunk>, cuts: seq<nat>, limits: Limits)
    requires pieces != [] && Fills(pieces[..|pieces| - 1], packed, cuts, limits)
    requires packed != [] ==> !Fits(packed[|packed| - 1].facts + pieces[|pieces| - 1].facts, limits)
    ensures Fills(pieces, packed + [pieces[|pieces| - 1]], cuts + [|pieces|], limits)
  {
    var n, init, last := |packed|, pieces[..|pieces| - 1], pieces[|pieces| - 1];
    forall i: nat | i < n + 1 ensures FilledFrom(pieces, packed + [last], cuts + [|pieces|], limits, i) {
      if i < n {
        CutsRise(init, packed, cuts, limits, i);
        StillFilled(pieces, packed, cuts, limits, packed + [last], cuts + [|pieces|], i);
      } else {
        ChunkLast([], last);
        assert pieces[|init|..|pieces|] == [] + [last];
      }
    }
  }

  /** One more piece joins the last chunk, or starts another. */
  lemma FillsOneMore(pieces: seq<Chunk>, packed: seq<Chunk>, cuts: seq<nat>, limits: Limits) returns (later: seq<nat>)
    requires pieces != [] && Fills(pieces[..|pieces| - 1], packed, cuts, limits)
    ensures Fills(pieces, Pack(packed, pieces[|pieces| - 1], limits), later, limits)
  {
    var n := |packed|;
    if n > 0 && Fits(packed[n - 1].facts + pieces[|pieces| - 1].facts, limits) {
      later := cuts[n := |pieces|];
      LastTakesPiece(pieces, packed, cuts, limits);
    } else {
      later := cuts + [|pieces|];
      PieceStartsChunk(pieces, packed, cuts, limits);
    }
  }

  lemma {:induction false} PackAllFills(pieces: seq<Chunk>, limits: Limits) returns (cuts: seq<nat>)
    ensures Fills(pieces, PackAll([], pieces, limits), cuts, limits)
  {
    if pieces == [] {
      cuts := [0];
    } else {
      var before := PackAllFills(pieces[..|pieces| - 1], limits);
      cuts := FillsOneMore(pieces, PackAll([], pieces[..|pieces| - 1], limits), before, limits);
    }
  }

  /** A class that must be split takes the chunks of its children in order, each chunk as many as fit. */
  lemma ChildrenFillInTurn(prefix: string, facts: seq<Fact>, limits: Limits)
    requires Plannable(prefix, facts, limits) && !Fits(facts, limits)
    requires var children := ChildGroups(prefix, facts); !Descends(prefix, children)
    ensures var children := ChildGroups(prefix, facts);
      GroupsPlannable(children, limits) && GroupsBelow(children, |facts|)
    ensures exists cuts: seq<nat> ::
      Fills(PlanChildren(ChildGroups(prefix, facts), |facts|, limits), PlanPrefix(prefix, facts, limits), cuts, limits)
  {
    RecursionShrinks(prefix, facts, limits);
    var pieces := PlanChildren(ChildGroups(prefix, facts), |facts|, limits);
    var cuts := PackAllFills(pieces, limits);
    assert PlanPrefix(prefix, facts, limits) == PackAll([], pieces, limits);
    assert Fills(pieces, PlanPrefix(prefix, facts, limits), cuts, limits);
  }

  /** What reviewing some paths reads: the handwritten ones themselves, and the sources of the others. */
  ghost function Reviewed(facts: seq<Fact>): set<string> {
    (set f | f in facts && f.generatedFrom == [] :: f.path) + (set f, u | f in facts && u in f.generatedFrom :: u)
  }

  lemma UnitsAreReviewed(facts: seq<Fact>)
    ensures UnitsOf(facts) == Reviewed(facts)
  {
    forall u | u in Reviewed(facts) ensures u in UnitsOf(facts) {
      var f :| f in facts && (if f.generatedFrom == [] then u == f.path else u in f.generatedFrom);
      assert u in Units(f);
    }
  }

  ghost predicate InLimits(paths: nat, reviewed: set<string>, limits: Limits) {
    paths <= limits.paths && |reviewed| <= limits.reviewUnits
  }

  lemma FitsIffInLimits(facts: seq<Fact>, limits: Limits)
    ensures Fits(facts, limits) <==> InLimits(|facts|, Reviewed(facts), limits)
  {
    UnitsAreReviewed(facts);
  }

  lemma ReviewedTogether(a: seq<Fact>, b: seq<Fact>)
    ensures Reviewed(a + b) == Reviewed(a) + Reviewed(b)
  {
    forall u | u in Reviewed(a) + Reviewed(b) ensures u in Reviewed(a + b) {
      var f :| f in a + b && (if f.generatedFrom == [] then u == f.path else u in f.generatedFrom);
    }
  }

  ghost predicate Keeps(r: seq<Chunk>, limits: Limits, i: nat)
    requires i < |r|
  {
    InLimits(|r[i].facts|, Reviewed(r[i].facts), limits)
  }

  ghost predicate Breaks(r: seq<Chunk>, limits: Limits, i: nat)
    requires 0 < i < |r|
  {
    !InLimits(|r[i - 1].facts| + |r[i].facts|, Reviewed(r[i - 1].facts) + Reviewed(r[i].facts), limits)
  }

  lemma NeighboursBreak(r: seq<Chunk>, limits: Limits, i: nat)
    requires 0 < i < |r| && Full(r, limits, i)
    ensures Breaks(r, limits, i)
  {
    FitsIffInLimits(r[i - 1].facts + r[i].facts, limits);
    ReviewedTogether(r[i - 1].facts, r[i].facts);
  }

  /** Chunks keep both limits, and two neighbours together break one. */
  lemma ChunksFillTheLimits(prefix: string, facts: seq<Fact>, limits: Limits)
    requires Plannable(prefix, facts, limits) && facts != []
    ensures var r := PlanPrefix(prefix, facts, limits);
      && (forall i: nat | i < |r| :: Keeps(r, limits, i))
      && (forall i: nat | 0 < i < |r| :: Breaks(r, limits, i))
  {
    var r := PlanPrefix(prefix, facts, limits);
    PlanPrefixGuarantees(prefix, facts, limits);
    NeighboursDoNotFit(prefix, facts, limits);
    forall i: nat | i < |r| ensures Keeps(r, limits, i) {
      FitsIffInLimits(r[i].facts, limits);
    }
    forall i: nat | 0 < i < |r| ensures Breaks(r, limits, i) {
      NeighboursBreak(r, limits, i);
    }
  }

  // ----- A class that fits -----

  const SEPARATORS: set<char> := {'-', '.', '/', '_'}

  /** The first separator behind the prefix, if it is not the last character of the path. */
  ghost predicate Separates(prefix: string, path: string, at: nat) {
    && |prefix| <= at < |path| - 1 && path[at] in SEPARATORS
    && forall i | |prefix| <= i < at :: path[i] !in SEPARATORS
  }

  /** A child prefix ends behind the first separator, or is the whole path if there is none before its end. */
  lemma ChildEndsAtSeparator(prefix: string, path: string)
    requires prefix <= path
    ensures forall at: nat | Separates(prefix, path, at) :: ChildPrefix(prefix, path) == path[..at + 1]
    ensures (forall at: nat :: !Separates(prefix, path, at)) ==> ChildPrefix(prefix, path) == path
  {
    var rest, n := path[|prefix|..], |prefix|;
    var first := FirstSeparator(rest);
    assert path == prefix + rest;
    assert forall i | 0 <= i < |rest| ::
      rest[i] == path[n + i] && (IsSeparator(rest[i]) <==> path[n + i] in SEPARATORS);
    if first < |rest| - 1 {
      assert Separates(prefix, path, n + first);
    }
    forall at: nat | Separates(prefix, path, at) ensures at == n + first {
      assert rest[at - n] == path[at];
    }
  }

  /** Two listed paths go on differently behind the prefix, as far as their next separators. */
  ghost predicate Branches(prefix: string, facts: seq<Fact>) {
    exists f, g | f in facts && g in facts ::
      prefix <= f.path && prefix <= g.path && ChildPrefix(prefix, f.path) != ChildPrefix(prefix, g.path)
  }

  lemma StuckBranches(prefix: string, facts: seq<Fact>, limits: Limits)
    requires Plannable(prefix, facts, limits) && |facts| > 1 && !Descends(prefix, ChildGroups(prefix, facts))
    ensures Branches(prefix, facts)
  {
    ChildrenPlannable(prefix, facts, limits);
    var groups := ChildGroups(prefix, facts);
    assert facts[0] in facts && facts[1] in facts;
    if ChildPrefix(prefix, facts[0].path) == ChildPrefix(prefix, facts[1].path) && |groups| > 1 {
      assert groups[0].facts[0] in groups[0].facts && groups[1].facts[0] in groups[1].facts;
      GroupFactsMember(groups, 0, groups[0].facts[0]);
      GroupFactsMember(groups, 1, groups[1].facts[0]);
    } else if |groups| == 1 {
      LessIrreflexive(prefix);
    }
  }

  /** The chunk of a class that fits: one prefix, at which the paths part. */
  ghost predicate WholeUnder(chunks: seq<Chunk>, prefix: string, facts: seq<Fact>) {
    && |chunks| == 1 && chunks[0].facts == facts && |chunks[0].prefixes| == 1
    && prefix <= chunks[0].prefixes[0] && Under(chunks[0].prefixes[0], facts)
    && (|facts| == 1 ==> chunks[0].prefixes[0] == prefix)
    && (|facts| > 1 ==> Branches(chunks[0].prefixes[0], facts))
  }

  /** A class that fits is one chunk, under the longest prefix that its paths share up to a separator. */
  lemma {:induction false} FittingStaysWhole(prefix: string, facts: seq<Fact>, limits: Limits)
    requires Plannable(prefix, facts, limits) && facts != [] && Fits(facts, limits)
    ensures WholeUnder(PlanPrefix(prefix, facts, limits), prefix, facts)
    decreases Slack(prefix, facts)
  {
    var children := ChildGroups(prefix, facts);
    RecursionShrinks(prefix, facts, limits);
    ChildrenPlannable(prefix, facts, limits);
    if Descends(prefix, children) {
      FittingStaysWhole(children[0].prefix, children[0].facts, limits);
    } else if |facts| > 1 {
      StuckBranches(prefix, facts, limits);
    }
  }

  // ----- The chunks of all classes -----

  /** A chunk of paths of one class. */
  ghost predicate ChunkOf(chunk: Chunk, class': seq<Fact>) {
    chunk.facts != [] && forall f | f in chunk.facts :: f in class'
  }

  lemma ChunksOfOne(facts: seq<Fact>, limits: Limits, k: nat)
    requires Plannable(PATH_ROOT, facts, limits) && facts != []
    requires k < |PlanPrefix(PATH_ROOT, facts, limits)|
    ensures ChunkOf(PlanPrefix(PATH_ROOT, facts, limits)[k], facts)
  {
    var chunks := PlanPrefix(PATH_ROOT, facts, limits);
    PlanPrefixGuarantees(PATH_ROOT, facts, limits);
    assert ChunkMatches(PrefixSet(chunks), chunks[k]);
    forall f | f in chunks[k].facts ensures f in facts {
      ChunkFactsMember(chunks, f);
    }
  }

  /** The chunks of each class. */
  function Runs(classes: seq<seq<Fact>>, limits: Limits): (runs: seq<seq<Chunk>>)
    requires ClassesPlannable(classes, limits)
    ensures |runs| == |classes|
    ensures forall i | 0 <= i < |runs| :: runs[i] == PlanPrefix(PATH_ROOT, classes[i], limits)
  {
    seq(|classes|, i requires 0 <= i < |classes| => PlanPrefix(PATH_ROOT, classes[i], limits))
  }

  function Flat(runs: seq<seq<Chunk>>): seq<Chunk> {
    if runs == [] then [] else Flat(runs[..|runs| - 1]) + runs[|runs| - 1]
  }

  lemma {:induction false} PlanIsFlat(classes: seq<seq<Fact>>, limits: Limits)
    requires ClassesPlannable(classes, limits)
    ensures PlanClasses(classes, limits) == Flat(Runs(classes, limits))
  {
    if classes != [] {
      var n := |classes| - 1;
      PlanIsFlat(classes[..n], limits);
      assert Runs(classes, limits)[..n] == Runs(classes[..n], limits);
    }
  }

  /** The `k`th chunk of all is the `a`th of the `i`th run; the one before precedes it there or in an earlier run. */
  ghost predicate Stands(runs: seq<seq<Chunk>>, all: seq<Chunk>, k: nat, i: nat, a: nat)
    requires k < |all|
  {
    && i < |runs| && a < |runs[i]| && all[k] == runs[i][a]
    && (a > 0 ==> k > 0 && all[k - 1] == runs[i][a - 1])
    && (a == 0 && k > 0 ==> exists j | 0 <= j < i :: all[k - 1] in runs[j])
  }

  lemma {:induction false} FlatStands(runs: seq<seq<Chunk>>, k: nat) returns (i: nat, a: nat)
    requires k < |Flat(runs)|
    ensures Stands(runs, Flat(runs), k, i, a)
  {
    var n := |runs| - 1;
    var before := Flat(runs[..n]);
    if k < |before| {
      i, a := FlatStands(runs[..n], k);
    } else {
      i, a := n, k - |before|;
      if k > 0 && a == 0 {
        var j, b := FlatStands(runs[..n], k - 1);
        assert Flat(runs)[k - 1] == before[k - 1] == runs[j][b];
      }
    }
  }

  /** No chunk belongs to two classes. */
  ghost predicate OneClassEach(classes: seq<seq<Fact>>) {
    forall chunk, i, j | 0 <= i < |classes| && 0 <= j < |classes| ::
      ChunkOf(chunk, classes[i]) && ChunkOf(chunk, classes[j]) ==> i == j
  }

  lemma ApartClasses(classes: seq<seq<Fact>>)
    requires PairwiseApart(classes)
    ensures OneClassEach(classes)
  {
    forall chunk, i, j | 0 <= i < |classes| && 0 <= j < |classes| &&
        ChunkOf(chunk, classes[i]) && ChunkOf(chunk, classes[j])
      ensures i == j
    {
      assert chunk.facts[0] in chunk.facts;
    }
  }

  /** Every run holds chunks of its class, and is packed. */
  ghost predicate RunsPacked(classes: seq<seq<Fact>>, runs: seq<seq<Chunk>>, limits: Limits) {
    && |runs| == |classes|
    && (forall i, chunk | 0 <= i < |runs| && chunk in runs[i] :: ChunkOf(chunk, classes[i]))
    && (forall i | 0 <= i < |runs| :: Packed(runs[i], limits))
  }

  lemma RunsArePacked(classes: seq<seq<Fact>>, limits: Limits)
    requires ClassesPlannable(classes, limits) && forall i | 0 <= i < |classes| :: classes[i] != []
    ensures RunsPacked(classes, Runs(classes, limits), limits)
  {
    var runs := Runs(classes, limits);
    forall i | 0 <= i < |runs| ensures Packed(runs[i], limits) {
      NeighboursDoNotFit(PATH_ROOT, classes[i], limits);
    }
    forall i, chunk | 0 <= i < |runs| && chunk in runs[i] ensures ChunkOf(chunk, classes[i]) {
      var k: nat :| k < |runs[i]| && runs[i][k] == chunk;
      ChunksOfOne(classes[i], limits, k);
    }
  }

  lemma PackedWithin(classes: seq<seq<Fact>>, runs: seq<seq<Chunk>>, limits: Limits, k: nat, i: nat)
    requires OneClassEach(classes) && RunsPacked(classes, runs, limits)
    requires i < |classes| && 0 < k < |Flat(runs)|
    requires ChunkOf(Flat(runs)[k - 1], classes[i]) && ChunkOf(Flat(runs)[k], classes[i])
    ensures !Fits(Flat(runs)[k - 1].facts + Flat(runs)[k].facts, limits)
  {
    var j, a := FlatStands(runs, k);
    assert ChunkOf(Flat(runs)[k], classes[j]);
    if a > 0 {
      assert Full(runs[j], limits, a);
    }
  }

  /** Within a class no two neighbouring chunks of a whole plan fit the limits together. */
  lemma ClassNeighboursDoNotFit(classes: seq<seq<Fact>>, limits: Limits, k: nat, i: nat)
    requires ClassesPlannable(classes, limits) && NonEmptyOrdered(classes) && PairwiseApart(classes)
    requires i < |classes| && 0 < k < |PlanClasses(classes, limits)|
    requires ChunkOf(PlanClasses(classes, limits)[k - 1], classes[i])
    requires ChunkOf(PlanClasses(classes, limits)[k], classes[i])
    ensures !Fits(PlanClasses(classes, limits)[k - 1].facts + PlanClasses(classes, limits)[k].facts, limits)
  {
    ApartClasses(classes);
    RunsArePacked(classes, limits);
    PlanIsFlat(classes, limits);
    PackedWithin(classes, Runs(classes, limits), limits, k, i);
  }

  // ----- Sets with a class of their own -----

  function InSet(set': string): Fact -> bool {
    (f: Fact) => f.prerequisiteSet == set'
  }

  /** Paths without prerequisites, and sets of so many paths, are not put together with others. */
  predicate Large(facts: seq<Fact>, set': string, minimum: int) {
    set' == "" || |Chosen(InSet(set'), facts)| >= minimum
  }

  lemma {:induction false} MembersAreChosen(facts: seq<Fact>, set': string)
    ensures Members(facts, set') == Chosen(InSet(set'), facts)
  {
    if facts != [] {
      MembersAreChosen(facts[..|facts| - 1], set');
    }
  }

  lemma SmallIff(facts: seq<Fact>, set': string, minimum: int)
    ensures IsSmall(SortFacts(facts), set', minimum) <==> !Large(facts, set', minimum)
  {
    var sorted := SortFacts(facts);
    var p := InSet(set');
    MembersAreChosen(sorted, set');
    forall f ensures multiset(Chosen(p, sorted))[f] == multiset(Chosen(p, facts))[f] {
      ChosenCounts(p, sorted, f);
      ChosenCounts(p, facts, f);
    }
    assert multiset(Chosen(p, sorted)) == multiset(Chosen(p, facts));
    assert |multiset(Chosen(p, sorted))| == |multiset(Chosen(p, facts))|;
  }

  /** The classes and the shared tail over some keys, by what they hold. */
  ghost predicate SplitBySize(sorted: seq<Fact>, keys: seq<string>, minimum: int) {
    var large, tail := LargeClasses(sorted, keys, minimum), Tail(sorted, keys, minimum);
    && (forall k | k in keys && !IsSmall(sorted, k, minimum) :: Members(sorted, k) in large)
    && (forall f :: f in tail <==>
          f in sorted && f.prerequisiteSet in keys && IsSmall(sorted, f.prerequisiteSet, minimum))
  }

  lemma {:induction false} KeysSplitBySize(sorted: seq<Fact>, keys: seq<string>, minimum: int)
    ensures SplitBySize(sorted, keys, minimum)
  {
    if keys != [] {
      var init, key := keys[..|keys| - 1], keys[|keys| - 1];
      assert keys == init + [key];
      KeysSplitBySize(sorted, init, minimum);
    }
  }

  /** A class that holds exactly the paths of one set. */
  ghost predicate ClassOf(class': seq<Fact>, facts: seq<Fact>, set': string) {
    forall f :: f in class' <==> f in facts && f.prerequisiteSet == set'
  }

  /** Every path without prerequisites, and every set of so many paths, has a class of its own. */
  lemma LargeSetsAreAlone(facts: seq<Fact>, set': string, minimum: int)
    requires (exists f :: f in facts && f.prerequisiteSet == set') && Large(facts, set', minimum)
    ensures exists i | 0 <= i < |Classes(facts, minimum)| :: ClassOf(Classes(facts, minimum)[i], facts, set')
  {
    var sorted := SortFacts(facts);
    SameMembers(sorted, facts);
    KeysOfFacts(sorted);
    var keys := SortedUnique(SetsOf(sorted));
    KeysSplitBySize(sorted, keys, minimum);
    SmallIff(facts, set', minimum);
    var large := LargeClasses(sorted, keys, minimum);
    var i :| 0 <= i < |large| && large[i] == Members(sorted, set');
    assert ClassOf(Classes(facts, minimum)[i], facts, set');
  }

  /** The paths of all other sets share the last class. */
  lemma SmallSetsShareTheLast(facts: seq<Fact>, minimum: int)
    requires exists f :: f in facts && !Large(facts, f.prerequisiteSet, minimum)
    ensures var classes := Classes(facts, minimum);
      && classes != []
      && forall f :: f in classes[|classes| - 1] <==> f in facts && !Large(facts, f.prerequisiteSet, minimum)
  {
    var sorted := SortFacts(facts);
    SameMembers(sorted, facts);
    KeysOfFacts(sorted);
    var keys := SortedUnique(SetsOf(sorted));
    KeysSplitBySize(sorted, keys, minimum);
    var tail := Tail(sorted, keys, minimum);
    forall f ensures f in tail <==> f in facts && !Large(facts, f.prerequisiteSet, minimum) {
      SmallIff(facts, f.prerequisiteSet, minimum);
    }
    SameMembers(SortFacts(tail), tail);
  }

  // ----- The order of the classes -----

  lemma {:induction false} LargeIsOfKey(sorted: seq<Fact>, keys: seq<string>, minimum: int, i: nat, f: Fact)
    requires i < |LargeClasses(sorted, keys, minimum)| && f in LargeClasses(sorted, keys, minimum)[i]
    ensures f.prerequisiteSet in keys && !IsSmall(sorted, f.prerequisiteSet, minimum)
  {
    var n := |keys| - 1;
    if i < |LargeClasses(sorted, keys[..n], minimum)| {
      LargeIsOfKey(sorted, keys[..n], minimum, i, f);
    }
  }

  lemma {:induction false} LargeInOrder(sorted: seq<Fact>, keys: seq<string>, minimum: int, i: nat, j: nat, f: Fact,
                                        g: Fact)
    requires Ascending(keys) && i < j < |LargeClasses(sorted, keys, minimum)|
    requires f in LargeClasses(sorted, keys, minimum)[i] && g in LargeClasses(sorted, keys, minimum)[j]
    ensures Less(f.prerequisiteSet, g.prerequisiteSet)
  {
    var n := |keys| - 1;
    var before := LargeClasses(sorted, keys[..n], minimum);
    if j < |before| {
      LargeInOrder(sorted, keys[..n], minimum, i, j, f, g);
    } else {
      LargeIsOfKey(sorted, keys[..n], minimum, i, f);
      var k :| 0 <= k < n && keys[k] == f.prerequisiteSet;
      assert Less(keys[k], keys[n]);
    }
  }

  /** Classes of one set follow each other in the order of their sets; the shared class is behind them. */
  lemma ClassesInOrder(facts: seq<Fact>, minimum: int, i: nat, j: nat, f: Fact, g: Fact)
    requires i < j < |Classes(facts, minimum)|
    requires f in Classes(facts, minimum)[i] && g in Classes(facts, minimum)[j]
    ensures Large(facts, f.prerequisiteSet, minimum)
    ensures Large(facts, g.prerequisiteSet, minimum) ==> Less(f.prerequisiteSet, g.prerequisiteSet)
  {
    var sorted := SortFacts(facts);
    var keys := SortedUnique(SetsOf(sorted));
    var large, tail := LargeClasses(sorted, keys, minimum), Tail(sorted, keys, minimum);
    LargeIsOfKey(sorted, keys, minimum, i, f);
    SmallIff(facts, f.prerequisiteSet, minimum);
    if j < |large| {
      LargeInOrder(sorted, keys, minimum, i, j, f, g);
    } else {
      TailIsSmall(sorted, keys, minimum, g);
      SmallIff(facts, g.prerequisiteSet, minimum);
    }
  }

  lemma TailIsSmall(sorted: seq<Fact>, keys: seq<string>, minimum: int, g: Fact)
    requires g in SortFacts(Tail(sorted, keys, minimum))
    ensures IsSmall(sorted, g.prerequisiteSet, minimum)
  {
    SameMembers(SortFacts(Tail(sorted, keys, minimum)), Tail(sorted, keys, minimum));
    KeysSplitBySize(sorted, keys, minimum);
  }

  // ----- Selectors -----

  /** A selector lists its chunk's prefixes in order, and the sets of its paths once each in order. */
  lemma SelectorsListTheirChunks(chunks: seq<Chunk>, i: nat)
    requires i < |chunks|
    ensures |SelectorsOf(chunks)| == |chunks|
    ensures var s := SelectorsOf(chunks)[i];
      && s.prefixes == chunks[i].prefixes && Ascending(s.prerequisiteSets)
      && (forall set' :: set' in s.prerequisiteSets <==> exists f :: f in chunks[i].facts && f.prerequisiteSet == set')
      && exists digits :: s.id == "observation-batch-" + digits && Writes(digits, i + 1)
  {
    BatchIdNumber(i);
    var facts, s := chunks[i].facts, SelectorsOf(chunks)[i];
    forall set' ensures set' in s.prerequisiteSets <==> exists f :: f in facts && f.prerequisiteSet == set' {
      if f :| f in facts && f.prerequisiteSet == set' {
        var k :| 0 <= k < |facts| && facts[k] == f;
        assert SetsOf(facts)[k] == set';
      }
    }
  }
}
