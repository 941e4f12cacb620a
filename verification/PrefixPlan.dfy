/**
 `planPrefix`: the recursive split of one class of paths and the packing of neighbouring
 chunks, with what every plan guarantees (`Planned`) and exactly when planning finishes.
 */
module PrefixPlan {
  import opened CodeUnits
  import opened BatchPlan

  // ----- Chunk lists -----

  function ChunkFacts(chunks: seq<Chunk>): seq<Fact> {
    if chunks == [] then [] else ChunkFacts(chunks[..|chunks| - 1]) + chunks[|chunks| - 1].facts
  }

  function ChunkPrefixes(chunks: seq<Chunk>): seq<string> {
    if chunks == [] then [] else ChunkPrefixes(chunks[..|chunks| - 1]) + chunks[|chunks| - 1].prefixes
  }

  lemma {:induction false} ChunkFactsMember(chunks: seq<Chunk>, f: Fact)
    ensures f in ChunkFacts(chunks) <==> exists i | 0 <= i < |chunks| :: f in chunks[i].facts
  {
    if chunks != [] {
      var n := |chunks| - 1;
      ChunkFactsMember(chunks[..n], f);
      assert forall i | 0 <= i < n :: chunks[..n][i] == chunks[i];
    }
  }

  lemma {:induction false} ChunkPrefixesMember(chunks: seq<Chunk>, p: string)
    ensures p in ChunkPrefixes(chunks) <==> exists i | 0 <= i < |chunks| :: p in chunks[i].prefixes
  {
    if chunks != [] {
      var n := |chunks| - 1;
      ChunkPrefixesMember(chunks[..n], p);
      assert forall i | 0 <= i < n :: chunks[..n][i] == chunks[i];
    }
  }

  lemma ChunkConcat(a: seq<Chunk>, b: seq<Chunk>)
    ensures ChunkFacts(a + b) == ChunkFacts(a) + ChunkFacts(b)
    ensures ChunkPrefixes(a + b) == ChunkPrefixes(a) + ChunkPrefixes(b)
  {
    ChunkFactsConcat(a, b);
    ChunkPrefixesConcat(a, b);
  }

  lemma {:induction false} ChunkFactsConcat(a: seq<Chunk>, b: seq<Chunk>)
    ensures ChunkFacts(a + b) == ChunkFacts(a) + ChunkFacts(b)
    decreases |b|
  {
    if b == [] {
      assert a + b == a;
    } else {
      var init, last := b[..|b| - 1], b[|b| - 1];
      ChunkFactsConcat(a, init);
      assert (a + b)[..|a + b| - 1] == a + init;
      ConcatAssociates(ChunkFacts(a), ChunkFacts(init), last.facts);
    }
  }

  lemma {:induction false} ChunkPrefixesConcat(a: seq<Chunk>, b: seq<Chunk>)
    ensures ChunkPrefixes(a + b) == ChunkPrefixes(a) + ChunkPrefixes(b)
    decreases |b|
  {
    if b == [] {
      assert a + b == a;
    } else {
      var init, last := b[..|b| - 1], b[|b| - 1];
      ChunkPrefixesConcat(a, init);
      assert (a + b)[..|a + b| - 1] == a + init;
      ConcatAssociates(ChunkPrefixes(a), ChunkPrefixes(init), last.prefixes);
    }
  }

  lemma ConcatAssociates<T>(a: seq<T>, b: seq<T>, c: seq<T>)
    ensures a + b + c == a + (b + c)
  {}

  lemma ChunkLast(chunks: seq<Chunk>, chunk: Chunk)
    ensures ChunkFacts(chunks + [chunk]) == ChunkFacts(chunks) + chunk.facts
    ensures ChunkPrefixes(chunks + [chunk]) == ChunkPrefixes(chunks) + chunk.prefixes
  {
    assert (chunks + [chunk])[..|chunks|] == chunks;
  }

  // ----- Longest match -----

  /** `p` is the strictly longest of `all` that `path` starts with. */
  ghost predicate LongestMatch(all: set<string>, path: string, p: string) {
    p in all && p <= path && forall q | q in all && q <= path :: q == p || |q| < |p|
  }

  lemma LongestMatchUnique(all: set<string>, path: string, p: string, q: string)
    requires LongestMatch(all, path, p) && LongestMatch(all, path, q)
    ensures p == q
  {}

  ghost function PrefixSet(chunks: seq<Chunk>): set<string> {
    set p | p in ChunkPrefixes(chunks)
  }

  ghost predicate Claimed(all: set<string>, path: string, prefixes: seq<string>) {
    exists p :: p in prefixes && LongestMatch(all, path, p)
  }

  ghost predicate Used(all: set<string>, p: string, facts: seq<Fact>) {
    exists f :: f in facts && LongestMatch(all, f.path, p)
  }

  /** Each fact's longest match lies in its own chunk, and each prefix is some fact's longest match. */
  ghost predicate ChunkMatches(all: set<string>, chunk: Chunk) {
    && chunk.facts != [] && chunk.prefixes != []
    && (forall f | f in chunk.facts :: Claimed(all, f.path, chunk.prefixes))
    && (forall p | p in chunk.prefixes :: Used(all, p, chunk.facts))
  }

  ghost predicate EachMatches(all: set<string>, chunks: seq<Chunk>) {
    forall i | 0 <= i < |chunks| :: ChunkMatches(all, chunks[i])
  }

  ghost predicate AllFit(chunks: seq<Chunk>, limits: Limits) {
    forall i | 0 <= i < |chunks| :: Fits(chunks[i].facts, limits)
  }

  // ----- Packing -----

  function Merge(a: Chunk, b: Chunk): Chunk {
    Chunk(a.facts + b.facts, a.prefixes + b.prefixes)
  }

  /** Merge a chunk into its left neighbour while the union fits, else start a new one. */
  function Pack(packed: seq<Chunk>, chunk: Chunk, limits: Limits): seq<Chunk> {
    var n := |packed|;
    if n > 0 && Fits(packed[n - 1].facts + chunk.facts, limits) then
      packed[..n - 1] + [Merge(packed[n - 1], chunk)]
    else
      packed + [chunk]
  }

  function PackAll(packed: seq<Chunk>, chunks: seq<Chunk>, limits: Limits): seq<Chunk> {
    if chunks == [] then packed
    else Pack(PackAll(packed, chunks[..|chunks| - 1], limits), chunks[|chunks| - 1], limits)
  }

  lemma {:induction false} PackAllConcat(packed: seq<Chunk>, a: seq<Chunk>, b: seq<Chunk>, limits: Limits)
    ensures PackAll(packed, a + b, limits) == PackAll(PackAll(packed, a, limits), b, limits)
    decreases |b|
  {
    if b == [] {
      assert a + b == a;
    } else {
      var n := |b| - 1;
      assert (a + b)[..|a + b| - 1] == a + b[..n];
      PackAllConcat(packed, a, b[..n], limits);
    }
  }

  lemma PackContents(packed: seq<Chunk>, chunk: Chunk, limits: Limits)
    ensures var r := Pack(packed, chunk, limits);
      && ChunkFacts(r) == ChunkFacts(packed) + chunk.facts
      && ChunkPrefixes(r) == ChunkPrefixes(packed) + chunk.prefixes
  {
    var n := |packed|;
    if n > 0 && Fits(packed[n - 1].facts + chunk.facts, limits) {
      var last := packed[n - 1];
      ChunkLast(packed[..n - 1], last);
      assert packed == packed[..n - 1] + [last];
      ChunkLast(packed[..n - 1], Merge(last, chunk));
    } else {
      ChunkLast(packed, chunk);
    }
  }

  lemma PackFits(packed: seq<Chunk>, chunk: Chunk, limits: Limits)
    requires AllFit(packed, limits) && Fits(chunk.facts, limits)
    ensures AllFit(Pack(packed, chunk, limits), limits)
  {
    var r, n := Pack(packed, chunk, limits), |packed|;
    forall i | 0 <= i < |r| ensures Fits(r[i].facts, limits) {
      if i < |r| - 1 {
        assert r[i] == packed[i];
      }
    }
  }

  lemma PackMatches(packed: seq<Chunk>, chunk: Chunk, limits: Limits, all: set<string>)
    requires EachMatches(all, packed) && ChunkMatches(all, chunk)
    ensures EachMatches(all, Pack(packed, chunk, limits))
  {
    if packed != [] {
      MergeMatches(all, packed[|packed| - 1], chunk);
      EachMatchesAppend(all, packed[..|packed| - 1], Merge(packed[|packed| - 1], chunk));
    }
    EachMatchesAppend(all, packed, chunk);
  }

  lemma EachMatchesAppend(all: set<string>, chunks: seq<Chunk>, chunk: Chunk)
    requires EachMatches(all, chunks) && ChunkMatches(all, chunk)
    ensures EachMatches(all, chunks + [chunk])
  {}

  lemma MergeMatches(all: set<string>, a: Chunk, b: Chunk)
    requires ChunkMatches(all, a) && ChunkMatches(all, b)
    ensures ChunkMatches(all, Merge(a, b))
  {
    forall f | f in a.facts + b.facts ensures Claimed(all, f.path, a.prefixes + b.prefixes) {
      var own := if f in a.facts then a else b;
      assert Claimed(all, f.path, own.prefixes);
      var p :| p in own.prefixes && LongestMatch(all, f.path, p);
      assert p in a.prefixes + b.prefixes;
    }
    forall p | p in a.prefixes + b.prefixes ensures Used(all, p, a.facts + b.facts) {
      var own := if p in a.prefixes then a else b;
      assert Used(all, p, own.facts);
      var f :| f in own.facts && LongestMatch(all, f.path, p);
      assert f in a.facts + b.facts;
    }
  }

  lemma {:induction false} PackAllKeeps(chunks: seq<Chunk>, limits: Limits, all: set<string>)
    requires AllFit(chunks, limits) && EachMatches(all, chunks)
    ensures var r := PackAll([], chunks, limits);
      && AllFit(r, limits) && EachMatches(all, r)
      && ChunkFacts(r) == ChunkFacts(chunks)
      && ChunkPrefixes(r) == ChunkPrefixes(chunks)
  {
    if chunks != [] {
      var n := |chunks| - 1;
      PackAllKeeps(chunks[..n], limits, all);
      var before := PackAll([], chunks[..n], limits);
      PackContents(before, chunks[n], limits);
      PackFits(before, chunks[n], limits);
      PackMatches(before, chunks[n], limits, all);
    }
  }

  // ----- The recursion -----

  /** What the planner needs of its input: distinct sorted paths that each fit alone. */
  ghost predicate Plannable(prefix: string, facts: seq<Fact>, limits: Limits) {
    && Ordered(facts) && Under(prefix, facts)
    && forall f | f in facts :: Fits([f], limits)
  }

  function LongestPath(facts: seq<Fact>): (n: nat)
    ensures forall f | f in facts :: |f.path| <= n
  {
    if facts == [] then 0
    else
      var rest := LongestPath(facts[..|facts| - 1]);
      assert forall f | f in facts :: f in facts[..|facts| - 1] || f == facts[|facts| - 1];
      if rest < |facts[|facts| - 1].path| then |facts[|facts| - 1].path| else rest
  }

  /** How much longer than `prefix` the paths still are. */
  function Slack(prefix: string, facts: seq<Fact>): nat
    requires Under(prefix, facts)
  {
    if facts == [] then 0
    else
      assert facts[0] in facts;
      assert |prefix| <= |facts[0].path| <= LongestPath(facts);
      LongestPath(facts) - |prefix|
  }

  /** A lone child group with a longer prefix is planned in place of its parent. */
  predicate Descends(prefix: string, groups: seq<Group>) {
    |groups| == 1 && groups[0].prefix != prefix && |groups[0].facts| > 1
  }

  /** Every group can be planned and is smaller than `size`. */
  ghost predicate GroupsPlannable(groups: seq<Group>, limits: Limits) {
    forall i | 0 <= i < |groups| :: Plannable(groups[i].prefix, groups[i].facts, limits)
  }

  ghost predicate GroupsBelow(groups: seq<Group>, size: nat) {
    forall i | 0 <= i < |groups| :: |groups[i].facts| < size
  }

  lemma GroupPlannable(groups: seq<Group>, i: nat, limits: Limits)
    requires i < |groups| && Ordered(GroupFacts(groups)) && Under(groups[i].prefix, groups[i].facts)
    requires forall f | f in GroupFacts(groups) :: Fits([f], limits)
    ensures Plannable(groups[i].prefix, groups[i].facts, limits)
  {
    GroupsOrdered(groups, i);
    forall f | f in groups[i].facts ensures Fits([f], limits) {
      GroupFactsMember(groups, i, f);
    }
  }

  lemma LoneGroup(prefix: string, facts: seq<Fact>, groups: seq<Group>)
    requires GroupsSplit(prefix, facts, groups) && |groups| == 1
    ensures groups[0].facts == facts && prefix <= groups[0].prefix
  {
    GroupUnder(prefix, facts, groups, 0);
    assert GroupFacts(groups[..0]) == [];
    assert GroupFacts(groups) == groups[0].facts;
  }

  lemma ChildrenPlannable(prefix: string, facts: seq<Fact>, limits: Limits)
    requires Plannable(prefix, facts, limits)
    ensures var groups := ChildGroups(prefix, facts);
      && GroupsSplit(prefix, facts, groups)
      && GroupsPlannable(groups, limits)
      && (|groups| == 1 ==> groups[0].facts == facts && prefix <= groups[0].prefix)
  {
    ChildGroupsSplit(prefix, facts);
    var groups := ChildGroups(prefix, facts);
    forall i | 0 <= i < |groups| ensures Plannable(groups[i].prefix, groups[i].facts, limits) {
      GroupUnder(prefix, facts, groups, i);
      GroupPlannable(groups, i, limits);
    }
    if |groups| == 1 {
      LoneGroup(prefix, facts, groups);
    }
  }

  lemma GroupUnder(prefix: string, facts: seq<Fact>, groups: seq<Group>, i: nat)
    requires GroupsSplit(prefix, facts, groups) && i < |groups|
    ensures Under(groups[i].prefix, groups[i].facts) && prefix <= groups[i].prefix
  {
    assert groups[i].facts[0] in groups[i].facts;
  }

  lemma SeveralGroupsShrink(groups: seq<Group>, facts: seq<Fact>)
    requires GroupFacts(groups) == facts && |groups| != 1
    requires forall i | 0 <= i < |groups| :: groups[i].facts != []
    ensures GroupsBelow(groups, |facts|)
  {
    forall i | 0 <= i < |groups| ensures |groups[i].facts| < |facts| {
      GroupSize(groups, i);
    }
  }

  lemma LongerPrefixShrinks(prefix: string, longer: string, facts: seq<Fact>)
    requires prefix < longer && facts != [] && Under(prefix, facts) && Under(longer, facts)
    ensures Slack(longer, facts) < Slack(prefix, facts)
  {
    assert facts[0] in facts;
  }

  lemma DescentShrinks(prefix: string, facts: seq<Fact>, groups: seq<Group>, limits: Limits)
    requires Under(prefix, facts) && GroupsPlannable(groups, limits) && Descends(prefix, groups)
    requires groups[0].facts == facts && prefix <= groups[0].prefix
    ensures Slack(groups[0].prefix, groups[0].facts) < Slack(prefix, facts)
  {
    LongerPrefixShrinks(prefix, groups[0].prefix, facts);
  }

  /** Descending keeps the paths and lengthens the prefix; splitting gives smaller groups. */
  lemma RecursionShrinks(prefix: string, facts: seq<Fact>, limits: Limits)
    requires Plannable(prefix, facts, limits)
    ensures var groups := ChildGroups(prefix, facts);
      && GroupsPlannable(groups, limits)
      && (Descends(prefix, groups) ==>
            && groups[0].facts == facts
            && Slack(groups[0].prefix, groups[0].facts) < Slack(prefix, facts))
      && (!Descends(prefix, groups) && !Fits(facts, limits) ==> GroupsBelow(groups, |facts|))
  {
    ChildrenPlannable(prefix, facts, limits);
    var groups := ChildGroups(prefix, facts);
    if Descends(prefix, groups) {
      DescentShrinks(prefix, facts, groups, limits);
    } else if |groups| == 1 {
      LoneGroupFits(prefix, facts, limits);
    } else {
      SeveralGroupsShrink(groups, facts);
    }
  }

  lemma LoneGroupFits(prefix: string, facts: seq<Fact>, limits: Limits)
    requires Plannable(prefix, facts, limits)
    requires |ChildGroups(prefix, facts)| == 1 && !Descends(prefix, ChildGroups(prefix, facts))
    ensures Fits(facts, limits)
  {
    ChildrenPlannable(prefix, facts, limits);
    assert facts[0] in facts;
    if |facts| == 1 {
      assert facts == [facts[0]];
    } else {
      assert facts[1] in facts && ChildPrefix(prefix, facts[1].path) == prefix;
      assert ChildPrefix(prefix, facts[0].path) == prefix;
      LessIrreflexive(prefix);
      assert false;
    }
  }

  function PlanPrefix(prefix: string, facts: seq<Fact>, limits: Limits): seq<Chunk>
    requires Plannable(prefix, facts, limits)
    decreases |facts|, 1 + Slack(prefix, facts), 0
  {
    var children := ChildGroups(prefix, facts);
    RecursionShrinks(prefix, facts, limits);
    if Descends(prefix, children) then
      PlanPrefix(children[0].prefix, children[0].facts, limits)
    else if Fits(facts, limits) then [Chunk(facts, [prefix])]
    else PackAll([], PlanChildren(children, |facts|, limits), limits)
  }

  /** The chunks of all children in order, before they are packed. */
  function PlanChildren(children: seq<Group>, size: nat, limits: Limits): seq<Chunk>
    requires GroupsPlannable(children, limits) && GroupsBelow(children, size)
    decreases size, 0, |children|
  {
    if children == [] then []
    else
      var n := |children| - 1;
      PlanChildren(children[..n], size, limits) + PlanPrefix(children[n].prefix, children[n].facts, limits)
  }

  method ComputePlanPrefix(prefix: string, facts: seq<Fact>, limits: Limits) returns (packed: seq<Chunk>)
    requires Plannable(prefix, facts, limits)
    ensures packed == PlanPrefix(prefix, facts, limits)
    decreases |facts|, 1 + Slack(prefix, facts)
  {
    RecursionShrinks(prefix, facts, limits);
    var children := ComputeChildGroups(prefix, facts);
    if |children| == 1 && children[0].prefix != prefix && |children[0].facts| > 1 {
      packed := ComputePlanPrefix(children[0].prefix, children[0].facts, limits);
      return;
    }
    var units := ReviewUnits(facts);
    if |facts| <= limits.paths && units <= limits.reviewUnits {
      return [Chunk(facts, [prefix])];
    }
    packed := ComputePackedChildren(children, |facts|, limits);
  }

  /** The outer packing loop: append every child's chunks in order. */
  method ComputePackedChildren(children: seq<Group>, ghost size: nat, limits: Limits)
    returns (packed: seq<Chunk>)
    requires GroupsPlannable(children, limits) && GroupsBelow(children, size)
    ensures packed == PackAll([], PlanChildren(children, size, limits), limits)
    decreases size, 0
  {
    packed := [];
    for i := 0 to |children|
      invariant packed == PackAll([], PlanChildren(children[..i], size, limits), limits)
    {
      var planned := ComputePlanPrefix(children[i].prefix, children[i].facts, limits);
      ghost var before := PlanChildren(children[..i], size, limits);
      PlanChildrenStep(children, i, size, limits);
      PackAllConcat([], before, planned, limits);
      packed := ComputePackAll(packed, planned, limits);
    }
    assert children[..|children|] == children;
  }

  lemma PlanChildrenStep(children: seq<Group>, i: nat, size: nat, limits: Limits)
    requires GroupsPlannable(children, limits) && GroupsBelow(children, size) && i < |children|
    ensures PlanChildren(children[..i + 1], size, limits)
         == PlanChildren(children[..i], size, limits) + PlanPrefix(children[i].prefix, children[i].facts, limits)
  {
    assert children[..i + 1][..i] == children[..i];
  }

  /** The inner packing loop: append one child's chunks to the packed list. */
  method ComputePackAll(before: seq<Chunk>, planned: seq<Chunk>, limits: Limits) returns (packed: seq<Chunk>)
    ensures packed == PackAll(before, planned, limits)
  {
    packed := before;
    for k := 0 to |planned|
      invariant packed == PackAll(before, planned[..k], limits)
    {
      assert planned[..k + 1][..k] == planned[..k];
      packed := ComputePack(packed, planned[k], limits);
    }
    assert planned[..|planned|] == planned;
  }

  method ComputePack(packed: seq<Chunk>, chunk: Chunk, limits: Limits) returns (r: seq<Chunk>)
    ensures r == Pack(packed, chunk, limits)
  {
    r := packed;
    var n := |packed|;
    if n > 0 {
      var merged := packed[n - 1].facts + chunk.facts;
      var units := ReviewUnits(merged);
      if |merged| <= limits.paths && units <= limits.reviewUnits {
        r := packed[n - 1 := Chunk(merged, packed[n - 1].prefixes + chunk.prefixes)];
        return;
      }
    }
    r := r + [chunk];
  }
}
