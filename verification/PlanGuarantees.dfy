/**
 What one planned class guarantees: its chunks list the paths in order, fit the limits, and
 their prefixes are distinct and select, by longest match, exactly their own chunk's paths.
 */
module PlanGuarantees {
  import opened Basics
  import opened CodeUnits
  import opened BatchPlan
  import opened PrefixPlan

  /** `q` extends `prefix` and some listed path starts with it. */
  ghost predicate Reaches(prefix: string, facts: seq<Fact>, q: string) {
    prefix <= q && exists g :: g in facts && q <= g.path
  }

  ghost predicate Planned(prefix: string, facts: seq<Fact>, limits: Limits, chunks: seq<Chunk>) {
    && ChunkFacts(chunks) == facts
    && AllFit(chunks, limits)
    && EachMatches(PrefixSet(chunks), chunks)
    && Distinct(ChunkPrefixes(chunks))
    && forall q | q in ChunkPrefixes(chunks) :: Reaches(prefix, facts, q)
  }

  ghost predicate ReachesSome(children: seq<Group>, q: string) {
    exists j :: 0 <= j < |children| && Reaches(children[j].prefix, children[j].facts, q)
  }

  /** The longest match of `path` extends `prefix`. */
  ghost predicate MatchesBeyond(all: set<string>, path: string, prefix: string) {
    exists p :: LongestMatch(all, path, p) && prefix <= p
  }

  ghost predicate ChildrenPlanned(children: seq<Group>, limits: Limits, chunks: seq<Chunk>) {
    && ChunkFacts(chunks) == GroupFacts(children)
    && AllFit(chunks, limits)
    && EachMatches(PrefixSet(chunks), chunks)
    && Distinct(ChunkPrefixes(chunks))
    && (forall q | q in ChunkPrefixes(chunks) :: ReachesSome(children, q))
    && (forall i, f | 0 <= i < |children| && f in children[i].facts ::
          MatchesBeyond(PrefixSet(chunks), f.path, children[i].prefix))
  }

  /** What one child's prefixes match of another child's path is shorter than that child's prefix. */
  ghost predicate Separated(children: seq<Group>) {
    forall i, j, f, q | 0 <= i < |children| && 0 <= j < |children| && i != j && f in children[i].facts ::
      Reaches(children[j].prefix, children[j].facts, q) && q <= f.path ==> |q| < |children[i].prefix|
  }

  lemma SplitIsSeparated(prefix: string, facts: seq<Fact>, children: seq<Group>)
    requires GroupsSplit(prefix, facts, children)
    ensures Separated(children)
  {
    forall i, j, f, q | 0 <= i < |children| && 0 <= j < |children| && i != j && f in children[i].facts
        && Reaches(children[j].prefix, children[j].facts, q) && q <= f.path
      ensures |q| < |children[i].prefix|
    {
      var g :| g in children[j].facts && q <= g.path;
      assert children[i].prefix != children[j].prefix;
      SiblingsSeparate(prefix, f.path, g.path, q);
    }
  }

  /** Shorter foreign prefixes do not disturb a longest match. */
  lemma WidenMatch(mine: set<string>, others: set<string>, path: string, p: string)
    requires LongestMatch(mine, path, p)
    requires forall q | q in others && q <= path :: |q| < |p|
    ensures LongestMatch(mine + others, path, p)
  {}

  lemma WidenChunk(mine: set<string>, all: set<string>, chunk: Chunk)
    requires ChunkMatches(mine, chunk)
    requires forall f, p | f in chunk.facts && LongestMatch(mine, f.path, p) :: LongestMatch(all, f.path, p)
    ensures ChunkMatches(all, chunk)
  {
    forall f | f in chunk.facts ensures Claimed(all, f.path, chunk.prefixes) {
      assert Claimed(mine, f.path, chunk.prefixes);
      var p :| p in chunk.prefixes && LongestMatch(mine, f.path, p);
      assert LongestMatch(all, f.path, p);
    }
    forall p | p in chunk.prefixes ensures Used(all, p, chunk.facts) {
      assert Used(mine, p, chunk.facts);
      var f :| f in chunk.facts && LongestMatch(mine, f.path, p);
      assert LongestMatch(all, f.path, p);
    }
  }

  lemma WidenChunks(mine: set<string>, all: set<string>, chunks: seq<Chunk>)
    requires EachMatches(mine, chunks)
    requires forall f, p | f in ChunkFacts(chunks) && LongestMatch(mine, f.path, p) :: LongestMatch(all, f.path, p)
    ensures EachMatches(all, chunks)
  {
    forall i | 0 <= i < |chunks| ensures ChunkMatches(all, chunks[i]) {
      forall f, p | f in chunks[i].facts && LongestMatch(mine, f.path, p) ensures LongestMatch(all, f.path, p) {
        ChunkFactsMember(chunks, f);
      }
      WidenChunk(mine, all, chunks[i]);
    }
  }

  /** Every prefix of matching chunks is the longest match of one of their facts. */
  lemma PrefixIsUsed(chunks: seq<Chunk>, p: string)
    requires EachMatches(PrefixSet(chunks), chunks) && p in ChunkPrefixes(chunks)
    ensures Used(PrefixSet(chunks), p, ChunkFacts(chunks))
  {
    ChunkPrefixesMember(chunks, p);
    var i :| 0 <= i < |chunks| && p in chunks[i].prefixes;
    assert ChunkMatches(PrefixSet(chunks), chunks[i]);
    assert Used(PrefixSet(chunks), p, chunks[i].facts);
    var f :| f in chunks[i].facts && LongestMatch(PrefixSet(chunks), f.path, p);
    ChunkFactsMember(chunks, f);
  }

  // ----- One more child -----

  /** The premises of adding a planned child `last` to already planned siblings `init`. */
  ghost predicate Extension(init: seq<Group>, last: Group, limits: Limits, left: seq<Chunk>, right: seq<Chunk>) {
    && ChildrenPlanned(init, limits, left)
    && Planned(last.prefix, last.facts, limits, right)
    && Separated(init + [last])
  }

  lemma OldMatchesStay(init: seq<Group>, last: Group, limits: Limits, left: seq<Chunk>, right: seq<Chunk>,
                       i: nat, f: Fact, p: string)
    requires Extension(init, last, limits, left, right)
    requires i < |init| && f in init[i].facts && LongestMatch(PrefixSet(left), f.path, p)
    ensures LongestMatch(PrefixSet(left) + PrefixSet(right), f.path, p)
    ensures init[i].prefix <= p
  {
    assert MatchesBeyond(PrefixSet(left), f.path, init[i].prefix);
    forall q | q in PrefixSet(right) && q <= f.path ensures |q| < |init[i].prefix| {
      LastPrefixIsShort(init, last, i, f, q);
    }
    OldMatchBeyond(init[i].prefix, PrefixSet(left), PrefixSet(right), f, p);
  }

  lemma LastPrefixIsShort(init: seq<Group>, last: Group, i: nat, f: Fact, q: string)
    requires Separated(init + [last]) && i < |init| && f in init[i].facts
    requires Reaches(last.prefix, last.facts, q) && q <= f.path
    ensures |q| < |init[i].prefix|
  {
    var groups := init + [last];
    assert groups[i] == init[i] && groups[|init|] == last;
  }

  lemma OldMatchBeyond(prefix: string, left: set<string>, right: set<string>, f: Fact, p: string)
    requires MatchesBeyond(left, f.path, prefix) && LongestMatch(left, f.path, p)
    requires forall q | q in right && q <= f.path :: |q| < |prefix|
    ensures LongestMatch(left + right, f.path, p)
    ensures prefix <= p
  {
    var own :| LongestMatch(left, f.path, own) && prefix <= own;
    LongestMatchUnique(left, f.path, p, own);
    WidenMatch(left, right, f.path, p);
  }

  lemma OldPrefixIsShort(init: seq<Group>, last: Group, limits: Limits, left: seq<Chunk>, right: seq<Chunk>,
                         f: Fact, q: string)
    requires Extension(init, last, limits, left, right)
    requires f in last.facts && q in PrefixSet(left) && q <= f.path
    ensures |q| < |last.prefix|
  {
    var groups := init + [last];
    assert ReachesSome(init, q);
    var j :| 0 <= j < |init| && Reaches(init[j].prefix, init[j].facts, q);
    assert groups[j] == init[j] && groups[|init|] == last;
  }

  lemma NewMatchesStay(init: seq<Group>, last: Group, limits: Limits, left: seq<Chunk>, right: seq<Chunk>,
                       f: Fact, p: string)
    requires Extension(init, last, limits, left, right)
    requires f in last.facts && LongestMatch(PrefixSet(right), f.path, p)
    ensures LongestMatch(PrefixSet(left) + PrefixSet(right), f.path, p)
    ensures last.prefix <= p
  {
    assert Reaches(last.prefix, last.facts, p);
    forall q | q in PrefixSet(left) && q <= f.path ensures |q| < |p| {
      OldPrefixIsShort(init, last, limits, left, right, f, q);
    }
    WidenMatch(PrefixSet(right), PrefixSet(left), f.path, p);
    assert PrefixSet(right) + PrefixSet(left) == PrefixSet(left) + PrefixSet(right);
  }

  lemma NoSharedPrefix(init: seq<Group>, last: Group, limits: Limits, left: seq<Chunk>, right: seq<Chunk>,
                       p: string)
    requires Extension(init, last, limits, left, right)
    ensures !(p in ChunkPrefixes(left) && p in ChunkPrefixes(right))
  {
    if p in ChunkPrefixes(left) && p in ChunkPrefixes(right) {
      PrefixIsUsed(right, p);
      var f :| f in ChunkFacts(right) && LongestMatch(PrefixSet(right), f.path, p);
      OldPrefixIsShort(init, last, limits, left, right, f, p);
      assert false;
    }
  }

  lemma DistinctConcat<T>(a: seq<T>, b: seq<T>)
    requires Distinct(a) && Distinct(b)
    requires forall x | x in a :: x !in b
    ensures Distinct(a + b)
  {
    var s := a + b;
    forall i, j | 0 <= i < j < |s| ensures s[i] != s[j] {
      if i < |a| <= j {
        assert s[i] in a && s[j] in b;
      }
    }
  }

  lemma ExtendPrefixes(init: seq<Group>, last: Group, limits: Limits, left: seq<Chunk>, right: seq<Chunk>)
    requires Extension(init, last, limits, left, right)
    ensures Distinct(ChunkPrefixes(left + right))
    ensures PrefixSet(left + right) == PrefixSet(left) + PrefixSet(right)
  {
    ChunkConcat(left, right);
    forall p | p in ChunkPrefixes(left) ensures p !in ChunkPrefixes(right) {
      NoSharedPrefix(init, last, limits, left, right, p);
    }
    DistinctConcat(ChunkPrefixes(left), ChunkPrefixes(right));
  }

  lemma ExtendMatches(init: seq<Group>, last: Group, limits: Limits, left: seq<Chunk>, right: seq<Chunk>)
    requires Extension(init, last, limits, left, right)
    ensures EachMatches(PrefixSet(left) + PrefixSet(right), left)
    ensures EachMatches(PrefixSet(left) + PrefixSet(right), right)
  {
    var all := PrefixSet(left) + PrefixSet(right);
    forall f, p | f in ChunkFacts(left) && LongestMatch(PrefixSet(left), f.path, p)
      ensures LongestMatch(all, f.path, p)
    {
      var i := GroupOf(init, f);
      OldMatchesStay(init, last, limits, left, right, i, f, p);
    }
    WidenChunks(PrefixSet(left), all, left);
    forall f, p | f in ChunkFacts(right) && LongestMatch(PrefixSet(right), f.path, p)
      ensures LongestMatch(all, f.path, p)
    {
      NewMatchesStay(init, last, limits, left, right, f, p);
    }
    WidenChunks(PrefixSet(right), all, right);
  }

  lemma ExtendBeyond(init: seq<Group>, last: Group, limits: Limits, left: seq<Chunk>, right: seq<Chunk>,
                     i: nat, f: Fact)
    requires Extension(init, last, limits, left, right)
    requires i <= |init| && f in (init + [last])[i].facts
    ensures MatchesBeyond(PrefixSet(left) + PrefixSet(right), f.path, (init + [last])[i].prefix)
  {
    if i < |init| {
      assert MatchesBeyond(PrefixSet(left), f.path, init[i].prefix);
      var p :| LongestMatch(PrefixSet(left), f.path, p) && init[i].prefix <= p;
      OldMatchesStay(init, last, limits, left, right, i, f, p);
    } else {
      ChunkFactsMember(right, f);
      var k :| 0 <= k < |right| && f in right[k].facts;
      assert ChunkMatches(PrefixSet(right), right[k]);
      assert Claimed(PrefixSet(right), f.path, right[k].prefixes);
      var p :| p in right[k].prefixes && LongestMatch(PrefixSet(right), f.path, p);
      NewMatchesStay(init, last, limits, left, right, f, p);
    }
  }

  lemma ExtendReach(init: seq<Group>, last: Group, limits: Limits, left: seq<Chunk>, right: seq<Chunk>, q: string)
    requires Extension(init, last, limits, left, right)
    requires q in ChunkPrefixes(left) + ChunkPrefixes(right)
    ensures ReachesSome(init + [last], q)
  {
    var groups := init + [last];
    if q in ChunkPrefixes(left) {
      assert ReachesSome(init, q);
      var j :| 0 <= j < |init| && Reaches(init[j].prefix, init[j].facts, q);
      assert groups[j] == init[j];
    } else {
      assert Reaches(groups[|init|].prefix, groups[|init|].facts, q);
    }
  }

  lemma ExtendContents(init: seq<Group>, last: Group, limits: Limits, left: seq<Chunk>, right: seq<Chunk>)
    requires Extension(init, last, limits, left, right)
    ensures ChunkFacts(left + right) == GroupFacts(init + [last])
    ensures AllFit(left + right, limits)
  {
    ChunkConcat(left, right);
    assert (init + [last])[..|init|] == init;
  }

  lemma EachMatchesConcat(all: set<string>, left: seq<Chunk>, right: seq<Chunk>)
    requires EachMatches(all, left) && EachMatches(all, right)
    ensures EachMatches(all, left + right)
  {}

  lemma ExtendPlanned(init: seq<Group>, last: Group, limits: Limits, left: seq<Chunk>, right: seq<Chunk>)
    requires Extension(init, last, limits, left, right)
    ensures ChildrenPlanned(init + [last], limits, left + right)
  {
    var groups, chunks := init + [last], left + right;
    ExtendContents(init, last, limits, left, right);
    ExtendPrefixes(init, last, limits, left, right);
    ExtendMatches(init, last, limits, left, right);
    EachMatchesConcat(PrefixSet(chunks), left, right);
    forall q | q in ChunkPrefixes(chunks) ensures ReachesSome(groups, q) {
      ChunkConcat(left, right);
      ExtendReach(init, last, limits, left, right, q);
    }
    forall i, f | 0 <= i < |groups| && f in groups[i].facts
      ensures MatchesBeyond(PrefixSet(chunks), f.path, groups[i].prefix)
    {
      ExtendBeyond(init, last, limits, left, right, i, f);
    }
  }

  // ----- The recursion keeps the guarantees -----

  lemma ReachesParent(prefix: string, facts: seq<Fact>, children: seq<Group>, q: string)
    requires GroupsSplit(prefix, facts, children) && ReachesSome(children, q)
    ensures Reaches(prefix, facts, q)
  {
    var j :| 0 <= j < |children| && Reaches(children[j].prefix, children[j].facts, q);
    var g :| g in children[j].facts && q <= g.path;
    GroupFactsMember(children, j, g);
    assert children[j].facts[0] in children[j].facts;
  }

  lemma {:induction false} PlanPrefixGuarantees(prefix: string, facts: seq<Fact>, limits: Limits)
    requires Plannable(prefix, facts, limits) && facts != []
    ensures Planned(prefix, facts, limits, PlanPrefix(prefix, facts, limits))
    decreases |facts|, 1 + Slack(prefix, facts), 0
  {
    var children := ChildGroups(prefix, facts);
    RecursionShrinks(prefix, facts, limits);
    ChildrenPlannable(prefix, facts, limits);
    if Descends(prefix, children) {
      PlanPrefixGuarantees(children[0].prefix, facts, limits);
      DescendPlanned(prefix, children[0].prefix, facts, limits, PlanPrefix(children[0].prefix, facts, limits));
    } else if Fits(facts, limits) {
      LeafPlanned(prefix, facts, limits);
    } else {
      SplitIsSeparated(prefix, facts, children);
      PlanChildrenGuarantees(children, |facts|, limits);
      SplitPlanned(prefix, facts, limits, children, PlanChildren(children, |facts|, limits));
    }
  }

  lemma DescendPlanned(prefix: string, longer: string, facts: seq<Fact>, limits: Limits, chunks: seq<Chunk>)
    requires Planned(longer, facts, limits, chunks) && prefix <= longer
    ensures Planned(prefix, facts, limits, chunks)
  {
    forall q | q in ChunkPrefixes(chunks) ensures Reaches(prefix, facts, q) {
      assert Reaches(longer, facts, q);
    }
  }

  lemma SplitPlanned(prefix: string, facts: seq<Fact>, limits: Limits, children: seq<Group>, pieces: seq<Chunk>)
    requires GroupsSplit(prefix, facts, children) && ChildrenPlanned(children, limits, pieces)
    ensures Planned(prefix, facts, limits, PackAll([], pieces, limits))
  {
    PackAllKeeps(pieces, limits, PrefixSet(pieces));
    var packed := PackAll([], pieces, limits);
    assert PrefixSet(packed) == PrefixSet(pieces);
    forall q | q in ChunkPrefixes(packed) ensures Reaches(prefix, facts, q) {
      ReachesParent(prefix, facts, children, q);
    }
  }

  lemma LeafPlanned(prefix: string, facts: seq<Fact>, limits: Limits)
    requires Plannable(prefix, facts, limits) && facts != [] && Fits(facts, limits)
    ensures Planned(prefix, facts, limits, [Chunk(facts, [prefix])])
  {
    var chunk := Chunk(facts, [prefix]);
    var chunks := [chunk];
    ChunkLast([], chunk);
    assert [] + [chunk] == chunks;
    assert ChunkPrefixes(chunks) == [prefix] && PrefixSet(chunks) == {prefix};
    assert facts[0] in facts;
    assert LongestMatch({prefix}, facts[0].path, prefix);
    forall f | f in facts ensures Claimed({prefix}, f.path, [prefix]) {
      assert prefix in [prefix] && LongestMatch({prefix}, f.path, prefix);
    }
  }

  lemma SeparatedPart(init: seq<Group>, last: Group)
    requires Separated(init + [last])
    ensures Separated(init)
  {
    var groups := init + [last];
    forall i, j, f, q | 0 <= i < |init| && 0 <= j < |init| && i != j && f in init[i].facts
        && Reaches(init[j].prefix, init[j].facts, q) && q <= f.path
      ensures |q| < |init[i].prefix|
    {
      assert groups[i] == init[i] && groups[j] == init[j];
    }
  }

  lemma {:induction false} PlanChildrenGuarantees(children: seq<Group>, size: nat, limits: Limits)
    requires GroupsPlannable(children, limits) && GroupsBelow(children, size) && Separated(children)
    requires forall i | 0 <= i < |children| :: children[i].facts != []
    ensures ChildrenPlanned(children, limits, PlanChildren(children, size, limits))
    decreases size, 0, |children|
  {
    if children != [] {
      var init, last := children[..|children| - 1], children[|children| - 1];
      assert children == init + [last];
      SeparatedPart(init, last);
      PlanChildrenGuarantees(init, size, limits);
      PlanPrefixGuarantees(last.prefix, last.facts, limits);
      ExtendPlanned(init, last, limits, PlanChildren(init, size, limits),
                    PlanPrefix(last.prefix, last.facts, limits));
    }
  }
}
