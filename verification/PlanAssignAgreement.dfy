/**
 The planner and the matcher agree: from the emitted selectors alone the longest-prefix
 matcher recovers exactly the planned batches.
 */
module PlanAssignAgreement {
  import opened Basics
  import opened CodeUnits
  import opened BatchPlan
  import opened PrefixPlan
  import opened PlanGuarantees
  import opened BatchIds
  import opened BatchAssign
  import opened BatchPrune
  import opened SelectorPlan

  // ----- Chunks that select themselves -----

  ghost predicate Lists(chunk: Chunk, set': string) {
    exists g :: g in chunk.facts && g.prerequisiteSet == set'
  }

  /** `p` is the longest of the prefixes that compete for `f`: those of chunks with its set. */
  ghost predicate OwnPrefix(chunks: seq<Chunk>, f: Fact, p: string) {
    && p <= f.path
    && forall i, q | 0 <= i < |chunks| && Lists(chunks[i], f.prerequisiteSet) && q in chunks[i].prefixes ::
         q <= f.path ==> |q| <= |p|
  }

  ghost predicate Finds(chunks: seq<Chunk>, f: Fact, prefixes: seq<string>) {
    exists p :: p in prefixes && OwnPrefix(chunks, f, p)
  }

  ghost predicate Serves(chunks: seq<Chunk>, p: string, facts: seq<Fact>) {
    exists f :: f in facts && OwnPrefix(chunks, f, p)
  }

  ghost predicate SelectsItself(chunks: seq<Chunk>, chunk: Chunk) {
    && chunk.facts != [] && chunk.prefixes != []
    && (forall p | p in chunk.prefixes :: PATH_ROOT <= p)
    && Distinct(chunk.prefixes)
    && (forall f | f in chunk.facts :: Finds(chunks, f, chunk.prefixes))
    && (forall p | p in chunk.prefixes :: Serves(chunks, p, chunk.facts))
  }

  /** Chunks that compete for a set have no prefix in common. */
  ghost predicate NoClash(a: Chunk, b: Chunk) {
    forall s, p | Lists(a, s) && Lists(b, s) && p in a.prefixes :: p !in b.prefixes
  }

  ghost predicate SelfSelecting(chunks: seq<Chunk>) {
    && (forall i | 0 <= i < |chunks| :: SelectsItself(chunks, chunks[i]))
    && (forall i, j | 0 <= i < j < |chunks| :: NoClash(chunks[i], chunks[j]))
  }

  // ----- One planned class selects itself -----

  lemma {:induction false} PrefixesApart(chunks: seq<Chunk>, i: nat, j: nat, p: string)
    requires Distinct(ChunkPrefixes(chunks)) && i < j < |chunks|
    ensures !(p in chunks[i].prefixes && p in chunks[j].prefixes)
    decreases |chunks|
  {
    var n := |chunks| - 1;
    DistinctPart(ChunkPrefixes(chunks[..n]), chunks[n].prefixes);
    if j < n {
      PrefixesApart(chunks[..n], i, j, p);
    } else {
      ChunkPrefixesMember(chunks[..n], p);
      assert chunks[..n][i] == chunks[i];
    }
  }

  lemma DistinctPart<T>(a: seq<T>, b: seq<T>)
    requires Distinct(a + b)
    ensures Distinct(a) && Distinct(b)
    ensures forall x | x in a :: x !in b
  {
    var s := a + b;
    assert forall i | 0 <= i < |a| :: s[i] == a[i];
    assert forall i | 0 <= i < |b| :: s[|a| + i] == b[i];
  }

  lemma {:induction false} OwnPrefixesDistinct(chunks: seq<Chunk>, i: nat)
    requires Distinct(ChunkPrefixes(chunks)) && i < |chunks|
    ensures Distinct(chunks[i].prefixes)
    decreases |chunks|
  {
    var n := |chunks| - 1;
    DistinctPart(ChunkPrefixes(chunks[..n]), chunks[n].prefixes);
    if i < n {
      OwnPrefixesDistinct(chunks[..n], i);
    }
  }

  lemma LongestIsOwn(chunks: seq<Chunk>, f: Fact, p: string)
    requires LongestMatch(PrefixSet(chunks), f.path, p)
    ensures OwnPrefix(chunks, f, p)
  {
    forall i, q | 0 <= i < |chunks| && q in chunks[i].prefixes && q <= f.path ensures |q| <= |p| {
      ChunkPrefixesMember(chunks, q);
    }
  }

  lemma PlannedChunkSelectsItself(facts: seq<Fact>, limits: Limits, chunks: seq<Chunk>, i: nat)
    requires Planned(PATH_ROOT, facts, limits, chunks) && i < |chunks|
    ensures SelectsItself(chunks, chunks[i])
  {
    var chunk, all := chunks[i], PrefixSet(chunks);
    OwnPrefixesDistinct(chunks, i);
    assert ChunkMatches(all, chunk);
    forall p | p in chunk.prefixes ensures PATH_ROOT <= p && Serves(chunks, p, chunk.facts) {
      ChunkPrefixesMember(chunks, p);
      assert Reaches(PATH_ROOT, facts, p);
      assert Used(all, p, chunk.facts);
      var f :| f in chunk.facts && LongestMatch(all, f.path, p);
      LongestIsOwn(chunks, f, p);
    }
    forall f | f in chunk.facts ensures Finds(chunks, f, chunk.prefixes) {
      assert Claimed(all, f.path, chunk.prefixes);
      var p :| p in chunk.prefixes && LongestMatch(all, f.path, p);
      LongestIsOwn(chunks, f, p);
    }
  }

  lemma PlannedSelectsItself(facts: seq<Fact>, limits: Limits, chunks: seq<Chunk>)
    requires Planned(PATH_ROOT, facts, limits, chunks)
    ensures SelfSelecting(chunks)
  {
    forall i | 0 <= i < |chunks| ensures SelectsItself(chunks, chunks[i]) {
      PlannedChunkSelectsItself(facts, limits, chunks, i);
    }
    forall i, j | 0 <= i < j < |chunks| ensures NoClash(chunks[i], chunks[j]) {
      forall p | p in chunks[i].prefixes ensures p !in chunks[j].prefixes {
        PrefixesApart(chunks, i, j, p);
      }
    }
  }

  // ----- Classes with disjoint sets do not disturb each other -----

  ghost predicate ChunksApart(a: seq<Chunk>, b: seq<Chunk>) {
    forall i, j, s | 0 <= i < |a| && 0 <= j < |b| :: !(Lists(a[i], s) && Lists(b[j], s))
  }

  lemma OwnPrefixWidens(a: seq<Chunk>, b: seq<Chunk>, all: seq<Chunk>, f: Fact, p: string)
    requires OwnPrefix(a, f, p)
    requires forall i | 0 <= i < |all| :: all[i] in a || !Lists(all[i], f.prerequisiteSet)
    ensures OwnPrefix(all, f, p)
  {}

  lemma ChunkStaysSelecting(part: seq<Chunk>, all: seq<Chunk>, chunk: Chunk)
    requires SelectsItself(part, chunk)
    requires forall f, i | f in chunk.facts && 0 <= i < |all| :: all[i] in part || !Lists(all[i], f.prerequisiteSet)
    ensures SelectsItself(all, chunk)
  {
    forall f | f in chunk.facts ensures Finds(all, f, chunk.prefixes) {
      assert Finds(part, f, chunk.prefixes);
      var p :| p in chunk.prefixes && OwnPrefix(part, f, p);
      OwnPrefixWidens(part, [], all, f, p);
    }
    forall p | p in chunk.prefixes ensures Serves(all, p, chunk.facts) {
      assert Serves(part, p, chunk.facts);
      var f :| f in chunk.facts && OwnPrefix(part, f, p);
      OwnPrefixWidens(part, [], all, f, p);
    }
  }

  /** In the joined list a chunk that lists a set of a chunk in `part` is itself in `part`. */
  lemma JoinedListsApart(a: seq<Chunk>, b: seq<Chunk>, i: nat, k: nat, s: string)
    requires ChunksApart(a, b) && i < |a + b| && k < |a + b|
    requires Lists((a + b)[i], s) && Lists((a + b)[k], s)
    ensures i < |a| <==> k < |a|
  {
    forall x, y | 0 <= x < |a| && 0 <= y < |b| ensures !(Lists(a[x], s) && Lists(b[y], s)) {}
  }

  lemma JoinedChunkSelects(a: seq<Chunk>, b: seq<Chunk>, i: nat)
    requires ChunksApart(a, b) && i < |a + b|
    requires SelectsItself(if i < |a| then a else b, (a + b)[i])
    ensures SelectsItself(a + b, (a + b)[i])
  {
    var all, part := a + b, if i < |a| then a else b;
    var chunk := all[i];
    forall f, k | f in chunk.facts && 0 <= k < |all|
      ensures all[k] in part || !Lists(all[k], f.prerequisiteSet)
    {
      assert Lists(chunk, f.prerequisiteSet);
      if Lists(all[k], f.prerequisiteSet) {
        JoinedListsApart(a, b, i, k, f.prerequisiteSet);
        assert all[k] == if k < |a| then a[k] else b[k - |a|];
      }
    }
    ChunkStaysSelecting(part, all, chunk);
  }

  lemma JoinedChunksDoNotClash(a: seq<Chunk>, b: seq<Chunk>, i: nat, j: nat)
    requires forall i, j | 0 <= i < j < |a| :: NoClash(a[i], a[j])
    requires forall i, j | 0 <= i < j < |b| :: NoClash(b[i], b[j])
    requires ChunksApart(a, b) && i < j < |a + b|
    ensures NoClash((a + b)[i], (a + b)[j])
  {
    if j < |a| {
      assert NoClash(a[i], a[j]);
    } else if |a| <= i {
      assert NoClash(b[i - |a|], b[j - |a|]);
    } else {
      forall s ensures !(Lists(a[i], s) && Lists(b[j - |a|], s)) {}
    }
  }

  lemma JoinSelecting(a: seq<Chunk>, b: seq<Chunk>)
    requires SelfSelecting(a) && SelfSelecting(b) && ChunksApart(a, b)
    ensures SelfSelecting(a + b)
  {
    forall i | 0 <= i < |a + b| ensures SelectsItself(a + b, (a + b)[i]) {
      assert SelectsItself(if i < |a| then a else b, if i < |a| then a[i] else b[i - |a|]);
      JoinedChunkSelects(a, b, i);
    }
    forall i, j | 0 <= i < j < |a + b| ensures NoClash((a + b)[i], (a + b)[j]) {
      JoinedChunksDoNotClash(a, b, i, j);
    }
  }

  // ----- The whole plan -----

  /** The chunks of all classes: contents, limits, and selection. */
  ghost predicate ClassesPlanned(classes: seq<seq<Fact>>, limits: Limits, chunks: seq<Chunk>) {
    && (forall f :: f in ChunkFacts(chunks) <==> InSome(classes, f))
    && AllFit(chunks, limits)
    && SelfSelecting(chunks)
    && EachOrdered(chunks)
  }

  /** Within a chunk no path repeats. */
  ghost predicate EachOrdered(chunks: seq<Chunk>) {
    forall i | 0 <= i < |chunks| :: Ordered(chunks[i].facts)
  }

  lemma {:induction false} ChunksOrdered(chunks: seq<Chunk>)
    requires Ordered(ChunkFacts(chunks))
    ensures EachOrdered(chunks)
  {
    if chunks != [] {
      var n := |chunks| - 1;
      OrderedParts(ChunkFacts(chunks[..n]), chunks[n].facts);
      ChunksOrdered(chunks[..n]);
      assert forall i | 0 <= i < n :: chunks[..n][i] == chunks[i];
    }
  }

  lemma InSomeLast(classes: seq<seq<Fact>>, last: seq<Fact>, f: Fact)
    ensures InSome(classes + [last], f) <==> InSome(classes, f) || f in last
  {
    var all := classes + [last];
    assert all[|classes|] == last;
    if InSome(classes, f) {
      var i :| 0 <= i < |classes| && f in classes[i];
      assert f in all[i];
    }
  }

  lemma LastClassApart(classes: seq<seq<Fact>>, last: seq<Fact>, left: seq<Chunk>, right: seq<Chunk>)
    requires PairwiseApart(classes + [last])
    requires forall f | f in ChunkFacts(left) :: InSome(classes, f)
    requires ChunkFacts(right) == last
    ensures ChunksApart(left, right)
  {
    var all := classes + [last];
    forall c | 0 <= c < |classes| ensures SetsApart(classes[c], last) {
      assert all[c] == classes[c] && all[|classes|] == last;
    }
    forall i, j, s | 0 <= i < |left| && 0 <= j < |right| ensures !(Lists(left[i], s) && Lists(right[j], s)) {
      if Lists(left[i], s) && Lists(right[j], s) {
        var f :| f in left[i].facts && f.prerequisiteSet == s;
        var g :| g in right[j].facts && g.prerequisiteSet == s;
        ChunkFactsMember(left, f);
        ChunkFactsMember(right, g);
        assert false;
      }
    }
  }

  lemma JoinClass(init: seq<seq<Fact>>, last: seq<Fact>, limits: Limits, left: seq<Chunk>, right: seq<Chunk>)
    requires ClassesPlanned(init, limits, left) && Planned(PATH_ROOT, last, limits, right)
    requires Ordered(last) && PairwiseApart(init + [last])
    ensures ClassesPlanned(init + [last], limits, left + right)
  {
    PlannedSelectsItself(last, limits, right);
    LastClassApart(init, last, left, right);
    JoinSelecting(left, right);
    ChunksOrdered(right);
    ChunkConcat(left, right);
    forall f ensures f in ChunkFacts(left + right) <==> InSome(init + [last], f) {
      InSomeLast(init, last, f);
    }
  }

  lemma {:induction false} PlanClassesGuarantees(classes: seq<seq<Fact>>, limits: Limits)
    requires ClassesPlannable(classes, limits) && NonEmptyOrdered(classes) && PairwiseApart(classes)
    ensures ClassesPlanned(classes, limits, PlanClasses(classes, limits))
  {
    if classes != [] {
      var init, last := classes[..|classes| - 1], classes[|classes| - 1];
      assert classes == init + [last];
      PlanClassesGuarantees(init, limits);
      PlanPrefixGuarantees(PATH_ROOT, last, limits);
      JoinClass(init, last, limits, PlanClasses(init, limits), PlanPrefix(PATH_ROOT, last, limits));
    }
  }

  // ----- From chunks to selectors -----

  lemma SelectorListsSet(index: nat, chunk: Chunk, set': string)
    ensures set' in SelectorFor(index, chunk).prerequisiteSets <==> Lists(chunk, set')
  {
    var sets := SetsOf(chunk.facts);
    if set' in sets {
      var k :| 0 <= k < |sets| && sets[k] == set';
      assert chunk.facts[k] in chunk.facts;
    }
    if Lists(chunk, set') {
      var g :| g in chunk.facts && g.prerequisiteSet == set';
      var k :| 0 <= k < |chunk.facts| && chunk.facts[k] == g;
      assert sets[k] in sets;
    }
  }

  ghost predicate ClashFree(chunks: seq<Chunk>) {
    && (forall i | 0 <= i < |chunks| :: Distinct(chunks[i].prefixes))
    && (forall i, j | 0 <= i < j < |chunks| :: NoClash(chunks[i], chunks[j]))
  }

  lemma {:induction false} CandidatesDistinct(chunks: seq<Chunk>, n: nat, set': string)
    requires n <= |chunks| && ClashFree(chunks)
    ensures DistinctPrefixes(Entries(SelectorsOf(chunks)[..n], set'))
    decreases n
  {
    if n > 0 {
      CandidatesDistinct(chunks, n - 1, set');
      EntriesNext(SelectorsOf(chunks), n - 1, set');
      SelectorListsSet(n - 1, chunks[n - 1], set');
      if Lists(chunks[n - 1], set') {
        NextCandidates(chunks, n - 1, set');
      }
    }
  }

  lemma NextCandidates(chunks: seq<Chunk>, n: nat, set': string)
    requires n < |chunks| && ClashFree(chunks) && Lists(chunks[n], set')
    requires DistinctPrefixes(Entries(SelectorsOf(chunks)[..n], set'))
    ensures DistinctPrefixes(Entries(SelectorsOf(chunks)[..n], set') + EntriesOf(n, chunks[n].prefixes))
  {
    var before, last := Entries(SelectorsOf(chunks)[..n], set'), chunks[n];
    forall e | e in before ensures e.prefix !in last.prefixes {
      EarlierCandidate(chunks, n, set', e);
    }
    AppendOwn(before, EntriesOf(n, last.prefixes), last.prefixes);
  }

  lemma EarlierCandidate(chunks: seq<Chunk>, n: nat, set': string, e: Entry)
    requires n < |chunks| && ClashFree(chunks) && Lists(chunks[n], set')
    requires e in Entries(SelectorsOf(chunks)[..n], set')
    ensures e.prefix !in chunks[n].prefixes
  {
    EntriesMember(SelectorsOf(chunks)[..n], set', e);
    SelectorListsSet(e.index, chunks[e.index], set');
    assert NoClash(chunks[e.index], chunks[n]);
  }

  lemma SelfSelectingIsClashFree(chunks: seq<Chunk>)
    requires SelfSelecting(chunks)
    ensures ClashFree(chunks)
    ensures forall s :: DistinctPrefixes(Entries(SelectorsOf(chunks), s))
  {
    forall i | 0 <= i < |chunks| ensures Distinct(chunks[i].prefixes) {
      assert SelectsItself(chunks, chunks[i]);
    }
    assert SelectorsOf(chunks)[..|chunks|] == SelectorsOf(chunks);
    forall s ensures DistinctPrefixes(Entries(SelectorsOf(chunks), s)) {
      CandidatesDistinct(chunks, |chunks|, s);
    }
  }

  lemma AppendOwn(before: seq<Entry>, own: seq<Entry>, prefixes: seq<string>)
    requires DistinctPrefixes(before) && Distinct(prefixes)
    requires |own| == |prefixes| && forall k | 0 <= k < |own| :: own[k].prefix == prefixes[k]
    requires forall e | e in before :: e.prefix !in prefixes
    ensures DistinctPrefixes(before + own)
  {
    var all := before + own;
    forall i, j | 0 <= i < j < |all| ensures all[i].prefix != all[j].prefix {
      if i < |before| <= j {
        assert all[i] in before && prefixes[j - |before|] in prefixes;
      }
    }
  }

  lemma PlannedHeaderOk(chunks: seq<Chunk>)
    requires SelfSelecting(chunks)
    ensures HeaderOk(SelectorsOf(chunks))
  {
    var selectors := SelectorsOf(chunks);
    SelfSelectingIsClashFree(chunks);
    forall i | 0 <= i < |selectors| ensures IsBatchId(selectors[i].id) && SelectorOk(selectors[i]) {
      BatchIdWellFormed(i);
      assert SelectsItself(chunks, chunks[i]);
      var chunk := chunks[i];
      assert Lists(chunk, chunk.facts[0].prerequisiteSet) by {
        assert chunk.facts[0] in chunk.facts;
      }
      SelectorListsSet(i, chunk, chunk.facts[0].prerequisiteSet);
      var sets := selectors[i].prerequisiteSets;
      forall a, b | 0 <= a < b < |sets| ensures sets[a] != sets[b] {
        LessIrreflexive(sets[a]);
      }
    }
    forall i, j | 0 <= i < j < |selectors| ensures selectors[i].id != selectors[j].id {
      if selectors[i].id == selectors[j].id {
        BatchIdsDistinct(i, j);
      }
    }
  }

  /** A prefix that a chunk offers its own fact is the fact's unique longest match. */
  lemma OwnPrefixIsOwner(chunks: seq<Chunk>, i: nat, f: Fact, p: string)
    requires SelfSelecting(chunks) && i < |chunks|
    requires f in chunks[i].facts && p in chunks[i].prefixes && OwnPrefix(chunks, f, p)
    ensures Owner(SelectorsOf(chunks), f) == Some(Entry(i, p))
  {
    SelfSelectingIsClashFree(chunks);
    assert Lists(chunks[i], f.prerequisiteSet);
    ListedPrefixIsOwner(chunks, i, f, p);
  }

  lemma ListedPrefixIsOwner(chunks: seq<Chunk>, i: nat, f: Fact, p: string)
    requires DistinctPrefixes(Entries(SelectorsOf(chunks), f.prerequisiteSet))
    requires i < |chunks| && p in chunks[i].prefixes && Lists(chunks[i], f.prerequisiteSet)
    requires OwnPrefix(chunks, f, p)
    ensures Owner(SelectorsOf(chunks), f) == Some(Entry(i, p))
  {
    var selectors := SelectorsOf(chunks);
    var entries := Entries(selectors, f.prerequisiteSet);
    SelectorListsSet(i, chunks[i], f.prerequisiteSet);
    EntriesMember(selectors, f.prerequisiteSet, Entry(i, p));
    forall e | e in entries && e.prefix <= f.path ensures |e.prefix| <= |p| {
      EntriesMember(selectors, f.prerequisiteSet, e);
      SelectorListsSet(e.index, chunks[e.index], f.prerequisiteSet);
    }
    BestIsUnique(entries, f.path, Entry(i, p));
  }

  lemma ChunkOwnsItsFacts(chunks: seq<Chunk>, i: nat, f: Fact)
    requires SelfSelecting(chunks) && i < |chunks| && f in chunks[i].facts
    ensures OwnedBy(SelectorsOf(chunks), f, i)
  {
    assert SelectsItself(chunks, chunks[i]);
    assert Finds(chunks, f, chunks[i].prefixes);
    var p :| p in chunks[i].prefixes && OwnPrefix(chunks, f, p);
    OwnPrefixIsOwner(chunks, i, f, p);
  }

  lemma PlannedNothingIdle(chunks: seq<Chunk>, facts: seq<Fact>, i: nat)
    requires SelfSelecting(chunks) && i < |chunks|
    requires forall f | f in ChunkFacts(chunks) :: f in facts
    ensures var selectors := SelectorsOf(chunks);
      && (forall p | p in selectors[i].prefixes :: UsesPrefix(selectors, facts, Entry(i, p)))
      && (forall s | s in selectors[i].prerequisiteSets :: UsesSet(selectors, facts, i, s))
  {
    var selectors := SelectorsOf(chunks);
    assert SelectsItself(chunks, chunks[i]);
    forall p | p in chunks[i].prefixes ensures UsesPrefix(selectors, facts, Entry(i, p)) {
      assert Serves(chunks, p, chunks[i].facts);
      var f :| f in chunks[i].facts && OwnPrefix(chunks, f, p);
      OwnPrefixIsOwner(chunks, i, f, p);
      ChunkFactsMember(chunks, f);
    }
    forall s | s in selectors[i].prerequisiteSets ensures UsesSet(selectors, facts, i, s) {
      SelectorListsSet(i, chunks[i], s);
      var g :| g in chunks[i].facts && g.prerequisiteSet == s;
      ChunkOwnsItsFacts(chunks, i, g);
      ChunkFactsMember(chunks, g);
    }
  }

  lemma {:induction false} AssignedMember(selectors: seq<Selector>, facts: seq<Fact>, i: nat, f: Fact)
    ensures f in Assigned(selectors, facts, i) <==> f in facts && OwnedBy(selectors, f, i)
  {
    if facts != [] {
      AssignedMember(selectors, facts[..|facts| - 1], i, f);
    }
  }

  /**
   Main result. For distinct paths under the root that each fit alone, the matcher accepts the
   planned selectors and gives each batch exactly the facts of its planned chunk; every chunk
   fits the limits, lists its paths once in code-unit order, and no fact is lost.
   */
  lemma PlanAndAssignAgree(facts: seq<Fact>, limits: Limits, minimum: int)
    requires Plans(facts, limits)
    ensures var chunks := PlanChunks(facts, limits, minimum);
      var selectors := SelectorsOf(chunks);
      && Accepts(selectors, facts)
      && AllFit(chunks, limits) && EachOrdered(chunks)
      && (forall f :: f in ChunkFacts(chunks) <==> f in facts)
      && (forall i, f | 0 <= i < |chunks| :: f in Assigned(selectors, facts, i) <==> f in chunks[i].facts)
  {
    ClassesArePlannable(facts, limits, minimum);
    var classes := Classes(facts, minimum);
    PlanClassesGuarantees(classes, limits);
    var chunks := PlanChunks(facts, limits, minimum);
    var selectors := SelectorsOf(chunks);
    PlannedHeaderOk(chunks);
    forall f | f in facts ensures exists i :: 0 <= i < |chunks| && f in chunks[i].facts {
      ChunkFactsMember(chunks, f);
    }
    forall f | f in facts ensures Owner(selectors, f).Some? {
      var i :| 0 <= i < |chunks| && f in chunks[i].facts;
      ChunkOwnsItsFacts(chunks, i, f);
    }
    forall i | 0 <= i < |selectors|
      ensures forall p | p in selectors[i].prefixes :: UsesPrefix(selectors, facts, Entry(i, p))
      ensures forall s | s in selectors[i].prerequisiteSets :: UsesSet(selectors, facts, i, s)
    {
      PlannedNothingIdle(chunks, facts, i);
    }
    forall i, f | 0 <= i < |chunks| ensures f in Assigned(selectors, facts, i) <==> f in chunks[i].facts {
      AssignedMember(selectors, facts, i, f);
      ChunkFactsMember(chunks, f);
      if f in chunks[i].facts {
        ChunkOwnsItsFacts(chunks, i, f);
      } else if f in facts {
        var j :| 0 <= j < |chunks| && f in chunks[j].facts;
        ChunkOwnsItsFacts(chunks, j, f);
      }
    }
  }

  lemma {:induction false} AssignedOnce(selectors: seq<Selector>, facts: seq<Fact>, i: nat)
    requires Distinct(facts)
    ensures Distinct(Assigned(selectors, facts, i))
  {
    if facts != [] {
      var init, last := facts[..|facts| - 1], facts[|facts| - 1];
      AssignedOnce(selectors, init, i);
      assert facts == init + [last];
      AssignedMember(selectors, init, i, last);
      assert last !in init;
    }
  }

  /** Counting repetitions too: each batch holds its chunk's facts, and no fact is in two chunks. */
  lemma EachBatchIsItsChunk(facts: seq<Fact>, limits: Limits, minimum: int, i: nat)
    requires Plans(facts, limits) && i < |PlanChunks(facts, limits, minimum)|
    ensures var chunks := PlanChunks(facts, limits, minimum);
      && multiset(Assigned(SelectorsOf(chunks), facts, i)) == multiset(chunks[i].facts)
      && forall j, f | 0 <= j < |chunks| && f in chunks[i].facts && f in chunks[j].facts :: i == j
  {
    var chunks := PlanChunks(facts, limits, minimum);
    var selectors := SelectorsOf(chunks);
    PlanAndAssignAgree(facts, limits, minimum);
    assert Distinct(facts);
    AssignedOnce(selectors, facts, i);
    OrderedIsDistinct(chunks[i].facts);
    SameMembersSameCounts(Assigned(selectors, facts, i), chunks[i].facts);
    forall j, f | 0 <= j < |chunks| && f in chunks[i].facts && f in chunks[j].facts ensures i == j {
      AssignedMember(selectors, facts, i, f);
      AssignedMember(selectors, facts, j, f);
    }
  }

  lemma OrderedIsDistinct(facts: seq<Fact>)
    requires Ordered(facts)
    ensures Distinct(facts)
  {
    forall i, j | 0 <= i < j < |facts| ensures facts[i] != facts[j] {
      LessIrreflexive(facts[i].path);
    }
  }

  /** As batches land, pruning to any remaining paths keeps the plan accepted and moves none of them. */
  lemma PrunedPlanMovesNoPath(facts: seq<Fact>, limits: Limits, minimum: int, remaining: seq<Fact>)
    requires Plans(facts, limits) && forall f | f in remaining :: f in facts
    ensures var chunks := PlanChunks(facts, limits, minimum);
      var selectors := SelectorsOf(chunks);
      && Accepts(Prune(selectors, remaining), remaining)
      && forall i, f | 0 <= i < |chunks| && f in remaining && f in chunks[i].facts ::
           exists p :: InBatch(Prune(selectors, remaining), f, BatchId(i), p)
  {
    PlanAndAssignAgree(facts, limits, minimum);
    var chunks := PlanChunks(facts, limits, minimum);
    var selectors := SelectorsOf(chunks);
    PruneMovesNoPath(selectors, remaining);
    forall i, f | 0 <= i < |chunks| && f in remaining && f in chunks[i].facts
      ensures exists p :: InBatch(Prune(selectors, remaining), f, BatchId(i), p)
    {
      assert f in Assigned(selectors, facts, i);
      AssignedMember(selectors, facts, i, f);
      assert InBatch(Prune(selectors, remaining), f, BatchId(i), Owner(selectors, f).value.prefix);
    }
  }
}
