/**
 `planM5cObservationSelectors`: classes by prerequisite set, one shared tail for the small
 sets, and one selector per planned chunk.
 */
module SelectorPlan {
  import opened Basics
  import opened CodeUnits
  import opened BatchPlan
  import opened PrefixPlan
  import opened BatchIds
  import opened BatchAssign
  import opened PathLists
  import opened Sorting

  // ----- Sorting facts by path -----

  ghost predicate DistinctPaths(facts: seq<Fact>) {
    forall i, j | 0 <= i < j < |facts| :: facts[i].path != facts[j].path
  }

  predicate ByPath(f: Fact, g: Fact) {
    Less(f.path, g.path)
  }

  function SortFacts(facts: seq<Fact>): (r: seq<Fact>)
    ensures multiset(r) == multiset(facts)
  {
    Sort(ByPath, facts)
  }

  lemma SortOrdered(facts: seq<Fact>)
    requires DistinctPaths(facts)
    ensures Ordered(SortFacts(facts))
  {
    ByKeyIsWeakOrder((f: Fact) => f.path, ByPath);
    SortSorts(ByPath, facts);
    var sorted := SortFacts(facts);
    forall i, j | 0 <= i < j < |sorted| ensures Less(sorted[i].path, sorted[j].path) {
      PermutedPathsDiffer(facts, sorted, i, j);
      LessTotal(sorted[i].path, sorted[j].path);
    }
  }

  lemma PermutedPathsDiffer(facts: seq<Fact>, sorted: seq<Fact>, i: nat, j: nat)
    requires DistinctPaths(facts) && multiset(sorted) == multiset(facts) && i < j < |sorted|
    ensures sorted[i].path != sorted[j].path
  {
    SameMembers(sorted, facts);
    assert sorted[i] in facts && sorted[j] in facts;
    var a :| 0 <= a < |facts| && facts[a] == sorted[i];
    var b :| 0 <= b < |facts| && facts[b] == sorted[j];
    if a == b {
      CountedTwice(sorted, i, j);
      CountedOnce(facts, facts[a]);
      assert false;
    }
  }

  // ----- Classes by prerequisite set -----

  function SetsOf(facts: seq<Fact>): (r: seq<string>)
    ensures |r| == |facts| && forall i | 0 <= i < |r| :: r[i] == facts[i].prerequisiteSet
  {
    seq(|facts|, i requires 0 <= i < |facts| => facts[i].prerequisiteSet)
  }

  function Members(facts: seq<Fact>, set': string): (r: seq<Fact>)
    ensures forall f :: f in r <==> f in facts && f.prerequisiteSet == set'
  {
    if facts == [] then []
    else
      var n := |facts| - 1;
      assert forall f | f in facts :: f in facts[..n] || f == facts[n];
      Members(facts[..n], set') + if facts[n].prerequisiteSet == set' then [facts[n]] else []
  }

  predicate IsSmall(sorted: seq<Fact>, set': string, minimum: int) {
    set' != "" && |Members(sorted, set')| < minimum
  }

  /** The classes of the sets that are large enough, in the order of their keys. */
  function LargeClasses(sorted: seq<Fact>, keys: seq<string>, minimum: int): seq<seq<Fact>> {
    if keys == [] then []
    else
      var n := |keys| - 1;
      LargeClasses(sorted, keys[..n], minimum) +
      if IsSmall(sorted, keys[n], minimum) then [] else [Members(sorted, keys[n])]
  }

  /** The paths of all smaller sets, set by set. */
  function Tail(sorted: seq<Fact>, keys: seq<string>, minimum: int): seq<Fact> {
    if keys == [] then []
    else
      var n := |keys| - 1;
      Tail(sorted, keys[..n], minimum) +
      if IsSmall(sorted, keys[n], minimum) then Members(sorted, keys[n]) else []
  }

  function Classes(facts: seq<Fact>, minimum: int): seq<seq<Fact>> {
    var sorted := SortFacts(facts);
    var keys := SortedUnique(SetsOf(sorted));
    var tail := Tail(sorted, keys, minimum);
    LargeClasses(sorted, keys, minimum) + if tail == [] then [] else [SortFacts(tail)]
  }

  // ----- Chunks and selectors -----

  ghost predicate ClassesPlannable(classes: seq<seq<Fact>>, limits: Limits) {
    forall i | 0 <= i < |classes| :: Plannable(PATH_ROOT, classes[i], limits)
  }

  function PlanClasses(classes: seq<seq<Fact>>, limits: Limits): seq<Chunk>
    requires ClassesPlannable(classes, limits)
  {
    if classes == [] then []
    else
      var n := |classes| - 1;
      PlanClasses(classes[..n], limits) + PlanPrefix(PATH_ROOT, classes[n], limits)
  }

  function SelectorFor(index: nat, chunk: Chunk): Selector {
    Selector(BatchId(index), chunk.prefixes, SortedUnique(SetsOf(chunk.facts)))
  }

  function SelectorsOf(chunks: seq<Chunk>): (r: seq<Selector>)
    ensures |r| == |chunks| && forall i | 0 <= i < |r| :: r[i] == SelectorFor(i, chunks[i])
  {
    seq(|chunks|, i requires 0 <= i < |chunks| => SelectorFor(i, chunks[i]))
  }

  /** Distinct paths under the root that each fit the limits alone. */
  ghost predicate Plans(facts: seq<Fact>, limits: Limits) {
    && DistinctPaths(facts)
    && forall f | f in facts :: PATH_ROOT <= f.path && Fits([f], limits)
  }

  // ----- What the classes are -----

  ghost predicate SetsApart(a: seq<Fact>, b: seq<Fact>) {
    forall f, g | f in a && g in b :: f.prerequisiteSet != g.prerequisiteSet
  }

  ghost predicate PairwiseApart(classes: seq<seq<Fact>>) {
    forall i, j | 0 <= i < j < |classes| :: SetsApart(classes[i], classes[j])
  }

  ghost predicate NonEmptyOrdered(classes: seq<seq<Fact>>) {
    forall i | 0 <= i < |classes| :: classes[i] != [] && Ordered(classes[i])
  }

  /** Every class is an ordered part of the facts, every fact has a class, and no set is split. */
  ghost predicate ClassesSplit(facts: seq<Fact>, classes: seq<seq<Fact>>) {
    && NonEmptyOrdered(classes)
    && (forall i, f | 0 <= i < |classes| && f in classes[i] :: f in facts)
    && (forall f | f in facts :: InSome(classes, f))
    && PairwiseApart(classes)
  }

  ghost predicate InSome(classes: seq<seq<Fact>>, f: Fact) {
    exists i :: 0 <= i < |classes| && f in classes[i]
  }

  lemma {:induction false} MembersOrdered(facts: seq<Fact>, set': string)
    requires Ordered(facts)
    ensures Ordered(Members(facts, set'))
  {
    if facts != [] {
      var n := |facts| - 1;
      MembersOrdered(facts[..n], set');
      var init := Members(facts[..n], set');
      forall k | 0 <= k < |init| ensures Less(init[k].path, facts[n].path) {
        assert init[k] in facts[..n];
        var m :| 0 <= m < n && facts[m] == init[k];
      }
    }
  }

  ghost predicate Within(part: seq<Fact>, sorted: seq<Fact>, keys: seq<string>) {
    forall f | f in part :: f in sorted && f.prerequisiteSet in keys
  }

  ghost predicate Covers(classes: seq<seq<Fact>>, tail: seq<Fact>, sorted: seq<Fact>, keys: seq<string>) {
    forall f | f in sorted && f.prerequisiteSet in keys :: InSome(classes, f) || f in tail
  }

  /** The classes and the tail over the first keys hold exactly the facts of those keys. */
  ghost predicate KeysSplit(sorted: seq<Fact>, keys: seq<string>, classes: seq<seq<Fact>>, tail: seq<Fact>) {
    && NonEmptyOrdered(classes)
    && (forall i | 0 <= i < |classes| :: Within(classes[i], sorted, keys))
    && Within(tail, sorted, keys)
    && Covers(classes, tail, sorted, keys)
    && PairwiseApart(classes)
    && (forall i | 0 <= i < |classes| :: SetsApart(classes[i], tail))
    && DistinctPaths(tail)
  }

  ghost predicate KeysOccur(keys: seq<string>, sorted: seq<Fact>) {
    forall k | k in keys :: Occurs(k, sorted)
  }

  ghost predicate Occurs(k: string, sorted: seq<Fact>) {
    exists f :: f in sorted && f.prerequisiteSet == k
  }

  lemma {:induction false} ClassesByKey(sorted: seq<Fact>, keys: seq<string>, minimum: int)
    requires Ordered(sorted) && Distinct(keys) && KeysOccur(keys, sorted)
    ensures KeysSplit(sorted, keys, LargeClasses(sorted, keys, minimum), Tail(sorted, keys, minimum))
  {
    if keys != [] {
      var init, key := keys[..|keys| - 1], keys[|keys| - 1];
      assert forall k | k in init :: k in keys;
      ClassesByKey(sorted, init, minimum);
      assert Occurs(key, sorted);
      var classes, tail := LargeClasses(sorted, init, minimum), Tail(sorted, init, minimum);
      assert keys == init + [key];
      if IsSmall(sorted, key, minimum) {
        TailGrows(sorted, init, key, classes, tail);
        assert LargeClasses(sorted, keys, minimum) == classes;
      } else {
        ClassesGrow(sorted, init, key, classes, tail);
        assert Tail(sorted, keys, minimum) == tail;
      }
    }
  }

  lemma CoverGrows(sorted: seq<Fact>, keys: seq<string>, key: string, classes: seq<seq<Fact>>, tail: seq<Fact>)
    requires Covers(classes, tail, sorted, keys)
    ensures Covers(classes + [Members(sorted, key)], tail, sorted, keys + [key])
    ensures Covers(classes, tail + Members(sorted, key), sorted, keys + [key])
  {
    var added := Members(sorted, key);
    var grown := classes + [added];
    forall f | f in sorted && f.prerequisiteSet in keys + [key]
      ensures InSome(grown, f) || f in tail
      ensures InSome(classes, f) || f in tail + added
    {
      if f.prerequisiteSet in keys {
        if InSome(classes, f) {
          var i :| 0 <= i < |classes| && f in classes[i];
          assert f in grown[i];
        }
      } else {
        assert f in grown[|classes|];
      }
    }
  }

  lemma ClassesGrow(sorted: seq<Fact>, keys: seq<string>, key: string, classes: seq<seq<Fact>>, tail: seq<Fact>)
    requires key !in keys && Ordered(sorted) && Occurs(key, sorted)
    requires KeysSplit(sorted, keys, classes, tail)
    ensures KeysSplit(sorted, keys + [key], classes + [Members(sorted, key)], tail)
  {
    MembersOrdered(sorted, key);
    CoverGrows(sorted, keys, key, classes, tail);
  }

  lemma TailGrows(sorted: seq<Fact>, keys: seq<string>, key: string, classes: seq<seq<Fact>>, tail: seq<Fact>)
    requires key !in keys && Ordered(sorted)
    requires KeysSplit(sorted, keys, classes, tail)
    ensures KeysSplit(sorted, keys + [key], classes, tail + Members(sorted, key))
  {
    CoverGrows(sorted, keys, key, classes, tail);
    TailStaysDistinct(sorted, keys, key, tail);
  }

  lemma TailStaysDistinct(sorted: seq<Fact>, keys: seq<string>, key: string, tail: seq<Fact>)
    requires key !in keys && Ordered(sorted)
    requires Within(tail, sorted, keys) && DistinctPaths(tail)
    ensures DistinctPaths(tail + Members(sorted, key))
  {
    MembersOrdered(sorted, key);
    var added := Members(sorted, key);
    var grown := tail + added;
    forall i, j | 0 <= i < j < |grown| ensures grown[i].path != grown[j].path {
      if |tail| <= i {
        assert Less(added[i - |tail|].path, added[j - |tail|].path);
        LessIrreflexive(grown[i].path);
      } else if |tail| <= j {
        assert grown[i] in tail && grown[j] in added;
        if grown[i].path == grown[j].path {
          PathDecides(sorted, grown[i], grown[j]);
        }
      }
    }
  }

  lemma PathDecides(sorted: seq<Fact>, f: Fact, g: Fact)
    requires Ordered(sorted) && f in sorted && g in sorted && f.path == g.path
    ensures f == g
  {
    var i :| 0 <= i < |sorted| && sorted[i] == f;
    var j :| 0 <= j < |sorted| && sorted[j] == g;
    LessIrreflexive(f.path);
  }

  lemma KeysOfFacts(facts: seq<Fact>)
    ensures var keys := SortedUnique(SetsOf(facts));
      && Distinct(keys) && KeysOccur(keys, facts) && Within(facts, facts, keys)
  {
    var sets := SetsOf(facts);
    var keys := SortedUnique(sets);
    forall i, j | 0 <= i < j < |keys| ensures keys[i] != keys[j] {
      LessIrreflexive(keys[i]);
    }
    forall f | f in facts ensures f.prerequisiteSet in keys {
      var i :| 0 <= i < |facts| && facts[i] == f;
      assert sets[i] in sets;
    }
    forall k | k in keys ensures Occurs(k, facts) {
      var i :| 0 <= i < |sets| && sets[i] == k;
      assert facts[i] in facts;
    }
  }

  lemma ClassesAreSplit(facts: seq<Fact>, minimum: int)
    requires DistinctPaths(facts)
    ensures ClassesSplit(facts, Classes(facts, minimum))
  {
    var sorted := SortFacts(facts);
    SortOrdered(facts);
    KeysOfFacts(sorted);
    var keys := SortedUnique(SetsOf(sorted));
    ClassesByKey(sorted, keys, minimum);
    AddTailClass(sorted, keys, LargeClasses(sorted, keys, minimum), Tail(sorted, keys, minimum));
    SameMembers(sorted, facts);
    SplitOfSame(sorted, facts, Classes(facts, minimum));
  }

  lemma SplitOfSame(a: seq<Fact>, b: seq<Fact>, classes: seq<seq<Fact>>)
    requires ClassesSplit(a, classes) && forall f :: f in a <==> f in b
    ensures ClassesSplit(b, classes)
  {}

  lemma AddTailClass(sorted: seq<Fact>, keys: seq<string>, large: seq<seq<Fact>>, tail: seq<Fact>)
    requires KeysSplit(sorted, keys, large, tail) && Within(sorted, sorted, keys)
    ensures ClassesSplit(sorted, large + if tail == [] then [] else [SortFacts(tail)])
  {
    if tail == [] {
      assert large + [] == large;
    } else {
      var last := SortFacts(tail);
      SortOrdered(tail);
      SameMembers(last, tail);
      assert tail[0] in last;
      assert Covers(large, last, sorted, keys);
      CoverWithLast(sorted, keys, large, last);
    }
  }

  lemma CoverWithLast(sorted: seq<Fact>, keys: seq<string>, large: seq<seq<Fact>>, last: seq<Fact>)
    requires Covers(large, last, sorted, keys) && Within(sorted, sorted, keys)
    ensures forall f | f in sorted :: InSome(large + [last], f)
  {
    var classes := large + [last];
    forall f | f in sorted ensures InSome(classes, f) {
      if InSome(large, f) {
        var i :| 0 <= i < |large| && f in large[i];
        assert f in classes[i];
      } else {
        assert f in classes[|large|];
      }
    }
  }

  lemma ClassesArePlannable(facts: seq<Fact>, limits: Limits, minimum: int)
    requires Plans(facts, limits)
    ensures ClassesPlannable(Classes(facts, minimum), limits)
    ensures ClassesSplit(facts, Classes(facts, minimum))
  {
    ClassesAreSplit(facts, minimum);
  }

  function PlanChunks(facts: seq<Fact>, limits: Limits, minimum: int): seq<Chunk>
    requires Plans(facts, limits)
  {
    ClassesArePlannable(facts, limits, minimum);
    PlanClasses(Classes(facts, minimum), limits)
  }

  // ----- The source's loops -----

  /** The first loop: collect the members of each prerequisite set. */
  method CollectSets(sorted: seq<Fact>) returns (sets: map<string, seq<Fact>>)
    ensures forall s :: (if s in sets then sets[s] else []) == Members(sorted, s)
  {
    sets := map[];
    for i := 0 to |sorted|
      invariant forall s :: (if s in sets then sets[s] else []) == Members(sorted[..i], s)
    {
      var entry := sorted[i];
      assert sorted[..i + 1][..i] == sorted[..i];
      var members := if entry.prerequisiteSet in sets then sets[entry.prerequisiteSet] else [];
      sets := sets[entry.prerequisiteSet := members + [entry]];
    }
    assert sorted[..|sorted|] == sorted;
  }

  lemma KeysNext(sorted: seq<Fact>, keys: seq<string>, k: nat, minimum: int)
    requires k < |keys|
    ensures LargeClasses(sorted, keys[..k + 1], minimum) == LargeClasses(sorted, keys[..k], minimum) +
      if IsSmall(sorted, keys[k], minimum) then [] else [Members(sorted, keys[k])]
    ensures Tail(sorted, keys[..k + 1], minimum) == Tail(sorted, keys[..k], minimum) +
      if IsSmall(sorted, keys[k], minimum) then Members(sorted, keys[k]) else []
  {
    assert keys[..k + 1][..k] == keys[..k];
  }

  /** The second loop: large sets become classes, the others share the tail. */
  method SplitKeys(sorted: seq<Fact>, keys: seq<string>, sets: map<string, seq<Fact>>, minimum: int)
    returns (groups: seq<seq<Fact>>, tail: seq<Fact>)
    requires forall s :: (if s in sets then sets[s] else []) == Members(sorted, s)
    ensures groups == LargeClasses(sorted, keys, minimum)
    ensures tail == Tail(sorted, keys, minimum)
  {
    groups, tail := [], [];
    for k := 0 to |keys|
      invariant groups == LargeClasses(sorted, keys[..k], minimum)
      invariant tail == Tail(sorted, keys[..k], minimum)
    {
      KeysNext(sorted, keys, k, minimum);
      var members := if keys[k] in sets then sets[keys[k]] else [];
      assert members == Members(sorted, keys[k]);
      if keys[k] != "" && |members| < minimum {
        tail := tail + members;
      } else {
        groups := groups + [members];
      }
    }
    assert keys[..|keys|] == keys;
  }

  method ComputeClasses(facts: seq<Fact>, minimum: int) returns (groups: seq<seq<Fact>>)
    ensures groups == Classes(facts, minimum)
  {
    var sorted := SortFacts(facts);
    var sets := CollectSets(sorted);
    var keys := SortedUnique(SetsOf(sorted));
    var tail: seq<Fact>;
    groups, tail := SplitKeys(sorted, keys, sets, minimum);
    if |tail| > 0 {
      groups := groups + [SortFacts(tail)];
    }
  }

  method AppendSelectors(ghost chunks: seq<Chunk>, before: seq<Selector>, planned: seq<Chunk>)
    returns (selectors: seq<Selector>)
    requires before == SelectorsOf(chunks)
    ensures selectors == SelectorsOf(chunks + planned)
  {
    selectors := before;
    assert chunks + planned[..0] == chunks;
    for k := 0 to |planned|
      invariant selectors == SelectorsOf(chunks + planned[..k])
    {
      assert chunks + planned[..k + 1] == chunks + planned[..k] + [planned[k]];
      selectors := selectors + [SelectorFor(|selectors|, planned[k])];
    }
    assert planned[..|planned|] == planned;
  }

  lemma PlanClassesNext(classes: seq<seq<Fact>>, i: nat, limits: Limits)
    requires ClassesPlannable(classes, limits) && i < |classes|
    ensures PlanClasses(classes[..i + 1], limits)
         == PlanClasses(classes[..i], limits) + PlanPrefix(PATH_ROOT, classes[i], limits)
  {
    assert classes[..i + 1][..i] == classes[..i];
  }

  method SelectorsForClasses(groups: seq<seq<Fact>>, limits: Limits) returns (selectors: seq<Selector>)
    requires ClassesPlannable(groups, limits)
    ensures selectors == SelectorsOf(PlanClasses(groups, limits))
  {
    selectors := [];
    ghost var chunks := [];
    for i := 0 to |groups|
      invariant chunks == PlanClasses(groups[..i], limits)
      invariant selectors == SelectorsOf(chunks)
    {
      var planned := ComputePlanPrefix(PATH_ROOT, groups[i], limits);
      selectors := AppendSelectors(chunks, selectors, planned);
      PlanClassesNext(groups, i, limits);
      chunks := chunks + planned;
    }
    assert groups[..|groups|] == groups;
  }

  method PlanObservationSelectors(facts: seq<Fact>, limits: Limits, minimum: int)
    returns (selectors: seq<Selector>)
    requires Plans(facts, limits)
    ensures selectors == SelectorsOf(PlanChunks(facts, limits, minimum))
  {
    ClassesArePlannable(facts, limits, minimum);
    var groups := ComputeClasses(facts, minimum);
    selectors := SelectorsForClasses(groups, limits);
  }
}
