/**
 Code-point sets as inversion lists and partitions as runs (packages/unicode/src/set.ts):
 strictly increasing boundaries at which membership toggles.
 */
module CodePointSets {
  import opened Sorting

  const MAX_CODE_POINT := 0x10ffff
  const LIMIT := MAX_CODE_POINT + 1

  type CodePointSet = seq<int>

  ghost predicate Increasing(b: seq<int>) {
    forall i, j | 0 <= i < j < |b| :: b[i] < b[j]
  }

  ghost predicate WellFormed(s: CodePointSet) {
    Increasing(s) && |s| % 2 == 0 && forall i | 0 <= i < |s| :: 0 <= s[i] <= LIMIT
  }

  /** How many boundaries are not above a code point. */
  ghost function Reached(b: seq<int>, c: int): (n: nat)
    ensures n <= |b|
  {
    if b == [] then 0 else Reached(b[..|b| - 1], c) + if b[|b| - 1] <= c then 1 else 0
  }

  /** A code point is a member when an odd number of boundaries has been reached. */
  ghost predicate Holds(s: CodePointSet, c: int) {
    Reached(s, c) % 2 == 1
  }

  lemma {:induction false} AllReached(b: seq<int>, c: int)
    requires forall i | 0 <= i < |b| :: b[i] <= c
    ensures Reached(b, c) == |b|
  {
    if b != [] {
      AllReached(b[..|b| - 1], c);
    }
  }

  lemma {:induction false} NoneReached(b: seq<int>, c: int)
    requires forall i | 0 <= i < |b| :: b[i] > c
    ensures Reached(b, c) == 0
  {
    if b != [] {
      NoneReached(b[..|b| - 1], c);
    }
  }

  lemma {:induction false} ReachedConcat(a: seq<int>, b: seq<int>, c: int)
    ensures Reached(a + b, c) == Reached(a, c) + Reached(b, c)
    decreases |b|
  {
    if b == [] {
      assert a + b == a;
    } else {
      assert (a + b)[..|a + b| - 1] == a + b[..|b| - 1];
      ReachedConcat(a, b[..|b| - 1], c);
    }
  }

  /** The first boundary above a code point stands after the reached ones. */
  lemma ReachedIs(b: seq<int>, c: int, n: nat)
    requires Increasing(b) && n <= |b|
    requires (n > 0 ==> b[n - 1] <= c) && (n < |b| ==> b[n] > c)
    ensures Reached(b, c) == n
  {
    ReachedPrefix(b, c, n);
    ReachedSuffix(b, c, n);
    ReachedConcat(b[..n], b[n..], c);
    assert b == b[..n] + b[n..];
  }

  lemma ReachedPrefix(b: seq<int>, c: int, n: nat)
    requires Increasing(b) && n <= |b| && (n > 0 ==> b[n - 1] <= c)
    ensures Reached(b[..n], c) == n
  {
    forall i | 0 <= i < n ensures b[..n][i] <= c {
      assert i < n - 1 ==> b[i] < b[n - 1];
    }
    AllReached(b[..n], c);
  }

  lemma ReachedSuffix(b: seq<int>, c: int, n: nat)
    requires Increasing(b) && n <= |b| && (n < |b| ==> b[n] > c)
    ensures Reached(b[n..], c) == 0
  {
    forall i | 0 <= i < |b| - n ensures b[n..][i] > c {
      assert i > 0 ==> b[n] < b[n + i];
    }
    NoneReached(b[n..], c);
  }

  method CountReached(b: seq<int>, c: int) returns (low: nat)
    requires Increasing(b)
    ensures low == Reached(b, c)
  {
    low := 0;
    var high := |b|;
    while low < high
      invariant low <= high <= |b|
      invariant low > 0 ==> b[low - 1] <= c
      invariant high < |b| ==> b[high] > c
    {
      var middle := (low + high) / 2;
      if b[middle] <= c {
        low := middle + 1;
      } else {
        high := middle;
      }
    }
    ReachedIs(b, c, low);
  }

  datatype Result<+T> = Ok(value: T) | RangeError

  predicate IsCodePoint(c: int) {
    0 <= c <= MAX_CODE_POINT
  }

  /** Whether a set holds one code point, by binary search. */
  method CodePointSetHas(s: CodePointSet, c: int) returns (r: Result<bool>)
    requires WellFormed(s)
    ensures r == if IsCodePoint(c) then Ok(Holds(s, c)) else RangeError
  {
    if !IsCodePoint(c) {
      return RangeError;
    }
    var low := CountReached(s, c);
    r := Ok(low % 2 == 1);
  }

  // ----- The inversion list of a set is unique -----

  ghost predicate SameMembers(a: CodePointSet, b: CodePointSet) {
    forall c :: Holds(a, c) <==> Holds(b, c)
  }

  /** Dropping the first boundary flips every code point from it on. */
  lemma DropFirst(s: seq<int>, c: int)
    requires s != []
    ensures Reached(s, c) == Reached(s[1..], c) + if s[0] <= c then 1 else 0
  {
    assert s == s[..1] + s[1..];
    ReachedConcat(s[..1], s[1..], c);
    assert s[..1][..0] == [];
  }

  lemma BelowFirst(s: seq<int>, c: int)
    requires Increasing(s) && (s != [] ==> c < s[0])
    ensures Reached(s, c) == 0
  {
    ReachedIs(s, c, 0);
  }

  lemma AtFirst(s: seq<int>)
    requires Increasing(s) && s != []
    ensures Reached(s, s[0]) == 1
  {
    ReachedIs(s, s[0], 1);
  }

  lemma SameFirstBoundary(a: seq<int>, b: seq<int>)
    requires Increasing(a) && Increasing(b) && SameMembers(a, b) && a != []
    ensures b != [] && b[0] <= a[0]
  {
    AtFirst(a);
    assert Holds(a, a[0]);
    assert Holds(b, a[0]);
    if b == [] || a[0] < b[0] {
      BelowFirst(b, a[0]);
      assert false;
    }
  }

  lemma DropSameFirst(a: seq<int>, b: seq<int>)
    requires SameMembers(a, b) && a != [] && b != [] && a[0] == b[0]
    ensures SameMembers(a[1..], b[1..])
  {
    forall c ensures Holds(a[1..], c) <==> Holds(b[1..], c) {
      assert Holds(a, c) <==> Holds(b, c);
      DropFirst(a, c);
      DropFirst(b, c);
    }
  }

  /** Increasing boundaries are determined by the members they describe. */
  lemma {:induction false} BoundariesAreUnique(a: seq<int>, b: seq<int>)
    requires Increasing(a) && Increasing(b) && SameMembers(a, b)
    ensures a == b
    decreases |a|
  {
    if a == [] {
      if b != [] {
        SameFirstBoundary(b, a);
        assert false;
      }
    } else {
      SameFirstBoundary(a, b);
      SameFirstBoundary(b, a);
      DropSameFirst(a, b);
      BoundariesAreUnique(a[1..], b[1..]);
      assert a == [a[0]] + a[1..] && b == [b[0]] + b[1..];
    }
  }

  /** Well-formed sets with the same code points are the same list. */
  lemma SetsAreUnique(a: CodePointSet, b: CodePointSet)
    requires WellFormed(a) && WellFormed(b)
    requires forall c | IsCodePoint(c) :: Holds(a, c) <==> Holds(b, c)
    ensures a == b
  {
    forall c ensures Holds(a, c) <==> Holds(b, c) {
      if c < 0 {
        NoneReached(a, c);
        NoneReached(b, c);
      } else if c >= LIMIT {
        AllReached(a, c);
        AllReached(b, c);
      }
    }
    BoundariesAreUnique(a, b);
  }

  // ----- Building a set from ranges -----

  datatype Range = Range(start: int, end: int)

  predicate ValidRange(r: Range) {
    IsCodePoint(r.start) && IsCodePoint(r.end) && r.start <= r.end
  }

  ghost predicate InRanges(ranges: seq<Range>, c: int) {
    exists r | r in ranges :: r.start <= c <= r.end
  }

  predicate ByStart(a: Range, b: Range) {
    a.start < b.start
  }

  /** A closed set takes one more range above all its boundaries. */
  lemma AppendRange(b: seq<int>, start: int, end: int)
    requires Increasing(b) && |b| % 2 == 0 && start < end && (b != [] ==> b[|b| - 1] < start)
    ensures Increasing(b + [start, end])
    ensures forall c :: Holds(b + [start, end], c) <==> Holds(b, c) || start <= c < end
  {
    forall c ensures Holds(b + [start, end], c) <==> Holds(b, c) || start <= c < end {
      ReachedConcat(b, [start, end], c);
      assert [start, end][..1] == [start] && [start][..0] == [];
      if start <= c {
        AllReached(b, c);
      }
    }
  }

  /** The boundaries built from the ranges that start first. */
  ghost predicate Builds(b: CodePointSet, done: seq<Range>) {
    && WellFormed(b)
    && (forall c :: Holds(b, c) <==> InRanges(done, c))
    && (done == [] <==> b == [])
    && (done != [] ==> b[|b| - 2] <= done[|done| - 1].start)
  }

  function Extend(b: CodePointSet, r: Range): CodePointSet
    requires |b| % 2 == 0
  {
    var last := |b| - 1;
    if b != [] && r.start <= b[last] then
      if r.end + 1 > b[last] then b[last := r.end + 1] else b
    else b + [r.start, r.end + 1]
  }

  /** A range that starts inside the last one only widens it. */
  lemma WidenRange(init: seq<int>, start: int, end: int, wider: int)
    requires Increasing(init + [start, end]) && |init| % 2 == 0 && end <= wider
    ensures Increasing(init + [start, wider])
    ensures forall c :: Holds(init + [start, wider], c) <==> Holds(init + [start, end], c) || start <= c < wider
  {
    var b := init + [start, end];
    assert forall k | 0 <= k < |init| :: init[k] == b[k];
    assert b[|init|] == start && b[|init| + 1] == end;
    AppendRange(init, start, end);
    AppendRange(init, start, wider);
  }

  lemma WidenBounds(b: CodePointSet, init: seq<int>, start: int, end: int, wider: int)
    requires WellFormed(b) && b == init + [start, end] && end <= wider <= LIMIT && Increasing(init + [start, wider])
    ensures WellFormed(init + [start, wider])
  {
    assert forall k | 0 <= k < |init| :: init[k] == b[k];
    assert b[|init|] == start;
  }

  lemma OverlapHolds(init: seq<int>, start: int, end: int, r: Range, wider: int)
    requires Increasing(init + [start, end]) && |init| % 2 == 0 && start <= r.start <= end
    requires wider == if r.end + 1 > end then r.end + 1 else end
    ensures forall c :: Holds(init + [start, wider], c) <==> Holds(init + [start, end], c) || r.start <= c <= r.end
  {
    var b := init + [start, end];
    assert forall k | 0 <= k < |init| :: init[k] == b[k];
    assert b[|init|] == start && b[|init| + 1] == end;
    AppendRange(init, start, end);
    WidenRange(init, start, end, wider);
  }

  lemma ExtendOverlap(b: CodePointSet, r: Range)
    requires WellFormed(b) && ValidRange(r) && b != [] && b[|b| - 2] <= r.start <= b[|b| - 1]
    ensures WellFormed(Extend(b, r)) && Extend(b, r)[|Extend(b, r)| - 2] <= r.start
    ensures forall c :: Holds(Extend(b, r), c) <==> Holds(b, c) || r.start <= c <= r.end
  {
    var init, start, end := b[..|b| - 2], b[|b| - 2], b[|b| - 1];
    var wider := if r.end + 1 > end then r.end + 1 else end;
    assert b == init + [start, end];
    assert Extend(b, r) == init + [start, wider];
    WidenRange(init, start, end, wider);
    WidenBounds(b, init, start, end, wider);
    OverlapHolds(init, start, end, r, wider);
  }

  lemma ExtendHolds(b: CodePointSet, r: Range)
    requires WellFormed(b) && ValidRange(r) && (b != [] ==> b[|b| - 2] <= r.start)
    ensures WellFormed(Extend(b, r)) && Extend(b, r)[|Extend(b, r)| - 2] <= r.start
    ensures forall c :: Holds(Extend(b, r), c) <==> Holds(b, c) || r.start <= c <= r.end
  {
    if b != [] && r.start <= b[|b| - 1] {
      ExtendOverlap(b, r);
    } else {
      AppendRange(b, r.start, r.end + 1);
    }
  }

  lemma ExtendBuilds(b: CodePointSet, done: seq<Range>, r: Range)
    requires Builds(b, done) && ValidRange(r) && (done != [] ==> done[|done| - 1].start <= r.start)
    ensures Builds(Extend(b, r), done + [r])
  {
    ExtendHolds(b, r);
    forall c ensures InRanges(done + [r], c) <==> InRanges(done, c) || r.start <= c <= r.end {
      AddedRange(done, r, c);
    }
  }

  lemma AddedRange(done: seq<Range>, r: Range, c: int)
    ensures InRanges(done + [r], c) <==> InRanges(done, c) || r.start <= c <= r.end
  {
    if InRanges(done, c) {
      var q :| q in done && q.start <= c <= q.end;
      assert q in done + [r];
    }
    if r.start <= c <= r.end {
      assert r in done + [r];
    }
  }

  lemma ByStartIsWeakOrder()
    ensures WeakOrder(ByStart)
  {}

  lemma SortedStarts(ranges: seq<Range>, i: nat)
    requires i < |ranges|
    ensures var sorted := Sort(ByStart, ranges);
      |sorted| == |ranges| && sorted[i] in ranges && (i > 0 ==> sorted[i - 1].start <= sorted[i].start)
  {
    var sorted := Sort(ByStart, ranges);
    ByStartIsWeakOrder();
    SortSorts(ByStart, ranges);
    assert |multiset(sorted)| == |multiset(ranges)|;
    Sorting.SameMembers(sorted, ranges);
    if i > 0 {
      assert !ByStart(sorted[i], sorted[i - 1]);
    }
  }

  lemma SortedCovers(ranges: seq<Range>, c: int)
    ensures InRanges(Sort(ByStart, ranges), c) <==> InRanges(ranges, c)
  {
    Sorting.SameMembers(Sort(ByStart, ranges), ranges);
  }

  method CheckRanges(ranges: seq<Range>) returns (ok: bool)
    ensures ok <==> forall q | q in ranges :: ValidRange(q)
  {
    for i := 0 to |ranges|
      invariant forall q | q in ranges[..i] :: ValidRange(q)
    {
      if !ValidRange(ranges[i]) {
        return false;
      }
    }
    assert ranges[..|ranges|] == ranges;
    ok := true;
  }

  lemma BuildsNext(boundaries: CodePointSet, sorted: seq<Range>, i: nat)
    requires i < |sorted| && ValidRange(sorted[i]) && (i > 0 ==> sorted[i - 1].start <= sorted[i].start)
    requires Builds(boundaries, sorted[..i])
    ensures Builds(Extend(boundaries, sorted[i]), sorted[..i + 1])
  {
    ExtendBuilds(boundaries, sorted[..i], sorted[i]);
    assert sorted[..i + 1] == sorted[..i] + [sorted[i]];
  }

  method MergeSorted(ranges: seq<Range>, sorted: seq<Range>) returns (boundaries: CodePointSet)
    requires sorted == Sort(ByStart, ranges) && forall q | q in ranges :: ValidRange(q)
    ensures Builds(boundaries, sorted)
  {
    boundaries := [];
    assert |multiset(sorted)| == |multiset(ranges)|;
    for i := 0 to |sorted|
      invariant Builds(boundaries, sorted[..i])
    {
      SortedStarts(ranges, i);
      BuildsNext(boundaries, sorted, i);
      boundaries := Extend(boundaries, sorted[i]);
    }
    assert sorted[..|sorted|] == sorted;
  }

  /** The normalized set of possibly unsorted, overlapping ranges holds exactly their code points. */
  method CodePointSetFromRanges(ranges: seq<Range>) returns (r: Result<CodePointSet>)
    ensures r.Ok? <==> forall q | q in ranges :: ValidRange(q)
    ensures r.Ok? ==> WellFormed(r.value) && forall c :: Holds(r.value, c) <==> InRanges(ranges, c)
  {
    var ok := CheckRanges(ranges);
    if !ok {
      return RangeError;
    }
    var boundaries := MergeSorted(ranges, Sort(ByStart, ranges));
    forall c ensures Holds(boundaries, c) <==> InRanges(ranges, c) {
      SortedCovers(ranges, c);
    }
    r := Ok(boundaries);
  }

  // ----- Union -----

  function At(s: seq<int>, i: nat): int {
    if i < |s| then s[i] else LIMIT + 1
  }

  /** The open ranges once `i` and `j` boundaries have been passed. */
  function Depth(i: nat, j: nat): nat {
    i % 2 + j % 2
  }

  /** `i` boundaries lie below `v`, the next ones at `v` or above. */
  ghost predicate Front(s: CodePointSet, i: nat, v: int) {
    i <= |s| && (i > 0 ==> s[i - 1] < v) && v <= At(s, i)
  }

  ghost predicate UnionBelow(left: CodePointSet, right: CodePointSet, b: seq<int>, v: int) {
    forall c | c < v :: Holds(b, c) <==> Holds(left, c) || Holds(right, c)
  }

  ghost predicate AllBelow(b: seq<int>, v: int) {
    forall k | 0 <= k < |b| :: 0 <= b[k] <= LIMIT && b[k] < v
  }

  /** The union is built up to `v`. */
  ghost predicate Merging(left: CodePointSet, right: CodePointSet, i: nat, j: nat, b: seq<int>, v: int) {
    && Front(left, i, v) && Front(right, j, v)
    && Increasing(b) && AllBelow(b, v)
    && (|b| % 2 == 1 <==> Depth(i, j) > 0)
    && UnionBelow(left, right, b, v)
  }

  function Min(a: int, b: int): int {
    if a < b then a else b
  }

  /** Appending a boundary above all others flips exactly what lies beyond it. */
  lemma AppendBoundary(b: seq<int>, v: int, c: int)
    requires AllBelow(b, v)
    ensures c < v ==> (Holds(b + [v], c) <==> Holds(b, c))
    ensures c >= v ==> (Holds(b, c) <==> |b| % 2 == 1) && (Holds(b + [v], c) <==> |b| % 2 == 0)
  {
    ReachedConcat(b, [v], c);
    assert [v][..0] == [];
    if c >= v {
      AllReached(b, c);
    }
  }

  function Pass(s: seq<int>, i: nat, v: int): nat {
    if At(s, i) == v then i + 1 else i
  }

  function Next(left: CodePointSet, right: CodePointSet, i: nat, j: nat): int {
    Min(At(left, i), At(right, j))
  }

  /** Plus one where a range of the set opens at `value`, minus one where it closes. */
  function Opening(s: CodePointSet, i: nat, value: int): (opening: int)
    ensures i % 2 + opening == Pass(s, i, value) % 2
  {
    if At(s, i) != value then 0 else if i % 2 == 0 then 1 else -1
  }

  lemma PassMovesFront(s: CodePointSet, i: nat, v: int, w: int)
    requires WellFormed(s) && Front(s, i, v) && v <= LIMIT && v < w <= At(s, Pass(s, i, v))
    ensures Front(s, Pass(s, i, v), w)
    ensures Constant(s, v, w, Pass(s, i, v) % 2 == 1)
  {
    forall c | v <= c < w ensures Holds(s, c) <==> Pass(s, i, v) % 2 == 1 {
      ReachedIs(s, c, Pass(s, i, v));
    }
  }

  lemma PassAdvances(s: CodePointSet, i: nat, v: int)
    requires WellFormed(s) && Front(s, i, v) && v <= LIMIT
    ensures v < At(s, Pass(s, i, v))
  {}

  /** A boundary is written where the union opens or closes. */
  function Toggle(b: seq<int>, before: int, after: int, v: int): seq<int> {
    if (before == 0) != (after == 0) then b + [v] else b
  }

  lemma ToggleKeeps(b: seq<int>, before: nat, after: nat, v: int, c: int)
    requires AllBelow(b, v) && (|b| % 2 == 1 <==> before > 0)
    ensures c < v ==> (Holds(Toggle(b, before, after, v), c) <==> Holds(b, c))
    ensures c >= v ==> (Holds(Toggle(b, before, after, v), c) <==> after > 0)
  {
    AppendBoundary(b, v, c);
  }

  lemma ToggleShape(b: seq<int>, before: nat, after: nat, v: int, w: int)
    requires Increasing(b) && AllBelow(b, v) && 0 <= v <= LIMIT && v < w && (|b| % 2 == 1 <==> before > 0)
    ensures var now := Toggle(b, before, after, v);
      Increasing(now) && AllBelow(now, w) && (|now| % 2 == 1 <==> after > 0)
  {}

  /** Between two boundaries both sets are constant. */
  ghost predicate Constant(s: CodePointSet, v: int, w: int, member: bool) {
    forall c | v <= c < w :: Holds(s, c) <==> member
  }

  lemma ToggleUnion(left: CodePointSet, right: CodePointSet, b: seq<int>, before: nat, i: nat, j: nat, v: int, w: int)
    requires AllBelow(b, v) && (|b| % 2 == 1 <==> before > 0) && UnionBelow(left, right, b, v)
    requires Constant(left, v, w, i % 2 == 1) && Constant(right, v, w, j % 2 == 1)
    ensures UnionBelow(left, right, Toggle(b, before, Depth(i, j), v), w)
  {
    forall c | c < w ensures Holds(Toggle(b, before, Depth(i, j), v), c) <==> Holds(left, c) || Holds(right, c) {
      ToggleKeeps(b, before, Depth(i, j), v, c);
    }
  }

  lemma MergeStep(left: CodePointSet, right: CodePointSet, i: nat, j: nat, b: seq<int>, v: int, w: int)
    requires WellFormed(left) && WellFormed(right) && Merging(left, right, i, j, b, v) && 0 <= v <= LIMIT
    requires w == Next(left, right, Pass(left, i, v), Pass(right, j, v))
    ensures var i', j' := Pass(left, i, v), Pass(right, j, v);
      Merging(left, right, i', j', Toggle(b, Depth(i, j), Depth(i', j'), v), w)
  {
    var i', j' := Pass(left, i, v), Pass(right, j, v);
    PassAdvances(left, i, v);
    PassAdvances(right, j, v);
    PassMovesFront(left, i, v, w);
    PassMovesFront(right, j, v, w);
    ToggleShape(b, Depth(i, j), Depth(i', j'), v, w);
    ToggleUnion(left, right, b, Depth(i, j), i', j', v, w);
  }

  /** Sweep both sets at once; a boundary is written where the number of open ranges leaves or reaches zero. */
  method UnionCodePointSets(left: CodePointSet, right: CodePointSet) returns (boundaries: CodePointSet)
    requires WellFormed(left) && WellFormed(right)
    ensures WellFormed(boundaries)
    ensures forall c :: Holds(boundaries, c) <==> Holds(left, c) || Holds(right, c)
  {
    boundaries := [];
    var leftIndex: nat, rightIndex: nat, depth: int := 0, 0, 0;
    NothingBelow(left, right, Min(At(left, 0), At(right, 0)));
    while leftIndex < |left| || rightIndex < |right|
      invariant leftIndex <= |left| && rightIndex <= |right| && depth == Depth(leftIndex, rightIndex)
      invariant Merging(left, right, leftIndex, rightIndex, boundaries, Next(left, right, leftIndex, rightIndex))
      decreases |left| - leftIndex + |right| - rightIndex
    {
      var value := Next(left, right, leftIndex, rightIndex);
      MergeStep(left, right, leftIndex, rightIndex, boundaries, value,
                Next(left, right, Pass(left, leftIndex, value), Pass(right, rightIndex, value)));
      var fromLeft := Opening(left, leftIndex, value);
      var fromRight := Opening(right, rightIndex, value);
      var previous := depth;
      depth := depth + fromLeft + fromRight;
      leftIndex, rightIndex := Pass(left, leftIndex, value), Pass(right, rightIndex, value);
      boundaries := Toggle(boundaries, previous, depth, value);
    }
    MergedAll(left, right, boundaries);
  }

  lemma NothingBelow(left: CodePointSet, right: CodePointSet, v: int)
    requires WellFormed(left) && WellFormed(right) && v <= At(left, 0) && v <= At(right, 0)
    ensures Merging(left, right, 0, 0, [], v)
  {
    forall c | c < v ensures !Holds([], c) && !Holds(left, c) && !Holds(right, c) {
      NoneReached(left, c);
      NoneReached(right, c);
    }
  }

  lemma MergedAll(left: CodePointSet, right: CodePointSet, b: CodePointSet)
    requires WellFormed(left) && WellFormed(right) && Merging(left, right, |left|, |right|, b, LIMIT + 1)
    ensures WellFormed(b) && forall c :: Holds(b, c) <==> Holds(left, c) || Holds(right, c)
  {
    forall c ensures Holds(b, c) <==> Holds(left, c) || Holds(right, c) {
      if c > LIMIT {
        AllReached(b, c);
        AllReached(left, c);
        AllReached(right, c);
      }
    }
  }

  // ----- Complement -----

  /** The complement is built up to `position`. */
  ghost predicate Complements(s: CodePointSet, b: seq<int>, n: nat, position: int) {
    && n <= |s| && n % 2 == 0 && |b| % 2 == 0 && Increasing(b)
    && position == (if n == 0 then 0 else s[n - 1])
    && (forall k | 0 <= k < |b| :: 0 <= b[k] <= LIMIT && b[k] < position)
    && (forall c | 0 <= c < position :: Holds(b, c) <==> !Holds(s, c))
  }

  lemma ComplementGap(s: CodePointSet, b: seq<int>, n: nat, position: int, start: int)
    requires WellFormed(s) && Complements(s, b, n, position) && position < start <= LIMIT
    requires start == if n < |s| then s[n] else LIMIT
    ensures WellFormed(b + [position, start])
    ensures forall c | 0 <= c < start :: Holds(b + [position, start], c) <==> !Holds(s, c)
  {
    AppendRange(b, position, start);
    forall c | 0 <= c < start ensures Holds(b + [position, start], c) <==> !Holds(s, c) {
      if c >= position {
        ReachedIs(s, c, n);
        AllReached(b, c);
      }
    }
  }

  lemma ComplementStep(s: CodePointSet, b: seq<int>, n: nat, position: int)
    requires WellFormed(s) && Complements(s, b, n, position) && n + 1 < |s|
    ensures Complements(s, if s[n] > position then b + [position, s[n]] else b, n + 2, s[n + 1])
  {
    var now := if s[n] > position then b + [position, s[n]] else b;
    if s[n] > position {
      ComplementGap(s, b, n, position, s[n]);
    }
    forall c | 0 <= c < s[n + 1] ensures Holds(now, c) <==> !Holds(s, c) {
      if c >= s[n] {
        ReachedIs(s, c, n + 1);
        AllReached(now, c);
      }
    }
  }

  method ComplementCodePointSet(s: CodePointSet) returns (boundaries: CodePointSet)
    requires WellFormed(s)
    ensures WellFormed(boundaries)
    ensures forall c | IsCodePoint(c) :: Holds(boundaries, c) <==> !Holds(s, c)
  {
    boundaries := [];
    var position, index := 0, 0;
    while index + 1 < |s|
      invariant index <= |s| && Complements(s, boundaries, index, position)
    {
      ComplementStep(s, boundaries, index, position);
      var start := s[index];
      if start > position {
        boundaries := boundaries + [position, start];
      }
      position := s[index + 1];
      index := index + 2;
    }
    if position < LIMIT {
      ComplementGap(s, boundaries, index, position, LIMIT);
      boundaries := boundaries + [position, LIMIT];
    }
  }

  ghost predicate IsComplement(a: CodePointSet, b: CodePointSet) {
    WellFormed(a) && WellFormed(b) && forall c | IsCodePoint(c) :: Holds(a, c) <==> !Holds(b, c)
  }

  /** Complementing twice gives back the very list. */
  lemma ComplementIsInvolution(s: CodePointSet, once: CodePointSet, twice: CodePointSet)
    requires IsComplement(once, s) && IsComplement(twice, once)
    ensures twice == s
  {
    SetsAreUnique(twice, s);
  }
}
