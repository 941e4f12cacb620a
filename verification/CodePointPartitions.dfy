/**
 Total assignments of values to code points: one slot per code point while the tables are built
 (tools/unicode-tables.ts), run-length partitions afterwards (packages/unicode/src/set.ts).
 */
module CodePointPartitions {
  import opened CodePointSets

  datatype Partition = Partition(boundaries: seq<int>, values: seq<int>)

  /** Runs start at increasing code points. */
  ghost predicate Runs(p: Partition) {
    && |p.boundaries| == |p.values| && Increasing(p.boundaries)
    && forall i | 0 <= i < |p.boundaries| :: IsCodePoint(p.boundaries[i])
  }

  /** The first run starts at zero, so every code point has a value. */
  ghost predicate IsPartition(p: Partition) {
    Runs(p) && p.boundaries != [] && p.boundaries[0] == 0
  }

  /** No run could be joined with the next one, nor the first with what precedes all runs. */
  ghost predicate NoEqualNeighbours(p: Partition) {
    && (forall i | 0 < i < |p.values| :: p.values[i - 1] != p.values[i])
    && (p.values != [] ==> p.values[0] != NO_VALUE)
  }

  const NO_VALUE := -1

  /** The value of the last run that starts at or before the code point, if any does. */
  ghost function RunValueAt(p: Partition, c: int): int
    requires Runs(p)
  {
    var n := Reached(p.boundaries, c);
    if n == 0 then NO_VALUE else p.values[n - 1]
  }

  ghost function ValueAt(p: Partition, c: int): int
    requires IsPartition(p) && IsCodePoint(c)
  {
    SomeReached(p.boundaries, c);
    p.values[Reached(p.boundaries, c) - 1]
  }

  lemma ValueIsRunValue(p: Partition, c: int)
    requires IsPartition(p) && IsCodePoint(c)
    ensures ValueAt(p, c) == RunValueAt(p, c)
  {
    SomeReached(p.boundaries, c);
  }

  lemma SomeReached(b: seq<int>, c: int)
    requires b != [] && b[0] <= c
    ensures Reached(b, c) > 0
  {
    DropFirst(b, c);
  }

  lemma RunValue(p: Partition, i: nat, c: int)
    requires IsPartition(p) && i < |p.boundaries| && IsCodePoint(c)
    requires p.boundaries[i] <= c && (i + 1 < |p.boundaries| ==> c < p.boundaries[i + 1])
    ensures ValueAt(p, c) == p.values[i]
  {
    ReachedIs(p.boundaries, c, i + 1);
  }

  /** The value at one code point, by binary search over the runs. */
  method PartitionValueAt(p: Partition, c: int) returns (r: Result<int>)
    requires IsPartition(p)
    ensures r.Ok? <==> IsCodePoint(c)
    ensures r.Ok? ==> r.value == ValueAt(p, c)
  {
    if !IsCodePoint(c) {
      return RangeError;
    }
    var low := CountReached(p.boundaries, c);
    SomeReached(p.boundaries, c);
    r := Ok(p.values[low - 1]);
  }

  // ----- From one slot per code point to runs -----

  function Slot(assigned': int, fallback: int): int {
    if assigned' < 0 then fallback else assigned'
  }

  /** The runs describe the first `n` slots. */
  ghost predicate Describes(p: Partition, slots: seq<int>, fallback: int, n: nat) {
    && n <= |slots| <= LIMIT && Runs(p) && NoEqualNeighbours(p)
    && (p.boundaries != [] ==> p.boundaries[|p.boundaries| - 1] < n)
    && (forall c | 0 <= c < n :: RunValueAt(p, c) == Slot(slots[c], fallback))
  }

  function Current(p: Partition): int {
    if p.values == [] then NO_VALUE else p.values[|p.values| - 1]
  }

  lemma BehindLastRun(p: Partition, c: int)
    requires Runs(p) && (p.boundaries != [] ==> p.boundaries[|p.boundaries| - 1] <= c)
    ensures RunValueAt(p, c) == Current(p)
  {
    ReachedIs(p.boundaries, c, |p.boundaries|);
  }

  lemma SameRun(p: Partition, slots: seq<int>, fallback: int, n: nat)
    requires Describes(p, slots, fallback, n) && n < |slots| && Slot(slots[n], fallback) == Current(p)
    ensures Describes(p, slots, fallback, n + 1)
  {
    BehindLastRun(p, n);
  }

  function Append(p: Partition, boundary: int, value: int): Partition {
    Partition(p.boundaries + [boundary], p.values + [value])
  }

  lemma AppendIsRuns(p: Partition, n: int, value: int)
    requires Runs(p) && NoEqualNeighbours(p) && IsCodePoint(n) && Current(p) != value
    requires p.boundaries != [] ==> p.boundaries[|p.boundaries| - 1] < n
    ensures Runs(Append(p, n, value)) && NoEqualNeighbours(Append(p, n, value))
  {}

  lemma AppendValues(p: Partition, n: int, value: int, c: int)
    requires Runs(p) && Runs(Append(p, n, value)) && 0 <= c <= n
    ensures RunValueAt(Append(p, n, value), c) == if c < n then RunValueAt(p, c) else value
  {
    if c == n {
      BehindLastRun(Append(p, n, value), c);
    } else {
      ReachedConcat(p.boundaries, [n], c);
      assert [n][..0] == [];
    }
  }

  lemma NextRun(p: Partition, slots: seq<int>, fallback: int, n: nat)
    requires Describes(p, slots, fallback, n) && n < |slots| && Slot(slots[n], fallback) != Current(p)
    ensures Describes(Append(p, n, Slot(slots[n], fallback)), slots, fallback, n + 1)
  {
    var value := Slot(slots[n], fallback);
    AppendIsRuns(p, n, value);
    forall c | 0 <= c <= n ensures RunValueAt(Append(p, n, value), c) == Slot(slots[c], fallback) {
      AppendValues(p, n, value, c);
    }
  }

  /** The first run starts at zero exactly when code point zero has a value. */
  lemma StartsAtZeroIff(p: Partition)
    requires Runs(p) && NoEqualNeighbours(p)
    ensures IsPartition(p) <==> RunValueAt(p, 0) != NO_VALUE
  {
    if p.boundaries != [] && p.boundaries[0] == 0 {
      ReachedIs(p.boundaries, 0, 1);
    } else {
      ReachedIs(p.boundaries, 0, 0);
    }
  }

  /** Runs of every slot; they cover code point zero unless its slot is free and the fallback is no value either. */
  method PartitionFromAssignments(assignments: array<int>, fallback: int) returns (p: Partition)
    requires assignments.Length == LIMIT
    ensures Runs(p) && NoEqualNeighbours(p)
    ensures forall c | IsCodePoint(c) :: RunValueAt(p, c) == Slot(assignments[c], fallback)
    ensures IsPartition(p) <==> Slot(assignments[0], fallback) != NO_VALUE
    ensures IsPartition(p) ==> forall c | IsCodePoint(c) :: ValueAt(p, c) == Slot(assignments[c], fallback)
  {
    ghost var slots := assignments[..];
    p := Partition([], []);
    var current := NO_VALUE;
    for codePoint := 0 to LIMIT
      invariant Describes(p, slots, fallback, codePoint) && current == Current(p)
    {
      var value := Slot(assignments[codePoint], fallback);
      if value == current {
        SameRun(p, slots, fallback, codePoint);
      } else {
        NextRun(p, slots, fallback, codePoint);
        p := Append(p, codePoint, value);
        current := value;
      }
    }
    StartsAtZeroIff(p);
    forall c | IsPartition(p) && IsCodePoint(c) ensures ValueAt(p, c) == RunValueAt(p, c) {
      ValueIsRunValue(p, c);
    }
  }

  // ----- The runs of an assignment are unique -----

  /** A run starts exactly where the value changes. */
  lemma RunStarts(p: Partition, c: int)
    requires IsPartition(p) && NoEqualNeighbours(p) && 0 < c <= MAX_CODE_POINT
    ensures c in p.boundaries <==> ValueAt(p, c) != ValueAt(p, c - 1)
  {
    var n := Reached(p.boundaries, c);
    SomeReached(p.boundaries, c);
    HoldingRun(p.boundaries, c);
    if p.boundaries[n - 1] == c {
      assert n > 1;
      RunValue(p, n - 2, c - 1);
    } else {
      RunValue(p, n - 1, c - 1);
      NotABoundary(p.boundaries, c, n);
    }
  }

  lemma NotABoundary(b: seq<int>, c: int, n: nat)
    requires Increasing(b) && 0 < n <= |b| && b[n - 1] < c && (n < |b| ==> c < b[n])
    ensures c !in b
  {
    forall i | 0 <= i < |b| ensures b[i] != c {
      if i < n - 1 {
        assert b[i] < b[n - 1];
      } else if i > n {
        assert b[n] < b[i];
      }
    }
  }

  /** The reached boundaries are the ones up to the code point. */
  lemma {:induction false} HoldingRun(b: seq<int>, c: int)
    requires Increasing(b)
    ensures var n := Reached(b, c);
      (n > 0 ==> b[n - 1] <= c) && (n < |b| ==> c < b[n])
  {
    var i := 0;
    while i < |b| && b[i] <= c
      invariant i <= |b| && (i > 0 ==> b[i - 1] <= c)
    {
      i := i + 1;
    }
    ReachedIs(b, c, i);
  }

  lemma FirstIsMember(b: seq<int>)
    requires b != []
    ensures b[0] in b
  {}

  lemma {:induction false} IncreasingIsDetermined(a: seq<int>, b: seq<int>)
    requires Increasing(a) && Increasing(b) && forall c :: c in a <==> c in b
    ensures a == b
    decreases |a|
  {
    if a == [] {
      if b != [] {
        FirstIsMember(b);
        assert false;
      }
    } else {
      assert a[0] in b && b != [];
      assert b[0] in a;
      assert a == [a[0]] + a[1..] && b == [b[0]] + b[1..];
      assert a[0] == b[0];
      forall c ensures c in a[1..] <==> c in b[1..] {
        assert c in a[1..] <==> c in a && c != a[0];
        assert c in b[1..] <==> c in b && c != b[0];
      }
      IncreasingIsDetermined(a[1..], b[1..]);
    }
  }

  /** Two run-length forms of the same assignment are equal. */
  lemma PartitionsAreUnique(p: Partition, q: Partition)
    requires IsPartition(p) && IsPartition(q) && NoEqualNeighbours(p) && NoEqualNeighbours(q)
    requires forall c | IsCodePoint(c) :: ValueAt(p, c) == ValueAt(q, c)
    ensures p == q
  {
    forall c ensures c in p.boundaries <==> c in q.boundaries {
      if 0 < c <= MAX_CODE_POINT {
        RunStarts(p, c);
        RunStarts(q, c);
      } else if c == 0 {
        assert p.boundaries[0] in p.boundaries && q.boundaries[0] in q.boundaries;
      }
    }
    IncreasingIsDetermined(p.boundaries, q.boundaries);
    forall i | 0 <= i < |p.values| ensures p.values[i] == q.values[i] {
      RunValue(p, i, p.boundaries[i]);
      RunValue(q, i, q.boundaries[i]);
    }
  }

  // ----- The code points of selected values -----

  ghost predicate Selects(p: Partition, selected: set<int>, s: CodePointSet, n: nat)
    requires IsPartition(p)
  {
    && n <= |p.boundaries| && WellFormed(s)
    && (forall k | 0 <= k < |s| :: s[k] <= End(p, n))
    && (forall c | IsCodePoint(c) && c < End(p, n) :: Holds(s, c) <==> ValueAt(p, c) in selected)
  }

  /** Where run `n` starts, or the limit past the last run. */
  function End(p: Partition, n: nat): int {
    if n < |p.boundaries| then p.boundaries[n] else LIMIT
  }

  function AddRun(s: CodePointSet, start: int, end: int): CodePointSet {
    if s != [] && s[|s| - 1] == start then s[|s| - 1 := end] else s + [start, end]
  }

  lemma AddRunHolds(s: CodePointSet, start: int, end: int)
    requires WellFormed(s) && 0 <= start < end <= LIMIT && forall k | 0 <= k < |s| :: s[k] <= start
    ensures WellFormed(AddRun(s, start, end))
    ensures forall c :: Holds(AddRun(s, start, end), c) <==> Holds(s, c) || start <= c < end
  {
    if s != [] && s[|s| - 1] == start {
      var r := Range(start, end - 1);
      assert s[|s| - 2] < s[|s| - 1];
      ExtendHolds(s, r);
      assert Extend(s, r) == AddRun(s, start, end);
    } else {
      AppendRange(s, start, end);
    }
  }

  lemma RunIsUniform(p: Partition, n: nat, c: int)
    requires IsPartition(p) && n < |p.boundaries| && IsCodePoint(c) && p.boundaries[n] <= c < End(p, n + 1)
    ensures ValueAt(p, c) == p.values[n]
  {
    RunValue(p, n, c);
  }

  lemma SelectRun(p: Partition, selected: set<int>, s: CodePointSet, n: nat)
    requires IsPartition(p) && Selects(p, selected, s, n) && n < |p.boundaries|
    ensures Selects(p, selected, if p.values[n] in selected then AddRun(s, End(p, n), End(p, n + 1)) else s, n + 1)
  {
    var now := if p.values[n] in selected then AddRun(s, End(p, n), End(p, n + 1)) else s;
    assert End(p, n) < End(p, n + 1);
    if p.values[n] in selected {
      AddRunHolds(s, End(p, n), End(p, n + 1));
    }
    forall c | IsCodePoint(c) && c < End(p, n + 1) ensures Holds(now, c) <==> ValueAt(p, c) in selected {
      if c >= End(p, n) {
        RunIsUniform(p, n, c);
        AllReached(s, c);
      }
    }
  }

  /** Every code point whose value is one of those selected, as a normalized set. */
  method PartitionSet(p: Partition, selected: set<int>) returns (s: CodePointSet)
    requires IsPartition(p)
    ensures WellFormed(s)
    ensures forall c | IsCodePoint(c) :: Holds(s, c) <==> ValueAt(p, c) in selected
  {
    s := [];
    for index := 0 to |p.boundaries|
      invariant Selects(p, selected, s, index)
    {
      SelectRun(p, selected, s, index);
      if p.values[index] in selected {
        s := AddRun(s, End(p, index), End(p, index + 1));
      }
    }
  }
}
