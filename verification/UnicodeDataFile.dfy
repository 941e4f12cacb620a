/**
 The general categories of UnicodeData.txt (tools/unicode-tables.ts): lines in increasing code-
 point order, First/Last pairs for ranges, one slot per code point, and the run-length table.
 A line is given with its fields already split.
 */
module UnicodeDataFile {
  import opened Basics
  import opened CodePointSets
  import opened CodePointPartitions

  /** What the name field says: a single code point or one end of a tagged range, whose tag may be malformed. */
  datatype Name = Single | First(tag: Option<string>) | Last(tag: Option<string>)

  /** `Bad` is a line whose fields do not parse; `Blank` lines are skipped. */
  datatype Line = Blank | Bad | Line(codePoint: int, name: Name, category: string, combiningClass: nat, mirrored: bool)

  datatype Pending = Pending(tag: string, category: string, combiningClass: nat, mirrored: bool, start: int)

  type Ranges = map<string, seq<Range>>

  /** `order` lists the categories as they are first recorded. */
  datatype State = State(previous: int, pending: Option<Pending>, ranges: Ranges, order: seq<string>)

  datatype Parsed = Parsed(ranges: Ranges, order: seq<string>) | Failed(line: nat)
                  | EndsInsideRange

  function RangesOf(ranges: Ranges, category: string): seq<Range> {
    if category in ranges then ranges[category] else []
  }

  // ----- One line -----

  predicate Closes(pending: Option<Pending>, line: Line)
    requires line.Line? && line.name.Last?
  {
    && pending.Some? && line.name.tag == Some(pending.value.tag)
    && pending.value.category == line.category
    && pending.value.combiningClass == line.combiningClass
    && pending.value.mirrored == line.mirrored
  }

  function AddRange(ranges: Ranges, category: string, r: Range): Ranges {
    ranges[category := RangesOf(ranges, category) + [r]]
  }

  function AddCategory(order: seq<string>, category: string): seq<string> {
    if category in order then order else order + [category]
  }

  /** Record a range that ends at this line. */
  function Record(s: State, category: string, r: Range): State {
    State(r.end, None, AddRange(s.ranges, category, r), AddCategory(s.order, category))
  }

  function Step(s: State, line: Line): Option<State> {
    match line
    case Blank => Some(s)
    case Bad => None
    case Line(codePoint, name, category, combiningClass, mirrored) =>
      if !IsCodePoint(codePoint) || codePoint <= s.previous then None
      else if name.First? then
        if s.pending.Some? || name.tag == None then None
        else
          var pending := Pending(name.tag.value, category, combiningClass, mirrored, codePoint);
          Some(State(codePoint, Some(pending), s.ranges, s.order))
      else if name.Last? then
        if !Closes(s.pending, line) then None
        else Some(Record(s, category, Range(s.pending.value.start, codePoint)))
      else if s.pending.Some? then None
      else Some(Record(s, category, Range(codePoint, codePoint)))
  }

  const START := State(-1, None, map[], [])

  /** The state after the lines, unless one was refused. */
  function After(lines: seq<Line>): Option<State> {
    if lines == [] then Some(START)
    else
      var before := After(lines[..|lines| - 1]);
      if before == None then None else Step(before.value, lines[|lines| - 1])
  }

  predicate Accepted(lines: seq<Line>) {
    After(lines).Some? && After(lines).value.pending == None
  }

  // ----- What accepted lines mean -----

  predicate SameKind(a: Line, b: Line)
    requires a.Line? && b.Line?
  {
    a.category == b.category && a.combiningClass == b.combiningClass && a.mirrored == b.mirrored
  }

  ghost predicate BlankBetween(lines: seq<Line>, i: nat, j: nat)
    requires j <= |lines|
  {
    forall k | i < k < j :: lines[k].Blank?
  }

  /** Line `j`, with its range start `i` if it ends a range, stands for `r` in a category. */
  ghost predicate Stands(lines: seq<Line>, i: nat, j: nat, category: string, r: Range) {
    && i <= j < |lines| && lines[i].Line? && lines[j].Line?
    && r == Range(lines[i].codePoint, lines[j].codePoint) && lines[j].category == category
    && if i == j then lines[j].name.Single?
       else
         && lines[i].name.First? && lines[j].name.Last? && lines[i].name.tag == lines[j].name.tag
         && SameKind(lines[i], lines[j]) && BlankBetween(lines, i, j)
  }

  /** The range start that still waits for its end. */
  ghost predicate Waits(lines: seq<Line>, i: nat, p: Pending) {
    && i < |lines| && lines[i].Line? && lines[i].name == First(Some(p.tag))
    && lines[i].category == p.category && lines[i].combiningClass == p.combiningClass
    && lines[i].mirrored == p.mirrored && lines[i].codePoint == p.start
    && BlankBetween(lines, i, |lines|)
  }

  lemma {:induction false} PendingWaits(lines: seq<Line>, i: nat)
    requires After(lines).Some? && i < |lines| && lines[i].Line? && lines[i].name.First?
    requires BlankBetween(lines, i, |lines|)
    ensures After(lines).value.pending.Some? && Waits(lines, i, After(lines).value.pending.value)
    decreases |lines|
  {
    if i < |lines| - 1 {
      PendingWaits(lines[..|lines| - 1], i);
    }
  }

  lemma {:induction false} PendingOrigin(lines: seq<Line>) returns (i: nat)
    requires After(lines).Some? && After(lines).value.pending.Some?
    ensures Waits(lines, i, After(lines).value.pending.value)
  {
    var n := |lines| - 1;
    if lines[n].Blank? {
      i := PendingOrigin(lines[..n]);
    } else {
      i := n;
    }
  }

  lemma StandsEarlier(lines: seq<Line>, i: nat, j: nat, category: string, r: Range)
    requires lines != [] && j < |lines| - 1
    ensures Stands(lines, i, j, category, r) <==> Stands(lines[..|lines| - 1], i, j, category, r)
  {
    var init := lines[..|lines| - 1];
    if Stands(lines, i, j, category, r) {
      assert init[i] == lines[i] && init[j] == lines[j];
    }
    if Stands(init, i, j, category, r) {
      assert init[i] == lines[i] && init[j] == lines[j];
    }
  }

  /** Every recorded range stands in the lines. */
  lemma {:induction false} RecordedStands(lines: seq<Line>, category: string, r: Range) returns (i: nat, j: nat)
    requires After(lines).Some? && r in RangesOf(After(lines).value.ranges, category)
    ensures Stands(lines, i, j, category, r)
  {
    var n := |lines| - 1;
    var before := After(lines[..n]).value;
    if r in RangesOf(before.ranges, category) {
      i, j := RecordedStands(lines[..n], category, r);
      StandsEarlier(lines, i, j, category, r);
    } else if lines[n].name.Last? {
      i := PendingOrigin(lines[..n]);
      j := n;
    } else {
      i, j := n, n;
    }
  }

  /** Every range that stands in the lines is recorded. */
  lemma {:induction false} StandingRecorded(lines: seq<Line>, i: nat, j: nat, category: string, r: Range)
    requires After(lines).Some? && Stands(lines, i, j, category, r)
    ensures r in RangesOf(After(lines).value.ranges, category)
    decreases |lines|
  {
    var n := |lines| - 1;
    if j < n {
      StandsEarlier(lines, i, j, category, r);
      StandingRecorded(lines[..n], i, j, category, r);
    } else if i < j {
      PendingWaits(lines[..n], i);
    }
  }

  // ----- Categories never overlap -----

  ghost predicate Apart(c: string, d: string, q: Range, r: Range) {
    (c == d && q == r) || q.end < r.start || r.end < q.start
  }

  /** No two recorded ranges share a code point. */
  ghost predicate AllApart(ranges: Ranges) {
    forall c, d, q, r | c in ranges && d in ranges && q in ranges[c] && r in ranges[d] :: Apart(c, d, q, r)
  }

  ghost predicate AllUpTo(ranges: Ranges, last: int) {
    forall c, r | c in ranges && r in ranges[c] :: ValidRange(r) && r.end <= last
  }

  /** The last code point that the ranges so far may hold. */
  function LastClosed(s: State): int {
    if s.pending.Some? then s.pending.value.start - 1 else s.previous
  }

  ghost predicate Ascends(s: State) {
    && AllApart(s.ranges) && AllUpTo(s.ranges, LastClosed(s)) && s.previous <= MAX_CODE_POINT
    && (s.pending.Some? ==> 0 <= s.pending.value.start == s.previous)
  }

  lemma AddedMember(ranges: Ranges, category: string, r: Range, c: string, q: Range)
    requires var now := AddRange(ranges, category, r); c in now && q in now[c]
    ensures (c in ranges && q in ranges[c]) || (c == category && q == r)
  {}

  lemma AddKeepsApart(ranges: Ranges, category: string, r: Range, last: int)
    requires AllApart(ranges) && AllUpTo(ranges, last) && ValidRange(r) && last < r.start
    ensures AllApart(AddRange(ranges, category, r)) && AllUpTo(AddRange(ranges, category, r), r.end)
  {
    var now := AddRange(ranges, category, r);
    forall c, q | c in now && q in now[c] ensures ValidRange(q) && q.end <= r.end {
      AddedMember(ranges, category, r, c, q);
    }
    forall c, d, p, q | c in now && d in now && p in now[c] && q in now[d] ensures Apart(c, d, p, q) {
      AddedMember(ranges, category, r, c, p);
      AddedMember(ranges, category, r, d, q);
    }
  }

  lemma {:induction false} AcceptedAscends(lines: seq<Line>)
    requires After(lines).Some?
    ensures Ascends(After(lines).value)
  {
    if lines != [] {
      var init, line := lines[..|lines| - 1], lines[|lines| - 1];
      AcceptedAscends(init);
      var s := After(init).value;
      if line.Line? && !line.name.First? {
        var start := if line.name.Last? then s.pending.value.start else line.codePoint;
        AddKeepsApart(s.ranges, line.category, Range(start, line.codePoint), LastClosed(s));
      }
    }
  }

  /** The order lists exactly the categories with ranges, each once. */
  lemma {:induction false} OrderIsCategories(lines: seq<Line>)
    requires After(lines).Some?
    ensures var s := After(lines).value;
      && Distinct(s.order) && (forall c :: c in s.order <==> c in s.ranges)
      && forall c | c in s.ranges :: s.ranges[c] != []
  {
    if lines != [] {
      OrderIsCategories(lines[..|lines| - 1]);
    }
  }
}
