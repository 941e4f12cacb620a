/**
 Matcher artifacts (packages/compiler/src/regexp-matcher.ts): the instructions, the code that the
 builder emits for a pattern, and one step of executing it.
 */
module RegExpProgram {
  import opened Basics
  import opened CodePointSets
  import opened RegExpSyntax

  datatype Instruction =
    | Consume(members: CodePointSet, backward: bool)
    | TestEdge(atEnd: bool, multiline: bool)
    | TestBoundary(word: CodePointSet, negated: bool)
    | TestBackreference(groups: seq<nat>, backward: bool, ignoreCase: bool)
    | Save(slot: nat)
    | Fork(preferred: nat, alternative: nat)
    | Jump(target: nat)
    | RepeatInit(counter: nat)
    | RepeatTest(counter: nat, enter: nat, exit: nat, greedy: bool, minimum: nat, maximum: Option<nat>)
    | RepeatEnter(body: nat, clearFrom: nat, clearTo: nat, counter: nat, position: nat)
    | RepeatEnd(counter: nat, head: nat, minimum: nat, position: nat)
    | LookStart(body: nat, frame: nat, negated: bool, onFail: nat)
    | LookEnd(exit: nat, frame: nat, negated: bool)
    | Accept
    | Fail

  // ----- The code of a pattern -----

  /** How many instructions a node takes. */
  function Size(node: Node): nat {
    match node
    case Empty => 0
    case Then(first, second) => Size(first) + Size(second)
    case Or(first, second) => Size(first) + Size(second) + 2
    case Group(_, body) => Size(body) + 2
    case Repeat(body, _, _, _) => Size(body) + 4
    case Look(body, _, _) => Size(body) + 2
    case _ => 1
  }

  /** How many registers it takes beside those of its groups. */
  function Extra(node: Node): nat {
    match node
    case Then(first, second) => Extra(first) + Extra(second)
    case Or(first, second) => Extra(first) + Extra(second)
    case Group(_, body) => Extra(body)
    case Repeat(body, _, _, _) => Extra(body) + 2
    case Look(body, _, _) => Extra(body) + 1
    case _ => 0
  }

  datatype Bounds = NoBounds | Bounds(first: nat, last: nat)

  function Join(a: Bounds, b: Bounds): Bounds {
    match (a, b)
    case (NoBounds, _) => b
    case (_, NoBounds) => a
    case (Bounds(f, l), Bounds(g, m)) => Bounds(if f < g then f else g, if l > m then l else m)
  }

  /** The lowest and the highest group that a node encloses. */
  function CaptureBounds(node: Node): Bounds {
    match node
    case Then(first, second) => Join(CaptureBounds(first), CaptureBounds(second))
    case Or(first, second) => Join(CaptureBounds(first), CaptureBounds(second))
    case Group(index, body) => Join(Bounds(index, index), CaptureBounds(body))
    case Repeat(body, _, _, _) => CaptureBounds(body)
    case Look(body, _, _) => CaptureBounds(body)
    case _ => NoBounds
  }

  /** Numbered groups are a range. */
  lemma {:induction false} BoundsAreRange(node: Node, n: nat)
    requires Numbered(node, n)
    ensures CaptureBounds(node) == if Count(node) == 0 then NoBounds else Bounds(n, n + Count(node) - 1)
  {
    match node
    case Then(first, second) =>
      BoundsAreRange(first, n);
      BoundsAreRange(second, n + Count(first));
    case Or(first, second) =>
      BoundsAreRange(first, n);
      BoundsAreRange(second, n + Count(first));
    case Group(_, body) => BoundsAreRange(body, n + 1);
    case Repeat(body, _, _, _) => BoundsAreRange(body, n);
    case Look(body, _, _) => BoundsAreRange(body, n);
    case _ =>
  }

  function ClearFrom(node: Node): nat {
    var bounds := CaptureBounds(node);
    if bounds == NoBounds then 0 else 2 * bounds.first
  }

  function ClearTo(node: Node): nat {
    var bounds := CaptureBounds(node);
    if bounds == NoBounds then 0 else 2 * bounds.last + 2
  }

  /** The code of a node at address `a` with registers from `r`; failed assertions go to `f`. */
  function Code(node: Node, backward: bool, a: nat, r: nat, f: nat): (code: seq<Instruction>)
    ensures |code| == Size(node)
  {
    match node
    case Empty => []
    case Characters(members) => [Consume(members, backward)]
    case Edge(atEnd, multiline) => [TestEdge(atEnd, multiline)]
    case Boundary(word, negated) => [TestBoundary(word, negated)]
    case Backreference(groups, ignoreCase) => [TestBackreference(groups, backward, ignoreCase)]
    case Then(first, second) =>
      if backward then
        Code(second, backward, a, r, f) + Code(first, backward, a + Size(second), r + Extra(second), f)
      else
        Code(first, backward, a, r, f) + Code(second, backward, a + Size(first), r + Extra(first), f)
    case Or(first, second) =>
      var other := a + Size(first) + 2;
      [Fork(a + 1, other)] + Code(first, backward, a + 1, r, f) + [Jump(other + Size(second))]
      + Code(second, backward, other, r + Extra(first), f)
    case Group(index, body) =>
      var start, end := 2 * index, 2 * index + 1;
      [Save(if backward then end else start)] + Code(body, backward, a + 1, r, f)
      + [Save(if backward then start else end)]
    case Repeat(body, minimum, maximum, greedy) =>
      [RepeatInit(r), RepeatTest(r, a + 2, a + 4 + Size(body), greedy, minimum, maximum),
       RepeatEnter(a + 3, ClearFrom(body), ClearTo(body), r, r + 1)]
      + Code(body, backward, a + 3, r + 2, f) + [RepeatEnd(r, a + 1, minimum, r + 1)]
    case Look(body, behind, negated) =>
      var exit := a + 2 + Size(body);
      [LookStart(a + 1, r, negated, if negated then exit else f)] + Code(body, behind, a + 1, r + 1, f)
      + [LookEnd(exit, r, negated)]
  }

  /** A whole pattern is group zero around its body, then the end. */
  function Program(body: Node): seq<Instruction> {
    var whole := Group(0, body);
    Code(whole, false, 0, 2 * Count(whole), Size(whole) + 1) + [Accept, Fail]
  }

  // ----- Execution -----

  const UNSET := -1

  /** The position and the registers. */
  datatype Registers = Registers(index: nat, slots: seq<int>)

  datatype Entry = Entry(address: nat, saved: Registers)

  /** Executing an instruction, or about to resume the latest entry. */
  datatype Config =
    | Run(address: nat, now: Registers, stack: seq<Entry>)
    | Backtrack(stack: seq<Entry>)
    | Accepted(now: Registers)
    | Unmatched
    | Stuck

  function Slot(slots: seq<int>, j: nat): int {
    if j < |slots| then slots[j] else UNSET
  }

  function Write(v: Registers, j: nat, x: int): Registers {
    if j < |v.slots| then v.(slots := v.slots[j := x]) else v
  }

  function ClearSlots(v: Registers, from: nat, to: nat): Registers {
    v.(slots := seq(|v.slots|, j requires 0 <= j < |v.slots| => if from <= j < to then UNSET else v.slots[j]))
  }

  /** What a pair of slots has captured; both must be set. */
  function CaptureOf(slots: seq<int>, k: nat): Option<Span> {
    var start, end := Slot(slots, 2 * k), Slot(slots, 2 * k + 1);
    if start < 0 || end < 0 then None else Some(Span(start, end))
  }

  function CapturesOf(slots: seq<int>, groups: nat): (captures: seq<Option<Span>>)
    ensures |captures| == groups
  {
    seq(groups, k requires 0 <= k < groups => CaptureOf(slots, k))
  }

  /** A program, its input, and how many groups it has, the whole match included. */
  datatype Machine = Machine(program: seq<Instruction>, input: Input, groups: nat)

  ghost function Step(m: Machine, c: Config): Config {
    match c
    case Run(address, now, stack) =>
      if address < |m.program| then Execute(m, m.program[address], address, now, stack) else Unmatched
    case Backtrack(stack) =>
      if stack == [] then Unmatched
      else
        var top := stack[|stack| - 1];
        Run(top.address, top.saved, stack[..|stack| - 1])
    case _ => c
  }

  /** Go on behind an instruction that read up to `index`, or backtrack. */
  function Proceed(index: Option<nat>, a: nat, v: Registers, stack: seq<Entry>): Config {
    if index == None then Backtrack(stack) else Run(a + 1, v.(index := index.value), stack)
  }

  /** Where a test instruction lets the match go on, if it does. */
  ghost function Tested(m: Machine, i: Instruction, v: Registers): Option<nat>
    requires TestSound(m, i, v)
  {
    match i
    case Consume(members, backward) =>
      var read := Advance(m.input, v.index, backward);
      if read.Some? && Holds(members, read.value.character) then Some(read.value.next) else None
    case TestEdge(atEnd, multiline) => if AtEdge(m.input, v.index, atEnd, multiline) then Some(v.index) else None
    case TestBoundary(word, negated) =>
      if AtBoundary(m.input, v.index, word) != negated then Some(v.index) else None
    case TestBackreference(groups, backward, ignoreCase) =>
      MatchCaptures(m.input, CapturesOf(v.slots, m.groups), groups, v.index, backward, ignoreCase)
    case _ => None
  }

  function EnterRound(v: Registers, i: Instruction): Registers
    requires i.RepeatEnter?
  {
    ClearSlots(Write(Write(v, i.counter, Slot(v.slots, i.counter) + 1), i.position, v.index), i.clearFrom, i.clearTo)
  }

  predicate IsTest(i: Instruction) {
    i.Consume? || i.TestEdge? || i.TestBoundary? || i.TestBackreference?
  }

  /** A position in the text, a well-formed set, and captures within the text. */
  ghost predicate TestSound(m: Machine, i: Instruction, v: Registers) {
    && v.index <= |m.input.text|
    && match i
       case Consume(members, _) => WellFormed(members)
       case TestBoundary(word, _) => WellFormed(word)
       case TestBackreference(groups, _, _) =>
         CapturesOk(m.input, CapturesOf(v.slots, m.groups)) && forall k | 0 <= k < |groups| :: groups[k] < m.groups
       case _ => true
  }

  /** Registers that exist, and a frame that is on the stack. */
  predicate OperandsExist(i: Instruction, v: Registers, stack: seq<Entry>) {
    match i
    case Save(slot) => slot < |v.slots|
    case RepeatInit(counter) => counter < |v.slots|
    case RepeatTest(counter, _, _, _, _, _) => counter < |v.slots|
    case RepeatEnter(_, from, to, counter, position) =>
      counter < |v.slots| && position < |v.slots| && from <= to <= |v.slots|
    case RepeatEnd(counter, _, _, position) => counter < |v.slots| && position < |v.slots|
    case LookStart(_, frame, _, _) => frame < |v.slots|
    case LookEnd(_, frame, _) => frame < |v.slots| && 0 <= v.slots[frame] < |stack|
    case _ => true
  }

  /** One instruction; one whose operands make no sense is stuck. */
  ghost function Execute(m: Machine, i: Instruction, a: nat, v: Registers, stack: seq<Entry>): Config {
    if IsTest(i) then if TestSound(m, i, v) then Proceed(Tested(m, i, v), a, v, stack) else Stuck
    else if OperandsExist(i, v, stack) then Perform(i, a, v, stack)
    else Stuck
  }

  function Perform(i: Instruction, a: nat, v: Registers, stack: seq<Entry>): Config
    requires !IsTest(i) && OperandsExist(i, v, stack)
  {
    match i
    case Save(slot) => Run(a + 1, Write(v, slot, v.index), stack)
    case Fork(preferred, alternative) => Run(preferred, v, stack + [Entry(alternative, v)])
    case Jump(target) => Run(target, v, stack)
    case RepeatInit(counter) => Run(a + 1, Write(v, counter, 0), stack)
    case RepeatTest(counter, enter, exit, greedy, minimum, maximum) =>
      var done := v.slots[counter];
      if done < minimum then Run(enter, v, stack)
      else if maximum.Some? && done >= maximum.value then Run(exit, v, stack)
      else if greedy then Run(enter, v, stack + [Entry(exit, v)])
      else Run(exit, v, stack + [Entry(enter, v)])
    case RepeatEnter(body, _, _, _, _) => Run(body, EnterRound(v, i), stack)
    case RepeatEnd(counter, head, minimum, position) =>
      if v.slots[counter] - 1 >= minimum && v.slots[position] == v.index then Backtrack(stack)
      else Run(head, v, stack)
    case LookStart(body, frame, _, onFail) => Run(body, Write(v, frame, |stack|), stack + [Entry(onFail, v)])
    case LookEnd(exit, frame, negated) =>
      var height := v.slots[frame];
      if negated then Backtrack(stack[..height])
      else Run(exit, v.(index := stack[height].saved.index), stack[..height])
    case Accept => Accepted(v)
    case Fail => Backtrack(stack)
  }
}
