/**
 The executor of packages/compiler/src/regexp-execute.ts: registers with a trail of overwritten
 values, a stack of entries that remember a trail height, and limits on all of them.
 */
module RegExpExecution {
  import opened Basics
  import opened CodePointSets
  import opened RegExpSyntax
  import opened RegExpSemantics
  import opened RegExpProgram
  import opened RegExpSimulation
  import opened RegExpMatching
  import opened RegExpLimits

  // ----- The trail -----

  /** An overwritten register and its former value. */
  datatype Overwritten = Overwritten(register: nat, value: int)

  predicate TrailOk(slots: seq<int>, trail: seq<Overwritten>) {
    forall i | 0 <= i < |trail| :: trail[i].register < |slots|
  }

  /** The registers as they were when the trail had this height. */
  function Undone(slots: seq<int>, trail: seq<Overwritten>, height: nat): (r: seq<int>)
    requires height <= |trail| && TrailOk(slots, trail)
    ensures |r| == |slots|
    decreases |trail|
  {
    if height == |trail| then slots
    else
      var last := trail[|trail| - 1];
      Undone(slots[last.register := last.value], trail[..|trail| - 1], height)
  }

  /** Writing a register and recording it changes no former state. */
  lemma RecordedIsUndone(slots: seq<int>, trail: seq<Overwritten>, j: nat, x: int, height: nat)
    requires TrailOk(slots, trail) && j < |slots| && height <= |trail|
    ensures var longer := trail + [Overwritten(j, slots[j])];
      TrailOk(slots[j := x], longer) && Undone(slots[j := x], longer, height) == Undone(slots, trail, height)
  {
    var longer := trail + [Overwritten(j, slots[j])];
    assert longer[..|trail|] == trail;
    assert slots[j := x][j := slots[j]] == slots;
  }

  /** Undoing in two stages is undoing at once. */
  lemma {:induction false} UndoneTwice(slots: seq<int>, trail: seq<Overwritten>, between: nat, height: nat)
    requires TrailOk(slots, trail) && height <= between <= |trail|
    ensures TrailOk(Undone(slots, trail, between), trail[..between])
    ensures Undone(Undone(slots, trail, between), trail[..between], height) == Undone(slots, trail, height)
    decreases |trail|
  {
    if between < |trail| {
      var n := |trail| - 1;
      assert trail[..n][..between] == trail[..between];
      UndoneTwice(slots[trail[n].register := trail[n].value], trail[..n], between, height);
    } else {
      assert trail[..between] == trail;
    }
  }

  /** An entry as it is stored: where it resumes, and how high the trail was. */
  datatype Stored = Stored(address: nat, index: nat, height: nat)

  predicate StackOk(slots: seq<int>, trail: seq<Overwritten>, stack: seq<Stored>) {
    && TrailOk(slots, trail)
    && (forall k | 0 <= k < |stack| :: stack[k].height <= |trail|)
    && (forall k, l | 0 <= k < l < |stack| :: stack[k].height <= stack[l].height)
  }

  /** The entry it stands for, with its own copy of the registers. */
  function Restored(slots: seq<int>, trail: seq<Overwritten>, e: Stored): Entry
    requires TrailOk(slots, trail) && e.height <= |trail|
  {
    Entry(e.address, Registers(e.index, Undone(slots, trail, e.height)))
  }

  function Entries(slots: seq<int>, trail: seq<Overwritten>, stack: seq<Stored>): (r: seq<Entry>)
    requires StackOk(slots, trail, stack)
    ensures |r| == |stack| && forall k | 0 <= k < |stack| :: r[k] == Restored(slots, trail, stack[k])
  {
    seq(|stack|, k requires 0 <= k < |stack| => Restored(slots, trail, stack[k]))
  }

  lemma RecordedKeepsEntries(slots: seq<int>, trail: seq<Overwritten>, stack: seq<Stored>, j: nat, x: int)
    requires StackOk(slots, trail, stack) && j < |slots|
    ensures var longer := trail + [Overwritten(j, slots[j])];
      StackOk(slots[j := x], longer, stack) && Entries(slots[j := x], longer, stack) == Entries(slots, trail, stack)
  {
    forall h | 0 <= h <= |trail|
      ensures TrailOk(slots[j := x], trail + [Overwritten(j, slots[j])])
      ensures Undone(slots[j := x], trail + [Overwritten(j, slots[j])], h) == Undone(slots, trail, h)
    {
      RecordedIsUndone(slots, trail, j, x, h);
    }
  }

  /** Undoing to the height of an entry leaves the entries below as they are. */
  lemma UndoneKeepsEntries(slots: seq<int>, trail: seq<Overwritten>, stack: seq<Stored>, k: nat)
    requires StackOk(slots, trail, stack) && k < |stack|
    ensures var height := stack[k].height;
      && StackOk(Undone(slots, trail, height), trail[..height], stack[..k])
      && Entries(Undone(slots, trail, height), trail[..height], stack[..k]) == Entries(slots, trail, stack)[..k]
  {
    var height := stack[k].height;
    UndoneTwice(slots, trail, height, height);
    forall l | 0 <= l < k
      ensures Restored(Undone(slots, trail, height), trail[..height], stack[l]) == Restored(slots, trail, stack[l])
    {
      UndoneTwice(slots, trail, height, stack[l].height);
    }
  }

  // ----- The machine of one attempt -----

  /** What one instruction leads to. */
  datatype Next = Goto(address: nat) | Failed | LimitReached

  class Attempt {
    const limits: Limits
    var index: nat
    var slots: seq<int>
    var stack: seq<Stored>
    var trail: seq<Overwritten>
    var steps: nat
    var limit: Option<Limit>

    ghost predicate Valid()
      reads this
    {
      StackOk(slots, trail, stack) && |trail| <= limits.trailEntries && |stack| <= limits.backtrackEntries
    }

    /** What the attempt uses now. */
    function Usage(): Use
      reads this
    {
      Use(steps, |trail|, seq(|stack|, k requires 0 <= k < |stack| reads this => stack[k].height))
    }

    /** It uses so much now, or that is more than the limit it has reached. */
    ghost predicate Counts(ok: bool, u: Use)
      reads this
    {
      if ok then Usage() == u else limit.Some? && Amount(u, limit.value) > Allowed(limits, limit.value)
    }

    function Now(): Registers
      reads this
    {
      Registers(index, slots)
    }

    ghost function Stack(): seq<Entry>
      requires Valid()
      reads this
    {
      Entries(slots, trail, stack)
    }

    /** The limit that stopped the attempt is used up. */
    predicate Full()
      reads this
    {
      match limit
      case None => false
      case Some(BacktrackEntries) => |stack| >= limits.backtrackEntries
      case Some(Steps) => steps >= limits.steps
      case Some(TrailEntries) => |trail| >= limits.trailEntries
    }

    /** The same registers, and no more than so many writes and entries added. */
    predicate Within(registers: nat, trailBefore: nat, writes: nat, stackBefore: nat, entries: nat)
      reads this
    {
      |slots| == registers && |trail| <= trailBefore + writes && |stack| <= stackBefore + entries
    }

    constructor (limits: Limits, index: nat, slots: seq<int>)
      ensures Valid() && Now() == Registers(index, slots) && Stack() == []
      ensures this.limits == limits && steps == 0 && trail == [] && stack == []
    {
      this.limits, this.index, this.slots := limits, index, slots;
      stack, trail, steps, limit := [], [], 0, None;
    }

    /** Write a register and record what it held. */
    method Put(register: nat, value: int) returns (ok: bool)
      requires Valid() && register < |slots|
      modifies this`slots, this`trail, this`limit
      ensures Valid()
      ensures if ok then Now() == Write(old(Now()), register, value) && Stack() == old(Stack()) else Full()
      ensures Within(|old(slots)|, |old(trail)|, 1, |old(stack)|, 0)
      ensures Counts(ok, old(Usage()).(trail := |old(trail)| + 1))
    {
      if |trail| >= limits.trailEntries {
        limit := Some(TrailEntries);
        return false;
      }
      RecordedKeepsEntries(slots, trail, stack, register, value);
      trail := trail + [Overwritten(register, slots[register])];
      slots := slots[register := value];
      ok := true;
    }

    /** Unset a range of registers. */
    method Unset(from: nat, to: nat) returns (ok: bool)
      requires Valid() && from <= to <= |slots|
      modifies this`slots, this`trail, this`limit
      ensures Valid()
      ensures if ok then Now() == ClearSlots(old(Now()), from, to) && Stack() == old(Stack()) else Full()
      ensures Within(|old(slots)|, |old(trail)|, to - from, |old(stack)|, 0)
      ensures Counts(ok, old(Usage()).(trail := |old(trail)| + (to - from)))
    {
      for slot := from to to
        invariant Valid() && Now() == ClearSlots(old(Now()), from, slot) && Stack() == old(Stack())
        invariant Within(|old(slots)|, |old(trail)|, slot - from, |old(stack)|, 0)
        invariant Usage() == old(Usage()).(trail := |old(trail)| + (slot - from))
      {
        ok := Put(slot, UNSET);
        if !ok {
          return;
        }
      }
      ok := true;
    }

    /** Remember where to resume. */
    method Push(address: nat) returns (ok: bool)
      requires Valid()
      modifies this`stack, this`limit
      ensures Valid()
      ensures if ok then Stack() == old(Stack()) + [Entry(address, Now())] else Full()
      ensures Within(|slots|, |trail|, 0, |old(stack)|, 1)
      ensures Counts(ok, old(Usage()).(marks := old(Usage()).marks + [|trail|]))
    {
      if |stack| >= limits.backtrackEntries {
        limit := Some(BacktrackEntries);
        return false;
      }
      stack := stack + [Stored(address, index, |trail|)];
      ok := true;
    }

    /** Undo writes down to a height of the trail. */
    method UndoTrail(height: nat)
      requires TrailOk(slots, trail) && height <= |trail|
      modifies this`slots, this`trail
      ensures slots == Undone(old(slots), old(trail), height) && trail == old(trail)[..height]
    {
      while |trail| > height
        invariant height <= |trail| <= |old(trail)| && TrailOk(slots, trail) && trail == old(trail)[..|trail|]
        invariant Undone(slots, trail, height) == Undone(old(slots), old(trail), height)
        decreases |trail|
      {
        var last := trail[|trail| - 1];
        assert trail[..|trail| - 1] == old(trail)[..|trail| - 1];
        slots := slots[last.register := last.value];
        trail := trail[..|trail| - 1];
      }
    }

    /** Resume the latest entry, if there is one. */
    method Pop() returns (address: Option<nat>)
      requires Valid()
      modifies this`index, this`slots, this`stack, this`trail
      ensures Valid()
      ensures address == None <==> old(Stack()) == []
      ensures address.Some? ==> var n := |old(Stack())| - 1;
        Entry(address.value, Now()) == old(Stack())[n] && Stack() == old(Stack())[..n]
      ensures Within(|old(slots)|, |old(trail)|, 0, |old(stack)|, 0)
      ensures address == None ==> Usage() == old(Usage())
      ensures address.Some? ==> var n := |old(Usage()).marks| - 1;
        Usage() == Use(steps, old(Usage()).marks[n], old(Usage()).marks[..n])
    {
      if stack == [] {
        return None;
      }
      var n := |stack| - 1;
      var top := stack[n];
      UndoneKeepsEntries(slots, trail, stack, n);
      stack, index := stack[..n], top.index;
      UndoTrail(top.height);
      address := Some(top.address);
    }

    /** Drop an entry and all above it, and go back to where it was made. */
    method Cut(height: nat)
      requires Valid() && height < |stack|
      modifies this`index, this`stack
      ensures Valid() && stack == old(stack)[..height] && Stack() == old(Stack())[..height]
      ensures Now() == old(Now()).(index := old(Stack())[height].saved.index)
      ensures Usage() == old(Usage()).(marks := old(Usage()).marks[..height])
    {
      index := stack[height].index;
      stack := stack[..height];
    }

    /** The same for a negative assertion, which also undoes what was written since. */
    method CutAndUndo(height: nat)
      requires Valid() && height < |stack|
      modifies this`index, this`slots, this`stack, this`trail
      ensures Valid() && Stack() == old(Stack())[..height]
      ensures Within(|old(slots)|, |old(trail)|, 0, |old(stack)|, 0)
      ensures Usage() == Use(steps, old(Usage()).marks[height], old(Usage()).marks[..height])
    {
      var entry := stack[height];
      UndoneKeepsEntries(slots, trail, stack, height);
      Cut(height);
      UndoTrail(entry.height);
    }

    // ----- Instructions -----

    /** Start a round: count it, note its position, forget what its groups captured. */
    method StartRound(i: Instruction) returns (next: Next)
      requires Valid() && i.RepeatEnter? && OperandsExist(i, Now(), Stack())
      modifies this`slots, this`trail, this`limit
      ensures Valid()
      ensures if next.Goto? then next.address == i.body && Now() == EnterRound(old(Now()), i) && Stack() == old(Stack())
              else next.LimitReached? && Full()
      ensures Within(|old(slots)|, |old(trail)|, 2 + |slots|, |old(stack)|, 1)
      ensures Counts(!next.LimitReached?, Performed(i, old(Now()), old(Usage())))
    {
      var ok := Put(i.counter, slots[i.counter] + 1);
      if ok {
        ok := Put(i.position, index);
      }
      if ok {
        ok := Unset(i.clearFrom, i.clearTo);
      }
      next := if ok then Goto(i.body) else LimitReached;
    }

    /** Decide at the head of a repetition. */
    method Decide(i: Instruction) returns (next: Next)
      requires Valid() && i.RepeatTest? && OperandsExist(i, Now(), Stack())
      modifies this`stack, this`limit
      ensures Valid()
      ensures if next.Goto? then Perform(i, 0, old(Now()), old(Stack())) == Run(next.address, Now(), Stack())
              else next.LimitReached? && Full()
      ensures Within(|old(slots)|, |old(trail)|, 0, |old(stack)|, 1)
      ensures Counts(!next.LimitReached?, Performed(i, old(Now()), old(Usage())))
    {
      var done := slots[i.counter];
      if done < i.minimum {
        return Goto(i.enter);
      }
      if i.maximum.Some? && done >= i.maximum.value {
        return Goto(i.exit);
      }
      var ok := Push(if i.greedy then i.exit else i.enter);
      next := if !ok then LimitReached else Goto(if i.greedy then i.enter else i.exit);
    }

    /** Enter or leave a lookaround. */
    method LookAround(i: Instruction) returns (next: Next)
      requires Valid() && (i.LookStart? || i.LookEnd?) && OperandsExist(i, Now(), Stack())
      modifies this`index, this`slots, this`stack, this`trail, this`limit
      ensures Valid()
      ensures next.Goto? ==> Perform(i, 0, old(Now()), old(Stack())) == Run(next.address, Now(), Stack())
      ensures next.Failed? ==> Perform(i, 0, old(Now()), old(Stack())) == Backtrack(Stack())
      ensures next.LimitReached? ==> Full()
      ensures Within(|old(slots)|, |old(trail)|, 1, |old(stack)|, 1)
      ensures Counts(!next.LimitReached?, Performed(i, old(Now()), old(Usage())))
    {
      if i.LookStart? {
        var ok := Push(i.onFail);
        if ok {
          ok := Put(i.frame, |stack| - 1);
        }
        return if ok then Goto(i.body) else LimitReached;
      }
      if i.negated {
        CutAndUndo(slots[i.frame]);
        return Failed;
      }
      Cut(slots[i.frame]);
      next := Goto(i.exit);
    }

    /** Every instruction that reads no text. */
    method Control(i: Instruction, a: nat) returns (next: Next)
      requires Valid() && !IsTest(i) && !i.Accept? && OperandsExist(i, Now(), Stack())
      modifies this`index, this`slots, this`stack, this`trail, this`limit
      ensures Valid()
      ensures next.Goto? ==> Perform(i, a, old(Now()), old(Stack())) == Run(next.address, Now(), Stack())
      ensures next.Failed? ==> Perform(i, a, old(Now()), old(Stack())) == Backtrack(Stack())
      ensures next.LimitReached? ==> Full()
      ensures Within(|old(slots)|, |old(trail)|, 2 + |slots|, |old(stack)|, 1)
      ensures Counts(!next.LimitReached?, Performed(i, old(Now()), old(Usage())))
    {
      match i
      case Save(slot) =>
        var ok := Put(slot, index);
        next := if ok then Goto(a + 1) else LimitReached;
      case Fork(preferred, alternative) =>
        var ok := Push(alternative);
        next := if ok then Goto(preferred) else LimitReached;
      case Jump(target) => next := Goto(target);
      case RepeatInit(counter) =>
        var ok := Put(counter, 0);
        next := if ok then Goto(a + 1) else LimitReached;
      case RepeatTest(_, _, _, _, _, _) => next := Decide(i);
      case RepeatEnter(_, _, _, _, _) => next := StartRound(i);
      case RepeatEnd(counter, head, minimum, position) =>
        next := if slots[counter] - 1 >= minimum && slots[position] == index then Failed else Goto(head);
      case LookStart(_, _, _, _) => next := LookAround(i);
      case LookEnd(_, _, _) => next := LookAround(i);
      case Fail => next := Failed;
    }

    /** Match the named captures in turn; the step budget admits `allowed` of them. */
    method MatchGroups(m: Machine, groups: seq<nat>, backward: bool, ignoreCase: bool, allowed: nat)
      returns (limited: bool, matched: bool, used: nat)
      requires TestSound(m, TestBackreference(groups, backward, ignoreCase), Now())
      modifies this`index
      ensures 1 <= allowed ==> 1 <= used <= allowed && used <= 1 + |groups|
      ensures limited ==> used == allowed
      ensures !limited ==>
        var r := MatchCaptures(m.input, CapturesOf(slots, m.groups), groups, old(index), backward, ignoreCase);
        matched == r.Some? && (matched ==> index == r.value)
      ensures var i := TestBackreference(groups, backward, ignoreCase);
        if limited then Charged(m, i, old(Now())) > allowed else Charged(m, i, old(Now())) == used
    {
      ghost var captures := CapturesOf(slots, m.groups);
      var total := if |groups| == 0 then 1 else |groups|;
      assert groups[0..] == groups;
      for candidate := 0 to total
        invariant index <= |m.input.text| && candidate <= allowed
        invariant MatchCaptures(m.input, captures, groups, old(index), backward, ignoreCase)
          == MatchCaptures(m.input, captures, groups[Bounded(candidate, |groups|)..], index, backward, ignoreCase)
        invariant CapturesRead(m.input, captures, groups, old(index), backward, ignoreCase)
          == Bounded(candidate, |groups|)
             + CapturesRead(m.input, captures, groups[Bounded(candidate, |groups|)..], index, backward, ignoreCase)
      {
        if candidate >= allowed {
          return true, false, allowed;
        }
        if candidate < |groups| {
          assert Captured(captures, groups[candidate]) == CaptureOf(slots, groups[candidate]);
          assert groups[candidate..][1..] == groups[candidate + 1..];
          var next := MatchSpan(m.input, CaptureOf(slots, groups[candidate]), index, backward, ignoreCase);
          if next == None {
            return false, false, candidate + 1;
          }
          index := next.value;
        }
      }
      limited, matched, used := false, true, total;
    }

    /** Every instruction that reads the text. A reference is charged a step for each capture it reads. */
    method Test(m: Machine, i: Instruction, a: nat) returns (next: Next)
      requires Valid() && IsTest(i) && TestSound(m, i, Now()) && 1 <= steps <= limits.steps
      modifies this`index, this`steps, this`limit
      ensures Valid() && Stack() == old(Stack()) && old(steps) <= steps <= limits.steps
      ensures next.Goto? ==>
        Proceed(Tested(m, i, old(Now())), a, old(Now()), old(Stack())) == Run(next.address, Now(), Stack())
      ensures next.Failed? ==> Proceed(Tested(m, i, old(Now())), a, old(Now()), old(Stack())) == Backtrack(Stack())
      ensures next.LimitReached? ==> Full()
      ensures steps <= old(steps) + Named(i)
      ensures Counts(!next.LimitReached?, old(Usage()).(steps := old(steps) + Charged(m, i, old(Now())) - 1))
    {
      match i
      case Consume(members, backward) =>
        var read := Advance(m.input, index, backward);
        var held := false;
        if read.Some? {
          held := HasCharacter(members, read.value.character);
        }
        if !held {
          return Failed;
        }
        index := read.value.next;
        next := Goto(a + 1);
      case TestEdge(atEnd, multiline) =>
        next := if AtEdge(m.input, index, atEnd, multiline) then Goto(a + 1) else Failed;
      case TestBoundary(word, negated) =>
        var at := IsBoundary(m.input, index, word);
        next := if at != negated then Goto(a + 1) else Failed;
      case TestBackreference(groups, backward, ignoreCase) =>
        var limited, matched, used := MatchGroups(m, groups, backward, ignoreCase, limits.steps - steps + 1);
        steps := steps + used - 1;
        if limited {
          limit := Some(Steps);
          return LimitReached;
        }
        next := if matched then Goto(a + 1) else Failed;
    }

    /** One instruction. */
    method Dispatch(m: Machine, i: Instruction, a: nat) returns (next: Next)
      requires Valid() && !i.Accept? && 1 <= steps <= limits.steps
      requires if IsTest(i) then TestSound(m, i, Now()) else OperandsExist(i, Now(), Stack())
      modifies this
      ensures Valid() && old(steps) <= steps <= limits.steps
      ensures next.Goto? ==> Execute(m, i, a, old(Now()), old(Stack())) == Run(next.address, Now(), Stack())
      ensures next.Failed? ==> Execute(m, i, a, old(Now()), old(Stack())) == Backtrack(Stack())
      ensures next.LimitReached? ==> Full()
      ensures steps <= old(steps) + Named(i) && Within(|old(slots)|, |old(trail)|, 2 + |slots|, |old(stack)|, 1)
      ensures Counts(!next.LimitReached?,
        Performed(i, old(Now()), old(Usage())).(steps := old(steps) + Charged(m, i, old(Now())) - 1))
    {
      if IsTest(i) {
        next := Test(m, i, a);
      } else {
        next := Control(i, a);
      }
    }
  }

  method IsBoundary(input: Input, i: nat, word: CodePointSet) returns (b: bool)
    requires i <= |input.text| && WellFormed(word)
    ensures b == AtBoundary(input, i, word)
  {
    var before, after := false, false;
    if i > 0 {
      before := HasCharacter(word, CharacterBefore(input, i));
    }
    if i < |input.text| {
      after := HasCharacter(word, CharacterAt(input, i));
    }
    b := before != after;
  }

  function Bounded(a: nat, b: nat): nat {
    if a < b then a else b
  }

  /** How many captures a reference names. */
  function Named(i: Instruction): nat {
    if i.TestBackreference? then |i.groups| else 0
  }

  function AllNamed(program: seq<Instruction>): nat {
    if program == [] then 0 else AllNamed(program[..|program| - 1]) + Named(program[|program| - 1])
  }

  lemma {:induction false} NamedIsCounted(program: seq<Instruction>, a: nat)
    requires a < |program|
    ensures Named(program[a]) <= AllNamed(program)
  {
    if a < |program| - 1 {
      NamedIsCounted(program[..|program| - 1], a);
    }
  }

  /** What one instruction uses up at most, of any limit. */
  function Weight(program: seq<Instruction>, registers: nat): nat {
    3 + registers + AllNamed(program)
  }

  /** Compare a capture with the text, character by character. */
  method MatchSpan(input: Input, capture: Option<Span>, i: nat, backward: bool, ignoreCase: bool)
    returns (r: Option<nat>)
    requires i <= |input.text| && (capture.Some? ==> SpanOk(input, capture.value))
    ensures r == MatchCapture(input, capture, i, backward, ignoreCase)
  {
    if capture == None {
      return Some(i);
    }
    var start, end := capture.value.start, capture.value.end;
    var length := end - start;
    if (backward && i < length) || (!backward && i + length > |input.text|) {
      return None;
    }
    var target := if backward then i - length else i;
    var source: nat, compared: nat := start, target;
    while source < end
      invariant source < end ==> compared + (end - source) <= |input.text|
      invariant Repeats(input, start, end, target, ignoreCase) == Repeats(input, source, end, compared, ignoreCase)
      decreases end - source
    {
      var left, right := CharacterAt(input, source), CharacterAt(input, compared);
      if (if ignoreCase then input.canonical(left) != input.canonical(right) else left != right) {
        return None;
      }
      var width := WidthAt(input, source);
      source, compared := source + width, compared + width;
    }
    r := Some(if backward then target else i + length);
  }

  /** Membership by binary search. */
  method HasCharacter(members: CodePointSet, c: int) returns (b: bool)
    requires WellFormed(members)
    ensures b == Holds(members, c)
  {
    var low := CountReached(members, c);
    b := low % 2 == 1;
  }

  // ----- One attempt -----

  datatype Execution =
    | Matched(captures: seq<Option<Span>>, steps: nat)
    | NotMatched(steps: nat)
    | Limited(limit: Limit, steps: nat)

  /** A run never comes to an instruction whose operands make no sense. */
  lemma NextIsSound(body: Node, m: Machine, start: nat, address: nat, v: Registers, stack: seq<Entry>)
    requires PatternOk(body) && InputOk(m.input) && start <= |m.input.text| && m == MachineOf(body, m.input)
    requires Reaches(m, Begin(body, start), Run(address, v, stack)) && address < |m.program|
    ensures if IsTest(m.program[address]) then TestSound(m, m.program[address], v)
            else OperandsExist(m.program[address], v, stack)
  {
    var c := Run(address, v, stack);
    if Step(m, c) == Stuck {
      StepReaches(m, c, Stuck);
      ReachesTransitive(m, Begin(body, start), c, Stuck);
      FinalReports(body, m.input, start, Stuck);
      assert false;
    }
  }

  function Times(n: nat, weight: nat): nat {
    if n == 0 then 0 else Times(n - 1, weight) + weight
  }

  lemma {:induction false} TimesGrows(n: nat, k: nat, weight: nat)
    requires n <= k
    ensures Times(n, weight) <= Times(k, weight)
  {
    if n < k {
      TimesGrows(n, k - 1, weight);
    }
  }

  /** What `n` instructions have used at most. */
  ghost predicate Used(attempt: Attempt, n: nat, weight: nat)
    reads attempt
  {
    var most := Times(n, weight);
    attempt.steps <= most && |attempt.trail| <= most && |attempt.stack| <= most
  }

  /** A run that is not over has made fewer steps than one that ends. */
  lemma NotOver(m: Machine, begin: Config, n: nat, k: nat)
    requires !Final(Iterate(m, begin, n)) && Final(Iterate(m, begin, k))
    ensures n < k
  {
    if k <= n {
      IterateMore(m, begin, k, n - k);
      FinalStays(m, Iterate(m, begin, k), n - k);
      assert false;
    }
  }

  /** The run ends within `k` steps, and the limit allows for them. */
  ghost predicate Suffices(m: Machine, begin: Config, allowed: nat, weight: nat, k: nat) {
    Final(Iterate(m, begin, k)) && Times(k, weight) < allowed
  }

  /** However few steps the run ends in, so much of a resource does not allow for them. */
  ghost predicate Tight(m: Machine, begin: Config, allowed: nat, weight: nat) {
    forall k :: !Suffices(m, begin, allowed, weight, k)
  }

  /** A resource that `n + 1` transitions of a run could use up was not ample. */
  lemma LimitWasTight(m: Machine, begin: Config, n: nat, allowed: nat, weight: nat)
    requires !Final(Iterate(m, begin, n)) && allowed <= Times(n + 1, weight)
    ensures Tight(m, begin, allowed, weight)
  {
    forall k ensures !Suffices(m, begin, allowed, weight, k) {
      if Suffices(m, begin, allowed, weight, k) {
        NotOver(m, begin, n, k);
        TimesGrows(n + 1, k, weight);
        assert false;
      }
    }
  }

  /** No more steps than the run takes, each of them at its weight. */
  ghost predicate Affordable(m: Machine, begin: Config, weight: nat, steps: nat) {
    forall k | Final(Iterate(m, begin, k)) :: steps <= Times(k, weight)
  }

  lemma StepsAreAffordable(m: Machine, begin: Config, n: nat, weight: nat, steps: nat)
    requires !Final(Iterate(m, begin, n)) && steps <= Times(n + 1, weight)
    ensures Affordable(m, begin, weight, steps)
  {
    forall k | Final(Iterate(m, begin, k)) ensures steps <= Times(k, weight) {
      NotOver(m, begin, n, k);
      TimesGrows(n + 1, k, weight);
    }
  }

  lemma IterateOnce(m: Machine, begin: Config, n: nat)
    ensures Iterate(m, begin, n + 1) == Step(m, Iterate(m, begin, n))
  {
    IterateMore(m, begin, n, 1);
    assert Iterate(m, Iterate(m, begin, n), 1) == Iterate(m, Step(m, Iterate(m, begin, n)), 0);
  }

  // ----- What an attempt answers -----

  /** The answer is that of the pattern's semantics, or a limit that the run could use up. */
  ghost predicate Answers(body: Node, m: Machine, registers: nat, start: nat, limits: Limits, r: Execution)
    requires InputOk(m.input) && start <= |m.input.text|
  {
    && r.steps <= limits.steps
    && match r
       case Matched(captures, _) =>
         MatchAt(body, m.input, start).Some? && MatchAt(body, m.input, start).value.captures == captures
       case NotMatched(_) => MatchAt(body, m.input, start) == None
       case Limited(limit, _) =>
         Tight(m, Begin(body, start), Allowed(limits, limit), Weight(m.program, registers))
  }

  /** The answer comes when the run is over, or at the first transition that a limit does not allow. */
  ghost predicate Exact(m: Machine, begin: Config, limits: Limits, r: Execution) {
    match r
    case Limited(limit, _) => exists n :: StopsAt(m, begin, limits, n, limit)
    case _ => exists n :: EndsWithin(m, begin, limits, n, r.steps)
  }

  ghost predicate Decides(body: Node, m: Machine, start: nat, limits: Limits, r: Execution)
    requires InputOk(m.input) && start <= |m.input.text|
  {
    && Answers(body, m, RegisterCount(body), start, limits, r) && Exact(m, Begin(body, start), limits, r)
    && Affordable(m, Begin(body, start), Weight(m.program, RegisterCount(body)), r.steps)
  }

  /** After `n` transitions within the limits the run from `start` is at `c` and has used `u`. */
  ghost predicate Stands(body: Node, m: Machine, start: nat, limits: Limits, n: nat, c: Config, u: Use) {
    && PatternOk(body) && InputOk(m.input) && start <= |m.input.text| && m == MachineOf(body, m.input)
    && Iterate(m, Begin(body, start), n) == c && UsedBy(m, Begin(body, start), n) == u
    && Goes(m, Begin(body, start), limits, n)
  }

  lemma MovesOn(body: Node, m: Machine, start: nat, limits: Limits, n: nat, c: Config, u: Use)
    requires Stands(body, m, start, limits, n, c, u) && !Final(Step(m, c)) && Affords(limits, Uses(m, c, u))
    ensures Stands(body, m, start, limits, n + 1, Step(m, c), Uses(m, c, u))
  {
    IterateOnce(m, Begin(body, start), n);
  }

  /** What the last transition of a run comes to. */
  ghost predicate Says(m: Machine, c: Config, r: Execution) {
    match r
    case Matched(captures, _) => Step(m, c).Accepted? && captures == CapturesOf(Step(m, c).now.slots, m.groups)
    case NotMatched(_) => Step(m, c) == Unmatched
    case Limited(_, _) => false
  }

  /** The run is over: what it has come to is the answer. */
  lemma EndsHere(body: Node, m: Machine, start: nat, limits: Limits, n: nat, c: Config, u: Use, r: Execution)
    requires Stands(body, m, start, limits, n, c, u) && Says(m, c, r)
    requires Affords(limits, Uses(m, c, u)) && r.steps == Uses(m, c, u).steps
    requires r.steps <= Times(n + 1, Weight(m.program, RegisterCount(body)))
    ensures Decides(body, m, start, limits, r)
  {
    IterateOnce(m, Begin(body, start), n);
    assert Reaches(m, Begin(body, start), Step(m, c));
    FinalReports(body, m.input, start, Step(m, c));
    StepsAreAffordable(m, Begin(body, start), n, Weight(m.program, RegisterCount(body)), r.steps);
    assert EndsWithin(m, Begin(body, start), limits, n, r.steps);
  }

  /** The next transition needs more than a limit allows: that limit is the answer. */
  lemma StopsHere(body: Node, m: Machine, start: nat, limits: Limits, n: nat, c: Config, u: Use, limit: Limit,
                  steps: nat)
    requires Stands(body, m, start, limits, n, c, u) && steps <= limits.steps
    requires Allowed(limits, limit) < Amount(Uses(m, c, u), limit)
    requires Allowed(limits, limit) <= Times(n + 1, Weight(m.program, RegisterCount(body)))
    requires steps <= Times(n + 1, Weight(m.program, RegisterCount(body)))
    ensures Decides(body, m, start, limits, Limited(limit, steps))
  {
    LimitWasTight(m, Begin(body, start), n, Allowed(limits, limit), Weight(m.program, RegisterCount(body)));
    StepsAreAffordable(m, Begin(body, start), n, Weight(m.program, RegisterCount(body)), steps);
    assert StopsAt(m, Begin(body, start), limits, n, limit);
  }

  /** The next instruction of a run has operands that make sense. */
  lemma SoundHere(body: Node, m: Machine, start: nat, limits: Limits, n: nat, address: nat, v: Registers,
                  stack: seq<Entry>, u: Use)
    requires Stands(body, m, start, limits, n, Run(address, v, stack), u) && address < |m.program|
    ensures if IsTest(m.program[address]) then TestSound(m, m.program[address], v)
            else OperandsExist(m.program[address], v, stack)
  {
    assert Reaches(m, Begin(body, start), Run(address, v, stack));
    NextIsSound(body, m, start, address, v, stack);
  }

  // ----- The loop -----

  /** An attempt that has made `n` transitions and is at `c`. */
  ghost predicate IsAt(attempt: Attempt, body: Node, m: Machine, start: nat, n: nat, c: Config)
    reads attempt
  {
    && attempt.Valid() && attempt.steps <= attempt.limits.steps && |attempt.slots| == RegisterCount(body)
    && Used(attempt, n, Weight(m.program, RegisterCount(body)))
    && Stands(body, m, start, attempt.limits, n, c, attempt.Usage())
  }

  ghost predicate Runs(attempt: Attempt, body: Node, m: Machine, start: nat, n: nat, address: nat)
    reads attempt
  {
    attempt.Valid() && IsAt(attempt, body, m, start, n, Run(address, attempt.Now(), attempt.Stack()))
  }

  /** An attempt whose run must backtrack next. */
  ghost predicate Fails(attempt: Attempt, body: Node, m: Machine, start: nat, n: nat)
    reads attempt
  {
    attempt.Valid() && IsAt(attempt, body, m, start, n, Backtrack(attempt.Stack()))
  }

  lemma StartsRunning(attempt: Attempt, body: Node, m: Machine, start: nat)
    requires PatternOk(body) && InputOk(m.input) && start <= |m.input.text| && m == MachineOf(body, m.input)
    requires attempt.Valid() && attempt.Now() == Start(body, start) && attempt.Stack() == []
    requires attempt.steps == 0 && attempt.trail == [] && attempt.stack == []
    ensures Runs(attempt, body, m, start, 0, 0)
  {}

  /** Backtrack: resume the latest entry, or answer that nothing matches. */
  method Resume(ghost body: Node, m: Machine, ghost start: nat, attempt: Attempt, ghost n: nat)
    returns (resumed: Option<nat>)
    requires Fails(attempt, body, m, start, n)
    modifies attempt
    ensures attempt.steps == old(attempt.steps)
    ensures resumed == None ==> Decides(body, m, start, attempt.limits, NotMatched(attempt.steps))
    ensures resumed.Some? ==> Runs(attempt, body, m, start, n + 1, resumed.value)
  {
    ghost var c, u := Backtrack(attempt.Stack()), attempt.Usage();
    TimesGrows(n, n + 1, Weight(m.program, RegisterCount(body)));
    resumed := attempt.Pop();
    if resumed == None {
      EndsHere(body, m, start, attempt.limits, n, c, u, NotMatched(attempt.steps));
    } else {
      MovesOn(body, m, start, attempt.limits, n, c, u);
    }
  }

  /** Make one instruction of the run. */
  method TakeStep(ghost body: Node, m: Machine, ghost start: nat, attempt: Attempt, address: nat, ghost n: nat)
    returns (next: Next)
    requires Runs(attempt, body, m, start, n, address) && attempt.steps < attempt.limits.steps
    requires address < |m.program| && !m.program[address].Accept?
    modifies attempt
    ensures old(attempt.steps) < attempt.steps <= attempt.limits.steps
    ensures next.Goto? ==> Runs(attempt, body, m, start, n + 1, next.address)
    ensures next.Failed? ==> Fails(attempt, body, m, start, n + 1)
    ensures next.LimitReached? ==> attempt.limit.Some?
    ensures next.LimitReached? ==>
      Decides(body, m, start, attempt.limits, Limited(attempt.limit.value, attempt.steps))
  {
    ghost var c, u := Run(address, attempt.Now(), attempt.Stack()), attempt.Usage();
    SoundHere(body, m, start, attempt.limits, n, address, attempt.Now(), attempt.Stack(), u);
    next := MakeStep(m, attempt, address);
    UsedMore(attempt, m, address, n, u, RegisterCount(body));
    if next.LimitReached? {
      StopsHere(body, m, start, attempt.limits, n, c, u, attempt.limit.value, attempt.steps);
    } else {
      MovesOn(body, m, start, attempt.limits, n, c, u);
    }
  }

  /** Charge a step and make one instruction. */
  method MakeStep(m: Machine, attempt: Attempt, address: nat) returns (next: Next)
    requires attempt.Valid() && attempt.steps < attempt.limits.steps
    requires address < |m.program| && !m.program[address].Accept?
    requires if IsTest(m.program[address]) then TestSound(m, m.program[address], attempt.Now())
             else OperandsExist(m.program[address], attempt.Now(), attempt.Stack())
    modifies attempt
    ensures attempt.Valid() && old(attempt.steps) < attempt.steps <= attempt.limits.steps
    ensures var c := old(Run(address, attempt.Now(), attempt.Stack()));
      && (next.Goto? ==> Step(m, c) == Run(next.address, attempt.Now(), attempt.Stack()))
      && (next.Failed? ==> Step(m, c) == Backtrack(attempt.Stack()))
      && attempt.Counts(!next.LimitReached?, Uses(m, c, old(attempt.Usage())))
    ensures next.LimitReached? ==> attempt.Full()
    ensures attempt.steps <= old(attempt.steps) + 1 + Named(m.program[address])
    ensures attempt.Within(|old(attempt.slots)|, |old(attempt.trail)|, 2 + |attempt.slots|, |old(attempt.stack)|, 1)
  {
    attempt.steps := attempt.steps + 1;
    next := attempt.Dispatch(m, m.program[address], address);
  }

  /** One instruction uses no more than its weight. */
  lemma UsedMore(attempt: Attempt, m: Machine, address: nat, n: nat, u: Use, registers: nat)
    requires address < |m.program| && attempt.Within(registers, u.trail, 2 + registers, |u.marks|, 1)
    requires attempt.steps <= u.steps + 1 + Named(m.program[address])
    requires u.steps <= Times(n, Weight(m.program, registers)) && u.trail <= Times(n, Weight(m.program, registers))
    requires |u.marks| <= Times(n, Weight(m.program, registers))
    ensures Used(attempt, n + 1, Weight(m.program, registers))
  {
    NamedIsCounted(m.program, address);
  }

  /** The answer, if the run is at its end. */
  method Ending(ghost body: Node, m: Machine, ghost start: nat, attempt: Attempt, address: nat, ghost n: nat)
    returns (r: Option<Execution>)
    requires Runs(attempt, body, m, start, n, address) && attempt.steps < attempt.limits.steps
    ensures r.Some? ==> Decides(body, m, start, attempt.limits, r.value)
    ensures r == None ==> address < |m.program| && !m.program[address].Accept?
  {
    ghost var c, u := Run(address, attempt.Now(), attempt.Stack()), attempt.Usage();
    if address >= |m.program| {
      r := Some(NotMatched(attempt.steps + 1));
      EndsHere(body, m, start, attempt.limits, n, c, u, r.value);
    } else if m.program[address].Accept? {
      r := Some(Matched(CapturesOf(attempt.slots, m.groups), attempt.steps + 1));
      EndsHere(body, m, start, attempt.limits, n, c, u, r.value);
    } else {
      r := None;
    }
  }

  /** One turn of the loop: an instruction, and backtracking if it fails. */
  method Turn(ghost body: Node, m: Machine, ghost start: nat, attempt: Attempt, address: nat, ghost n: nat)
    returns (r: Option<Execution>, to: nat, ghost k: nat)
    requires Runs(attempt, body, m, start, n, address) && attempt.steps < attempt.limits.steps
    modifies attempt
    ensures r.Some? ==> Decides(body, m, start, attempt.limits, r.value)
    ensures r == None ==> Runs(attempt, body, m, start, k, to) && attempt.steps > old(attempt.steps)
  {
    to, k := address, n + 1;
    r := Ending(body, m, start, attempt, address, n);
    if r.Some? {
      return;
    }
    var next := TakeStep(body, m, start, attempt, address, n);
    match next
    case LimitReached => r := Some(Limited(attempt.limit.value, attempt.steps));
    case Goto(target) => r, to := None, target;
    case Failed =>
      var resumed := Resume(body, m, start, attempt, k);
      if resumed == None {
        return Some(NotMatched(attempt.steps)), to, k;
      }
      r, to, k := None, resumed.value, k + 1;
  }

  /**
   Run a program from one position: it reports what the pattern matches there, or a limit, and a
   limit exactly where the run first needs more of it. It makes no more steps than the run affords.
   */
  method RunAttempt(ghost body: Node, m: Machine, registers: nat, start: nat, limits: Limits) returns (r: Execution)
    requires PatternOk(body) && InputOk(m.input) && start <= |m.input.text|
    requires m == MachineOf(body, m.input) && registers == RegisterCount(body)
    ensures Answers(body, m, registers, start, limits, r)
    ensures Exact(m, Begin(body, start), limits, r)
    ensures Affordable(m, Begin(body, start), Weight(m.program, registers), r.steps)
  {
    var attempt := new Attempt(limits, start, seq(registers, j => if j < 2 * m.groups then UNSET else 0));
    var address: nat := 0;
    ghost var n: nat := 0;
    assert attempt.slots == StartSlots(body);
    StartsRunning(attempt, body, m, start);
    while attempt.steps < limits.steps
      invariant Runs(attempt, body, m, start, n, address) && attempt.limits == limits
      decreases limits.steps - attempt.steps
    {
      var done, to;
      ghost var k;
      done, to, k := Turn(body, m, start, attempt, address, n);
      if done.Some? {
        return done.value;
      }
      address, n := to, k;
    }
    r := Limited(Steps, attempt.steps);
    OutOfSteps(body, m, start, attempt, address, n);
  }

  lemma OutOfSteps(body: Node, m: Machine, start: nat, attempt: Attempt, address: nat, n: nat)
    requires Runs(attempt, body, m, start, n, address) && attempt.steps == attempt.limits.steps
    ensures Decides(body, m, start, attempt.limits, Limited(Steps, attempt.steps))
  {
    TimesGrows(n, n + 1, Weight(m.program, RegisterCount(body)));
    StopsHere(body, m, start, attempt.limits, n, Run(address, attempt.Now(), attempt.Stack()), attempt.Usage(), Steps,
              attempt.steps);
  }
}
