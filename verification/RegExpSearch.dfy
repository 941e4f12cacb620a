/**
 Matching and searching as packages/compiler/src/regexp-execute.ts offers them: start positions
 are aligned to characters, a program that is exactly `^set+$` is scanned instead of run, and a
 search tries one position after the other.
 */
module RegExpSearch {
  import opened Basics
  import opened CodePointSets
  import opened RegExpSyntax
  import opened RegExpSemantics
  import opened RegExpProgram
  import opened RegExpSimulation
  import opened RegExpCorrectness
  import opened RegExpMatching
  import opened RegExpExecution
  import opened RegExpLimits

  // ----- Programs that can be scanned -----

  /** `^set+$`, neither lazy nor multiline. */
  function ScanBody(members: CodePointSet): Node {
    Then(Edge(false, false), Then(PlusOf(members), Edge(true, false)))
  }

  function PlusOf(members: CodePointSet): Node {
    Repeat(Characters(members), 1, None, true)
  }

  /** The eleven instructions of such a pattern. */
  function ScanLayout(members: CodePointSet): seq<Instruction> {
    [Save(0), TestEdge(false, false), RepeatInit(2), RepeatTest(2, 4, 7, true, 1, None), RepeatEnter(5, 0, 0, 2, 3),
     Consume(members, false), RepeatEnd(2, 3, 1, 3), TestEdge(true, false), Save(1), Accept, Fail]
  }

  /** The set, if the whole program is such a pattern. */
  function AnchoredRepeatSet(m: Machine, registers: nat, plain: bool): Option<CodePointSet> {
    if plain && m.groups == 1 && registers == 4 && |m.program| == 11 && m.program[5].Consume?
       && m.program == ScanLayout(m.program[5].members)
    then Some(m.program[5].members)
    else None
  }

  lemma ScanCounts(members: CodePointSet)
    ensures Count(ScanBody(members)) == 0 && Extra(ScanBody(members)) == 2 && Size(ScanBody(members)) == 7
  {
    var plus, begin, end := PlusOf(members), Edge(false, false), Edge(true, false);
    assert Count(plus) == 0 && Extra(plus) == 2 && Size(plus) == 5;
    assert Count(Then(plus, end)) == 0 && Extra(Then(plus, end)) == 2 && Size(Then(plus, end)) == 6;
  }

  lemma ScanCode(members: CodePointSet)
    ensures Code(ScanBody(members), false, 1, 2, 10) == ScanLayout(members)[1..8]
  {
    var plus, begin, end := PlusOf(members), Edge(false, false), Edge(true, false);
    assert CaptureBounds(Characters(members)) == NoBounds;
    assert Code(Characters(members), false, 5, 4, 10) == [Consume(members, false)];
    assert Code(plus, false, 2, 2, 10) == ScanLayout(members)[2..7];
    assert Size(plus) == 5 && Extra(plus) == 2;
    assert Code(end, false, 7, 4, 10) == [TestEdge(true, false)];
    assert Code(Then(plus, end), false, 2, 2, 10) == ScanLayout(members)[2..7] + [TestEdge(true, false)];
    assert Code(begin, false, 1, 2, 10) == [TestEdge(false, false)] && Size(begin) == 1 && Extra(begin) == 0;
    assert Code(ScanBody(members), false, 1, 2, 10)
      == [TestEdge(false, false)] + (ScanLayout(members)[2..7] + [TestEdge(true, false)]);
  }

  lemma LayoutIsProgram(members: CodePointSet)
    ensures Program(ScanBody(members)) == ScanLayout(members)
    ensures GroupCount(ScanBody(members)) == 1 && RegisterCount(ScanBody(members)) == 4
  {
    var body := ScanBody(members);
    ScanCounts(members);
    ScanCode(members);
    assert Code(Group(0, body), false, 0, 2, 10) == [Save(0)] + Code(body, false, 1, 2, 10) + [Save(1)];
  }

  /** Exactly the programs of such patterns are scanned. */
  lemma ScannedIff(m: Machine, registers: nat, plain: bool, members: CodePointSet)
    ensures AnchoredRepeatSet(m, registers, plain) == Some(members) <==>
      plain && m.groups == 1 && registers == 4 && m.program == Program(ScanBody(members))
  {
    LayoutIsProgram(members);
    assert ScanLayout(members)[5] == Consume(members, false);
  }

  /** Equal programs match equally, whatever patterns they were built from. */
  lemma ProgramDecides(body: Node, other: Node, input: Input, i: nat)
    requires PatternOk(body) && PatternOk(other) && InputOk(input) && i <= |input.text|
    requires Program(body) == Program(other) && GroupCount(body) == GroupCount(other)
    requires RegisterCount(body) == RegisterCount(other)
    ensures MatchAt(body, input, i) == MatchAt(other, input, i)
  {
    assert StartSlots(body) == StartSlots(other);
    var c := RunReports(body, input, i);
    var d := RunReports(other, input, i);
    OneFinal(MachineOf(body, input), Begin(body, i), c, d);
  }

  // ----- What `^set+$` matches -----

  /** Every character from `i` on is a member. */
  ghost predicate AllFrom(input: Input, i: nat, members: CodePointSet)
    requires InputOk(input)
    decreases |input.text| - i
  {
    i >= |input.text| ||
    (Holds(members, CharacterAt(input, i)) && AllFrom(input, i + WidthAt(input, i), members))
  }

  lemma ClearedIsSame(s: State, members: CodePointSet)
    ensures Cleared(s, Characters(members)) == s
  {
    assert Cleared(s, Characters(members)).captures == s.captures;
  }

  /** Of several states only those at the end of the text pass `$`. */
  ghost function Ended(input: Input, s: State, rs: seq<State>): seq<State>
    requires InputOk(input) && AllMoved(input, s, rs, false)
  {
    ResultsEach(Edge(true, false), false, input, s, rs)
  }

  lemma {:induction false} EndedConcat(input: Input, s: State, xs: seq<State>, ys: seq<State>)
    requires InputOk(input) && AllMoved(input, s, xs, false) && AllMoved(input, s, ys, false)
    ensures AllMoved(input, s, xs + ys, false)
    ensures Ended(input, s, xs + ys) == Ended(input, s, xs) + Ended(input, s, ys)
    decreases |xs|
  {
    if xs == [] {
      assert xs + ys == ys;
    } else {
      assert (xs + ys)[1..] == xs[1..] + ys;
      EndedConcat(input, s, xs[1..], ys);
    }
  }

  lemma EndedOne(input: Input, s: State, r: State)
    requires InputOk(input) && Moved(input, s, r, false)
    ensures Ended(input, s, [r]) == if r.index == |input.text| then [r] else []
  {
    var end := Edge(true, false);
    assert [r][1..] == [];
    assert ResultsEach(end, false, input, s, [r][1..]) == [];
    assert Results(end, false, input, r) == if r.index == |input.text| then [r] else [];
  }

  /** Ending does not depend on where one started. */
  lemma {:induction false} EndedFrom(input: Input, s: State, y: State, rs: seq<State>)
    requires InputOk(input) && Moved(input, s, y, false) && AllMoved(input, y, rs, false)
    ensures AllMoved(input, s, rs, false) && Ended(input, s, rs) == Ended(input, y, rs)
    decreases |rs|
  {
    if rs != [] {
      EndedFrom(input, s, y, rs[1..]);
    }
  }

  /** One character further, if it is a member. */
  ghost function NextOf(input: Input, s: State, members: CodePointSet): seq<State>
    requires InputOk(input) && StateOk(input, s)
  {
    Simple(Characters(members), false, input, s)
  }

  lemma OneRound(input: Input, s: State, members: CodePointSet, minimum: nat)
    requires InputOk(input) && StateOk(input, s) && minimum <= 1
    ensures var ys := NextOf(input, s, members);
      && (ys == [] ==> RoundsEach(PlusOf(members), minimum, None, false, input, s, ys) == [])
      && (ys != [] ==> |ys| == 1 && ys[0].index > s.index && Moved(input, s, ys[0], false))
      && (ys != [] ==> RoundsEach(PlusOf(members), minimum, None, false, input, s, ys)
                       == Rounds(PlusOf(members), 0, None, false, input, ys[0]))
  {
    var ys := NextOf(input, s, members);
    if ys != [] {
      assert ys[1..] == [];
      var rest := RoundsEach(PlusOf(members), minimum, None, false, input, s, ys[1..]);
      assert rest == [];
    }
  }

  lemma MoreOrStop(input: Input, s: State, members: CodePointSet, more: seq<State>)
    requires InputOk(input) && StateOk(input, s)
    requires more == RoundsEach(PlusOf(members), 0, None, false, input, s, NextOf(input, s, members))
    ensures Ended(input, s, Rounds(PlusOf(members), 0, None, false, input, s))
      == Ended(input, s, more) + if s.index == |input.text| then [s] else []
  {
    ClearedIsSame(s, members);
    EndedConcat(input, s, more, [s]);
    EndedOne(input, s, s);
  }

  /** The rounds that reach the end: one way, if only members follow. */
  lemma {:induction false} RoundsToEnd(input: Input, s: State, members: CodePointSet)
    requires InputOk(input) && StateOk(input, s)
    ensures Ended(input, s, Rounds(PlusOf(members), 0, None, false, input, s))
      == if AllFrom(input, s.index, members) then [s.(index := |input.text|)] else []
    decreases |input.text| - s.index
  {
    var ys := NextOf(input, s, members);
    var more := RoundsEach(PlusOf(members), 0, None, false, input, s, ys);
    OneRound(input, s, members, 0);
    MoreOrStop(input, s, members, more);
    NextIsMember(input, s, members);
    if ys != [] {
      RoundsToEnd(input, ys[0], members);
      EndedFrom(input, s, ys[0], more);
    }
  }

  /** One character further there is one way on, if the character is a member. */
  lemma NextIsMember(input: Input, s: State, members: CodePointSet)
    requires InputOk(input) && StateOk(input, s)
    ensures var ys := NextOf(input, s, members);
      && (ys == [] ==> (AllFrom(input, s.index, members) <==> s.index == |input.text|))
      && (ys != [] ==> s.index < |input.text| && ys[0] == s.(index := ys[0].index)
                       && (AllFrom(input, s.index, members) <==> AllFrom(input, ys[0].index, members)))
  {}

  /** The first round is forced. */
  lemma FirstRound(input: Input, s: State, members: CodePointSet)
    requires InputOk(input) && StateOk(input, s)
    ensures Ended(input, s, Rounds(PlusOf(members), 1, None, false, input, s))
      == if s.index < |input.text| && AllFrom(input, s.index, members) then [s.(index := |input.text|)] else []
  {
    var ys := NextOf(input, s, members);
    ClearedIsSame(s, members);
    OneRound(input, s, members, 1);
    NextIsMember(input, s, members);
    if ys != [] {
      RoundsToEnd(input, ys[0], members);
      EndedFrom(input, s, ys[0], Rounds(PlusOf(members), 0, None, false, input, ys[0]));
    }
  }

  /** `^set+$` matches the whole text, from its start, if there is one and all of it are members. */
  lemma ScanMatches(input: Input, i: nat, members: CodePointSet)
    requires InputOk(input) && i <= |input.text|
    ensures MatchAt(ScanBody(members), input, i) ==
      if i == 0 && |input.text| > 0 && AllFrom(input, 0, members)
      then Some(State(|input.text|, [Some(Span(0, |input.text|))]))
      else None
  {
    var body, s := ScanBody(members), StartState(ScanBody(members), i);
    MatchIsFirstResult(body, input, i);
    LayoutIsProgram(members);
    BodyResults(input, s, members);
    assert s.captures == [None];
    if i == 0 && |input.text| > 0 && AllFrom(input, 0, members) {
      assert Closed(State(|input.text|, [None]), 0, 0, false).captures == [Some(Span(0, |input.text|))];
    }
  }

  lemma BodyResults(input: Input, s: State, members: CodePointSet)
    requires InputOk(input) && StateOk(input, s)
    ensures Results(ScanBody(members), false, input, s) ==
      if s.index == 0 && 0 < |input.text| && AllFrom(input, 0, members) then [s.(index := |input.text|)] else []
  {
    var rest := Then(PlusOf(members), Edge(true, false));
    FirstRound(input, s, members);
    assert Results(rest, false, input, s) == Ended(input, s, Rounds(PlusOf(members), 1, None, false, input, s));
    assert [s][1..] == [];
    assert ResultsEach(rest, false, input, s, [s]) == Results(rest, false, input, s) + [];
    assert Results(Edge(false, false), false, input, s) == if s.index == 0 then [s] else [];
  }

  // ----- Matching at one position -----

  ghost predicate SetsOk(code: seq<Instruction>) {
    forall j | 0 <= j < |code| && code[j].Consume? :: WellFormed(code[j].members)
  }

  lemma SetsOkConcat(x: seq<Instruction>, y: seq<Instruction>)
    requires SetsOk(x) && SetsOk(y)
    ensures SetsOk(x + y)
  {}

  lemma OrSetsOk(x: seq<Instruction>, y: seq<Instruction>, fork: Instruction, jump: Instruction)
    requires SetsOk(x) && SetsOk(y) && fork.Fork? && jump.Jump?
    ensures SetsOk([fork] + x + [jump] + y)
  {
    SetsOkConcat([fork], x);
    SetsOkConcat([fork] + x, [jump]);
    SetsOkConcat([fork] + x + [jump], y);
  }

  lemma AroundSetsOk(before: seq<Instruction>, x: seq<Instruction>, last: Instruction)
    requires SetsOk(x) && !last.Consume? && forall j | 0 <= j < |before| :: !before[j].Consume?
    ensures SetsOk(before + x + [last])
  {
    SetsOkConcat(before, x);
    SetsOkConcat(before + x, [last]);
  }

  lemma FrameSetsOk(site: Site, f: nat)
    requires site.node.Group? || site.node.Repeat? || site.node.Look?
    ensures !Epilogue(site, f).Consume?
    ensures forall j | 0 <= j < |Prologue(site, f)| :: !Prologue(site, f)[j].Consume?
  {}

  lemma {:induction false} SiteSetsOk(site: Site, f: nat, groups: nat)
    requires WellBuilt(site.node, groups)
    ensures SetsOk(CodeOf(site, f))
    decreases site.node
  {
    match site.node
    case Then(_, _) =>
      SiteSetsOk(EarlierSite(site), f, groups);
      SiteSetsOk(LaterSite(site), f, groups);
      ThenCode(site, f);
      SetsOkConcat(CodeOf(EarlierSite(site), f), CodeOf(LaterSite(site), f));
    case Or(_, _) =>
      SiteSetsOk(FirstSite(site), f, groups);
      SiteSetsOk(SecondSite(site), f, groups);
      OrCode(site, f);
      OrSetsOk(CodeOf(FirstSite(site), f), CodeOf(SecondSite(site), f), Fork(site.a + 1, SecondSite(site).a),
               Jump(EndOf(site)));
    case Group(_, _) => EnclosingSetsOk(site, f, groups);
    case Repeat(_, _, _, _) => EnclosingSetsOk(site, f, groups);
    case Look(_, _, _) => EnclosingSetsOk(site, f, groups);
    case _ =>
  }

  lemma {:induction false} EnclosingSetsOk(site: Site, f: nat, groups: nat)
    requires WellBuilt(site.node, groups) && (site.node.Group? || site.node.Repeat? || site.node.Look?)
    ensures SetsOk(CodeOf(site, f))
    decreases site.node, 0
  {
    SiteSetsOk(BodySite(site), f, groups);
    BodyCode(site, f);
    FrameSetsOk(site, f);
    AroundSetsOk(Prologue(site, f), CodeOf(BodySite(site), f), Epilogue(site, f));
  }

  lemma ProgramSetsOk(body: Node)
    requires PatternOk(body)
    ensures SetsOk(Program(body))
  {
    var f := Size(Whole(body)) + 1;
    SiteSetsOk(WholeSite(body), f, GroupCount(body));
    SetsOkConcat(CodeOf(WholeSite(body), f), [Accept, Fail]);
  }

  /** What matching at an aligned position answers; a scan needs a step for each code unit, and two. */
  ghost predicate MatchAnswers(body: Node, m: Machine, registers: nat, at: nat, limits: Limits, r: Execution)
    requires InputOk(m.input) && at <= |m.input.text|
  {
    && r.steps <= limits.steps
    && match r
       case Matched(captures, _) =>
         MatchAt(body, m.input, at).Some? && MatchAt(body, m.input, at).value.captures == captures
       case NotMatched(_) => MatchAt(body, m.input, at) == None
       case Limited(limit, _) =>
         || (limit == Steps && limits.steps <= |m.input.text| + 1)
         || Tight(m, Begin(body, at), Allowed(limits, limit), Weight(m.program, registers))
  }

  /** The steps of a scan from a position on: one for each character looked at, and one for the end. */
  ghost function ScanSteps(input: Input, i: nat, members: CodePointSet): nat
    requires InputOk(input) && i <= |input.text|
    decreases |input.text| - i
  {
    if i == |input.text| || !Holds(members, CharacterAt(input, i)) then 1
    else
      AdvanceStays(input, i, false);
      1 + ScanSteps(input, i + WidthAt(input, i), members)
  }

  /** Scan a whole pattern `^set+$` without any undo state. */
  method ScanAnchoredRepeat(input: Input, at: nat, members: CodePointSet, limits: Limits) returns (r: Execution)
    requires InputOk(input) && at <= |input.text| && WellFormed(members)
    ensures r.steps <= limits.steps
    ensures r.Matched? ==> MatchAt(ScanBody(members), input, at).Some?
    ensures r.Matched? ==> MatchAt(ScanBody(members), input, at).value.captures == r.captures
    ensures r.NotMatched? ==> MatchAt(ScanBody(members), input, at) == None
    ensures r.Limited? ==> r.limit == Steps && limits.steps <= |input.text| + 1
    ensures r.steps <= |input.text| + 2
    ensures var needed := 1 + if at == 0 then ScanSteps(input, 0, members) else 0;
      if limits.steps < needed then r == Limited(Steps, limits.steps) else !r.Limited? && r.steps == needed
  {
    ScanMatches(input, at, members);
    if limits.steps == 0 {
      return Limited(Steps, 0);
    }
    var steps := 1;
    if at != 0 {
      return NotMatched(steps);
    }
    var index: nat := 0;
    while index < |input.text|
      invariant index <= |input.text| && steps <= index + 1 && steps <= limits.steps
      invariant AllFrom(input, 0, members) == AllFrom(input, index, members)
      invariant 1 + ScanSteps(input, 0, members) == steps + ScanSteps(input, index, members)
      decreases |input.text| - index
    {
      if steps >= limits.steps {
        return Limited(Steps, steps);
      }
      steps := steps + 1;
      var held := HasCharacter(members, CharacterAt(input, index));
      if !held {
        return NotMatched(steps);
      }
      AdvanceStays(input, index, false);
      index := index + WidthAt(input, index);
    }
    if steps >= limits.steps {
      return Limited(Steps, steps);
    }
    r := if index == 0 then NotMatched(steps + 1) else Matched([Some(Span(0, index))], steps + 1);
  }

  lemma ScanIsOk(members: CodePointSet)
    requires WellFormed(members)
    ensures PatternOk(ScanBody(members))
  {
    var plus, end := PlusOf(members), Edge(true, false);
    ScanCounts(members);
    assert WellBuilt(plus, 1) && Numbered(plus, 1) && Count(plus) == 0;
    assert WellBuilt(Then(plus, end), 1) && Numbered(Then(plus, end), 1);
  }

  /** A program that is scanned matches like the pattern it is scanned for. */
  lemma ScannedMatches(body: Node, m: Machine, registers: nat, plain: bool, at: nat)
    requires PatternOk(body) && InputOk(m.input) && at <= |m.input.text|
    requires m == MachineOf(body, m.input) && registers == RegisterCount(body)
    requires AnchoredRepeatSet(m, registers, plain).Some?
    ensures var members := AnchoredRepeatSet(m, registers, plain).value;
      WellFormed(members) && MatchAt(body, m.input, at) == MatchAt(ScanBody(members), m.input, at)
  {
    var members := AnchoredRepeatSet(m, registers, plain).value;
    ProgramSetsOk(body);
    assert WellFormed(m.program[5].members);
    LayoutIsProgram(members);
    ScanCounts(members);
    ScanIsOk(members);
    ProgramDecides(body, ScanBody(members), m.input, at);
  }

  /** A scan takes two steps and one for each character at most, and a run what it affords. */
  ghost predicate Frugal(body: Node, m: Machine, registers: nat, at: nat, r: Execution) {
    r.steps <= |m.input.text| + 2 || Affordable(m, Begin(body, at), Weight(m.program, registers), r.steps)
  }

  /** One attempt at one position. */
  method MatchRegExp(ghost body: Node, m: Machine, registers: nat, plain: bool, start: int, limits: Limits)
    returns (r: Execution)
    requires PatternOk(body) && InputOk(m.input)
    requires m == MachineOf(body, m.input) && registers == RegisterCount(body)
    ensures !(0 <= start <= |m.input.text|) ==> r == NotMatched(0)
    ensures 0 <= start <= |m.input.text| ==>
      MatchAnswers(body, m, registers, AlignedStart(m.input, start), limits, r)
      && Frugal(body, m, registers, AlignedStart(m.input, start), r)
    ensures 0 <= start <= |m.input.text| && AnchoredRepeatSet(m, registers, plain) == None ==>
      Exact(m, Begin(body, AlignedStart(m.input, start)), limits, r)
  {
    if start < 0 || start > |m.input.text| {
      return NotMatched(0);
    }
    var at := AlignedStart(m.input, start);
    var scanned := AnchoredRepeatSet(m, registers, plain);
    if scanned.Some? {
      ScannedMatches(body, m, registers, plain, at);
      r := ScanAnchoredRepeat(m.input, at, scanned.value, limits);
    } else {
      r := RunAttempt(body, m, registers, at, limits);
    }
  }

  // ----- Searching -----

  /** The first match from a position on; a sticky pattern is tried there only. */
  ghost function FirstMatch(body: Node, input: Input, i: nat, sticky: bool): Option<State>
    requires InputOk(input) && i <= |input.text|
    decreases |input.text| - i
  {
    var here := MatchAt(body, input, i);
    if here.Some? || sticky || i >= |input.text| then here
    else
      AdvanceStays(input, i, false);
      FirstMatch(body, input, i + WidthAt(input, i), sticky)
  }

  /** An anchored pattern has no match further on. */
  lemma {:induction false} ScanSearches(members: CodePointSet, input: Input, i: nat, sticky: bool)
    requires InputOk(input) && i <= |input.text|
    ensures FirstMatch(ScanBody(members), input, i, sticky) == MatchAt(ScanBody(members), input, i)
    decreases |input.text| - i
  {
    ScanMatches(input, i, members);
    if MatchAt(ScanBody(members), input, i) == None && !sticky && i < |input.text| {
      AdvanceStays(input, i, false);
      ScanSearches(members, input, i + WidthAt(input, i), sticky);
      ScanMatches(input, i + WidthAt(input, i), members);
    }
  }

  /** Both patterns match the same at a position. */
  ghost predicate Alike(body: Node, other: Node, input: Input, i: nat)
    requires InputOk(input)
  {
    i <= |input.text| ==> MatchAt(body, input, i) == MatchAt(other, input, i)
  }

  lemma SearchUnfolds(body: Node, input: Input, i: nat, sticky: bool, here: Option<State>)
    requires InputOk(input) && i <= |input.text| && here == MatchAt(body, input, i)
    ensures i < |input.text| ==> i + WidthAt(input, i) <= |input.text|
    ensures FirstMatch(body, input, i, sticky) ==
      if here.Some? || sticky || i >= |input.text| then here else FirstMatch(body, input, i + WidthAt(input, i), sticky)
  {
    if i < |input.text| {
      AdvanceStays(input, i, false);
    }
  }

  lemma SameTurn(body: Node, other: Node, input: Input, i: nat, sticky: bool)
    requires InputOk(input) && i <= |input.text| && MatchAt(body, input, i) == MatchAt(other, input, i)
    requires i < |input.text| ==> i + WidthAt(input, i) <= |input.text|
    requires i < |input.text| ==>
      FirstMatch(body, input, i + WidthAt(input, i), sticky) == FirstMatch(other, input, i + WidthAt(input, i), sticky)
    ensures FirstMatch(body, input, i, sticky) == FirstMatch(other, input, i, sticky)
  {
    SearchUnfolds(body, input, i, sticky, MatchAt(body, input, i));
    SearchUnfolds(other, input, i, sticky, MatchAt(body, input, i));
  }

  /** Patterns that match equally are found equally. */
  lemma {:induction false} SameMatchesSameSearch(body: Node, other: Node, input: Input, i: nat, sticky: bool)
    requires InputOk(input) && i <= |input.text| && forall j: nat :: Alike(body, other, input, j)
    ensures FirstMatch(body, input, i, sticky) == FirstMatch(other, input, i, sticky)
    decreases |input.text| - i
  {
    if i < |input.text| {
      AdvanceStays(input, i, false);
      SameMatchesSameSearch(body, other, input, i + WidthAt(input, i), sticky);
    }
    assert Alike(body, other, input, i);
    SameTurn(body, other, input, i, sticky);
  }

  lemma ScannedSearches(body: Node, m: Machine, registers: nat, plain: bool, at: nat, sticky: bool)
    requires PatternOk(body) && InputOk(m.input) && at <= |m.input.text|
    requires m == MachineOf(body, m.input) && registers == RegisterCount(body)
    requires AnchoredRepeatSet(m, registers, plain).Some?
    ensures FirstMatch(body, m.input, at, sticky) == MatchAt(body, m.input, at)
  {
    var members := AnchoredRepeatSet(m, registers, plain).value;
    forall j: nat ensures Alike(body, ScanBody(members), m.input, j) {
      if j <= |m.input.text| {
        ScannedMatches(body, m, registers, plain, j);
      }
    }
    assert Alike(body, ScanBody(members), m.input, at);
    SameMatchesSameSearch(body, ScanBody(members), m.input, at, sticky);
    ScanSearches(members, m.input, at, sticky);
  }

  /** What one position costs at most, if the run there takes `k` steps. */
  function PositionCost(m: Machine, registers: nat, k: nat): nat {
    Times(k, Weight(m.program, registers)) + |m.input.text| + 2
  }

  /** The run from every position ends within `k` steps. */
  ghost predicate RunsEnd(body: Node, m: Machine, k: nat) {
    forall j: nat | j <= |m.input.text| :: Final(Iterate(m, Begin(body, j), k))
  }

  /** Steps are shared by all positions; trail and stack start anew at each of them. */
  function SearchCost(m: Machine, registers: nat, limit: Limit, k: nat): nat {
    if limit == Steps then Times(|m.input.text| + 1, PositionCost(m, registers, k)) else PositionCost(m, registers, k)
  }

  /** However few steps the runs end in, the limit does not allow for a search with them. */
  ghost predicate SearchTight(body: Node, m: Machine, registers: nat, limits: Limits, limit: Limit) {
    forall k | RunsEnd(body, m, k) :: Allowed(limits, limit) <= SearchCost(m, registers, limit, k)
  }

  /** What a search from an aligned position answers. */
  ghost predicate SearchAnswers(body: Node, m: Machine, registers: nat, at: nat, sticky: bool, limits: Limits,
                                r: Execution)
    requires InputOk(m.input) && at <= |m.input.text|
  {
    && r.steps <= limits.steps
    && match r
       case Matched(captures, _) =>
         && FirstMatch(body, m.input, at, sticky).Some?
         && FirstMatch(body, m.input, at, sticky).value.captures == captures
       case NotMatched(_) => FirstMatch(body, m.input, at, sticky) == None
       case Limited(limit, _) => SearchTight(body, m, registers, limits, limit)
  }

  /** So many positions have taken no more steps than they cost. */
  ghost predicate Spent(body: Node, m: Machine, registers: nat, positions: nat, steps: nat) {
    forall k | RunsEnd(body, m, k) :: steps <= Times(positions, PositionCost(m, registers, k))
  }

  lemma SpendsMore(body: Node, m: Machine, registers: nat, positions: nat, steps: nat, i: nat,
                   attempt: Execution)
    requires Spent(body, m, registers, positions, steps) && i <= |m.input.text|
    requires Frugal(body, m, registers, i, attempt)
    ensures Spent(body, m, registers, positions + 1, steps + attempt.steps)
  {
    forall k | RunsEnd(body, m, k)
      ensures steps + attempt.steps <= Times(positions + 1, PositionCost(m, registers, k))
    {
      assert Final(Iterate(m, Begin(body, i), k));
    }
  }

  /** An attempt with what is left of sufficient limits is not limited. */
  lemma LimitedInSearch(body: Node, m: Machine, registers: nat, limits: Limits, positions: nat, steps: nat, i: nat,
                        attempt: Execution)
    requires PatternOk(body) && InputOk(m.input) && i <= |m.input.text| && steps <= limits.steps
    requires Spent(body, m, registers, positions, steps) && positions <= |m.input.text|
    requires MatchAnswers(body, m, registers, i, limits.(steps := limits.steps - steps), attempt) && attempt.Limited?
    ensures SearchTight(body, m, registers, limits, attempt.limit)
  {
    forall k | RunsEnd(body, m, k)
      ensures Allowed(limits, attempt.limit) <= SearchCost(m, registers, attempt.limit, k)
    {
      var cost, left := PositionCost(m, registers, k), limits.(steps := limits.steps - steps);
      assert Times(positions + 1, cost) == Times(positions, cost) + cost;
      TimesGrows(positions + 1, |m.input.text| + 1, cost);
      assert Final(Iterate(m, Begin(body, i), k));
      assert Allowed(left, attempt.limit) > Times(k, Weight(m.program, registers)) ==>
          Suffices(m, Begin(body, i), Allowed(left, attempt.limit), Weight(m.program, registers), k);
    }
  }

  // ----- The steps of a search -----

  /** The positions before `to` were tried without a match, and their runs make so many steps. */
  ghost predicate Tried(body: Node, m: Machine, from: nat, to: nat, steps: nat)
    requires InputOk(m.input)
    decreases |m.input.text| - from, 0
  {
    if from == to then steps == 0
    else
      && from < |m.input.text| && MatchAt(body, m.input, from) == None
      && exists s :: TriedFirst(body, m, from, to, steps, s)
  }

  /** The first of them makes `s` of these steps. */
  ghost predicate TriedFirst(body: Node, m: Machine, from: nat, to: nat, steps: nat, s: nat)
    requires InputOk(m.input) && from < |m.input.text|
    decreases |m.input.text| - from - 1, 1
  {
    && TotalSteps(m, Begin(body, from), s) && s <= steps
    && Tried(body, m, from + WidthAt(m.input, from), to, steps - s)
  }

  lemma {:induction false} TriedOneMore(body: Node, m: Machine, from: nat, to: nat, steps: nat, s: nat)
    requires InputOk(m.input) && Tried(body, m, from, to, steps) && from <= to
    requires to < |m.input.text| && MatchAt(body, m.input, to) == None && TotalSteps(m, Begin(body, to), s)
    ensures Tried(body, m, from, to + WidthAt(m.input, to), steps + s)
    decreases |m.input.text| - from
  {
    var next := to + WidthAt(m.input, to);
    if from == to {
      assert Tried(body, m, next, next, 0);
      assert TriedFirst(body, m, from, next, s, s);
    } else {
      var first :| TriedFirst(body, m, from, to, steps, first);
      TriedIsBefore(body, m, from + WidthAt(m.input, from), to, steps - first);
      TriedOneMore(body, m, from + WidthAt(m.input, from), to, steps - first, s);
      assert TriedFirst(body, m, from, next, steps + s, first);
    }
  }

  lemma {:induction false} TriedIsBefore(body: Node, m: Machine, from: nat, to: nat, steps: nat)
    requires InputOk(m.input) && Tried(body, m, from, to, steps)
    ensures from <= to
    decreases |m.input.text| - from
  {
    if from != to {
      var first :| TriedFirst(body, m, from, to, steps, first);
      TriedIsBefore(body, m, from + WidthAt(m.input, from), to, steps - first);
    }
  }

  /** An attempt at `i` with the steps that are left, and its answer with those made before. */
  ghost predicate AttemptedAt(body: Node, m: Machine, i: nat, limits: Limits, steps: nat, attempt: Execution,
                              r: Execution)
  {
    && steps <= limits.steps && Exact(m, Begin(body, i), limits.(steps := limits.steps - steps), attempt)
    && r == MoreSteps(attempt, steps)
  }

  /** The search answers what an attempt at `to` does with the steps that the positions before have left. */
  ghost predicate DecidedAt(body: Node, m: Machine, start: nat, sticky: bool, limits: Limits, r: Execution, to: nat,
                            steps: nat)
    requires InputOk(m.input)
  {
    && Tried(body, m, start, to, steps) && (sticky ==> to == start)
    && (exists attempt :: AttemptedAt(body, m, to, limits, steps, attempt, r))
    && (r.NotMatched? ==> sticky || to >= |m.input.text|)
  }

  ghost predicate SearchExact(body: Node, m: Machine, start: nat, sticky: bool, limits: Limits, r: Execution)
    requires InputOk(m.input)
  {
    exists to, steps :: DecidedAt(body, m, start, sticky, limits, r, to, steps)
  }

  /** What one attempt of a search at `i` leads to. */
  ghost predicate TurnExact(body: Node, m: Machine, i: nat, sticky: bool, limits: Limits, steps: nat, r: Execution,
                            more: bool)
    requires InputOk(m.input) && i <= |m.input.text|
  {
    && (exists attempt :: AttemptedAt(body, m, i, limits, steps, attempt, r))
    && more == (r.NotMatched? && !sticky && i < |m.input.text|) && (more ==> MatchAt(body, m.input, i) == None)
  }

  ghost predicate TriedUpTo(body: Node, m: Machine, start: nat, i: nat, sticky: bool, steps: nat)
    requires InputOk(m.input)
  {
    Tried(body, m, start, i, steps) && start <= i && (sticky ==> i == start)
  }

  lemma TurnEnds(body: Node, m: Machine, start: nat, i: nat, sticky: bool, limits: Limits, steps: nat, r: Execution)
    requires InputOk(m.input) && i <= |m.input.text| && TriedUpTo(body, m, start, i, sticky, steps)
    requires TurnExact(body, m, i, sticky, limits, steps, r, false)
    ensures SearchExact(body, m, start, sticky, limits, r)
  {
    assert DecidedAt(body, m, start, sticky, limits, r, i, steps);
  }

  lemma TurnGoesOn(body: Node, m: Machine, start: nat, i: nat, sticky: bool, limits: Limits, steps: nat, r: Execution)
    requires InputOk(m.input) && i <= |m.input.text| && TriedUpTo(body, m, start, i, sticky, steps)
    requires TurnExact(body, m, i, sticky, limits, steps, r, true)
    ensures TriedUpTo(body, m, start, i + WidthAt(m.input, i), sticky, r.steps)
  {
    var attempt :| AttemptedAt(body, m, i, limits, steps, attempt, r);
    ExactTotal(m, Begin(body, i), limits.(steps := limits.steps - steps), attempt);
    TriedOneMore(body, m, start, i, steps, attempt.steps);
  }

  lemma ExactTotal(m: Machine, begin: Config, limits: Limits, r: Execution)
    requires Exact(m, begin, limits, r) && !r.Limited?
    ensures TotalSteps(m, begin, r.steps)
  {
    var n :| EndsWithin(m, begin, limits, n, r.steps);
    assert OverAt(m, begin, n);
  }

  function MoreSteps(r: Execution, steps: nat): Execution {
    r.(steps := r.steps + steps)
  }

  /** Search for the first match at or after a position. */
  method SearchRegExp(ghost body: Node, m: Machine, registers: nat, plain: bool, start: int, sticky: bool,
                      limits: Limits)
    returns (r: Execution)
    requires PatternOk(body) && InputOk(m.input)
    requires m == MachineOf(body, m.input) && registers == RegisterCount(body)
    ensures !(0 <= start <= |m.input.text|) ==> r == NotMatched(0)
    ensures 0 <= start <= |m.input.text| ==>
      SearchAnswers(body, m, registers, AlignedStart(m.input, start), sticky, limits, r)
    ensures 0 <= start <= |m.input.text| && AnchoredRepeatSet(m, registers, plain) == None ==>
      SearchExact(body, m, AlignedStart(m.input, start), sticky, limits, r)
  {
    if start < 0 || start > |m.input.text| {
      return NotMatched(0);
    }
    var index := AlignedStart(m.input, start);
    var scanned := AnchoredRepeatSet(m, registers, plain);
    if scanned.Some? {
      ScannedMatches(body, m, registers, plain, index);
      ScannedSearches(body, m, registers, plain, index, sticky);
      r := ScanAnchoredRepeat(m.input, index, scanned.value, limits);
      ScanIsTight(body, m, registers, limits);
      return;
    }
    r := SearchOnward(body, m, registers, plain, index, sticky, limits);
  }

  /** Steps that are too few for a scan are too few for a search. */
  lemma ScanIsTight(body: Node, m: Machine, registers: nat, limits: Limits)
    ensures limits.steps <= |m.input.text| + 1 ==> SearchTight(body, m, registers, limits, Steps)
  {
    forall k ensures |m.input.text| + 1 < SearchCost(m, registers, Steps, k) {
      TimesGrows(1, |m.input.text| + 1, PositionCost(m, registers, k));
      assert Times(1, PositionCost(m, registers, k)) == PositionCost(m, registers, k);
    }
  }

  /** Whether a search goes on behind position `i`, and what it has found if not. */
  ghost predicate TurnAnswers(body: Node, m: Machine, registers: nat, i: nat, sticky: bool, limits: Limits,
                              r: Execution, more: bool)
    requires InputOk(m.input) && i <= |m.input.text|
  {
    if more then
      && r.steps <= limits.steps && i < |m.input.text| && i + WidthAt(m.input, i) <= |m.input.text|
      && FirstMatch(body, m.input, i, sticky) == FirstMatch(body, m.input, i + WidthAt(m.input, i), sticky)
    else SearchAnswers(body, m, registers, i, sticky, limits, r)
  }

  /** An attempt decides the search, unless it found nothing and there is another position. */
  lemma TurnDecides(body: Node, m: Machine, registers: nat, i: nat, sticky: bool, limits: Limits, steps: nat,
                    attempt: Execution)
    requires InputOk(m.input) && i <= |m.input.text| && steps <= limits.steps
    requires MatchAnswers(body, m, registers, i, limits.(steps := limits.steps - steps), attempt)
    requires attempt.Limited? ==> SearchTight(body, m, registers, limits, attempt.limit)
    ensures TurnAnswers(body, m, registers, i, sticky, limits, MoreSteps(attempt, steps),
                        attempt.NotMatched? && !sticky && i < |m.input.text|)
  {
    SearchUnfolds(body, m.input, i, sticky, MatchAt(body, m.input, i));
  }

  /** One attempt of a search, with the steps that are left. */
  method SearchTurn(ghost body: Node, m: Machine, registers: nat, plain: bool, i: nat, sticky: bool, limits: Limits,
                    steps: nat, ghost positions: nat)
    returns (r: Execution, more: bool)
    requires PatternOk(body) && InputOk(m.input) && i <= |m.input.text| && AlignedStart(m.input, i) == i
    requires AnchoredRepeatSet(m, registers, plain) == None
    requires m == MachineOf(body, m.input) && registers == RegisterCount(body) && steps <= limits.steps
    requires Spent(body, m, registers, positions, steps) && positions <= i
    ensures TurnAnswers(body, m, registers, i, sticky, limits, r, more)
    ensures Spent(body, m, registers, positions + 1, r.steps)
    ensures TurnExact(body, m, i, sticky, limits, steps, r, more)
  {
    var attempt := MatchRegExp(body, m, registers, plain, i, limits.(steps := limits.steps - steps));
    SpendsMore(body, m, registers, positions, steps, i, attempt);
    if attempt.Limited? {
      LimitedInSearch(body, m, registers, limits, positions, steps, i, attempt);
    }
    TurnDecides(body, m, registers, i, sticky, limits, steps, attempt);
    r, more := MoreSteps(attempt, steps), attempt.NotMatched? && !sticky && i < |m.input.text|;
    assert AttemptedAt(body, m, i, limits, steps, attempt, r);
  }

  lemma SearchedFrom(body: Node, m: Machine, registers: nat, start: nat, i: nat, sticky: bool, limits: Limits,
                     r: Execution)
    requires InputOk(m.input) && start <= |m.input.text| && i <= |m.input.text|
    requires FirstMatch(body, m.input, start, sticky) == FirstMatch(body, m.input, i, sticky)
    requires SearchAnswers(body, m, registers, i, sticky, limits, r)
    ensures SearchAnswers(body, m, registers, start, sticky, limits, r)
  {}

  /** What the loop over positions keeps. */
  ghost predicate Onward(body: Node, m: Machine, registers: nat, start: nat, i: nat, sticky: bool, limits: Limits,
                         positions: nat, steps: nat)
    requires InputOk(m.input) && start <= |m.input.text| && i <= |m.input.text|
  {
    && AlignedStart(m.input, i) == i && steps <= limits.steps && positions <= i
    && Spent(body, m, registers, positions, steps)
    && FirstMatch(body, m.input, start, sticky) == FirstMatch(body, m.input, i, sticky)
  }

  lemma OnwardTurn(body: Node, m: Machine, registers: nat, start: nat, i: nat, sticky: bool, limits: Limits,
                   positions: nat, steps: nat, r: Execution)
    requires InputOk(m.input) && start <= |m.input.text| && i <= |m.input.text|
    requires Onward(body, m, registers, start, i, sticky, limits, positions, steps)
    requires TurnAnswers(body, m, registers, i, sticky, limits, r, true)
    requires Spent(body, m, registers, positions + 1, r.steps)
    ensures var next := i + WidthAt(m.input, i);
      Onward(body, m, registers, start, next, sticky, limits, positions + 1, r.steps)
  {
    NextIsAligned(m.input, i);
  }

  ghost predicate Searching(body: Node, m: Machine, registers: nat, start: nat, i: nat, sticky: bool, limits: Limits,
                            positions: nat, steps: nat)
    requires InputOk(m.input) && start <= |m.input.text|
  {
    && i <= |m.input.text| && Onward(body, m, registers, start, i, sticky, limits, positions, steps)
    && TriedUpTo(body, m, start, i, sticky, steps)
  }

  lemma SearchEnds(body: Node, m: Machine, registers: nat, start: nat, i: nat, sticky: bool, limits: Limits,
                   positions: nat, steps: nat, r: Execution)
    requires InputOk(m.input) && start <= |m.input.text|
    requires Searching(body, m, registers, start, i, sticky, limits, positions, steps)
    requires TurnAnswers(body, m, registers, i, sticky, limits, r, false)
    requires TurnExact(body, m, i, sticky, limits, steps, r, false)
    ensures SearchAnswers(body, m, registers, start, sticky, limits, r)
    ensures SearchExact(body, m, start, sticky, limits, r)
  {
    SearchedFrom(body, m, registers, start, i, sticky, limits, r);
    TurnEnds(body, m, start, i, sticky, limits, steps, r);
  }

  lemma SearchGoesOn(body: Node, m: Machine, registers: nat, start: nat, i: nat, sticky: bool, limits: Limits,
                     positions: nat, steps: nat, r: Execution)
    requires InputOk(m.input) && start <= |m.input.text|
    requires Searching(body, m, registers, start, i, sticky, limits, positions, steps)
    requires TurnAnswers(body, m, registers, i, sticky, limits, r, true)
    requires TurnExact(body, m, i, sticky, limits, steps, r, true)
    requires Spent(body, m, registers, positions + 1, r.steps)
    ensures Searching(body, m, registers, start, i + WidthAt(m.input, i), sticky, limits, positions + 1, r.steps)
  {
    OnwardTurn(body, m, registers, start, i, sticky, limits, positions, steps, r);
    TurnGoesOn(body, m, start, i, sticky, limits, steps, r);
  }

  /** The loop over positions. */
  method SearchOnward(ghost body: Node, m: Machine, registers: nat, plain: bool, start: nat, sticky: bool,
                      limits: Limits)
    returns (r: Execution)
    requires PatternOk(body) && InputOk(m.input) && start <= |m.input.text| && AlignedStart(m.input, start) == start
    requires m == MachineOf(body, m.input) && registers == RegisterCount(body)
    requires AnchoredRepeatSet(m, registers, plain) == None
    ensures SearchAnswers(body, m, registers, start, sticky, limits, r)
    ensures SearchExact(body, m, start, sticky, limits, r)
  {
    var index, steps: nat := start, 0;
    ghost var positions: nat := 0;
    while true
      invariant Searching(body, m, registers, start, index, sticky, limits, positions, steps)
      decreases |m.input.text| - index
    {
      var more;
      r, more := SearchTurn(body, m, registers, plain, index, sticky, limits, steps, positions);
      if !more {
        SearchEnds(body, m, registers, start, index, sticky, limits, positions, steps, r);
        return;
      }
      SearchGoesOn(body, m, registers, start, index, sticky, limits, positions, steps, r);
      steps, positions := r.steps, positions + 1;
      index := index + WidthAt(m.input, index);
    }
  }
}
