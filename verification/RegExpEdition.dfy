/**
 Matching as the edition defines it, on the list of characters that a text encodes, against the
 executor's matching on code units: the same results, at the same characters, unless a reference
 is read from the right in a text with unpaired trail surrogates.
 */
module RegExpEdition {
  import opened Basics
  import opened CodePointSets
  import opened RegExpSyntax
  import opened RegExpSemantics
  import opened RegExpProgram
  import opened RegExpMatching
  import opened RegExpExecution
  import opened RegExpLimits
  import opened RegExpSearch
  import opened RegExpCharacters
  import opened RegExpReferences

  // ----- States in code units -----

  function UnitState(input: Input, t: State): (s: State)
    requires InputOk(input)
    ensures |s.captures| == |t.captures|
  {
    State(UnitIndex(input, t.index),
          seq(|t.captures|, k requires 0 <= k < |t.captures| => UnitCapture(input, t.captures[k])))
  }

  function UnitStates(input: Input, ts: seq<State>): (ss: seq<State>)
    requires InputOk(input)
    ensures |ss| == |ts| && forall j | 0 <= j < |ts| :: ss[j] == UnitState(input, ts[j])
  {
    seq(|ts|, j requires 0 <= j < |ts| => UnitState(input, ts[j]))
  }

  lemma UnitStatesConcat(input: Input, xs: seq<State>, ys: seq<State>)
    requires InputOk(input)
    ensures UnitStates(input, xs + ys) == UnitStates(input, xs) + UnitStates(input, ys)
  {}

  lemma UnitStatesTail(input: Input, ts: seq<State>)
    requires InputOk(input) && ts != []
    ensures UnitStates(input, ts)[1..] == UnitStates(input, ts[1..])
  {}

  lemma UnitStateOk(input: Input, t: State)
    requires InputOk(input) && StateOk(CharacterList(input), t)
    ensures StateOk(input, UnitState(input, t))
  {
    var s := UnitState(input, t);
    forall k | 0 <= k < |s.captures| && s.captures[k].Some? ensures SpanOk(input, s.captures[k].value) {
      assert t.captures[k].Some?;
      UnitSpanOk(input, t.captures[k].value);
    }
  }

  lemma UnitMoved(input: Input, t: State, r: State, backward: bool)
    requires InputOk(input) && StateOk(CharacterList(input), t) && Moved(CharacterList(input), t, r, backward)
    ensures Moved(input, UnitState(input, t), UnitState(input, r), backward)
  {
    UnitStateOk(input, r);
    StartsOrdered(input, t.index, r.index);
  }

  lemma UnitAllMoved(input: Input, t: State, rs: seq<State>, backward: bool)
    requires InputOk(input) && StateOk(CharacterList(input), t) && AllMoved(CharacterList(input), t, rs, backward)
    ensures AllMoved(input, UnitState(input, t), UnitStates(input, rs), backward)
  {
    forall j | 0 <= j < |rs|
      ensures Moved(input, UnitState(input, t), UnitStates(input, rs)[j], backward)
    {
      UnitMoved(input, t, rs[j], backward);
    }
  }

  lemma UnitCleared(input: Input, t: State, node: Node)
    requires InputOk(input)
    ensures UnitState(input, Cleared(t, node)) == Cleared(UnitState(input, t), node)
  {
    assert UnitState(input, Cleared(t, node)).captures == Cleared(UnitState(input, t), node).captures;
  }

  lemma UnitClosed(input: Input, t: State, from: nat, k: nat, backward: bool)
    requires InputOk(input)
    ensures UnitState(input, Closed(t, from, k, backward))
      == Closed(UnitState(input, t), UnitIndex(input, from), k, backward)
  {
    assert UnitState(input, Closed(t, from, k, backward)).captures
      == Closed(UnitState(input, t), UnitIndex(input, from), k, backward).captures;
  }

  lemma UnitClosedEach(input: Input, ts: seq<State>, from: nat, k: nat, backward: bool)
    requires InputOk(input)
    ensures UnitStates(input, ClosedEach(ts, from, k, backward))
      == ClosedEach(UnitStates(input, ts), UnitIndex(input, from), k, backward)
  {
    forall j | 0 <= j < |ts|
      ensures UnitStates(input, ClosedEach(ts, from, k, backward))[j]
        == ClosedEach(UnitStates(input, ts), UnitIndex(input, from), k, backward)[j]
    {
      UnitClosed(input, ts[j], from, k, backward);
    }
  }

  // ----- Reading characters -----

  lemma UnitAdvance(input: Input, k: nat, backward: bool)
    requires InputOk(input) && input.unicode && k <= |CharactersOf(input)|
    ensures var here, read := Advance(input, UnitIndex(input, k), backward), Advance(CharacterList(input), k, backward);
      && (here.Some? <==> read.Some?)
      && (read.Some? ==> here.value.character == read.value.character && 0 <= read.value.next
                         && here.value.next == UnitIndex(input, read.value.next))
  {
    CharacterStarts(input, k);
    if backward && k > 0 {
      CharacterEnds(input, k);
      CharacterStarts(input, k - 1);
    }
  }

  lemma UnitEdge(input: Input, k: nat, atEnd: bool, multiline: bool)
    requires InputOk(input) && input.unicode && k <= |CharactersOf(input)|
    ensures AtEdge(input, UnitIndex(input, k), atEnd, multiline) == AtEdge(CharacterList(input), k, atEnd, multiline)
  {
    UnitAdvance(input, k, true);
    UnitAdvance(input, k, false);
    CharacterStarts(input, k);
    StartsOrdered(input, 0, k);
    if !atEnd && k > 0 {
      CharacterEnds(input, k);
    }
  }

  lemma UnitBoundary(input: Input, k: nat, word: CodePointSet)
    requires InputOk(input) && input.unicode && k <= |CharactersOf(input)|
    ensures AtBoundary(input, UnitIndex(input, k), word) == AtBoundary(CharacterList(input), k, word)
  {
    CharacterStarts(input, k);
    StartsOrdered(input, 0, k);
    if k > 0 {
      CharacterEnds(input, k);
      CharacterStarts(input, k - 1);
    }
  }

  // ----- References -----

  /** Whether some reference is read from the right: the innermost look-around around it looks behind. */
  predicate RefersBackward(node: Node, backward: bool) {
    match node
    case Backreference(_, _) => backward
    case Then(first, second) => RefersBackward(first, backward) || RefersBackward(second, backward)
    case Or(first, second) => RefersBackward(first, backward) || RefersBackward(second, backward)
    case Group(_, body) => RefersBackward(body, backward)
    case Repeat(body, _, _, _) => RefersBackward(body, backward)
    case Look(body, behind, _) => RefersBackward(body, behind)
    case _ => false
  }

  /** What makes references on code units those on characters. */
  ghost predicate Refers(node: Node, backward: bool, input: Input) {
    && InputOk(input) && input.unicode && FoldsCharacters(input.canonical)
    && (!RefersBackward(node, backward) || NoLoneTrail(input.text))
  }

  lemma UnitMatchCapture(input: Input, capture: Option<Span>, e: nat, backward: bool, ignoreCase: bool)
    requires InputOk(input) && input.unicode && FoldsCharacters(input.canonical)
    requires !backward || NoLoneTrail(input.text)
    requires e <= |CharactersOf(input)| && (capture.Some? ==> SpanOk(CharacterList(input), capture.value))
    ensures capture.Some? ==> SpanOk(input, UnitSpan(input, capture.value))
    ensures MatchCapture(input, UnitCapture(input, capture), UnitIndex(input, e), backward, ignoreCase)
      == UnitFound(input, MatchCapture(CharacterList(input), capture, e, backward, ignoreCase))
  {
    UnitReference(input, capture, e, backward, ignoreCase);
    ListReference(CharacterList(input), capture, e, backward, ignoreCase);
    if capture.Some? && backward {
      NothingIsSplit(input, capture.value, e, ignoreCase);
    }
  }

  lemma {:induction false} UnitMatchCaptures(input: Input, t: State, groups: seq<nat>, e: nat, backward: bool,
                                             ignoreCase: bool)
    requires InputOk(input) && input.unicode && FoldsCharacters(input.canonical)
    requires !backward || NoLoneTrail(input.text)
    requires StateOk(CharacterList(input), t) && e <= |CharactersOf(input)|
    requires StateOk(input, UnitState(input, t))
    ensures MatchCaptures(input, UnitState(input, t).captures, groups, UnitIndex(input, e), backward, ignoreCase)
      == UnitFound(input, MatchCaptures(CharacterList(input), t.captures, groups, e, backward, ignoreCase))
  {
    if groups != [] {
      var capture := Captured(t.captures, groups[0]);
      assert Captured(UnitState(input, t).captures, groups[0]) == UnitCapture(input, capture);
      UnitMatchCapture(input, capture, e, backward, ignoreCase);
      var first := MatchCapture(CharacterList(input), capture, e, backward, ignoreCase);
      if first.Some? {
        UnitMatchCaptures(input, t, groups[1..], first.value, backward, ignoreCase);
      }
    }
  }

  // ----- Results -----

  lemma UnitSimple(node: Node, backward: bool, input: Input, t: State)
    requires Refers(node, backward, input) && StateOk(CharacterList(input), t)
    requires IsSimple(node) && StateOk(input, UnitState(input, t))
    ensures Simple(node, backward, input, UnitState(input, t))
      == UnitStates(input, Simple(node, backward, CharacterList(input), t))
  {
    match node
    case Characters(_) => UnitAdvance(input, t.index, backward);
    case Edge(atEnd, multiline) => UnitEdge(input, t.index, atEnd, multiline);
    case Boundary(word, _) => UnitBoundary(input, t.index, word);
    case Backreference(groups, ignoreCase) =>
      UnitMatchCaptures(input, t, groups, t.index, backward, ignoreCase);
    case _ =>
  }

  /** A node's results on code units are its results on characters. */
  lemma {:induction false} UnitResults(node: Node, backward: bool, input: Input, t: State)
    requires Refers(node, backward, input) && StateOk(CharacterList(input), t)
    ensures StateOk(input, UnitState(input, t))
    ensures Results(node, backward, input, UnitState(input, t))
      == UnitStates(input, Results(node, backward, CharacterList(input), t))
    decreases node, 2, 0, 0, 0, 0
  {
    UnitStateOk(input, t);
    var chars := CharacterList(input);
    match node
    case Then(_, _) =>
      var ys := Results(Earlier(node, backward), backward, chars, t);
      UnitResults(Earlier(node, backward), backward, input, t);
      UnitResultsEach(Later(node, backward), backward, input, t, ys);
    case Or(first, second) =>
      UnitResults(first, backward, input, t);
      UnitResults(second, backward, input, t);
      UnitStatesConcat(input, Results(first, backward, chars, t), Results(second, backward, chars, t));
    case Group(k, body) =>
      UnitResults(body, backward, input, t);
      UnitClosedEach(input, Results(body, backward, chars, t), t.index, k, backward);
    case Repeat(_, minimum, maximum, _) => UnitRounds(node, minimum, maximum, backward, input, t);
    case Look(body, behind, negated) =>
      UnitResults(body, behind, input, t);
      UnitLook(node, backward, input, t);
    case _ => UnitSimple(node, backward, input, t);
  }

  lemma UnitLook(node: Node, backward: bool, input: Input, t: State)
    requires node.Look? && InputOk(input) && StateOk(CharacterList(input), t) && StateOk(input, UnitState(input, t))
    requires Results(node.body, node.behind, input, UnitState(input, t))
      == UnitStates(input, Results(node.body, node.behind, CharacterList(input), t))
    ensures Results(node, backward, input, UnitState(input, t))
      == UnitStates(input, Results(node, backward, CharacterList(input), t))
  {
    var ys := Results(node.body, node.behind, CharacterList(input), t);
    if ys != [] {
      assert UnitState(input, State(t.index, ys[0].captures)).captures == UnitState(input, ys[0]).captures;
    }
  }

  lemma {:induction false} UnitResultsEach(node: Node, backward: bool, input: Input, t: State, ys: seq<State>)
    requires Refers(node, backward, input) && StateOk(CharacterList(input), t)
    requires AllMoved(CharacterList(input), t, ys, backward)
    ensures AllMoved(input, UnitState(input, t), UnitStates(input, ys), backward)
    ensures ResultsEach(node, backward, input, UnitState(input, t), UnitStates(input, ys))
      == UnitStates(input, ResultsEach(node, backward, CharacterList(input), t, ys))
    decreases node, 3, 0, 0, 0, |ys|
  {
    UnitAllMoved(input, t, ys, backward);
    if ys != [] {
      UnitResults(node, backward, input, ys[0]);
      UnitResultsEach(node, backward, input, t, ys[1..]);
      UnitStatesTail(input, ys);
      UnitStatesConcat(input, Results(node, backward, CharacterList(input), ys[0]),
                       ResultsEach(node, backward, CharacterList(input), t, ys[1..]));
    }
  }

  lemma {:induction false} UnitRounds(node: Node, minimum: nat, maximum: Option<nat>, backward: bool, input: Input,
                                      t: State)
    requires node.Repeat? && Refers(node.body, backward, input) && StateOk(CharacterList(input), t)
    ensures StateOk(input, UnitState(input, t))
    ensures Rounds(node, minimum, maximum, backward, input, UnitState(input, t))
      == UnitStates(input, Rounds(node, minimum, maximum, backward, CharacterList(input), t))
    decreases node, 1, minimum, Room(CharacterList(input), t, backward), 1, 0
  {
    UnitStateOk(input, t);
    if maximum != Some(0) {
      var chars := CharacterList(input);
      var cleared := Cleared(t, node.body);
      ClearedIsOk(chars, t, node.body);
      UnitCleared(input, t, node.body);
      UnitResults(node.body, backward, input, cleared);
      var ys := Results(node.body, backward, chars, cleared);
      UnitRoundsEach(node, minimum, maximum, backward, input, t, ys);
      var more := RoundsEach(node, minimum, maximum, backward, chars, t, ys);
      UnitStatesConcat(input, more, [t]);
      UnitStatesConcat(input, [t], more);
      assert UnitStates(input, [t]) == [UnitState(input, t)];
    }
  }

  lemma {:induction false} UnitRoundsEach(node: Node, minimum: nat, maximum: Option<nat>, backward: bool,
                                          input: Input, t: State, ys: seq<State>)
    requires node.Repeat? && maximum != Some(0) && Refers(node.body, backward, input)
    requires StateOk(CharacterList(input), t) && AllMoved(CharacterList(input), t, ys, backward)
    ensures AllMoved(input, UnitState(input, t), UnitStates(input, ys), backward)
    ensures RoundsEach(node, minimum, maximum, backward, input, UnitState(input, t), UnitStates(input, ys))
      == UnitStates(input, RoundsEach(node, minimum, maximum, backward, CharacterList(input), t, ys))
    decreases node, 1, minimum, Room(CharacterList(input), t, backward), 0, |ys|
  {
    UnitAllMoved(input, t, ys, backward);
    if ys != [] {
      UnitStatesTail(input, ys);
      UnitRoundsEach(node, minimum, maximum, backward, input, t, ys[1..]);
      StartsOrdered(input, ys[0].index, t.index);
      if minimum > 0 || ys[0].index != t.index {
        UnitRounds(node, Before(minimum), OneFewer(maximum), backward, input, ys[0]);
        UnitStatesConcat(input, Rounds(node, Before(minimum), OneFewer(maximum), backward, CharacterList(input), ys[0]),
                         RoundsEach(node, minimum, maximum, backward, CharacterList(input), t, ys[1..]));
      }
    }
  }

  // ----- Whole patterns -----

  /** A caller can check this of a pattern and a text: both readings of them then are one. */
  ghost predicate ReadsAsEdition(body: Node, input: Input) {
    input.unicode ==> FoldsCharacters(input.canonical) && (!RefersBackward(body, false) || NoLoneTrail(input.text))
  }

  function UnitMatch(input: Input, found: Option<State>): Option<State>
    requires InputOk(input)
  {
    if found == None then None else Some(UnitState(input, found.value))
  }

  lemma UnitsAreList(input: Input)
    requires !input.unicode
    ensures CharacterList(input) == input
    ensures forall k: nat | k <= |input.text| :: UnitIndex(input, k) == k
  {
    UnitsAreCharacters(input, 0);
    forall k: nat | k <= |input.text| ensures UnitIndex(input, k) == k {
      assert UnitIndexFrom(input, 0, k) == 0 + k;
    }
  }

  lemma SameStateInUnits(input: Input, t: State)
    requires !input.unicode && StateOk(input, t)
    ensures UnitState(input, t) == t
  {
    UnitsAreList(input);
    forall k | 0 <= k < |t.captures| ensures UnitState(input, t).captures[k] == t.captures[k] {
      if t.captures[k].Some? {
        assert SpanOk(input, t.captures[k].value);
      }
    }
  }

  lemma MatchIsOk(body: Node, input: Input, i: nat)
    requires InputOk(input) && i <= |input.text|
    ensures MatchAt(body, input, i).Some? ==> StateOk(input, MatchAt(body, input, i).value)
  {
    MatchIsFirstResult(body, input, i);
  }

  /** From the start of a character a pattern matches what the edition says it matches there. */
  lemma MatchesAsEdition(body: Node, input: Input, k: nat)
    requires InputOk(input) && ReadsAsEdition(body, input) && k <= |CharactersOf(input)|
    ensures MatchAt(body, input, UnitIndex(input, k)) == UnitMatch(input, MatchAt(body, CharacterList(input), k))
  {
    if input.unicode {
      UnitResults(Whole(body), false, input, StartState(body, k));
      assert UnitState(input, StartState(body, k)).captures == StartState(body, UnitIndex(input, k)).captures;
      MatchIsFirstResult(body, input, UnitIndex(input, k));
      MatchIsFirstResult(body, CharacterList(input), k);
    } else {
      UnitsAreList(input);
      MatchIsOk(body, input, k);
      if MatchAt(body, input, k).Some? {
        SameStateInUnits(input, MatchAt(body, input, k).value);
      }
    }
  }

  /** The first match from a character on is the edition's. */
  ghost predicate FoundAsEdition(body: Node, input: Input, k: nat, sticky: bool)
    requires InputOk(input) && k <= |CharactersOf(input)|
  {
    FirstMatch(body, input, UnitIndex(input, k), sticky)
    == UnitMatch(input, FirstMatch(body, CharacterList(input), k, sticky))
  }

  lemma {:induction false} SearchesAsEdition(body: Node, input: Input, k: nat, sticky: bool)
    requires InputOk(input) && ReadsAsEdition(body, input) && k <= |CharactersOf(input)|
    ensures FoundAsEdition(body, input, k, sticky)
    decreases |CharactersOf(input)| - k
  {
    MatchesAsEdition(body, input, k);
    if k < |CharactersOf(input)| {
      SearchesAsEdition(body, input, k + 1, sticky);
    }
    UnitTurn(body, input, k, sticky);
  }

  /** On code units a search goes on at the next character. */
  lemma UnitSearch(body: Node, input: Input, k: nat, sticky: bool, here: Option<State>)
    requires InputOk(input) && k <= |CharactersOf(input)| && here == MatchAt(body, input, UnitIndex(input, k))
    ensures FirstMatch(body, input, UnitIndex(input, k), sticky) ==
      if here.Some? || sticky || k == |CharactersOf(input)| then here
      else FirstMatch(body, input, UnitIndex(input, k + 1), sticky)
  {
    CharacterStarts(input, k);
    SearchUnfolds(body, input, UnitIndex(input, k), sticky, here);
  }

  lemma ListSearch(body: Node, list: Input, k: nat, sticky: bool, here: Option<State>)
    requires !list.unicode && k <= |list.text| && here == MatchAt(body, list, k)
    ensures FirstMatch(body, list, k, sticky) ==
      if here.Some? || sticky || k == |list.text| then here else FirstMatch(body, list, k + 1, sticky)
  {
    SearchUnfolds(body, list, k, sticky, here);
  }

  lemma UnitTurn(body: Node, input: Input, k: nat, sticky: bool)
    requires InputOk(input) && k <= |CharactersOf(input)|
    requires MatchAt(body, input, UnitIndex(input, k)) == UnitMatch(input, MatchAt(body, CharacterList(input), k))
    requires k < |CharactersOf(input)| ==> FoundAsEdition(body, input, k + 1, sticky)
    ensures FoundAsEdition(body, input, k, sticky)
  {
    UnitSearch(body, input, k, sticky, MatchAt(body, input, UnitIndex(input, k)));
    ListSearch(body, CharacterList(input), k, sticky, MatchAt(body, CharacterList(input), k));
  }

  /** An execution that was not cut short reports what was found, with spans in code units. */
  ghost predicate ReportsMatch(input: Input, found: Option<State>, r: Execution)
    requires InputOk(input)
  {
    match r
    case Matched(captures, _) => found.Some? && captures == UnitState(input, found.value).captures
    case NotMatched(_) => found == None
    case Limited(_, _) => true
  }

  /** An attempt answers what the edition matches at the character that the start position names. */
  lemma AttemptIsEditions(body: Node, m: Machine, registers: nat, at: nat, limits: Limits, r: Execution)
    requires InputOk(m.input) && ReadsAsEdition(body, m.input)
    requires at <= |m.input.text| && AlignedStart(m.input, at) == at
    requires Answers(body, m, registers, at, limits, r) || MatchAnswers(body, m, registers, at, limits, r)
    ensures ReportsMatch(m.input, MatchAt(body, CharacterList(m.input), CharacterIndex(m.input, at)), r)
  {
    MatchesAsEdition(body, m.input, CharacterIndex(m.input, at));
  }

  /** A search answers the edition's first match from the character that the start position names. */
  lemma SearchIsEditions(body: Node, m: Machine, registers: nat, at: nat, sticky: bool, limits: Limits, r: Execution)
    requires InputOk(m.input) && ReadsAsEdition(body, m.input)
    requires at <= |m.input.text| && AlignedStart(m.input, at) == at
    requires SearchAnswers(body, m, registers, at, sticky, limits, r)
    ensures ReportsMatch(m.input, FirstMatch(body, CharacterList(m.input), CharacterIndex(m.input, at), sticky), r)
  {
    SearchesAsEdition(body, m.input, CharacterIndex(m.input, at), sticky);
  }

  // ----- Where they differ -----

  /** `(?<=\1([...]))$`, and the part of it that looks behind. */
  function BehindBody(members: CodePointSet): Node {
    Then(Look(BehindPart(members), true, false), Edge(true, false))
  }

  function BehindPart(members: CodePointSet): Node {
    Then(Backreference([1], false), Group(1, Characters(members)))
  }

  /** `\udc00`. */
  function Trail(): CodePointSet {
    [0xDC00, 0xDC01]
  }

  /** A surrogate pair and a lone trail surrogate, under `u`. */
  function PairAndTrail(): Input {
    Input([0xD800, 0xDC00, 0xDC00], true, x => x)
  }

  lemma TwoCharacters()
    ensures CharactersOf(PairAndTrail()) == [0x10000, 0xDC00]
    ensures InputOk(PairAndTrail()) && UnitIndex(PairAndTrail(), 2) == 3
  {
    var input := PairAndTrail();
    assert CharactersFrom(input, 3) == [];
    assert CharactersFrom(input, 2) == [0xDC00];
    assert UnitIndexFrom(input, 2, 1) == 3;
    assert UnitIndexFrom(input, 0, 2) == UnitIndexFrom(input, 2, 1);
  }

  lemma TrailIsMember()
    ensures WellFormed(Trail()) && Holds(Trail(), 0xDC00)
  {
    assert [0xDC00, 0xDC01][..1] == [0xDC00];
    assert [0xDC00][..0] == [];
    assert Reached([0xDC00], 0xDC00) == 1;
  }

  lemma GroupBehind(members: CodePointSet, input: Input, i: nat)
    requires Holds(members, 0xDC00)
    requires InputOk(input) && 0 < i <= |input.text| && WidthBefore(input, i) == 1
    requires CharacterAt(input, i - 1) == 0xDC00
    ensures Results(BehindPart(members).second, true, input, State(i, [None, None]))
      == [State(i - 1, [None, Some(Span(i - 1, i))])]
  {
    var s := State(i, [None, None]);
    assert Results(Characters(members), true, input, s) == [State(i - 1, [None, None])];
    assert Closed(State(i - 1, [None, None]), i, 1, true).captures == [None, Some(Span(i - 1, i))];
  }

  lemma PartBehind(members: CodePointSet, input: Input, i: nat)
    requires Holds(members, 0xDC00)
    requires InputOk(input) && 0 < i <= |input.text| && WidthBefore(input, i) == 1
    requires CharacterAt(input, i - 1) == 0xDC00
    ensures Results(BehindPart(members), true, input, State(i, [None, None]))
      == if i > 1 && CharacterAt(input, i - 2) == 0xDC00 then [State(i - 2, [None, Some(Span(i - 1, i))])] else []
  {
    var y := State(i - 1, [None, Some(Span(i - 1, i))]);
    GroupBehind(members, input, i);
    var reference := BehindPart(members).first;
    var c := Captured(y.captures, 1);
    assert c == Some(Span(i - 1, i));
    if i > 1 {
      assert Repeats(input, i, i, i - 1, false);
      assert Repeats(input, i - 1, i, i - 2, false) <==> CharacterAt(input, i - 2) == 0xDC00;
    }
    assert [1][1..] == [];
    var found := MatchCapture(input, c, i - 1, true, false);
    assert MatchCaptures(input, y.captures, [1], i - 1, true, false) == found;
    assert Results(reference, true, input, y) == if found == None then [] else [y.(index := found.value)];
    assert [y][1..] == [];
    assert ResultsEach(reference, true, input, State(i, [None, None]), [y]) == Results(reference, true, input, y) + [];
  }

  lemma BodyAtEnd(members: CodePointSet, input: Input, s: State, y: State)
    requires InputOk(input) && |input.text| > 0 && s == State(|input.text|, [None, None]) && StateOk(input, y)
    requires y.index <= |input.text| && |y.captures| == 2
    ensures Results(BehindPart(members), true, input, s) == [] ==> Results(BehindBody(members), false, input, s) == []
    ensures Results(BehindPart(members), true, input, s) == [y] ==>
      Results(BehindBody(members), false, input, s) == [State(|input.text|, y.captures)]
  {
    var look, edge := BehindBody(members).first, BehindBody(members).second;
    var r := State(|input.text|, y.captures);
    assert Results(edge, false, input, r) == [r];
    assert [r][1..] == [];
    assert ResultsEach(edge, false, input, s, []) == [];
    if Results(BehindPart(members), true, input, s) == [y] {
      assert Results(look, false, input, s) == [r];
      assert ResultsEach(edge, false, input, s, [r]) == [r] + ResultsEach(edge, false, input, s, [r][1..]);
    }
  }

  lemma PartIsOk(members: CodePointSet)
    requires WellFormed(members)
    ensures var part := BehindPart(members);
      Count(part) == 1 && WellBuilt(part, 2) && Numbered(part, 1) && RefersBackward(part, true)
  {
    var group := Group(1, Characters(members));
    assert Count(group) == 1 && WellBuilt(group, 2) && Numbered(group, 1);
  }

  lemma LooksBehind(part: Node)
    requires Count(part) == 1 && WellBuilt(part, 2) && Numbered(part, 1) && RefersBackward(part, true)
    ensures var body := Then(Look(part, true, false), Edge(true, false));
      GroupCount(body) == 2 && PatternOk(body) && RefersBackward(body, false)
  {
    var look := Look(part, true, false);
    assert Count(look) == 1 && WellBuilt(look, 2) && Numbered(look, 1) && RefersBackward(look, false);
    var body := Then(look, Edge(true, false));
    assert Count(body) == 1 && WellBuilt(body, 2) && Numbered(body, 1);
  }

  lemma GroupsOfBehind(members: CodePointSet)
    requires WellFormed(members)
    ensures GroupCount(BehindBody(members)) == 2 && PatternOk(BehindBody(members))
    ensures RefersBackward(BehindBody(members), false)
  {
    PartIsOk(members);
    LooksBehind(BehindPart(members));
  }

  /** At the end of a text the pattern matches if the last two characters are alike, and are this trail surrogate. */
  lemma BehindAtEnd(members: CodePointSet, input: Input)
    requires WellFormed(members) && Holds(members, 0xDC00)
    requires InputOk(input) && |input.text| > 0 && WidthBefore(input, |input.text|) == 1
    requires CharacterAt(input, |input.text| - 1) == 0xDC00
    ensures var end := |input.text|;
      MatchAt(BehindBody(members), input, end) ==
      if end > 1 && CharacterAt(input, end - 2) == 0xDC00
      then Some(State(end, [Some(Span(end, end)), Some(Span(end - 1, end))]))
      else None
  {
    var end := |input.text|;
    var s := State(end, [None, None]);
    var y := State(if end > 1 then end - 2 else 0, [None, Some(Span(end - 1, end))]);
    PartBehind(members, input, end);
    BodyAtEnd(members, input, s, y);
    ClosedAtEnd(members, input, s, State(end, y.captures));
    FirstAtEnd(members, input, end);
  }

  lemma FirstAtEnd(members: CodePointSet, input: Input, i: nat)
    requires WellFormed(members)
    requires InputOk(input) && i <= |input.text|
    ensures var rs := Results(Whole(BehindBody(members)), false, input, State(i, [None, None]));
      MatchAt(BehindBody(members), input, i) == if rs == [] then None else Some(rs[0])
  {
    GroupsOfBehind(members);
    assert StartState(BehindBody(members), i) == State(i, [None, None]);
    MatchIsFirstResult(BehindBody(members), input, i);
  }

  lemma ClosedAtEnd(members: CodePointSet, input: Input, s: State, y: State)
    requires InputOk(input) && StateOk(input, s) && s.index == y.index && |y.captures| == 2
    ensures Results(BehindBody(members), false, input, s) == [] ==>
      Results(Whole(BehindBody(members)), false, input, s) == []
    ensures Results(BehindBody(members), false, input, s) == [y] ==>
      Results(Whole(BehindBody(members)), false, input, s)
      == [State(y.index, [Some(Span(y.index, y.index)), y.captures[1]])]
  {
    assert Closed(y, y.index, 0, false).captures == [Some(Span(y.index, y.index)), y.captures[1]];
  }

  /** The executor matches where the edition finds nothing: a reference ends up between the halves of a pair. */
  lemma ReferenceSplitsPair()
    ensures InputOk(PairAndTrail()) && PatternOk(BehindBody(Trail()))
    ensures MatchAt(BehindBody(Trail()), PairAndTrail(), 3) == Some(State(3, [Some(Span(3, 3)), Some(Span(2, 3))]))
    ensures |CharactersOf(PairAndTrail())| == 2 && UnitIndex(PairAndTrail(), 2) == 3
    ensures MatchAt(BehindBody(Trail()), CharacterList(PairAndTrail()), 2) == None
  {
    TwoCharacters();
    TrailIsMember();
    SplitsPairIn(Trail(), PairAndTrail());
  }

  lemma SplitsPairIn(members: CodePointSet, units: Input)
    requires WellFormed(members) && Holds(members, 0xDC00)
    requires InputOk(units) && units.unicode && units.text == [0xD800, 0xDC00, 0xDC00]
    requires CharactersOf(units) == [0x10000, 0xDC00]
    ensures PatternOk(BehindBody(members))
    ensures MatchAt(BehindBody(members), units, 3) == Some(State(3, [Some(Span(3, 3)), Some(Span(2, 3))]))
    ensures MatchAt(BehindBody(members), CharacterList(units), 2) == None
  {
    GroupsOfBehind(members);
    var chars := CharacterList(units);
    assert WidthBefore(units, 3) == 1 && CharacterAt(units, 2) == 0xDC00 && CharacterAt(units, 1) == 0xDC00;
    assert WidthBefore(chars, 2) == 1 && CharacterAt(chars, 1) == 0xDC00 && CharacterAt(chars, 0) == 0x10000;
    BehindAtEnd(members, units);
    BehindAtEnd(members, chars);
  }
}
