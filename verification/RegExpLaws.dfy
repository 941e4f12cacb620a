/**
 What the parts of a pattern match, on a list of characters and without reference to how
 matching is defined: characters, assertions, literal texts, repetitions, and alternatives.
 */
module RegExpLaws {
  import opened Basics
  import opened CodePointSets
  import opened RegExpSyntax
  import opened RegExpSemantics
  import opened RegExpProgram
  import opened RegExpMatching

  /** A list of characters, as the edition's matchers see a text. */
  ghost predicate IsList(list: Input) {
    !list.unicode
  }

  // ----- Characters and assertions -----

  /** A set matches the next character in the direction of reading. */
  lemma CharactersMatch(members: CodePointSet, backward: bool, list: Input, s: State)
    requires IsList(list) && StateOk(list, s)
    ensures Results(Characters(members), backward, list, s) ==
      if backward then
        if s.index > 0 && Holds(members, list.text[s.index - 1]) then [State(s.index - 1, s.captures)] else []
      else
        if s.index < |list.text| && Holds(members, list.text[s.index]) then [State(s.index + 1, s.captures)] else []
  {}

  const LINE_ENDS: set<int> := {0x0A, 0x0D, 0x2028, 0x2029}

  /** `^` and `$` match at the ends of the text, and with `m` also next to a line terminator. */
  lemma EdgeMatches(atEnd: bool, multiline: bool, backward: bool, list: Input, s: State)
    requires IsList(list) && StateOk(list, s)
    ensures var i, text := s.index, list.text;
      Results(Edge(atEnd, multiline), backward, list, s) ==
      if atEnd then (if i == |text| || (multiline && text[i] in LINE_ENDS) then [s] else [])
      else if i == 0 || (multiline && text[i - 1] in LINE_ENDS) then [s] else []
  {}

  /** Whether there is a word character on either side of a position. */
  ghost predicate WordBefore(word: CodePointSet, list: Input, i: nat)
    requires i <= |list.text|
  {
    i > 0 && Holds(word, list.text[i - 1])
  }

  ghost predicate WordBehind(word: CodePointSet, list: Input, i: nat)
    requires i <= |list.text|
  {
    i < |list.text| && Holds(word, list.text[i])
  }

  /** `\b` matches between a word character and another one or an end of the text; `\B` everywhere else. */
  lemma BoundaryMatches(word: CodePointSet, negated: bool, backward: bool, list: Input, s: State)
    requires IsList(list) && StateOk(list, s)
    ensures var apart := WordBefore(word, list, s.index) <==> !WordBehind(word, list, s.index);
      Results(Boundary(word, negated), backward, list, s) == if apart <==> !negated then [s] else []
  {}

  /** Looking at one character moves nothing, and sees the one on its side. */
  lemma LookMatches(members: CodePointSet, behind: bool, negated: bool, backward: bool, list: Input, s: State)
    requires IsList(list) && StateOk(list, s)
    ensures var seen := if behind then WordBefore(members, list, s.index) else WordBehind(members, list, s.index);
      Results(Look(Characters(members), behind, negated), backward, list, s) == if seen <==> !negated then [s] else []
  {
    CharactersMatch(members, behind, list, s);
  }

  // ----- Alternatives -----

  lemma WholeMatch(body: Node, input: Input, i: nat, s: State)
    requires InputOk(input) && i <= |input.text| && s == StartState(body, i)
    ensures var rs := Results(body, false, input, s);
      MatchAt(body, input, i) == if rs == [] then None else Some(Closed(rs[0], i, 0, false))
  {
    MatchIsFirstResult(body, input, i);
  }

  lemma SameStart(first: Node, second: Node, i: nat)
    requires Count(first) == 0 && Count(second) == 0
    ensures StartState(first, i) == StartState(second, i) == StartState(Or(first, second), i)
  {
    assert Count(Or(first, second)) == 0;
  }

  /** The first alternative is preferred; the second is tried only where the first does not match. */
  lemma FirstAlternativeWins(first: Node, second: Node, input: Input, i: nat)
    requires InputOk(input) && i <= |input.text| && Count(first) == 0 && Count(second) == 0
    ensures MatchAt(Or(first, second), input, i)
      == if MatchAt(first, input, i).Some? then MatchAt(first, input, i) else MatchAt(second, input, i)
  {
    var s := StartState(first, i);
    SameStart(first, second, i);
    WholeMatch(first, input, i, s);
    WholeMatch(second, input, i, s);
    WholeMatch(Or(first, second), input, i, s);
  }

  // ----- Literal texts -----

  /** The set of one character. */
  function Just(c: int): CodePointSet {
    [c, c + 1]
  }

  lemma JustHolds(c: int, x: int)
    ensures Holds(Just(c), x) <==> x == c
  {
    assert Just(c)[..1] == [c];
    assert [c][..0] == [];
    assert Reached([c], x) == if c <= x then 1 else 0;
  }

  /** A text, character by character. */
  function Literal(cs: seq<int>): Node {
    if cs == [] then Empty else Then(Characters(Just(cs[0])), Literal(cs[1..]))
  }

  lemma OneState(node: Node, backward: bool, list: Input, s: State, y: State)
    requires IsList(list) && Moved(list, s, y, backward)
    ensures AllMoved(list, s, [y], backward)
    ensures ResultsEach(node, backward, list, s, [y]) == Results(node, backward, list, y)
  {
    assert [y][1..] == [];
    assert ResultsEach(node, backward, list, s, []) == [];
  }

  lemma {:induction false} LiteralIsPlain(cs: seq<int>, k: nat)
    ensures Count(Literal(cs)) == 0 && !Encloses(Literal(cs), k)
  {
    if cs != [] {
      LiteralIsPlain(cs[1..], k);
    }
  }

  /** A literal matches exactly its text, whichever way it is read. */
  lemma {:induction false} LiteralMatches(cs: seq<int>, list: Input, s: State)
    requires IsList(list) && StateOk(list, s)
    ensures var i, n := s.index, |cs|;
      Results(Literal(cs), false, list, s) ==
      if i + n <= |list.text| && list.text[i..i + n] == cs then [State(i + n, s.captures)] else []
    decreases |cs|
  {
    if cs != [] {
      var i, c, rest := s.index, cs[0], cs[1..];
      CharactersMatch(Just(c), false, list, s);
      if i < |list.text| {
        JustHolds(c, list.text[i]);
        if list.text[i] == c {
          var y := State(i + 1, s.captures);
          OneState(Literal(rest), false, list, s, y);
          LiteralMatches(rest, list, y);
          FirstThenRest(list.text, i, cs);
        }
      }
    }
  }

  lemma FirstThenRest(text: seq<int>, i: nat, cs: seq<int>)
    requires cs != [] && i < |text| && text[i] == cs[0]
    ensures i + |cs| <= |text| && text[i..i + |cs|] == cs <==>
      i + |cs| <= |text| && text[i + 1..i + |cs|] == cs[1..]
  {
    if i + |cs| <= |text| {
      assert text[i..i + |cs|] == [text[i]] + text[i + 1..i + |cs|];
      assert cs == [cs[0]] + cs[1..];
    }
  }

  lemma OneBackward(c: int, list: Input, s: State)
    requires IsList(list) && StateOk(list, s)
    ensures Results(Characters(Just(c)), true, list, s) ==
      if s.index > 0 && list.text[s.index - 1] == c then [State(s.index - 1, s.captures)] else []
  {
    CharactersMatch(Just(c), true, list, s);
    if s.index > 0 {
      JustHolds(c, list.text[s.index - 1]);
    }
  }

  /** The rest of a text, and its first character before that. */
  lemma BackwardUnfolds(node: Node, rest: Node, list: Input, s: State, ys: seq<State>)
    requires IsList(list) && StateOk(list, s) && ys == Results(rest, true, list, s) && |ys| <= 1
    ensures Results(Then(node, rest), true, list, s) == if ys == [] then [] else Results(node, true, list, ys[0])
  {
    if ys != [] {
      assert ys == [ys[0]];
      OneState(node, true, list, s, ys[0]);
    }
  }

  /** The text before a position, with its first character apart. */
  lemma TextBefore(text: seq<int>, i: nat, cs: seq<int>)
    requires i <= |text| && cs != []
    ensures var n := |cs| - 1;
      (|cs| <= i && text[i - |cs|..i] == cs) <==> (n < i && text[i - n..i] == cs[1..] && text[i - n - 1] == cs[0])
  {
    if |cs| <= i {
      assert text[i - |cs|..i] == [text[i - |cs|]] + text[i - |cs| + 1..i];
      assert cs == [cs[0]] + cs[1..];
    }
  }

  lemma {:induction false} LiteralMatchesBackward(cs: seq<int>, list: Input, s: State)
    requires IsList(list) && StateOk(list, s)
    ensures var i, n := s.index, |cs|;
      Results(Literal(cs), true, list, s) ==
      if n <= i && list.text[i - n..i] == cs then [State(i - n, s.captures)] else []
    decreases |cs|
  {
    if cs != [] {
      var i, n := s.index, |cs| - 1;
      LiteralMatchesBackward(cs[1..], list, s);
      BackwardUnfolds(Characters(Just(cs[0])), Literal(cs[1..]), list, s, Results(Literal(cs[1..]), true, list, s));
      TextBefore(list.text, i, cs);
      if n <= i {
        OneBackward(cs[0], list, State(i - n, s.captures));
      }
    }
  }

  // ----- Repetitions -----

  /** How many members follow each other from a position on. */
  ghost function Run(members: CodePointSet, list: Input, i: nat): (n: nat)
    requires i <= |list.text|
    ensures i + n <= |list.text|
    decreases |list.text| - i
  {
    if i < |list.text| && Holds(members, list.text[i]) then 1 + Run(members, list, i + 1) else 0
  }

  /** From the position `from` characters on to the one `to` characters on, in the order of preference. */
  function Stops(s: State, from: nat, to: nat, greedy: bool): seq<State>
    requires from <= to
  {
    seq(to - from + 1, k requires 0 <= k <= to - from =>
      State(s.index + if greedy then to - k else from + k, s.captures))
  }

  function AtMost(n: nat, maximum: Option<nat>): nat {
    if maximum.Some? && maximum.value < n then maximum.value else n
  }

  lemma SetStaysCaptured(s: State, members: CodePointSet)
    ensures Cleared(s, Characters(members)) == s
  {
    assert Cleared(s, Characters(members)).captures == s.captures;
  }

  /** A repetition of a set, with so many rounds still required and allowed. */
  ghost function SetRounds(node: Node, minimum: nat, maximum: Option<nat>, list: Input, s: State): seq<State>
    requires node.Repeat? && node.body.Characters? && IsList(list) && StateOk(list, s)
  {
    Rounds(node, minimum, maximum, false, list, s)
  }

  lemma OneRoundOn(node: Node, minimum: nat, maximum: Option<nat>, list: Input, s: State)
    requires node.Repeat? && node.body.Characters? && IsList(list) && StateOk(list, s) && maximum != Some(0)
    ensures var ys := Results(node.body, false, list, s);
      && (Run(node.body.members, list, s.index) == 0 ==>
            RoundsEach(node, minimum, maximum, false, list, s, ys) == [])
      && (Run(node.body.members, list, s.index) > 0 ==>
            && StateOk(list, State(s.index + 1, s.captures))
            && RoundsEach(node, minimum, maximum, false, list, s, ys)
               == SetRounds(node, Before(minimum), OneFewer(maximum), list, State(s.index + 1, s.captures)))
  {
    var ys := Results(node.body, false, list, s);
    CharactersMatch(node.body.members, false, list, s);
    if ys != [] {
      assert ys[1..] == [];
      assert RoundsEach(node, minimum, maximum, false, list, s, ys[1..]) == [];
    }
  }

  lemma RoundsUnfold(node: Node, minimum: nat, maximum: Option<nat>, list: Input, s: State)
    requires node.Repeat? && node.body.Characters? && IsList(list) && StateOk(list, s) && maximum != Some(0)
    ensures var more := RoundsEach(node, minimum, maximum, false, list, s, Results(node.body, false, list, s));
      SetRounds(node, minimum, maximum, list, s)
      == if minimum > 0 then more else if node.greedy then more + [s] else [s] + more
  {
    SetStaysCaptured(s, node.body.members);
  }

  lemma StopsGrow(s: State, minimum: nat, to: nat, greedy: bool)
    requires 0 < to && minimum <= to
    ensures var y := State(s.index + 1, s.captures);
      Stops(s, minimum, to, greedy) ==
      if minimum > 0 then Stops(y, minimum - 1, to - 1, greedy)
      else if greedy then Stops(y, 0, to - 1, greedy) + [s] else [s] + Stops(y, 0, to - 1, greedy)
  {}

  /** Where a repetition of a set may stop: nowhere, or from the least to the most it can take. */
  ghost function MayStop(node: Node, minimum: nat, maximum: Option<nat>, list: Input, s: State): seq<State>
    requires node.Repeat? && node.body.Characters? && s.index <= |list.text|
  {
    var most := AtMost(Run(node.body.members, list, s.index), maximum);
    if most < minimum then [] else Stops(s, minimum, most, node.greedy)
  }

  lemma StopsHere(node: Node, minimum: nat, maximum: Option<nat>, list: Input, s: State)
    requires node.Repeat? && node.body.Characters? && s.index <= |list.text|
    requires maximum == Some(0) || Run(node.body.members, list, s.index) == 0
    ensures MayStop(node, minimum, maximum, list, s) == if minimum > 0 then [] else [s]
  {
    assert Stops(s, 0, 0, node.greedy) == [s];
  }

  lemma StopsFurther(node: Node, minimum: nat, maximum: Option<nat>, list: Input, s: State, y: State)
    requires node.Repeat? && node.body.Characters? && s.index <= |list.text| && maximum != Some(0)
    requires Run(node.body.members, list, s.index) > 0 && y == State(s.index + 1, s.captures)
    ensures var more := MayStop(node, Before(minimum), OneFewer(maximum), list, y);
      MayStop(node, minimum, maximum, list, s)
      == if minimum > 0 then more else if node.greedy then more + [s] else [s] + more
  {
    var run := Run(node.body.members, list, s.index);
    var most := AtMost(run, maximum);
    assert AtMost(run - 1, OneFewer(maximum)) == most - 1;
    if minimum <= most {
      StopsGrow(s, minimum, most, node.greedy);
    }
  }

  lemma {:induction false} RoundsStop(node: Node, minimum: nat, maximum: Option<nat>, list: Input, s: State)
    requires node.Repeat? && node.body.Characters? && IsList(list) && StateOk(list, s)
    requires maximum.Some? ==> minimum <= maximum.value
    ensures SetRounds(node, minimum, maximum, list, s) == MayStop(node, minimum, maximum, list, s)
    decreases |list.text| - s.index
  {
    if maximum == Some(0) {
      StopsHere(node, minimum, maximum, list, s);
    } else {
      RoundsUnfold(node, minimum, maximum, list, s);
      OneRoundOn(node, minimum, maximum, list, s);
      if Run(node.body.members, list, s.index) > 0 {
        var y := State(s.index + 1, s.captures);
        RoundsStop(node, Before(minimum), OneFewer(maximum), list, y);
        StopsFurther(node, minimum, maximum, list, s, y);
      } else {
        StopsHere(node, minimum, maximum, list, s);
      }
    }
  }

  /** `set{min,max}` stops after any number of members in its bounds, the most first unless it is lazy. */
  lemma RepetitionMatches(members: CodePointSet, minimum: nat, maximum: Option<nat>, greedy: bool, list: Input,
                          s: State)
    requires IsList(list) && StateOk(list, s) && (maximum.Some? ==> minimum <= maximum.value)
    ensures var most := AtMost(Run(members, list, s.index), maximum);
      Results(Repeat(Characters(members), minimum, maximum, greedy), false, list, s)
      == if most < minimum then [] else Stops(s, minimum, most, greedy)
  {
    RoundsStop(Repeat(Characters(members), minimum, maximum, greedy), minimum, maximum, list, s);
  }

  // ----- Groups -----

  /** A group captures what its body reads, in either direction. */
  lemma GroupCaptures(k: nat, cs: seq<int>, backward: bool, list: Input, s: State)
    requires IsList(list) && StateOk(list, s) && k < |s.captures|
    ensures var i, n, text := s.index, |cs|, list.text;
      Results(Group(k, Literal(cs)), backward, list, s) ==
      if backward then
        if n <= i && text[i - n..i] == cs then [State(i - n, s.captures[k := Some(Span(i - n, i))])] else []
      else
        if i + n <= |text| && text[i..i + n] == cs then [State(i + n, s.captures[k := Some(Span(i, i + n))])] else []
  {
    if backward {
      LiteralMatchesBackward(cs, list, s);
    } else {
      LiteralMatches(cs, list, s);
    }
  }

  /** What `(?:x)*` prefers to do at a state. */
  ghost function AllRounds(node: Node, list: Input, s: State): (rs: seq<State>)
    requires node.Repeat? && IsList(list) && StateOk(list, s)
  {
    Rounds(node, 0, None, false, list, s)
  }

  /** The first way of going round from a state leads further, or there is none. */
  lemma FirstOfRounds(node: Node, list: Input, s: State, ys: seq<State>)
    requires node.Repeat? && node.greedy && IsList(list) && StateOk(list, s)
    requires ys == Results(node.body, false, list, Cleared(s, node.body))
    requires ys == [] || (ys[0].index != s.index && StateOk(list, ys[0]))
    ensures AllRounds(node, list, s) != []
    ensures ys == [] ==> AllRounds(node, list, s) == [s]
    ensures ys != [] ==>
      AllRounds(node, list, ys[0]) != [] && AllRounds(node, list, s)[0] == AllRounds(node, list, ys[0])[0]
  {
    ClearedIsOk(list, s, node.body);
    var more := RoundsEach(node, 0, None, false, list, s, ys);
    assert AllRounds(node, list, s) == more + [s];
    if ys != [] {
      assert more == AllRounds(node, list, ys[0]) + RoundsEach(node, 0, None, false, list, s, ys[1..]);
      NeverEmpty(node, list, ys[0]);
    }
  }

  lemma NeverEmpty(node: Node, list: Input, s: State)
    requires node.Repeat? && IsList(list) && StateOk(list, s)
    ensures AllRounds(node, list, s) != []
  {
    ClearedIsOk(list, s, node.body);
  }

  lemma ChoiceAt(a: int, b: int, list: Input, s: State)
    requires a != b && IsList(list) && StateOk(list, s) && s.captures == [None, None]
    ensures Results(Or(Group(1, Literal([a])), Literal([b])), false, list, s) ==
      if s.index < |list.text| && list.text[s.index] == a then
        [State(s.index + 1, [None, Some(Span(s.index, s.index + 1))])]
      else if s.index < |list.text| && list.text[s.index] == b then [State(s.index + 1, [None, None])]
      else []
  {
    var i := s.index;
    GroupCaptures(1, [a], false, list, s);
    LiteralMatches([b], list, s);
    if i < |list.text| {
      assert list.text[i..i + 1] == [list.text[i]];
      assert s.captures[1 := Some(Span(i, i + 1))] == [None, Some(Span(i, i + 1))];
    }
  }

  /** `(?:(a)|b)*`. */
  function Choices(a: int, b: int): Node {
    Repeat(Or(Group(1, Literal([a])), Literal([b])), 0, None, true)
  }

  lemma ChoicesForget(a: int, b: int, s: State)
    requires |s.captures| == 2
    ensures Cleared(s, Choices(a, b).body) == State(s.index, [s.captures[0], None])
  {
    LiteralIsPlain([a], 0);
    LiteralIsPlain([b], 0);
    assert Encloses(Group(1, Literal([a])), 1) && !Encloses(Group(1, Literal([a])), 0);
    assert Cleared(s, Choices(a, b).body).captures == [s.captures[0], None];
  }

  lemma ChoicesPrefer(a: int, b: int, list: Input)
    requires a != b && IsList(list) && list.text == [a, b]
    ensures AllRounds(Choices(a, b), list, State(0, [None, None])) != []
    ensures AllRounds(Choices(a, b), list, State(0, [None, None]))[0] == State(2, [None, None])
  {
    var node := Choices(a, b);
    var s0, s1, s2 := State(0, [None, None]), State(1, [None, Some(Span(0, 1))]), State(2, [None, None]);
    ChoicesForget(a, b, s0);
    ChoicesForget(a, b, s1);
    ChoicesForget(a, b, s2);
    ChoiceAt(a, b, list, s0);
    ChoiceAt(a, b, list, State(1, [None, None]));
    ChoiceAt(a, b, list, s2);
    FirstOfRounds(node, list, s2, []);
    FirstOfRounds(node, list, s1, [s2]);
    FirstOfRounds(node, list, s0, [s1]);
  }

  /** Going round again forgets what the round before captured: `(?:(a)|b)*` on `ab` captures no `a`. */
  lemma RoundsForget(a: int, b: int, list: Input)
    requires a != b && IsList(list) && list.text == [a, b]
    ensures MatchAt(Choices(a, b), list, 0) == Some(State(2, [Some(Span(0, 2)), None]))
  {
    var node := Choices(a, b);
    ChoicesPrefer(a, b, list);
    LiteralIsPlain([a], 0);
    LiteralIsPlain([b], 0);
    assert Count(Group(1, Literal([a]))) == 1 && Count(node.body) == 1 && Count(node) == 1 && GroupCount(node) == 2;
    assert StartState(node, 0) == State(0, [None, None]);
    MatchIsFirstResult(node, list, 0);
    assert [None, None][0 := Some(Span(0, 2))] == [Some(Span(0, 2)), None];
  }

  /** A round that reads nothing is given up, captures and all, once enough rounds are made. */
  lemma EmptyRoundIsGivenUp(k: nat, list: Input, s: State)
    requires IsList(list) && StateOk(list, s) && k < |s.captures| && s.captures[k] == None
    ensures Results(Repeat(Group(k, Empty), 0, None, true), false, list, s) == [s]
    ensures Results(Repeat(Group(k, Empty), 1, None, true), false, list, s)
      == [State(s.index, s.captures[k := Some(Span(s.index, s.index))])]
  {
    var once := Repeat(Group(k, Empty), 1, None, true);
    var y := State(s.index, s.captures[k := Some(Span(s.index, s.index))]);
    EmptyRounds(once, k, list, s);
    EmptyRounds(once, k, list, y);
    EmptyRounds(Repeat(Group(k, Empty), 0, None, true), k, list, s);
  }

  lemma EmptyRounds(node: Node, k: nat, list: Input, s: State)
    requires node.Repeat? && node.body == Group(k, Empty) && node.greedy
    requires IsList(list) && StateOk(list, s) && k < |s.captures|
    ensures AllRounds(node, list, s) == [s]
    ensures var y := State(s.index, s.captures[k := Some(Span(s.index, s.index))]);
      StateOk(list, y) && Rounds(node, 1, None, false, list, s) == AllRounds(node, list, y)
  {
    var y := State(s.index, s.captures[k := Some(Span(s.index, s.index))]);
    ClearedIsOk(list, s, node.body);
    var ys := Results(node.body, false, list, Cleared(s, node.body));
    assert forall j: nat :: Encloses(node.body, j) <==> j == k by {
      assert forall j: nat :: !Encloses(Empty, j);
    }
    var cleared := Cleared(s, node.body);
    assert cleared.captures[k := Some(Span(s.index, s.index))] == s.captures[k := Some(Span(s.index, s.index))];
    assert Results(Empty, false, list, cleared) == [cleared];
    assert ys == [y] && ys[1..] == [];
    assert RoundsEach(node, 0, None, false, list, s, ys[1..]) == [];
    assert RoundsEach(node, 0, None, false, list, s, ys) == [];
    assert RoundsEach(node, 1, None, false, list, s, ys[1..]) == [];
    assert RoundsEach(node, 1, None, false, list, s, ys) == AllRounds(node, list, y) + [];
  }
}
