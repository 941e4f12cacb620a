/**
 What a pattern matches, twice: by continuations, in the manner of section 22.2.2 of ECMA-262, and
 as the ordered list of all results that backtracking would try. Both agree. On an input that is a
 list of characters this is the edition's matching; on code units it is the executor's reading of
 it, and the module `RegExpEdition` says when the two are the same.
 */
module RegExpSemantics {
  import opened Basics
  import opened CodePointSets
  import opened RegExpSyntax

  /** What a matcher that read from `s` may leave: a position further on in its direction. */
  ghost predicate Moved(input: Input, s: State, r: State, backward: bool) {
    && StateOk(input, r) && |r.captures| == |s.captures|
    && (if backward then r.index <= s.index else s.index <= r.index)
  }

  ghost predicate AllMoved(input: Input, s: State, rs: seq<State>, backward: bool) {
    forall i | 0 <= i < |rs| :: Moved(input, s, rs[i], backward)
  }

  lemma AllMovedFurther(input: Input, s: State, y: State, rs: seq<State>, backward: bool)
    requires Moved(input, s, y, backward) && AllMoved(input, y, rs, backward)
    ensures AllMoved(input, s, rs, backward)
  {}

  /** How far a position can still move. */
  function Room(input: Input, s: State, backward: bool): nat {
    if backward then s.index else if s.index <= |input.text| then |input.text| - s.index else 0
  }

  // ----- Captures -----

  /** Forget what the groups inside a node captured. */
  function Cleared(s: State, node: Node): State {
    State(s.index,
          seq(|s.captures|, k requires 0 <= k < |s.captures| => if Encloses(node, k) then None else s.captures[k]))
  }

  /** Record what a group captured between `from` and the current position. */
  function Closed(s: State, from: nat, k: nat, backward: bool): State {
    var span := if backward then Span(s.index, from) else Span(from, s.index);
    if k < |s.captures| then State(s.index, s.captures[k := Some(span)]) else s
  }

  function ClosedEach(ss: seq<State>, from: nat, k: nat, backward: bool): (rs: seq<State>)
    ensures |rs| == |ss| && forall i | 0 <= i < |ss| :: rs[i] == Closed(ss[i], from, k, backward)
  {
    seq(|ss|, i requires 0 <= i < |ss| => Closed(ss[i], from, k, backward))
  }

  lemma ClearedIsOk(input: Input, s: State, node: Node)
    requires StateOk(input, s)
    ensures StateOk(input, Cleared(s, node))
  {}

  lemma ClosedIsMoved(input: Input, s: State, y: State, k: nat, backward: bool)
    requires StateOk(input, s) && Moved(input, s, y, backward)
    ensures Moved(input, s, Closed(y, s.index, k, backward), backward)
  {}

  function Before(n: nat): nat {
    if n == 0 then 0 else n - 1
  }

  function OneFewer(maximum: Option<nat>): Option<nat>
    requires maximum != Some(0)
  {
    if maximum == None then None else Some(maximum.value - 1)
  }

  /** The term that is evaluated first, and the one after it: a backward alternative reads from the right. */
  function Earlier(node: Node, backward: bool): (r: Node)
    requires node.Then?
    ensures r == node.first || r == node.second
  {
    if backward then node.second else node.first
  }

  function Later(node: Node, backward: bool): (r: Node)
    requires node.Then?
    ensures r == node.first || r == node.second
  {
    if backward then node.first else node.second
  }

  // ----- All results, in the order of trying -----

  /** The results of a node that reads at most one character or capture. */
  ghost function Simple(node: Node, backward: bool, input: Input, s: State): (rs: seq<State>)
    requires InputOk(input) && StateOk(input, s)
    ensures AllMoved(input, s, rs, backward) && |rs| <= 1
  {
    match node
    case Characters(members) =>
      var read := Advance(input, s.index, backward);
      if read.Some? && Holds(members, read.value.character) then
        AdvanceStays(input, s.index, backward);
        [s.(index := read.value.next)]
      else []
    case Edge(atEnd, multiline) => if AtEdge(input, s.index, atEnd, multiline) then [s] else []
    case Boundary(word, negated) => if AtBoundary(input, s.index, word) != negated then [s] else []
    case Backreference(groups, ignoreCase) =>
      var next := MatchCaptures(input, s.captures, groups, s.index, backward, ignoreCase);
      if next == None then [] else [s.(index := next.value)]
    case _ => [s]
  }

  ghost function Results(node: Node, backward: bool, input: Input, s: State): (rs: seq<State>)
    requires InputOk(input) && StateOk(input, s)
    ensures AllMoved(input, s, rs, backward)
    decreases node, 2, 0, 0, 0, 0
  {
    match node
    case Then(_, _) =>
      ResultsEach(Later(node, backward), backward, input, s, Results(Earlier(node, backward), backward, input, s))
    case Or(first, second) => Results(first, backward, input, s) + Results(second, backward, input, s)
    case Group(k, body) =>
      var ys := Results(body, backward, input, s);
      ClosedEach(ys, s.index, k, backward)
    case Repeat(body, minimum, maximum, greedy) => Rounds(node, minimum, maximum, backward, input, s)
    case Look(body, behind, negated) =>
      var ys := Results(body, behind, input, s);
      if negated then (if ys == [] then [s] else [])
      else if ys == [] then [] else [State(s.index, ys[0].captures)]
    case _ => Simple(node, backward, input, s)
  }

  /** What a node gives for each of several states. */
  ghost function ResultsEach(node: Node, backward: bool, input: Input, s: State, ys: seq<State>): (rs: seq<State>)
    requires InputOk(input) && AllMoved(input, s, ys, backward)
    ensures AllMoved(input, s, rs, backward)
    decreases node, 3, 0, 0, 0, |ys|
  {
    if ys == [] then []
    else
      var first := Results(node, backward, input, ys[0]);
      AllMovedFurther(input, s, ys[0], first, backward);
      first + ResultsEach(node, backward, input, s, ys[1..])
  }

  /** What a repetition gives with so many iterations still required and allowed. */
  ghost function Rounds(node: Node, minimum: nat, maximum: Option<nat>, backward: bool, input: Input, s: State)
    : (rs: seq<State>)
    requires node.Repeat? && InputOk(input) && StateOk(input, s)
    ensures AllMoved(input, s, rs, backward)
    decreases node, 1, minimum, Room(input, s, backward), 1, 0
  {
    if maximum == Some(0) then [s]
    else
      ClearedIsOk(input, s, node.body);
      var ys := Results(node.body, backward, input, Cleared(s, node.body));
      var more := RoundsEach(node, minimum, maximum, backward, input, s, ys);
      if minimum > 0 then more else if node.greedy then more + [s] else [s] + more
  }

  /** What follows each way of going round once; an empty round is given up once enough are made. */
  ghost function RoundsEach(node: Node, minimum: nat, maximum: Option<nat>, backward: bool, input: Input, s: State,
                            ys: seq<State>): (rs: seq<State>)
    requires node.Repeat? && maximum != Some(0) && InputOk(input) && AllMoved(input, s, ys, backward)
    ensures AllMoved(input, s, rs, backward)
    decreases node, 1, minimum, Room(input, s, backward), 0, |ys|
  {
    if ys == [] then []
    else if minimum == 0 && ys[0].index == s.index then
      RoundsEach(node, minimum, maximum, backward, input, s, ys[1..])
    else
      var first := Rounds(node, Before(minimum), OneFewer(maximum), backward, input, ys[0]);
      AllMovedFurther(input, s, ys[0], first, backward);
      first + RoundsEach(node, minimum, maximum, backward, input, s, ys[1..])
  }

  // ----- Continuations -----

  type Continuation = State --> Option<State>

  /** A continuation that takes every state a matcher may reach from `s`. */
  ghost predicate Takes(k: Continuation, input: Input, s: State, backward: bool) {
    forall y | Moved(input, s, y, backward) :: k.requires(y)
  }

  function Done(): (k: Continuation)
    ensures forall y :: k.requires(y) && k(y) == Some(y)
  {
    y => Some(y)
  }

  /** A success is what the continuation made of some state. */
  ghost predicate FromSome(k: Continuation, input: Input, s: State, backward: bool, r: Option<State>)
    requires Takes(k, input, s, backward)
  {
    r.Some? ==> exists y :: Moved(input, s, y, backward) && k(y) == r
  }

  /** Match a node, then go on with `k`; the first success decides. */
  ghost function Match(node: Node, backward: bool, input: Input, s: State, k: Continuation): (r: Option<State>)
    requires InputOk(input) && StateOk(input, s) && Takes(k, input, s, backward)
    ensures FromSome(k, input, s, backward, r)
    decreases node, 2, 0, 0, 0
  {
    match node
    case Then(_, _) =>
      Match(Earlier(node, backward), backward, input, s, AndThen(Later(node, backward), backward, input, s, k))
    case Or(first, second) =>
      var r := Match(first, backward, input, s, k);
      if r.Some? then r else Match(second, backward, input, s, k)
    case Group(index, body) =>
      var r := Match(body, backward, input, s, AndClose(index, backward, input, s, k));
      ClosedFromSome(index, backward, input, s, k, r);
      r
    case Repeat(_, minimum, maximum, _) => MatchRounds(node, minimum, maximum, backward, input, s, k)
    case Look(body, behind, negated) =>
      var r := Match(body, behind, input, s, Done());
      if negated then (if r == None then k(s) else None)
      else if r == None then None
      else
        assert Moved(input, s, r.value, behind);
        k(State(s.index, r.value.captures))
    case _ =>
      var rs := Simple(node, backward, input, s);
      if rs == [] then None else k(rs[0])
  }

  /** Go on with another node. */
  ghost function AndThen(node: Node, backward: bool, input: Input, s: State, k: Continuation): (c: Continuation)
    requires InputOk(input) && Takes(k, input, s, backward)
    ensures Takes(c, input, s, backward)
    decreases node, 3, 0, 0, 0
  {
    (y: State) requires Moved(input, s, y, backward) && InputOk(input) && Takes(k, input, s, backward) =>
      Match(node, backward, input, y, k)
  }

  /** Go on after closing a group that was opened at `s`. */
  ghost function AndClose(index: nat, backward: bool, input: Input, s: State, k: Continuation): (c: Continuation)
    requires StateOk(input, s) && Takes(k, input, s, backward)
    ensures Takes(c, input, s, backward)
  {
    (y: State) requires StateOk(input, s) && Moved(input, s, y, backward) && Takes(k, input, s, backward) =>
      ClosedIsMoved(input, s, y, index, backward);
      k(Closed(y, s.index, index, backward))
  }

  lemma ClosedFromSome(index: nat, backward: bool, input: Input, s: State, k: Continuation, r: Option<State>)
    requires StateOk(input, s) && Takes(k, input, s, backward)
    requires FromSome(AndClose(index, backward, input, s, k), input, s, backward, r)
    ensures FromSome(k, input, s, backward, r)
  {
    if r.Some? {
      var y :| Moved(input, s, y, backward) && AndClose(index, backward, input, s, k)(y) == r;
      ClosedIsMoved(input, s, y, index, backward);
      assert k(Closed(y, s.index, index, backward)) == r;
    }
  }

  /** RepeatMatcher: forced rounds first, then in the order of preference. */
  ghost function MatchRounds(node: Node, minimum: nat, maximum: Option<nat>, backward: bool, input: Input, s: State,
                             k: Continuation): (r: Option<State>)
    requires node.Repeat? && InputOk(input) && StateOk(input, s) && Takes(k, input, s, backward)
    ensures FromSome(k, input, s, backward, r)
    decreases node, 1, minimum, Room(input, s, backward), 1
  {
    if maximum == Some(0) then k(s)
    else
      ClearedIsOk(input, s, node.body);
      var again := AndRound(node, minimum, maximum, backward, input, s, k);
      var round := Match(node.body, backward, input, Cleared(s, node.body), again);
      if minimum > 0 then round
      else if node.greedy then (if round.Some? then round else k(s))
      else if k(s).Some? then k(s) else round
  }

  /** Go on with the next round, unless this one was empty and enough are made. */
  ghost function AndRound(node: Node, minimum: nat, maximum: Option<nat>, backward: bool, input: Input, s: State,
                          k: Continuation): (c: Continuation)
    requires node.Repeat? && maximum != Some(0) && InputOk(input) && StateOk(input, s) && Takes(k, input, s, backward)
    ensures Takes(c, input, Cleared(s, node.body), backward)
    decreases node, 1, minimum, Room(input, s, backward), 0
  {
    (y: State) requires node.Repeat? && maximum != Some(0) && InputOk(input) && Moved(input, s, y, backward)
                        && Takes(k, input, s, backward) =>
      if minimum == 0 && y.index == s.index then None
      else MatchRounds(node, Before(minimum), OneFewer(maximum), backward, input, y, k)
  }

  // ----- Both agree -----

  /** The first success among several states. */
  ghost function First(rs: seq<State>, k: Continuation): Option<State>
    requires forall i | 0 <= i < |rs| :: k.requires(rs[i])
  {
    if rs == [] then None else if k(rs[0]).Some? then k(rs[0]) else First(rs[1..], k)
  }

  lemma {:induction false} FirstConcat(a: seq<State>, b: seq<State>, k: Continuation)
    requires (forall i | 0 <= i < |a| :: k.requires(a[i])) && forall i | 0 <= i < |b| :: k.requires(b[i])
    ensures First(a + b, k) == if First(a, k).Some? then First(a, k) else First(b, k)
  {
    if a == [] {
      assert a + b == b;
    } else {
      assert (a + b)[1..] == a[1..] + b;
      FirstConcat(a[1..], b, k);
    }
  }

  /** Matching by continuations finds the first result that the continuation accepts. */
  lemma {:induction false} MatchIsFirst(node: Node, backward: bool, input: Input, s: State, k: Continuation)
    requires InputOk(input) && StateOk(input, s) && Takes(k, input, s, backward)
    ensures Match(node, backward, input, s, k) == First(Results(node, backward, input, s), k)
    decreases node, 2, 0, 0, 0
  {
    match node
    case Then(_, _) =>
      var next := Later(node, backward);
      MatchIsFirst(Earlier(node, backward), backward, input, s, AndThen(next, backward, input, s, k));
      EachIsFirst(next, backward, input, s, Results(Earlier(node, backward), backward, input, s), k);
    case Or(first, second) =>
      MatchIsFirst(first, backward, input, s, k);
      MatchIsFirst(second, backward, input, s, k);
      FirstConcat(Results(first, backward, input, s), Results(second, backward, input, s), k);
    case Group(index, body) =>
      MatchIsFirst(body, backward, input, s, AndClose(index, backward, input, s, k));
      ClosedIsFirst(index, backward, input, s, Results(body, backward, input, s), k);
    case Repeat(_, minimum, maximum, _) => RoundsAreFirst(node, minimum, maximum, backward, input, s, k);
    case Look(body, behind, _) =>
      MatchIsFirst(body, behind, input, s, Done());
      LookIsFirst(node, backward, input, s, k);
    case _ => SimpleIsFirst(node, backward, input, s, k);
  }

  lemma LookIsFirst(node: Node, backward: bool, input: Input, s: State, k: Continuation)
    requires node.Look? && InputOk(input) && StateOk(input, s) && Takes(k, input, s, backward)
    requires Match(node.body, node.behind, input, s, Done())
      == First(Results(node.body, node.behind, input, s), Done())
    ensures Match(node, backward, input, s, k) == First(Results(node, backward, input, s), k)
  {}

  predicate IsSimple(node: Node) {
    node.Empty? || node.Characters? || node.Edge? || node.Boundary? || node.Backreference?
  }

  lemma SimpleIsFirst(node: Node, backward: bool, input: Input, s: State, k: Continuation)
    requires IsSimple(node) && InputOk(input) && StateOk(input, s) && Takes(k, input, s, backward)
    ensures Match(node, backward, input, s, k) == First(Results(node, backward, input, s), k)
  {}

  lemma {:induction false} EachIsFirst(node: Node, backward: bool, input: Input, s: State, ys: seq<State>,
                                       k: Continuation)
    requires InputOk(input) && AllMoved(input, s, ys, backward) && Takes(k, input, s, backward)
    ensures First(ys, AndThen(node, backward, input, s, k)) == First(ResultsEach(node, backward, input, s, ys), k)
    decreases node, 3, 0, 0, |ys|
  {
    if ys != [] {
      var first := Results(node, backward, input, ys[0]);
      MatchIsFirst(node, backward, input, ys[0], k);
      AllMovedFurther(input, s, ys[0], first, backward);
      EachIsFirst(node, backward, input, s, ys[1..], k);
      FirstConcat(first, ResultsEach(node, backward, input, s, ys[1..]), k);
    }
  }

  lemma {:induction false} ClosedIsFirst(index: nat, backward: bool, input: Input, s: State, ys: seq<State>,
                                         k: Continuation)
    requires StateOk(input, s) && AllMoved(input, s, ys, backward) && Takes(k, input, s, backward)
    requires AllMoved(input, s, ClosedEach(ys, s.index, index, backward), backward)
    ensures First(ys, AndClose(index, backward, input, s, k)) == First(ClosedEach(ys, s.index, index, backward), k)
    decreases |ys|
  {
    if ys != [] {
      var closed := ClosedEach(ys, s.index, index, backward);
      assert closed[1..] == ClosedEach(ys[1..], s.index, index, backward);
      ClosedIsFirst(index, backward, input, s, ys[1..], k);
    }
  }

  lemma {:induction false} RoundsAreFirst(node: Node, minimum: nat, maximum: Option<nat>, backward: bool, input: Input,
                                          s: State, k: Continuation)
    requires node.Repeat? && InputOk(input) && StateOk(input, s) && Takes(k, input, s, backward)
    ensures MatchRounds(node, minimum, maximum, backward, input, s, k)
      == First(Rounds(node, minimum, maximum, backward, input, s), k)
    decreases node, 1, minimum, Room(input, s, backward), 1
  {
    if maximum != Some(0) {
      ClearedIsOk(input, s, node.body);
      var cleared := Cleared(s, node.body);
      var ys := Results(node.body, backward, input, cleared);
      MatchIsFirst(node.body, backward, input, cleared, AndRound(node, minimum, maximum, backward, input, s, k));
      EachRoundIsFirst(node, minimum, maximum, backward, input, s, ys, k);
      var more := RoundsEach(node, minimum, maximum, backward, input, s, ys);
      FirstConcat(more, [s], k);
      FirstConcat([s], more, k);
    }
  }

  lemma {:induction false} EachRoundIsFirst(node: Node, minimum: nat, maximum: Option<nat>, backward: bool,
                                            input: Input, s: State, ys: seq<State>, k: Continuation)
    requires node.Repeat? && maximum != Some(0) && InputOk(input) && StateOk(input, s)
    requires AllMoved(input, s, ys, backward) && Takes(k, input, s, backward)
    ensures First(ys, AndRound(node, minimum, maximum, backward, input, s, k))
      == First(RoundsEach(node, minimum, maximum, backward, input, s, ys), k)
    decreases node, 1, minimum, Room(input, s, backward), 0, |ys|
  {
    if ys != [] {
      EachRoundIsFirst(node, minimum, maximum, backward, input, s, ys[1..], k);
      if minimum > 0 || ys[0].index != s.index {
        var first := Rounds(node, Before(minimum), OneFewer(maximum), backward, input, ys[0]);
        RoundsAreFirst(node, Before(minimum), OneFewer(maximum), backward, input, ys[0], k);
        AllMovedFurther(input, s, ys[0], first, backward);
        FirstConcat(first, RoundsEach(node, minimum, maximum, backward, input, s, ys[1..]), k);
      }
    }
  }
}
