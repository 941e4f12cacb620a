/**
 Patterns and inputs of the regular expression matcher (packages/compiler/src/regexp-matcher.ts
 and regexp-execute.ts). A text is a list of UTF-16 code units, or a list of characters that are
 read one by one; a pattern is the parsed tree with its character classes already resolved to
 inversion lists.
 */
module RegExpSyntax {
  import opened Basics
  import opened CodePointSets

  // ----- Patterns -----

  /** An alternative is a chain of `Then`, a disjunction a chain of `Or`. */
  datatype Node =
    | Empty
    | Characters(members: CodePointSet)
    | Edge(atEnd: bool, multiline: bool)
    | Boundary(word: CodePointSet, negated: bool)
    | Backreference(groups: seq<nat>, ignoreCase: bool)
    | Then(first: Node, second: Node)
    | Or(first: Node, second: Node)
    | Group(index: nat, body: Node)
    | Repeat(body: Node, minimum: nat, maximum: Option<nat>, greedy: bool)
    | Look(body: Node, behind: bool, negated: bool)

  /** How many capturing groups a node encloses. */
  function Count(node: Node): nat {
    match node
    case Then(first, second) => Count(first) + Count(second)
    case Or(first, second) => Count(first) + Count(second)
    case Group(_, body) => 1 + Count(body)
    case Repeat(body, _, _, _) => Count(body)
    case Look(body, _, _) => Count(body)
    case _ => 0
  }

  /** Groups are numbered from `n` in the order of their opening parentheses. */
  predicate Numbered(node: Node, n: nat) {
    match node
    case Then(first, second) => Numbered(first, n) && Numbered(second, n + Count(first))
    case Or(first, second) => Numbered(first, n) && Numbered(second, n + Count(first))
    case Group(index, body) => index == n && Numbered(body, n + 1)
    case Repeat(body, _, _, _) => Numbered(body, n)
    case Look(body, _, _) => Numbered(body, n)
    case _ => true
  }

  /** Whether a node encloses a group. */
  predicate Encloses(node: Node, k: nat) {
    match node
    case Then(first, second) => Encloses(first, k) || Encloses(second, k)
    case Or(first, second) => Encloses(first, k) || Encloses(second, k)
    case Group(index, body) => k == index || Encloses(body, k)
    case Repeat(body, _, _, _) => Encloses(body, k)
    case Look(body, _, _) => Encloses(body, k)
    case _ => false
  }

  /** Sets are well-formed, bounds are ordered, and references name one of so many groups. */
  ghost predicate WellBuilt(node: Node, groups: nat) {
    match node
    case Characters(members) => WellFormed(members)
    case Boundary(word, _) => WellFormed(word)
    case Backreference(named, _) => forall k | 0 <= k < |named| :: named[k] < groups
    case Then(first, second) => WellBuilt(first, groups) && WellBuilt(second, groups)
    case Or(first, second) => WellBuilt(first, groups) && WellBuilt(second, groups)
    case Group(_, body) => WellBuilt(body, groups)
    case Repeat(body, minimum, maximum, _) => WellBuilt(body, groups) && (maximum.Some? ==> minimum <= maximum.value)
    case Look(body, _, _) => WellBuilt(body, groups)
    case _ => true
  }

  lemma {:induction false} NumberedEncloses(node: Node, n: nat, k: nat)
    requires Numbered(node, n)
    ensures Encloses(node, k) <==> n <= k < n + Count(node)
  {
    match node
    case Then(first, second) =>
      NumberedEncloses(first, n, k);
      NumberedEncloses(second, n + Count(first), k);
    case Or(first, second) =>
      NumberedEncloses(first, n, k);
      NumberedEncloses(second, n + Count(first), k);
    case Group(_, body) => NumberedEncloses(body, n + 1, k);
    case Repeat(body, _, _, _) => NumberedEncloses(body, n, k);
    case Look(body, _, _) => NumberedEncloses(body, n, k);
    case _ =>
  }

  // ----- Inputs -----

  /** Code units, how characters are read, and what `i` compares. */
  datatype Input = Input(text: seq<int>, unicode: bool, canonical: int -> int)

  predicate IsLead(unit: int) {
    0xD800 <= unit <= 0xDBFF
  }

  predicate IsTrail(unit: int) {
    0xDC00 <= unit <= 0xDFFF
  }

  /** The character that starts at `i`; a lone surrogate is one character. */
  function CharacterAt(input: Input, i: int): int
    requires 0 <= i < |input.text|
  {
    var unit := input.text[i];
    if input.unicode && IsLead(unit) && i + 1 < |input.text| && IsTrail(input.text[i + 1]) then
      (unit - 0xD800) * 0x400 + (input.text[i + 1] - 0xDC00) + 0x10000
    else unit
  }

  /** How many code units it takes. */
  function WidthAt(input: Input, i: int): (w: nat)
    requires 0 <= i < |input.text|
    ensures 1 <= w <= 2
  {
    if input.unicode && CharacterAt(input, i) > 0xFFFF then 2 else 1
  }

  function WidthBefore(input: Input, i: int): (w: nat)
    requires 0 <= i <= |input.text|
    ensures 1 <= w <= 2 && (w == 2 ==> i >= 2)
  {
    if input.unicode && i >= 2 && IsTrail(input.text[i - 1]) && IsLead(input.text[i - 2]) then 2 else 1
  }

  /** Code units fit sixteen bits; without `u` and `v` any list of characters is read one by one. */
  ghost predicate InputOk(input: Input) {
    input.unicode ==> forall i | 0 <= i < |input.text| :: 0 <= input.text[i] <= 0xFFFF
  }

  /** A character and the position behind it. */
  datatype Read = Read(character: int, next: int)

  /** Read one character in the given direction. */
  function Advance(input: Input, i: int, backward: bool): (r: Option<Read>)
    requires 0 <= i <= |input.text|
    ensures r.Some? ==> 0 <= r.value.next && (if backward then r.value.next < i else i < r.value.next)
  {
    if backward then
      var at := i - WidthBefore(input, i);
      if at < 0 then None else Some(Read(CharacterAt(input, at), at))
    else if i == |input.text| then None
    else Some(Read(CharacterAt(input, i), i + WidthAt(input, i)))
  }

  lemma AdvanceStays(input: Input, i: int, backward: bool)
    requires InputOk(input) && 0 <= i <= |input.text| && Advance(input, i, backward).Some?
    ensures Advance(input, i, backward).value.next <= |input.text|
  {}

  /** A position between the halves of a surrogate pair names the character they encode. */
  function AlignedStart(input: Input, i: nat): (r: nat)
    requires i <= |input.text|
    ensures r <= i
  {
    if input.unicode && 0 < i < |input.text| && IsTrail(input.text[i]) && IsLead(input.text[i - 1]) then i - 1 else i
  }

  /** Behind a character there is another one, or the end. */
  lemma NextIsAligned(input: Input, i: nat)
    requires InputOk(input) && i < |input.text|
    ensures var next := i + WidthAt(input, i);
      next <= |input.text| && AlignedStart(input, next) == next
  {
    AdvanceStays(input, i, false);
  }

  predicate IsLineTerminator(c: int) {
    c == 0x0A || c == 0x0D || c == 0x2028 || c == 0x2029
  }

  function CharacterBefore(input: Input, i: int): int
    requires 0 < i <= |input.text|
  {
    CharacterAt(input, i - WidthBefore(input, i))
  }

  /** `^` and `$`. */
  predicate AtEdge(input: Input, i: int, atEnd: bool, multiline: bool)
    requires 0 <= i <= |input.text|
  {
    if atEnd then i == |input.text| || (multiline && IsLineTerminator(CharacterAt(input, i)))
    else i == 0 || (multiline && IsLineTerminator(CharacterBefore(input, i)))
  }

  /** `\b`: exactly one neighbour is a word character. */
  ghost predicate AtBoundary(input: Input, i: int, word: CodePointSet)
    requires 0 <= i <= |input.text|
  {
    (i > 0 && Holds(word, CharacterBefore(input, i))) != (i < |input.text| && Holds(word, CharacterAt(input, i)))
  }

  // ----- Match states -----

  datatype Span = Span(start: nat, end: nat)

  /** Where a match is, and what its groups have captured. */
  datatype State = State(index: nat, captures: seq<Option<Span>>)

  predicate SpanOk(input: Input, s: Span) {
    s.start <= s.end <= |input.text|
  }

  ghost predicate StateOk(input: Input, s: State) {
    s.index <= |input.text| && CapturesOk(input, s.captures)
  }

  /** Whether the text at `at` repeats the text from `source` to `end`, character by character. */
  predicate Repeats(input: Input, source: nat, end: nat, at: nat, ignoreCase: bool)
    requires end <= |input.text| && (source < end ==> at + (end - source) <= |input.text|)
    decreases end - source
  {
    source >= end ||
    (var left, right := CharacterAt(input, source), CharacterAt(input, at);
     (if ignoreCase then input.canonical(left) == input.canonical(right) else left == right) &&
     var width := WidthAt(input, source);
     Repeats(input, source + width, end, at + width, ignoreCase))
  }

  /** Match the text of one capture; one that did not take part matches the empty text. */
  function MatchCapture(input: Input, capture: Option<Span>, i: nat, backward: bool, ignoreCase: bool): (r: Option<nat>)
    requires i <= |input.text| && (capture.Some? ==> SpanOk(input, capture.value))
    ensures r.Some? ==> r.value <= |input.text| && (if backward then r.value <= i else i <= r.value)
  {
    if capture == None then Some(i)
    else
      var length := capture.value.end - capture.value.start;
      if backward then
        if i < length || !Repeats(input, capture.value.start, capture.value.end, i - length, ignoreCase) then None
        else Some(i - length)
      else if i + length > |input.text| then None
      else if !Repeats(input, capture.value.start, capture.value.end, i, ignoreCase) then None
      else Some(i + length)
  }

  function Captured(captures: seq<Option<Span>>, g: nat): Option<Span> {
    if g < |captures| then captures[g] else None
  }

  ghost predicate CapturesOk(input: Input, captures: seq<Option<Span>>) {
    forall k | 0 <= k < |captures| && captures[k].Some? :: SpanOk(input, captures[k].value)
  }

  /** Match each named capture in turn. */
  ghost function MatchCaptures(input: Input, captures: seq<Option<Span>>, groups: seq<nat>, i: nat, backward: bool,
                               ignoreCase: bool): (r: Option<nat>)
    requires i <= |input.text| && CapturesOk(input, captures)
    ensures r.Some? ==> r.value <= |input.text| && (if backward then r.value <= i else i <= r.value)
  {
    if groups == [] then Some(i)
    else
      var first := MatchCapture(input, Captured(captures, groups[0]), i, backward, ignoreCase);
      if first == None then None
      else MatchCaptures(input, captures, groups[1..], first.value, backward, ignoreCase)
  }

  /** With one group taking part at most, matching each in turn is matching that one. */
  lemma {:induction false} OneCaptureTakesPart(input: Input, captures: seq<Option<Span>>, groups: seq<nat>, k: nat,
                                               i: nat, backward: bool, ignoreCase: bool)
    requires i <= |input.text| && CapturesOk(input, captures) && k < |groups|
    requires forall h | 0 <= h < |groups| && h != k :: Captured(captures, groups[h]) == None
    ensures MatchCaptures(input, captures, groups, i, backward, ignoreCase)
      == MatchCapture(input, Captured(captures, groups[k]), i, backward, ignoreCase)
  {
    if k == 0 {
      var first := MatchCapture(input, Captured(captures, groups[0]), i, backward, ignoreCase);
      if first.Some? {
        NoneTakesPart(input, captures, groups[1..], first.value, backward, ignoreCase);
      }
    } else {
      OneCaptureTakesPart(input, captures, groups[1..], k - 1, i, backward, ignoreCase);
    }
  }

  lemma {:induction false} NoneTakesPart(input: Input, captures: seq<Option<Span>>, groups: seq<nat>, i: nat,
                                         backward: bool, ignoreCase: bool)
    requires i <= |input.text| && CapturesOk(input, captures)
    requires forall h | 0 <= h < |groups| :: Captured(captures, groups[h]) == None
    ensures MatchCaptures(input, captures, groups, i, backward, ignoreCase) == Some(i)
  {
    if groups != [] {
      NoneTakesPart(input, captures, groups[1..], i, backward, ignoreCase);
    }
  }
}
