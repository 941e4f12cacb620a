/**
 Backward references as section 22.2.2.7 of ECMA-262 defines them, on the list of characters,
 against the executor's, on code units: where they agree, exactly, and an input where they do not.
 */
module RegExpReferences {
  import opened Basics
  import opened CodePointSets
  import opened RegExpSyntax
  import opened RegExpSemantics
  import opened RegExpCharacters

  // ----- The edition's rule -----

  /** The `k`-th characters from `a` and from `b` on are the same, or `i` identifies them. */
  predicate SameAt(chars: seq<int>, canonical: int -> int, a: nat, b: nat, k: nat, ignoreCase: bool)
    requires a + k < |chars| && b + k < |chars|
  {
    if ignoreCase then canonical(chars[a + k]) == canonical(chars[b + k]) else chars[a + k] == chars[b + k]
  }

  /** So many characters from `a` on are the ones from `b` on. */
  predicate EqualRuns(chars: seq<int>, canonical: int -> int, a: nat, b: nat, count: nat, ignoreCase: bool)
    requires a + count <= |chars| && b + count <= |chars|
  {
    forall k: nat | k < count :: SameAt(chars, canonical, a, b, k, ignoreCase)
  }

  /** The first characters decide with the rest. */
  lemma EqualRunsUnfold(chars: seq<int>, canonical: int -> int, a: nat, b: nat, count: nat, ignoreCase: bool)
    requires a + count <= |chars| && b + count <= |chars| && count > 0
    ensures EqualRuns(chars, canonical, a, b, count, ignoreCase) <==>
      (&& SameAt(chars, canonical, a, b, 0, ignoreCase)
       && EqualRuns(chars, canonical, a + 1, b + 1, count - 1, ignoreCase))
  {
    if EqualRuns(chars, canonical, a, b, count, ignoreCase) {
      var c, d := a + 1, b + 1;
      forall k: nat | k < count - 1 ensures SameAt(chars, canonical, c, d, k, ignoreCase) {
        assert SameAt(chars, canonical, a, b, k + 1, ignoreCase);
      }
    }
    if SameAt(chars, canonical, a, b, 0, ignoreCase)
       && EqualRuns(chars, canonical, a + 1, b + 1, count - 1, ignoreCase) {
      forall k: nat | k < count ensures SameAt(chars, canonical, a, b, k, ignoreCase) {
        if k > 0 {
          assert SameAt(chars, canonical, a + 1, b + 1, k - 1, ignoreCase);
        }
      }
    }
  }

  /** The position as many characters away as were captured, if those in between repeat them. */
  function EditionReference(chars: seq<int>, canonical: int -> int, capture: Option<Span>, e: nat, backward: bool,
                            ignoreCase: bool): (r: Option<nat>)
    requires e <= |chars| && (capture.Some? ==> capture.value.start <= capture.value.end <= |chars|)
  {
    if capture == None then Some(e)
    else
      var count := capture.value.end - capture.value.start;
      var f := if backward then e - count else e + count;
      if f < 0 || f > |chars| then None
      else if EqualRuns(chars, canonical, capture.value.start, if e <= f then e else f, count, ignoreCase) then Some(f)
      else None
  }

  lemma {:induction false} RepeatsOnList(input: Input, a: nat, end: nat, b: nat, ignoreCase: bool)
    requires !input.unicode && a <= end <= |input.text| && b + (end - a) <= |input.text|
    ensures Repeats(input, a, end, b, ignoreCase)
      <==> EqualRuns(input.text, input.canonical, a, b, end - a, ignoreCase)
    decreases end - a
  {
    if a < end {
      RepeatsOnList(input, a + 1, end, b + 1, ignoreCase);
      EqualRunsUnfold(input.text, input.canonical, a, b, end - a, ignoreCase);
    }
  }

  /** On a list of characters the executor's rule is the edition's. */
  lemma ListReference(input: Input, capture: Option<Span>, e: nat, backward: bool, ignoreCase: bool)
    requires !input.unicode && e <= |input.text| && (capture.Some? ==> SpanOk(input, capture.value))
    ensures MatchCapture(input, capture, e, backward, ignoreCase)
      == EditionReference(input.text, input.canonical, capture, e, backward, ignoreCase)
  {
    if capture.Some? {
      var a, end := capture.value.start, capture.value.end;
      if backward && e >= end - a {
        RepeatsOnList(input, a, end, e - (end - a), ignoreCase);
      } else if !backward && e + (end - a) <= |input.text| {
        RepeatsOnList(input, a, end, e, ignoreCase);
      }
    }
  }

  // ----- On code units -----

  /** `i` identifies no characters of different width, and no surrogate with anything: true of simple case folding. */
  ghost predicate FoldsCharacters(canonical: int -> int) {
    forall a, b | canonical(a) == canonical(b) :: (a > 0xFFFF <==> b > 0xFFFF) && (IsTrail(a) ==> a == b)
  }

  function UnitSpan(input: Input, s: Span): Span
    requires InputOk(input)
  {
    Span(UnitIndex(input, s.start), UnitIndex(input, s.end))
  }

  function UnitCapture(input: Input, c: Option<Span>): Option<Span>
    requires InputOk(input)
  {
    if c == None then None else Some(UnitSpan(input, c.value))
  }

  function UnitFound(input: Input, f: Option<nat>): Option<nat>
    requires InputOk(input)
  {
    if f == None then None else Some(UnitIndex(input, f.value))
  }

  lemma WidthIsPlane(input: Input, k: nat)
    requires InputOk(input) && input.unicode && k < |CharactersOf(input)|
    ensures UnitIndex(input, k + 1) == UnitIndex(input, k) + if CharactersOf(input)[k] > 0xFFFF then 2 else 1
  {
    CharacterStarts(input, k);
  }

  /** Runs of equal characters take equally many code units. */
  lemma {:induction false} EqualRunsMeasure(input: Input, a: nat, b: nat, count: nat, ignoreCase: bool)
    requires InputOk(input) && input.unicode && FoldsCharacters(input.canonical)
    requires a + count <= |CharactersOf(input)| && b + count <= |CharactersOf(input)|
    requires EqualRuns(CharactersOf(input), input.canonical, a, b, count, ignoreCase)
    ensures UnitIndex(input, a + count) - UnitIndex(input, a) == UnitIndex(input, b + count) - UnitIndex(input, b)
    decreases count
  {
    if count > 0 {
      EqualRunsUnfold(CharactersOf(input), input.canonical, a, b, count, ignoreCase);
      EqualRunsMeasure(input, a + 1, b + 1, count - 1, ignoreCase);
      WidthIsPlane(input, a);
      WidthIsPlane(input, b);
    }
  }

  /** From the start of a character on, code units repeat a capture exactly if its characters are repeated. */
  lemma {:induction false} RepeatsOnUnits(input: Input, a: nat, end: nat, b: nat, ignoreCase: bool)
    requires InputOk(input) && input.unicode && FoldsCharacters(input.canonical)
    requires a <= end <= |CharactersOf(input)| && b <= |CharactersOf(input)|
    requires UnitIndex(input, a) <= UnitIndex(input, end)
    requires UnitIndex(input, b) + (UnitIndex(input, end) - UnitIndex(input, a)) <= |input.text|
    ensures Repeats(input, UnitIndex(input, a), UnitIndex(input, end), UnitIndex(input, b), ignoreCase) <==>
      (&& b + (end - a) <= |CharactersOf(input)|
       && EqualRuns(CharactersOf(input), input.canonical, a, b, end - a, ignoreCase))
    decreases end - a
  {
    StartsOrdered(input, a, end);
    if a < end {
      StartsOrdered(input, a + 1, end);
      CharacterStarts(input, a);
      CharacterStarts(input, b);
      WidthIsPlane(input, a);
      WidthIsPlane(input, b);
      var chars := CharactersOf(input);
      if SameAt(chars, input.canonical, a, b, 0, ignoreCase) {
        RepeatsOnUnits(input, a + 1, end, b + 1, ignoreCase);
        if b + (end - a) <= |chars| {
          EqualRunsUnfold(chars, input.canonical, a, b, end - a, ignoreCase);
        }
      }
    }
  }

  /** A backward reference goes to a position between the halves of a surrogate pair, and finds its text there. */
  predicate SplitsPair(input: Input, capture: Option<Span>, i: nat, backward: bool, ignoreCase: bool)
    requires i <= |input.text| && (capture.Some? ==> SpanOk(input, capture.value))
  {
    && backward && capture.Some?
    && var length := capture.value.end - capture.value.start;
       && length <= i && AlignedStart(input, i - length) != i - length
       && Repeats(input, capture.value.start, capture.value.end, i - length, ignoreCase)
  }

  lemma UnitSpanOk(input: Input, s: Span)
    requires InputOk(input) && s.start <= s.end <= |CharactersOf(input)|
    ensures SpanOk(input, UnitSpan(input, s))
  {
    StartsOrdered(input, s.start, s.end);
  }

  /** A reference the edition accepts lies where the executor looks. */
  lemma EditionIsFound(input: Input, s: Span, e: nat, backward: bool, ignoreCase: bool)
    requires InputOk(input) && input.unicode && FoldsCharacters(input.canonical)
    requires s.start <= s.end <= |CharactersOf(input)| && e <= |CharactersOf(input)|
    requires EditionReference(CharactersOf(input), input.canonical, Some(s), e, backward, ignoreCase).Some?
    ensures var f := EditionReference(CharactersOf(input), input.canonical, Some(s), e, backward, ignoreCase);
      var u := UnitSpan(input, s);
      UnitIndex(input, f.value) == UnitIndex(input, e) + if backward then u.start - u.end else u.end - u.start
  {
    var count := s.end - s.start;
    EqualRunsMeasure(input, s.start, if backward then e - count else e, count, ignoreCase);
  }

  /** A reference the executor accepts at the start of a character is one the edition accepts. */
  lemma AlignedIsFound(input: Input, s: Span, e: nat, h: nat, backward: bool, ignoreCase: bool)
    requires InputOk(input) && input.unicode && FoldsCharacters(input.canonical)
    requires s.start <= s.end <= |CharactersOf(input)| && e <= |CharactersOf(input)| && h <= |CharactersOf(input)|
    requires var u := UnitSpan(input, s);
      && u.start <= u.end && UnitIndex(input, h) + (u.end - u.start) <= |input.text|
      && (if backward then UnitIndex(input, h) + (u.end - u.start) == UnitIndex(input, e) else h == e)
      && Repeats(input, u.start, u.end, UnitIndex(input, h), ignoreCase)
    ensures EditionReference(CharactersOf(input), input.canonical, Some(s), e, backward, ignoreCase).Some?
  {
    var count := s.end - s.start;
    RepeatsOnUnits(input, s.start, s.end, h, ignoreCase);
    EqualRunsMeasure(input, s.start, h, count, ignoreCase);
    StartsOrdered(input, h + count, e);
  }

  /**
   The executor resolves a reference as the edition does, with positions counted in code units,
   if and only if it does not accept a position between the halves of a surrogate pair.
   */
  lemma UnitReference(input: Input, capture: Option<Span>, e: nat, backward: bool, ignoreCase: bool)
    requires InputOk(input) && input.unicode && FoldsCharacters(input.canonical)
    requires e <= |CharactersOf(input)| && (capture.Some? ==> SpanOk(CharacterList(input), capture.value))
    ensures capture.Some? ==> SpanOk(input, UnitSpan(input, capture.value))
    ensures var found := EditionReference(CharactersOf(input), input.canonical, capture, e, backward, ignoreCase);
      var i, c := UnitIndex(input, e), UnitCapture(input, capture);
      MatchCapture(input, c, i, backward, ignoreCase) == UnitFound(input, found)
      <==> !SplitsPair(input, c, i, backward, ignoreCase)
  {
    if capture.Some? {
      var s := capture.value;
      UnitSpanOk(input, s);
      var found := EditionReference(CharactersOf(input), input.canonical, capture, e, backward, ignoreCase);
      var i, u := UnitIndex(input, e), UnitSpan(input, s);
      var length := u.end - u.start;
      if found.Some? {
        EditionIsFound(input, s, e, backward, ignoreCase);
        CharacterStarts(input, found.value);
        RepeatsOnUnits(input, s.start, s.end, if backward then found.value else e, ignoreCase);
      } else if backward && length <= i && AlignedStart(input, i - length) == i - length
                && Repeats(input, u.start, u.end, i - length, ignoreCase) {
        AlignedIsFound(input, s, e, CharacterIndex(input, i - length), backward, ignoreCase);
      } else if !backward && i + length <= |input.text| && Repeats(input, u.start, u.end, i, ignoreCase) {
        AlignedIsFound(input, s, e, e, backward, ignoreCase);
      }
    }
  }

  /** Every trail surrogate is the second half of a pair. */
  predicate NoLoneTrail(text: seq<int>) {
    forall i | 0 <= i < |text| && IsTrail(text[i]) :: i > 0 && IsLead(text[i - 1])
  }

  /** Between the halves of a pair a text without unpaired trail surrogates repeats nothing. */
  lemma NothingIsSplit(input: Input, s: Span, e: nat, ignoreCase: bool)
    requires InputOk(input) && FoldsCharacters(input.canonical) && NoLoneTrail(input.text)
    requires s.start <= s.end <= |CharactersOf(input)| && e <= |CharactersOf(input)|
    ensures SpanOk(input, UnitSpan(input, s))
    ensures !SplitsPair(input, Some(UnitSpan(input, s)), UnitIndex(input, e), true, ignoreCase)
  {
    UnitSpanOk(input, s);
    CharacterStarts(input, s.start);
    CharacterStarts(input, e);
  }
}
