/**
 Which lines `parseUnicodeDataFile` (tools/unicode-tables.ts) accepts, as a rule about the whole
 file: no line is bad, code points increase, and range starts and ends pair up.
 */
module UnicodeDataRules {
  import opened Basics
  import opened CodePointSets
  import opened UnicodeDataFile

  /** A range start and the end that follows it, blank lines aside. */
  ghost predicate Pairs(lines: seq<Line>, i: nat, j: nat) {
    && i < j < |lines| && lines[i].Line? && lines[j].Line?
    && lines[i].name.First? && lines[j].name.Last? && lines[i].name.tag.Some? && lines[i].name.tag == lines[j].name.tag
    && SameKind(lines[i], lines[j]) && BlankBetween(lines, i, j)
  }

  ghost predicate HasEnd(lines: seq<Line>, i: nat) {
    exists j :: Pairs(lines, i, j)
  }

  ghost predicate HasStart(lines: seq<Line>, j: nat) {
    exists i :: Pairs(lines, i, j)
  }

  /** A blank line, or one that parses to a code point above all before it. */
  ghost predicate Regular(lines: seq<Line>, n: nat)
    requires n < |lines|
  {
    && !lines[n].Bad?
    && (lines[n].Line? ==>
          && IsCodePoint(lines[n].codePoint)
          && (forall k | 0 <= k < n && lines[k].Line? :: lines[k].codePoint < lines[n].codePoint)
          && (lines[n].name.First? ==> lines[n].name.tag.Some?)
          && (lines[n].name.Last? ==> HasStart(lines, n)))
  }

  ghost predicate Starts(lines: seq<Line>, n: nat)
    requires n < |lines|
  {
    lines[n].Line? && lines[n].name.First?
  }

  /** Nothing but blank lines follows a range start. */
  ghost predicate Open(lines: seq<Line>, n: nat)
    requires n < |lines|
  {
    Starts(lines, n) && BlankBetween(lines, n, |lines|)
  }

  /** Line `n` is regular, and a range start there has its end or may still get it. */
  ghost predicate FitsSoFar(lines: seq<Line>, n: nat)
    requires n < |lines|
  {
    Regular(lines, n) && (Starts(lines, n) ==> HasEnd(lines, n) || Open(lines, n))
  }

  /** Line `n` is regular, and a range start there has its end. */
  ghost predicate Fits(lines: seq<Line>, n: nat)
    requires n < |lines|
  {
    Regular(lines, n) && (Starts(lines, n) ==> HasEnd(lines, n))
  }

  ghost predicate AllSoFar(lines: seq<Line>) {
    forall n | 0 <= n < |lines| :: FitsSoFar(lines, n)
  }

  // ----- The state after some lines -----

  /** The last code point read is the largest. */
  lemma {:induction false} PreviousIsLargest(lines: seq<Line>)
    requires After(lines).Some?
    ensures var previous := After(lines).value.previous;
      && (forall k | 0 <= k < |lines| && lines[k].Line? :: lines[k].codePoint <= previous)
      && (previous == -1 || exists k :: 0 <= k < |lines| && lines[k].Line? && lines[k].codePoint == previous)
  {
    if lines != [] {
      var init := lines[..|lines| - 1];
      PreviousIsLargest(init);
      var before := After(init).value.previous;
      if lines[|lines| - 1].Blank? && before != -1 {
        var k :| 0 <= k < |init| && init[k].Line? && init[k].codePoint == before;
        assert lines[k] == init[k];
      }
    }
  }

  /** A range is pending exactly when some range start is open. */
  lemma PendingIsOpen(lines: seq<Line>)
    requires After(lines).Some?
    ensures After(lines).value.pending.Some? <==> exists i :: 0 <= i < |lines| && Open(lines, i)
  {
    if After(lines).value.pending.Some? {
      var i := PendingOrigin(lines);
      assert Open(lines, i);
    }
    if i :| 0 <= i < |lines| && Open(lines, i) {
      PendingWaits(lines, i);
    }
  }

  // ----- One more line -----

  lemma EarlierPairs(lines: seq<Line>, i: nat, j: nat)
    requires j < |lines| - 1
    ensures Pairs(lines, i, j) <==> Pairs(lines[..|lines| - 1], i, j)
  {
    var init := lines[..|lines| - 1];
    if Pairs(lines, i, j) {
      assert init[i] == lines[i] && init[j] == lines[j];
    }
    if Pairs(init, i, j) {
      assert init[i] == lines[i] && init[j] == lines[j];
    }
  }

  lemma EarlierRegular(lines: seq<Line>, n: nat)
    requires n < |lines| - 1
    ensures Regular(lines, n) <==> Regular(lines[..|lines| - 1], n)
  {
    var init := lines[..|lines| - 1];
    assert init[n] == lines[n];
    assert forall k | 0 <= k < n :: init[k] == lines[k];
    forall i: nat ensures Pairs(lines, i, n) <==> Pairs(init, i, n) {
      EarlierPairs(lines, i, n);
    }
  }

  lemma EarlierOpen(lines: seq<Line>, n: nat)
    requires n < |lines| - 1
    ensures Open(lines, n) <==> Open(lines[..|lines| - 1], n) && lines[|lines| - 1].Blank?
  {
    var init := lines[..|lines| - 1];
    assert init[n] == lines[n];
    assert forall k | 0 <= k < |init| :: init[k] == lines[k];
  }

  /** A start has its end among the lines if it had it before, or the last line is that end. */
  lemma EarlierHasEnd(lines: seq<Line>, n: nat)
    requires n < |lines| - 1
    ensures HasEnd(lines, n) <==> HasEnd(lines[..|lines| - 1], n) || Pairs(lines, n, |lines| - 1)
    ensures Pairs(lines, n, |lines| - 1) ==> Open(lines[..|lines| - 1], n)
  {
    var init := lines[..|lines| - 1];
    if j: nat :| Pairs(lines, n, j) {
      if j < |lines| - 1 {
        EarlierPairs(lines, n, j);
      }
    }
    if j: nat :| Pairs(init, n, j) {
      EarlierPairs(lines, n, j);
    }
    assert forall k | 0 <= k < |init| :: init[k] == lines[k];
  }

  /** Lines fit so far only if they did before the last one. */
  lemma FitsEarlier(lines: seq<Line>, n: nat)
    requires n < |lines| - 1 && FitsSoFar(lines, n)
    ensures FitsSoFar(lines[..|lines| - 1], n)
  {
    EarlierRegular(lines, n);
    EarlierOpen(lines, n);
    EarlierHasEnd(lines, n);
  }

  /** What the last line must meet: itself regular, and ending any open start unless it is blank. */
  ghost predicate Extends(lines: seq<Line>)
    requires lines != []
  {
    var last := |lines| - 1;
    && Regular(lines, last)
    && (!lines[last].Blank? ==> forall n | 0 <= n < last && Open(lines[..last], n) :: Pairs(lines, n, last))
  }

  lemma FitsLater(lines: seq<Line>, n: nat)
    requires lines != [] && n < |lines| && Extends(lines) && (n < |lines| - 1 ==> FitsSoFar(lines[..|lines| - 1], n))
    ensures FitsSoFar(lines, n)
  {
    if n < |lines| - 1 {
      EarlierRegular(lines, n);
      EarlierOpen(lines, n);
      EarlierHasEnd(lines, n);
    }
  }

  /** An open start that does not stay open has just got its end. */
  lemma OpenIsClosed(lines: seq<Line>, n: nat)
    requires n < |lines| - 1 && FitsSoFar(lines, n) && Open(lines[..|lines| - 1], n) && !lines[|lines| - 1].Blank?
    ensures Pairs(lines, n, |lines| - 1)
  {
    var init := lines[..|lines| - 1];
    EarlierOpen(lines, n);
    EarlierHasEnd(lines, n);
    if j: nat :| Pairs(init, n, j) {
      assert false;
    }
  }

  lemma AllExtend(lines: seq<Line>)
    requires lines != []
    ensures AllSoFar(lines) <==> AllSoFar(lines[..|lines| - 1]) && Extends(lines)
  {
    var init := lines[..|lines| - 1];
    if AllSoFar(lines) {
      forall n | 0 <= n < |init| ensures FitsSoFar(init, n) {
        FitsEarlier(lines, n);
      }
      if !lines[|init|].Blank? {
        forall n | 0 <= n < |init| && Open(init, n) ensures Pairs(lines, n, |init|) {
          OpenIsClosed(lines, n);
        }
      }
      assert FitsSoFar(lines, |init|);
    }
    if AllSoFar(init) && Extends(lines) {
      forall n | 0 <= n < |lines| ensures FitsSoFar(lines, n) {
        FitsLater(lines, n);
      }
    }
  }

  /** The line closes the pending range exactly when it pairs with the open start. */
  lemma ClosesIff(lines: seq<Line>, i: nat)
    requires lines != [] && var init := lines[..|lines| - 1];
      After(init).Some? && After(init).value.pending.Some? && Waits(init, i, After(init).value.pending.value)
    requires lines[|lines| - 1].Line? && lines[|lines| - 1].name.Last?
    ensures Closes(After(lines[..|lines| - 1]).value.pending, lines[|lines| - 1]) <==> Pairs(lines, i, |lines| - 1)
  {
    var init := lines[..|lines| - 1];
    assert forall k | 0 <= k < |init| :: init[k] == lines[k];
  }

  lemma OneOpen(lines: seq<Line>, i: nat, n: nat)
    requires i < |lines| && n < |lines| && Open(lines, i) && Open(lines, n)
    ensures i == n
  {}

  /** The step accepts the last line exactly when it extends the lines before. */
  lemma StepIff(lines: seq<Line>)
    requires lines != [] && After(lines[..|lines| - 1]).Some?
    ensures Step(After(lines[..|lines| - 1]).value, lines[|lines| - 1]).Some? <==> Extends(lines)
  {
    var last := |lines| - 1;
    var init, line := lines[..last], lines[last];
    var s := After(init).value;
    PreviousIsLargest(init);
    PendingIsOpen(init);
    if line.Line? {
      if IsCodePoint(line.codePoint) {
        CodePointIsNew(lines);
      }
      if line.name.Last? {
        LastIff(lines);
      } else {
        NoPairs(lines, last);
      }
    }
  }

  lemma CodePointIsNew(lines: seq<Line>)
    requires lines != [] && After(lines[..|lines| - 1]).Some?
    requires lines[|lines| - 1].Line? && IsCodePoint(lines[|lines| - 1].codePoint)
    ensures var last := |lines| - 1;
      lines[last].codePoint > After(lines[..last]).value.previous <==>
        forall k | 0 <= k < last && lines[k].Line? :: lines[k].codePoint < lines[last].codePoint
  {
    var last := |lines| - 1;
    var init := lines[..last];
    PreviousIsLargest(init);
    assert forall k | 0 <= k < last :: init[k] == lines[k];
  }

  /** A line that ends no range pairs with nothing. */
  lemma NoPairs(lines: seq<Line>, j: nat)
    requires j < |lines| && !(lines[j].Line? && lines[j].name.Last?)
    ensures forall n: nat :: !Pairs(lines, n, j)
  {}

  /** A range end is accepted exactly when it pairs with a start, which is then the only open one. */
  lemma LastIff(lines: seq<Line>)
    requires lines != [] && After(lines[..|lines| - 1]).Some?
    requires lines[|lines| - 1].Line? && lines[|lines| - 1].name.Last?
    ensures var last := |lines| - 1;
      Closes(After(lines[..last]).value.pending, lines[last]) <==>
        HasStart(lines, last) && forall n | 0 <= n < last && Open(lines[..last], n) :: Pairs(lines, n, last)
  {
    var last := |lines| - 1;
    var init := lines[..last];
    var pending := After(init).value.pending;
    if pending.Some? {
      var i := PendingOrigin(init);
      ClosesIff(lines, i);
      assert Open(init, i);
      forall n | 0 <= n < last && Open(init, n) ensures n == i {
        OneOpen(init, i, n);
      }
    }
    if i: nat :| Pairs(lines, i, last) {
      EarlierHasEnd(lines, i);
      PendingWaits(init, i);
      ClosesIff(lines, i);
    }
  }

  // ----- Which files are accepted -----

  lemma {:induction false} AfterIff(lines: seq<Line>)
    ensures After(lines).Some? <==> AllSoFar(lines)
  {
    if lines != [] {
      AfterIff(lines[..|lines| - 1]);
      AllExtend(lines);
      if After(lines[..|lines| - 1]).Some? {
        StepIff(lines);
      }
    }
  }

  /** An open start has no end. */
  lemma OpenHasNoEnd(lines: seq<Line>, i: nat)
    requires i < |lines| && Open(lines, i)
    ensures !HasEnd(lines, i)
  {
    if j: nat :| Pairs(lines, i, j) {
      assert false;
    }
  }

  /**
   A file is accepted if and only if no line is bad, its code points are valid and increase, and
   range starts and ends come in matching pairs with only blank lines between.
   */
  lemma AcceptedIff(lines: seq<Line>)
    ensures Accepted(lines) <==> forall n | 0 <= n < |lines| :: Fits(lines, n)
  {
    AfterIff(lines);
    if Accepted(lines) {
      PendingIsOpen(lines);
      forall n | 0 <= n < |lines| ensures Fits(lines, n) {
        assert FitsSoFar(lines, n);
      }
    }
    if forall n | 0 <= n < |lines| :: Fits(lines, n) {
      forall n | 0 <= n < |lines| ensures FitsSoFar(lines, n) && !Open(lines, n) {
        assert Fits(lines, n);
        if Open(lines, n) {
          OpenHasNoEnd(lines, n);
        }
      }
      PendingIsOpen(lines);
    }
  }

  // ----- The reader -----

  lemma {:induction false} RejectedStays(lines: seq<Line>, n: nat)
    requires n <= |lines| && After(lines[..n]) == None
    ensures After(lines) == None
    decreases |lines|
  {
    if n == |lines| {
      assert lines[..n] == lines;
    } else {
      assert lines[..|lines| - 1][..n] == lines[..n];
      RejectedStays(lines[..|lines| - 1], n);
    }
  }

  /** Read the lines; a refusal names the first line that cannot follow those before it. */
  method ParseUnicodeDataFile(lines: seq<Line>) returns (r: Parsed)
    ensures r.Parsed? <==> Accepted(lines)
    ensures r.Parsed? <==> forall n | 0 <= n < |lines| :: Fits(lines, n)
    ensures r.Parsed? ==> r == Parsed(After(lines).value.ranges, After(lines).value.order)
    ensures r.Failed? ==> 0 < r.line <= |lines| && AllSoFar(lines[..r.line - 1]) && !AllSoFar(lines[..r.line])
    ensures r.EndsInsideRange? <==> AllSoFar(lines) && exists n :: 0 <= n < |lines| && Open(lines, n)
  {
    AcceptedIff(lines);
    var s := START;
    for i := 0 to |lines|
      invariant After(lines[..i]) == Some(s)
    {
      assert lines[..i + 1][..i] == lines[..i];
      var next := Step(s, lines[i]);
      if next == None {
        RejectedStays(lines, i + 1);
        AfterIff(lines[..i]);
        AfterIff(lines[..i + 1]);
        AfterIff(lines);
        return Failed(i + 1);
      }
      s := next.value;
    }
    assert lines[..|lines|] == lines;
    AfterIff(lines);
    PendingIsOpen(lines);
    if s.pending.Some? {
      return EndsInsideRange;
    }
    r := Parsed(s.ranges, s.order);
  }
}
