/** Batch identifiers: `observation-batch-` and a decimal number padded to two digits. */
module BatchIds {
  const STEM := "observation-batch-"

  predicate IsDigit(c: char) { '0' <= c <= '9' }

  function Digit(d: nat): (c: char)
    requires d < 10
    ensures IsDigit(c) && c as int == '0' as int + d
  {
    '0' + d as char
  }

  function Decimal(n: nat): (s: string)
    ensures |s| >= (if n < 10 then 1 else 2)
    ensures forall i | 0 <= i < |s| :: IsDigit(s[i])
  {
    (if n < 10 then "" else Decimal(n / 10)) + [Digit(n % 10)]
  }

  function PadTwo(s: string): string {
    if |s| < 2 then seq(2 - |s|, _ => '0') + s else s
  }

  function BatchId(index: nat): string {
    STEM + PadTwo(Decimal(index + 1))
  }

  /** The shape an identifier must have; a split batch carries one lower-case letter. */
  predicate IsBatchId(id: string) {
    STEM <= id && IsNumber(WithoutLetter(id[|STEM|..]))
  }

  function WithoutLetter(s: string): string {
    if s != [] && 'a' <= s[|s| - 1] <= 'z' then s[..|s| - 1] else s
  }

  predicate IsNumber(s: string) {
    |s| >= 2 && forall i | 0 <= i < |s| :: IsDigit(s[i])
  }

  /** Digits, and perhaps a lower-case letter behind them. */
  ghost predicate DigitsAndLetter(digits: string, letter: string) {
    && |digits| >= 2 && (forall i | 0 <= i < |digits| :: '0' <= digits[i] <= '9')
    && (letter == "" || (|letter| == 1 && 'a' <= letter[0] <= 'z'))
  }

  lemma NumberHasDigits(digits: string)
    requires IsNumber(digits)
    ensures |digits| >= 2 && forall i | 0 <= i < |digits| :: '0' <= digits[i] <= '9'
  {
    forall i | 0 <= i < |digits| ensures '0' <= digits[i] <= '9' {
      assert IsDigit(digits[i]);
    }
  }

  lemma LetterIsDropped(digits: string, letter: string)
    requires DigitsAndLetter(digits, letter)
    ensures WithoutLetter(digits + letter) == digits && IsNumber(digits)
  {
    assert forall i | 0 <= i < |digits| :: IsDigit(digits[i]);
    if letter == "" {
      assert digits + letter == digits;
    } else {
      assert (digits + letter)[|digits|] == letter[0];
    }
  }

  /** An identifier is the stem, two digits or more, and one lower-case letter or none. */
  lemma BatchIdShape(id: string)
    ensures IsBatchId(id) <==>
      exists digits, letter :: DigitsAndLetter(digits, letter) && id == "observation-batch-" + digits + letter
  {
    if IsBatchId(id) {
      var rest := id[|STEM|..];
      var digits := WithoutLetter(rest);
      var letter := rest[|digits|..];
      NumberHasDigits(digits);
      assert rest == digits + letter && id == STEM + rest;
      assert STEM + rest == STEM + digits + letter;
    }
    if digits, letter :| DigitsAndLetter(digits, letter) && id == STEM + digits + letter {
      assert id[|STEM|..] == digits + letter;
      LetterIsDropped(digits, letter);
    }
  }

  function Value(s: string): int {
    if s == [] then 0 else 10 * Value(s[..|s| - 1]) + (s[|s| - 1] as int - '0' as int)
  }

  lemma ValueAppend(s: string, d: nat)
    requires d < 10
    ensures Value(s + [Digit(d)]) == 10 * Value(s) + d
  {
    assert (s + [Digit(d)])[..|s|] == s;
  }

  lemma {:induction false} ValueOfDecimal(n: nat)
    ensures Value(Decimal(n)) == n
  {
    if n < 10 {
      ValueAppend("", n);
    } else {
      ValueOfDecimal(n / 10);
      ValueAppend(Decimal(n / 10), n % 10);
    }
  }

  lemma ValueOfPadded(n: nat)
    ensures Value(PadTwo(Decimal(n))) == n
  {
    ValueOfDecimal(n);
    var s := Decimal(n);
    if n < 10 {
      var p := PadTwo(s);
      assert |s| == 1 && p == ['0'] + s;
      assert p[..1] == ['0'] && p[..1][..0] == "";
    }
  }

  lemma ConcatInjective(stem: string, x: string, y: string)
    requires stem + x == stem + y
    ensures x == y
  {
    assert (stem + x)[|stem|..] == x && (stem + y)[|stem|..] == y;
  }

  lemma PaddedDigits(n: nat)
    ensures var s := PadTwo(Decimal(n)); |s| >= 2 && forall i | 0 <= i < |s| :: IsDigit(s[i])
  {}

  lemma BatchIdWellFormed(i: nat)
    ensures IsBatchId(BatchId(i))
  {
    var rest := PadTwo(Decimal(i + 1));
    PaddedDigits(i + 1);
    assert BatchId(i)[|STEM|..] == rest;
    assert IsDigit(rest[|rest| - 1]);
  }

  /** No two positions share an identifier. */
  lemma BatchIdsDistinct(i: nat, j: nat)
    requires BatchId(i) == BatchId(j)
    ensures i == j
  {
    ConcatInjective(STEM, PadTwo(Decimal(i + 1)), PadTwo(Decimal(j + 1)));
    ValueOfPadded(i + 1);
    ValueOfPadded(j + 1);
  }

  lemma {:induction false} DecimalStarts(n: nat)
    requires n > 0
    ensures Decimal(n)[0] != '0'
  {
    if n >= 10 {
      DecimalStarts(n / 10);
    }
  }

  /** The decimal digits of a number, at least two of them. */
  ghost predicate Writes(digits: string, n: nat) {
    && |digits| >= 2 && (forall i | 0 <= i < |digits| :: '0' <= digits[i] <= '9')
    && (|digits| > 2 ==> digits[0] != '0') && Value(digits) == n
  }

  /** The number in an identifier is its position counted from one. */
  lemma BatchIdNumber(index: nat)
    ensures exists digits :: BatchId(index) == "observation-batch-" + digits && Writes(digits, index + 1)
  {
    var s := PadTwo(Decimal(index + 1));
    PaddedDigits(index + 1);
    ValueOfPadded(index + 1);
    DecimalStarts(index + 1);
    forall i | 0 <= i < |s| ensures '0' <= s[i] <= '9' {
      assert IsDigit(s[i]);
    }
    if |s| > 2 {
      assert s == Decimal(index + 1);
    }
    assert Writes(s, index + 1) && BatchId(index) == "observation-batch-" + s;
  }
}
