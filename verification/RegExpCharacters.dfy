/**
 The list of characters that a text encodes, and where each of them starts in the text: the two
 ways to count positions that section 22.2.7.3 of ECMA-262 (GetStringIndex) relates.
 */
module RegExpCharacters {
  import opened Basics
  import opened RegExpSyntax

  /** The characters from `i` on. */
  function CharactersFrom(input: Input, i: nat): seq<int>
    decreases |input.text| - i
  {
    if i >= |input.text| then [] else [CharacterAt(input, i)] + CharactersFrom(input, i + WidthAt(input, i))
  }

  function CharactersOf(input: Input): seq<int> {
    CharactersFrom(input, 0)
  }

  /** The same text as the edition's matchers see it: a list of characters, read one by one. */
  function CharacterList(input: Input): Input {
    Input(CharactersOf(input), false, input.canonical)
  }

  /** Where the `k`-th character behind position `i` starts. */
  function UnitIndexFrom(input: Input, i: nat, k: nat): (p: nat)
    requires InputOk(input) && i <= |input.text|
    ensures p <= |input.text|
    decreases k
  {
    if k == 0 || i == |input.text| then i
    else
      AdvanceStays(input, i, false);
      UnitIndexFrom(input, i + WidthAt(input, i), k - 1)
  }

  /** Where the `k`-th character starts; the number of characters gives the end of the text. */
  function UnitIndex(input: Input, k: nat): (p: nat)
    requires InputOk(input)
    ensures p <= |input.text|
  {
    UnitIndexFrom(input, 0, k)
  }

  /** What holds of the `k`-th character behind a position. */
  ghost predicate Located(input: Input, i: nat, k: nat)
    requires InputOk(input) && i <= |input.text|
  {
    var p := UnitIndexFrom(input, i, k);
    && AlignedStart(input, p) == p
    && (k == |CharactersFrom(input, i)| ==> p == |input.text|)
    && (k < |CharactersFrom(input, i)| ==>
          && p < |input.text| && CharacterAt(input, p) == CharactersFrom(input, i)[k]
          && UnitIndexFrom(input, i, k + 1) == p + WidthAt(input, p))
  }

  lemma {:induction false} EachIsLocated(input: Input, i: nat, k: nat)
    requires InputOk(input) && i <= |input.text| && AlignedStart(input, i) == i && k <= |CharactersFrom(input, i)|
    ensures Located(input, i, k)
    decreases k
  {
    if i < |input.text| {
      NextIsAligned(input, i);
      var next := i + WidthAt(input, i);
      if k > 0 {
        EachIsLocated(input, next, k - 1);
      } else {
        assert UnitIndexFrom(input, next, 0) == next;
      }
    }
  }

  /** The characters follow each other without gaps. */
  lemma CharacterStarts(input: Input, k: nat)
    requires InputOk(input) && k <= |CharactersOf(input)|
    ensures UnitIndex(input, 0) == 0
    ensures AlignedStart(input, UnitIndex(input, k)) == UnitIndex(input, k)
    ensures k == |CharactersOf(input)| <==> UnitIndex(input, k) == |input.text|
    ensures k < |CharactersOf(input)| ==>
      (&& UnitIndex(input, k) < |input.text|
       && CharacterAt(input, UnitIndex(input, k)) == CharactersOf(input)[k]
       && UnitIndex(input, k + 1) == UnitIndex(input, k) + WidthAt(input, UnitIndex(input, k)))
  {
    EachIsLocated(input, 0, k);
  }

  /** The character before the start of a character is the one before it in the list. */
  lemma CharacterEnds(input: Input, k: nat)
    requires InputOk(input) && 0 < k <= |CharactersOf(input)|
    ensures UnitIndex(input, k) - WidthBefore(input, UnitIndex(input, k)) == UnitIndex(input, k - 1)
  {
    CharacterStarts(input, k - 1);
  }

  lemma {:induction false} StartsIncrease(input: Input, j: nat, k: nat)
    requires InputOk(input) && j <= k <= |CharactersOf(input)|
    ensures UnitIndex(input, j) + (k - j) <= UnitIndex(input, k)
    decreases k - j
  {
    if j < k {
      CharacterStarts(input, k - 1);
      StartsIncrease(input, j, k - 1);
    }
  }

  /** Different characters start at different places, in their order. */
  lemma StartsOrdered(input: Input, j: nat, k: nat)
    requires InputOk(input) && j <= |CharactersOf(input)| && k <= |CharactersOf(input)|
    ensures j < k <==> UnitIndex(input, j) < UnitIndex(input, k)
    ensures j == k <==> UnitIndex(input, j) == UnitIndex(input, k)
  {
    if j < k {
      StartsIncrease(input, j, k);
    } else {
      StartsIncrease(input, k, j);
    }
  }

  /** The number of characters between two aligned positions. */
  function CharactersBetween(input: Input, i: nat, p: nat): (k: nat)
    requires InputOk(input) && i <= p <= |input.text|
    requires AlignedStart(input, i) == i && AlignedStart(input, p) == p
    ensures k <= |CharactersFrom(input, i)| && UnitIndexFrom(input, i, k) == p
    decreases p - i
  {
    if i == p then 0
    else
      NextIsAligned(input, i);
      1 + CharactersBetween(input, i + WidthAt(input, i), p)
  }

  /** Which character starts at an aligned position: every such position is the start of one, or the end. */
  function CharacterIndex(input: Input, p: nat): (k: nat)
    requires InputOk(input) && p <= |input.text| && AlignedStart(input, p) == p
    ensures k <= |CharactersOf(input)| && UnitIndex(input, k) == p
  {
    CharactersBetween(input, 0, p)
  }

  /** Without `u` and `v` the characters are the code units. */
  lemma {:induction false} UnitsAreCharacters(input: Input, i: nat)
    requires !input.unicode && i <= |input.text|
    ensures CharactersFrom(input, i) == input.text[i..]
    ensures forall k: nat | i + k <= |input.text| :: UnitIndexFrom(input, i, k) == i + k
    decreases |input.text| - i
  {
    if i < |input.text| {
      UnitsAreCharacters(input, i + 1);
      forall k: nat | i + k <= |input.text| ensures UnitIndexFrom(input, i, k) == i + k {
        if k > 0 {
          assert UnitIndexFrom(input, i + 1, k - 1) == i + 1 + (k - 1);
        }
      }
    }
  }

  // ----- UTF-16 -----

  predicate IsCodePoint(c: int) {
    0 <= c <= 0x10FFFF
  }

  /** The code units of a code point, section 11.1.1 of ECMA-262 (UTF16EncodeCodePoint). */
  function EncodePoint(c: int): seq<int>
    requires IsCodePoint(c)
  {
    if c <= 0xFFFF then [c] else [0xD800 + (c - 0x10000) / 0x400, 0xDC00 + (c - 0x10000) % 0x400]
  }

  function Encode(cs: seq<int>): seq<int>
    requires forall i | 0 <= i < |cs| :: IsCodePoint(cs[i])
  {
    if cs == [] then [] else EncodePoint(cs[0]) + Encode(cs[1..])
  }

  /** Code points in which no two surrogates would read as a pair. */
  predicate Encodable(cs: seq<int>) {
    && (forall i | 0 <= i < |cs| :: IsCodePoint(cs[i]))
    && forall i, j | 0 <= i && j == i + 1 < |cs| :: !(IsLead(cs[i]) && IsTrail(cs[j]))
  }

  lemma EncodedPoint(input: Input, i: nat, c: int)
    requires input.unicode && IsCodePoint(c) && i + |EncodePoint(c)| <= |input.text|
    requires input.text[i..i + |EncodePoint(c)|] == EncodePoint(c)
    requires IsLead(c) ==> i + 1 == |input.text| || !IsTrail(input.text[i + 1])
    ensures CharacterAt(input, i) == c && WidthAt(input, i) == |EncodePoint(c)|
  {
    var units := EncodePoint(c);
    assert forall k | 0 <= k < |units| :: input.text[i + k] == units[k];
  }

  lemma FirstUnit(cs: seq<int>)
    requires Encodable(cs)
    ensures (Encode(cs) == []) == (cs == [])
    ensures cs != [] ==> IsTrail(Encode(cs)[0]) == IsTrail(cs[0])
  {}

  lemma {:induction false} DecodesFrom(input: Input, i: nat, cs: seq<int>)
    requires input.unicode && Encodable(cs) && i <= |input.text| && input.text[i..] == Encode(cs)
    ensures CharactersFrom(input, i) == cs
    decreases |cs|
  {
    FirstUnit(cs);
    if cs != [] {
      var units, rest := EncodePoint(cs[0]), cs[1..];
      FirstUnit(rest);
      assert Encode(cs) == units + Encode(rest);
      assert input.text[i..i + |units|] == Encode(cs)[..|units|] == units;
      assert input.text[i + |units|..] == Encode(cs)[|units|..] == Encode(rest);
      assert rest != [] ==> input.text[i + |units|] == Encode(rest)[0];
      EncodedPoint(input, i, cs[0]);
      DecodesFrom(input, i + |units|, rest);
    }
  }

  /** A text that encodes code points has exactly those characters. */
  lemma EncodedCharacters(cs: seq<int>, canonical: int -> int)
    requires Encodable(cs)
    ensures CharactersOf(Input(Encode(cs), true, canonical)) == cs
  {
    DecodesFrom(Input(Encode(cs), true, canonical), 0, cs);
  }

  lemma EncodesAt(input: Input, i: nat)
    requires input.unicode && InputOk(input) && i < |input.text|
    ensures IsCodePoint(CharacterAt(input, i)) && i + WidthAt(input, i) <= |input.text|
    ensures EncodePoint(CharacterAt(input, i)) == input.text[i..i + WidthAt(input, i)]
  {
    AdvanceStays(input, i, false);
    var c := CharacterAt(input, i);
    if c > 0xFFFF {
      var high, low := input.text[i] - 0xD800, input.text[i + 1] - 0xDC00;
      assert c - 0x10000 == high * 0x400 + low;
    }
  }

  lemma {:induction false} EncodesFrom(input: Input, i: nat)
    requires input.unicode && InputOk(input) && i <= |input.text| && AlignedStart(input, i) == i
    ensures Encodable(CharactersFrom(input, i)) && Encode(CharactersFrom(input, i)) == input.text[i..]
    decreases |input.text| - i
  {
    if i < |input.text| {
      var next := i + WidthAt(input, i);
      NextIsAligned(input, i);
      EncodesAt(input, i);
      EncodesFrom(input, next);
      var cs := CharactersFrom(input, i);
      assert cs[1..] == CharactersFrom(input, next);
      assert input.text[i..] == input.text[i..next] + input.text[next..];
      assert next < |input.text| ==> cs[1] == CharacterAt(input, next);
    }
  }

  /** Every text encodes its characters. */
  lemma CharactersEncode(input: Input)
    requires input.unicode && InputOk(input)
    ensures Encodable(CharactersOf(input)) && Encode(CharactersOf(input)) == input.text
  {
    EncodesFrom(input, 0);
  }
}
