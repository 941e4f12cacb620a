/**
 The byte stream that `test262ManifestDigest` hashes (tools/test262-manifest.ts): every file's
 path and text behind their decimal byte lengths. A `char` stands for one byte of UTF-8; the
 hash itself is not part of this model.
 */
module ManifestDigest {
  import opened BatchIds

  datatype File = File(path: string, text: string)

  /** One field in front of the rest of a stream. */
  function Field(s: string, rest: string): string {
    Decimal(|s|) + ([':'] + (s + rest))
  }

  function Frame(f: File, rest: string): string {
    Field(f.path, Field(f.text, rest))
  }

  function Stream(files: seq<File>): string {
    if files == [] then "" else Frame(files[0], Stream(files[1..]))
  }

  lemma FieldAppends(s: string, rest: string)
    ensures Field(s, rest) == Decimal(|s|) + ":" + s + rest
  {
    AssociateThree(Decimal(|s|), ":", s, rest);
  }

  lemma AssociateThree(a: string, b: string, c: string, d: string)
    ensures a + (b + (c + d)) == a + b + c + d
  {}

  lemma FrameAppends(f: File, rest: string)
    ensures Frame(f, rest) == (Decimal(|f.path|) + ":" + f.path + Decimal(|f.text|) + ":" + f.text) + rest
  {
    FieldAppends(f.text, rest);
    FieldAppends(f.path, Field(f.text, rest));
  }

  lemma Associate(a: string, b: string, c: string)
    ensures a + (b + c) == a + b + c
  {}

  /** What the hash is fed, update by update. */
  method FeedDigest(files: seq<File>) returns (fed: string)
    ensures fed == Stream(files)
  {
    fed := "";
    for i := 0 to |files|
      invariant Stream(files) == fed + Stream(files[i..])
    {
      var header := Decimal(|files[i].path|) + ":" + files[i].path + Decimal(|files[i].text|) + ":";
      FrameAppends(files[i], Stream(files[i + 1..]));
      Associate(fed, header + files[i].text, Stream(files[i + 1..]));
      assert files[i..][1..] == files[i + 1..];
      fed := fed + (header + files[i].text);
    }
  }

  predicate Digits(s: string) {
    forall i | 0 <= i < |s| :: IsDigit(s[i])
  }

  /** A colon lies behind the digits. */
  lemma ColonBehind(digits: string, rest: string, i: nat)
    requires Digits(digits) && i < |digits + rest| && (digits + rest)[i] == ':'
    ensures i >= |digits|
  {}

  /** The first colon ends a number, so a length and what follows it can be told apart. */
  lemma NumberEnds(a: string, x: string, b: string, y: string)
    requires Digits(a) && Digits(b) && a + ([':'] + x) == b + ([':'] + y)
    ensures a == b && x == y
  {
    var s, t := a + ([':'] + x), b + ([':'] + y);
    assert s[|a|] == ':' && t[|b|] == ':';
    ColonBehind(b, [':'] + y, |a|);
    ColonBehind(a, [':'] + x, |b|);
    assert s[..|a|] == a && t[..|b|] == b;
    assert s[|a| + 1..] == x && t[|b| + 1..] == y;
  }

  /** A length-prefixed field can be read off the front of a stream in one way. */
  lemma FieldReads(p: string, x: string, q: string, y: string)
    requires Field(p, x) == Field(q, y)
    ensures p == q && x == y
  {
    NumberEnds(Decimal(|p|), p + x, Decimal(|q|), q + y);
    ValueOfDecimal(|p|);
    ValueOfDecimal(|q|);
    assert (p + x)[..|p|] == p && (q + y)[..|q|] == q;
    assert (p + x)[|p|..] == x && (q + y)[|q|..] == y;
  }

  lemma StreamIsEmpty(files: seq<File>)
    ensures Stream(files) == "" <==> files == []
  {}

  /** Different ordered file lists give different streams. */
  lemma {:induction false} StreamIsInjective(a: seq<File>, b: seq<File>)
    requires Stream(a) == Stream(b)
    ensures a == b
  {
    StreamIsEmpty(a);
    StreamIsEmpty(b);
    if a != [] {
      var x, y := Stream(a[1..]), Stream(b[1..]);
      FieldReads(a[0].path, Field(a[0].text, x), b[0].path, Field(b[0].text, y));
      FieldReads(a[0].text, x, b[0].text, y);
      StreamIsInjective(a[1..], b[1..]);
      assert a == [a[0]] + a[1..] && b == [b[0]] + b[1..];
    }
  }
}
