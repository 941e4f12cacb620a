/**
 Code-unit order on strings, prefixes, and sorted duplicate-free lists: the order that
 `compareCodeUnits` and `sortedUnique` give the planning tools.
 A `char` stands for one code unit.
 */
module CodeUnits {

  /** `left < right` in code-unit order. */
  predicate Less(left: string, right: string) {
    if right == [] then false
    else if left == [] then true
    else left[0] < right[0] || (left[0] == right[0] && Less(left[1..], right[1..]))
  }

  /** Up to `k` the strings are the same; there the left one ends, or has the smaller code unit. */
  ghost predicate Precedes(left: string, right: string, k: nat) {
    k <= |left| && k < |right| && left[..k] == right[..k] && (k == |left| || left[k] < right[k])
  }

  lemma PrecedesTogether(left: string, right: string, k: nat)
    requires Precedes(left, right, k) && k > 0
    ensures left != [] && right != [] && left[0] == right[0]
  {
    assert left[0] == left[..k][0] && right[0] == right[..k][0];
  }

  /** The order decides by the first code unit that differs, and puts a proper prefix first. */
  lemma {:induction false} LessIff(left: string, right: string)
    ensures Less(left, right) <==> exists k: nat :: Precedes(left, right, k)
  {
    if left == [] || right == [] || left[0] != right[0] {
      assert right != [] && (left == [] || left[0] < right[0]) ==> Precedes(left, right, 0);
      if k: nat :| Precedes(left, right, k) && k > 0 {
        PrecedesTogether(left, right, k);
      }
    } else {
      LessIff(left[1..], right[1..]);
      forall k: nat | Precedes(left[1..], right[1..], k) ensures Precedes(left, right, k + 1) {
        assert left[..k + 1] == [left[0]] + left[1..][..k] && right[..k + 1] == [right[0]] + right[1..][..k];
      }
      forall k: nat | Precedes(left, right, k) && k > 0 ensures Precedes(left[1..], right[1..], k - 1) {
        assert left[1..][..k - 1] == left[..k][1..] && right[1..][..k - 1] == right[..k][1..];
      }
    }
  }

  lemma LessIrreflexive(a: string)
    ensures !Less(a, a)
  {}

  lemma LessTransitive(a: string, b: string, c: string)
    requires Less(a, b) && Less(b, c)
    ensures Less(a, c)
  {}

  lemma LessTotal(a: string, b: string)
    ensures a == b || Less(a, b) || Less(b, a)
  {
    if a != [] && b != [] && a[0] == b[0] {
      LessTotal(a[1..], b[1..]);
      assert a == [a[0]] + a[1..] && b == [b[0]] + b[1..];
    }
  }

  /** The strings that start with one prefix form a contiguous run of the order. */
  lemma {:induction false} PrefixIsConvex(p: string, a: string, b: string, c: string)
    requires p <= a && p <= c
    requires Less(a, b) && Less(b, c)
    ensures p <= b
  {
    if p != [] {
      PrefixIsConvex(p[1..], a[1..], b[1..], c[1..]);
      assert b == [b[0]] + b[1..];
    }
  }

  /** Two prefixes of one string are comparable. */
  lemma PrefixesNest(p: string, q: string, s: string)
    requires p <= s && q <= s && |p| <= |q|
    ensures p <= q
  {}

  ghost predicate Ascending(s: seq<string>) {
    forall i, j | 0 <= i < j < |s| :: Less(s[i], s[j])
  }

  /** Insert a string into an ascending list unless it is already there. */
  function InsertUnique(x: string, s: seq<string>): (r: seq<string>)
    ensures forall y :: y in r <==> y == x || y in s
    ensures Ascending(s) ==> Ascending(r)
  {
    if s == [] then [x]
    else if x == s[0] then s
    else if Less(x, s[0]) then
      InsertFront(x, s);
      [x] + s
    else
      LessTotal(x, s[0]);
      var rest := InsertUnique(x, s[1..]);
      assert Ascending(s) ==> forall y | y in rest :: Less(s[0], y) by {
        assert forall y | y in s[1..] :: exists j | 1 <= j < |s| :: s[j] == y;
      }
      assert forall y | y in s :: y == s[0] || y in s[1..];
      [s[0]] + rest
  }

  lemma InsertFront(x: string, s: seq<string>)
    requires s != [] && Less(x, s[0])
    ensures Ascending(s) ==> Ascending([x] + s)
  {
    if Ascending(s) {
      forall j | 0 <= j < |s| ensures Less(x, s[j]) {
        if j > 0 {
          LessTransitive(x, s[0], s[j]);
        }
      }
    }
  }

  /** The distinct members of a list in ascending order. */
  function SortedUnique(xs: seq<string>): (r: seq<string>)
    ensures forall y :: y in r <==> y in xs
    ensures Ascending(r)
  {
    if xs == [] then []
    else
      assert forall y | y in xs :: y in xs[..|xs| - 1] || y == xs[|xs| - 1];
      InsertUnique(xs[|xs| - 1], SortedUnique(xs[..|xs| - 1]))
  }
}
