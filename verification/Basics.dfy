/** Optional values, and facts about finite sets and duplicate-free lists. */
module Basics {

  datatype Option<+T> = None | Some(value: T)

  lemma HasMember<T>(s: set<T>) returns (x: T)
    requires s != {}
    ensures x in s
  {
    x :| x in s;
  }

  lemma SubsetCardinality<T>(a: set<T>, b: set<T>)
    requires a <= b
    ensures |a| <= |b|
  {
    assert b == a + (b - a);
  }

  ghost predicate Distinct<T>(s: seq<T>) {
    forall i, j | 0 <= i < j < |s| :: s[i] != s[j]
  }

  lemma {:induction false} CountedOnce<T>(s: seq<T>, x: T)
    requires Distinct(s) && x in s
    ensures multiset(s)[x] == 1
  {
    var init, last := s[..|s| - 1], s[|s| - 1];
    assert s == init + [last];
    if x != last {
      CountedOnce(init, x);
    } else {
      assert x !in init;
    }
  }

  lemma CountedTwice<T>(s: seq<T>, i: nat, j: nat)
    requires i < j < |s| && s[i] == s[j]
    ensures multiset(s)[s[i]] >= 2
  {
    assert s == s[..j] + s[j..];
    assert s[i] in s[..j] && s[j] in s[j..];
  }

  /** Two duplicate-free lists of the same elements are permutations of each other. */
  lemma SameMembersSameCounts<T>(a: seq<T>, b: seq<T>)
    requires Distinct(a) && Distinct(b) && forall x :: x in a <==> x in b
    ensures multiset(a) == multiset(b)
  {
    forall x ensures multiset(a)[x] == multiset(b)[x] {
      if x in a {
        CountedOnce(a, x);
        CountedOnce(b, x);
      }
    }
  }

  /** The elements that pass, in their order. */
  function Chosen<T>(p: T -> bool, s: seq<T>): seq<T> {
    if s == [] then []
    else Chosen(p, s[..|s| - 1]) + if p(s[|s| - 1]) then [s[|s| - 1]] else []
  }

  lemma {:induction false} ChosenCounts<T>(p: T -> bool, s: seq<T>, x: T)
    ensures multiset(Chosen(p, s))[x] == if p(x) then multiset(s)[x] else 0
  {
    if s != [] {
      ChosenCounts(p, s[..|s| - 1], x);
      assert s == s[..|s| - 1] + [s[|s| - 1]];
    }
  }

  lemma {:induction false} ChosenConcat<T>(p: T -> bool, a: seq<T>, b: seq<T>)
    ensures Chosen(p, a + b) == Chosen(p, a) + Chosen(p, b)
    decreases |b|
  {
    if b == [] {
      assert a + b == a;
    } else {
      assert (a + b)[..|a + b| - 1] == a + b[..|b| - 1];
      ChosenConcat(p, a, b[..|b| - 1]);
    }
  }

  lemma {:induction false} ChosenAllOrNone<T>(p: T -> bool, s: seq<T>)
    ensures (forall x | x in s :: p(x)) ==> Chosen(p, s) == s
    ensures (forall x | x in s :: !p(x)) ==> Chosen(p, s) == []
  {
    if s != [] {
      var init := s[..|s| - 1];
      ChosenAllOrNone(p, init);
      assert s == init + [s[|s| - 1]];
      assert forall x | x in init :: x in s;
    }
  }
}
