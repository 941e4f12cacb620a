/** Lists held in several parts (lanes, shards): what all of them hold together. */
module Parts {
  import opened Basics

  /** Everything in the parts, whichever part it is in. */
  ghost function AllOf<T>(parts: seq<seq<T>>): multiset<T> {
    if parts == [] then multiset{} else AllOf(parts[..|parts| - 1]) + multiset(parts[|parts| - 1])
  }

  function Push<T>(parts: seq<seq<T>>, i: nat, x: T): (r: seq<seq<T>>)
    requires i < |parts|
    ensures |r| == |parts|
  {
    parts[i := parts[i] + [x]]
  }

  /** Replacing one part replaces exactly its elements. */
  lemma {:induction false} AllOfUpdate<T>(parts: seq<seq<T>>, i: nat, part: seq<T>)
    requires i < |parts|
    ensures AllOf(parts[i := part]) + multiset(parts[i]) == AllOf(parts) + multiset(part)
  {
    var n := |parts| - 1;
    var changed := parts[i := part];
    if i < n {
      AllOfUpdate(parts[..n], i, part);
      assert changed[..n] == parts[..n][i := part];
      SwapSummands(AllOf(changed[..n]), AllOf(parts[..n]), multiset(parts[i]), multiset(part), multiset(parts[n]));
    } else {
      assert changed[..n] == parts[..n];
      SwapSummands(AllOf(parts[..n]), AllOf(parts[..n]), multiset{}, multiset{}, multiset{});
    }
  }

  lemma SwapSummands<T>(a: multiset<T>, b: multiset<T>, x: multiset<T>, y: multiset<T>, z: multiset<T>)
    requires a + x == b + y
    ensures (a + z) + x == (b + z) + y
  {
    forall j ensures ((a + z) + x)[j] == ((b + z) + y)[j] {
      assert (a + x)[j] == (b + y)[j];
    }
  }

  lemma Cancel<T>(a: multiset<T>, b: multiset<T>, x: multiset<T>, y: multiset<T>)
    requires a + x == b + (x + y)
    ensures a == b + y
  {
    forall j ensures a[j] == (b + y)[j] {
      assert (a + x)[j] == (b + (x + y))[j];
    }
  }

  lemma PushAdds<T>(parts: seq<seq<T>>, i: nat, x: T)
    requires i < |parts|
    ensures AllOf(Push(parts, i, x)) == AllOf(parts) + multiset{x}
  {
    AllOfUpdate(parts, i, parts[i] + [x]);
    Cancel(AllOf(Push(parts, i, x)), AllOf(parts), multiset(parts[i]), multiset{x});
  }

  lemma {:induction false} AllOfSame<T>(a: seq<seq<T>>, b: seq<seq<T>>)
    requires |a| == |b| && forall i | 0 <= i < |a| :: multiset(a[i]) == multiset(b[i])
    ensures AllOf(a) == AllOf(b)
  {
    if a != [] {
      AllOfSame(a[..|a| - 1], b[..|b| - 1]);
    }
  }

  lemma {:induction false} AllOfConcat<T>(a: seq<seq<T>>, b: seq<seq<T>>)
    ensures AllOf(a + b) == AllOf(a) + AllOf(b)
    decreases |b|
  {
    if b == [] {
      assert a + b == a;
    } else {
      assert (a + b)[..|a + b| - 1] == a + b[..|b| - 1];
      AllOfConcat(a, b[..|b| - 1]);
    }
  }

  lemma {:induction false} NothingYet<T>(parts: seq<seq<T>>)
    requires forall i | 0 <= i < |parts| :: parts[i] == []
    ensures AllOf(parts) == multiset{}
  {
    if parts != [] {
      NothingYet(parts[..|parts| - 1]);
    }
  }

  lemma {:induction false} HeldSomewhere<T>(parts: seq<seq<T>>, x: T)
    ensures x in AllOf(parts) <==> exists i | 0 <= i < |parts| :: x in parts[i]
  {
    if parts != [] {
      HeldSomewhere(parts[..|parts| - 1], x);
    }
  }

  /** What is held once is in one part. */
  lemma {:induction false} HeldOnce<T>(parts: seq<seq<T>>, x: T, i: nat, j: nat)
    requires AllOf(parts)[x] == 1 && i < |parts| && j < |parts| && x in parts[i] && x in parts[j]
    ensures i == j && multiset(parts[i])[x] == 1
  {
    var n := |parts| - 1;
    var init := parts[..n];
    HeldSomewhere(init, x);
    if i < n {
      assert init[i] == parts[i];
      assert x in AllOf(init);
    }
    if j < n {
      assert init[j] == parts[j];
      assert x in AllOf(init);
    }
    if i < n && j < n {
      HeldOnce(init, x, i, j);
    }
  }

  /** What only one part holds, that part holds as often as all do. */
  lemma HeldHere<T>(parts: seq<seq<T>>, x: T, i: nat)
    requires i < |parts| && forall k | 0 <= k < |parts| && k != i :: x !in parts[k]
    ensures AllOf(parts)[x] == multiset(parts[i])[x]
  {
    var others := parts[i := []];
    AllOfUpdate(parts, i, []);
    HeldSomewhere(others, x);
    assert (AllOf(others) + multiset(parts[i]))[x] == (AllOf(parts) + multiset([]))[x];
  }

  /** When one part holds everything that passes, choosing from it is choosing from the whole. */
  lemma ChosenHere<T(!new)>(p: T -> bool, parts: seq<seq<T>>, whole: seq<T>, i: nat)
    requires AllOf(parts) == multiset(whole) && i < |parts|
    requires forall k, x | 0 <= k < |parts| && k != i && x in parts[k] :: !p(x)
    ensures multiset(Chosen(p, parts[i])) == multiset(Chosen(p, whole))
  {
    forall x ensures multiset(Chosen(p, parts[i]))[x] == multiset(Chosen(p, whole))[x] {
      ChosenCounts(p, parts[i], x);
      ChosenCounts(p, whole, x);
      if p(x) {
        HeldHere(parts, x, i);
      }
    }
  }
}
