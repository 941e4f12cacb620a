/**
 `assignmentsFromSets` (tools/unicode-tables.ts): give every code point the index of the one
 named set that holds it, in an array with one slot per code point.
 */
module CodePointAssignments {
  import opened Basics
  import opened CodePointSets

  datatype Named = Named(name: string, members: CodePointSet)

  /** Fill one range of slots; stop at the first slot that is taken. */
  method AssignRange(slots: array<int>, start: int, end: int, index: nat) returns (taken: Option<int>)
    requires slots.Length == LIMIT && 0 <= start <= end <= LIMIT
    modifies slots
    ensures taken.Some? ==> start <= taken.value < end && old(slots[taken.value]) >= 0
    ensures taken == None ==> forall c | 0 <= c < LIMIT ::
      slots[c] == if start <= c < end then index else old(slots[c])
    ensures taken == None ==> forall c | start <= c < end :: old(slots[c]) < 0
  {
    var codePoint := start;
    while codePoint < end
      invariant start <= codePoint <= end
      invariant forall c | 0 <= c < LIMIT :: slots[c] == if start <= c < codePoint then index else old(slots[c])
      invariant forall c | start <= c < codePoint :: old(slots[c]) < 0
    {
      if slots[codePoint] >= 0 {
        return Some(codePoint);
      }
      slots[codePoint] := index;
      codePoint := codePoint + 1;
    }
    taken := None;
  }

  /** The members of `s` among its first `n` boundaries. */
  ghost predicate HoldsBelow(s: CodePointSet, n: nat, c: int)
    requires n <= |s|
  {
    Holds(s, c) && n > 0 && c < s[n - 1]
  }

  lemma HoldsBelowNext(s: CodePointSet, n: nat, c: int)
    requires WellFormed(s) && n % 2 == 0 && n + 1 < |s|
    ensures HoldsBelow(s, n + 2, c) <==> HoldsBelow(s, n, c) || s[n] <= c < s[n + 1]
    ensures !(HoldsBelow(s, n, c) && s[n] <= c < s[n + 1])
  {
    if s[n] <= c < s[n + 1] {
      ReachedIs(s, c, n + 1);
    } else if c < s[n] && (n > 0 ==> s[n - 1] <= c) {
      ReachedIs(s, c, n);
    }
  }

  lemma HoldsBelowAll(s: CodePointSet, c: int)
    requires WellFormed(s)
    ensures HoldsBelow(s, |s|, c) <==> Holds(s, c)
  {
    if s != [] && s[|s| - 1] <= c {
      ReachedIs(s, c, |s|);
    } else if s == [] {
      NoneReached(s, c);
    }
  }

  /** Fill the slots of one set. */
  method AssignSet(slots: array<int>, s: CodePointSet, index: nat) returns (taken: Option<int>)
    requires slots.Length == LIMIT && WellFormed(s)
    modifies slots
    ensures taken.Some? ==> 0 <= taken.value < LIMIT && Holds(s, taken.value) && old(slots[taken.value]) >= 0
    ensures taken == None ==> forall c | 0 <= c < LIMIT :: slots[c] == if Holds(s, c) then index else old(slots[c])
    ensures taken == None ==> forall c | 0 <= c < LIMIT && Holds(s, c) :: old(slots[c]) < 0
  {
    var cursor := 0;
    while cursor + 1 < |s|
      invariant cursor <= |s| && cursor % 2 == 0
      invariant forall c | 0 <= c < LIMIT :: slots[c] == if HoldsBelow(s, cursor, c) then index else old(slots[c])
      invariant forall c | 0 <= c < LIMIT && HoldsBelow(s, cursor, c) :: old(slots[c]) < 0
    {
      forall c ensures HoldsBelow(s, cursor + 2, c) <==> HoldsBelow(s, cursor, c) || s[cursor] <= c < s[cursor + 1]
        ensures !(HoldsBelow(s, cursor, c) && s[cursor] <= c < s[cursor + 1])
      {
        HoldsBelowNext(s, cursor, c);
      }
      taken := AssignRange(slots, s[cursor], s[cursor + 1], index);
      if taken.Some? {
        ReachedIs(s, taken.value, cursor + 1);
        return;
      }
      cursor := cursor + 2;
    }
    forall c ensures HoldsBelow(s, |s|, c) <==> Holds(s, c) {
      HoldsBelowAll(s, c);
    }
    taken := None;
  }

  /** The first index of a name, or minus one. */
  function IndexOf(names: seq<string>, name: string): (i: int)
    ensures -1 <= i < |names| && (i >= 0 ==> names[i] == name) && (i < 0 <==> name !in names)
  {
    if names == [] then -1
    else if names[0] == name then 0
    else
      var rest := IndexOf(names[1..], name);
      assert names == [names[0]] + names[1..];
      if rest < 0 then -1 else 1 + rest
  }

  /** The index the first `n` sets give a code point, or minus one. */
  ghost function Given(sets: seq<Named>, names: seq<string>, n: nat, c: int): int
    requires n <= |sets|
  {
    if n == 0 then -1
    else if Holds(sets[n - 1].members, c) then IndexOf(names, sets[n - 1].name)
    else Given(sets, names, n - 1, c)
  }

  datatype Outcome = Filled | UnknownValue(name: string) | AssignedTwice(codePoint: int)

  ghost predicate AllWellFormed(sets: seq<Named>) {
    forall k | 0 <= k < |sets| :: WellFormed(sets[k].members)
  }

  ghost predicate AllKnown(sets: seq<Named>, names: seq<string>) {
    forall k | 0 <= k < |sets| :: sets[k].name in names
  }

  ghost predicate BothHold(sets: seq<Named>, i: nat, j: nat, c: int) {
    i < j < |sets| && IsCodePoint(c) && Holds(sets[i].members, c) && Holds(sets[j].members, c)
  }

  ghost predicate Disjoint(sets: seq<Named>) {
    forall i: nat, j: nat, c: int :: !BothHold(sets, i, j, c)
  }

  lemma {:induction false} GivenOrigin(sets: seq<Named>, names: seq<string>, n: nat, c: int) returns (k: nat)
    requires n <= |sets| && Given(sets, names, n, c) >= 0
    ensures k < n && Holds(sets[k].members, c)
  {
    if Holds(sets[n - 1].members, c) {
      k := n - 1;
    } else {
      k := GivenOrigin(sets, names, n - 1, c);
    }
  }

  /** Among disjoint known sets the code point gets the index of the set that holds it. */
  lemma {:induction false} GivenIsHolder(sets: seq<Named>, names: seq<string>, n: nat, k: nat, c: int)
    requires k < n <= |sets| && Disjoint(sets) && IsCodePoint(c) && Holds(sets[k].members, c)
    ensures Given(sets, names, n, c) == IndexOf(names, sets[k].name)
  {
    if k < n - 1 {
      assert !BothHold(sets, k, n - 1, c);
      GivenIsHolder(sets, names, n - 1, k, c);
    }
  }

  lemma {:induction false} NoneGiven(sets: seq<Named>, names: seq<string>, n: nat, c: int)
    requires n <= |sets| && forall k | 0 <= k < n :: !Holds(sets[k].members, c)
    ensures Given(sets, names, n, c) == -1
  {
    if n > 0 {
      NoneGiven(sets, names, n - 1, c);
    }
  }

  /**
   Fill the slots from all sets. This succeeds exactly when every name is known and no code
   point is in two sets; each slot then holds the index of its set's name, or minus one.
   */
  method AssignmentsFromSets(sets: seq<Named>, names: seq<string>) returns (slots: array<int>, r: Outcome)
    requires AllWellFormed(sets)
    ensures fresh(slots) && slots.Length == LIMIT
    ensures r.Filled? <==> AllKnown(sets, names) && Disjoint(sets)
    ensures r.Filled? ==> forall c | IsCodePoint(c) :: slots[c] == Given(sets, names, |sets|, c)
    ensures r.UnknownValue? ==> r.name !in names && exists k :: 0 <= k < |sets| && sets[k].name == r.name
    ensures r.AssignedTwice? ==> exists i, j :: BothHold(sets, i, j, r.codePoint)
  {
    slots := new int[LIMIT](_ => -1);
    for n := 0 to |sets|
      invariant forall k | 0 <= k < n :: sets[k].name in names
      invariant forall i: nat, j: nat, c: int | j < n :: !BothHold(sets, i, j, c)
      invariant forall c | 0 <= c < LIMIT :: slots[c] == Given(sets, names, n, c)
    {
      var index := IndexOf(names, sets[n].name);
      if index < 0 {
        return slots, UnknownValue(sets[n].name);
      }
      var taken := AssignSet(slots, sets[n].members, index);
      if taken.Some? {
        var i := GivenOrigin(sets, names, n, taken.value);
        assert BothHold(sets, i, n, taken.value);
        return slots, AssignedTwice(taken.value);
      }
      forall i: nat, c: int | i < n ensures !BothHold(sets, i, n, c) {
        NotBoth(sets, names, i, n, c);
      }
    }
    r := Filled;
  }

  lemma NotBoth(sets: seq<Named>, names: seq<string>, i: nat, n: nat, c: int)
    requires i < n < |sets|
    requires forall k | 0 <= k < n :: sets[k].name in names
    requires forall i: nat, j: nat, c: int | j < n :: !BothHold(sets, i, j, c)
    requires IsCodePoint(c) && Holds(sets[n].members, c) ==> Given(sets, names, n, c) < 0
    ensures !BothHold(sets, i, n, c)
  {
    if BothHold(sets, i, n, c) {
      HolderGiven(sets, names, n, i, c);
      assert false;
    }
  }

  lemma {:induction false} HolderGiven(sets: seq<Named>, names: seq<string>, n: nat, i: nat, c: int)
    requires i < n <= |sets| && Holds(sets[i].members, c) && forall k | 0 <= k < n :: sets[k].name in names
    ensures Given(sets, names, n, c) >= 0
  {
    if !Holds(sets[n - 1].members, c) {
      HolderGiven(sets, names, n - 1, i, c);
    }
  }
}
