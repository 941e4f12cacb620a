/**
 The General_Category table (tools/unicode-tables.ts): from the lines of UnicodeData.txt through
 category ranges, inversion lists, and one slot per code point to the run-length partition.
 */
module GeneralCategories {
  import opened Basics
  import opened CodePointSets
  import opened CodePointAssignments
  import opened CodePointPartitions
  import opened UnicodeDataFile
  import opened UnicodeDataRules

  /** The long names of categories. */
  type Aliases = map<string, string>

  const UNASSIGNED := "Cn"

  datatype Built = Table(partition: Partition) | LinesRefused | UnknownCategory(short: string)
                 | NoUnassigned | UnknownName(name: string)

  // ----- Named sets, as a map in insertion order -----

  /** Set the members of a name: in its old place if it has one, else at the end. */
  function SetNamed(sets: seq<Named>, name: string, members: CodePointSet): seq<Named> {
    if sets == [] then [Named(name, members)]
    else if sets[0].name == name then [Named(name, members)] + sets[1..]
    else [sets[0]] + SetNamed(sets[1..], name, members)
  }

  function Lookup(sets: seq<Named>, name: string): Option<CodePointSet> {
    if sets == [] then None
    else if sets[0].name == name then Some(sets[0].members)
    else Lookup(sets[1..], name)
  }

  ghost predicate DistinctNames(sets: seq<Named>) {
    forall i, j | 0 <= i < j < |sets| :: sets[i].name != sets[j].name
  }

  lemma {:induction false} SetIsLookedUp(sets: seq<Named>, name: string, members: CodePointSet, x: string)
    ensures Lookup(SetNamed(sets, name, members), x) == if x == name then Some(members) else Lookup(sets, x)
  {
    if sets != [] && sets[0].name != name {
      SetIsLookedUp(sets[1..], name, members, x);
    }
  }

  lemma {:induction false} NamedSomewhere(sets: seq<Named>, name: string) returns (k: nat)
    requires Lookup(sets, name).Some?
    ensures k < |sets| && sets[k] == Named(name, Lookup(sets, name).value)
  {
    if sets[0].name == name {
      k := 0;
    } else {
      var i := NamedSomewhere(sets[1..], name);
      k := i + 1;
    }
  }

  lemma {:induction false} NamedIsLookedUp(sets: seq<Named>, k: nat)
    requires DistinctNames(sets) && k < |sets|
    ensures Lookup(sets, sets[k].name) == Some(sets[k].members)
  {
    if k > 0 {
      var rest := sets[1..];
      assert forall i | 0 <= i < |rest| :: rest[i] == sets[i + 1];
      NamedIsLookedUp(rest, k - 1);
    }
  }

  /** Setting a name keeps names distinct and sets well-formed, and adds no other name. */
  lemma {:induction false} SetKeepsNames(sets: seq<Named>, name: string, members: CodePointSet)
    requires DistinctNames(sets) && AllWellFormed(sets) && WellFormed(members)
    ensures var now := SetNamed(sets, name, members);
      && DistinctNames(now) && AllWellFormed(now)
      && forall k | 0 <= k < |now| :: now[k].name == name || exists i :: 0 <= i < |sets| && sets[i].name == now[k].name
  {
    if sets != [] && sets[0].name != name {
      var rest := sets[1..];
      assert forall i | 0 <= i < |rest| :: rest[i] == sets[i + 1];
      SetKeepsNames(rest, name, members);
      var later := SetNamed(rest, name, members);
      forall k | 0 <= k < |later|
        ensures later[k].name != sets[0].name
        ensures later[k].name == name || exists i :: 0 <= i < |sets| && sets[i].name == later[k].name
      {
        if later[k].name != name {
          var i :| 0 <= i < |rest| && rest[i].name == later[k].name;
          assert sets[i + 1].name == later[k].name;
        }
      }
    }
  }

  // ----- Which category keeps a name -----

  /** The last of the first `n` categories of this name: its set is the one that stays. */
  function Prevailing(order: seq<string>, aliases: Aliases, n: nat, name: string): (r: Option<string>)
    requires n <= |order|
    ensures r.Some? ==> r.value in order[..n] && r.value in aliases && aliases[r.value] == name
    ensures r == None ==> forall k | k in order[..n] && k in aliases :: aliases[k] != name
  {
    if n == 0 then None
    else
      var rest := Prevailing(order, aliases, n - 1, name);
      assert order[..n] == order[..n - 1] + [order[n - 1]];
      if order[n - 1] in aliases && aliases[order[n - 1]] == name then Some(order[n - 1]) else rest
  }

  /** A category whose name no later category takes over. */
  predicate Prevails(order: seq<string>, aliases: Aliases, k: string) {
    k in aliases && Prevailing(order, aliases, |order|, aliases[k]) == Some(k)
  }

  ghost predicate SameMembersAs(s: CodePointSet, ranges: seq<Range>) {
    forall c: int :: Holds(s, c) <==> InRanges(ranges, c)
  }

  /** The set of a name is that of its prevailing category. */
  ghost predicate NameHolds(sets: seq<Named>, ranges: Ranges, order: seq<string>, aliases: Aliases, n: nat,
                            name: string)
    requires n <= |order|
  {
    match Prevailing(order, aliases, n, name)
    case None => Lookup(sets, name) == None
    case Some(k) => k in ranges && Lookup(sets, name).Some? && SameMembersAs(Lookup(sets, name).value, ranges[k])
  }

  /** The named sets after the first `n` categories. */
  ghost predicate NamesRanges(sets: seq<Named>, ranges: Ranges, order: seq<string>, aliases: Aliases, n: nat) {
    && n <= |order| && DistinctNames(sets) && AllWellFormed(sets)
    && forall name :: NameHolds(sets, ranges, order, aliases, n, name)
  }

  lemma NextCategory(sets: seq<Named>, ranges: Ranges, order: seq<string>, aliases: Aliases, n: nat,
                     members: CodePointSet)
    requires n < |order| && NamesRanges(sets, ranges, order, aliases, n)
    requires order[n] in ranges && order[n] in aliases
    requires WellFormed(members) && SameMembersAs(members, ranges[order[n]])
    ensures NamesRanges(SetNamed(sets, aliases[order[n]], members), ranges, order, aliases, n + 1)
  {
    var long := aliases[order[n]];
    SetKeepsNames(sets, long, members);
    var now := SetNamed(sets, long, members);
    var next := n + 1;
    forall name ensures NameHolds(now, ranges, order, aliases, next, name) {
      SetIsLookedUp(sets, long, members, name);
      assert NameHolds(sets, ranges, order, aliases, n, name);
    }
  }

  method CategorySets(ranges: Ranges, order: seq<string>, aliases: Aliases)
    returns (sets: seq<Named>, unknown: Option<string>)
    requires AllUpTo(ranges, MAX_CODE_POINT) && forall c | c in order :: c in ranges
    ensures unknown.Some? ==> unknown.value in order && unknown.value !in aliases
    ensures unknown == None ==>
      (forall k | k in order :: k in aliases) && NamesRanges(sets, ranges, order, aliases, |order|)
  {
    sets := [];
    for n := 0 to |order|
      invariant NamesRanges(sets, ranges, order, aliases, n)
      invariant forall k | 0 <= k < n :: order[k] in aliases
    {
      var short := order[n];
      if short !in aliases {
        return sets, Some(short);
      }
      var built := CodePointSetFromRanges(ranges[short]);
      NextCategory(sets, ranges, order, aliases, n, built.value);
      sets := SetNamed(sets, aliases[short], built.value);
    }
    unknown := None;
  }

  // ----- What a slot holds -----

  lemma NotApart(ranges: Ranges, c: string, d: string, p: int)
    requires AllApart(ranges) && c in ranges && d in ranges && InRanges(ranges[c], p) && InRanges(ranges[d], p)
    ensures c == d
  {
    var q :| q in ranges[c] && q.start <= p <= q.end;
    var r :| r in ranges[d] && r.start <= p <= r.end;
    assert Apart(c, d, q, r);
  }

  /** The category whose members a named set holds. */
  lemma WinnerOf(sets: seq<Named>, ranges: Ranges, order: seq<string>, aliases: Aliases, i: nat) returns (k: string)
    requires NamesRanges(sets, ranges, order, aliases, |order|) && i < |sets|
    ensures k in ranges && k in aliases && aliases[k] == sets[i].name && Prevails(order, aliases, k)
    ensures SameMembersAs(sets[i].members, ranges[k])
  {
    NamedIsLookedUp(sets, i);
    assert NameHolds(sets, ranges, order, aliases, |order|, sets[i].name);
    k := Prevailing(order, aliases, |order|, sets[i].name).value;
  }

  lemma WinnersAreDisjoint(sets: seq<Named>, ranges: Ranges, order: seq<string>, aliases: Aliases)
    requires NamesRanges(sets, ranges, order, aliases, |order|) && AllApart(ranges)
    ensures Disjoint(sets)
  {
    forall i: nat, j: nat, c: int ensures !BothHold(sets, i, j, c) {
      if BothHold(sets, i, j, c) {
        var a := WinnerOf(sets, ranges, order, aliases, i);
        var b := WinnerOf(sets, ranges, order, aliases, j);
        NotApart(ranges, a, b, c);
        assert false;
      }
    }
  }

  /** A code point of a category gets the name's index, or nothing if another category took the name. */
  lemma SlotOfCategory(sets: seq<Named>, ranges: Ranges, order: seq<string>, aliases: Aliases, names: seq<string>,
                       k: string, c: int)
    requires NamesRanges(sets, ranges, order, aliases, |order|) && AllApart(ranges) && Disjoint(sets)
    requires IsCodePoint(c) && k in ranges && k in order && k in aliases && InRanges(ranges[k], c)
    ensures Given(sets, names, |sets|, c) ==
      if Prevails(order, aliases, k) then IndexOf(names, aliases[k]) else -1
  {
    if Prevails(order, aliases, k) {
      assert NameHolds(sets, ranges, order, aliases, |order|, aliases[k]);
      var i := NamedSomewhere(sets, aliases[k]);
      GivenIsHolder(sets, names, |sets|, i, c);
    } else {
      forall i | 0 <= i < |sets| ensures !Holds(sets[i].members, c) {
        var winner := WinnerOf(sets, ranges, order, aliases, i);
        if InRanges(ranges[winner], c) {
          NotApart(ranges, winner, k, c);
          assert false;
        }
      }
      NoneGiven(sets, names, |sets|, c);
    }
  }

  lemma SlotOfNone(sets: seq<Named>, ranges: Ranges, order: seq<string>, aliases: Aliases, names: seq<string>, c: int)
    requires NamesRanges(sets, ranges, order, aliases, |order|)
    requires forall k | k in ranges :: !InRanges(ranges[k], c)
    ensures Given(sets, names, |sets|, c) == -1
  {
    forall i | 0 <= i < |sets| ensures !Holds(sets[i].members, c) {
      var winner := WinnerOf(sets, ranges, order, aliases, i);
    }
    NoneGiven(sets, names, |sets|, c);
  }

  /** Every name of a category has a set, and every set is named for a category. */
  lemma KnownIff(sets: seq<Named>, ranges: Ranges, order: seq<string>, aliases: Aliases, names: seq<string>)
    requires NamesRanges(sets, ranges, order, aliases, |order|) && forall k | k in order :: k in aliases
    ensures AllKnown(sets, names) <==> forall k | k in order :: aliases[k] in names
  {
    forall k | k in order && AllKnown(sets, names) ensures aliases[k] in names {
      assert order[..|order|] == order;
      assert NameHolds(sets, ranges, order, aliases, |order|, aliases[k]);
      var i := NamedSomewhere(sets, aliases[k]);
    }
    forall i | 0 <= i < |sets| && (forall k | k in order :: aliases[k] in names) ensures sets[i].name in names {
      var k := WinnerOf(sets, ranges, order, aliases, i);
      assert k in order[..|order|];
    }
  }

  // ----- Categories, by the lines themselves -----

  ghost predicate HasCategory(lines: seq<Line>, category: string, c: int) {
    exists i, j, r :: Stands(lines, i, j, category, r) && r.start <= c <= r.end
  }

  /** Some line has this category. */
  ghost predicate Used(lines: seq<Line>, category: string) {
    exists n :: 0 <= n < |lines| && lines[n].Line? && lines[n].category == category
  }

  lemma CategoryIsRecorded(lines: seq<Line>, category: string, c: int)
    requires After(lines).Some?
    ensures HasCategory(lines, category, c) <==> InRanges(RangesOf(After(lines).value.ranges, category), c)
  {
    var recorded := RangesOf(After(lines).value.ranges, category);
    if HasCategory(lines, category, c) {
      var i, j, r :| Stands(lines, i, j, category, r) && r.start <= c <= r.end;
      StandingRecorded(lines, i, j, category, r);
    }
    if InRanges(recorded, c) {
      var r :| r in recorded && r.start <= c <= r.end;
      var i, j := RecordedStands(lines, category, r);
    }
  }

  /** A line of accepted lines stands for a range, alone or with its partner. */
  lemma LineStands(lines: seq<Line>, n: nat) returns (i: nat, j: nat)
    requires Accepted(lines) && n < |lines| && lines[n].Line?
    ensures i <= j < |lines| && lines[i].Line? && lines[j].Line?
    ensures Stands(lines, i, j, lines[n].category, Range(lines[i].codePoint, lines[j].codePoint))
  {
    AcceptedIff(lines);
    assert Fits(lines, n);
    if lines[n].name.First? {
      i := n;
      j :| Pairs(lines, n, j);
    } else if lines[n].name.Last? {
      j := n;
      i :| Pairs(lines, i, n);
    } else {
      i, j := n, n;
    }
  }

  /** The recorded categories are those of the lines. */
  lemma UsedIsRecorded(lines: seq<Line>, k: string)
    requires Accepted(lines)
    ensures Used(lines, k) <==> k in After(lines).value.order
  {
    var ranges := After(lines).value.ranges;
    OrderIsCategories(lines);
    if Used(lines, k) {
      var n :| 0 <= n < |lines| && lines[n].Line? && lines[n].category == k;
      var i, j := LineStands(lines, n);
      StandingRecorded(lines, i, j, k, Range(lines[i].codePoint, lines[j].codePoint));
    }
    if k in ranges {
      var i, j := RecordedStands(lines, k, ranges[k][0]);
      assert lines[j].category == k;
    }
  }

  // ----- The table -----

  /** What looking up a code point of category `k` gives. */
  function SlotOf(lines: seq<Line>, aliases: Aliases, names: seq<string>, fallback: int, k: string): int
    requires After(lines).Some? && k in aliases
  {
    if Prevails(After(lines).value.order, aliases, k) then IndexOf(names, aliases[k]) else fallback
  }

  /** Each code point has the slot of its category, and the fallback if it has none. */
  ghost predicate LooksUp(p: Partition, lines: seq<Line>, aliases: Aliases, names: seq<string>, fallback: int)
    requires Runs(p) && After(lines).Some?
  {
    && (forall c, k | IsCodePoint(c) && HasCategory(lines, k, c) && k in aliases ::
          RunValueAt(p, c) == SlotOf(lines, aliases, names, fallback, k))
    && (forall c | IsCodePoint(c) && (forall k :: !HasCategory(lines, k, c)) :: RunValueAt(p, c) == fallback)
  }

  /** Every used category is known by name and index. */
  ghost predicate AllNamed(lines: seq<Line>, aliases: Aliases, names: seq<string>) {
    forall k | Used(lines, k) :: k in aliases && aliases[k] in names
  }

  method BuildGeneralCategories(lines: seq<Line>, aliases: Aliases, names: seq<string>) returns (r: Built)
    ensures r.Table? <==> Accepted(lines) && AllNamed(lines, aliases, names) && UNASSIGNED in aliases
    ensures r.LinesRefused? <==> !Accepted(lines)
    ensures r.UnknownCategory? ==> Used(lines, r.short) && r.short !in aliases
    ensures r.NoUnassigned? ==> UNASSIGNED !in aliases
    ensures r.UnknownName? ==>
      r.name !in names && exists k :: Used(lines, k) && k in aliases && aliases[k] == r.name
    ensures r.Table? ==> Runs(r.partition) && NoEqualNeighbours(r.partition)
    ensures r.Table? ==> LooksUp(r.partition, lines, aliases, names, IndexOf(names, aliases[UNASSIGNED]))
  {
    var parsed := ParseUnicodeDataFile(lines);
    if !parsed.Parsed? {
      return LinesRefused;
    }
    AcceptedAscends(lines);
    OrderIsCategories(lines);
    forall k ensures Used(lines, k) <==> k in parsed.order {
      UsedIsRecorded(lines, k);
    }
    var sets, unknown := CategorySets(parsed.ranges, parsed.order, aliases);
    if unknown.Some? {
      return UnknownCategory(unknown.value);
    }
    if UNASSIGNED !in aliases {
      return NoUnassigned;
    }
    r := Tabulate(lines, sets, parsed.ranges, parsed.order, aliases, names, IndexOf(names, aliases[UNASSIGNED]));
  }

  method Tabulate(ghost lines: seq<Line>, sets: seq<Named>, ghost ranges: Ranges, ghost order: seq<string>,
                  ghost aliases: Aliases, names: seq<string>, fallback: int)
    returns (r: Built)
    requires Accepted(lines) && ranges == After(lines).value.ranges && order == After(lines).value.order
    requires AllApart(ranges) && forall k :: k in order <==> k in ranges
    requires NamesRanges(sets, ranges, order, aliases, |order|) && forall k | k in order :: k in aliases
    ensures r.Table? || r.UnknownName?
    ensures r.Table? <==> forall k | k in order :: aliases[k] in names
    ensures r.UnknownName? ==> r.name !in names && exists k :: k in order && aliases[k] == r.name
    ensures r.Table? ==> Runs(r.partition) && NoEqualNeighbours(r.partition)
    ensures r.Table? ==> LooksUp(r.partition, lines, aliases, names, fallback)
  {
    WinnersAreDisjoint(sets, ranges, order, aliases);
    KnownIff(sets, ranges, order, aliases, names);
    var slots, outcome := AssignmentsFromSets(sets, names);
    if outcome.UnknownValue? {
      ghost var i :| 0 <= i < |sets| && sets[i].name == outcome.name;
      ghost var k := WinnerOf(sets, ranges, order, aliases, i);
      return UnknownName(outcome.name);
    }
    var p := PartitionFromAssignments(slots, fallback);
    SlotsLookUp(p, slots[..], lines, sets, ranges, order, aliases, names, fallback);
    r := Table(p);
  }

  lemma SlotsLookUp(p: Partition, slots: seq<int>, lines: seq<Line>, sets: seq<Named>, ranges: Ranges,
                    order: seq<string>, aliases: Aliases, names: seq<string>, fallback: int)
    requires Accepted(lines) && ranges == After(lines).value.ranges && order == After(lines).value.order
    requires AllApart(ranges) && forall k :: k in order <==> k in ranges
    requires NamesRanges(sets, ranges, order, aliases, |order|) && Disjoint(sets)
    requires forall k | k in order :: k in aliases && aliases[k] in names
    requires Runs(p) && |slots| == LIMIT
    requires forall c | IsCodePoint(c) :: slots[c] == Given(sets, names, |sets|, c)
    requires forall c | IsCodePoint(c) :: RunValueAt(p, c) == Slot(slots[c], fallback)
    ensures LooksUp(p, lines, aliases, names, fallback)
  {
    forall c, k | IsCodePoint(c) && HasCategory(lines, k, c) && k in aliases
      ensures RunValueAt(p, c) == SlotOf(lines, aliases, names, fallback, k)
    {
      CategoryIsRecorded(lines, k, c);
      SlotOfCategory(sets, ranges, order, aliases, names, k, c);
    }
    forall c | IsCodePoint(c) && (forall k :: !HasCategory(lines, k, c)) ensures RunValueAt(p, c) == fallback {
      forall k | k in ranges ensures !InRanges(ranges[k], c) {
        CategoryIsRecorded(lines, k, c);
      }
      SlotOfNone(sets, ranges, order, aliases, names, c);
    }
  }

  // ----- When every code point finds its own category -----

  /** Looking up a code point gives the index of its category's name. */
  ghost predicate FindsCategories(p: Partition, lines: seq<Line>, aliases: Aliases, names: seq<string>)
    requires Runs(p)
  {
    forall c, k | IsCodePoint(c) && HasCategory(lines, k, c) && k in aliases ::
      RunValueAt(p, c) == IndexOf(names, aliases[k])
  }

  /** Two used categories share a name that is not the fallback's. */
  ghost predicate Confuses(lines: seq<Line>, aliases: Aliases, names: seq<string>, fallback: int,
                           a: string, b: string)
  {
    && Used(lines, a) && Used(lines, b) && a != b && a in aliases && b in aliases && aliases[a] == aliases[b]
    && IndexOf(names, aliases[a]) != fallback
  }

  /** Every used category has a code point. */
  lemma UsedHasCodePoint(lines: seq<Line>, k: string) returns (c: int)
    requires Accepted(lines) && Used(lines, k)
    ensures IsCodePoint(c) && HasCategory(lines, k, c)
  {
    UsedIsRecorded(lines, k);
    OrderIsCategories(lines);
    AcceptedAscends(lines);
    var r := After(lines).value.ranges[k][0];
    c := r.start;
    CategoryIsRecorded(lines, k, c);
  }

  /** Of two categories with one name at most one prevails. */
  lemma ConfusedLoses(lines: seq<Line>, aliases: Aliases, names: seq<string>, fallback: int, a: string, b: string)
    returns (k: string)
    requires Accepted(lines) && Confuses(lines, aliases, names, fallback, a, b)
    ensures Used(lines, k) && k in aliases && !Prevails(After(lines).value.order, aliases, k)
    ensures IndexOf(names, aliases[k]) != fallback
  {
    k := if Prevails(After(lines).value.order, aliases, a) then b else a;
  }

  /** A category that lost its name shares it with the one that prevails. */
  lemma LoserIsConfused(lines: seq<Line>, aliases: Aliases, names: seq<string>, fallback: int, k: string)
    returns (b: string)
    requires Accepted(lines) && Used(lines, k) && k in aliases && !Prevails(After(lines).value.order, aliases, k)
    requires IndexOf(names, aliases[k]) != fallback
    ensures Confuses(lines, aliases, names, fallback, k, b)
  {
    var order := After(lines).value.order;
    UsedIsRecorded(lines, k);
    assert order[..|order|] == order;
    b := Prevailing(order, aliases, |order|, aliases[k]).value;
    UsedIsRecorded(lines, b);
  }

  /** The table finds every category unless two of the file share a name that is not the fallback's. */
  lemma FindsCategoriesIff(p: Partition, lines: seq<Line>, aliases: Aliases, names: seq<string>, fallback: int)
    requires Accepted(lines) && Runs(p) && LooksUp(p, lines, aliases, names, fallback)
    ensures FindsCategories(p, lines, aliases, names) <==>
      forall a, b :: !Confuses(lines, aliases, names, fallback, a, b)
  {
    if a, b :| Confuses(lines, aliases, names, fallback, a, b) {
      var k := ConfusedLoses(lines, aliases, names, fallback, a, b);
      var c := UsedHasCodePoint(lines, k);
      assert RunValueAt(p, c) == SlotOf(lines, aliases, names, fallback, k);
    } else {
      forall c, k | IsCodePoint(c) && HasCategory(lines, k, c) && k in aliases
        ensures RunValueAt(p, c) == IndexOf(names, aliases[k])
      {
        CategoryIsUsed(lines, k, c);
        if SlotOf(lines, aliases, names, fallback, k) != IndexOf(names, aliases[k]) {
          var b := LoserIsConfused(lines, aliases, names, fallback, k);
          assert false;
        }
      }
    }
  }

  lemma CategoryIsUsed(lines: seq<Line>, k: string, c: int)
    requires HasCategory(lines, k, c)
    ensures Used(lines, k)
  {
    var i, j, r :| Stands(lines, i, j, k, r) && r.start <= c <= r.end;
  }
}
