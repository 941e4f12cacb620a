/**
 The observation-batch planner of tools/m5c-observation-batches.ts: split a sorted list of
 paths by prefix under two size limits, then pack neighbouring pieces back together.
 */
module BatchPlan {
  import opened Basics
  import opened CodeUnits

  /** What the planner reads of one unreviewed path. */
  datatype Fact = Fact(path: string, generatedFrom: seq<string>, prerequisiteSet: string)

  datatype Limits = Limits(paths: int, reviewUnits: int)

  /** A run of paths that share one child prefix. */
  datatype Group = Group(prefix: string, facts: seq<Fact>)

  /** One planned batch: its paths and the prefixes that select them. */
  datatype Chunk = Chunk(facts: seq<Fact>, prefixes: seq<string>)

  // ----- Review units and limits -----

  /** A handwritten test is one unit; a generated one counts its generator sources. */
  function Units(f: Fact): set<string> {
    if f.generatedFrom == [] then {f.path} else set u | u in f.generatedFrom
  }

  function UnitsOf(facts: seq<Fact>): set<string> {
    set f, u | f in facts && u in Units(f) :: u
  }

  predicate Fits(facts: seq<Fact>, limits: Limits) {
    |facts| <= limits.paths && |UnitsOf(facts)| <= limits.reviewUnits
  }

  lemma UnitsOfAppend(facts: seq<Fact>, f: Fact)
    ensures UnitsOf(facts + [f]) == UnitsOf(facts) + Units(f)
  {
    forall u | u in UnitsOf(facts) + Units(f) ensures u in UnitsOf(facts + [f]) {
      if u in Units(f) {
        assert f in facts + [f];
      } else {
        var g :| g in facts && u in Units(g);
        assert g in facts + [f];
      }
    }
  }

  method ReviewUnits(facts: seq<Fact>) returns (size: nat)
    ensures size == |UnitsOf(facts)|
  {
    var units: set<string> := {};
    for i := 0 to |facts|
      invariant units == UnitsOf(facts[..i])
    {
      var entry := facts[i];
      assert facts[..i + 1] == facts[..i] + [entry];
      UnitsOfAppend(facts[..i], entry);
      if |entry.generatedFrom| == 0 {
        units := units + {entry.path};
      } else {
        ghost var before := units;
        for k := 0 to |entry.generatedFrom|
          invariant units == before + set u | u in entry.generatedFrom[..k]
        {
          assert entry.generatedFrom[..k + 1] == entry.generatedFrom[..k] + [entry.generatedFrom[k]];
          units := units + {entry.generatedFrom[k]};
        }
        assert entry.generatedFrom[..|entry.generatedFrom|] == entry.generatedFrom;
      }
    }
    assert facts[..|facts|] == facts;
    size := |units|;
  }

  /** Fewer facts never fit worse. */
  lemma FitsShrinks(part: seq<Fact>, whole: seq<Fact>, limits: Limits)
    requires Fits(whole, limits) && |part| <= |whole|
    requires forall f | f in part :: f in whole
    ensures Fits(part, limits)
  {
    SubsetCardinality(UnitsOf(part), UnitsOf(whole));
  }

  // ----- Splitting at the next separator -----

  predicate IsSeparator(c: char) {
    c == '-' || c == '.' || c == '/' || c == '_'
  }

  /** Position of the first separator, or the length when there is none. */
  function FirstSeparator(s: string): (at: nat)
    ensures at <= |s|
    ensures forall i | 0 <= i < at :: !IsSeparator(s[i])
    ensures at < |s| ==> IsSeparator(s[at])
  {
    if s == [] || IsSeparator(s[0]) then 0 else 1 + FirstSeparator(s[1..])
  }

  function ChildPrefix(prefix: string, path: string): (child: string)
    requires prefix <= path
    ensures prefix <= child <= path
    ensures child == prefix ==> path == prefix
  {
    var rest := path[|prefix|..];
    var separator := FirstSeparator(rest);
    if separator == |rest| || separator == |rest| - 1 then path
    else prefix + rest[..separator + 1]
  }

  /** A child prefix that ends before its path ends in a separator and owns all its extensions. */
  lemma {:induction false} ProperChildOwnsExtensions(prefix: string, path: string, other: string)
    requires prefix <= path && prefix <= other
    requires ChildPrefix(prefix, path) != path
    requires ChildPrefix(prefix, path) <= other
    ensures ChildPrefix(prefix, other) == ChildPrefix(prefix, path)
  {
    var child := ChildPrefix(prefix, path);
    var rest, rest' := path[|prefix|..], other[|prefix|..];
    var at := FirstSeparator(rest);
    assert child == prefix + rest[..at + 1];
    assert forall i | 0 <= i <= at :: rest'[i] == rest[i] by {
      forall i | 0 <= i <= at ensures rest'[i] == rest[i] {
        assert rest[i] == child[|prefix| + i] == other[|prefix| + i];
      }
    }
    assert FirstSeparator(rest') == at;
    assert other[..|child|] == child;
  }

  /** Sibling prefixes may nest (`abc` and `abc-`), but never beyond the other's child prefix. */
  lemma {:induction false} SiblingsSeparate(prefix: string, mine: string, theirs: string, q: string)
    requires prefix <= mine && prefix <= theirs
    requires ChildPrefix(prefix, mine) != ChildPrefix(prefix, theirs)
    requires ChildPrefix(prefix, theirs) <= q <= theirs && q <= mine
    ensures |q| < |ChildPrefix(prefix, mine)|
  {
    var own, other := ChildPrefix(prefix, mine), ChildPrefix(prefix, theirs);
    if |q| >= |own| {
      PrefixesNest(own, q, mine);
      if own != mine {
        ProperChildOwnsExtensions(prefix, mine, theirs);
      } else {
        assert q == mine;
        if other != theirs {
          ProperChildOwnsExtensions(prefix, theirs, mine);
        }
      }
      assert false;
    }
  }

  ghost predicate Ordered(facts: seq<Fact>) {
    forall i, j | 0 <= i < j < |facts| :: Less(facts[i].path, facts[j].path)
  }

  ghost predicate Under(prefix: string, facts: seq<Fact>) {
    forall f | f in facts :: prefix <= f.path
  }

  lemma OrderedParts(a: seq<Fact>, b: seq<Fact>)
    requires Ordered(a + b)
    ensures Ordered(a) && Ordered(b)
    ensures forall f, g | f in a && g in b :: Less(f.path, g.path)
  {
    var s := a + b;
    assert forall i | 0 <= i < |a| :: s[i] == a[i];
    assert forall i | 0 <= i < |b| :: s[|a| + i] == b[i];
  }

  // ----- Child groups -----

  function ChildGroups(prefix: string, facts: seq<Fact>): seq<Group>
    requires Under(prefix, facts)
  {
    if facts == [] then []
    else
      AddToGroups(ChildGroups(prefix, facts[..|facts| - 1]),
                  ChildPrefix(prefix, facts[|facts| - 1].path), facts[|facts| - 1])
  }

  function AddToGroups(groups: seq<Group>, childPrefix: string, entry: Fact): seq<Group> {
    var n := |groups|;
    if n > 0 && groups[n - 1].prefix == childPrefix then
      groups[..n - 1] + [Group(childPrefix, groups[n - 1].facts + [entry])]
    else
      groups + [Group(childPrefix, [entry])]
  }

  method ComputeChildGroups(prefix: string, facts: seq<Fact>) returns (groups: seq<Group>)
    requires Under(prefix, facts)
    ensures groups == ChildGroups(prefix, facts)
  {
    groups := [];
    for i := 0 to |facts|
      invariant groups == ChildGroups(prefix, facts[..i])
    {
      var entry := facts[i];
      assert entry in facts;
      var childPrefix := ChildPrefix(prefix, entry.path);
      NextGroup(prefix, facts, i);
      groups := AddToGroups(groups, childPrefix, entry);
    }
    assert facts[..|facts|] == facts;
  }

  lemma NextGroup(prefix: string, facts: seq<Fact>, i: nat)
    requires Under(prefix, facts) && i < |facts|
    ensures ChildGroups(prefix, facts[..i + 1])
         == AddToGroups(ChildGroups(prefix, facts[..i]), ChildPrefix(prefix, facts[i].path), facts[i])
  {
    assert facts[..i + 1][..i] == facts[..i];
  }

  function GroupFacts(groups: seq<Group>): seq<Fact> {
    if groups == [] then []
    else GroupFacts(groups[..|groups| - 1]) + groups[|groups| - 1].facts
  }

  lemma {:induction false} GroupFactsMember(groups: seq<Group>, i: nat, f: Fact)
    requires i < |groups| && f in groups[i].facts
    ensures f in GroupFacts(groups)
    decreases |groups|
  {
    var n := |groups| - 1;
    if i < n {
      GroupFactsMember(groups[..n], i, f);
    }
  }

  /** Each group holds exactly a run of the facts with its child prefix. */
  ghost predicate GroupsSplit(prefix: string, facts: seq<Fact>, groups: seq<Group>) {
    && GroupFacts(groups) == facts
    && (forall i | 0 <= i < |groups| :: groups[i].facts != [])
    && (forall i, f | 0 <= i < |groups| && f in groups[i].facts ::
          prefix <= f.path && ChildPrefix(prefix, f.path) == groups[i].prefix)
    && (forall i, j | 0 <= i < j < |groups| :: groups[i].prefix != groups[j].prefix)
  }

  lemma {:induction false} ChildGroupsSplit(prefix: string, facts: seq<Fact>)
    requires Under(prefix, facts) && Ordered(facts)
    ensures GroupsSplit(prefix, facts, ChildGroups(prefix, facts))
  {
    if facts != [] {
      var init, entry := facts[..|facts| - 1], facts[|facts| - 1];
      assert facts == init + [entry];
      ChildGroupsSplit(prefix, init);
      var groups := ChildGroups(prefix, init);
      if groups != [] && groups[|groups| - 1].prefix != ChildPrefix(prefix, entry.path) {
        forall i | 0 <= i < |groups| ensures groups[i].prefix != ChildPrefix(prefix, entry.path) {
          NewGroupIsFresh(prefix, groups, entry, i);
        }
      }
      AddToGroupsSplit(prefix, init, groups, entry);
    }
  }

  lemma {:induction false} AddToGroupsSplit(prefix: string, facts: seq<Fact>, init: seq<Group>, entry: Fact)
    requires GroupsSplit(prefix, facts, init) && prefix <= entry.path
    requires var child := ChildPrefix(prefix, entry.path);
      init != [] && init[|init| - 1].prefix != child ==> forall i | 0 <= i < |init| :: init[i].prefix != child
    ensures GroupsSplit(prefix, facts + [entry], AddToGroups(init, ChildPrefix(prefix, entry.path), entry))
  {
    var child := ChildPrefix(prefix, entry.path);
    var groups := AddToGroups(init, child, entry);
    var k := |groups| - 1;
    if init != [] && init[|init| - 1].prefix == child {
      assert groups[..k] == init[..k];
    } else {
      assert groups[..k] == init;
    }
    assert GroupFacts(groups) == facts + [entry];
  }

  lemma {:induction false} NewGroupIsFresh(prefix: string, groups: seq<Group>, entry: Fact, i: nat)
    requires i < |groups| && prefix <= entry.path
    requires GroupsSplit(prefix, GroupFacts(groups), groups)
    requires Ordered(GroupFacts(groups) + [entry])
    requires groups[|groups| - 1].prefix != ChildPrefix(prefix, entry.path)
    ensures groups[i].prefix != ChildPrefix(prefix, entry.path)
  {
    var n := |groups| - 1;
    if i < n && groups[i].prefix == ChildPrefix(prefix, entry.path) {
      var first, middle := groups[i].facts[0], groups[n].facts[0];
      GroupFactsMember(groups[..n], i, first);
      OrderedParts(GroupFacts(groups), [entry]);
      OrderedParts(GroupFacts(groups[..n]), groups[n].facts);
      GroupFactsMember(groups, n, middle);
      assert Less(first.path, middle.path);
      assert entry in [entry];
      assert Less(middle.path, entry.path);
      PrefixIsConvex(groups[i].prefix, first.path, middle.path, entry.path);
      LessTransitive(first.path, middle.path, entry.path);
      LessIrreflexive(first.path);
      if first.path != groups[i].prefix {
        ProperChildOwnsExtensions(prefix, first.path, middle.path);
      } else {
        ProperChildOwnsExtensions(prefix, entry.path, middle.path);
      }
      assert false;
    }
  }

  lemma {:induction false} GroupsOrdered(groups: seq<Group>, i: nat)
    requires i < |groups| && Ordered(GroupFacts(groups))
    ensures Ordered(groups[i].facts)
    decreases |groups|
  {
    var n := |groups| - 1;
    OrderedParts(GroupFacts(groups[..n]), groups[n].facts);
    if i < n {
      GroupsOrdered(groups[..n], i);
    }
  }

  lemma {:induction false} GroupSize(groups: seq<Group>, i: nat)
    requires i < |groups|
    requires forall j | 0 <= j < |groups| :: groups[j].facts != []
    ensures |groups[i].facts| + |groups| - 1 <= |GroupFacts(groups)|
    decreases |groups|
  {
    var n := |groups| - 1;
    if i < n {
      GroupSize(groups[..n], i);
    } else if n > 0 {
      GroupSize(groups[..n], 0);
    } else {
      assert GroupFacts(groups[..0]) == [];
    }
  }

  // ----- When sibling prefixes nest -----

  /** One sibling's prefix starts another's exactly when it is a whole path that starts the other path. */
  lemma NestedSiblings(prefix: string, a: string, b: string)
    requires prefix <= a && prefix <= b && ChildPrefix(prefix, a) != ChildPrefix(prefix, b)
    ensures ChildPrefix(prefix, a) <= ChildPrefix(prefix, b) <==> ChildPrefix(prefix, a) == a && a <= b
  {
    var mine, theirs := ChildPrefix(prefix, a), ChildPrefix(prefix, b);
    if mine <= theirs && mine != a {
      ProperChildOwnsExtensions(prefix, a, b);
    }
    if mine == a && a <= b && |theirs| < |a| {
      PrefixesNest(theirs, a, b);
      ProperChildOwnsExtensions(prefix, b, a);
    } else if mine == a && a <= b {
      PrefixesNest(a, theirs, b);
    }
  }

  /** No separator follows the prefix. */
  predicate IsToken(prefix: string, path: string)
    requires prefix <= path
  {
    FirstSeparator(path[|prefix|..]) == |path| - |prefix|
  }

  lemma {:induction false} SeparatorExtends(s: string, t: string)
    requires s <= t
    ensures FirstSeparator(s) < |s| ==> FirstSeparator(t) == FirstSeparator(s)
    ensures FirstSeparator(s) == |s| ==> FirstSeparator(t) >= |s|
  {
    if s != [] {
      assert s[0] == t[0] && s[1..] <= t[1..];
      SeparatorExtends(s[1..], t[1..]);
    }
  }

  /** A whole path that starts a longer one is in another group exactly when it is a token. */
  lemma TokenStandsApart(prefix: string, a: string, b: string)
    requires prefix <= a && a < b && ChildPrefix(prefix, a) == a
    ensures ChildPrefix(prefix, b) != a <==> IsToken(prefix, a)
  {
    var mine, theirs := a[|prefix|..], b[|prefix|..];
    assert mine <= theirs;
    SeparatorExtends(mine, theirs);
    assert a == prefix + mine && b == prefix + theirs;
    if !IsToken(prefix, a) {
      assert FirstSeparator(mine) == |mine| - 1;
      assert theirs[..|mine|] == mine;
    }
  }

  ghost predicate PrefixFree(groups: seq<Group>) {
    forall i, j | 0 <= i < |groups| && 0 <= j < |groups| && i != j :: !(groups[i].prefix <= groups[j].prefix)
  }

  /** A listed path without a further separator starts a longer listed path. */
  ghost predicate TokenStartsAnother(prefix: string, facts: seq<Fact>)
    requires Under(prefix, facts)
  {
    exists f, g | f in facts && g in facts :: IsToken(prefix, f.path) && f.path < g.path
  }

  lemma {:induction false} GroupOf(groups: seq<Group>, f: Fact) returns (i: nat)
    requires f in GroupFacts(groups)
    ensures i < |groups| && f in groups[i].facts
  {
    var n := |groups| - 1;
    if f in groups[n].facts {
      i := n;
    } else {
      i := GroupOf(groups[..n], f);
    }
  }

  lemma NestedGroups(prefix: string, facts: seq<Fact>, i: nat, j: nat)
    requires Under(prefix, facts) && GroupsSplit(prefix, facts, ChildGroups(prefix, facts))
    requires i < |ChildGroups(prefix, facts)| && j < |ChildGroups(prefix, facts)| && i != j
    requires ChildGroups(prefix, facts)[i].prefix <= ChildGroups(prefix, facts)[j].prefix
    ensures TokenStartsAnother(prefix, facts)
  {
    var groups := ChildGroups(prefix, facts);
    var f, g := groups[i].facts[0], groups[j].facts[0];
    GroupFactsMember(groups, i, f);
    GroupFactsMember(groups, j, g);
    NestedSiblings(prefix, f.path, g.path);
    TokenStandsApart(prefix, f.path, g.path);
  }

  lemma TokenNests(prefix: string, facts: seq<Fact>, f: Fact, g: Fact)
    requires Under(prefix, facts) && GroupsSplit(prefix, facts, ChildGroups(prefix, facts))
    requires f in facts && g in facts && IsToken(prefix, f.path) && f.path < g.path
    ensures !PrefixFree(ChildGroups(prefix, facts))
  {
    var groups := ChildGroups(prefix, facts);
    var i := GroupOf(groups, f);
    var j := GroupOf(groups, g);
    TokenStandsApart(prefix, f.path, g.path);
    NestedSiblings(prefix, f.path, g.path);
    assert groups[i].prefix <= groups[j].prefix && i != j;
  }

  /** The child prefixes are prefix-free unless a token among the paths starts another path. */
  lemma PrefixFreeIff(prefix: string, facts: seq<Fact>)
    requires Under(prefix, facts) && Ordered(facts)
    ensures PrefixFree(ChildGroups(prefix, facts)) <==> !TokenStartsAnother(prefix, facts)
  {
    var groups := ChildGroups(prefix, facts);
    ChildGroupsSplit(prefix, facts);
    if !PrefixFree(groups) {
      var i, j :| 0 <= i < |groups| && 0 <= j < |groups| && i != j && groups[i].prefix <= groups[j].prefix;
      NestedGroups(prefix, facts, i, j);
    }
    if TokenStartsAnother(prefix, facts) {
      var f, g :| f in facts && g in facts && IsToken(prefix, f.path) && f.path < g.path;
      TokenNests(prefix, facts, f, g);
    }
  }

  const PLAIN := Fact("test/abc", [], "")
  const DASHED := Fact("test/abc-", [], "")

  /** Beside `test/abc-`, the path `test/abc` gets a child prefix that starts the other's. */
  lemma SiblingsCanNest()
    ensures Under("test/", [PLAIN, DASHED]) && Ordered([PLAIN, DASHED])
    ensures ChildPrefix("test/", PLAIN.path) == "test/abc" && ChildPrefix("test/", DASHED.path) == "test/abc-"
    ensures !PrefixFree(ChildGroups("test/", [PLAIN, DASHED]))
  {
    var a, b := PLAIN.path, DASHED.path;
    assert a == "test/" + "abc" && b == "test/" + "abc-";
    FirstOfPlain();
    FirstOfDashed();
    assert a[5..] == "abc" && b[5..] == "abc-";
    assert b[..8] == a;
    LessExtends(a, b);
    assert IsToken("test/", a);
    var facts := [PLAIN, DASHED];
    assert facts[0] == PLAIN && facts[1] == DASHED;
    PrefixFreeIff("test/", facts);
  }

  lemma FirstOfPlain()
    ensures FirstSeparator("abc") == 3
  {
    assert "abc"[1..] == "bc" && "bc"[1..] == "c" && "c"[1..] == "";
  }

  lemma FirstOfDashed()
    ensures FirstSeparator("abc-") == 3
  {
    assert "abc-"[1..] == "bc-" && "bc-"[1..] == "c-" && "c-"[1..] == "-";
  }

  lemma {:induction false} LessExtends(p: string, s: string)
    requires p < s
    ensures Less(p, s)
  {
    if p != [] {
      LessExtends(p[1..], s[1..]);
    }
  }
}
