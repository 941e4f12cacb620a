/**
 Exactly when `planPrefix` finishes: a path that does not fit the limits alone makes the
 planner call itself with the same arguments, and nothing else does.
 */
module PlanTermination {
  import opened CodeUnits
  import opened BatchPlan
  import opened PrefixPlan

  /** The arguments of the calls that `planPrefix` makes on itself. */
  function RecursiveCalls(prefix: string, facts: seq<Fact>, limits: Limits): seq<Group>
    requires Under(prefix, facts)
  {
    var children := ChildGroups(prefix, facts);
    if Descends(prefix, children) then [children[0]]
    else if Fits(facts, limits) then []
    else children
  }

  /** Every chain of calls from these arguments ends within `depth` calls. */
  ghost predicate FinishesWithin(depth: nat, prefix: string, facts: seq<Fact>, limits: Limits)
    requires Under(prefix, facts)
  {
    && depth > 0
    && var calls := RecursiveCalls(prefix, facts, limits);
       forall i | 0 <= i < |calls| ::
         Under(calls[i].prefix, calls[i].facts) &&
         FinishesWithin(depth - 1, calls[i].prefix, calls[i].facts, limits)
  }

  ghost predicate Finishes(prefix: string, facts: seq<Fact>, limits: Limits)
    requires Under(prefix, facts)
  {
    exists depth: nat :: FinishesWithin(depth, prefix, facts, limits)
  }

  lemma {:induction false} OversizedNeverFinishes(depth: nat, prefix: string, facts: seq<Fact>, limits: Limits, f: Fact)
    requires Ordered(facts) && Under(prefix, facts)
    requires f in facts && !Fits([f], limits)
    ensures !FinishesWithin(depth, prefix, facts, limits)
  {
    if depth > 0 {
      var children := ChildGroups(prefix, facts);
      ChildGroupsSplit(prefix, facts);
      if Fits(facts, limits) {
        FitsShrinks([f], facts, limits);
      }
      var i := GroupOf(children, f);
      GroupsOrdered(children, i);
      if Descends(prefix, children) {
        assert i == 0;
        assert RecursiveCalls(prefix, facts, limits)[0] == children[0];
      } else {
        assert RecursiveCalls(prefix, facts, limits)[i] == children[i];
      }
      OversizedNeverFinishes(depth - 1, children[i].prefix, children[i].facts, limits, f);
    }
  }

  lemma {:induction false} FinishesStep(depth: nat, prefix: string, facts: seq<Fact>, limits: Limits)
    requires Under(prefix, facts) && depth > 0
    requires var calls := RecursiveCalls(prefix, facts, limits);
      forall i | 0 <= i < |calls| ::
        Under(calls[i].prefix, calls[i].facts) && FinishesWithin(depth - 1, calls[i].prefix, calls[i].facts, limits)
    ensures FinishesWithin(depth, prefix, facts, limits)
  {}

  lemma {:induction false} MoreDepth(depth: nat, more: nat, prefix: string, facts: seq<Fact>, limits: Limits)
    requires Under(prefix, facts) && depth <= more && FinishesWithin(depth, prefix, facts, limits)
    ensures FinishesWithin(more, prefix, facts, limits)
  {
    var calls := RecursiveCalls(prefix, facts, limits);
    forall i | 0 <= i < |calls| ensures FinishesWithin(more - 1, calls[i].prefix, calls[i].facts, limits) {
      MoreDepth(depth - 1, more - 1, calls[i].prefix, calls[i].facts, limits);
    }
    FinishesStep(more, prefix, facts, limits);
  }

  lemma {:induction false} FittingFinishes(prefix: string, facts: seq<Fact>, limits: Limits) returns (depth: nat)
    requires Plannable(prefix, facts, limits)
    ensures FinishesWithin(depth, prefix, facts, limits)
    decreases |facts|, 1 + Slack(prefix, facts), 0
  {
    RecursionShrinks(prefix, facts, limits);
    var children := ChildGroups(prefix, facts);
    var below := 0;
    if Descends(prefix, children) {
      below := FittingFinishes(children[0].prefix, children[0].facts, limits);
    } else if !Fits(facts, limits) {
      below := ChildrenFinish(children, |children|, |facts|, limits);
    }
    depth := below + 1;
    FinishesStep(depth, prefix, facts, limits);
  }

  /** One depth serves the first `n` children. */
  lemma {:induction false} ChildrenFinish(children: seq<Group>, n: nat, size: nat, limits: Limits) returns (depth: nat)
    requires n <= |children| && GroupsPlannable(children, limits) && GroupsBelow(children, size)
    ensures forall i | 0 <= i < n :: FinishesWithin(depth, children[i].prefix, children[i].facts, limits)
    decreases size, 0, n
  {
    depth := 0;
    if n > 0 {
      var others := ChildrenFinish(children, n - 1, size, limits);
      var own := FittingFinishes(children[n - 1].prefix, children[n - 1].facts, limits);
      depth := others + own;
      forall i | 0 <= i < n ensures FinishesWithin(depth, children[i].prefix, children[i].facts, limits) {
        MoreDepth(if i < n - 1 then others else own, depth, children[i].prefix, children[i].facts, limits);
      }
    }
  }

  /** The planner finishes if and only if every path fits the limits alone. */
  lemma FinishesIffEachFitsAlone(prefix: string, facts: seq<Fact>, limits: Limits)
    requires Ordered(facts) && Under(prefix, facts)
    ensures Finishes(prefix, facts, limits) <==> forall f | f in facts :: Fits([f], limits)
  {
    if forall f | f in facts :: Fits([f], limits) {
      var depth := FittingFinishes(prefix, facts, limits);
    } else {
      var f :| f in facts && !Fits([f], limits);
      forall depth: nat ensures !FinishesWithin(depth, prefix, facts, limits) {
        OversizedNeverFinishes(depth, prefix, facts, limits, f);
      }
    }
  }

  /** Already one path that is its own prefix and does not fit repeats its own call. */
  lemma OversizedPathRepeats(f: Fact, limits: Limits)
    requires !Fits([f], limits)
    ensures RecursiveCalls(f.path, [f], limits) == [Group(f.path, [f])]
  {
    assert [f][..0] == [];
    assert ChildPrefix(f.path, f.path) == f.path;
    assert ChildGroups(f.path, [f]) == AddToGroups([], f.path, f);
  }
}
