/**
 The code of a pattern delivers its results: started at its first instruction it reaches the end
 of the code once for each result, in order, each time it is backtracked into, and then gives up.
 */
module RegExpSimulation {
  import opened Basics
  import opened CodePointSets
  import opened RegExpSyntax
  import opened RegExpSemantics
  import opened RegExpProgram

  // ----- Reaching a configuration -----

  ghost function Iterate(m: Machine, c: Config, n: nat): Config
    decreases n
  {
    if n == 0 then c else Iterate(m, Step(m, c), n - 1)
  }

  ghost predicate Reaches(m: Machine, c: Config, d: Config) {
    exists n: nat :: Iterate(m, c, n) == d
  }

  lemma ReachesSelf(m: Machine, c: Config)
    ensures Reaches(m, c, c)
  {
    assert Iterate(m, c, 0) == c;
  }

  lemma ReachesNext(m: Machine, c: Config, d: Config)
    requires Reaches(m, Step(m, c), d)
    ensures Reaches(m, c, d)
  {
    var n: nat :| Iterate(m, Step(m, c), n) == d;
    assert Iterate(m, c, n + 1) == d;
  }

  lemma {:induction false} IterateMore(m: Machine, c: Config, n: nat, k: nat)
    ensures Iterate(m, c, n + k) == Iterate(m, Iterate(m, c, n), k)
    decreases n
  {
    if n > 0 {
      IterateMore(m, Step(m, c), n - 1, k);
    }
  }

  lemma ReachesTransitive(m: Machine, c: Config, d: Config, e: Config)
    requires Reaches(m, c, d) && Reaches(m, d, e)
    ensures Reaches(m, c, e)
  {
    var n: nat :| Iterate(m, c, n) == d;
    var k: nat :| Iterate(m, d, k) == e;
    IterateMore(m, c, n, k);
  }

  // ----- Delivering results -----

  /** The registers and groups that a piece of code may write. */
  datatype Own = Own(firstSlot: nat, endSlot: nat, firstGroup: nat, endGroup: nat)

  predicate Owns(own: Own, j: int) {
    own.firstSlot <= j < own.endSlot || 2 * own.firstGroup <= j < 2 * own.endGroup
  }

  /** Where results are delivered: above which entries, at which address, and from which registers. */
  datatype Target = Target(base: seq<Entry>, address: nat, origin: Registers, own: Own)

  /** The registers hold a state, and only owned ones have changed. */
  ghost predicate Arrived(m: Machine, t: Target, v: Registers, s: State) {
    && v.index == s.index && CapturesOf(v.slots, m.groups) == s.captures
    && Unchanged(t, v)
  }

  ghost predicate Unchanged(t: Target, v: Registers) {
    && |v.slots| == |t.origin.slots|
    && forall j | 0 <= j < |v.slots| && !Owns(t.own, j) :: v.slots[j] == t.origin.slots[j]
  }

  ghost predicate DeliversFirst(m: Machine, c: Config, t: Target, s: State, v: Registers, extra: seq<Entry>) {
    Reaches(m, c, Run(t.address, v, t.base + extra)) && Arrived(m, t, v, s)
  }

  ghost predicate Delivers(m: Machine, c: Config, t: Target, rs: seq<State>)
    decreases |rs|
  {
    if rs == [] then Reaches(m, c, Backtrack(t.base))
    else exists v, extra ::
      DeliversFirst(m, c, t, rs[0], v, extra) && Delivers(m, Backtrack(t.base + extra), t, rs[1..])
  }

  lemma DeliversFrom(m: Machine, c: Config, d: Config, t: Target, rs: seq<State>)
    requires Reaches(m, c, d) && Delivers(m, d, t, rs)
    ensures Delivers(m, c, t, rs)
  {
    if rs == [] {
      ReachesTransitive(m, c, d, Backtrack(t.base));
    } else {
      var v, extra :| DeliversFirst(m, d, t, rs[0], v, extra) && Delivers(m, Backtrack(t.base + extra), t, rs[1..]);
      ReachesTransitive(m, c, d, Run(t.address, v, t.base + extra));
      assert DeliversFirst(m, c, t, rs[0], v, extra);
    }
  }

  /** A result that has arrived, before the others. */
  lemma DeliversThen(m: Machine, c: Config, t: Target, s: State, v: Registers, extra: seq<Entry>, rs: seq<State>)
    requires DeliversFirst(m, c, t, s, v, extra) && Delivers(m, Backtrack(t.base + extra), t, rs)
    ensures Delivers(m, c, t, [s] + rs)
  {
    var all := [s] + rs;
    assert all[0] == s && all[1..] == rs;
  }

  lemma DeliversOne(m: Machine, c: Config, t: Target, s: State, v: Registers)
    requires Reaches(m, c, Run(t.address, v, t.base)) && Arrived(m, t, v, s)
    ensures Delivers(m, c, t, [s])
  {
    assert t.base + [] == t.base;
    ReachesSelf(m, Backtrack(t.base));
    assert DeliversFirst(m, c, t, s, v, []);
    DeliversThen(m, c, t, s, v, [], []);
    assert [s] + [] == [s];
  }

  /** The inner target stands on more entries and changes nothing that the outer one may not. */
  ghost predicate Finer(inner: Target, outer: Target) {
    && outer.base <= inner.base && inner.address == outer.address
    && forall v | Unchanged(inner, v) :: Unchanged(outer, v)
  }

  lemma FirstOnto(m: Machine, c: Config, inner: Target, outer: Target, s: State, v: Registers, extra: seq<Entry>)
    returns (more: seq<Entry>)
    requires DeliversFirst(m, c, inner, s, v, extra) && Finer(inner, outer)
    ensures inner.base + extra == outer.base + more && DeliversFirst(m, c, outer, s, v, more)
  {
    more := inner.base[|outer.base|..] + extra;
    assert inner.base + extra == outer.base + more;
  }

  lemma OntoStep(m: Machine, c: Config, inner: Target, outer: Target, xs: seq<State>, ys: seq<State>, v: Registers,
                 extra: seq<Entry>)
    requires xs != [] && DeliversFirst(m, c, inner, xs[0], v, extra) && Finer(inner, outer)
    requires Delivers(m, Backtrack(inner.base + extra), outer, xs[1..] + ys)
    ensures Delivers(m, c, outer, xs + ys)
  {
    var more := FirstOnto(m, c, inner, outer, xs[0], v, extra);
    DeliversThen(m, c, outer, xs[0], v, more, xs[1..] + ys);
    assert [xs[0]] + (xs[1..] + ys) == xs + ys;
  }

  /** Results delivered to an inner target, and after them others to the outer one. */
  lemma {:induction false} DeliversOnto(m: Machine, c: Config, inner: Target, outer: Target, xs: seq<State>,
                                        ys: seq<State>)
    requires Delivers(m, c, inner, xs) && Finer(inner, outer) && Delivers(m, Backtrack(inner.base), outer, ys)
    ensures Delivers(m, c, outer, xs + ys)
    decreases |xs|
  {
    if xs == [] {
      DeliversFrom(m, c, Backtrack(inner.base), outer, ys);
      assert xs + ys == ys;
    } else {
      var v, extra :|
        DeliversFirst(m, c, inner, xs[0], v, extra) && Delivers(m, Backtrack(inner.base + extra), inner, xs[1..]);
      DeliversOnto(m, Backtrack(inner.base + extra), inner, outer, xs[1..], ys);
      OntoStep(m, c, inner, outer, xs, ys, v, extra);
    }
  }

  lemma StepReaches(m: Machine, c: Config, d: Config)
    requires Step(m, c) == d
    ensures Reaches(m, c, d)
  {
    ReachesSelf(m, d);
    ReachesNext(m, c, d);
  }

  /** Results that arrive at a jump arrive at its target. */
  lemma {:induction false} DeliversAlong(m: Machine, c: Config, t: Target, to: nat, rs: seq<State>)
    requires Delivers(m, c, t, rs) && t.address < |m.program| && m.program[t.address] == Jump(to)
    ensures Delivers(m, c, t.(address := to), rs)
    decreases |rs|
  {
    var further := t.(address := to);
    if rs != [] {
      var v, extra :| DeliversFirst(m, c, t, rs[0], v, extra) && Delivers(m, Backtrack(t.base + extra), t, rs[1..]);
      StepReaches(m, Run(t.address, v, t.base + extra), Run(to, v, t.base + extra));
      ReachesTransitive(m, c, Run(t.address, v, t.base + extra), Run(to, v, t.base + extra));
      DeliversAlong(m, Backtrack(t.base + extra), t, to, rs[1..]);
      assert DeliversFirst(m, c, further, rs[0], v, extra);
    }
  }
}
