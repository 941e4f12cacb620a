/**
 The builder is correct: the code of every pattern delivers exactly the results of the pattern,
 so the first match it reports is the one that matching by continuations finds.
 */
module RegExpCorrectness {
  import opened Basics
  import opened CodePointSets
  import opened RegExpSyntax
  import opened RegExpSemantics
  import opened RegExpProgram
  import opened RegExpSimulation

  /** A node whose code stands at address `a`, with registers from `r` and groups from `n`. */
  datatype Site = Site(node: Node, backward: bool, a: nat, r: nat, n: nat)

  function CodeOf(site: Site, f: nat): seq<Instruction> {
    Code(site.node, site.backward, site.a, site.r, f)
  }

  function EndOf(site: Site): nat {
    site.a + Size(site.node)
  }

  function OwnOf(site: Site): Own {
    Own(site.r, site.r + Extra(site.node), site.n, site.n + Count(site.node))
  }

  ghost predicate HasAt(program: seq<Instruction>, a: nat, code: seq<Instruction>) {
    a + |code| <= |program| && forall i | 0 <= i < |code| :: program[a + i] == code[i]
  }

  /** The code is there, and failed assertions find the failing instruction. */
  ghost predicate Placed(m: Machine, site: Site, f: nat) {
    && HasAt(m.program, site.a, CodeOf(site, f))
    && f < |m.program| && m.program[f] == Fail
  }

  ghost predicate Represents(m: Machine, v: Registers, s: State) {
    v.index == s.index && CapturesOf(v.slots, m.groups) == s.captures
  }

  /** No group in the range has captured anything, not even its start. */
  ghost predicate Fresh(v: Registers, from: nat, to: nat) {
    2 * to <= |v.slots| && forall j | 2 * from <= j < 2 * to :: v.slots[j] == UNSET
  }

  /** Registers are laid out: groups first, then those of the node. */
  ghost predicate Fits(m: Machine, site: Site, v: Registers) {
    && Numbered(site.node, site.n) && WellBuilt(site.node, m.groups) && InputOk(m.input)
    && site.n + Count(site.node) <= m.groups && 2 * m.groups <= site.r && site.r + Extra(site.node) <= |v.slots|
  }

  ghost predicate Ready(m: Machine, site: Site, v: Registers, s: State) {
    && Fits(m, site, v) && StateOk(m.input, s) && Represents(m, v, s)
    && Fresh(v, site.n, site.n + Count(site.node))
  }

  function TargetOf(site: Site, v: Registers, base: seq<Entry>): Target {
    Target(base, EndOf(site), v, OwnOf(site))
  }

  ghost function ResultsOf(m: Machine, site: Site, s: State): seq<State>
    requires InputOk(m.input) && StateOk(m.input, s)
  {
    Results(site.node, site.backward, m.input, s)
  }

  // ----- Parts of placed code -----

  /** A part of code that stands somewhere stands at its place in it. */
  lemma PartHasAt(program: seq<Instruction>, a: nat, x: seq<Instruction>, y: seq<Instruction>, z: seq<Instruction>)
    requires HasAt(program, a, x + y + z)
    ensures HasAt(program, a + |x|, y)
  {
    forall i | 0 <= i < |y| ensures program[a + |x| + i] == y[i] {
      assert (x + y + z)[|x| + i] == y[i];
      assert program[a + (|x| + i)] == (x + y + z)[|x| + i];
    }
  }

  lemma InstructionAt(m: Machine, site: Site, f: nat, i: nat)
    requires Placed(m, site, f) && i < Size(site.node)
    ensures site.a + i < |m.program| && m.program[site.a + i] == CodeOf(site, f)[i]
  {}

  function EarlierSite(site: Site): Site
    requires site.node.Then?
  {
    Site(Earlier(site.node, site.backward), site.backward, site.a, site.r,
         if site.backward then site.n + Count(site.node.first) else site.n)
  }

  function LaterSite(site: Site): Site
    requires site.node.Then?
  {
    var first := Earlier(site.node, site.backward);
    Site(Later(site.node, site.backward), site.backward, site.a + Size(first), site.r + Extra(first),
         if site.backward then site.n else site.n + Count(site.node.first))
  }

  lemma ThenCode(site: Site, f: nat)
    requires site.node.Then?
    ensures CodeOf(site, f) == CodeOf(EarlierSite(site), f) + CodeOf(LaterSite(site), f)
  {}

  lemma ThenPlaced(m: Machine, site: Site, f: nat)
    requires site.node.Then? && Placed(m, site, f)
    ensures Placed(m, EarlierSite(site), f) && Placed(m, LaterSite(site), f)
  {
    var x, y := CodeOf(EarlierSite(site), f), CodeOf(LaterSite(site), f);
    ThenCode(site, f);
    assert x + y == [] + x + y && x + y == x + y + [];
    PartHasAt(m.program, site.a, [], x, y);
    PartHasAt(m.program, site.a, x, y, []);
  }

  function FirstSite(site: Site): Site
    requires site.node.Or?
  {
    Site(site.node.first, site.backward, site.a + 1, site.r, site.n)
  }

  function SecondSite(site: Site): Site
    requires site.node.Or?
  {
    Site(site.node.second, site.backward, site.a + Size(site.node.first) + 2, site.r + Extra(site.node.first),
         site.n + Count(site.node.first))
  }

  lemma OrCode(site: Site, f: nat)
    requires site.node.Or?
    ensures CodeOf(site, f) == [Fork(site.a + 1, SecondSite(site).a)] + CodeOf(FirstSite(site), f)
      + [Jump(EndOf(site))] + CodeOf(SecondSite(site), f)
  {}

  lemma OrPlaced(m: Machine, site: Site, f: nat)
    requires site.node.Or? && Placed(m, site, f)
    ensures Placed(m, FirstSite(site), f) && Placed(m, SecondSite(site), f)
    ensures site.a < |m.program| && m.program[site.a] == Fork(site.a + 1, SecondSite(site).a)
    ensures EndOf(FirstSite(site)) < |m.program| && m.program[EndOf(FirstSite(site))] == Jump(EndOf(site))
  {
    var x, y := CodeOf(FirstSite(site), f), CodeOf(SecondSite(site), f);
    var fork, jump := [Fork(site.a + 1, SecondSite(site).a)], [Jump(EndOf(site))];
    OrCode(site, f);
    assert fork + x + jump + y == fork + x + (jump + y);
    assert fork + x + jump + y == (fork + x + jump) + y + [];
    PartHasAt(m.program, site.a, fork, x, jump + y);
    PartHasAt(m.program, site.a, fork + x + jump, y, []);
    InstructionAt(m, site, f, 0);
    InstructionAt(m, site, f, 1 + |x|);
  }

  /** The body of a group, repetition, or lookaround. */
  function BodySite(site: Site): Site
    requires site.node.Group? || site.node.Repeat? || site.node.Look?
  {
    match site.node
    case Group(_, body) => Site(body, site.backward, site.a + 1, site.r, site.n + 1)
    case Repeat(body, _, _, _) => Site(body, site.backward, site.a + 3, site.r + 2, site.n)
    case Look(body, behind, _) => Site(body, behind, site.a + 1, site.r + 1, site.n)
  }

  function Prologue(site: Site, f: nat): seq<Instruction>
    requires site.node.Group? || site.node.Repeat? || site.node.Look?
  {
    CodeOf(site, f)[..BodySite(site).a - site.a]
  }

  function Epilogue(site: Site, f: nat): Instruction
    requires site.node.Group? || site.node.Repeat? || site.node.Look?
  {
    CodeOf(site, f)[Size(site.node) - 1]
  }

  lemma BodyCode(site: Site, f: nat)
    requires site.node.Group? || site.node.Repeat? || site.node.Look?
    ensures CodeOf(site, f) == Prologue(site, f) + CodeOf(BodySite(site), f) + [Epilogue(site, f)]
  {}

  lemma BodyPlaced(m: Machine, site: Site, f: nat)
    requires (site.node.Group? || site.node.Repeat? || site.node.Look?) && Placed(m, site, f)
    ensures Placed(m, BodySite(site), f)
  {
    BodyCode(site, f);
    PartHasAt(m.program, site.a, Prologue(site, f), CodeOf(BodySite(site), f), [Epilogue(site, f)]);
  }

  // ----- Nodes of one instruction -----

  predicate TakesOne(node: Node) {
    node.Characters? || node.Edge? || node.Boundary? || node.Backreference?
  }

  lemma TestedIsSimple(m: Machine, site: Site, f: nat, v: Registers, s: State)
    requires TakesOne(site.node) && Fits(m, site, v) && StateOk(m.input, s) && Represents(m, v, s)
    ensures IsTest(CodeOf(site, f)[0]) && TestSound(m, CodeOf(site, f)[0], v)
    ensures var t, rs := Tested(m, CodeOf(site, f)[0], v), Simple(site.node, site.backward, m.input, s);
      if t == None then rs == [] else rs == [s.(index := t.value)]
  {}

  lemma IndexKeepsCaptures(m: Machine, t: Target, v: Registers, s: State, i: nat)
    requires Arrived(m, t, v, s)
    ensures Arrived(m, t, v.(index := i), s.(index := i))
  {}

  lemma SimulateTest(m: Machine, site: Site, f: nat, v: Registers, s: State, base: seq<Entry>)
    requires TakesOne(site.node) && Placed(m, site, f) && Ready(m, site, v, s)
    ensures Delivers(m, Run(site.a, v, base), TargetOf(site, v, base), ResultsOf(m, site, s))
  {
    var c, t := Run(site.a, v, base), TargetOf(site, v, base);
    InstructionAt(m, site, f, 0);
    TestedIsSimple(m, site, f, v, s);
    var next := Tested(m, CodeOf(site, f)[0], v);
    ReachesSelf(m, Step(m, c));
    ReachesNext(m, c, Step(m, c));
    if next.Some? {
      IndexKeepsCaptures(m, t, v, s, next.value);
      DeliversOne(m, c, t, s.(index := next.value), v.(index := next.value));
    }
  }

  lemma SimulateEmpty(m: Machine, site: Site, v: Registers, s: State, base: seq<Entry>)
    requires site.node.Empty? && Ready(m, site, v, s)
    ensures Delivers(m, Run(site.a, v, base), TargetOf(site, v, base), ResultsOf(m, site, s))
  {
    ReachesSelf(m, Run(site.a, v, base));
    DeliversOne(m, Run(site.a, v, base), TargetOf(site, v, base), s, v);
  }

  // ----- One node after the other -----

  /** Code that leaves a piece of the site ready leaves what it does not own alone. */
  lemma LaterIsReady(m: Machine, site: Site, base: seq<Entry>, v: Registers, w: Registers, s: State, y: State)
    requires site.node.Then? && Ready(m, site, v, s)
    requires Arrived(m, TargetOf(EarlierSite(site), v, base), w, y) && StateOk(m.input, y)
    ensures Ready(m, LaterSite(site), w, y)
  {
    var later, t := LaterSite(site), TargetOf(EarlierSite(site), v, base);
    forall j | 2 * later.n <= j < 2 * (later.n + Count(later.node)) ensures w.slots[j] == UNSET {
      assert !Owns(t.own, j);
    }
  }

  lemma LaterIsFiner(site: Site, base: seq<Entry>, extra: seq<Entry>, v: Registers, w: Registers)
    requires site.node.Then? && Unchanged(TargetOf(EarlierSite(site), v, base), w)
    ensures Finer(TargetOf(LaterSite(site), w, base + extra), TargetOf(site, v, base))
  {
    var inner, outer := TargetOf(LaterSite(site), w, base + extra), TargetOf(site, v, base);
    forall u | Unchanged(inner, u) ensures Unchanged(outer, u) {
      forall j | 0 <= j < |u.slots| && !Owns(outer.own, j) ensures u.slots[j] == v.slots[j] {
        assert !Owns(inner.own, j) && !Owns(OwnOf(EarlierSite(site)), j);
      }
    }
  }

  // ----- Alternatives -----

  lemma AlternativesAreReady(m: Machine, site: Site, v: Registers, s: State)
    requires site.node.Or? && Ready(m, site, v, s)
    ensures Ready(m, FirstSite(site), v, s) && Ready(m, SecondSite(site), v, s)
  {}

  lemma AlternativeIsFiner(site: Site, part: Site, v: Registers, base: seq<Entry>, more: seq<Entry>)
    requires site.node.Or? && (part == FirstSite(site) || part == SecondSite(site))
    ensures Finer(TargetOf(part, v, base + more).(address := EndOf(site)), TargetOf(site, v, base))
  {
    var inner, outer := TargetOf(part, v, base + more).(address := EndOf(site)), TargetOf(site, v, base);
    forall u | Unchanged(inner, u) ensures Unchanged(outer, u) {
      forall j | 0 <= j < |u.slots| && !Owns(outer.own, j) ensures u.slots[j] == v.slots[j] {
        assert !Owns(inner.own, j);
      }
    }
  }

  /** The results of the first alternative, and those of the second once it is backtracked out of. */
  lemma SimulateOr(m: Machine, site: Site, f: nat, v: Registers, base: seq<Entry>, xs: seq<State>, ys: seq<State>)
    requires site.node.Or? && Placed(m, site, f)
    requires var entry := Entry(SecondSite(site).a, v);
      Delivers(m, Run(site.a + 1, v, base + [entry]), TargetOf(FirstSite(site), v, base + [entry]), xs)
    requires Delivers(m, Run(SecondSite(site).a, v, base), TargetOf(SecondSite(site), v, base), ys)
    ensures Delivers(m, Run(site.a, v, base), TargetOf(site, v, base), xs + ys)
  {
    var entry, outer := Entry(SecondSite(site).a, v), TargetOf(site, v, base);
    var first := TargetOf(FirstSite(site), v, base + [entry]);
    var begin, started := Run(site.a, v, base), Run(site.a + 1, v, base + [entry]);
    var resumed := Run(SecondSite(site).a, v, base);
    OrPlaced(m, site, f);
    DeliversAlong(m, started, first, EndOf(site), xs);
    StepReaches(m, begin, started);
    DeliversFrom(m, begin, started, first.(address := EndOf(site)), xs);
    assert (base + [entry])[..|base|] == base;
    StepReaches(m, Backtrack(base + [entry]), resumed);
    ReachesSelf(m, Backtrack(base));
    AlternativeIsFiner(site, SecondSite(site), v, base, []);
    assert base + [] == base;
    DeliversOnto(m, resumed, TargetOf(SecondSite(site), v, base), outer, ys, []);
    assert ys + [] == ys;
    DeliversFrom(m, Backtrack(base + [entry]), resumed, outer, ys);
    AlternativeIsFiner(site, FirstSite(site), v, base, [entry]);
    DeliversOnto(m, begin, first.(address := EndOf(site)), outer, xs, ys);
  }

  // ----- Groups -----

  function OpenSlot(site: Site): nat
    requires site.node.Group?
  {
    2 * site.node.index + if site.backward then 1 else 0
  }

  function CloseSlot(site: Site): nat
    requires site.node.Group?
  {
    2 * site.node.index + if site.backward then 0 else 1
  }

  lemma OpenedIsReady(m: Machine, site: Site, v: Registers, s: State)
    requires site.node.Group? && Ready(m, site, v, s)
    ensures Ready(m, BodySite(site), Write(v, OpenSlot(site), v.index), s)
  {
    var w, k := Write(v, OpenSlot(site), v.index), site.node.index;
    forall g | 0 <= g < m.groups ensures CaptureOf(w.slots, g) == CaptureOf(v.slots, g) {
      assert g == k ==> v.slots[2 * k] == UNSET && v.slots[2 * k + 1] == UNSET;
    }
    assert CapturesOf(w.slots, m.groups) == CapturesOf(v.slots, m.groups);
  }

  lemma ClosedArrives(m: Machine, site: Site, base: seq<Entry>, v: Registers, s: State, w: Registers, y: State)
    requires site.node.Group? && Ready(m, site, v, s)
    requires Arrived(m, TargetOf(BodySite(site), Write(v, OpenSlot(site), v.index), base), w, y)
    ensures Arrived(m, TargetOf(site, v, base), Write(w, CloseSlot(site), w.index),
                    Closed(y, s.index, site.node.index, site.backward))
  {
    var k, u := site.node.index, Write(w, CloseSlot(site), w.index);
    var inner := TargetOf(BodySite(site), Write(v, OpenSlot(site), v.index), base);
    var closed := Closed(y, s.index, k, site.backward);
    assert !Owns(inner.own, OpenSlot(site));
    assert w.slots[OpenSlot(site)] == s.index;
    forall g | 0 <= g < m.groups ensures CaptureOf(u.slots, g) == closed.captures[g] {
      assert g != k ==> CaptureOf(u.slots, g) == CaptureOf(w.slots, g) == CapturesOf(w.slots, m.groups)[g];
    }
    assert CapturesOf(u.slots, m.groups) == closed.captures;
    ClosedIsUnchanged(site, base, v, w);
  }

  lemma ClosedIsUnchanged(site: Site, base: seq<Entry>, v: Registers, w: Registers)
    requires site.node.Group? && Numbered(site.node, site.n)
    requires Unchanged(TargetOf(BodySite(site), Write(v, OpenSlot(site), v.index), base), w)
    ensures Unchanged(TargetOf(site, v, base), Write(w, CloseSlot(site), w.index))
  {
    var u, outer := Write(w, CloseSlot(site), w.index), TargetOf(site, v, base);
    forall j | 0 <= j < |u.slots| && !Owns(outer.own, j) ensures u.slots[j] == v.slots[j] {
      assert !Owns(OwnOf(BodySite(site)), j);
    }
  }

  lemma CloseFirst(m: Machine, site: Site, f: nat, v: Registers, s: State, base: seq<Entry>, c: Config, y: State,
                   w: Registers, extra: seq<Entry>)
    requires site.node.Group? && Placed(m, site, f) && Ready(m, site, v, s)
    requires DeliversFirst(m, c, TargetOf(BodySite(site), Write(v, OpenSlot(site), v.index), base), y, w, extra)
    ensures DeliversFirst(m, c, TargetOf(site, v, base), Closed(y, s.index, site.node.index, site.backward),
                          Write(w, CloseSlot(site), w.index), extra)
  {
    var u, last := Write(w, CloseSlot(site), w.index), EndOf(BodySite(site));
    ClosedArrives(m, site, base, v, s, w, y);
    InstructionAt(m, site, f, Size(site.node) - 1);
    StepReaches(m, Run(last, w, base + extra), Run(EndOf(site), u, base + extra));
    ReachesTransitive(m, c, Run(last, w, base + extra), Run(EndOf(site), u, base + extra));
  }

  /** Each result of the body is closed on the way out. */
  lemma {:induction false} SimulateClose(m: Machine, site: Site, f: nat, v: Registers, s: State, base: seq<Entry>,
                                         c: Config, ys: seq<State>)
    requires site.node.Group? && Placed(m, site, f) && Ready(m, site, v, s)
    requires Delivers(m, c, TargetOf(BodySite(site), Write(v, OpenSlot(site), v.index), base), ys)
    ensures Delivers(m, c, TargetOf(site, v, base), ClosedEach(ys, s.index, site.node.index, site.backward))
    decreases |ys|
  {
    if ys != [] {
      var inner := TargetOf(BodySite(site), Write(v, OpenSlot(site), v.index), base);
      var w, extra :|
        DeliversFirst(m, c, inner, ys[0], w, extra) && Delivers(m, Backtrack(base + extra), inner, ys[1..]);
      SimulateClose(m, site, f, v, s, base, Backtrack(base + extra), ys[1..]);
      CloseFirst(m, site, f, v, s, base, c, ys[0], w, extra);
      var first := Closed(ys[0], s.index, site.node.index, site.backward);
      var others := ClosedEach(ys[1..], s.index, site.node.index, site.backward);
      DeliversThen(m, c, TargetOf(site, v, base), first, Write(w, CloseSlot(site), w.index), extra, others);
      assert ClosedEach(ys, s.index, site.node.index, site.backward) == [first] + others;
    }
  }

  lemma SimulateGroup(m: Machine, site: Site, f: nat, v: Registers, s: State, base: seq<Entry>, ys: seq<State>)
    requires site.node.Group? && Placed(m, site, f) && Ready(m, site, v, s)
    requires var w := Write(v, OpenSlot(site), v.index);
      Delivers(m, Run(site.a + 1, w, base), TargetOf(BodySite(site), w, base), ys)
    ensures Delivers(m, Run(site.a, v, base), TargetOf(site, v, base),
                     ClosedEach(ys, s.index, site.node.index, site.backward))
  {
    var w := Write(v, OpenSlot(site), v.index);
    InstructionAt(m, site, f, 0);
    StepReaches(m, Run(site.a, v, base), Run(site.a + 1, w, base));
    DeliversFrom(m, Run(site.a, v, base), Run(site.a + 1, w, base), TargetOf(BodySite(site), w, base), ys);
    SimulateClose(m, site, f, v, s, base, Run(site.a, v, base), ys);
  }

  // ----- Lookarounds -----

  function LookResults(s: State, negated: bool, ys: seq<State>): seq<State> {
    if negated then (if ys == [] then [s] else [])
    else if ys == [] then [] else [State(s.index, ys[0].captures)]
  }

  function OnFail(site: Site, f: nat): nat
    requires site.node.Look?
  {
    if site.node.negated then EndOf(site) else f
  }

  lemma LookIsReady(m: Machine, site: Site, v: Registers, s: State, height: nat)
    requires site.node.Look? && Ready(m, site, v, s)
    ensures Ready(m, BodySite(site), Write(v, site.r, height), s)
  {
    var w := Write(v, site.r, height);
    assert forall g | 0 <= g < m.groups :: CaptureOf(w.slots, g) == CaptureOf(v.slots, g);
    assert CapturesOf(w.slots, m.groups) == CapturesOf(v.slots, m.groups);
  }

  /** What the body leaves: the frame is as it was set, and the site owns everything that changed. */
  lemma LookKeeps(m: Machine, site: Site, v: Registers, s: State, base: seq<Entry>, inner: seq<Entry>, w: Registers,
                  y: State)
    requires site.node.Look? && Ready(m, site, v, s)
    requires Arrived(m, TargetOf(BodySite(site), Write(v, site.r, |base|), inner), w, y)
    ensures site.r < |w.slots| && w.slots[site.r] == |base|
    ensures Arrived(m, TargetOf(site, v, base), w.(index := s.index), State(s.index, y.captures))
  {
    var t, outer := TargetOf(BodySite(site), Write(v, site.r, |base|), inner), TargetOf(site, v, base);
    assert !Owns(t.own, site.r);
    forall j | 0 <= j < |w.slots| && !Owns(outer.own, j) ensures w.slots[j] == v.slots[j] {
      assert !Owns(t.own, j);
    }
  }

  lemma SimulateLook(m: Machine, site: Site, f: nat, v: Registers, s: State, base: seq<Entry>, ys: seq<State>)
    requires site.node.Look? && Placed(m, site, f) && Ready(m, site, v, s)
    requires var w, inner := Write(v, site.r, |base|), base + [Entry(OnFail(site, f), v)];
      Delivers(m, Run(site.a + 1, w, inner), TargetOf(BodySite(site), w, inner), ys)
    ensures Delivers(m, Run(site.a, v, base), TargetOf(site, v, base), LookResults(s, site.node.negated, ys))
  {
    var w, inner := Write(v, site.r, |base|), base + [Entry(OnFail(site, f), v)];
    var begin, started := Run(site.a, v, base), Run(site.a + 1, w, inner);
    InstructionAt(m, site, f, 0);
    StepReaches(m, begin, started);
    DeliversFrom(m, begin, started, TargetOf(BodySite(site), w, inner), ys);
    if ys == [] {
      LookWithout(m, site, f, v, s, base);
    } else {
      var u, extra :| DeliversFirst(m, begin, TargetOf(BodySite(site), w, inner), ys[0], u, extra);
      LookWith(m, site, f, v, s, base, u, extra, ys[0]);
    }
  }

  /** The body has no result. */
  lemma LookWithout(m: Machine, site: Site, f: nat, v: Registers, s: State, base: seq<Entry>)
    requires site.node.Look? && Placed(m, site, f) && Ready(m, site, v, s)
    requires Reaches(m, Run(site.a, v, base), Backtrack(base + [Entry(OnFail(site, f), v)]))
    ensures Delivers(m, Run(site.a, v, base), TargetOf(site, v, base), LookResults(s, site.node.negated, []))
  {
    var begin, failed := Run(site.a, v, base), Backtrack(base + [Entry(OnFail(site, f), v)]);
    var resumed := Run(OnFail(site, f), v, base);
    assert (base + [Entry(OnFail(site, f), v)])[..|base|] == base;
    StepReaches(m, failed, resumed);
    ReachesTransitive(m, begin, failed, resumed);
    if site.node.negated {
      DeliversOne(m, begin, TargetOf(site, v, base), s, v);
    } else {
      StepReaches(m, resumed, Backtrack(base));
      ReachesTransitive(m, begin, resumed, Backtrack(base));
    }
  }

  /** The body has a result; its entries are discarded. */
  lemma LookWith(m: Machine, site: Site, f: nat, v: Registers, s: State, base: seq<Entry>, u: Registers,
                 extra: seq<Entry>, y: State)
    requires site.node.Look? && Placed(m, site, f) && Ready(m, site, v, s)
    requires var w, inner := Write(v, site.r, |base|), base + [Entry(OnFail(site, f), v)];
      DeliversFirst(m, Run(site.a, v, base), TargetOf(BodySite(site), w, inner), y, u, extra)
    ensures Delivers(m, Run(site.a, v, base), TargetOf(site, v, base), LookResults(s, site.node.negated, [y]))
  {
    var inner := base + [Entry(OnFail(site, f), v)];
    var begin, last := Run(site.a, v, base), Run(EndOf(BodySite(site)), u, inner + extra);
    InstructionAt(m, site, f, Size(site.node) - 1);
    LookKeeps(m, site, v, s, base, inner, u, y);
    assert (inner + extra)[|base|] == Entry(OnFail(site, f), v) && (inner + extra)[..|base|] == base;
    if site.node.negated {
      StepReaches(m, last, Backtrack(base));
      ReachesTransitive(m, begin, last, Backtrack(base));
    } else {
      var next := Run(EndOf(site), u.(index := s.index), base);
      StepReaches(m, last, next);
      ReachesTransitive(m, begin, last, next);
      DeliversOne(m, begin, TargetOf(site, v, base), State(s.index, y.captures), u.(index := s.index));
    }
  }

  // ----- Repetitions -----

  /** At the head of a repetition the groups inside may still hold what the last round captured. */
  ghost predicate HeadReady(m: Machine, site: Site, v: Registers, s: State) {
    site.node.Repeat? && Fits(m, site, v) && StateOk(m.input, s) && Represents(m, v, s)
  }

  function EnterOf(site: Site): Instruction
    requires site.node.Repeat?
  {
    RepeatEnter(site.a + 3, ClearFrom(site.node.body), ClearTo(site.node.body), site.r, site.r + 1)
  }

  function Entered(site: Site, v: Registers): Registers
    requires site.node.Repeat?
  {
    EnterRound(v, EnterOf(site))
  }

  lemma ClearedSlots(site: Site, v: Registers)
    requires site.node.Repeat? && Numbered(site.node, site.n) && 2 * (site.n + Count(site.node)) <= site.r
    requires site.r + 1 < |v.slots|
    ensures var w := Entered(site, v);
      && |w.slots| == |v.slots| && w.index == v.index
      && w.slots[site.r] == v.slots[site.r] + 1 && w.slots[site.r + 1] == v.index
      && forall j | 0 <= j < |v.slots| && j != site.r && j != site.r + 1 ::
           w.slots[j] == if 2 * site.n <= j < 2 * (site.n + Count(site.node)) then UNSET else v.slots[j]
  {
    BoundsAreRange(site.node.body, site.n);
  }

  lemma EnteredIsReady(m: Machine, site: Site, v: Registers, s: State)
    requires HeadReady(m, site, v, s)
    ensures Ready(m, BodySite(site), Entered(site, v), Cleared(s, site.node.body))
  {
    var w, cleared := Entered(site, v), Cleared(s, site.node.body);
    ClearedSlots(site, v);
    ClearedIsOk(m.input, s, site.node.body);
    forall g | 0 <= g < m.groups ensures CaptureOf(w.slots, g) == cleared.captures[g] {
      NumberedEncloses(site.node.body, site.n, g);
      assert CaptureOf(v.slots, g) == CapturesOf(v.slots, m.groups)[g];
    }
    assert CapturesOf(w.slots, m.groups) == cleared.captures;
  }

  /** What a round leaves: the count is one more, its start is on record, and the site owns what changed. */
  lemma RoundKeeps(m: Machine, site: Site, v: Registers, s: State, base: seq<Entry>, extra: seq<Entry>, w: Registers,
                   y: State)
    requires HeadReady(m, site, v, s) && Arrived(m, TargetOf(BodySite(site), Entered(site, v), base), w, y)
    requires StateOk(m.input, y)
    ensures w.slots[site.r] == v.slots[site.r] + 1 && w.slots[site.r + 1] == v.index
    ensures HeadReady(m, site, w, y)
    ensures Finer(TargetOf(site, w, base + extra), TargetOf(site, v, base))
  {
    var t, outer := TargetOf(BodySite(site), Entered(site, v), base), TargetOf(site, v, base);
    ClearedSlots(site, v);
    assert !Owns(t.own, site.r) && !Owns(t.own, site.r + 1);
    forall j | 0 <= j < |w.slots| && !Owns(outer.own, j) ensures w.slots[j] == v.slots[j] {
      assert !Owns(t.own, j);
    }
  }

  function Left(bound: nat, done: nat): nat {
    if bound > done then bound - done else 0
  }

  function LeftOf(maximum: Option<nat>, done: nat): Option<nat>
    requires maximum.Some? ==> done <= maximum.value
  {
    if maximum == None then None else Some(maximum.value - done)
  }

  /** How many rounds are made, required, and allowed. */
  ghost predicate Counts(site: Site, v: Registers, done: nat) {
    && site.node.Repeat? && Slot(v.slots, site.r) == done
    && (site.node.maximum.Some? ==> done <= site.node.maximum.value)
  }

  ghost function RoundsLeft(m: Machine, site: Site, s: State, done: nat): seq<State>
    requires site.node.Repeat? && InputOk(m.input) && StateOk(m.input, s)
    requires site.node.maximum.Some? ==> done <= site.node.maximum.value
  {
    Rounds(site.node, Left(site.node.minimum, done), LeftOf(site.node.maximum, done), site.backward, m.input, s)
  }

  lemma FinerOnMore(site: Site, v: Registers, base: seq<Entry>, more: seq<Entry>)
    ensures Finer(TargetOf(site, v, base + more), TargetOf(site, v, base))
  {}

  /** The decision at the head: the rounds that are tried, and the exit, in the order of preference. */
  lemma SimulateDecision(m: Machine, site: Site, f: nat, v: Registers, s: State, base: seq<Entry>, done: nat,
                         more: seq<State>)
    requires Placed(m, site, f) && HeadReady(m, site, v, s) && Counts(site, v, done)
    requires LeftOf(site.node.maximum, done) != Some(0)
    requires forall inner :: Delivers(m, Run(site.a + 2, v, inner), TargetOf(site, v, inner), more)
    ensures Delivers(m, Run(site.a + 1, v, base), TargetOf(site, v, base),
                     if Left(site.node.minimum, done) > 0 then more else if site.node.greedy then more + [s]
                     else [s] + more)
  {
    var head, outer := Run(site.a + 1, v, base), TargetOf(site, v, base);
    var enter, exit := Entry(site.a + 2, v), Entry(EndOf(site), v);
    InstructionAt(m, site, f, 1);
    if done < site.node.minimum {
      StepReaches(m, head, Run(site.a + 2, v, base));
      DeliversFrom(m, head, Run(site.a + 2, v, base), outer, more);
    } else if site.node.greedy {
      var inner := base + [exit];
      StepReaches(m, head, Run(site.a + 2, v, inner));
      DeliversFrom(m, head, Run(site.a + 2, v, inner), TargetOf(site, v, inner), more);
      assert inner[..|base|] == base;
      StepReaches(m, Backtrack(inner), Run(EndOf(site), v, base));
      DeliversOne(m, Backtrack(inner), outer, s, v);
      FinerOnMore(site, v, base, [exit]);
      DeliversOnto(m, head, TargetOf(site, v, inner), outer, more, [s]);
    } else {
      var inner := base + [enter];
      StepReaches(m, head, Run(EndOf(site), v, inner));
      assert inner[..|base|] == base;
      StepReaches(m, Backtrack(inner), Run(site.a + 2, v, base));
      DeliversFrom(m, Backtrack(inner), Run(site.a + 2, v, base), outer, more);
      assert DeliversFirst(m, head, outer, s, v, [enter]);
      DeliversThen(m, head, outer, s, v, [enter], more);
    }
  }

  lemma SimulateExit(m: Machine, site: Site, f: nat, v: Registers, s: State, base: seq<Entry>, done: nat)
    requires Placed(m, site, f) && HeadReady(m, site, v, s) && Counts(site, v, done)
    requires LeftOf(site.node.maximum, done) == Some(0)
    ensures Delivers(m, Run(site.a + 1, v, base), TargetOf(site, v, base), [s])
  {
    InstructionAt(m, site, f, 1);
    StepReaches(m, Run(site.a + 1, v, base), Run(EndOf(site), v, base));
    DeliversOne(m, Run(site.a + 1, v, base), TargetOf(site, v, base), s, v);
  }

  /** From the head of a repetition, with `done` rounds made. */
  lemma {:induction false} SimulateHead(m: Machine, site: Site, f: nat, v: Registers, s: State, base: seq<Entry>,
                                        done: nat)
    requires Placed(m, site, f) && HeadReady(m, site, v, s) && Counts(site, v, done)
    ensures Delivers(m, Run(site.a + 1, v, base), TargetOf(site, v, base), RoundsLeft(m, site, s, done))
    decreases site.node, 1, Left(site.node.minimum, done), Room(m.input, s, site.backward), 2, 0, 0
  {
    if LeftOf(site.node.maximum, done) == Some(0) {
      SimulateExit(m, site, f, v, s, base, done);
    } else {
      ClearedIsOk(m.input, s, site.node.body);
      var more := MoreRounds(m, site, s, done, RoundResults(m, site, s));
      forall inner ensures Delivers(m, Run(site.a + 2, v, inner), TargetOf(site, v, inner), more) {
        SimulateEnter(m, site, f, v, s, inner, done);
      }
      SimulateDecision(m, site, f, v, s, base, done, more);
    }
  }

  /** The ways of going round once. */
  ghost function RoundResults(m: Machine, site: Site, s: State): (ys: seq<State>)
    requires site.node.Repeat? && InputOk(m.input) && StateOk(m.input, s)
    ensures AllMoved(m.input, s, ys, site.backward)
  {
    ClearedIsOk(m.input, s, site.node.body);
    Results(site.node.body, site.backward, m.input, Cleared(s, site.node.body))
  }

  ghost function MoreRounds(m: Machine, site: Site, s: State, done: nat, ys: seq<State>): seq<State>
    requires site.node.Repeat? && InputOk(m.input) && StateOk(m.input, s) && AllMoved(m.input, s, ys, site.backward)
    requires site.node.maximum.Some? ==> done < site.node.maximum.value
  {
    RoundsEach(site.node, Left(site.node.minimum, done), LeftOf(site.node.maximum, done), site.backward, m.input, s, ys)
  }

  lemma {:induction false} SimulateEnter(m: Machine, site: Site, f: nat, v: Registers, s: State, base: seq<Entry>,
                                         done: nat)
    requires Placed(m, site, f) && HeadReady(m, site, v, s) && Counts(site, v, done)
    requires LeftOf(site.node.maximum, done) != Some(0)
    ensures Delivers(m, Run(site.a + 2, v, base), TargetOf(site, v, base),
                     MoreRounds(m, site, s, done, RoundResults(m, site, s)))
    decreases site.node, 1, Left(site.node.minimum, done), Room(m.input, s, site.backward), 1, 0, 0
  {
    var w, enter := Entered(site, v), Run(site.a + 2, v, base);
    InstructionAt(m, site, f, 2);
    BoundsAreRange(site.node.body, site.n);
    StepReaches(m, enter, Run(site.a + 3, w, base));
    EnteredIsReady(m, site, v, s);
    BodyPlaced(m, site, f);
    Simulate(m, BodySite(site), f, w, Cleared(s, site.node.body), base);
    var ys := RoundResults(m, site, s);
    DeliversFrom(m, enter, Run(site.a + 3, w, base), TargetOf(BodySite(site), w, base), ys);
    SimulateRounds(m, site, f, v, s, base, done, enter, ys);
  }

  /** What becomes of each round at its end. */
  lemma {:induction false} SimulateRounds(m: Machine, site: Site, f: nat, v: Registers, s: State, base: seq<Entry>,
                                          done: nat, c: Config, ys: seq<State>)
    requires Placed(m, site, f) && HeadReady(m, site, v, s) && Counts(site, v, done)
    requires LeftOf(site.node.maximum, done) != Some(0) && AllMoved(m.input, s, ys, site.backward)
    requires Delivers(m, c, TargetOf(BodySite(site), Entered(site, v), base), ys)
    ensures Delivers(m, c, TargetOf(site, v, base), MoreRounds(m, site, s, done, ys))
    decreases site.node, 1, Left(site.node.minimum, done), Room(m.input, s, site.backward), 0, |ys|, 1
  {
    if ys != [] {
      var inner := TargetOf(BodySite(site), Entered(site, v), base);
      var w, extra :|
        DeliversFirst(m, c, inner, ys[0], w, extra) && Delivers(m, Backtrack(base + extra), inner, ys[1..]);
      SimulateRounds(m, site, f, v, s, base, done, Backtrack(base + extra), ys[1..]);
      SimulateRound(m, site, f, v, s, base, done, c, ys, w, extra);
    }
  }

  /** What becomes of the first round, before the others. */
  lemma {:induction false} SimulateRound(m: Machine, site: Site, f: nat, v: Registers, s: State, base: seq<Entry>,
                                         done: nat, c: Config, ys: seq<State>, w: Registers, extra: seq<Entry>)
    requires Placed(m, site, f) && HeadReady(m, site, v, s) && Counts(site, v, done)
    requires LeftOf(site.node.maximum, done) != Some(0) && AllMoved(m.input, s, ys, site.backward) && ys != []
    requires DeliversFirst(m, c, TargetOf(BodySite(site), Entered(site, v), base), ys[0], w, extra)
    requires Delivers(m, Backtrack(base + extra), TargetOf(site, v, base), MoreRounds(m, site, s, done, ys[1..]))
    ensures Delivers(m, c, TargetOf(site, v, base), MoreRounds(m, site, s, done, ys))
    decreases site.node, 1, Left(site.node.minimum, done), Room(m.input, s, site.backward), 0, |ys|, 0
  {
    if Left(site.node.minimum, done) == 0 && ys[0].index == s.index {
      SkipRound(m, site, f, v, s, base, done, c, ys, w, extra);
    } else {
      RoundKeeps(m, site, v, s, base, extra, w, ys[0]);
      SimulateHead(m, site, f, w, ys[0], base + extra, done + 1);
      TakeRound(m, site, f, v, s, base, done, c, ys, w, extra);
    }
  }

  /** An empty round that is not needed leaves the others. */
  lemma SkipRound(m: Machine, site: Site, f: nat, v: Registers, s: State, base: seq<Entry>, done: nat, c: Config,
                  ys: seq<State>, w: Registers, extra: seq<Entry>)
    requires Placed(m, site, f) && HeadReady(m, site, v, s) && Counts(site, v, done)
    requires LeftOf(site.node.maximum, done) != Some(0) && AllMoved(m.input, s, ys, site.backward) && ys != []
    requires DeliversFirst(m, c, TargetOf(BodySite(site), Entered(site, v), base), ys[0], w, extra)
    requires Delivers(m, Backtrack(base + extra), TargetOf(site, v, base), MoreRounds(m, site, s, done, ys[1..]))
    requires Left(site.node.minimum, done) == 0 && ys[0].index == s.index
    ensures Delivers(m, c, TargetOf(site, v, base), MoreRounds(m, site, s, done, ys))
  {
    RoundKeeps(m, site, v, s, base, extra, w, ys[0]);
    EmptyRoundFails(m, site, f, v, s, base + extra, done, w, ys[0]);
    ReachesTransitive(m, c, Run(EndOf(BodySite(site)), w, base + extra), Backtrack(base + extra));
    DeliversFrom(m, c, Backtrack(base + extra), TargetOf(site, v, base), MoreRounds(m, site, s, done, ys[1..]));
  }

  /** Any other round goes on from the head. */
  lemma TakeRound(m: Machine, site: Site, f: nat, v: Registers, s: State, base: seq<Entry>, done: nat, c: Config,
                  ys: seq<State>, w: Registers, extra: seq<Entry>)
    requires Placed(m, site, f) && HeadReady(m, site, v, s) && Counts(site, v, done)
    requires LeftOf(site.node.maximum, done) != Some(0) && AllMoved(m.input, s, ys, site.backward) && ys != []
    requires DeliversFirst(m, c, TargetOf(BodySite(site), Entered(site, v), base), ys[0], w, extra)
    requires Delivers(m, Run(site.a + 1, w, base + extra), TargetOf(site, w, base + extra),
                      RoundsLeft(m, site, ys[0], done + 1))
    requires Delivers(m, Backtrack(base + extra), TargetOf(site, v, base), MoreRounds(m, site, s, done, ys[1..]))
    requires Left(site.node.minimum, done) > 0 || ys[0].index != s.index
    ensures Delivers(m, c, TargetOf(site, v, base), MoreRounds(m, site, s, done, ys))
  {
    var first, others := RoundsLeft(m, site, ys[0], done + 1), MoreRounds(m, site, s, done, ys[1..]);
    RoundKeeps(m, site, v, s, base, extra, w, ys[0]);
    RoundGoesOn(m, site, f, v, s, base + extra, done, w, ys[0]);
    ReachesTransitive(m, c, Run(EndOf(BodySite(site)), w, base + extra), Run(site.a + 1, w, base + extra));
    DeliversFrom(m, c, Run(site.a + 1, w, base + extra), TargetOf(site, w, base + extra), first);
    DeliversOnto(m, c, TargetOf(site, w, base + extra), TargetOf(site, v, base), first, others);
    RoundsSplit(m, site, s, done, ys);
  }

  lemma RoundsSplit(m: Machine, site: Site, s: State, done: nat, ys: seq<State>)
    requires site.node.Repeat? && InputOk(m.input) && StateOk(m.input, s) && AllMoved(m.input, s, ys, site.backward)
    requires LeftOfOk(site, done) && LeftOf(site.node.maximum, done) != Some(0) && ys != []
    requires Left(site.node.minimum, done) > 0 || ys[0].index != s.index
    ensures LeftOfOk(site, done + 1)
    ensures MoreRounds(m, site, s, done, ys) ==
      RoundsLeft(m, site, ys[0], done + 1) + MoreRounds(m, site, s, done, ys[1..])
  {}

  predicate LeftOfOk(site: Site, done: nat)
    requires site.node.Repeat?
  {
    site.node.maximum.Some? ==> done <= site.node.maximum.value
  }

  lemma EmptyRoundFails(m: Machine, site: Site, f: nat, v: Registers, s: State, stack: seq<Entry>, done: nat,
                        w: Registers, y: State)
    requires Placed(m, site, f) && HeadReady(m, site, v, s) && Counts(site, v, done) && Represents(m, w, y)
    requires |w.slots| == |v.slots| && w.slots[site.r] == v.slots[site.r] + 1 && w.slots[site.r + 1] == v.index
    requires Left(site.node.minimum, done) == 0 && y.index == s.index
    ensures Reaches(m, Run(EndOf(BodySite(site)), w, stack), Backtrack(stack))
  {
    InstructionAt(m, site, f, Size(site.node) - 1);
    StepReaches(m, Run(EndOf(BodySite(site)), w, stack), Backtrack(stack));
  }

  lemma RoundGoesOn(m: Machine, site: Site, f: nat, v: Registers, s: State, stack: seq<Entry>, done: nat,
                    w: Registers, y: State)
    requires Placed(m, site, f) && HeadReady(m, site, v, s) && Counts(site, v, done) && Represents(m, w, y)
    requires |w.slots| == |v.slots| && w.slots[site.r] == v.slots[site.r] + 1 && w.slots[site.r + 1] == v.index
    requires Left(site.node.minimum, done) > 0 || y.index != s.index
    ensures Reaches(m, Run(EndOf(BodySite(site)), w, stack), Run(site.a + 1, w, stack))
  {
    InstructionAt(m, site, f, Size(site.node) - 1);
    StepReaches(m, Run(EndOf(BodySite(site)), w, stack), Run(site.a + 1, w, stack));
  }

  lemma RepeatStarts(m: Machine, site: Site, f: nat, v: Registers, s: State, base: seq<Entry>)
    requires site.node.Repeat? && Placed(m, site, f) && Ready(m, site, v, s)
    ensures var w := Write(v, site.r, 0);
      && HeadReady(m, site, w, s) && Counts(site, w, 0)
      && Reaches(m, Run(site.a, v, base), Run(site.a + 1, w, base))
      && Finer(TargetOf(site, w, base), TargetOf(site, v, base))
  {
    var w := Write(v, site.r, 0);
    InstructionAt(m, site, f, 0);
    StepReaches(m, Run(site.a, v, base), Run(site.a + 1, w, base));
    assert forall g | 0 <= g < m.groups :: CaptureOf(w.slots, g) == CaptureOf(v.slots, g);
    assert CapturesOf(w.slots, m.groups) == CapturesOf(v.slots, m.groups);
  }

  lemma DeliversFiner(m: Machine, c: Config, inner: Target, outer: Target, rs: seq<State>)
    requires Delivers(m, c, inner, rs) && Finer(inner, outer) && inner.base == outer.base
    ensures Delivers(m, c, outer, rs)
  {
    ReachesSelf(m, Backtrack(outer.base));
    DeliversOnto(m, c, inner, outer, rs, []);
    assert rs + [] == rs;
  }

  // ----- Every node -----

  /** What follows the results of the earlier part. */
  lemma {:induction false} SimulateLater(m: Machine, site: Site, f: nat, v: Registers, s: State, base: seq<Entry>,
                                         c: Config, ys: seq<State>)
    requires site.node.Then? && Placed(m, site, f) && Ready(m, site, v, s)
    requires AllMoved(m.input, s, ys, site.backward)
    requires Delivers(m, c, TargetOf(EarlierSite(site), v, base), ys)
    ensures Delivers(m, c, TargetOf(site, v, base),
                     ResultsEach(Later(site.node, site.backward), site.backward, m.input, s, ys))
    decreases Later(site.node, site.backward), 4, 0, 0, 0, |ys|
  {
    if ys != [] {
      var t, later := TargetOf(EarlierSite(site), v, base), LaterSite(site);
      var w, extra :| DeliversFirst(m, c, t, ys[0], w, extra) && Delivers(m, Backtrack(base + extra), t, ys[1..]);
      LaterIsReady(m, site, base, v, w, s, ys[0]);
      ThenPlaced(m, site, f);
      Simulate(m, later, f, w, ys[0], base + extra);
      var first := ResultsOf(m, later, ys[0]);
      DeliversFrom(m, c, Run(later.a, w, base + extra), TargetOf(later, w, base + extra), first);
      SimulateLater(m, site, f, v, s, base, Backtrack(base + extra), ys[1..]);
      LaterIsFiner(site, base, extra, v, w);
      DeliversOnto(m, c, TargetOf(later, w, base + extra), TargetOf(site, v, base), first,
                   ResultsEach(later.node, site.backward, m.input, s, ys[1..]));
    }
  }

  lemma EarlierIsReady(m: Machine, site: Site, v: Registers, s: State)
    requires site.node.Then? && Ready(m, site, v, s)
    ensures Ready(m, EarlierSite(site), v, s)
  {}

  lemma {:induction false} SimulateThen(m: Machine, site: Site, f: nat, v: Registers, s: State, base: seq<Entry>)
    requires site.node.Then? && Placed(m, site, f) && Ready(m, site, v, s)
    ensures Delivers(m, Run(site.a, v, base), TargetOf(site, v, base), ResultsOf(m, site, s))
    decreases site.node, 2, 0, 0, 0, 0
  {
    ThenPlaced(m, site, f);
    EarlierIsReady(m, site, v, s);
    Simulate(m, EarlierSite(site), f, v, s, base);
    SimulateLater(m, site, f, v, s, base, Run(site.a, v, base), ResultsOf(m, EarlierSite(site), s));
  }

  lemma {:induction false} SimulateEither(m: Machine, site: Site, f: nat, v: Registers, s: State, base: seq<Entry>)
    requires site.node.Or? && Placed(m, site, f) && Ready(m, site, v, s)
    ensures Delivers(m, Run(site.a, v, base), TargetOf(site, v, base), ResultsOf(m, site, s))
    decreases site.node, 2, 0, 0, 0, 0
  {
    OrPlaced(m, site, f);
    AlternativesAreReady(m, site, v, s);
    Simulate(m, FirstSite(site), f, v, s, base + [Entry(SecondSite(site).a, v)]);
    Simulate(m, SecondSite(site), f, v, s, base);
    SimulateOr(m, site, f, v, base, ResultsOf(m, FirstSite(site), s), ResultsOf(m, SecondSite(site), s));
  }

  lemma {:induction false} SimulateRepeat(m: Machine, site: Site, f: nat, v: Registers, s: State, base: seq<Entry>)
    requires site.node.Repeat? && Placed(m, site, f) && Ready(m, site, v, s)
    ensures Delivers(m, Run(site.a, v, base), TargetOf(site, v, base), ResultsOf(m, site, s))
    decreases site.node, 2, 0, 0, 0, 0
  {
    var w, begin := Write(v, site.r, 0), Run(site.a, v, base);
    RepeatStarts(m, site, f, v, s, base);
    SimulateHead(m, site, f, w, s, base, 0);
    DeliversFrom(m, begin, Run(site.a + 1, w, base), TargetOf(site, w, base), RoundsLeft(m, site, s, 0));
    DeliversFiner(m, begin, TargetOf(site, w, base), TargetOf(site, v, base), RoundsLeft(m, site, s, 0));
  }

  lemma {:induction false} SimulateCapture(m: Machine, site: Site, f: nat, v: Registers, s: State, base: seq<Entry>)
    requires site.node.Group? && Placed(m, site, f) && Ready(m, site, v, s)
    ensures Delivers(m, Run(site.a, v, base), TargetOf(site, v, base), ResultsOf(m, site, s))
    decreases site.node, 2, 0, 0, 0, 0
  {
    BodyPlaced(m, site, f);
    OpenedIsReady(m, site, v, s);
    Simulate(m, BodySite(site), f, Write(v, OpenSlot(site), v.index), s, base);
    SimulateGroup(m, site, f, v, s, base, ResultsOf(m, BodySite(site), s));
  }

  lemma {:induction false} SimulateAround(m: Machine, site: Site, f: nat, v: Registers, s: State, base: seq<Entry>)
    requires site.node.Look? && Placed(m, site, f) && Ready(m, site, v, s)
    ensures Delivers(m, Run(site.a, v, base), TargetOf(site, v, base), ResultsOf(m, site, s))
    decreases site.node, 2, 0, 0, 0, 0
  {
    BodyPlaced(m, site, f);
    LookIsReady(m, site, v, s, |base|);
    Simulate(m, BodySite(site), f, Write(v, site.r, |base|), s, base + [Entry(OnFail(site, f), v)]);
    SimulateLook(m, site, f, v, s, base, ResultsOf(m, BodySite(site), s));
  }

  /** The code of a node delivers the results of the node, whatever stands below on the stack. */
  lemma {:induction false} Simulate(m: Machine, site: Site, f: nat, v: Registers, s: State, base: seq<Entry>)
    requires Placed(m, site, f) && Ready(m, site, v, s)
    ensures Delivers(m, Run(site.a, v, base), TargetOf(site, v, base), ResultsOf(m, site, s))
    decreases site.node, 3, 0, 0, 0, 0
  {
    match site.node
    case Empty => SimulateEmpty(m, site, v, s, base);
    case Then(_, _) => SimulateThen(m, site, f, v, s, base);
    case Or(_, _) => SimulateEither(m, site, f, v, s, base);
    case Repeat(_, _, _, _) => SimulateRepeat(m, site, f, v, s, base);
    case Group(_, _) => SimulateCapture(m, site, f, v, s, base);
    case Look(_, _, _) => SimulateAround(m, site, f, v, s, base);
    case _ => SimulateTest(m, site, f, v, s, base);
  }
}
