/**
 The builder of packages/compiler/src/regexp-matcher.ts: it emits instructions with labels for
 the addresses it does not know yet, under limits on instructions and registers, and resolves the
 labels at the end.
 */
module RegExpBuilder {
  import opened Basics
  import opened RegExpSyntax
  import opened RegExpSemantics
  import opened RegExpProgram
  import opened RegExpMatching

  datatype BuilderLimits = BuilderLimits(instructions: nat, registers: nat)

  const FAIL_LABEL: nat := 0

  // ----- Labels -----

  function Address(table: seq<nat>, l: nat): nat {
    if l < |table| then table[l] else 0
  }

  /** Rewrite labels into the addresses where they were placed. */
  function Resolve(i: Instruction, table: seq<nat>): Instruction {
    match i
    case Fork(preferred, alternative) => Fork(Address(table, preferred), Address(table, alternative))
    case Jump(target) => Jump(Address(table, target))
    case RepeatTest(counter, enter, exit, greedy, minimum, maximum) =>
      RepeatTest(counter, Address(table, enter), Address(table, exit), greedy, minimum, maximum)
    case RepeatEnter(body, from, to, counter, position) =>
      RepeatEnter(Address(table, body), from, to, counter, position)
    case RepeatEnd(counter, head, minimum, position) => RepeatEnd(counter, Address(table, head), minimum, position)
    case LookStart(body, frame, negated, onFail) =>
      LookStart(Address(table, body), frame, negated, Address(table, onFail))
    case LookEnd(exit, frame, negated) => LookEnd(Address(table, exit), frame, negated)
    case _ => i
  }

  function Resolved(code: seq<Instruction>, table: seq<nat>): (r: seq<Instruction>)
    ensures |r| == |code| && forall j | 0 <= j < |code| :: r[j] == Resolve(code[j], table)
  {
    seq(|code|, j requires 0 <= j < |code| => Resolve(code[j], table))
  }

  lemma ResolvedConcat(x: seq<Instruction>, y: seq<Instruction>, table: seq<nat>)
    ensures Resolved(x + y, table) == Resolved(x, table) + Resolved(y, table)
  {}

  /** The table has the addresses of the labels from `lo` on. */
  predicate Agrees(table: seq<nat>, addresses: seq<nat>, lo: nat) {
    |addresses| <= |table| && forall l | lo <= l < |addresses| :: table[l] == addresses[l]
  }

  /** The code of a node, as one value. */
  function NodeCode(node: Node, backward: bool, a: nat, r: nat, f: nat): seq<Instruction> {
    Code(node, backward, a, r, f)
  }

  /** With any later addresses for older labels, the emitted part resolves to the code of the node. */
  ghost predicate Emits(part: seq<Instruction>, addresses: seq<nat>, lo: nat, node: Node, backward: bool, a: nat,
                        r: nat)
  {
    forall table: seq<nat> | Agrees(table, addresses, lo) ::
      Resolved(part, table) == NodeCode(node, backward, a, r, Address(table, FAIL_LABEL))
  }

  // ----- Costs -----

  /** A reference is lowered to one instruction for each capture it names. */
  function CostOf(i: Instruction): nat {
    if i.TestBackreference? && |i.groups| > 1 then |i.groups| else 1
  }

  function Cost(node: Node): nat {
    match node
    case Empty => 0
    case Backreference(groups, _) => if |groups| > 1 then |groups| else 1
    case Then(first, second) => Cost(first) + Cost(second)
    case Or(first, second) => Cost(first) + Cost(second) + 2
    case Group(_, body) => Cost(body) + 2
    case Repeat(body, _, _, _) => Cost(body) + 4
    case Look(body, _, _) => Cost(body) + 2
    case _ => 1
  }

  /** A program with every reference to several captures written as one instruction for each of them. */
  function Lowered(code: seq<Instruction>): seq<Instruction> {
    if code == [] then [] else Lowered(code[..|code| - 1]) + LoweredOne(code[|code| - 1])
  }

  function LoweredOne(i: Instruction): seq<Instruction> {
    if i.TestBackreference? && |i.groups| > 1 then
      seq(|i.groups|, k requires 0 <= k < |i.groups| => TestBackreference([i.groups[k]], i.backward, i.ignoreCase))
    else [i]
  }

  lemma LoweredLast(code: seq<Instruction>, i: Instruction)
    ensures |Lowered(code + [i])| == |Lowered(code)| + |LoweredOne(i)|
  {
    assert (code + [i])[..|code|] == code;
  }

  lemma {:induction false} LoweredConcat(x: seq<Instruction>, y: seq<Instruction>)
    ensures |Lowered(x + y)| == |Lowered(x)| + |Lowered(y)|
    decreases |y|
  {
    if y == [] {
      assert x + y == x;
    } else {
      var init, last := y[..|y| - 1], y[|y| - 1];
      LoweredConcat(x, init);
      LoweredLast(x + init, last);
      assert x + init + [last] == x + y;
    }
  }

  /** A count of instructions that adds up, and counts a reference once for each capture it names. */
  ghost predicate Counts(count: seq<Instruction> -> nat) {
    && (forall x, y :: count(x + y) == count(x) + count(y))
    && (forall i :: count([i]) == |LoweredOne(i)|)
    && count([]) == 0
  }

  ghost predicate Plain(code: seq<Instruction>) {
    forall k | 0 <= k < |code| :: !code[k].TestBackreference?
  }

  lemma {:induction false} PlainCounts(count: seq<Instruction> -> nat, code: seq<Instruction>)
    requires Counts(count) && Plain(code)
    ensures count(code) == |code|
  {
    if code != [] {
      var init, last := code[..|code| - 1], code[|code| - 1];
      PlainCounts(count, init);
      assert code == init + [last];
    }
  }

  lemma AroundCounts(count: seq<Instruction> -> nat, prologue: seq<Instruction>, x: seq<Instruction>,
                     epilogue: seq<Instruction>)
    requires Counts(count) && Plain(prologue) && Plain(epilogue)
    ensures count(prologue + x + epilogue) == |prologue| + count(x) + |epilogue|
  {
    PlainCounts(count, prologue);
    PlainCounts(count, epilogue);
  }

  lemma OrCounts(count: seq<Instruction> -> nat, fork: Instruction, x: seq<Instruction>, jump: Instruction,
                 y: seq<Instruction>)
    requires Counts(count) && fork.Fork? && jump.Jump?
    ensures count([fork] + x + [jump] + y) == count(x) + count(y) + 2
  {
    AroundCounts(count, [fork], x, [jump]);
    assert count([fork] + x + [jump] + y) == count([fork] + x + [jump]) + count(y);
  }

  lemma ThenCodes(node: Node, backward: bool, a: nat, r: nat, f: nat)
    requires node.Then?
    ensures var first := Earlier(node, backward);
      NodeCode(node, backward, a, r, f) ==
        NodeCode(first, backward, a, r, f)
        + NodeCode(Later(node, backward), backward, a + Size(first), r + Extra(first), f)
  {}

  lemma OrCodes(node: Node, backward: bool, a: nat, r: nat, f: nat)
    requires node.Or?
    ensures var other := a + Size(node.first) + 2;
      NodeCode(node, backward, a, r, f) ==
        [Fork(a + 1, other)] + NodeCode(node.first, backward, a + 1, r, f) + [Jump(other + Size(node.second))]
        + NodeCode(node.second, backward, other, r + Extra(node.first), f)
  {}

  lemma RepeatCodes(node: Node, backward: bool, a: nat, r: nat, f: nat)
    requires node.Repeat?
    ensures var body := node.body;
      NodeCode(node, backward, a, r, f) ==
        [RepeatInit(r), RepeatTest(r, a + 2, a + 4 + Size(body), node.greedy, node.minimum, node.maximum),
         RepeatEnter(a + 3, ClearFrom(body), ClearTo(body), r, r + 1)]
        + NodeCode(body, backward, a + 3, r + 2, f) + [RepeatEnd(r, a + 1, node.minimum, r + 1)]
  {}

  lemma BothCount(count: seq<Instruction> -> nat, x: seq<Instruction>, y: seq<Instruction>)
    requires Counts(count)
    ensures count(x + y) == count(x) + count(y)
  {}

  lemma ThenCounts(count: seq<Instruction> -> nat, first: Node, second: Node, backward: bool, a: nat, r: nat, f: nat)
    requires Counts(count)
    requires forall a, r :: count(NodeCode(first, backward, a, r, f)) == Cost(first)
    requires forall a, r :: count(NodeCode(second, backward, a, r, f)) == Cost(second)
    ensures count(NodeCode(Then(first, second), backward, a, r, f)) == Cost(Then(first, second))
  {
    var x, y := Earlier(Then(first, second), backward), Later(Then(first, second), backward);
    ThenCodes(Then(first, second), backward, a, r, f);
    BothCount(count, NodeCode(x, backward, a, r, f), NodeCode(y, backward, a + Size(x), r + Extra(x), f));
  }

  lemma OrCosts(count: seq<Instruction> -> nat, first: Node, second: Node, backward: bool, a: nat, r: nat, f: nat)
    requires Counts(count)
    requires forall a, r :: count(NodeCode(first, backward, a, r, f)) == Cost(first)
    requires forall a, r :: count(NodeCode(second, backward, a, r, f)) == Cost(second)
    ensures count(NodeCode(Or(first, second), backward, a, r, f)) == Cost(Or(first, second))
  {
    var other := a + Size(first) + 2;
    OrCodes(Or(first, second), backward, a, r, f);
    OrCounts(count, Fork(a + 1, other), NodeCode(first, backward, a + 1, r, f), Jump(other + Size(second)),
             NodeCode(second, backward, other, r + Extra(first), f));
  }

  lemma GroupCosts(count: seq<Instruction> -> nat, index: nat, body: Node, backward: bool, a: nat, r: nat, f: nat)
    requires Counts(count) && forall a, r :: count(NodeCode(body, backward, a, r, f)) == Cost(body)
    ensures count(NodeCode(Group(index, body), backward, a, r, f)) == Cost(Group(index, body))
  {
    var start, end := 2 * index, 2 * index + 1;
    AroundCounts(count, [Save(if backward then end else start)], NodeCode(body, backward, a + 1, r, f),
                 [Save(if backward then start else end)]);
  }

  lemma LoopCounts(count: seq<Instruction> -> nat, init: Instruction, test: Instruction, enter: Instruction,
                   x: seq<Instruction>, end: Instruction)
    requires Counts(count) && init.RepeatInit? && test.RepeatTest? && enter.RepeatEnter? && end.RepeatEnd?
    ensures count([init, test, enter] + x + [end]) == count(x) + 4
  {
    AroundCounts(count, [init, test, enter], x, [end]);
  }

  lemma RepeatCosts(count: seq<Instruction> -> nat, node: Node, backward: bool, a: nat, r: nat, f: nat)
    requires Counts(count) && node.Repeat?
    requires forall a, r :: count(NodeCode(node.body, backward, a, r, f)) == Cost(node.body)
    ensures count(NodeCode(node, backward, a, r, f)) == Cost(node)
  {
    var body := node.body;
    RepeatCodes(node, backward, a, r, f);
    LoopCounts(count, RepeatInit(r), RepeatTest(r, a + 2, a + 4 + Size(body), node.greedy, node.minimum, node.maximum),
               RepeatEnter(a + 3, ClearFrom(body), ClearTo(body), r, r + 1), NodeCode(body, backward, a + 3, r + 2, f),
               RepeatEnd(r, a + 1, node.minimum, r + 1));
  }

  lemma LookCosts(count: seq<Instruction> -> nat, node: Node, backward: bool, a: nat, r: nat, f: nat)
    requires Counts(count) && node.Look?
    requires forall a, r :: count(NodeCode(node.body, node.behind, a, r, f)) == Cost(node.body)
    ensures count(NodeCode(node, backward, a, r, f)) == Cost(node)
  {
    var exit := a + 2 + Size(node.body);
    AroundCounts(count, [LookStart(a + 1, r, node.negated, if node.negated then exit else f)],
                 NodeCode(node.body, node.behind, a + 1, r + 1, f), [LookEnd(exit, r, node.negated)]);
  }

  /** Wherever it is put, the code of a node costs as many instructions as it is lowered to. */
  lemma {:induction false} CodeCosts(count: seq<Instruction> -> nat, node: Node, backward: bool, f: nat)
    requires Counts(count)
    ensures forall a, r :: count(NodeCode(node, backward, a, r, f)) == Cost(node)
  {
    match node
    case Then(first, second) =>
      CodeCosts(count, first, backward, f);
      CodeCosts(count, second, backward, f);
      forall a, r ensures count(NodeCode(node, backward, a, r, f)) == Cost(node) {
        ThenCounts(count, first, second, backward, a, r, f);
      }
    case Or(first, second) =>
      CodeCosts(count, first, backward, f);
      CodeCosts(count, second, backward, f);
      forall a, r ensures count(NodeCode(node, backward, a, r, f)) == Cost(node) {
        OrCosts(count, first, second, backward, a, r, f);
      }
    case Group(index, body) =>
      CodeCosts(count, body, backward, f);
      forall a, r ensures count(NodeCode(node, backward, a, r, f)) == Cost(node) {
        GroupCosts(count, index, body, backward, a, r, f);
      }
    case Repeat(body, _, _, _) =>
      CodeCosts(count, body, backward, f);
      forall a, r ensures count(NodeCode(node, backward, a, r, f)) == Cost(node) {
        RepeatCosts(count, node, backward, a, r, f);
      }
    case Look(body, behind, _) =>
      CodeCosts(count, body, behind, f);
      forall a, r ensures count(NodeCode(node, backward, a, r, f)) == Cost(node) {
        LookCosts(count, node, backward, a, r, f);
      }
    case _ =>
  }

  lemma ProgramCounts(count: seq<Instruction> -> nat, body: Node)
    requires Counts(count)
    ensures count(Program(body)) == Cost(Whole(body)) + 2
  {
    var f := Size(Whole(body)) + 1;
    CodeCosts(count, Whole(body), false, f);
    PlainCounts(count, [Accept, Fail]);
    BothCount(count, NodeCode(Whole(body), false, 0, 2 * GroupCount(body), f), [Accept, Fail]);
  }

  /** A program costs as many instructions as it is lowered to. */
  lemma ProgramCosts(body: Node)
    ensures |Lowered(Program(body))| == Cost(Whole(body)) + 2
  {
    var count := (code: seq<Instruction>) => |Lowered(code)|;
    LoweredCounts(count);
    ProgramCounts(count, body);
  }

  lemma LoweredCounts(count: seq<Instruction> -> nat)
    requires forall code :: count(code) == |Lowered(code)|
    ensures Counts(count)
  {
    forall x, y ensures count(x + y) == count(x) + count(y) {
      LoweredConcat(x, y);
    }
    forall i ensures count([i]) == |LoweredOne(i)| {
      LoweredLast([], i);
      assert [] + [i] == [i];
    }
  }

  // ----- What building a node does -----

  /** The builder's fields as one value. */
  datatype View = View(addresses: seq<nat>, code: seq<Instruction>, lowered: nat, registers: nat)

  /** So much was added, and nothing that was there has changed. */
  ghost predicate Grown(before: View, after: View, size: nat, cost: nat, extra: nat) {
    && before.addresses <= after.addresses && before.code <= after.code && |after.code| == |before.code| + size
    && after.lowered == before.lowered + cost && after.registers == before.registers + extra
  }

  function Added(before: View, after: View): seq<Instruction>
    requires before.code <= after.code
  {
    after.code[|before.code|..]
  }

  /** The node's code is appended, its labels are placed, and its cost and registers are counted. */
  ghost predicate Built(before: View, after: View, node: Node, backward: bool) {
    && Grown(before, after, Size(node), Cost(node), Extra(node))
    && Emits(Added(before, after), after.addresses, |before.addresses|, node, backward, |before.code|, before.registers)
  }

  predicate Exceeds(before: View, limits: BuilderLimits, node: Node) {
    before.lowered + Cost(node) > limits.instructions || before.registers + Extra(node) > limits.registers
  }

  /** Addresses that were placed stay as they are. */
  lemma EmitsLater(part: seq<Instruction>, addresses: seq<nat>, later: seq<nat>, lo: nat, node: Node, backward: bool,
                   a: nat, r: nat)
    requires Emits(part, addresses, lo, node, backward, a, r)
    requires |addresses| <= |later| && forall l | lo <= l < |addresses| :: later[l] == addresses[l]
    ensures Emits(part, later, lo, node, backward, a, r)
  {
    forall table: seq<nat> | Agrees(table, later, lo)
      ensures Resolved(part, table) == NodeCode(node, backward, a, r, Address(table, FAIL_LABEL))
    {
      assert Agrees(table, addresses, lo);
    }
  }

  /** More labels to agree on do no harm. */
  lemma EmitsEarlier(part: seq<Instruction>, addresses: seq<nat>, lo: nat, first: nat, node: Node, backward: bool,
                     a: nat, r: nat)
    requires Emits(part, addresses, lo, node, backward, a, r) && first <= lo
    ensures Emits(part, addresses, first, node, backward, a, r)
  {
    forall table: seq<nat> | Agrees(table, addresses, first)
      ensures Resolved(part, table) == NodeCode(node, backward, a, r, Address(table, FAIL_LABEL))
    {
      assert Agrees(table, addresses, lo);
    }
  }

  lemma GrownTwice(before: View, between: View, after: View, s: nat, c: nat, e: nat, size: nat, cost: nat, extra: nat)
    requires Grown(before, between, s, c, e) && Grown(between, after, size, cost, extra)
    ensures Grown(before, after, s + size, c + cost, e + extra)
    ensures Added(before, after) == Added(before, between) + Added(between, after)
  {}

  lemma EmitsThen(x: seq<Instruction>, y: seq<Instruction>, addresses: seq<nat>, lo: nat, node: Node, backward: bool,
                  a: nat, r: nat)
    requires node.Then?
    requires var first := Earlier(node, backward);
      && Emits(x, addresses, lo, first, backward, a, r)
      && Emits(y, addresses, lo, Later(node, backward), backward, a + Size(first), r + Extra(first))
    ensures Emits(x + y, addresses, lo, node, backward, a, r)
  {
    forall table: seq<nat> | Agrees(table, addresses, lo)
      ensures Resolved(x + y, table) == NodeCode(node, backward, a, r, Address(table, FAIL_LABEL))
    {
      ResolvedConcat(x, y, table);
      ThenCodes(node, backward, a, r, Address(table, FAIL_LABEL));
    }
  }

  lemma ThenSizes(node: Node, backward: bool)
    requires node.Then?
    ensures var first, second := Earlier(node, backward), Later(node, backward);
      && Size(node) == Size(first) + Size(second) && Cost(node) == Cost(first) + Cost(second)
      && Extra(node) == Extra(first) + Extra(second)
  {}

  /** Both parts' code, once all labels are placed. */
  lemma PartsEmit(before: View, between: View, after: View, node: Node, backward: bool)
    requires node.Then? && Built(before, between, Earlier(node, backward), backward)
    requires Built(between, after, Later(node, backward), backward)
    ensures Emits(Added(before, between) + Added(between, after), after.addresses, |before.addresses|, node, backward,
                  |before.code|, before.registers)
  {
    var first, second, lo := Earlier(node, backward), Later(node, backward), |before.addresses|;
    var x, y := Added(before, between), Added(between, after);
    EmitsLater(x, between.addresses, after.addresses, lo, first, backward, |before.code|, before.registers);
    EmitsEarlier(y, after.addresses, |between.addresses|, lo, second, backward, |between.code|, between.registers);
    EmitsThen(x, y, after.addresses, lo, node, backward, |before.code|, before.registers);
  }

  lemma BuiltThen(before: View, between: View, after: View, node: Node, backward: bool)
    requires node.Then? && Built(before, between, Earlier(node, backward), backward)
    requires Built(between, after, Later(node, backward), backward)
    ensures Built(before, after, node, backward)
  {
    var first, second := Earlier(node, backward), Later(node, backward);
    ThenSizes(node, backward);
    GrownTwice(before, between, after, Size(first), Cost(first), Extra(first), Size(second), Cost(second),
               Extra(second));
    PartsEmit(before, between, after, node, backward);
  }

  lemma BuiltOne(before: View, after: View, node: Node, backward: bool, i: Instruction)
    requires after == View(before.addresses, before.code + [i], before.lowered + CostOf(i), before.registers)
    requires Size(node) == 1 && Cost(node) == CostOf(i) && Extra(node) == 0
    requires forall f, table :: NodeCode(node, backward, |before.code|, before.registers, f) == [Resolve(i, table)]
    ensures Built(before, after, node, backward)
  {
    assert after.code[|before.code|..] == [i];
    forall table: seq<nat> | Agrees(table, after.addresses, |before.addresses|)
      ensures Resolved([i], table)
        == NodeCode(node, backward, |before.code|, before.registers, Address(table, FAIL_LABEL))
    {
      assert Resolved([i], table) == [Resolve(i, table)];
    }
  }

  /** The instructions around a body, and the code of the body between them, make the code of the node. */
  ghost predicate Frames(prologue: seq<Instruction>, epilogue: Instruction, addresses: seq<nat>, lo: nat, node: Node,
                         backward: bool, body: Node, direction: bool, a: nat, r: nat, extra: nat)
  {
    forall table: seq<nat> | Agrees(table, addresses, lo) ::
      var f := Address(table, FAIL_LABEL);
      Resolved(prologue, table) + NodeCode(body, direction, a + |prologue|, r + extra, f) + [Resolve(epilogue, table)]
        == NodeCode(node, backward, a, r, f)
  }

  lemma EmitsAround(prologue: seq<Instruction>, x: seq<Instruction>, epilogue: Instruction, addresses: seq<nat>,
                    lo: nat, node: Node, backward: bool, body: Node, direction: bool, a: nat, r: nat, extra: nat)
    requires Frames(prologue, epilogue, addresses, lo, node, backward, body, direction, a, r, extra)
    requires Emits(x, addresses, lo, body, direction, a + |prologue|, r + extra)
    ensures Emits(prologue + x + [epilogue], addresses, lo, node, backward, a, r)
  {
    forall table: seq<nat> | Agrees(table, addresses, lo)
      ensures Resolved(prologue + x + [epilogue], table)
        == NodeCode(node, backward, a, r, Address(table, FAIL_LABEL))
    {
      ResolvedConcat(prologue + x, [epilogue], table);
      ResolvedConcat(prologue, x, table);
      assert Resolved([epilogue], table) == [Resolve(epilogue, table)];
    }
  }

  /** Before and after a body: labels were made, and those of the node itself were placed. */
  ghost predicate Begun(before: View, begun: View, prologue: seq<Instruction>, labels: nat, extra: nat) {
    && before.addresses <= begun.addresses && |begun.addresses| == |before.addresses| + labels
    && begun.code == before.code + prologue && begun.lowered == before.lowered + |prologue|
    && begun.registers == before.registers + extra
  }

  ghost predicate Finished(begun: View, inner: View, after: View, epilogue: Instruction) {
    && |after.addresses| == |inner.addresses| && after.code == inner.code + [epilogue]
    && (forall l | |begun.addresses| <= l < |inner.addresses| :: after.addresses[l] == inner.addresses[l])
    && after.lowered == inner.lowered + 1 && after.registers == inner.registers
  }

  lemma GrownAround(before: View, begun: View, inner: View, after: View, node: Node, body: Node,
                    prologue: seq<Instruction>, epilogue: Instruction, labels: nat, extra: nat)
    requires Begun(before, begun, prologue, labels, extra)
    requires Grown(begun, inner, Size(body), Cost(body), Extra(body))
    requires Finished(begun, inner, after, epilogue) && before.addresses <= after.addresses
    ensures Grown(before, after, |prologue| + Size(body) + 1, |prologue| + Cost(body) + 1, Extra(body) + extra)
    ensures Added(before, after) == prologue + Added(begun, inner) + [epilogue]
  {}

  /** The code of the body, once the labels around it are placed. */
  lemma InnerEmits(begun: View, inner: View, after: View, lo: nat, body: Node, direction: bool)
    requires Built(begun, inner, body, direction) && lo <= |begun.addresses|
    requires |inner.addresses| <= |after.addresses|
    requires forall l | |begun.addresses| <= l < |inner.addresses| :: after.addresses[l] == inner.addresses[l]
    ensures Emits(Added(begun, inner), after.addresses, lo, body, direction, |begun.code|, begun.registers)
  {
    var x := Added(begun, inner);
    EmitsLater(x, inner.addresses, after.addresses, |begun.addresses|, body, direction, |begun.code|, begun.registers);
    EmitsEarlier(x, after.addresses, |begun.addresses|, lo, body, direction, |begun.code|, begun.registers);
  }

  lemma AroundEmits(before: View, begun: View, inner: View, after: View, node: Node, backward: bool, body: Node,
                    direction: bool, prologue: seq<Instruction>, epilogue: Instruction, labels: nat, extra: nat)
    requires Begun(before, begun, prologue, labels, extra) && Built(begun, inner, body, direction)
    requires Finished(begun, inner, after, epilogue)
    requires Frames(prologue, epilogue, after.addresses, |before.addresses|, node, backward, body, direction,
                    |before.code|, before.registers, extra)
    ensures Emits(prologue + Added(begun, inner) + [epilogue], after.addresses, |before.addresses|, node, backward,
                  |before.code|, before.registers)
  {
    var lo, a, r := |before.addresses|, |before.code|, before.registers;
    InnerEmits(begun, inner, after, lo, body, direction);
    EmitsAround(prologue, Added(begun, inner), epilogue, after.addresses, lo, node, backward, body, direction, a, r,
                extra);
  }

  /** The node takes its body's instructions and registers, and those around it. */
  predicate Sized(node: Node, body: Node, around: nat, extra: nat) {
    && Size(node) == around + Size(body) + 1 && Cost(node) == around + Cost(body) + 1
    && Extra(node) == Extra(body) + extra
  }

  lemma BuiltAround(before: View, begun: View, inner: View, after: View, node: Node, backward: bool, body: Node,
                    direction: bool, prologue: seq<Instruction>, epilogue: Instruction, labels: nat, extra: nat)
    requires Begun(before, begun, prologue, labels, extra) && Built(begun, inner, body, direction)
    requires Finished(begun, inner, after, epilogue) && before.addresses <= after.addresses
    requires Sized(node, body, |prologue|, extra)
    requires Frames(prologue, epilogue, after.addresses, |before.addresses|, node, backward, body, direction,
                    |before.code|, before.registers, extra)
    ensures Built(before, after, node, backward)
  {
    AroundEmits(before, begun, inner, after, node, backward, body, direction, prologue, epilogue, labels, extra);
    GrownAround(before, begun, inner, after, node, body, prologue, epilogue, labels, extra);
  }

  lemma ResolvedOr(fork: Instruction, x: seq<Instruction>, jump: Instruction, y: seq<Instruction>, table: seq<nat>)
    ensures Resolved([fork] + x + [jump] + y, table)
         == [Resolve(fork, table)] + Resolved(x, table) + [Resolve(jump, table)] + Resolved(y, table)
  {
    ResolvedConcat([fork] + x + [jump], y, table);
    ResolvedConcat([fork] + x, [jump], table);
    ResolvedConcat([fork], x, table);
    assert Resolved([fork], table) == [Resolve(fork, table)];
    assert Resolved([jump], table) == [Resolve(jump, table)];
  }

  lemma OrResolves(x: seq<Instruction>, y: seq<Instruction>, lo: nat, node: Node, backward: bool, a: nat, r: nat,
                   table: seq<nat>)
    requires node.Or?
    requires Address(table, lo) == a + Size(node) && Address(table, lo + 1) == a + 1
    requires Address(table, lo + 2) == a + Size(node.first) + 2
    requires var f := Address(table, FAIL_LABEL);
      && Resolved(x, table) == NodeCode(node.first, backward, a + 1, r, f)
      && Resolved(y, table) == NodeCode(node.second, backward, a + Size(node.first) + 2, r + Extra(node.first), f)
    ensures Resolved([Fork(lo + 1, lo + 2)] + x + [Jump(lo)] + y, table)
         == NodeCode(node, backward, a, r, Address(table, FAIL_LABEL))
  {
    ResolvedOr(Fork(lo + 1, lo + 2), x, Jump(lo), y, table);
    OrCodes(node, backward, a, r, Address(table, FAIL_LABEL));
  }

  lemma EmitsOr(x: seq<Instruction>, y: seq<Instruction>, addresses: seq<nat>, lo: nat, node: Node, backward: bool,
                a: nat, r: nat)
    requires node.Or? && 0 < lo && lo + 3 <= |addresses|
    requires addresses[lo] == a + Size(node) && addresses[lo + 1] == a + 1
    requires addresses[lo + 2] == a + Size(node.first) + 2
    requires Emits(x, addresses, lo, node.first, backward, a + 1, r)
    requires Emits(y, addresses, lo, node.second, backward, a + Size(node.first) + 2, r + Extra(node.first))
    ensures Emits([Fork(lo + 1, lo + 2)] + x + [Jump(lo)] + y, addresses, lo, node, backward, a, r)
  {
    var fork, jump := Fork(lo + 1, lo + 2), Jump(lo);
    forall table: seq<nat> | Agrees(table, addresses, lo)
      ensures Resolved([fork] + x + [jump] + y, table)
        == NodeCode(node, backward, a, r, Address(table, FAIL_LABEL))
    {
      OrResolves(x, y, lo, node, backward, a, r, table);
    }
  }

  /** The views around the alternatives: labels made, the fork, the jump between, and the labels placed. */
  ghost predicate OrViews(before: View, begun: View, first: View, between: View, second: View, after: View) {
    var lo, a := |before.addresses|, |before.code|;
    && begun == View(before.addresses + [0, a + 1, 0], before.code + [Fork(lo + 1, lo + 2)], before.lowered + 1,
                     before.registers)
    && lo + 2 < |first.addresses|
    && between == View(first.addresses[lo + 2 := |first.code| + 1], first.code + [Jump(lo)], first.lowered + 1,
                       first.registers)
    && lo < |second.addresses| && after == second.(addresses := second.addresses[lo := |second.code|])
  }

  lemma GrownOr(before: View, begun: View, first: View, between: View, second: View, after: View, node: Node)
    requires node.Or? && OrViews(before, begun, first, between, second, after)
    requires Grown(begun, first, Size(node.first), Cost(node.first), Extra(node.first))
    requires Grown(between, second, Size(node.second), Cost(node.second), Extra(node.second))
    ensures Grown(before, after, Size(node), Cost(node), Extra(node))
    ensures var lo, a := |before.addresses|, |before.code|;
      && after.addresses[lo] == a + Size(node) && after.addresses[lo + 1] == a + 1
      && after.addresses[lo + 2] == a + Size(node.first) + 2
      && Added(before, after) ==
           [Fork(lo + 1, lo + 2)] + Added(begun, first) + [Jump(lo)] + Added(between, second)
  {}

  /** What was placed while building either alternative is still there at the end. */
  lemma OrKeepsLabels(before: View, begun: View, first: View, between: View, second: View, after: View)
    requires OrViews(before, begun, first, between, second, after)
    requires begun.addresses <= first.addresses && between.addresses <= second.addresses
    ensures |first.addresses| <= |second.addresses| == |after.addresses|
    ensures forall l | |begun.addresses| <= l < |first.addresses| :: after.addresses[l] == first.addresses[l]
    ensures forall l | |between.addresses| <= l < |second.addresses| :: after.addresses[l] == second.addresses[l]
  {}

  lemma FirstEmits(before: View, begun: View, first: View, between: View, second: View, after: View, node: Node,
                   backward: bool)
    requires node.Or? && OrViews(before, begun, first, between, second, after)
    requires Built(begun, first, node.first, backward) && between.addresses <= second.addresses
    ensures Emits(Added(begun, first), after.addresses, |before.addresses|, node.first, backward, |begun.code|,
                  begun.registers)
  {
    OrKeepsLabels(before, begun, first, between, second, after);
    PartEmits(before, begun, first, after, node.first, backward);
  }

  lemma SecondEmits(before: View, begun: View, first: View, between: View, second: View, after: View, node: Node,
                    backward: bool)
    requires node.Or? && OrViews(before, begun, first, between, second, after)
    requires begun.addresses <= first.addresses && Built(between, second, node.second, backward)
    ensures Emits(Added(between, second), after.addresses, |before.addresses|, node.second, backward, |between.code|,
                  between.registers)
  {
    OrKeepsLabels(before, begun, first, between, second, after);
    PartEmits(before, between, second, after, node.second, backward);
  }

  lemma OrEmits(before: View, begun: View, first: View, between: View, second: View, after: View, node: Node,
                backward: bool)
    requires node.Or? && |before.addresses| > 0 && OrViews(before, begun, first, between, second, after)
    requires Built(begun, first, node.first, backward) && Built(between, second, node.second, backward)
    ensures var lo := |before.addresses|;
      Emits([Fork(lo + 1, lo + 2)] + Added(begun, first) + [Jump(lo)] + Added(between, second), after.addresses, lo,
            node, backward, |before.code|, before.registers)
  {
    GrownOr(before, begun, first, between, second, after, node);
    FirstEmits(before, begun, first, between, second, after, node, backward);
    SecondEmits(before, begun, first, between, second, after, node, backward);
    EmitsOr(Added(begun, first), Added(between, second), after.addresses, |before.addresses|, node, backward,
            |before.code|, before.registers);
  }

  lemma BuiltOr(before: View, begun: View, first: View, between: View, second: View, after: View, node: Node,
                backward: bool)
    requires node.Or? && |before.addresses| > 0 && OrViews(before, begun, first, between, second, after)
    requires Built(begun, first, node.first, backward) && Built(between, second, node.second, backward)
    ensures Built(before, after, node, backward)
  {
    var lo, x, y := |before.addresses|, Added(begun, first), Added(between, second);
    GrownOr(before, begun, first, between, second, after, node);
    OrEmits(before, begun, first, between, second, after, node, backward);
    MakeBuilt(before, after, node, backward, [Fork(lo + 1, lo + 2)] + x + [Jump(lo)] + y);
  }

  lemma MakeBuilt(before: View, after: View, node: Node, backward: bool, part: seq<Instruction>)
    requires Grown(before, after, Size(node), Cost(node), Extra(node)) && Added(before, after) == part
    requires Emits(part, after.addresses, |before.addresses|, node, backward, |before.code|, before.registers)
    ensures Built(before, after, node, backward)
  {}

  lemma PartEmits(before: View, begun: View, inner: View, after: View, part: Node, backward: bool)
    requires Built(begun, inner, part, backward) && |before.addresses| <= |begun.addresses|
    requires |inner.addresses| <= |after.addresses|
    requires forall l | |begun.addresses| <= l < |inner.addresses| :: after.addresses[l] == inner.addresses[l]
    ensures Emits(Added(begun, inner), after.addresses, |before.addresses|, part, backward, |begun.code|,
                  begun.registers)
  {
    InnerEmits(begun, inner, after, |before.addresses|, part, backward);
  }

  lemma GroupFrames(node: Node, backward: bool, addresses: seq<nat>, lo: nat, a: nat, r: nat)
    requires node.Group?
    ensures var start, end := 2 * node.index, 2 * node.index + 1;
      Frames([Save(if backward then end else start)], Save(if backward then start else end), addresses, lo, node,
             backward, node.body, backward, a, r, 0)
  {}

  lemma LookFrames(node: Node, backward: bool, addresses: seq<nat>, lo: nat, a: nat, r: nat)
    requires node.Look? && 0 < lo && lo + 2 <= |addresses|
    requires addresses[lo] == a + 1 && addresses[lo + 1] == a + 2 + Size(node.body)
    ensures Frames([LookStart(lo, r, node.negated, if node.negated then lo + 1 else FAIL_LABEL)],
                   LookEnd(lo + 1, r, node.negated), addresses, lo, node, backward, node.body, node.behind, a, r, 1)
  {}

  function RepeatPrologue(node: Node, lo: nat, r: nat): seq<Instruction>
    requires node.Repeat?
  {
    [RepeatInit(r), RepeatTest(r, lo + 1, lo + 3, node.greedy, node.minimum, node.maximum),
     RepeatEnter(lo + 2, ClearFrom(node.body), ClearTo(node.body), r, r + 1)]
  }

  lemma RepeatFrames(node: Node, backward: bool, addresses: seq<nat>, lo: nat, a: nat, r: nat)
    requires node.Repeat? && 0 < lo && lo + 4 <= |addresses|
    requires addresses[lo] == a + 1 && addresses[lo + 1] == a + 2 && addresses[lo + 2] == a + 3
    requires addresses[lo + 3] == a + 4 + Size(node.body)
    ensures Frames(RepeatPrologue(node, lo, r), RepeatEnd(r, lo, node.minimum, r + 1), addresses, lo, node, backward,
                   node.body, backward, a, r, 2)
  {}

  lemma BuiltLook(before: View, begun: View, inner: View, after: View, node: Node, backward: bool)
    requires node.Look? && |before.addresses| > 0
    requires var lo, r, exit := |before.addresses|, before.registers, |before.addresses| + 1;
      && begun == View(before.addresses + [|before.code| + 1, 0],
           before.code + [LookStart(lo, r, node.negated, if node.negated then exit else FAIL_LABEL)],
           before.lowered + 1, r + 1)
      && Built(begun, inner, node.body, node.behind)
      && after == View(inner.addresses[exit := |inner.code| + 1], inner.code + [LookEnd(exit, r, node.negated)],
                       inner.lowered + 1, inner.registers)
    ensures Built(before, after, node, backward)
  {
    var lo, r := |before.addresses|, before.registers;
    LookFrames(node, backward, after.addresses, lo, |before.code|, r);
    BuiltAround(before, begun, inner, after, node, backward, node.body, node.behind,
                [LookStart(lo, r, node.negated, if node.negated then lo + 1 else FAIL_LABEL)],
                LookEnd(lo + 1, r, node.negated), 2, 1);
  }

  lemma BuiltRepeat(before: View, begun: View, inner: View, after: View, node: Node, backward: bool)
    requires node.Repeat? && |before.addresses| > 0
    requires var lo, a, r := |before.addresses|, |before.code|, before.registers;
      && begun == View(before.addresses + [a + 1, a + 2, a + 3, 0], before.code + RepeatPrologue(node, lo, r),
                       before.lowered + 3, r + 2)
      && Built(begun, inner, node.body, backward)
      && after == View(inner.addresses[lo + 3 := |inner.code| + 1],
                       inner.code + [RepeatEnd(r, lo, node.minimum, r + 1)], inner.lowered + 1, inner.registers)
    ensures Built(before, after, node, backward)
  {
    var lo, r := |before.addresses|, before.registers;
    RepeatFrames(node, backward, after.addresses, lo, |before.code|, r);
    BuiltAround(before, begun, inner, after, node, backward, node.body, backward, RepeatPrologue(node, lo, r),
                RepeatEnd(r, lo, node.minimum, r + 1), 4, 2);
  }

  class Builder {
    const limits: BuilderLimits
    var addresses: seq<nat>
    var code: seq<Instruction>
    var lowered: nat
    var registers: nat

    constructor (limits: BuilderLimits, registers: nat)
      ensures this.limits == limits && addresses == [0] && code == [] && lowered == 0 && this.registers == registers
    {
      this.limits, this.registers := limits, registers;
      addresses, code, lowered := [0], [], 0;
    }

    function Now(): View
      reads this
    {
      View(addresses, code, lowered, registers)
    }

    method NewLabel() returns (l: nat)
      modifies this`addresses
      ensures l == |old(addresses)| && addresses == old(addresses) + [0]
    {
      l := |addresses|;
      addresses := addresses + [0];
    }

    method PlaceLabel(l: nat)
      requires l < |addresses|
      modifies this`addresses
      ensures addresses == old(addresses)[l := |code|]
    {
      addresses := addresses[l := |code|];
    }

    method Emit(i: Instruction) returns (ok: bool)
      modifies this`code, this`lowered
      ensures ok <==> old(lowered) + CostOf(i) <= limits.instructions
      ensures ok ==> code == old(code) + [i] && lowered == old(lowered) + CostOf(i)
    {
      if lowered + CostOf(i) > limits.instructions {
        return false;
      }
      code, lowered := code + [i], lowered + CostOf(i);
      ok := true;
    }

    method Allocate(count: nat) returns (ok: bool, base: nat)
      modifies this`registers
      ensures ok <==> old(registers) + count <= limits.registers
      ensures ok ==> base == old(registers) && registers == base + count
    {
      if registers + count > limits.registers {
        return false, 0;
      }
      base := registers;
      registers := registers + count;
      ok := true;
    }

    /** Emit the code of one node. */
    method Build(node: Node, backward: bool) returns (ok: bool)
      requires |addresses| > 0 && registers <= limits.registers
      modifies this
      ensures ok ==> Built(old(Now()), Now(), node, backward) && registers <= limits.registers
      ensures !ok ==> Exceeds(old(Now()), limits, node)
      decreases node, 1
    {
      ghost var before := Now();
      match node
      case Empty =>
        ok := true;
        BuiltNothing(before, backward);
      case Characters(members) => ok := BuildOne(Consume(members, backward), node, backward);
      case Edge(atEnd, multiline) => ok := BuildOne(TestEdge(atEnd, multiline), node, backward);
      case Boundary(word, negated) => ok := BuildOne(TestBoundary(word, negated), node, backward);
      case Backreference(groups, ignoreCase) =>
        ok := BuildOne(TestBackreference(groups, backward, ignoreCase), node, backward);
      case Then(_, _) =>
        ok := Build(Earlier(node, backward), backward);
        if ok {
          ghost var between := Now();
          ok := Build(Later(node, backward), backward);
          if ok {
            BuiltThen(before, between, Now(), node, backward);
          }
        }
      case Or(_, _) => ok := BuildOr(node, backward);
      case Group(_, _) => ok := BuildGroup(node, backward);
      case Repeat(_, _, _, _) => ok := BuildRepeat(node, backward);
      case Look(_, _, _) => ok := BuildLook(node, backward);
    }

    method BuildOr(node: Node, backward: bool) returns (ok: bool)
      requires |addresses| > 0 && registers <= limits.registers && node.Or?
      modifies this
      ensures ok ==> Built(old(Now()), Now(), node, backward) && registers <= limits.registers
      ensures !ok ==> Exceeds(old(Now()), limits, node)
      decreases node, 0
    {
      ghost var before := Now();
      var end;
      ok, end := OpenOr();
      if !ok {
        return;
      }
      ghost var begun := Now();
      ok := Build(node.first, backward);
      if !ok {
        return;
      }
      ghost var first := Now();
      ok := EmitAndPlace(Jump(end), end + 2);
      if !ok {
        return;
      }
      ghost var between := Now();
      ok := Build(node.second, backward);
      if !ok {
        return;
      }
      ghost var second := Now();
      PlaceLabel(end);
      BuiltOr(before, begun, first, between, second, Now(), node, backward);
    }

    /** Make the labels of a disjunction and emit its fork. */
    method OpenOr() returns (ok: bool, end: nat)
      requires |addresses| > 0
      modifies this`addresses, this`code, this`lowered
      ensures end == |old(addresses)|
      ensures ok ==> Now() == View(old(addresses) + [0, |old(code)| + 1, 0], old(code) + [Fork(end + 1, end + 2)],
                                   old(lowered) + 1, old(registers))
      ensures !ok ==> old(lowered) + 1 > limits.instructions
    {
      end := NewLabel();
      var preferred := NewLabel();
      var next := NewLabel();
      ok := EmitAndPlace(Fork(preferred, next), preferred);
    }

    /** Emit an instruction of cost one and place a label behind it. */
    method EmitAndPlace(i: Instruction, l: nat) returns (ok: bool)
      requires l < |addresses| && CostOf(i) == 1
      modifies this`addresses, this`code, this`lowered
      ensures ok ==>
        Now() == View(old(addresses)[l := |old(code)| + 1], old(code) + [i], old(lowered) + 1, old(registers))
      ensures !ok ==> old(lowered) + 1 > limits.instructions
    {
      ok := Emit(i);
      if ok {
        PlaceLabel(l);
      }
    }

    method BuildGroup(node: Node, backward: bool) returns (ok: bool)
      requires |addresses| > 0 && registers <= limits.registers && node.Group?
      modifies this
      ensures ok ==> Built(old(Now()), Now(), node, backward) && registers <= limits.registers
      ensures !ok ==> Exceeds(old(Now()), limits, node)
      decreases node, 0
    {
      ghost var before := Now();
      var start, end := 2 * node.index, 2 * node.index + 1;
      var open, close := Save(if backward then end else start), Save(if backward then start else end);
      ok := Emit(open);
      if ok {
        ghost var begun := Now();
        ok := Build(node.body, backward);
        if ok {
          ghost var inner := Now();
          ok := Emit(close);
          if ok {
            GroupFrames(node, backward, addresses, |before.addresses|, |before.code|, before.registers);
            BuiltAround(before, begun, inner, Now(), node, backward, node.body, backward, [open], close, 0, 0);
          }
        }
      }
    }

    method BuildLook(node: Node, backward: bool) returns (ok: bool)
      requires |addresses| > 0 && registers <= limits.registers && node.Look?
      modifies this
      ensures ok ==> Built(old(Now()), Now(), node, backward) && registers <= limits.registers
      ensures !ok ==> Exceeds(old(Now()), limits, node)
      decreases node, 0
    {
      ghost var before := Now();
      var frame;
      ok, frame := Allocate(1);
      if !ok {
        return;
      }
      var body := NewLabel();
      var exit := NewLabel();
      var start := LookStart(body, frame, node.negated, if node.negated then exit else FAIL_LABEL);
      ok := EmitAndPlace(start, body);
      if !ok {
        return;
      }
      ghost var begun := Now();
      ok := Build(node.body, node.behind);
      if !ok {
        return;
      }
      ghost var inner := Now();
      ok := EmitAndPlace(LookEnd(exit, frame, node.negated), exit);
      if !ok {
        return;
      }
      BuiltLook(before, begun, inner, Now(), node, backward);
    }

    method BuildRepeat(node: Node, backward: bool) returns (ok: bool)
      requires |addresses| > 0 && registers <= limits.registers && node.Repeat?
      modifies this
      ensures ok ==> Built(old(Now()), Now(), node, backward) && registers <= limits.registers
      ensures !ok ==> Exceeds(old(Now()), limits, node)
      decreases node, 0
    {
      ghost var before := Now();
      var counter, head;
      ok, counter, head := OpenRepeat(node);
      if !ok {
        return;
      }
      ghost var begun := Now();
      ok := Build(node.body, backward);
      if !ok {
        return;
      }
      ghost var inner := Now();
      ok := EmitAndPlace(RepeatEnd(counter, head, node.minimum, counter + 1), head + 3);
      if !ok {
        return;
      }
      BuiltRepeat(before, begun, inner, Now(), node, backward);
    }

    /** Emit what stands before the body of a repetition. */
    method OpenRepeat(node: Node) returns (ok: bool, counter: nat, head: nat)
      requires |addresses| > 0 && node.Repeat?
      modifies this
      ensures ok ==>
        var lo, a := |old(addresses)|, |old(code)|;
        && counter == old(registers) && head == lo
        && Now() == View(old(addresses) + [a + 1, a + 2, a + 3, 0], old(code) + RepeatPrologue(node, lo, counter),
                         old(lowered) + 3, old(registers) + 2)
      ensures ok ==> registers <= limits.registers
      ensures !ok ==> old(lowered) + 3 > limits.instructions || old(registers) + 2 > limits.registers
    {
      ok, counter := Allocate(2);
      head := 0;
      if !ok {
        return;
      }
      head := NewLabel();
      var enter := NewLabel();
      var body := NewLabel();
      var exit := NewLabel();
      ok := EmitAndPlace(RepeatInit(counter), head);
      if !ok {
        return;
      }
      ok := EmitAndPlace(RepeatTest(counter, enter, exit, node.greedy, node.minimum, node.maximum), enter);
      if !ok {
        return;
      }
      ok := EmitAndPlace(RepeatEnter(body, ClearFrom(node.body), ClearTo(node.body), counter, counter + 1), body);
    }

    method BuildOne(i: Instruction, node: Node, backward: bool) returns (ok: bool)
      requires Size(node) == 1 && Cost(node) == CostOf(i) && Extra(node) == 0
      requires forall f, table :: NodeCode(node, backward, |code|, registers, f) == [Resolve(i, table)]
      modifies this
      ensures ok ==> Built(old(Now()), Now(), node, backward)
      ensures !ok ==> Exceeds(old(Now()), limits, node)
    {
      ghost var before := Now();
      ok := Emit(i);
      if ok {
        BuiltOne(before, Now(), node, backward, i);
      }
    }
  }

  lemma BuiltNothing(before: View, backward: bool)
    ensures Built(before, before, Empty, backward)
  {
    assert before.code[|before.code|..] == [];
    assert forall table :: Resolved([], table) == [];
  }

  // ----- The whole pattern -----

  /** With the failing address known the emitted code is the program. */
  lemma WholeResolves(before: View, after: View, body: Node, addresses: seq<nat>)
    requires before == View([0], [], 0, 2 * GroupCount(body)) && Built(before, after, Whole(body), false)
    requires addresses == after.addresses[FAIL_LABEL := |after.code| + 1]
    ensures Resolved(after.code + [Accept, Fail], addresses) == Program(body)
  {
    assert Agrees(addresses, after.addresses, 1);
    assert Added(before, after) == after.code;
    ResolvedConcat(after.code, [Accept, Fail], addresses);
    assert Resolved([Accept, Fail], addresses) == [Accept, Fail];
  }

  /**
   Build the program of a pattern. It is refused exactly when the pattern needs more instructions
   or registers than the limits allow, counting a reference once for each capture it names.
   */
  method BuildMatcher(body: Node, limits: BuilderLimits) returns (r: Option<seq<Instruction>>)
    ensures r.Some? <==>
      Cost(Whole(body)) + 2 <= limits.instructions && RegisterCount(body) <= limits.registers
    ensures r.Some? ==> r.value == Program(body)
  {
    var builder := new Builder(limits, 2 * GroupCount(body));
    if builder.registers > limits.registers {
      return None;
    }
    ghost var before := builder.Now();
    var ok := builder.Build(Whole(body), false);
    if !ok {
      return None;
    }
    ghost var after := builder.Now();
    ok := builder.Emit(Accept);
    if ok {
      builder.PlaceLabel(FAIL_LABEL);
      ok := builder.Emit(Fail);
    }
    if !ok {
      return None;
    }
    assert builder.code == after.code + [Accept, Fail];
    WholeResolves(before, after, body, builder.addresses);
    var code := Resolved(builder.code, builder.addresses);
    r := Some(code);
  }
}
