/**
 What a run of a program uses: steps, trail entries, and backtrack entries
 (packages/compiler/src/regexp-execute.ts). An attempt stops at the first instruction that needs
 more of one of them than its limit, and at no other.
 */
module RegExpLimits {
  import opened Basics
  import opened RegExpSyntax
  import opened RegExpSemantics
  import opened RegExpProgram
  import opened RegExpSimulation
  import opened RegExpMatching

  datatype Limit = BacktrackEntries | Steps | TrailEntries

  datatype Limits = Limits(backtrackEntries: nat, steps: nat, trailEntries: nat)

  /** Steps made, the height of the trail, and for each entry the height it goes back to. */
  datatype Use = Use(steps: nat, trail: nat, marks: seq<nat>)

  const NOTHING_USED := Use(0, 0, [])

  function Amount(u: Use, limit: Limit): nat {
    match limit
    case BacktrackEntries => |u.marks|
    case Steps => u.steps
    case TrailEntries => u.trail
  }

  function Allowed(limits: Limits, limit: Limit): nat {
    match limit
    case BacktrackEntries => limits.backtrackEntries
    case Steps => limits.steps
    case TrailEntries => limits.trailEntries
  }

  predicate Affords(limits: Limits, u: Use) {
    u.steps <= limits.steps && u.trail <= limits.trailEntries && |u.marks| <= limits.backtrackEntries
  }

  // ----- Instructions -----

  /** How many registers an instruction overwrites. */
  function Writes(i: Instruction): nat {
    match i
    case Save(_) => 1
    case RepeatInit(_) => 1
    case RepeatEnter(_, from, to, _, _) => 2 + if from <= to then to - from else 0
    case LookStart(_, _, _, _) => 1
    case _ => 0
  }

  /** Whether it leaves an entry to come back to. */
  predicate Pushes(i: Instruction, v: Registers) {
    match i
    case Fork(_, _) => true
    case LookStart(_, _, _, _) => true
    case RepeatTest(counter, _, _, _, minimum, maximum) =>
      var done := Slot(v.slots, counter);
      done >= minimum && (maximum == None || done < maximum.value)
    case _ => false
  }

  /** The trail and the marks behind an instruction. */
  function Performed(i: Instruction, v: Registers, u: Use): Use {
    if i.LookEnd? && 0 <= Slot(v.slots, i.frame) < |u.marks| then
      var frame := Slot(v.slots, i.frame);
      Use(u.steps, if i.negated then u.marks[frame] else u.trail, u.marks[..frame])
    else
      Use(u.steps, u.trail + Writes(i), if Pushes(i, v) then u.marks + [u.trail] else u.marks)
  }

  /** How many captures are compared with the text until one does not match. */
  ghost function CapturesRead(input: Input, captures: seq<Option<Span>>, groups: seq<nat>, i: nat, backward: bool,
                              ignoreCase: bool): (n: nat)
    requires i <= |input.text| && CapturesOk(input, captures)
    ensures groups != [] ==> n > 0
  {
    if groups == [] then 0
    else
      var first := MatchCapture(input, Captured(captures, groups[0]), i, backward, ignoreCase);
      if first == None then 1
      else 1 + CapturesRead(input, captures, groups[1..], first.value, backward, ignoreCase)
  }

  /** The steps that an instruction is charged: one, or one for each capture a reference compares. */
  ghost function Charged(m: Machine, i: Instruction, v: Registers): (n: nat)
    ensures n > 0
  {
    if i.TestBackreference? && i.groups != [] && TestSound(m, i, v) then
      CapturesRead(m.input, CapturesOf(v.slots, m.groups), i.groups, v.index, i.backward, i.ignoreCase)
    else 1
  }

  // ----- Runs -----

  ghost function Uses(m: Machine, c: Config, u: Use): Use {
    match c
    case Run(address, now, _) =>
      if address < |m.program| then
        var i := m.program[address];
        Performed(i, now, u).(steps := u.steps + Charged(m, i, now))
      else u.(steps := u.steps + 1)
    case Backtrack(_) =>
      if u.marks == [] then u else Use(u.steps, u.marks[|u.marks| - 1], u.marks[..|u.marks| - 1])
    case _ => u
  }

  /** What `n` transitions use. */
  ghost function UsedBy(m: Machine, begin: Config, n: nat): Use {
    if n == 0 then NOTHING_USED else Uses(m, Iterate(m, begin, n - 1), UsedBy(m, begin, n - 1))
  }

  /** The limits allow for `n` transitions, and the run is not over by then. */
  ghost predicate Goes(m: Machine, begin: Config, limits: Limits, n: nat) {
    && !Final(Iterate(m, begin, n))
    && forall k | 0 <= k <= n :: Affords(limits, UsedBy(m, begin, k))
  }

  /** The run goes on for `n` transitions within the limits, and ends within them with the next one. */
  ghost predicate EndsWithin(m: Machine, begin: Config, limits: Limits, n: nat, steps: nat) {
    && Goes(m, begin, limits, n) && Final(Iterate(m, begin, n + 1))
    && Affords(limits, UsedBy(m, begin, n + 1)) && UsedBy(m, begin, n + 1).steps == steps
  }

  /** It goes on for `n` transitions within the limits, and the next one needs more of one of them. */
  ghost predicate StopsAt(m: Machine, begin: Config, limits: Limits, n: nat, limit: Limit) {
    Goes(m, begin, limits, n) && Amount(UsedBy(m, begin, n + 1), limit) > Allowed(limits, limit)
  }

  /** A run that ends within its limits is not stopped by any of them. */
  lemma EndsOrStops(m: Machine, begin: Config, limits: Limits, n: nat, k: nat, steps: nat, limit: Limit)
    requires EndsWithin(m, begin, limits, n, steps)
    ensures !StopsAt(m, begin, limits, k, limit)
  {
    if k > n {
      IterateMore(m, begin, n + 1, k - n - 1);
      FinalStays(m, Iterate(m, begin, n + 1), k - n - 1);
    } else if k < n {
      assert Affords(limits, UsedBy(m, begin, k + 1));
    }
  }

  /** The run makes so many steps before it is over. */
  ghost predicate TotalSteps(m: Machine, begin: Config, steps: nat) {
    exists n: nat :: OverAt(m, begin, n) && UsedBy(m, begin, n + 1).steps == steps
  }

  ghost predicate OverAt(m: Machine, begin: Config, n: nat) {
    !Final(Iterate(m, begin, n)) && Final(Iterate(m, begin, n + 1))
  }

  lemma OverOnce(m: Machine, begin: Config, n: nat, k: nat)
    requires OverAt(m, begin, n) && !Final(Iterate(m, begin, k))
    ensures k <= n
  {
    if k > n {
      IterateMore(m, begin, n + 1, k - n - 1);
      FinalStays(m, Iterate(m, begin, n + 1), k - n - 1);
    }
  }

  /** A run makes one number of steps. */
  lemma OneTotal(m: Machine, begin: Config, a: nat, b: nat)
    requires TotalSteps(m, begin, a) && TotalSteps(m, begin, b)
    ensures a == b
  {
    var n: nat :| OverAt(m, begin, n) && UsedBy(m, begin, n + 1).steps == a;
    var k: nat :| OverAt(m, begin, k) && UsedBy(m, begin, k + 1).steps == b;
    OverOnce(m, begin, n, k);
    OverOnce(m, begin, k, n);
  }
}
