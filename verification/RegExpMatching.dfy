/**
 Matching a whole pattern at one position: running its program ends, and with the answer that
 matching by continuations gives.
 */
module RegExpMatching {
  import opened Basics
  import opened CodePointSets
  import opened RegExpSyntax
  import opened RegExpSemantics
  import opened RegExpProgram
  import opened RegExpSimulation
  import opened RegExpCorrectness

  /** A pattern body: its groups are numbered from one, group zero is the whole match. */
  ghost predicate PatternOk(body: Node) {
    Numbered(body, 1) && WellBuilt(body, GroupCount(body))
  }

  function Whole(body: Node): Node {
    Group(0, body)
  }

  function GroupCount(body: Node): nat {
    Count(Whole(body))
  }

  function RegisterCount(body: Node): nat {
    2 * GroupCount(body) + Extra(body)
  }

  function MachineOf(body: Node, input: Input): Machine {
    Machine(Program(body), input, GroupCount(body))
  }

  /** Captures unset, counters zero. */
  function StartSlots(body: Node): (slots: seq<int>)
    ensures |slots| == RegisterCount(body)
  {
    seq(RegisterCount(body), j => if j < 2 * GroupCount(body) then UNSET else 0)
  }

  function Begin(body: Node, i: nat): Config {
    Run(0, Registers(i, StartSlots(body)), [])
  }

  function StartState(body: Node, i: nat): State {
    State(i, seq(GroupCount(body), _ => None))
  }

  /** What the pattern matches at a position: the state behind the match, with all captures. */
  ghost function MatchAt(body: Node, input: Input, i: nat): Option<State>
    requires InputOk(input) && i <= |input.text|
  {
    Match(Whole(body), false, input, StartState(body, i), Done())
  }

  // ----- Final configurations -----

  predicate Final(c: Config) {
    c.Accepted? || c.Unmatched? || c.Stuck?
  }

  /** The configuration reports what was found. */
  ghost predicate Reports(m: Machine, c: Config, found: Option<State>) {
    match c
    case Accepted(now) => found == Some(State(now.index, CapturesOf(now.slots, m.groups)))
    case Unmatched => found == None
    case _ => false
  }

  lemma {:induction false} FinalStays(m: Machine, c: Config, n: nat)
    requires Final(c)
    ensures Iterate(m, c, n) == c
  {
    if n > 0 {
      FinalStays(m, c, n - 1);
    }
  }

  lemma OneFinal(m: Machine, c: Config, d: Config, e: Config)
    requires Reaches(m, c, d) && Reaches(m, c, e) && Final(d) && Final(e)
    ensures d == e
  {
    var n: nat :| Iterate(m, c, n) == d;
    var k: nat :| Iterate(m, c, k) == e;
    if n <= k {
      IterateMore(m, c, n, k - n);
      FinalStays(m, d, k - n);
    } else {
      IterateMore(m, c, k, n - k);
      FinalStays(m, e, n - k);
    }
  }

  // ----- The run from the start -----

  function WholeSite(body: Node): Site {
    Site(Whole(body), false, 0, 2 * GroupCount(body), 0)
  }

  function Start(body: Node, i: nat): Registers {
    Registers(i, StartSlots(body))
  }

  lemma WholeIsPlaced(body: Node, input: Input)
    ensures Placed(MachineOf(body, input), WholeSite(body), Size(Whole(body)) + 1)
    ensures Size(Whole(body)) < |Program(body)| && Program(body)[Size(Whole(body))] == Accept
  {}

  lemma WholeIsReady(body: Node, input: Input, i: nat)
    requires PatternOk(body) && InputOk(input) && i <= |input.text|
    ensures Ready(MachineOf(body, input), WholeSite(body), Start(body, i), StartState(body, i))
  {
    var captures := CapturesOf(StartSlots(body), GroupCount(body));
    assert forall k | 0 <= k < GroupCount(body) :: captures[k] == None;
    assert captures == StartState(body, i).captures;
  }

  lemma MatchIsFirstResult(body: Node, input: Input, i: nat)
    requires InputOk(input) && i <= |input.text|
    ensures var rs := Results(Whole(body), false, input, StartState(body, i));
      MatchAt(body, input, i) == if rs == [] then None else Some(rs[0])
  {
    MatchIsFirst(Whole(body), false, input, StartState(body, i), Done());
  }

  ghost function WholeResults(body: Node, input: Input, i: nat): seq<State>
    requires InputOk(input) && i <= |input.text|
  {
    Results(Whole(body), false, input, StartState(body, i))
  }

  function WholeTarget(body: Node, i: nat): Target {
    TargetOf(WholeSite(body), Start(body, i), [])
  }

  lemma WholeDelivers(body: Node, input: Input, i: nat)
    requires PatternOk(body) && InputOk(input) && i <= |input.text|
    ensures Delivers(MachineOf(body, input), Begin(body, i), WholeTarget(body, i), WholeResults(body, input, i))
  {
    WholeIsPlaced(body, input);
    WholeIsReady(body, input, i);
    Simulate(MachineOf(body, input), WholeSite(body), Size(Whole(body)) + 1, Start(body, i), StartState(body, i), []);
  }

  lemma NothingDelivered(m: Machine, c: Config, t: Target)
    requires Delivers(m, c, t, []) && t.base == []
    ensures Reaches(m, c, Unmatched)
  {
    StepReaches(m, Backtrack([]), Unmatched);
    ReachesTransitive(m, c, Backtrack([]), Unmatched);
  }

  lemma FirstDelivered(m: Machine, c: Config, t: Target, rs: seq<State>) returns (v: Registers)
    requires Delivers(m, c, t, rs) && rs != [] && t.address < |m.program| && m.program[t.address] == Accept
    ensures Reaches(m, c, Accepted(v)) && Represents(m, v, rs[0])
  {
    var w, extra :| DeliversFirst(m, c, t, rs[0], w, extra) && Delivers(m, Backtrack(t.base + extra), t, rs[1..]);
    v := w;
    StepReaches(m, Run(t.address, v, t.base + extra), Accepted(v));
    ReachesTransitive(m, c, Run(t.address, v, t.base + extra), Accepted(v));
  }

  /** The run of a program from its start ends and reports what the pattern matches there. */
  lemma RunReports(body: Node, input: Input, i: nat) returns (d: Config)
    requires PatternOk(body) && InputOk(input) && i <= |input.text|
    ensures Reaches(MachineOf(body, input), Begin(body, i), d) && Final(d)
    ensures Reports(MachineOf(body, input), d, MatchAt(body, input, i))
  {
    var m, rs := MachineOf(body, input), WholeResults(body, input, i);
    WholeDelivers(body, input, i);
    MatchIsFirstResult(body, input, i);
    if rs == [] {
      d := Unmatched;
      NothingDelivered(m, Begin(body, i), WholeTarget(body, i));
    } else {
      WholeIsPlaced(body, input);
      var v := FirstDelivered(m, Begin(body, i), WholeTarget(body, i), rs);
      d := Accepted(v);
    }
  }

  /** Whatever final configuration a run reaches is that one; in particular no run gets stuck. */
  lemma FinalReports(body: Node, input: Input, i: nat, c: Config)
    requires PatternOk(body) && InputOk(input) && i <= |input.text|
    requires Reaches(MachineOf(body, input), Begin(body, i), c) && Final(c)
    ensures Reports(MachineOf(body, input), c, MatchAt(body, input, i)) && !c.Stuck?
  {
    var d := RunReports(body, input, i);
    OneFinal(MachineOf(body, input), Begin(body, i), c, d);
  }
}
