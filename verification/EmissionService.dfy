/**
 The emission service of tools/test262-emission.ts: one lazily created worker, requests
 answered by identifier, and a first failure that is final. `Step` is the transition function
 of one event; the class below performs the same transitions on mutable fields.
 */
module EmissionService {
  import opened Basics

  /** `Thrown` stands for whatever the worker, its creation, or the transport raised. */
  datatype Error = Malformed | Unexpected | Exited(code: int) | Closed | Thrown(cause: int)

  datatype Outcome<+R> = Resolved(result: R) | Rejected(error: Error)

  /** What arrives from the worker: anything the shape check refuses, or a reply. */
  datatype Message<+R> = Garbage | Reply(id: int, outcome: Outcome<R>)

  datatype Post<+P> = Post(id: int, payload: P)

  datatype Termination = Idle | Scheduled | Done

  /** Where, if anywhere, the body of one `emit` throws. */
  datatype Fault = NoFault | CreateThrows(cause: int) | ListenThrows(cause: int) | PostThrows(cause: int)

  datatype Event<+P, +R> =
    | Emit(payload: P, fault: Fault)
    | Receive(message: Message<R>)
    | WorkerError(cause: int)
    | Exit(code: int)
    | Close
    | Microtask

  /**
   The service and its visible effects. `pending` maps request identifiers to `emit` calls,
   which are numbered in order; `settled` records how each call's promise was settled.
   */
  datatype State<P, R> = State(
    pending: map<int, nat>,
    worker: bool,
    referenced: bool,
    failure: Option<Error>,
    sequence: nat,
    closing: bool,
    termination: Termination,
    calls: nat,
    settled: map<nat, Outcome<R>>,
    posted: seq<Post<P>>,
    created: nat,
    terminated: nat)

  function Init<P, R>(): State<P, R> {
    State(map[], false, false, None, 0, false, Idle, 0, map[], [], 0, 0)
  }

  // ----- Transitions -----

  /** A promise settles once; later attempts change nothing. */
  function Settle<R>(settled: map<nat, Outcome<R>>, call: nat, outcome: Outcome<R>): map<nat, Outcome<R>> {
    if call in settled then settled else settled[call := outcome]
  }

  function RejectAll<R>(settled: map<nat, Outcome<R>>, calls: set<nat>, error: Error): map<nat, Outcome<R>> {
    map c | c in settled.Keys + calls :: if c in settled then settled[c] else Rejected(error)
  }

  /** The calls that wait for a reply. */
  function Waiting(pending: map<int, nat>): set<nat> {
    set id | id in pending :: pending[id]
  }

  function FirstFailure(failure: Option<Error>, error: Error): Error {
    if failure.Some? then failure.value else error
  }

  function Fail<P, R>(s: State<P, R>, error: Error): State<P, R> {
    var final := FirstFailure(s.failure, error);
    s.(failure := Some(final),
       settled := RejectAll(s.settled, Waiting(s.pending), final),
       pending := map[],
       referenced := s.referenced && !s.worker,
       termination := if s.termination == Idle then Scheduled else s.termination)
  }

  /** Fail inside `emit`, whose own promise may not be pending yet. */
  function FailCall<P, R>(s: State<P, R>, call: nat, error: Error): State<P, R> {
    var f := Fail(s, error);
    f.(settled := Settle(f.settled, call, Rejected(FirstFailure(s.failure, error))))
  }

  function Issue<P, R>(s: State<P, R>, call: nat): State<P, R> {
    s.(sequence := s.sequence + 1, pending := s.pending[s.sequence := call], referenced := true)
  }

  /** Issue a request for the call and post it. */
  function Send<P, R>(s: State<P, R>, call: nat, payload: P, fault: Fault): State<P, R> {
    var issued := Issue(s, call);
    if fault.PostThrows? then FailCall(issued, call, Thrown(fault.cause))
    else issued.(posted := s.posted + [Post(s.sequence, payload)])
  }

  function StepEmit<P, R>(s: State<P, R>, payload: P, fault: Fault): State<P, R> {
    var call := s.calls;
    var entered := s.(calls := call + 1);
    if s.failure.Some? then entered.(settled := Settle(s.settled, call, Rejected(s.failure.value)))
    else if !s.worker && fault.CreateThrows? then FailCall(entered, call, Thrown(fault.cause))
    else
      var created := if s.worker then entered
                     else entered.(worker := true, created := s.created + 1, referenced := true);
      if !s.worker && fault.ListenThrows? then FailCall(created, call, Thrown(fault.cause))
      else
        Send(created, call, payload, fault)
  }

  function StepReceive<P, R>(s: State<P, R>, m: Message<R>): State<P, R> {
    match m
    case Garbage => Fail(s, Malformed)
    case Reply(id, outcome) =>
      if id !in s.pending then Fail(s, Unexpected)
      else
        var rest := s.pending - {id};
        s.(pending := rest, settled := Settle(s.settled, s.pending[id], outcome),
           referenced := s.referenced && |rest| != 0)
  }

  function StepClose<P, R>(s: State<P, R>): State<P, R> {
    if s.closing then s else Fail(s.(closing := true), Closed)
  }

  function StepMicrotask<P, R>(s: State<P, R>): State<P, R> {
    if s.termination != Scheduled then s
    else s.(termination := Done, terminated := s.terminated + if s.worker then 1 else 0)
  }

  function Step<P, R>(s: State<P, R>, e: Event<P, R>): State<P, R> {
    match e
    case Emit(payload, fault) => StepEmit(s, payload, fault)
    case Receive(m) => StepReceive(s, m)
    case WorkerError(cause) => Fail(s, Thrown(cause))
    case Exit(code) => Fail(s, Exited(code))
    case Close => StepClose(s)
    case Microtask => StepMicrotask(s)
  }

  function Run<P, R>(s: State<P, R>, events: seq<Event<P, R>>): State<P, R>
    decreases |events|
  {
    if events == [] then s else Run(Step(s, events[0]), events[1..])
  }

  /** The calls of `pending` outside `rest`. */
  ghost function Handled(pending: map<int, nat>, rest: set<int>): set<nat> {
    set id | id in pending && id !in rest :: pending[id]
  }

  lemma HandledNext(pending: map<int, nat>, rest: set<int>, id: int)
    requires rest <= pending.Keys && id in rest
    ensures Handled(pending, rest - {id}) == Handled(pending, rest) + {pending[id]}
  {}

  lemma RejectOneMore<R>(before: map<nat, Outcome<R>>, calls: set<nat>, call: nat, error: Error)
    ensures RejectAll(before, calls + {call}, error) == Settle(RejectAll(before, calls, error), call, Rejected(error))
  {}

  /** The loop that rejects every pending item. */
  method RejectEach<R>(before: map<nat, Outcome<R>>, pending: map<int, nat>, error: Error)
    returns (settled: map<nat, Outcome<R>>)
    ensures settled == RejectAll(before, Waiting(pending), error)
  {
    settled := before;
    var rest := pending.Keys;
    assert settled == RejectAll(before, Handled(pending, rest), error);
    while rest != {}
      invariant rest <= pending.Keys
      invariant settled == RejectAll(before, Handled(pending, rest), error)
      decreases |rest|
    {
      ghost var some := HasMember(rest);
      var id :| id in rest;
      HandledNext(pending, rest, id);
      RejectOneMore(before, Handled(pending, rest), pending[id], error);
      settled := Settle(settled, pending[id], Rejected(error));
      rest := rest - {id};
    }
    assert Handled(pending, rest) == Waiting(pending);
  }

  // ----- The service object -----

  class FragmentEmitter<P, R> {
    var pending: map<int, nat>
    var worker: bool
    var referenced: bool
    var failure: Option<Error>
    var sequence: nat
    var closing: bool
    var termination: Termination
    var calls: nat
    var settled: map<nat, Outcome<R>>
    var posted: seq<Post<P>>
    var created: nat
    var terminated: nat

    /** All fields as one value. */
    function View(): State<P, R>
      reads this
    {
      State(pending, worker, referenced, failure, sequence, closing, termination,
            calls, settled, posted, created, terminated)
    }

    constructor ()
      ensures View() == Init()
    {
      pending, worker, referenced, failure := map[], false, false, None;
      sequence, closing, termination, calls := 0, false, Idle, 0;
      settled, posted, created, terminated := map[], [], 0, 0;
    }

    /** Schedule the single termination of the worker. */
    method Terminate()
      modifies this`termination
      ensures termination == if old(termination) == Idle then Scheduled else old(termination)
    {
      if termination == Idle {
        termination := Scheduled;
      }
    }

    method Settled(call: nat, outcome: Outcome<R>)
      modifies this`settled
      ensures settled == Settle(old(settled), call, outcome)
    {
      if call !in settled {
        settled := settled[call := outcome];
      }
    }

    /** Keep the first error, reject everything pending with it, and stop the worker. */
    method FailWith(error: Error)
      modifies this
      ensures View() == Fail(old(View()), error)
    {
      if failure == None {
        failure := Some(error);
      }
      settled := RejectEach(settled, pending, failure.value);
      pending := map[];
      if worker {
        referenced := false;
      }
      Terminate();
    }

    /** Create the worker on first use; reports whether creating or wiring it threw. */
    method Initialize(fault: Fault) returns (threw: bool)
      modifies this`worker, this`created, this`referenced
      ensures threw <==> !old(worker) && (fault.CreateThrows? || fault.ListenThrows?)
      ensures worker == (old(worker) || !fault.CreateThrows?)
      ensures created == old(created) + if worker && !old(worker) then 1 else 0
      ensures referenced == if threw && fault.ListenThrows? then true
                            else if worker && !old(worker) then false else old(referenced)
    {
      if worker || fault.CreateThrows? {
        return !worker;
      }
      worker, created, referenced := true, created + 1, true;
      if fault.ListenThrows? {
        return true;
      }
      referenced := false;
      return false;
    }

    method EmitFragments(payload: P, fault: Fault)
      modifies this
      ensures View() == StepEmit(old(View()), payload, fault)
    {
      var call := calls;
      calls := calls + 1;
      if failure.Some? {
        Settled(call, Rejected(failure.value));
        return;
      }
      var threw := Initialize(fault);
      if threw {
        FailEmit(call, Thrown(fault.cause));
        return;
      }
      PostRequest(call, payload, fault);
    }

    method PostRequest(call: nat, payload: P, fault: Fault)
      requires failure == None
      modifies this
      ensures View() == Send(old(View()), call, payload, fault)
    {
      var id := AddPending(call);
      if fault.PostThrows? {
        FailEmit(call, Thrown(fault.cause));
        return;
      }
      posted := posted + [Post(id, payload)];
    }

    method AddPending(call: nat) returns (id: int)
      modifies this`sequence, this`pending, this`referenced
      ensures id == old(sequence) && View() == Issue(old(View()), call)
    {
      id := sequence;
      sequence := sequence + 1;
      pending := pending[id := call];
      referenced := true;
    }

    /** The catch block of `emit`. */
    method FailEmit(call: nat, error: Error)
      requires failure == None
      modifies this
      ensures View() == FailCall(old(View()), call, error)
    {
      FailWith(error);
      Settled(call, Rejected(failure.value));
    }

    method OnMessage(message: Message<R>)
      modifies this
      ensures View() == StepReceive(old(View()), message)
    {
      if message.Garbage? {
        FailWith(Malformed);
        return;
      }
      if message.id !in pending {
        FailWith(Unexpected);
        return;
      }
      var item := pending[message.id];
      pending := pending - {message.id};
      Settled(item, message.outcome);
      if |pending| == 0 {
        referenced := false;
      }
    }

    method OnError(cause: int)
      modifies this
      ensures View() == Step(old(View()), WorkerError(cause))
    {
      FailWith(Thrown(cause));
    }

    method OnExit(code: int)
      modifies this
      ensures View() == Step(old(View()), Exit(code))
    {
      FailWith(Exited(code));
    }

    method CloseService()
      modifies this
      ensures View() == StepClose(old(View()))
    {
      if !closing {
        closing := true;
        FailWith(Closed);
      }
    }

    /** The deferred body of the termination promise. */
    method RunTermination()
      modifies this
      ensures View() == StepMicrotask(old(View()))
    {
      if termination == Scheduled {
        termination := Done;
        if worker {
          terminated := terminated + 1;
        }
      }
    }
  }

  // ----- What every event keeps -----

  /** Unsettled calls are exactly the pending ones; the worker is referenced exactly while some exist. */
  ghost predicate PendingOk<P, R>(s: State<P, R>) {
    && (forall id | id in s.pending :: 0 <= id < s.sequence && s.pending[id] < s.calls)
    && (forall i, j | i in s.pending && j in s.pending && s.pending[i] == s.pending[j] :: i == j)
    && (forall c: nat :: c in s.settled <==> c < s.calls && c !in Waiting(s.pending))
    && (s.referenced <==> s.pending != map[])
  }

  /** One worker at most, created before anything is posted, and terminated at most once. */
  ghost predicate WorkerOk<P, R>(s: State<P, R>) {
    && s.created == (if s.worker then 1 else 0)
    && (!s.worker ==> s.pending == map[] && s.posted == [])
    && s.terminated == (if s.termination == Done && s.worker then 1 else 0)
  }

  ghost predicate FailureOk<P, R>(s: State<P, R>) {
    && (s.failure.Some? <==> s.termination != Idle)
    && (s.failure.Some? ==> s.pending == map[])
    && (s.closing ==> s.failure.Some?)
  }

  /** Posted identifiers rise strictly, so none is ever reused. */
  ghost predicate PostedOk<P, R>(s: State<P, R>) {
    && (forall i | 0 <= i < |s.posted| :: 0 <= s.posted[i].id < s.sequence)
    && (forall i, j | 0 <= i < j < |s.posted| :: s.posted[i].id < s.posted[j].id)
  }

  ghost predicate Inv<P, R>(s: State<P, R>) {
    PendingOk(s) && WorkerOk(s) && FailureOk(s) && PostedOk(s)
  }

  lemma FailKeepsInv<P, R>(s: State<P, R>, error: Error)
    requires PendingOk(s) && WorkerOk(s) && PostedOk(s)
    requires s.failure.Some? <==> s.termination != Idle
    ensures Inv(Fail(s, error))
  {
    var f := Fail(s, error);
    assert Waiting(f.pending) == {};
  }

  lemma IssueKeepsPending<P, R>(s: State<P, R>, t: State<P, R>)
    requires PendingOk(s) && s.failure == None
    requires t.calls == s.calls + 1 && t.sequence == s.sequence && t.pending == s.pending && t.settled == s.settled
    ensures PendingOk(Issue(t, s.calls))
  {
    var i := Issue(t, s.calls);
    assert i.pending[s.sequence] == s.calls;
    forall c: nat ensures c in Waiting(i.pending) <==> c in Waiting(s.pending) || c == s.calls {
      if c in Waiting(s.pending) {
        var id :| id in s.pending && s.pending[id] == c;
        assert i.pending[id] == c;
      }
    }
  }

  lemma FailCallKeepsInv<P, R>(s: State<P, R>, call: nat, error: Error)
    requires PendingOk(s.(calls := call)) || (PendingOk(s) && call in Waiting(s.pending))
    requires s.calls == call + 1
    requires WorkerOk(s) && PostedOk(s) && s.failure == None && s.termination == Idle
    ensures Inv(FailCall(s, call, error))
  {
    var f := FailCall(s, call, error);
    assert Waiting(f.pending) == {};
  }

  lemma EmitKeepsInv<P, R>(s: State<P, R>, payload: P, fault: Fault)
    requires Inv(s)
    ensures Inv(StepEmit(s, payload, fault))
  {
    if s.failure == None {
      var entered := s.(calls := s.calls + 1);
      if !s.worker && (fault.CreateThrows? || fault.ListenThrows?) {
        var made := entered.(worker := true, created := s.created + 1, referenced := true);
        assert StepEmit(s, payload, fault) ==
          FailCall(if fault.CreateThrows? then entered else made, s.calls, Thrown(fault.cause));
        EarlyFailKeepsInv(s, fault);
      } else {
        var made := if s.worker then entered
                    else entered.(worker := true, created := s.created + 1, referenced := true);
        SendKeepsInv(s, made, payload, fault);
      }
    }
  }

  lemma SendKeepsInv<P, R>(s: State<P, R>, made: State<P, R>, payload: P, fault: Fault)
    requires Inv(s) && s.failure == None && s.termination == Idle
    requires made == if s.worker then s.(calls := s.calls + 1)
                     else s.(calls := s.calls + 1, worker := true, created := s.created + 1, referenced := true)
    ensures Inv(Send(made, s.calls, payload, fault))
  {
    IssueKeepsPending(s, made);
    var issued := Issue(made, s.calls);
    assert issued.pending[s.sequence] == s.calls;
    if fault.PostThrows? {
      FailCallKeepsInv(issued, s.calls, Thrown(fault.cause));
    }
  }

  /** Creating the worker or attaching its listeners throws: only the new call is rejected. */
  lemma EarlyFailKeepsInv<P, R>(s: State<P, R>, fault: Fault)
    requires Inv(s) && s.failure == None && !s.worker && (fault.CreateThrows? || fault.ListenThrows?)
    ensures var entered := s.(calls := s.calls + 1);
      && Inv(FailCall(entered, s.calls, Thrown(fault.cause)))
      && Inv(FailCall(entered.(worker := true, created := s.created + 1, referenced := true),
                      s.calls, Thrown(fault.cause)))
  {
    var entered := s.(calls := s.calls + 1);
    var made := entered.(worker := true, created := s.created + 1, referenced := true);
    var f, g := FailCall(entered, s.calls, Thrown(fault.cause)), FailCall(made, s.calls, Thrown(fault.cause));
    assert Waiting(s.pending) == {} && Waiting(f.pending) == {} && Waiting(g.pending) == {};
  }

  lemma ReplyKeepsInv<P, R>(s: State<P, R>, id: int, outcome: Outcome<R>)
    requires Inv(s) && id in s.pending
    ensures Inv(StepReceive(s, Reply(id, outcome)))
  {
    var t := StepReceive(s, Reply(id, outcome));
    forall c: nat ensures c in Waiting(t.pending) <==> c in Waiting(s.pending) && c != s.pending[id] {
      if c in Waiting(s.pending) && c != s.pending[id] {
        var i :| i in s.pending && s.pending[i] == c;
        assert t.pending[i] == c;
      }
    }
    assert |t.pending| == 0 <==> t.pending == map[];
  }

  lemma StepKeepsInv<P, R>(s: State<P, R>, e: Event<P, R>)
    requires Inv(s)
    ensures Inv(Step(s, e))
  {
    match e
    case Emit(payload, fault) => EmitKeepsInv(s, payload, fault);
    case Receive(Garbage) => FailKeepsInv(s, Malformed);
    case Receive(Reply(id, outcome)) =>
      if id in s.pending {
        ReplyKeepsInv(s, id, outcome);
      } else {
        FailKeepsInv(s, Unexpected);
      }
    case WorkerError(cause) => FailKeepsInv(s, Thrown(cause));
    case Exit(code) => FailKeepsInv(s, Exited(code));
    case Close =>
      if !s.closing {
        FailKeepsInv(s.(closing := true), Closed);
      }
    case Microtask =>
  }

  /** Safety over every run, whatever the worker, the transport, and the callers do. */
  lemma {:induction false} RunKeepsInv<P, R>(s: State<P, R>, events: seq<Event<P, R>>)
    requires Inv(s)
    ensures Inv(Run(s, events))
    decreases |events|
  {
    if events != [] {
      StepKeepsInv(s, events[0]);
      RunKeepsInv(Step(s, events[0]), events[1..]);
    }
  }

  lemma EveryRunIsSafe<P, R>(events: seq<Event<P, R>>)
    ensures Inv(Run(Init<P, R>(), events))
  {
    RunKeepsInv(Init<P, R>(), events);
  }

  // ----- Promises and the first failure -----

  /** Later events never change how a call was settled. */
  ghost predicate SettledStays<R>(before: map<nat, Outcome<R>>, now: map<nat, Outcome<R>>) {
    forall c | c in before :: c in now && now[c] == before[c]
  }

  /** New entries of `now` are rejections. */
  ghost predicate OnlyRejects<R>(before: map<nat, Outcome<R>>, now: map<nat, Outcome<R>>) {
    forall c | c in now && c !in before :: now[c].Rejected?
  }

  lemma FailOnlyRejects<P, R>(s: State<P, R>, error: Error)
    ensures SettledStays(s.settled, Fail(s, error).settled)
    ensures OnlyRejects(s.settled, Fail(s, error).settled)
  {}

  lemma FailCallOnlyRejects<P, R>(s: State<P, R>, call: nat, error: Error)
    ensures SettledStays(s.settled, FailCall(s, call, error).settled)
    ensures OnlyRejects(s.settled, FailCall(s, call, error).settled)
  {
    FailOnlyRejects(s, error);
  }

  /** The new state settles more calls than the old one only by rejecting them. */
  ghost predicate RejectsMore<P, R>(s: State<P, R>, t: State<P, R>) {
    SettledStays(s.settled, t.settled) && OnlyRejects(s.settled, t.settled)
  }

  lemma SendOnlyRejects<P, R>(s: State<P, R>, call: nat, payload: P, fault: Fault)
    ensures RejectsMore(s, Send(s, call, payload, fault))
  {
    if fault.PostThrows? {
      FailCallOnlyRejects(Issue(s, call), call, Thrown(fault.cause));
    }
  }

  lemma EmitOnlyRejects<P, R>(s: State<P, R>, payload: P, fault: Fault)
    ensures RejectsMore(s, StepEmit(s, payload, fault))
  {
    var entered := s.(calls := s.calls + 1);
    var made := if s.worker then entered
                else entered.(worker := true, created := s.created + 1, referenced := true);
    if s.failure == None && !s.worker && fault.CreateThrows? {
      FailCallOnlyRejects(entered, s.calls, Thrown(fault.cause));
    } else if s.failure == None && !s.worker && fault.ListenThrows? {
      FailCallOnlyRejects(made, s.calls, Thrown(fault.cause));
    } else if s.failure == None {
      SendOnlyRejects(made, s.calls, payload, fault);
    }
  }

  /** An event other than a known reply settles calls only by rejecting them. */
  lemma StepSettles<P, R>(s: State<P, R>, e: Event<P, R>)
    ensures SettledStays(s.settled, Step(s, e).settled)
    ensures OnlyRejects(s.settled, Step(s, e).settled)
      || (e.Receive? && e.message.Reply? && e.message.id in s.pending)
  {
    match e
    case Emit(payload, fault) => EmitOnlyRejects(s, payload, fault);
    case Receive(Garbage) => FailOnlyRejects(s, Malformed);
    case Receive(Reply(id, outcome)) => FailOnlyRejects(s, Unexpected);
    case WorkerError(cause) => FailOnlyRejects(s, Thrown(cause));
    case Exit(code) => FailOnlyRejects(s, Exited(code));
    case Close => FailOnlyRejects(s.(closing := true), Closed);
    case Microtask =>
  }

  lemma {:induction false} SettledOnce<P, R>(s: State<P, R>, events: seq<Event<P, R>>)
    ensures SettledStays(s.settled, Run(s, events).settled)
    decreases |events|
  {
    if events != [] {
      StepSettles(s, events[0]);
      SettledOnce(Step(s, events[0]), events[1..]);
    }
  }

  /** One event after the first failure changes nothing but later calls, which it rejects. */
  lemma StepAfterFailure<P, R>(s: State<P, R>, e: Event<P, R>)
    requires Inv(s) && s.failure.Some?
    ensures var t := Step(s, e);
      && t.failure == s.failure && t.pending == map[]
      && t.posted == s.posted && t.created == s.created && t.sequence == s.sequence
      && t.calls == s.calls + (if e.Emit? then 1 else 0)
      && (e.Emit? ==> s.calls in t.settled && t.settled[s.calls] == Rejected(s.failure.value))
  {
    assert s.calls !in s.settled;
  }

  /**
   After the first failure: the failure stays, nothing is pending, nothing more is posted, no
   worker is created, and every later call is rejected with that same failure.
   */
  lemma {:induction false} FirstFailureIsFinal<P, R>(s: State<P, R>, events: seq<Event<P, R>>)
    requires Inv(s) && s.failure.Some?
    ensures var t := Run(s, events);
      && t.failure == s.failure && t.pending == map[]
      && t.posted == s.posted && t.created == s.created && t.sequence == s.sequence
      && t.calls >= s.calls
      && forall c | s.calls <= c < t.calls :: c in t.settled && t.settled[c] == Rejected(s.failure.value)
    decreases |events|
  {
    if events != [] {
      var next := Step(s, events[0]);
      StepKeepsInv(s, events[0]);
      StepAfterFailure(s, events[0]);
      FirstFailureIsFinal(next, events[1..]);
      SettledOnce(next, events[1..]);
    }
  }

  /** A call resolves only through a reply that carries the identifier it is pending under. */
  lemma OnlyItsReplyResolves<P, R>(s: State<P, R>, e: Event<P, R>, call: nat, result: R)
    requires Inv(s) && call !in s.settled
    requires call in Step(s, e).settled && Step(s, e).settled[call] == Resolved(result)
    ensures e.Receive? && e.message.Reply? && e.message.outcome == Resolved(result)
    ensures e.message.id in s.pending && s.pending[e.message.id] == call
  {
    StepSettles(s, e);
  }
}
