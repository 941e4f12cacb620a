/**
 What each event does to the emission service, in terms of what a caller and the worker see:
 which events are the first failure, whom they reject, and that nothing else fails.
 */
module EmissionFailures {
  import opened Basics
  import opened EmissionService

  /** The error an event brings to a service that has not failed yet, if it brings one. */
  function CauseOf<P, R>(s: State<P, R>, e: Event<P, R>): Option<Error> {
    match e
    case WorkerError(cause) => Some(Thrown(cause))
    case Exit(code) => Some(Exited(code))
    case Close => Some(Closed)
    case Receive(Garbage) => Some(Malformed)
    case Receive(Reply(id, _)) => if id in s.pending then None else Some(Unexpected)
    case Emit(_, PostThrows(cause)) => Some(Thrown(cause))
    case Emit(_, CreateThrows(cause)) => if s.worker then None else Some(Thrown(cause))
    case Emit(_, ListenThrows(cause)) => if s.worker then None else Some(Thrown(cause))
    case _ => None
  }

  /** Every call that was waiting is rejected with this error. */
  ghost predicate AllRejected<P, R>(s: State<P, R>, t: State<P, R>, error: Error) {
    forall id | id in s.pending :: s.pending[id] in t.settled && t.settled[s.pending[id]] == Rejected(error)
  }

  lemma OpenIsIdle<P, R>(s: State<P, R>)
    requires Inv(s) && s.failure == None
    ensures s.termination == Idle && !s.closing && forall id | id in s.pending :: s.pending[id] !in s.settled
  {
    forall id | id in s.pending ensures s.pending[id] !in s.settled {
      assert s.pending[id] in Waiting(s.pending);
    }
  }

  /**
   The first failure: the error stays, everything that waited is rejected with it, the worker
   is released, its termination is scheduled, and nothing is posted.
   */
  lemma FailingEventFails<P, R>(s: State<P, R>, e: Event<P, R>, error: Error)
    requires Inv(s) && s.failure == None && CauseOf(s, e) == Some(error)
    ensures var t := Step(s, e);
      && t.failure == Some(error) && t.pending == map[] && AllRejected(s, t, error)
      && !t.referenced && t.termination == Scheduled && t.terminated == s.terminated && t.posted == s.posted
      && t.closing == e.Close? && t.calls == s.calls + (if e.Emit? then 1 else 0)
      && (e.Emit? ==> s.calls in t.settled && t.settled[s.calls] == Rejected(error))
  {
    OpenIsIdle(s);
    StepKeepsInv(s, e);
    assert s.calls !in s.settled && s.calls !in Waiting(s.pending);
    assert forall id | id in s.pending :: s.pending[id] in Waiting(s.pending);
    if e.Emit? {
      FailingEmit(s, e, error);
    }
  }

  lemma FailingEmit<P, R>(s: State<P, R>, e: Event<P, R>, error: Error)
    requires Inv(s) && s.failure == None && e.Emit? && CauseOf(s, e) == Some(error)
    requires s.termination == Idle && s.calls !in s.settled && s.calls !in Waiting(s.pending)
    requires forall id | id in s.pending :: s.pending[id] !in s.settled
    ensures var t := Step(s, e);
      && t.failure == Some(error) && t.pending == map[] && AllRejected(s, t, error)
      && t.termination == Scheduled && t.terminated == s.terminated && t.posted == s.posted
      && t.closing == s.closing && t.calls == s.calls + 1
      && s.calls in t.settled && t.settled[s.calls] == Rejected(error)
  {
    assert forall id | id in s.pending :: s.pending[id] in Waiting(s.pending);
    var pending := s.pending[s.sequence := s.calls];
    assert forall id | id in s.pending :: id in pending && pending[id] == s.pending[id];
    assert forall id | id in s.pending :: s.pending[id] in Waiting(pending);
  }

  /** Any other call is posted under a new identifier, to the one worker, and waits. */
  lemma SentCallWaits<P, R>(s: State<P, R>, payload: P, fault: Fault)
    requires Inv(s) && s.failure == None && CauseOf<P, R>(s, Emit(payload, fault)) == None
    ensures var t := Step(s, Emit(payload, fault));
      && t.failure == None && t.calls == s.calls + 1 && t.settled == s.settled
      && t.pending == s.pending[s.sequence := s.calls] && s.sequence !in s.pending
      && t.posted == s.posted + [Post(s.sequence, payload)] && t.sequence == s.sequence + 1
      && t.worker && t.referenced && t.termination == s.termination
  {}

  /** A reply settles the call that waits for it as it says, and no other. */
  lemma ReplySettlesItsCall<P, R>(s: State<P, R>, id: int, outcome: Outcome<R>)
    requires Inv(s) && id in s.pending
    ensures var t := Step(s, Receive(Reply(id, outcome)));
      && t.settled == s.settled[s.pending[id] := outcome] && t.pending == s.pending - {id}
      && t.failure == s.failure && t.posted == s.posted && t.calls == s.calls
      && (t.referenced <==> t.pending != map[])
  {
    assert s.pending[id] in Waiting(s.pending);
    StepKeepsInv(s, Receive(Reply(id, outcome)));
  }

  /** Without a failure nothing is terminated, and a failed service terminates its worker at the next turn. */
  lemma TurnTerminates<P, R>(s: State<P, R>)
    requires Inv(s)
    ensures var t := Step(s, Microtask);
      && t.terminated == (if s.failure.Some? && s.worker then 1 else 0)
      && t == s.(termination := t.termination, terminated := t.terminated)
      && (t.termination == Idle <==> s.failure == None) && t.termination != Scheduled
  {}

  /** A failed service only rejects new calls, notes that it is closed, and terminates its worker once. */
  lemma FailedServiceRefuses<P, R>(s: State<P, R>, e: Event<P, R>)
    requires Inv(s) && s.failure.Some?
    ensures var t := Step(s, e);
      && t == s.(calls := t.calls, settled := t.settled, closing := t.closing,
                 termination := t.termination, terminated := t.terminated)
      && t.settled == (if e.Emit? then s.settled[s.calls := Rejected(s.failure.value)] else s.settled)
      && t.calls == s.calls + (if e.Emit? then 1 else 0)
      && t.closing == (s.closing || e.Close?)
      && t.termination == (if e.Microtask? then Done else s.termination)
      && t.terminated == (if e.Microtask? && s.worker then 1 else s.terminated)
  {
    assert s.calls !in s.settled;
    assert Waiting(s.pending) == {};
  }

  // ----- Runs -----

  /** The `k`th event of a run fails. */
  ghost predicate FailsAt<P, R>(s: State<P, R>, events: seq<Event<P, R>>, k: nat)
    requires k < |events|
  {
    CauseOf(Run(s, events[..k]), events[k]).Some?
  }

  ghost predicate EveryCallSettled<P, R>(s: State<P, R>) {
    forall c: nat | c < s.calls :: c in s.settled
  }

  lemma FailedIsSettled<P, R>(s: State<P, R>)
    requires Inv(s) && s.failure.Some?
    ensures EveryCallSettled(s)
  {
    assert Waiting(s.pending) == {};
  }

  /** A run fails if and only if one of its events does, and then leaves no call unsettled. */
  lemma {:induction false} FailedIff<P, R>(s: State<P, R>, events: seq<Event<P, R>>)
    requires Inv(s) && s.failure == None
    ensures var t := Run(s, events);
      && (t.failure.Some? <==> exists k: nat | k < |events| :: FailsAt(s, events, k))
      && (t.failure.Some? ==> EveryCallSettled(t) && t.pending == map[] && !t.referenced)
    decreases |events|
  {
    RunKeepsInv(s, events);
    if events != [] {
      var e, next, rest := events[0], Step(s, events[0]), events[1..];
      assert events[..0] == [];
      assert FailsAt(s, events, 0) <==> CauseOf(s, e).Some?;
      if CauseOf(s, e).Some? {
        FailingEventFails(s, e, CauseOf(s, e).value);
        StepKeepsInv(s, e);
        FirstFailureIsFinal(next, rest);
      } else {
        HarmlessEvent(s, e);
        FailedIff(next, rest);
        FailsLater(s, events);
      }
    }
    if Run(s, events).failure.Some? {
      FailedIsSettled(Run(s, events));
    }
  }

  lemma HarmlessEvent<P, R>(s: State<P, R>, e: Event<P, R>)
    requires Inv(s) && s.failure == None && CauseOf(s, e) == None
    ensures Inv(Step(s, e)) && Step(s, e).failure == None
  {
    StepKeepsInv(s, e);
  }

  lemma FailsLater<P, R>(s: State<P, R>, events: seq<Event<P, R>>)
    requires events != [] && CauseOf(s, events[0]) == None
    ensures var next, rest := Step(s, events[0]), events[1..];
      (exists k: nat | k < |events| :: FailsAt(s, events, k)) <==> exists k: nat | k < |rest| :: FailsAt(next, rest, k)
  {
    var next, rest := Step(s, events[0]), events[1..];
    assert events[..0] == [];
    forall k: nat | k < |rest| ensures FailsAt(next, rest, k) <==> FailsAt(s, events, k + 1) {
      var longer := events[..k + 1];
      assert longer[0] == events[0] && longer[1..] == rest[..k];
      assert Run(s, longer) == Run(next, rest[..k]);
    }
    if k: nat :| k < |events| && FailsAt(s, events, k) {
      assert k > 0;
      assert FailsAt(next, rest, k - 1);
    }
  }

  /** The first call of a new service creates its worker and posts request 0. */
  lemma FirstCallIsPosted<P, R>(payload: P)
    ensures var t := Run(Init<P, R>(), [Emit(payload, NoFault)]);
      && t.posted == [Post(0, payload)] && t.pending == map[0 := 0] && t.created == 1 && t.terminated == 0
      && t.worker && t.referenced && t.failure == None && !t.closing && t.termination == Idle
      && t.calls == 1 && t.settled == map[]
  {
    var events: seq<Event<P, R>> := [Emit(payload, NoFault)];
    assert events[1..] == [];
  }
}
