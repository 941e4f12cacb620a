/**
 The service composed with the worker of tools/test262-emission-worker.ts over two ordered
 channels. The worker answers each request once: the backend's result, or its exception as an
 error reply, so `backend` is total.
 */
module EmissionSystem {
  import opened Basics
  import opened EmissionService

  datatype Answer<+R> = Answer(id: int, outcome: Outcome<R>)

  /** `asked` remembers the payload of every call, for the statements below only. */
  datatype System<P, R> = System(
    service: State<P, R>,
    requests: seq<Post<P>>,
    replies: seq<Answer<R>>,
    asked: seq<P>)

  /** What can happen while nothing crashes: callers, the worker, delivery, and closing. */
  datatype Action<+P> = Ask(payload: P) | Work | Deliver | Shut | Settle | Gone(code: int)

  function Start<P, R>(): System<P, R> {
    System(Init(), [], [], [])
  }

  predicate Enabled<P, R>(m: System<P, R>, a: Action<P>) {
    match a
    case Ask(_) => true
    case Work => m.requests != []
    case Deliver => m.replies != []
    case Shut => true
    case Settle => m.service.termination == Scheduled
    // The worker exits only because it was terminated.
    case Gone(_) => m.service.termination == Done
  }

  function Act<P, R>(backend: P -> Outcome<R>, m: System<P, R>, a: Action<P>): System<P, R>
    requires Enabled(m, a)
  {
    match a
    case Ask(payload) =>
      var s := StepEmit(m.service, payload, NoFault);
      m.(service := s, asked := m.asked + [payload],
         requests := m.requests + s.posted[|m.service.posted|..])
    case Work =>
      m.(requests := m.requests[1..],
         replies := m.replies + [Answer(m.requests[0].id, backend(m.requests[0].payload))])
    case Deliver =>
      m.(service := StepReceive(m.service, Reply(m.replies[0].id, m.replies[0].outcome)),
         replies := m.replies[1..])
    case Shut => m.(service := StepClose(m.service))
    case Settle => m.(service := StepMicrotask(m.service))
    case Gone(code) => m.(service := Fail(m.service, Exited(code)))
  }

  /** The actions lead from `m` to `n`, each one enabled when its turn comes. */
  ghost predicate Passes<P(!new), R(!new)>(backend: P -> Outcome<R>, m: System<P, R>, actions: seq<Action<P>>,
                                           n: System<P, R>)
    decreases |actions|
  {
    if actions == [] then m == n
    else Enabled(m, actions[0]) && Passes(backend, Act(backend, m, actions[0]), actions[1..], n)
  }

  // ----- The invariant -----

  /** Every identifier in flight is pending once, for the payload its call asked. */
  ghost predicate InFlight<P, R>(backend: P -> Outcome<R>, m: System<P, R>) {
    && (forall i | 0 <= i < |m.requests| :: RequestOk(m, m.requests[i]))
    && (forall i | 0 <= i < |m.replies| :: AnswerOk(backend, m, m.replies[i]))
    && (forall i, j | 0 <= i < j < |m.requests| :: m.requests[i].id != m.requests[j].id)
    && (forall i, j | 0 <= i < j < |m.replies| :: m.replies[i].id != m.replies[j].id)
    && (forall i, j | 0 <= i < |m.requests| && 0 <= j < |m.replies| :: m.requests[i].id != m.replies[j].id)
    && (forall id | id in m.service.pending :: Travels(m, id))
  }

  ghost predicate RequestOk<P, R>(m: System<P, R>, r: Post<P>) {
    r.id in m.service.pending && m.service.pending[r.id] < |m.asked| && m.asked[m.service.pending[r.id]] == r.payload
  }

  ghost predicate AnswerOk<P, R>(backend: P -> Outcome<R>, m: System<P, R>, a: Answer<R>) {
    && a.id in m.service.pending && m.service.pending[a.id] < |m.asked|
    && a.outcome == backend(m.asked[m.service.pending[a.id]])
  }

  ghost predicate Travels<P, R>(m: System<P, R>, id: int) {
    || (exists i :: 0 <= i < |m.requests| && m.requests[i].id == id)
    || (exists i :: 0 <= i < |m.replies| && m.replies[i].id == id)
  }

  /** Each settled call got the backend's own answer, or was cut off by closing. */
  ghost predicate AnswersOk<P, R>(backend: P -> Outcome<R>, m: System<P, R>) {
    forall c | c in m.service.settled ::
      && c < |m.asked|
      && (m.service.settled[c] == backend(m.asked[c])
          || (m.service.closing && m.service.settled[c] == Rejected(Closed)))
  }

  ghost predicate SystemInv<P, R>(backend: P -> Outcome<R>, m: System<P, R>) {
    && Inv(m.service)
    && |m.asked| == m.service.calls
    && m.service.failure == (if m.service.closing then Some(Closed) else None)
    && AnswersOk(backend, m)
    && (!m.service.closing ==> InFlight(backend, m))
  }

  lemma AskKeepsInv<P, R>(backend: P -> Outcome<R>, m: System<P, R>, payload: P)
    requires SystemInv(backend, m)
    ensures SystemInv(backend, Act(backend, m, Ask(payload)))
  {
    var s := m.service;
    var n := Act(backend, m, Ask(payload));
    EmitKeepsInv(s, payload, NoFault);
    assert s.calls !in s.settled;
    if !s.closing {
      assert n.service.posted[|s.posted|..] == [Post(s.sequence, payload)];
      assert n.requests == m.requests + [Post(s.sequence, payload)];
      AskInFlight(backend, m, n, payload);
    }
  }

  /** A request or answer stays in flight when a call with a fresh identifier becomes pending. */
  lemma AskKeepsEntries<P, R>(backend: P -> Outcome<R>, m: System<P, R>, n: System<P, R>, payload: P)
    requires InFlight(backend, m) && PendingOk(m.service)
    requires n.service.pending == m.service.pending[m.service.sequence := m.service.calls]
    requires n.asked == m.asked + [payload]
    ensures forall i | 0 <= i < |m.requests| :: m.requests[i].id != m.service.sequence && RequestOk(n, m.requests[i])
    ensures forall i | 0 <= i < |m.replies| ::
      m.replies[i].id != m.service.sequence && AnswerOk(backend, n, m.replies[i])
  {
    forall i | 0 <= i < |m.requests| ensures m.requests[i].id != m.service.sequence && RequestOk(n, m.requests[i]) {
      assert RequestOk(m, m.requests[i]);
    }
    forall i | 0 <= i < |m.replies|
      ensures m.replies[i].id != m.service.sequence && AnswerOk(backend, n, m.replies[i])
    {
      assert AnswerOk(backend, m, m.replies[i]);
    }
  }

  /** One more pending call with a fresh identifier leaves the rest in flight. */
  lemma AskInFlight<P, R>(backend: P -> Outcome<R>, m: System<P, R>, n: System<P, R>, payload: P)
    requires InFlight(backend, m) && PendingOk(m.service) && |m.asked| == m.service.calls
    requires n.service.pending == m.service.pending[m.service.sequence := m.service.calls]
    requires n.asked == m.asked + [payload] && n.replies == m.replies
    requires n.requests == m.requests + [Post(m.service.sequence, payload)]
    ensures InFlight(backend, n)
  {
    AskKeepsEntries(backend, m, n, payload);
    forall id | id in n.service.pending ensures Travels(n, id) {
      AskTravels(m, n, payload, id);
    }
  }

  lemma AskTravels<P, R>(m: System<P, R>, n: System<P, R>, payload: P, id: int)
    requires n.requests == m.requests + [Post(m.service.sequence, payload)] && n.replies == m.replies
    requires id == m.service.sequence || Travels(m, id)
    ensures Travels(n, id)
  {
    if id == m.service.sequence {
      assert n.requests[|m.requests|].id == id;
    } else if i :| 0 <= i < |m.requests| && m.requests[i].id == id {
      assert n.requests[i].id == id;
    }
  }

  lemma WorkKeepsInv<P, R>(backend: P -> Outcome<R>, m: System<P, R>)
    requires SystemInv(backend, m) && m.requests != []
    ensures SystemInv(backend, Act(backend, m, Work))
  {
    var n := Act(backend, m, Work);
    if !m.service.closing {
      assert RequestOk(m, m.requests[0]);
      assert forall i | 0 <= i < |n.requests| :: n.requests[i] == m.requests[i + 1];
      forall i | 0 <= i < |n.requests| ensures RequestOk(n, n.requests[i]) {
        assert RequestOk(m, m.requests[i + 1]);
      }
      forall i | 0 <= i < |n.replies| ensures AnswerOk(backend, n, n.replies[i]) {
        if i < |m.replies| {
          assert AnswerOk(backend, m, m.replies[i]);
        }
      }
      forall id | id in n.service.pending ensures Travels(n, id) {
        WorkTravels(backend, m, id);
      }
    }
  }

  lemma WorkTravels<P, R>(backend: P -> Outcome<R>, m: System<P, R>, id: int)
    requires m.requests != [] && Travels(m, id)
    ensures Travels(Act(backend, m, Work), id)
  {
    var n := Act(backend, m, Work);
    if i :| 0 <= i < |m.requests| && m.requests[i].id == id {
      if i == 0 {
        assert n.replies[|m.replies|].id == id;
      } else {
        assert n.requests[i - 1].id == id;
      }
    } else {
      var i :| 0 <= i < |m.replies| && m.replies[i].id == id;
      assert n.replies[i].id == id;
    }
  }

  lemma DeliverKeepsInv<P, R>(backend: P -> Outcome<R>, m: System<P, R>)
    requires SystemInv(backend, m) && m.replies != []
    ensures SystemInv(backend, Act(backend, m, Deliver))
  {
    var s, a, n := m.service, m.replies[0], Act(backend, m, Deliver);
    StepKeepsInv(s, Receive(Reply(a.id, a.outcome)));
    if s.closing {
      assert Waiting(s.pending) == {};
      assert RejectAll(s.settled, {}, Closed) == s.settled;
    } else {
      assert AnswerOk(backend, m, a);
      assert s.pending[a.id] !in s.settled;
      DeliverInFlight(backend, m);
    }
  }

  lemma DeliverInFlight<P, R>(backend: P -> Outcome<R>, m: System<P, R>)
    requires SystemInv(backend, m) && m.replies != [] && !m.service.closing
    ensures InFlight(backend, Act(backend, m, Deliver))
  {
    var a, n := m.replies[0], Act(backend, m, Deliver);
    assert AnswerOk(backend, m, a);
    assert n.service.pending == m.service.pending - {a.id};
    assert forall i | 0 <= i < |n.replies| :: n.replies[i] == m.replies[i + 1];
    forall i | 0 <= i < |n.requests| ensures RequestOk(n, n.requests[i]) {
      assert RequestOk(m, m.requests[i]) && m.requests[i].id != m.replies[0].id;
    }
    forall i | 0 <= i < |n.replies| ensures AnswerOk(backend, n, n.replies[i]) {
      assert AnswerOk(backend, m, m.replies[i + 1]) && m.replies[0].id != m.replies[i + 1].id;
    }
    forall id | id in n.service.pending ensures Travels(n, id) {
      assert Travels(m, id);
      if i :| 0 <= i < |m.replies| && m.replies[i].id == id {
        assert n.replies[i - 1].id == id;
      }
    }
  }

  lemma ShutKeepsInv<P, R>(backend: P -> Outcome<R>, m: System<P, R>)
    requires SystemInv(backend, m)
    ensures SystemInv(backend, Act(backend, m, Shut))
  {
    StepKeepsInv(m.service, Event<P, R>.Close);
    if !m.service.closing {
      var n := Act(backend, m, Shut);
      forall c | c in n.service.settled
        ensures c < |n.asked|
        ensures n.service.settled[c] == backend(n.asked[c]) || n.service.settled[c] == Rejected(Closed)
      {
        if c !in m.service.settled {
          assert c in Waiting(m.service.pending);
        }
      }
    }
  }

  lemma ActKeepsInv<P, R>(backend: P -> Outcome<R>, m: System<P, R>, a: Action<P>)
    requires SystemInv(backend, m) && Enabled(m, a)
    ensures SystemInv(backend, Act(backend, m, a))
  {
    match a
    case Ask(payload) => AskKeepsInv(backend, m, payload);
    case Work => WorkKeepsInv(backend, m);
    case Deliver => DeliverKeepsInv(backend, m);
    case Shut => ShutKeepsInv(backend, m);
    case Settle => StepKeepsInv(m.service, Event<P, R>.Microtask);
    case Gone(code) =>
      StepKeepsInv(m.service, Event<P, R>.Exit(code));
      assert m.service.failure.Some?;
      assert Waiting(m.service.pending) == {};
      assert RejectAll(m.service.settled, {}, Closed) == m.service.settled;
  }

  lemma {:induction false} PassingKeepsInv<P(!new), R(!new)>(backend: P -> Outcome<R>, m: System<P, R>,
                                                             actions: seq<Action<P>>, n: System<P, R>)
    requires SystemInv(backend, m) && Passes(backend, m, actions, n)
    ensures SystemInv(backend, n)
    decreases |actions|
  {
    if actions != [] {
      ActKeepsInv(backend, m, actions[0]);
      PassingKeepsInv(backend, Act(backend, m, actions[0]), actions[1..], n);
    }
  }

  lemma StartInv<P, R>(backend: P -> Outcome<R>)
    ensures SystemInv(backend, Start<P, R>())
  {
    assert Waiting(map[]) == {};
  }

  /** With both channels empty nothing is pending. */
  lemma NothingPending<P, R>(backend: P -> Outcome<R>, m: System<P, R>)
    requires InFlight(backend, m) && m.requests == [] && m.replies == []
    ensures m.service.pending == map[] && Waiting(m.service.pending) == {}
  {
    assert forall id :: !Travels(m, id);
    assert forall id :: id !in m.service.pending;
    assert m.service.pending.Keys == {};
  }

  /**
   No spurious rejection: over every run of callers, worker, and closing, each settled call
   carries the backend's answer to its own payload, unless closing cut it off; before closing
   the service never fails, and once both channels are empty every call has been answered.
   */
  lemma NoSpuriousRejection<P(!new), R(!new)>(backend: P -> Outcome<R>, actions: seq<Action<P>>, m: System<P, R>)
    requires Passes(backend, Start(), actions, m)
    ensures forall c | c in m.service.settled ::
      && c < |m.asked|
      && (m.service.settled[c] == backend(m.asked[c])
          || (m.service.closing && m.service.settled[c] == Rejected(Closed)))
    ensures !m.service.closing ==> m.service.failure == None
    ensures !m.service.closing && m.requests == [] && m.replies == [] ==>
      forall c | 0 <= c < |m.asked| :: c in m.service.settled && m.service.settled[c] == backend(m.asked[c])
  {
    StartInv<P, R>(backend);
    PassingKeepsInv(backend, Start(), actions, m);
    if !m.service.closing && m.requests == [] && m.replies == [] {
      NothingPending(backend, m);
    }
  }

  /** From every state before closing, the worker and delivery alone answer every call. */
  lemma {:induction false} Drain<P(!new), R(!new)>(backend: P -> Outcome<R>, m: System<P, R>)
    returns (actions: seq<Action<P>>, n: System<P, R>)
    requires SystemInv(backend, m) && !m.service.closing
    ensures Passes(backend, m, actions, n) && forall a | a in actions :: a.Work? || a.Deliver?
    ensures |actions| == 2 * |m.requests| + |m.replies|
    ensures n.asked == m.asked && n.requests == [] && n.replies == []
    ensures forall c | 0 <= c < |m.asked| :: c in n.service.settled && n.service.settled[c] == backend(m.asked[c])
    decreases 2 * |m.requests| + |m.replies|
  {
    if m.requests != [] || m.replies != [] {
      var a: Action<P> := if m.requests != [] then Work else Deliver;
      ActKeepsInv(backend, m, a);
      DrainStaysOpen(backend, m, a);
      var rest;
      rest, n := Drain(backend, Act(backend, m, a));
      actions := [a] + rest;
    } else {
      actions, n := [], m;
      NothingPending(backend, m);
    }
  }

  lemma DrainStaysOpen<P, R>(backend: P -> Outcome<R>, m: System<P, R>, a: Action<P>)
    requires SystemInv(backend, m) && !m.service.closing && Enabled(m, a) && (a.Work? || a.Deliver?)
    ensures !Act(backend, m, a).service.closing && Act(backend, m, a).asked == m.asked
  {
    if a.Deliver? {
      assert AnswerOk(backend, m, m.replies[0]);
    }
  }

  // ----- Closing -----

  /** Every call is settled: those that waited are cut off, the others keep what they got. */
  ghost predicate ClosedDown<P, R>(m: System<P, R>, n: System<P, R>) {
    && n.service.closing && n.service.termination == Done && !n.service.referenced && n.service.pending == map[]
    && (forall c: nat | c < m.service.calls :: c in n.service.settled)
    && (forall c | c in m.service.settled :: c in n.service.settled && n.service.settled[c] == m.service.settled[c])
    && (forall c: nat | c < m.service.calls && c !in m.service.settled :: n.service.settled[c] == Rejected(Closed))
  }

  lemma CloseSettles<P, R>(s: State<P, R>)
    requires Inv(s) && s.failure == None && !s.closing
    ensures var t := StepClose(s);
      && t.closing && t.failure == Some(Closed) && t.termination == Scheduled && t.pending == map[] && !t.referenced
      && t.worker == s.worker && t.terminated == s.terminated
      && (forall c: nat | c < s.calls :: c in t.settled)
      && (forall c | c in s.settled :: c in t.settled && t.settled[c] == s.settled[c])
      && (forall c: nat | c < s.calls && c !in s.settled :: t.settled[c] == Rejected(Closed))
  {
    StepKeepsInv(s, Close);
    var t := StepClose(s);
    assert t.settled == RejectAll(s.settled, Waiting(s.pending), Closed);
    assert forall c: nat :: c < s.calls && c !in s.settled ==> c in Waiting(s.pending);
  }

  lemma ExitKeepsClosed<P, R>(s: State<P, R>, code: int)
    requires s.failure == Some(Closed) && s.pending == map[] && s.termination == Done
    ensures var t := Fail(s, Exited(code));
      t.settled == s.settled && t.pending == map[] && t.closing == s.closing && t.termination == Done
      && t.terminated == s.terminated && (!s.referenced ==> !t.referenced)
  {
    assert Waiting(s.pending) == {};
  }

  /** An open system can be closed at any time: its worker is then terminated and exits, and every call is settled. */
  lemma CloseDown<P(!new), R(!new)>(backend: P -> Outcome<R>, m: System<P, R>, code: int) returns (n: System<P, R>)
    requires SystemInv(backend, m) && !m.service.closing
    ensures Passes(backend, m, [Shut, Settle, Gone(code)], n) && ClosedDown(m, n)
    ensures n.service.terminated == m.service.terminated + if m.service.worker then 1 else 0
  {
    ghost var shut, settle, gone: seq<Action<P>> := [Shut, Settle, Gone(code)], [Settle, Gone(code)], [Gone(code)];
    assert shut[1..] == settle && settle[1..] == gone && gone[1..] == [];
    CloseSettles(m.service);
    var a := Act(backend, m, Shut);
    var b := Act(backend, a, Settle);
    ExitKeepsClosed(b.service, code);
    n := Act(backend, b, Gone(code));
    assert Passes(backend, n, [], n);
    assert Passes(backend, b, gone, n);
    assert Passes(backend, a, settle, n);
  }
}
