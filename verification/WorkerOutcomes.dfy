/**
 What each step does to the promises of calls: which ones it settles, and with what. A failing worker
 settles all of them for good, and a session without failures answers every call and then closes.
 */
module WorkerOutcomes {
  import opened Basics
  import opened WorkerClient
  import opened WorkerProtocol
  import opened TimedOutCalls

  // ---------------------------------------------------------------------- a worker that fails

  /// The step tells a client that has not failed or closed that its worker is gone. Its exit is ignored while closing.
  predicate FailsAt<Op, R, E>(s: System<Op, R, E>, e: Event<Op, R, E>) {
    match e
    case WorkerErrorOrReadyTimeout => s.client.phase != Failed && s.client.phase != Closed
    case WorkerExit => s.client.phase == Starting || s.client.phase == Ready
    case ClientReceives(_) =>
      s.toClient != [] && s.toClient[0].FatalMessage? && s.client.phase != Failed && s.client.phase != Closed
    case _ => false
  }

  predicate TellsOfFailure<Op, R, E>(s: System<Op, R, E>, e: Event<Op, R, E>) {
    e.WorkerErrorOrReadyTimeout? || e.WorkerExit? ||
      (e.ClientReceives? && s.toClient != [] && s.toClient[0].FatalMessage?)
  }

  ghost predicate AllSettled<Op, R>(c: Client<Op, R>) {
    forall t: nat | t < c.issued :: t in c.settled
  }

  lemma FailRejects<Op, R>(c: Client<Op, R>, maxPending: nat)
    requires Invariant(c, maxPending) && c.phase != Failed && c.phase != Closed
    ensures var c' := Fail(c);
      && c'.phase == Failed && c'.failed && c'.pending == map[] && c'.outbox == [] && c'.sent == c.sent
      && c'.issued == c.issued && AllSettled(c')
      && forall t: nat | t < c.issued ::
        c'.settled[t] == if t in c.settled then c.settled[t] else Rejected(WorkerFailed)
  {
    var c' := Fail(c);
    forall t: nat | t < c.issued
      ensures t in c'.settled && c'.settled[t] == if t in c.settled then c.settled[t] else Rejected(WorkerFailed)
    {
      assert t in c.settled <==> t !in Tickets(c.pending);
    }
  }

  /**
   A worker that exits, breaks down or reports a fatal error fails the client: every open promise is
   rejected and the others keep their answers. A client that has failed or closed already is left alone, and so
   is one that is closing when the worker exits.
   */
  lemma FailureSettlesAll<Op, R, E>(engine: Engine<Op, R, E>, maxPending: nat, s: System<Op, R, E>,
                                    e: Event<Op, R, E>, s': System<Op, R, E>)
    requires Invariant(s.client, maxPending) && Step(engine, maxPending, s, e, s') && TellsOfFailure(s, e)
    ensures FailsAt(s, e) ==>
      && s'.client.phase == Failed && s'.client.failed && s'.client.sent == s.client.sent && AllSettled(s'.client)
      && s'.client.issued == s.client.issued
      && forall t: nat | t < s.client.issued ::
           s'.client.settled[t] == if t in s.client.settled then s.client.settled[t] else Rejected(WorkerFailed)
    ensures !FailsAt(s, e) ==> s'.client == s.client
  {
    if FailsAt(s, e) {
      FailRejects(s.client, maxPending);
      assert s'.client == Fail(s.client);
    }
  }

  /// The client has failed: nothing is open, and what was posted stays as it is.
  ghost predicate FailedWith<Op, R>(c: Client<Op, R>, sent: seq<Request<Op>>) {
    c.failed && c.pending == map[] && c.sent == sent
  }

  lemma FailedStaysFailed<Op, R, E>(engine: Engine<Op, R, E>, maxPending: nat, s: System<Op, R, E>,
                                    e: Event<Op, R, E>, s': System<Op, R, E>)
    requires Invariant(s.client, maxPending) && Step(engine, maxPending, s, e, s') && s.client.failed
    ensures s'.client.failed && s'.client.pending == map[] && s'.client.sent == s.client.sent
    ensures e.RequestCalled? ==>
      s'.client.settled == s.client.settled[s.client.issued :=
        Rejected(if s.client.phase == Failed then WorkerFailed else StoreClosed)]
  {
    match e
    case ClientReceives(throws) => ReceiveWhenFailed(s.client, maxPending, s.toClient[0], throws); return;
    case CloseResumed(throws) => CloseWhenFailed(s.client, maxPending, throws); return;
    case RequestCalled(op, throws) => return;
    case WorkerErrorOrReadyTimeout => return;
    case WorkerExit => return;
    case CloseCalled => return;
    case TimedOut(id) => return;
    case _ =>
  }

  lemma CloseWhenFailed<Op, R>(c: Client<Op, R>, maxPending: nat, throws: bool)
    requires Invariant(c, maxPending) && c.failed
    ensures var c' := ContinueClose(c, maxPending, throws); c'.failed && c'.pending == map[] && c'.sent == c.sent
  {
  }

  lemma ReceiveWhenFailed<Op, R>(c: Client<Op, R>, maxPending: nat, m: Message<R>, throws: nat -> bool)
    requires Invariant(c, maxPending) && c.failed
    ensures Receive(c, m, throws).failed && Receive(c, m, throws).pending == map[]
    ensures Receive(c, m, throws).sent == c.sent
  {
  }

  lemma NextFailed<Op, R, E>(engine: Engine<Op, R, E>, maxPending: nat, runs: seq<System<Op, R, E>>,
                             events: seq<Event<Op, R, E>>, n: nat, sent: seq<Request<Op>>)
    requires Run(engine, maxPending, runs, events) && n < |events| && FailedWith(runs[n].client, sent)
    ensures FailedWith(runs[n + 1].client, sent)
  {
    GoodThroughout(engine, maxPending, runs, events, n);
    FailedStaysFailed(engine, maxPending, runs[n], events[n], runs[n + 1]);
  }

  lemma {:induction false} FailedThroughout<Op, R, E>(engine: Engine<Op, R, E>, maxPending: nat,
                                                      runs: seq<System<Op, R, E>>,
                                                      events: seq<Event<Op, R, E>>, k: nat, n: nat)
    requires Run(engine, maxPending, runs, events) && k <= n < |runs| && FailedWith(runs[k].client, runs[k].client.sent)
    ensures FailedWith(runs[n].client, runs[k].client.sent)
  {
    if k < n {
      FailedThroughout(engine, maxPending, runs, events, k, n - 1);
      NextFailed(engine, maxPending, runs, events, n - 1, runs[k].client.sent);
    }
  }

  lemma NothingPendingAllSettled<Op, R>(c: Client<Op, R>)
    requires Accounted(c) && c.pending == map[]
    ensures AllSettled(c)
  {
    assert Tickets(c.pending) == {};
  }

  lemma FailureAtStep<Op, R, E>(engine: Engine<Op, R, E>, maxPending: nat, runs: seq<System<Op, R, E>>,
                                events: seq<Event<Op, R, E>>, k: nat)
    requires Run(engine, maxPending, runs, events) && k < |events| && FailsAt(runs[k], events[k])
    ensures FailedWith(runs[k + 1].client, runs[k].client.sent)
  {
    GoodThroughout(engine, maxPending, runs, events, k);
    FailureSettlesAll(engine, maxPending, runs[k], events[k], runs[k + 1]);
    assert runs[k + 1].client == Fail(runs[k].client);
  }

  /** After such a step no later call is ever posted, and at every later point every promise given out is settled. */
  lemma NothingAfterFailure<Op, R, E>(engine: Engine<Op, R, E>, maxPending: nat, runs: seq<System<Op, R, E>>,
                                      events: seq<Event<Op, R, E>>, k: nat, n: nat)
    requires Run(engine, maxPending, runs, events) && k < n < |runs| && FailsAt(runs[k], events[k])
    ensures runs[n].client.failed && runs[n].client.sent == runs[k].client.sent && AllSettled(runs[n].client)
  {
    FailureAtStep(engine, maxPending, runs, events, k);
    FailedThroughout(engine, maxPending, runs, events, k + 1, n);
    GoodThroughout(engine, maxPending, runs, events, n);
    NothingPendingAllSettled(runs[n].client);
  }

  // ------------------------------------------------------------- what settles which promise

  /// The promise of a request that waits in the outbox when posting it throws.
  ghost predicate PostThrows<Op, R>(c: Client<Op, R>, throws: nat -> bool, t: nat) {
    exists id :: id in c.outbox && id in c.pending && c.pending[id].ticket == t && throws(id)
  }

  /// `close` reaches its end: the worker never became ready, has failed, or has answered.
  predicate Finishes<Op, R>(c: Client<Op, R>) {
    match c.closing
    case AwaitReady => c.ready == Refused
    case Drained => c.failed
    case AwaitReply(t) => t in c.settled
    case _ => false
  }

  /// What a call to a client, still to be given its ticket, is rejected with at once.
  function AtOnce<Op, R>(c: Client<Op, R>, maxPending: nat, throws: bool): Option<Settlement<R>> {
    if c.phase == Failed then Some(Rejected(WorkerFailed))
    else if c.phase == Closing || c.phase == Closed then Some(Rejected(StoreClosed))
    else if |c.pending| >= maxPending then Some(Rejected(TooManyPending))
    else if c.phase == Ready && throws then Some(Rejected(PostFailed))
    else None
  }

  /// What a message of the worker settles an open promise with.
  ghost function ByMessage<Op, R>(c: Client<Op, R>, m: Message<R>, throws: nat -> bool, t: nat): Option<Settlement<R>> {
    match m
    case Response(id, reply) => if id in c.pending && c.pending[id].ticket == t then Some(Answered(reply)) else None
    case ReadyMessage => if PostThrows(c, throws, t) then Some(Rejected(PostFailed)) else None
    case FatalMessage => ByFailure(c, t)
  }

  ghost function ByFailure<Op, R>(c: Client<Op, R>, t: nat): Option<Settlement<R>> {
    if t in Tickets(c.pending) then Some(Rejected(WorkerFailed)) else None
  }

  ghost function ByClose<Op, R>(c: Client<Op, R>, throws: bool, t: nat): Option<Settlement<R>> {
    if Finishes(c) then if t in Tickets(c.pending) then Some(Rejected(StoreClosed)) else None
    else if c.closing == Drained && t == c.issued && throws then Some(Rejected(PostFailed))
    else None
  }

  /// What a step settles an open promise with, told from the promise's side; a call may settle its own promise.
  ghost function Outcome<Op, R, E>(maxPending: nat, s: System<Op, R, E>, e: Event<Op, R, E>,
                                   t: nat): Option<Settlement<R>> {
    var c := s.client;
    match e
    case RequestCalled(_, throws) => if t == c.issued then AtOnce(c, maxPending, throws) else None
    case CloseResumed(throws) => ByClose(c, throws, t)
    case TimedOut(id) =>
      if id in c.pending && c.pending[id].ticket == t then Some(Rejected(Reason.TimedOut)) else None
    case WorkerErrorOrReadyTimeout => ByFailure(c, t)
    case WorkerExit => if c.phase == Starting || c.phase == Ready then ByFailure(c, t) else None
    case ClientReceives(throws) => if s.toClient == [] then None else ByMessage(c, s.toClient[0], throws, t)
    case _ => None
  }

  /// A settled promise stays as it is, and an open one is settled just as `outcome` says.
  ghost predicate SettlesAs<Op, R>(c: Client<Op, R>, c': Client<Op, R>, t: nat, outcome: Option<Settlement<R>>) {
    if t in c.settled then t in c'.settled && c'.settled[t] == c.settled[t]
    else if outcome.Some? then t in c'.settled && c'.settled[t] == outcome.value
    else t !in c'.settled
  }

  lemma PendingIsOpen<Op, R>(c: Client<Op, R>, id: nat)
    requires Accounted(c) && id in c.pending
    ensures c.pending[id].ticket !in c.settled
  {
    assert c.pending[id].ticket in Tickets(c.pending);
  }

  lemma OneSettles<Op, R>(c: Client<Op, R>, id: nat, settlement: Settlement<R>, t: nat)
    requires Accounted(c) && id in c.pending
    ensures SettlesAs(c, Settle(c, id, settlement), t, if c.pending[id].ticket == t then Some(settlement) else None)
  {
    PendingIsOpen(c, id);
  }

  lemma AllSettle<Op, R>(c: Client<Op, R>, reason: Reason, t: nat)
    requires Accounted(c)
    ensures SettlesAs(c, RejectAll(c, reason), t, if t in Tickets(c.pending) then Some(Rejected(reason)) else None)
  {
    assert t in Tickets(c.pending) ==> t !in c.settled;
    var rejected := RejectAll(c, reason).settled;
    assert t in rejected <==> t in c.settled || t in Tickets(c.pending);
  }

  // ---------------------------------------------------------------- the flush of the outbox

  /// What threw among the first `n` posts.
  ghost predicate Threw<Op, R>(c: Client<Op, R>, ids: seq<nat>, n: nat, throws: nat -> bool, t: nat)
    requires n <= |ids|
  {
    exists i | 0 <= i < n :: ids[i] in c.pending && c.pending[ids[i]].ticket == t && throws(ids[i])
  }

  /// The requests that are not among the first `n` still wait, and the others wait no longer or as they did.
  ghost predicate Waits<Op, R>(c: Client<Op, R>, d: Client<Op, R>, ids: seq<nat>, n: nat)
    requires n <= |ids|
  {
    && (forall id | id in d.pending :: id in c.pending && d.pending[id] == c.pending[id])
    && (forall id | id in c.pending && id !in ids[..n] :: id in d.pending)
  }

  lemma WaitsNext<Op, R>(c: Client<Op, R>, d: Client<Op, R>, ids: seq<nat>, n: nat, throws: bool)
    requires n < |ids| && Waits(c, d, ids, n)
    ensures Waits(c, Post(d, ids[n], throws), ids, n + 1)
  {
    assert ids[..n + 1] == ids[..n] + [ids[n]];
  }

  lemma {:induction false} WaitsAll<Op, R>(c: Client<Op, R>, ids: seq<nat>, n: nat, throws: nat -> bool)
    requires n <= |ids|
    ensures Waits(c, PostAll(c, ids, n, throws), ids, n)
  {
    if n > 0 {
      WaitsAll(c, ids, n - 1, throws);
      WaitsNext(c, PostAll(c, ids, n - 1, throws), ids, n - 1, throws(ids[n - 1]));
    }
  }

  /// One more post, of a request that still waits as it did.
  lemma PostSettles<Op, R>(c: Client<Op, R>, d: Client<Op, R>, id: nat, throws: bool, t: nat, before: bool)
    requires id in c.pending <==> id in d.pending
    requires id in c.pending ==> d.pending[id] == c.pending[id] && c.pending[id].ticket !in c.settled
    requires SettlesAs(c, d, t, if before then Some(Rejected(PostFailed)) else None)
    ensures SettlesAs(c, Post(d, id, throws), t,
      if before || (id in c.pending && c.pending[id].ticket == t && throws) then Some(Rejected(PostFailed)) else None)
  {
  }

  lemma FirstStillWaits(ids: seq<nat>, n: nat)
    requires Distinct(ids) && n < |ids|
    ensures ids[n] !in ids[..n]
  {
  }

  lemma {:induction false} FlushSettles<Op, R>(c: Client<Op, R>, ids: seq<nat>, n: nat, throws: nat -> bool, t: nat)
    requires Accounted(c) && n <= |ids| && Distinct(ids)
    ensures SettlesAs(c, PostAll(c, ids, n, throws), t,
      if Threw(c, ids, n, throws, t) then Some(Rejected(PostFailed)) else None)
  {
    if n == 0 {
      return;
    }
    var id, d := ids[n - 1], PostAll(c, ids, n - 1, throws);
    FlushSettles(c, ids, n - 1, throws, t);
    WaitsAll(c, ids, n - 1, throws);
    FirstStillWaits(ids, n - 1);
    if id in c.pending {
      PendingIsOpen(c, id);
    }
    PostSettles(c, d, id, throws(id), t, Threw(c, ids, n - 1, throws, t));
  }

  lemma PostThrowsAmong<Op, R>(c: Client<Op, R>, d: Client<Op, R>, throws: nat -> bool, t: nat)
    requires d.pending == c.pending
    ensures PostThrows(c, throws, t) <==> Threw(d, c.outbox, |c.outbox|, throws, t)
  {
    if PostThrows(c, throws, t) {
      var id :| id in c.outbox && id in c.pending && c.pending[id].ticket == t && throws(id);
      var i :| 0 <= i < |c.outbox| && c.outbox[i] == id;
    }
  }

  lemma ReadySettles<Op, R>(c: Client<Op, R>, maxPending: nat, throws: nat -> bool, t: nat)
    requires Invariant(c, maxPending)
    ensures SettlesAs(c, OnReady(c, throws), t, if PostThrows(c, throws, t) then Some(Rejected(PostFailed)) else None)
  {
    if c.phase != Starting && c.phase != Closing {
      assert c.outbox == [];
      return;
    }
    var ready := c.(phase := if c.phase == Starting then Ready else c.phase,
      ready := if c.ready == Unsettled then Resolved else c.ready, outbox := []);
    FlushSettles(ready, c.outbox, |c.outbox|, throws, t);
    PostThrowsAmong(c, ready, throws, t);
  }

  // ------------------------------------------------------------------------ every step

  lemma FailSettles<Op, R>(c: Client<Op, R>, maxPending: nat, t: nat)
    requires Invariant(c, maxPending)
    ensures SettlesAs(c, Fail(c), t, ByFailure(c, t))
  {
    if c.phase == Failed || c.phase == Closed {
      assert c.pending == map[];
      assert t !in Tickets(c.pending);
    } else {
      AllSettle(c.(failed := true, phase := Failed, ready := if c.ready == Unsettled then Refused else c.ready),
        WorkerFailed, t);
    }
  }

  lemma CallSettles<Op, R>(c: Client<Op, R>, maxPending: nat, op: Op, throws: bool, t: nat)
    requires Invariant(c, maxPending)
    ensures SettlesAs(c, RequestInternal(c, maxPending, Call(op), false, throws), t,
      if t == c.issued then AtOnce(c, maxPending, throws) else None)
  {
    assert c.issued !in c.settled;
  }

  lemma CloseSettles<Op, R>(c: Client<Op, R>, maxPending: nat, throws: bool, t: nat)
    requires Invariant(c, maxPending) && 0 < maxPending <= MAX_PENDING_LIMIT
    ensures SettlesAs(c, ContinueClose(c, maxPending, throws), t, ByClose(c, throws, t))
  {
    if Finishes(c) {
      AllSettle(c.(phase := Closed, closing := Finished), StoreClosed, t);
    } else if c.closing == Drained {
      assert c.issued !in c.settled;
      CloseRequestIsPosted(c, maxPending);
    }
  }

  lemma MessageSettles<Op, R>(c: Client<Op, R>, maxPending: nat, m: Message<R>, throws: nat -> bool, t: nat)
    requires Invariant(c, maxPending)
    ensures SettlesAs(c, Receive(c, m, throws), t, ByMessage(c, m, throws, t))
  {
    match m
    case Response(id, reply) =>
      if id in c.pending {
        OneSettles(c, id, Answered(reply), t);
      }
    case ReadyMessage => ReadySettles(c, maxPending, throws, t);
    case FatalMessage => FailSettles(c, maxPending, t);
  }

  lemma TimeoutSettlesOne<Op, R>(c: Client<Op, R>, maxPending: nat, id: nat, t: nat)
    requires Invariant(c, maxPending)
    ensures SettlesAs(c, OnTimeout(c, id), t,
      if id in c.pending && c.pending[id].ticket == t then Some(Rejected(Reason.TimedOut)) else None)
  {
    if id in c.pending {
      OneSettles(c.(outbox := RemoveFirst(c.outbox, id)), id, Rejected(Reason.TimedOut), t);
    }
  }

  /**
   Every step settles just the promises that its event concerns, each with what the event says, and changes
   no promise that is settled already.
   */
  lemma StepSettlesAs<Op, R, E>(engine: Engine<Op, R, E>, maxPending: nat, s: System<Op, R, E>,
                                e: Event<Op, R, E>, s': System<Op, R, E>, t: nat)
    requires Invariant(s.client, maxPending) && 0 < maxPending <= MAX_PENDING_LIMIT
    requires Step(engine, maxPending, s, e, s')
    ensures SettlesAs(s.client, s'.client, t, Outcome(maxPending, s, e, t))
  {
    match e
    case RequestCalled(op, throws) => CallSettles(s.client, maxPending, op, throws, t); return;
    case CloseResumed(throws) => CloseSettles(s.client, maxPending, throws, t); return;
    case TimedOut(id) => TimeoutSettlesOne(s.client, maxPending, id, t); return;
    case WorkerErrorOrReadyTimeout => FailSettles(s.client, maxPending, t); return;
    case WorkerExit => FailSettles(s.client, maxPending, t); return;
    case ClientReceives(throws) => MessageSettles(s.client, maxPending, s.toClient[0], throws, t); return;
    case CloseCalled => return;
    case _ =>
  }

  // ------------------------------------------------------------------------- a whole session

  /// A close is called while the call waits for its answer.
  lemma CloseAwaitsCall<Op, R, E>(engine: Engine<Op, R, E>, op: Op, before: E)
    returns (runs: seq<System<Op, R, E>>, events: seq<Event<Op, R, E>>)
    ensures Run(engine, MAX, runs, events)
    ensures runs[|events|] == Empty(Posted<Op, R>(op).(phase := Closing, closing := AwaitDrain), Running, before)
  {
    var posted: Client<Op, R> := Posted(op);
    runs, events := PostedAfterThree(engine, op, before);
    var closing := posted.(phase := Closing, closing := AwaitReady);
    var s1 := Empty(closing, Running, before);
    OneMoreStep(engine, runs, events, CloseCalled, s1);
    runs, events := runs + [s1], events + [CloseCalled];
    var draining := closing.(closing := AwaitDrain);
    assert 1 in closing.pending && ContinueClose(closing, MAX, false) == draining;
    var s2 := Empty(draining, Running, before);
    OneMoreStep(engine, runs, events, CloseResumed(false), s2);
    runs, events := runs + [s2], events + [CloseResumed(false)];
  }

  lemma CallAnswered<Op, R, E>(engine: Engine<Op, R, E>, op: Op, before: E, after: E, reply: Reply<R>)
    returns (runs: seq<System<Op, R, E>>, events: seq<Event<Op, R, E>>)
    requires engine(before, Call(op), after, reply)
    ensures Run(engine, MAX, runs, events) && runs[|events|] == Answering(op, before, after, reply)
  {
    var request: Request<Op> := Request(1, Call(op), 0);
    runs, events := CloseAwaitsCall(engine, op, before);
    var s2 := runs[|events|];
    var s3 := s2.(taken := 1, queue := [request]);
    assert s2.queue + [request] == [request];
    OneMoreStep(engine, runs, events, WorkerReceives, s3);
    runs, events := runs + [s3], events + [WorkerReceives];
    var s4 := Answering(op, before, after, reply);
    assert Execute(s3, after, reply) == s4 by {
      assert s3.queue[1..] == s4.queue && s3.executed + [Executed(request, reply)] == s4.executed;
      assert s3.states + [after] == s4.states && s3.toClient + [Response(1, reply)] == s4.toClient;
    }
    OneMoreStep(engine, runs, events, WorkerExecutes(after, reply), s4);
    runs, events := runs + [s4], events + [WorkerExecutes(after, reply)];
  }

  /// The client waits for the call while closing, and its answer is on the way.
  function Answering<Op, R, E>(op: Op, before: E, after: E, reply: Reply<R>): System<Op, R, E> {
    System(Posted<Op, R>(op).(phase := Closing, closing := AwaitDrain), 1, Running, false, [],
      [Executed(Request(1, Call(op), 0), reply)], [before, after], [Response(1, reply)])
  }

  /// The call is answered and the close request has been executed.
  function CloseAnswering<Op, R, E>(op: Op, before: E, after: E, last: E, reply: Reply<R>,
                                    closed: R): System<Op, R, E> {
    System(Initial<Op, R>().(phase := Closing, ready := Resolved, nextId := 3, issued := 2, closing := AwaitReply(1),
        pending := map[2 := Pending(CloseStore, 1)], settled := map[0 := Answered(reply)],
        sent := [Request(1, Call(op), 0), Request(2, CloseStore, 1)]),
      2, Running, true, [],
        [Executed(Request(1, Call(op), 0), reply), Executed(Request(2, CloseStore, 1), Success(closed))],
      [before, after, last], [Response(2, Success(closed))])
  }

  lemma AnswerDrains<Op, R>(op: Op, reply: Reply<R>)
    ensures var c := OnResponse(Posted<Op, R>(op).(phase := Closing, closing := AwaitDrain), 1, reply);
      c == Posted<Op, R>(op).(phase := Closing, closing := Drained, pending := map[],
             settled := map[0 := Answered(reply)])
  {
  }

  lemma DrainedAsks<Op, R>(op: Op, reply: Reply<R>)
    ensures var c := Posted<Op, R>(op).(phase := Closing, closing := Drained, pending := map[],
              settled := map[0 := Answered(reply)]);
      ContinueClose(c, MAX, false) ==
      c.(closing := AwaitReply(1), issued := 2, nextId := 3, pending := map[2 := Pending(CloseStore, 1)],
        sent := [Request(1, Call(op), 0), Request(2, CloseStore, 1)])
  {
    var c := Posted<Op, R>(op).(phase := Closing, closing := Drained, pending := map[],
               settled := map[0 := Answered(reply)]);
    assert Allocated(2, c.pending.Keys, MAX) == 2;
    assert c.sent + [Request(2, CloseStore, 1)] == [Request(1, Call(op), 0), Request(2, CloseStore, 1)];
  }

  lemma CloseExecuted<Op, R, E>(engine: Engine<Op, R, E>, op: Op, before: E, after: E, last: E, reply: Reply<R>,
                                closed: R)
    returns (runs: seq<System<Op, R, E>>, events: seq<Event<Op, R, E>>)
    requires engine(before, Call(op), after, reply) && engine(after, CloseStore, last, Success(closed))
    ensures Run(engine, MAX, runs, events) && runs[|events|] == CloseAnswering(op, before, after, last, reply, closed)
  {
    runs, events := CallAnswered(engine, op, before, after, reply);
    AnswerDrains<Op, R>(op, reply);
    DrainedAsks<Op, R>(op, reply);
    var s0 := Answering(op, before, after, reply);
    var s1 := s0.(client := OnResponse(s0.client, 1, reply), toClient := []);
    assert s0.toClient[1..] == [];
    OneMoreStep(engine, runs, events, ClientReceives(_ => false), s1);
    runs, events := runs + [s1], events + [ClientReceives(_ => false)];
    var s2 := s1.(client := ContinueClose(s1.client, MAX, false));
    OneMoreStep(engine, runs, events, CloseResumed(false), s2);
    runs, events := runs + [s2], events + [CloseResumed(false)];
    var close: Request<Op> := Request(2, CloseStore, 1);
    var s3 := s2.(taken := 2, queue := [close]);
    assert s2.queue + [close] == [close];
    OneMoreStep(engine, runs, events, WorkerReceives, s3);
    runs, events := runs + [s3], events + [WorkerReceives];
    var s4 := CloseAnswering(op, before, after, last, reply, closed);
    assert Execute(s3, last, Success(closed)) == s4 by {
      assert s3.queue[1..] == s4.queue && s3.executed + [Executed(close, Success(closed))] == s4.executed;
      assert s3.states + [last] == s4.states && s3.toClient + [Response(2, Success(closed))] == s4.toClient;
    }
    OneMoreStep(engine, runs, events, WorkerExecutes(last, Success(closed)), s4);
    runs, events := runs + [s4], events + [WorkerExecutes(last, Success(closed))];
  }

  /**
   A session: a call waits for the worker, is posted, executed and answered although a close has been called
   meanwhile; then the close request is posted, executed and answered, and the client is closed.
   */
  lemma SessionCloses<Op, R, E>(engine: Engine<Op, R, E>, op: Op, before: E, after: E, last: E, reply: Reply<R>,
                                closed: R)
    returns (runs: seq<System<Op, R, E>>, events: seq<Event<Op, R, E>>)
    requires engine(before, Call(op), after, reply) && engine(after, CloseStore, last, Success(closed))
    ensures Run(engine, MAX, runs, events)
    ensures var s := runs[|events|];
      && s.client.phase == Closed && s.portClosed && s.states == [before, after, last]
      && s.client.settled == map[0 := Answered(reply), 1 := Answered(Success(closed))]
  {
    runs, events := CloseExecuted(engine, op, before, after, last, reply, closed);
    var s0 := CloseAnswering(op, before, after, last, reply, closed);
    var s1 := s0.(client := OnResponse(s0.client, 2, Success(closed)), toClient := []);
    assert s0.toClient[1..] == [];
    OneMoreStep(engine, runs, events, ClientReceives(_ => false), s1);
    runs, events := runs + [s1], events + [ClientReceives(_ => false)];
    var s2 := s1.(client := ContinueClose(s1.client, MAX, false));
    assert s1.client.pending == map[] && Tickets(s1.client.pending) == {};
    OneMoreStep(engine, runs, events, CloseResumed(false), s2);
    runs, events := runs + [s2], events + [CloseResumed(false)];
  }
}
