/**
 What becomes of a call that timed out: it is never executed if it was not posted before, and if it was,
 it may be executed or not, whatever its promise says.
 */
module TimedOutCalls {
  import opened Basics
  import opened WorkerClient
  import opened WorkerProtocol

  // -------------------------------------------------------- nothing settled is posted later

  /// What a handler posts belongs to promises that are still open, and settled promises stay settled.
  ghost predicate PostsOpen<Op, R>(c: Client<Op, R>, c': Client<Op, R>) {
    && c.sent <= c'.sent && c.settled.Keys <= c'.settled.Keys
    && forall i | |c.sent| <= i < |c'.sent| :: c'.sent[i].ticket !in c.settled
  }

  lemma PostsOpenTwice<Op, R>(a: Client<Op, R>, b: Client<Op, R>, c: Client<Op, R>)
    requires PostsOpen(a, b) && PostsOpen(b, c)
    ensures PostsOpen(a, c)
  {
    forall i | |a.sent| <= i < |c.sent| ensures c.sent[i].ticket !in a.settled {
      assert i < |b.sent| ==> c.sent[i] == b.sent[i];
    }
  }

  lemma PostIsOpen<Op, R>(c: Client<Op, R>, id: nat, throws: bool)
    requires Accounted(c)
    ensures PostsOpen(c, Post(c, id, throws))
  {
    if id in c.pending {
      assert c.pending[id].ticket in Tickets(c.pending);
    }
  }

  lemma NextPostIsOpen<Op, R>(c: Client<Op, R>, before: Client<Op, R>, id: nat, throws: bool)
    requires PostsOpen(c, before) && Accounted(before)
    ensures PostsOpen(c, Post(before, id, throws))
  {
    PostIsOpen(before, id, throws);
    PostsOpenTwice(c, before, Post(before, id, throws));
  }

  lemma NextOfAllIsOpen<Op, R>(c: Client<Op, R>, maxPending: nat, ids: seq<nat>, n: nat, throws: nat -> bool)
    requires Flushing(c, maxPending) && n < |ids| && PostsOpen(c, PostAll(c, ids, n, throws))
    ensures PostsOpen(c, PostAll(c, ids, n + 1, throws))
  {
    PostAllKeepsFlushing(c, maxPending, ids, n, throws);
    NextPostIsOpen(c, PostAll(c, ids, n, throws), ids[n], throws(ids[n]));
  }

  lemma {:induction false} PostAllIsOpen<Op, R>(c: Client<Op, R>, maxPending: nat, ids: seq<nat>, n: nat,
                                                throws: nat -> bool)
    requires Flushing(c, maxPending) && n <= |ids|
    ensures PostsOpen(c, PostAll(c, ids, n, throws))
  {
    if n > 0 {
      PostAllIsOpen(c, maxPending, ids, n - 1, throws);
      NextOfAllIsOpen(c, maxPending, ids, n - 1, throws);
    }
  }

  lemma ReadyIsOpen<Op, R>(c: Client<Op, R>, maxPending: nat, throws: nat -> bool)
    requires Invariant(c, maxPending)
    ensures PostsOpen(c, OnReady(c, throws))
  {
    if (c.phase == Starting || c.phase == Closing) && c.outbox != [] {
      var ready := c.(phase := if c.phase == Starting then Ready else c.phase,
        ready := if c.ready == Unsettled then Resolved else c.ready, outbox := []);
      assert Flushing(ready, maxPending);
      PostAllIsOpen(ready, maxPending, c.outbox, |c.outbox|, throws);
    }
  }

  lemma NewPostIsOpen<Op, R>(c: Client<Op, R>, maxPending: nat, command: Command<Op>, throws: bool)
    requires Accounted(c)
    ensures PostsOpen(c,
      Post(Enqueued(c, maxPending, command), Allocated(c.nextId, c.pending.Keys, maxPending), throws))
  {
    assert c.issued !in c.settled;
  }

  lemma RequestIsOpen<Op, R>(c: Client<Op, R>, maxPending: nat, command: Command<Op>, allowClosing: bool, throws: bool)
    requires Accounted(c)
    ensures PostsOpen(c, RequestInternal(c, maxPending, command, allowClosing, throws))
  {
    NewPostIsOpen(c, maxPending, command, throws);
  }

  lemma CloseIsOpen<Op, R>(c: Client<Op, R>, maxPending: nat, throws: bool)
    requires Accounted(c)
    ensures PostsOpen(c, ContinueClose(c, maxPending, throws))
  {
    if c.closing == Drained && !c.failed {
      RequestIsOpen(c.(closing := AwaitReply(c.issued)), maxPending, CloseStore, true, throws);
    }
  }

  lemma ReceiveIsOpen<Op, R>(c: Client<Op, R>, maxPending: nat, m: Message<R>, throws: nat -> bool)
    requires Invariant(c, maxPending)
    ensures PostsOpen(c, Receive(c, m, throws))
  {
    if m == ReadyMessage {
      ReadyIsOpen(c, maxPending, throws);
    }
  }

  lemma StepIsOpen<Op, R, E>(engine: Engine<Op, R, E>, maxPending: nat, s: System<Op, R, E>,
                             e: Event<Op, R, E>, s': System<Op, R, E>)
    requires Invariant(s.client, maxPending) && Step(engine, maxPending, s, e, s')
    ensures PostsOpen(s.client, s'.client)
  {
    match e
    case RequestCalled(op, throws) => RequestIsOpen(s.client, maxPending, Call(op), false, throws); return;
    case CloseResumed(throws) => CloseIsOpen(s.client, maxPending, throws); return;
    case ClientReceives(throws) => ReceiveIsOpen(s.client, maxPending, s.toClient[0], throws); return;
    case CloseCalled => return;
    case TimedOut(id) => return;
    case WorkerErrorOrReadyTimeout => return;
    case WorkerExit => return;
    case _ =>
  }

  /// The promise is settled, and its request has not been posted.
  ghost predicate SettledUnposted<Op, R>(c: Client<Op, R>, ticket: nat) {
    ticket in c.settled && forall i | 0 <= i < |c.sent| :: c.sent[i].ticket != ticket
  }

  lemma OpenKeepsUnposted<Op, R>(c: Client<Op, R>, c': Client<Op, R>, ticket: nat)
    requires PostsOpen(c, c') && SettledUnposted(c, ticket)
    ensures SettledUnposted(c', ticket)
  {
    forall i | 0 <= i < |c'.sent| ensures c'.sent[i].ticket != ticket {
      assert i < |c.sent| ==> c'.sent[i] == c.sent[i];
    }
  }

  /// The system never executes the request.
  ghost predicate NotExecuted<Op, R, E>(s: System<Op, R, E>, ticket: nat) {
    forall k | 0 <= k < |s.executed| :: s.executed[k].request.ticket != ticket
  }

  lemma NextIsUnposted<Op, R, E>(engine: Engine<Op, R, E>, maxPending: nat, s: System<Op, R, E>,
                                 e: Event<Op, R, E>, s': System<Op, R, E>, ticket: nat)
    requires Invariant(s.client, maxPending) && Step(engine, maxPending, s, e, s') && SettledUnposted(s.client, ticket)
    ensures SettledUnposted(s'.client, ticket)
  {
    StepIsOpen(engine, maxPending, s, e, s');
    OpenKeepsUnposted(s.client, s'.client, ticket);
  }

  lemma NextOfRunIsUnposted<Op, R, E>(engine: Engine<Op, R, E>, maxPending: nat, runs: seq<System<Op, R, E>>,
                                      events: seq<Event<Op, R, E>>, i: nat, ticket: nat)
    requires Run(engine, maxPending, runs, events) && i < |events| && SettledUnposted(runs[i].client, ticket)
    ensures SettledUnposted(runs[i + 1].client, ticket)
  {
    GoodThroughout(engine, maxPending, runs, events, i);
    NextIsUnposted(engine, maxPending, runs[i], events[i], runs[i + 1], ticket);
  }

  lemma {:induction false} UnpostedThroughout<Op, R, E>(engine: Engine<Op, R, E>, maxPending: nat,
                                                        runs: seq<System<Op, R, E>>,
                                                        events: seq<Event<Op, R, E>>, i: nat, n: nat, ticket: nat)
    requires Run(engine, maxPending, runs, events) && i <= n < |runs| && SettledUnposted(runs[i].client, ticket)
    ensures SettledUnposted(runs[n].client, ticket)
  {
    if i < n {
      UnpostedThroughout(engine, maxPending, runs, events, i, n - 1, ticket);
      NextOfRunIsUnposted(engine, maxPending, runs, events, n - 1, ticket);
    }
  }

  lemma UnpostedIsNotExecuted<Op, R, E>(s: System<Op, R, E>, ticket: nat)
    requires SettledUnposted(s.client, ticket) && Requests(s.executed) <= s.client.sent
    ensures NotExecuted(s, ticket)
  {
    forall k | 0 <= k < |s.executed| ensures s.executed[k].request.ticket != ticket {
      assert Requests(s.executed)[k] == s.client.sent[k];
    }
  }

  /** A call that is settled before it is posted, by its timeout for one, is never executed, whatever happens later. */
  lemma SettledUnpostedNeverExecuted<Op, R, E>(engine: Engine<Op, R, E>, maxPending: nat, runs: seq<System<Op, R, E>>,
                                               events: seq<Event<Op, R, E>>, i: nat, n: nat, ticket: nat)
    requires Run(engine, maxPending, runs, events) && i <= n < |runs| && SettledUnposted(runs[i].client, ticket)
    ensures NotExecuted(runs[n], ticket)
  {
    UnpostedThroughout(engine, maxPending, runs, events, i, n, ticket);
    RefinesSequentialStore(engine, maxPending, runs, events, n);
    UnpostedIsNotExecuted(runs[n], ticket);
  }

  // ------------------------------------------------------------------------ the three fates

  const MAX: nat := 64

  /// The promise of the one call is rejected by its timeout.
  ghost predicate TimedOutOnly<Op, R, E>(s: System<Op, R, E>) {
    s.client.settled == map[0 := Rejected(Reason.TimedOut)] && s.client.issued == 1
  }

  function Waiting<Op, R>(op: Op): Client<Op, R> {
    Initial<Op, R>().(issued := 1, nextId := 2, pending := map[1 := Pending(Call(op), 0)], outbox := [1])
  }

  function Posted<Op, R>(op: Op): Client<Op, R> {
    Waiting<Op, R>(op).(phase := Ready, ready := Resolved, outbox := [], sent := [Request(1, Call(op), 0)])
  }

  lemma CallWaits<Op, R>(op: Op)
    ensures RequestInternal(Initial<Op, R>(), MAX, Call(op), false, false) == Waiting(op)
  {
    assert Allocated(1, Initial<Op, R>().pending.Keys, MAX) == 1;
    assert Initial<Op, R>().outbox + [1] == [1];
  }

  lemma ReadyPosts<Op, R>(op: Op, throws: nat -> bool)
    requires !throws(1)
    ensures OnReady(Waiting<Op, R>(op), throws) == Posted(op)
  {
    var ready := Waiting<Op, R>(op).(phase := Ready, ready := Resolved, outbox := []);
    assert PostAll(ready, [1], 0, throws) == ready;
    assert PostAll(ready, [1], 1, throws) == Post(ready, 1, false);
    assert ready.sent + [Request(1, Call(op), 0)] == [Request(1, Call(op), 0)];
  }

  lemma TimeoutSettles<Op, R>(c: Client<Op, R>, op: Op)
    requires c == Waiting(op) || c == Posted(op)
    ensures OnTimeout(c, 1).settled == map[0 := Rejected(Reason.TimedOut)] && OnTimeout(c, 1).sent == c.sent
    ensures OnTimeout(c, 1).issued == 1
  {
  }

  function Empty<Op, R, E>(c: Client<Op, R>, worker: WorkerState, state: E): System<Op, R, E> {
    System(c, 0, worker, false, [], [], [state], [])
  }

  /** A call that times out in the outbox: never posted, so never executed. */
  lemma TimedOutInOutbox<Op, R, E>(engine: Engine<Op, R, E>, op: Op, state: E)
    returns (runs: seq<System<Op, R, E>>, events: seq<Event<Op, R, E>>)
    ensures Run(engine, MAX, runs, events) && TimedOutOnly(runs[|events|]) && SettledUnposted(runs[|events|].client, 0)
  {
    var waiting: Client<Op, R> := Waiting(op);
    CallWaits<Op, R>(op);
    TimeoutSettles(waiting, op);
    events := [RequestCalled(op, false), Event.TimedOut(1)];
    runs := [InitialSystem(state), Empty(waiting, NotStarted, state), Empty(OnTimeout(waiting, 1), NotStarted, state)];
    assert Step(engine, MAX, runs[0], events[0], runs[1]) && Step(engine, MAX, runs[1], events[1], runs[2]);
  }

  lemma OneMoreStep<Op, R, E>(engine: Engine<Op, R, E>, runs: seq<System<Op, R, E>>, events: seq<Event<Op, R, E>>,
                              e: Event<Op, R, E>, s: System<Op, R, E>)
    requires Run(engine, MAX, runs, events) && Step(engine, MAX, runs[|events|], e, s)
    requires s.client.issued < MAX_REQUEST_ID
    ensures Run(engine, MAX, runs + [s], events + [e])
  {
    var more, longer := events + [e], runs + [s];
    forall i | 0 <= i < |more| ensures Step(engine, MAX, longer[i], more[i], longer[i + 1]) {
      if i < |events| {
        assert longer[i] == runs[i] && longer[i + 1] == runs[i + 1] && more[i] == events[i];
      }
    }
  }

  lemma PostedAfterThree<Op, R, E>(engine: Engine<Op, R, E>, op: Op, state: E)
    returns (runs: seq<System<Op, R, E>>, events: seq<Event<Op, R, E>>)
    ensures Run(engine, MAX, runs, events) && runs[|events|] == Empty(Posted(op), Running, state)
  {
    var waiting: Client<Op, R> := Waiting(op);
    CallWaits<Op, R>(op);
    ReadyPosts<Op, R>(op, _ => false);
    events := [RequestCalled(op, false), EngineStarts(true), ClientReceives(_ => false)];
    runs := [InitialSystem(state), Empty(waiting, NotStarted, state),
      Empty(waiting, Running, state).(toClient := [ReadyMessage]), Empty(Posted(op), Running, state)];
    assert Step(engine, MAX, runs[0], events[0], runs[1]);
    assert Step(engine, MAX, runs[1], events[1], runs[2]) by {
      assert runs[1].toClient + [ReadyMessage] == [ReadyMessage];
    }
    assert Step(engine, MAX, runs[2], events[2], runs[3]);
  }

  /// The call is posted, taken by the worker, and times out in its queue.
  lemma TimedOutInQueue<Op, R, E>(engine: Engine<Op, R, E>, op: Op, state: E)
    returns (runs: seq<System<Op, R, E>>, events: seq<Event<Op, R, E>>)
    ensures Run(engine, MAX, runs, events) && TimedOutOnly(runs[|events|])
    ensures var s := runs[|events|];
      && s == System(s.client, 1, Running, false, [Request(1, Call(op), 0)], [], [state], [])
      && s.client.sent == [Request(1, Call(op), 0)]
  {
    var posted: Client<Op, R>, request := Posted(op), Request(1, Call(op), 0);
    var before, earlier := PostedAfterThree(engine, op, state);
    var queued := System(posted, 1, Running, false, [request], [], [state], []);
    assert Step(engine, MAX, Empty(posted, Running, state), WorkerReceives, queued) by {
      assert Empty<Op, R, E>(posted, Running, state).queue + [request] == [request];
    }
    OneMoreStep(engine, before, earlier, WorkerReceives, queued);
    TimeoutSettles(posted, op);
    var timedOut := queued.(client := OnTimeout(posted, 1));
    assert Step(engine, MAX, queued, Event.TimedOut(1), timedOut);
    OneMoreStep(engine, before + [queued], earlier + [WorkerReceives], Event.TimedOut(1), timedOut);
    runs, events := before + [queued] + [timedOut], earlier + [WorkerReceives] + [Event.TimedOut(1)];
  }

  /** A call that has timed out and is executed all the same. */
  lemma TimedOutYetExecuted<Op, R, E>(engine: Engine<Op, R, E>, op: Op, before: E, after: E, reply: Reply<R>)
    returns (runs: seq<System<Op, R, E>>, events: seq<Event<Op, R, E>>)
    requires engine(before, Call(op), after, reply)
    ensures Run(engine, MAX, runs, events) && TimedOutOnly(runs[|events|])
    ensures runs[|events|].executed == [Executed(Request(1, Call(op), 0), reply)]
  {
    runs, events := TimedOutInQueue(engine, op, before);
    var s := Execute(runs[|events|], after, reply);
    assert s.executed == [Executed(Request(1, Call(op), 0), reply)];
    OneMoreStep(engine, runs, events, WorkerExecutes(after, reply), s);
    runs, events := runs + [s], events + [WorkerExecutes(after, reply)];
  }

  /** And one that was posted and taken too, but whose worker dies before it is executed. */
  lemma TimedOutAndLost<Op, R, E>(engine: Engine<Op, R, E>, op: Op, state: E)
    returns (runs: seq<System<Op, R, E>>, events: seq<Event<Op, R, E>>)
    ensures Run(engine, MAX, runs, events) && TimedOutOnly(runs[|events|])
    ensures runs[|events|].client.sent == [Request(1, Call(op), 0)]
    ensures runs[|events|].worker == Dead && runs[|events|].executed == []
  {
    runs, events := TimedOutInQueue(engine, op, state);
    var s := runs[|events|].(worker := Dead);
    OneMoreStep(engine, runs, events, WorkerDies(0), s);
    runs, events := runs + [s], events + [WorkerDies(0)];
  }
}
