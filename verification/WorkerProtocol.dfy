/**
 The client, two FIFO channels and the worker (storage/client.ts and storage/worker-entry.ts)
 as one step relation, and the proof that they refine a sequential store.
 */
module WorkerProtocol {
  import opened Basics
  import opened WorkerClient

  /// A request that the engine has executed, with the reply it gave.
  datatype Executed<+Op, +R> = Executed(request: Request<Op>, reply: Reply<R>)

  datatype Message<+R> = ReadyMessage | FatalMessage | Response(id: nat, reply: Reply<R>)

  /// What the engine may do: its state before, the command, its state after and the reply.
  type Engine<!Op, !R, !E> = (E, Command<Op>, E, Reply<R>) -> bool

  datatype WorkerState = NotStarted | Running | Dead

  /// The worker has taken the first `taken` messages off its channel; those accepted wait in its
  /// queue until executed. `states` are the engine's states, one more than operations executed.
  datatype System<Op, R, E> = System(
    client: Client<Op, R>,
    taken: nat,
    worker: WorkerState,
    portClosed: bool,
    queue: seq<Request<Op>>,
    executed: seq<Executed<Op, R>>,
    states: seq<E>,
    toClient: seq<Message<R>>)

  datatype Event<!Op, !R, !E> =
    | RequestCalled(op: Op, throws: bool)
    | CloseCalled
    | CloseResumed(throws: bool)
    | TimedOut(id: nat)
    | WorkerErrorOrReadyTimeout
    | WorkerExit
    | ClientReceives(postThrows: nat -> bool)
    | EngineStarts(opens: bool)
    | WorkerReceives
    | WorkerExecutes(state: E, reply: Reply<R>)
    | WorkerDies(delivered: nat)

  /// The worker's message handler: messages after the answered close are ignored.
  function Take<Op, R, E>(s: System<Op, R, E>): System<Op, R, E>
    requires s.taken < |s.client.sent|
  {
    var request := s.client.sent[s.taken];
    s.(taken := s.taken + 1, queue := if s.portClosed then s.queue else s.queue + [request])
  }

  /// One link of the worker's promise chain: dispatch, answer, and close the port after a close.
  function Execute<Op, R, E>(s: System<Op, R, E>, state: E, reply: Reply<R>): System<Op, R, E>
    requires s.queue != []
  {
    var request := s.queue[0];
    s.(
      queue := s.queue[1..],
      executed := s.executed + [Executed(request, reply)],
      states := s.states + [state],
      toClient := if s.portClosed then s.toClient else s.toClient + [Response(request.id, reply)],
      portClosed := s.portClosed || (request.command == CloseStore && reply.Success?))
  }

  function Receive<Op, R>(c: Client<Op, R>, m: Message<R>, throws: nat -> bool): Client<Op, R> {
    match m
    case ReadyMessage => OnReady(c, throws)
    case FatalMessage => Fail(c)
    case Response(id, reply) => OnResponse(c, id, reply)
  }

  ghost predicate Step<Op, R, E>(engine: Engine<Op, R, E>, maxPending: nat, s: System<Op, R, E>, e: Event<Op, R, E>,
                                 s': System<Op, R, E>) {
    match e
    case RequestCalled(op, throws) => s' == s.(client := RequestInternal(s.client, maxPending, Call(op), false, throws))
    case CloseCalled => s' == s.(client := StartClose(s.client))
    case CloseResumed(throws) => s' == s.(client := ContinueClose(s.client, maxPending, throws))
    case TimedOut(id) => s' == s.(client := OnTimeout(s.client, id))
    case WorkerErrorOrReadyTimeout => s' == s.(client := Fail(s.client))
    case WorkerExit => s' == s.(client := OnExit(s.client))
    case ClientReceives(throws) =>
      s.toClient != [] && s' == s.(client := Receive(s.client, s.toClient[0], throws), toClient := s.toClient[1..])
    case EngineStarts(opens) =>
      s.worker == NotStarted &&
      s' == s.(worker := if opens then Running else Dead,
        toClient := s.toClient + [if opens then ReadyMessage else FatalMessage])
    case WorkerReceives => s.worker == Running && s.taken < |s.client.sent| && s' == Take(s)
    case WorkerExecutes(state, reply) =>
      && s.worker == Running && s.queue != [] && s.states != []
      && engine(s.states[|s.states| - 1], s.queue[0].command, state, reply)
      && s' == Execute(s, state, reply)
    case WorkerDies(delivered) =>
      delivered <= |s.toClient| && s' == s.(worker := Dead, toClient := s.toClient[..delivered])
  }

  function InitialSystem<Op, R, E>(state: E): System<Op, R, E> {
    System(Initial(), 0, NotStarted, false, [], [], [state], [])
  }

  /// A run of fewer than 2^31 - 1 calls, so that no id is used twice.
  ghost predicate Run<Op, R, E>(engine: Engine<Op, R, E>, maxPending: nat, runs: seq<System<Op, R, E>>,
                                events: seq<Event<Op, R, E>>) {
    && 0 < maxPending <= MAX_PENDING_LIMIT
    && |runs| == |events| + 1 && |runs[0].states| == 1 && runs[0] == InitialSystem(runs[0].states[0])
    && (forall i | 0 <= i < |events| :: Step(engine, maxPending, runs[i], events[i], runs[i + 1]))
    && (forall i | 0 <= i < |runs| :: runs[i].client.issued < MAX_REQUEST_ID)
  }

  // ------------------------------------------------------------ ids and tickets stay in order

  /// Requests in the order in which they were issued.
  ghost predicate Increasing<Op>(requests: seq<Request<Op>>) {
    forall i, j | 0 <= i < j < |requests| :: requests[i].id < requests[j].id && requests[i].ticket < requests[j].ticket
  }

  /// Pending ids have been given out, in the order of their tickets.
  ghost predicate PendingOrdered<Op, R>(c: Client<Op, R>) {
    && (forall id | id in c.pending :: id < c.nextId && c.pending[id].ticket < c.issued)
    && (forall i, j | i in c.pending && j in c.pending && i < j :: c.pending[i].ticket < c.pending[j].ticket)
  }

  /// What has been posted is in order, and agrees with what is still pending.
  ghost predicate SentOrdered<Op, R>(c: Client<Op, R>) {
    && (forall q | q in c.sent :: q.id < c.nextId && q.ticket < c.issued)
    && Increasing(c.sent)
    && (forall q | q in c.sent && q.id in c.pending :: c.pending[q.id] == Pending(q.command, q.ticket))
  }

  ghost predicate Ascending(ids: seq<nat>) {
    forall i, j | 0 <= i < j < |ids| :: ids[i] < ids[j]
  }

  /// As long as ids have not wrapped: they grow with the tickets, whether posted or waiting.
  ghost predicate Ordered<Op, R>(c: Client<Op, R>) {
    1 <= c.nextId <= c.issued + 1 && PendingOrdered(c) && SentOrdered(c) && Ascending(c.outbox)
  }

  lemma SettleKeepsOrdered<Op, R>(c: Client<Op, R>, id: nat, s: Settlement<R>)
    requires Ordered(c) && id in c.pending
    ensures Ordered(Settle(c, id, s))
  {
  }

  lemma RejectAllKeepsOrdered<Op, R>(c: Client<Op, R>, reason: Reason)
    requires Ordered(c)
    ensures Ordered(RejectAll(c, reason))
  {
  }

  /// The request to be posted comes after all that have been.
  ghost predicate After<Op, R>(c: Client<Op, R>, id: nat) {
    id in c.pending && forall q | q in c.sent :: q.id < id && q.ticket < c.pending[id].ticket
  }

  lemma PostKeepsOrdered<Op, R>(c: Client<Op, R>, id: nat, throws: bool)
    requires Ordered(c) && (id in c.pending ==> After(c, id))
    ensures Ordered(Post(c, id, throws))
  {
  }

  lemma EnqueuedIsNext<Op, R>(c: Client<Op, R>, maxPending: nat, command: Command<Op>)
    requires PendingOrdered(c) && 1 <= c.nextId <= c.issued + 1 && c.issued + 1 < MAX_REQUEST_ID
    ensures Allocated(c.nextId, c.pending.Keys, maxPending) == c.nextId
    ensures Enqueued(c, maxPending, command) ==
      c.(issued := c.issued + 1, nextId := c.nextId + 1, pending := c.pending[c.nextId := Pending(command, c.issued)])
  {
    assert c.nextId !in c.pending;
  }

  lemma EnqueuedKeepsOrdered<Op, R>(c: Client<Op, R>, maxPending: nat, command: Command<Op>)
    requires Ordered(c) && c.issued + 1 < MAX_REQUEST_ID
    ensures Ordered(Enqueued(c, maxPending, command)) && After(Enqueued(c, maxPending, command), c.nextId)
  {
    EnqueuedIsNext(c, maxPending, command);
  }

  /// While the outbox is flushed: what has been posted is pending and comes before the rest.
  ghost predicate FlushedTo<Op, R>(c: Client<Op, R>, ids: seq<nat>, n: nat) {
    && Ordered(c)
    && (forall q | q in c.sent :: q.id in c.pending)
    && (forall q, i | q in c.sent && n <= i < |ids| :: q.id < ids[i])
  }

  lemma PostNext<Op, R>(c: Client<Op, R>, ids: seq<nat>, n: nat, throws: bool)
    requires Ascending(ids) && n < |ids| && FlushedTo(c, ids, n)
    ensures FlushedTo(Post(c, ids[n], throws), ids, n + 1)
  {
    if ids[n] in c.pending {
      forall q | q in c.sent ensures q.id < ids[n] && q.ticket < c.pending[ids[n]].ticket {
        assert c.pending[q.id] == Pending(q.command, q.ticket);
      }
    }
    PostKeepsOrdered(c, ids[n], throws);
  }

  lemma NothingFlushed<Op, R>(c: Client<Op, R>, ids: seq<nat>, throws: nat -> bool)
    requires Ordered(c) && c.sent == []
    ensures FlushedTo(PostAll(c, ids, 0, throws), ids, 0)
  {
  }

  lemma NextOfAllIsOrdered<Op, R>(c: Client<Op, R>, ids: seq<nat>, n: nat, throws: nat -> bool)
    requires Ascending(ids) && n < |ids| && FlushedTo(PostAll(c, ids, n, throws), ids, n)
    ensures FlushedTo(PostAll(c, ids, n + 1, throws), ids, n + 1)
  {
    PostNext(PostAll(c, ids, n, throws), ids, n, throws(ids[n]));
  }

  lemma {:induction false} PostAllKeepsOrdered<Op, R>(c: Client<Op, R>, ids: seq<nat>, n: nat, throws: nat -> bool)
    requires Ordered(c) && c.sent == [] && Ascending(ids) && n <= |ids|
    ensures FlushedTo(PostAll(c, ids, n, throws), ids, n)
  {
    if n == 0 {
      NothingFlushed(c, ids, throws);
    } else {
      PostAllKeepsOrdered(c, ids, n - 1, throws);
      NextOfAllIsOrdered(c, ids, n - 1, throws);
    }
  }

  lemma {:induction false} RemovedAscending(s: seq<nat>, x: nat)
    requires Ascending(s)
    ensures Ascending(RemoveFirst(s, x)) && forall y | y in RemoveFirst(s, x) :: y in s
  {
    if s == [] || s[0] == x {
      return;
    }
    RemovedAscending(s[1..], x);
    FirstAscending(s[0], RemoveFirst(s[1..], x));
  }

  lemma FirstAscending(x: nat, s: seq<nat>)
    requires Ascending(s) && forall y | y in s :: x < y
    ensures Ascending([x] + s)
  {
    assert forall i | 0 <= i < |s| :: s[i] in s;
  }

  // ---------------------------------------------------------- one lemma per client handler

  /// What the system needs from a handler: order is kept and what has been sent stays sent.
  ghost predicate Kept<Op, R>(c: Client<Op, R>, c': Client<Op, R>) {
    Ordered(c') && c.sent <= c'.sent
  }

  lemma OnReadyKeepsOrdered<Op, R>(c: Client<Op, R>, maxPending: nat, throws: nat -> bool)
    requires Ordered(c) && OutboxOk(c)
    ensures Kept(c, OnReady(c, throws))
  {
    if c.phase == Starting || c.phase == Closing {
      var ready := c.(phase := if c.phase == Starting then Ready else c.phase,
        ready := if c.ready == Unsettled then Resolved else c.ready, outbox := []);
      if c.outbox != [] {
        PostAllKeepsOrdered(ready, c.outbox, |c.outbox|, throws);
      }
    }
  }

  lemma WaitingLast(ids: seq<nat>, id: nat)
    requires Ascending(ids) && forall i | i in ids :: i < id
    ensures Ascending(ids + [id])
  {
    assert forall i | 0 <= i < |ids| :: ids[i] in ids;
  }

  lemma TurnedAwayKeepsOrdered<Op, R>(c: Client<Op, R>, reason: Reason)
    requires Ordered(c)
    ensures Kept(c, TurnedAway(c, reason))
  {
  }

  lemma PostedKeepsOrdered<Op, R>(c: Client<Op, R>, maxPending: nat, op: Op, throws: bool)
    requires Ordered(c) && c.issued + 1 < MAX_REQUEST_ID && |c.pending| < maxPending && c.phase == Ready
    ensures Kept(c, RequestInternal(c, maxPending, Call(op), false, throws))
  {
    EnqueuedIsNext(c, maxPending, Call(op));
    EnqueuedKeepsOrdered(c, maxPending, Call(op));
    PostKeepsOrdered(Enqueued(c, maxPending, Call(op)), c.nextId, throws);
  }

  lemma WaitingKeepsOrdered<Op, R>(c: Client<Op, R>, maxPending: nat, op: Op, throws: bool)
    requires Ordered(c) && OutboxOk(c) && c.issued + 1 < MAX_REQUEST_ID && |c.pending| < maxPending
    requires c.phase == Starting
    ensures Kept(c, RequestInternal(c, maxPending, Call(op), false, throws))
  {
    EnqueuedIsNext(c, maxPending, Call(op));
    EnqueuedKeepsOrdered(c, maxPending, Call(op));
    forall id | id in c.outbox ensures id < c.nextId {
      assert id in c.pending;
    }
    WaitingLast(c.outbox, c.nextId);
  }

  lemma RequestKeepsOrdered<Op, R>(c: Client<Op, R>, maxPending: nat, op: Op, throws: bool)
    requires Ordered(c) && OutboxOk(c) && c.issued + 1 < MAX_REQUEST_ID
    ensures Kept(c, RequestInternal(c, maxPending, Call(op), false, throws))
  {
    if c.phase == Failed {
      TurnedAwayKeepsOrdered(c, WorkerFailed);
      return;
    }
    if c.phase == Closed || c.phase == Closing {
      TurnedAwayKeepsOrdered(c, StoreClosed);
      return;
    }
    if |c.pending| >= maxPending {
      TurnedAwayKeepsOrdered(c, TooManyPending);
      return;
    }
    if c.phase == Ready {
      PostedKeepsOrdered(c, maxPending, op, throws);
      return;
    }
    WaitingKeepsOrdered(c, maxPending, op, throws);
  }

  lemma CloseRequestKeepsOrdered<Op, R>(c: Client<Op, R>, maxPending: nat, throws: bool)
    requires Ordered(c) && PhasesOk(c) && 0 < maxPending && c.issued + 1 < MAX_REQUEST_ID && c.closing == Drained
    requires !c.failed
    ensures Kept(c, ContinueClose(c, maxPending, throws))
  {
    var asked := c.(closing := AwaitReply(c.issued));
    EnqueuedIsNext(asked, maxPending, CloseStore);
    EnqueuedKeepsOrdered(asked, maxPending, CloseStore);
    PostKeepsOrdered(Enqueued(asked, maxPending, CloseStore), c.nextId, throws);
  }

  lemma FinishKeepsOrdered<Op, R>(c: Client<Op, R>)
    requires Ordered(c)
    ensures Kept(c, FinishClose(c))
  {
    RejectAllKeepsOrdered(c.(phase := Closed, closing := Finished), StoreClosed);
  }

  lemma ContinueKeepsOrdered<Op, R>(c: Client<Op, R>, maxPending: nat, throws: bool)
    requires Ordered(c) && PhasesOk(c) && 0 < maxPending && ContinueClose(c, maxPending, throws).issued < MAX_REQUEST_ID
    ensures Kept(c, ContinueClose(c, maxPending, throws))
  {
    if c.closing == Drained && !c.failed {
      CloseRequestKeepsOrdered(c, maxPending, throws);
      return;
    }
    FinishKeepsOrdered(c);
  }

  lemma FailKeepsOrdered<Op, R>(c: Client<Op, R>)
    requires Ordered(c)
    ensures Kept(c, Fail(c))
  {
    RejectAllKeepsOrdered(
      c.(failed := true, phase := Failed, ready := if c.ready == Unsettled then Refused else c.ready), WorkerFailed);
  }

  lemma TimeoutKeepsOrdered<Op, R>(c: Client<Op, R>, id: nat)
    requires Ordered(c)
    ensures Kept(c, OnTimeout(c, id))
  {
    RemovedAscending(c.outbox, id);
    if id in c.pending {
      SettleKeepsOrdered(c.(outbox := RemoveFirst(c.outbox, id)), id, Rejected(WorkerClient.TimedOut));
    }
  }

  lemma ResponseKeepsOrdered<Op, R>(c: Client<Op, R>, id: nat, reply: Reply<R>)
    requires Ordered(c)
    ensures Kept(c, OnResponse(c, id, reply))
  {
    if id in c.pending {
      SettleKeepsOrdered(c, id, Answered(reply));
    }
  }

  // ----------------------------------------------------------------- the system's invariant

  function Requests<Op, R>(executed: seq<Executed<Op, R>>): (requests: seq<Request<Op>>)
    ensures |requests| == |executed| && forall i | 0 <= i < |executed| :: requests[i] == executed[i].request
  {
    seq(|executed|, i requires 0 <= i < |executed| => executed[i].request)
  }

  /// The channel and the queue are FIFO: what was executed and what waits is what was taken, in order.
  ghost predicate InOrder<Op, R, E>(s: System<Op, R, E>) {
    s.taken <= |s.client.sent| && Requests(s.executed) + s.queue == s.client.sent[..s.taken]
  }

  /// The executed operations are one run of the engine by itself.
  ghost predicate Sequential<Op, R, E>(engine: Engine<Op, R, E>, executed: seq<Executed<Op, R>>, states: seq<E>) {
    && |states| == |executed| + 1
    && forall k | 0 <= k < |executed| ::
      engine(states[k], executed[k].request.command, states[k + 1], executed[k].reply)
  }

  ghost predicate AnswersId<Op, R>(executed: seq<Executed<Op, R>>, id: nat, reply: Reply<R>) {
    exists k | 0 <= k < |executed| :: executed[k].request.id == id && executed[k].reply == reply
  }

  ghost predicate AnswersTicket<Op, R>(executed: seq<Executed<Op, R>>, ticket: nat, reply: Reply<R>) {
    exists k | 0 <= k < |executed| :: executed[k].request.ticket == ticket && executed[k].reply == reply
  }

  /// Responses under way, and promises already settled with one, carry what the engine replied.
  ghost predicate Truthful<Op, R, E>(s: System<Op, R, E>) {
    && (forall m | m in s.toClient && m.Response? :: AnswersId(s.executed, m.id, m.reply))
    && (forall t | t in s.client.settled && s.client.settled[t].Answered? ::
      AnswersTicket(s.executed, t, s.client.settled[t].reply))
  }

  /// The port is closed once the close request has been executed, which nothing follows.
  ghost predicate ClosedLast<Op, R, E>(s: System<Op, R, E>) {
    s.portClosed ==> s.executed != [] && s.executed[|s.executed| - 1].request.command == CloseStore
  }

  ghost predicate Good<Op, R, E>(engine: Engine<Op, R, E>, maxPending: nat, s: System<Op, R, E>) {
    && Invariant(s.client, maxPending) && Ordered(s.client)
    && InOrder(s) && Sequential(engine, s.executed, s.states) && Truthful(s) && ClosedLast(s)
  }

  /// An executed close request is the last request of all.
  lemma NothingAfterClose<Op, R, E>(s: System<Op, R, E>, k: nat)
    requires InOrder(s) && CloseOk(s.client) && k < |s.executed| && s.executed[k].request.command == CloseStore
    ensures k == |s.executed| - 1 == |s.client.sent| - 1 && s.queue == [] && s.taken == |s.client.sent|
  {
    var sent := s.client.sent;
    assert (Requests(s.executed) + s.queue)[k] == sent[..s.taken][k] == sent[k];
    assert |s.executed| + |s.queue| == s.taken;
  }

  /// Handlers that settle nothing with an answer keep the answers truthful.
  ghost predicate NoNewAnswers<Op, R>(c: Client<Op, R>, c': Client<Op, R>) {
    forall t | t in c'.settled && c'.settled[t].Answered? :: t in c.settled && c.settled[t] == c'.settled[t]
  }

  lemma ClientStepIsGood<Op, R, E>(engine: Engine<Op, R, E>, maxPending: nat, s: System<Op, R, E>, c': Client<Op, R>)
    requires Good(engine, maxPending, s) && Invariant(c', maxPending) && Kept(s.client, c')
    requires NoNewAnswers(s.client, c')
    ensures Good(engine, maxPending, s.(client := c'))
  {
    var s' := s.(client := c');
    assert s.client.sent[..s.taken] == c'.sent[..s.taken];
    assert InOrder(s');
  }

  lemma PostAnswersNothing<Op, R>(c: Client<Op, R>, id: nat, throws: bool)
    ensures NoNewAnswers(c, Post(c, id, throws))
  {
  }

  lemma {:induction false} PostAllAnswersNothing<Op, R>(c: Client<Op, R>, ids: seq<nat>, n: nat, throws: nat -> bool)
    requires n <= |ids|
    ensures NoNewAnswers(c, PostAll(c, ids, n, throws))
  {
    if n == 0 {
      return;
    }
    PostAllAnswersNothing(c, ids, n - 1, throws);
    PostAnswersNothing(PostAll(c, ids, n - 1, throws), ids[n - 1], throws(ids[n - 1]));
  }

  lemma RequestAnswersNothing<Op, R>(c: Client<Op, R>, maxPending: nat, command: Command<Op>, allowClosing: bool,
                                     throws: bool)
    ensures NoNewAnswers(c, RequestInternal(c, maxPending, command, allowClosing, throws))
  {
    PostAnswersNothing(Enqueued(c, maxPending, command), Allocated(c.nextId, c.pending.Keys, maxPending), throws);
  }

  lemma FailAnswersNothing<Op, R>(c: Client<Op, R>)
    ensures NoNewAnswers(c, Fail(c))
  {
  }

  lemma TimeoutAnswersNothing<Op, R>(c: Client<Op, R>, id: nat)
    ensures NoNewAnswers(c, OnTimeout(c, id))
  {
  }

  lemma FinishAnswersNothing<Op, R>(c: Client<Op, R>)
    ensures NoNewAnswers(c, FinishClose(c))
  {
  }

  lemma ContinueAnswersNothing<Op, R>(c: Client<Op, R>, maxPending: nat, throws: bool)
    ensures NoNewAnswers(c, ContinueClose(c, maxPending, throws))
  {
    if c.closing == Drained && !c.failed {
      RequestAnswersNothing(c.(closing := AwaitReply(c.issued)), maxPending, CloseStore, true, throws);
      return;
    }
    FinishAnswersNothing(c);
  }

  // ------------------------------------------------------------------- every step keeps it

  /// What a handler of the client does that is not a response.
  ghost predicate Handled<Op, R>(c: Client<Op, R>, maxPending: nat, c': Client<Op, R>) {
    Invariant(c', maxPending) && Kept(c, c') && NoNewAnswers(c, c')
  }

  ghost predicate Usable<Op, R>(c: Client<Op, R>, maxPending: nat) {
    0 < maxPending <= MAX_PENDING_LIMIT && Invariant(c, maxPending) && Ordered(c)
  }

  lemma RequestHandled<Op, R>(c: Client<Op, R>, maxPending: nat, op: Op, throws: bool)
    requires Usable(c, maxPending) && c.issued + 1 < MAX_REQUEST_ID
    ensures Handled(c, maxPending, RequestInternal(c, maxPending, Call(op), false, throws))
  {
    RequestKeepsInvariant(c, maxPending, op, throws);
    RequestKeepsOrdered(c, maxPending, op, throws);
    RequestAnswersNothing(c, maxPending, Call(op), false, throws);
  }

  lemma CloseHandled<Op, R>(c: Client<Op, R>, maxPending: nat)
    requires Usable(c, maxPending)
    ensures Handled(c, maxPending, StartClose(c))
  {
    StartCloseKeepsInvariant(c, maxPending);
  }

  lemma ResumeHandled<Op, R>(c: Client<Op, R>, maxPending: nat, throws: bool)
    requires Usable(c, maxPending) && ContinueClose(c, maxPending, throws).issued < MAX_REQUEST_ID
    ensures Handled(c, maxPending, ContinueClose(c, maxPending, throws))
  {
    ContinueCloseKeepsInvariant(c, maxPending, throws);
    ContinueKeepsOrdered(c, maxPending, throws);
    ContinueAnswersNothing(c, maxPending, throws);
  }

  lemma TimeoutHandled<Op, R>(c: Client<Op, R>, maxPending: nat, id: nat)
    requires Usable(c, maxPending)
    ensures Handled(c, maxPending, OnTimeout(c, id))
  {
    OnTimeoutKeepsInvariant(c, maxPending, id);
    TimeoutKeepsOrdered(c, id);
    TimeoutAnswersNothing(c, id);
  }

  lemma FailHandled<Op, R>(c: Client<Op, R>, maxPending: nat)
    requires Usable(c, maxPending)
    ensures Handled(c, maxPending, Fail(c)) && Handled(c, maxPending, OnExit(c))
  {
    FailKeepsInvariant(c, maxPending);
    FailKeepsOrdered(c);
    FailAnswersNothing(c);
  }

  lemma ReadyHandled<Op, R>(c: Client<Op, R>, maxPending: nat, throws: nat -> bool)
    requires Usable(c, maxPending)
    ensures Handled(c, maxPending, OnReady(c, throws))
  {
    OnReadyKeepsInvariant(c, maxPending, throws);
    OnReadyKeepsOrdered(c, maxPending, throws);
    PostAllAnswersNothing(c.(phase := if c.phase == Starting then Ready else c.phase,
      ready := if c.ready == Unsettled then Resolved else c.ready, outbox := []), c.outbox, |c.outbox|, throws);
  }

  /// The client's own steps.
  predicate IsClientStep<Op, R, E>(e: Event<Op, R, E>) {
    e.RequestCalled? || e.CloseCalled? || e.CloseResumed? || e.TimedOut? || e.WorkerErrorOrReadyTimeout? ||
      e.WorkerExit?
  }

  lemma ClientStepHandled<Op, R, E>(engine: Engine<Op, R, E>, maxPending: nat, s: System<Op, R, E>,
                                    e: Event<Op, R, E>, s': System<Op, R, E>)
    requires Usable(s.client, maxPending) && Step(engine, maxPending, s, e, s') && IsClientStep(e)
    requires s'.client.issued < MAX_REQUEST_ID
    ensures Handled(s.client, maxPending, s'.client) && s' == s.(client := s'.client)
  {
    match e
    case RequestCalled(op, throws) => RequestHandled(s.client, maxPending, op, throws); return;
    case CloseCalled => CloseHandled(s.client, maxPending); return;
    case CloseResumed(throws) => ResumeHandled(s.client, maxPending, throws); return;
    case TimedOut(id) => TimeoutHandled(s.client, maxPending, id); return;
    case _ => FailHandled(s.client, maxPending);
  }

  /// A response is for a request that has been posted, so its id is not waiting in the outbox.
  lemma ResponseIsForPosted<Op, R, E>(s: System<Op, R, E>, id: nat, reply: Reply<R>)
    requires OutboxOk(s.client) && Ordered(s.client) && InOrder(s) && AnswersId(s.executed, id, reply)
    ensures id !in s.client.outbox
    ensures id in s.client.pending ==> AnswersTicket(s.executed, s.client.pending[id].ticket, reply)
  {
    var k :| 0 <= k < |s.executed| && s.executed[k].request.id == id && s.executed[k].reply == reply;
    var q := s.executed[k].request;
    assert (Requests(s.executed) + s.queue)[k] == q == s.client.sent[..s.taken][k];
    assert q in s.client.sent;
  }

  /// The first message is taken off the channel.
  function Received<Op, R, E>(s: System<Op, R, E>): System<Op, R, E>
    requires s.toClient != []
  {
    s.(toClient := s.toClient[1..])
  }

  lemma ReceivedIsGood<Op, R, E>(engine: Engine<Op, R, E>, maxPending: nat, s: System<Op, R, E>)
    requires Good(engine, maxPending, s) && s.toClient != []
    ensures Good(engine, maxPending, Received(s))
  {
  }

  lemma ReceiveKeepsGood<Op, R, E>(engine: Engine<Op, R, E>, maxPending: nat, s: System<Op, R, E>, throws: nat -> bool)
    requires Good(engine, maxPending, s) && Usable(s.client, maxPending) && s.toClient != []
    ensures Good(engine, maxPending, Received(s).(client := Receive(s.client, s.toClient[0], throws)))
  {
    ReceivedIsGood(engine, maxPending, s);
    match s.toClient[0]
    case ReadyMessage =>
      ReadyHandled(s.client, maxPending, throws);
      ClientStepIsGood(engine, maxPending, Received(s), OnReady(s.client, throws));
      return;
    case FatalMessage =>
      FailHandled(s.client, maxPending);
      ClientStepIsGood(engine, maxPending, Received(s), Fail(s.client));
      return;
    case Response(id, reply) =>
      assert s.toClient[0] in s.toClient;
      ResponseKeepsGood(engine, maxPending, Received(s), id, reply);
  }

  lemma SettledTruthfully<Op, R, E>(s: System<Op, R, E>, id: nat, reply: Reply<R>)
    requires Truthful(s) && (id in s.client.pending ==> AnswersTicket(s.executed, s.client.pending[id].ticket, reply))
    ensures Truthful(s.(client := OnResponse(s.client, id, reply)))
  {
  }

  lemma ResponseKeepsGood<Op, R, E>(engine: Engine<Op, R, E>, maxPending: nat, s: System<Op, R, E>, id: nat,
                                    reply: Reply<R>)
    requires Good(engine, maxPending, s) && AnswersId(s.executed, id, reply)
    ensures Good(engine, maxPending, s.(client := OnResponse(s.client, id, reply)))
  {
    ResponseIsForPosted(s, id, reply);
    SettledTruthfully(s, id, reply);
    OnResponseKeepsInvariant(s.client, maxPending, id, reply);
    ResponseKeepsOrdered(s.client, id, reply);
    OnlyClientChanges(engine, maxPending, s, OnResponse(s.client, id, reply));
  }

  lemma OnlyClientChanges<Op, R, E>(engine: Engine<Op, R, E>, maxPending: nat, s: System<Op, R, E>, c': Client<Op, R>)
    requires Good(engine, maxPending, s) && Invariant(c', maxPending) && Ordered(c')
    requires c'.sent == s.client.sent && Truthful(s.(client := c'))
    ensures Good(engine, maxPending, s.(client := c'))
  {
  }

  lemma TakeKeepsGood<Op, R, E>(engine: Engine<Op, R, E>, maxPending: nat, s: System<Op, R, E>)
    requires Good(engine, maxPending, s) && s.taken < |s.client.sent|
    ensures Good(engine, maxPending, Take(s))
  {
    if s.portClosed {
      NothingAfterClose(s, |s.executed| - 1);
      assert false;
    }
    assert s.client.sent[..s.taken + 1] == s.client.sent[..s.taken] + [s.client.sent[s.taken]];
  }

  lemma ExecutedGrows<Op, R, E>(s: System<Op, R, E>, done: Executed<Op, R>)
    requires Truthful(s)
    ensures var executed := s.executed + [done];
      && (forall m | m in s.toClient && m.Response? :: AnswersId(executed, m.id, m.reply))
      && (forall t | t in s.client.settled && s.client.settled[t].Answered? ::
        AnswersTicket(executed, t, s.client.settled[t].reply))
      && AnswersId(executed, done.request.id, done.reply)
  {
    var executed := s.executed + [done];
    forall id, reply | AnswersId(s.executed, id, reply) ensures AnswersId(executed, id, reply) {
      var k :| 0 <= k < |s.executed| && s.executed[k].request.id == id && s.executed[k].reply == reply;
      assert executed[k] == s.executed[k];
    }
    forall t, reply | AnswersTicket(s.executed, t, reply) ensures AnswersTicket(executed, t, reply) {
      var k :| 0 <= k < |s.executed| && s.executed[k].request.ticket == t && s.executed[k].reply == reply;
      assert executed[k] == s.executed[k];
    }
    assert executed[|s.executed|] == done;
  }

  lemma ExecuteKeepsOrder<Op, R, E>(s: System<Op, R, E>, state: E, reply: Reply<R>)
    requires InOrder(s) && s.queue != []
    ensures InOrder(Execute(s, state, reply))
  {
    var s' := Execute(s, state, reply);
    assert Requests(s'.executed) == Requests(s.executed) + [s.queue[0]];
    assert Requests(s'.executed) + s'.queue == Requests(s.executed) + s.queue;
  }

  lemma ExecuteKeepsTruth<Op, R, E>(s: System<Op, R, E>, state: E, reply: Reply<R>)
    requires Truthful(s) && s.queue != []
    ensures Truthful(Execute(s, state, reply))
  {
    ExecutedGrows(s, Executed(s.queue[0], reply));
  }

  lemma ExecuteKeepsGood<Op, R, E>(engine: Engine<Op, R, E>, maxPending: nat, s: System<Op, R, E>, state: E,
                                   reply: Reply<R>)
    requires Good(engine, maxPending, s) && s.queue != []
    requires engine(s.states[|s.states| - 1], s.queue[0].command, state, reply)
    ensures Good(engine, maxPending, Execute(s, state, reply))
  {
    if s.portClosed {
      NothingAfterClose(s, |s.executed| - 1);
      assert false;
    }
    ExecuteKeepsOrder(s, state, reply);
    ExecuteKeepsTruth(s, state, reply);
    assert Sequential(engine, Execute(s, state, reply).executed, Execute(s, state, reply).states);
  }

  lemma StepKeepsGood<Op, R, E>(engine: Engine<Op, R, E>, maxPending: nat, s: System<Op, R, E>, e: Event<Op, R, E>,
                                s': System<Op, R, E>)
    requires Good(engine, maxPending, s) && Usable(s.client, maxPending) && Step(engine, maxPending, s, e, s')
    requires s'.client.issued < MAX_REQUEST_ID
    ensures Good(engine, maxPending, s')
  {
    if IsClientStep(e) {
      ClientStepHandled(engine, maxPending, s, e, s');
      ClientStepIsGood(engine, maxPending, s, s'.client);
      return;
    }
    match e
    case ClientReceives(throws) => ReceiveKeepsGood(engine, maxPending, s, throws); return;
    case WorkerReceives => TakeKeepsGood(engine, maxPending, s); return;
    case WorkerExecutes(state, reply) => ExecuteKeepsGood(engine, maxPending, s, state, reply); return;
    case EngineStarts(opens) => StartKeepsGood(engine, maxPending, s, opens); return;
    case WorkerDies(delivered) => DeathKeepsGood(engine, maxPending, s, delivered); return;
    case _ => assert false;
  }

  lemma StartKeepsGood<Op, R, E>(engine: Engine<Op, R, E>, maxPending: nat, s: System<Op, R, E>, opens: bool)
    requires Good(engine, maxPending, s)
    ensures Good(engine, maxPending, s.(worker := if opens then Running else Dead,
                                        toClient := s.toClient + [if opens then ReadyMessage else FatalMessage]))
  {
  }

  lemma DeathKeepsGood<Op, R, E>(engine: Engine<Op, R, E>, maxPending: nat, s: System<Op, R, E>, delivered: nat)
    requires Good(engine, maxPending, s) && delivered <= |s.toClient|
    ensures Good(engine, maxPending, s.(worker := Dead, toClient := s.toClient[..delivered]))
  {
  }

  // ------------------------------------------------------------------------- the theorem

  lemma {:induction false} GoodThroughout<Op, R, E>(engine: Engine<Op, R, E>, maxPending: nat,
                                                    runs: seq<System<Op, R, E>>, events: seq<Event<Op, R, E>>, n: nat)
    requires Run(engine, maxPending, runs, events) && n < |runs|
    ensures Good(engine, maxPending, runs[n])
  {
    if n == 0 {
      InitialIsInvariant<Op, R>(maxPending);
      return;
    }
    GoodThroughout(engine, maxPending, runs, events, n - 1);
    assert Step(engine, maxPending, runs[n - 1], events[n - 1], runs[n]);
    StepKeepsGood(engine, maxPending, runs[n - 1], events[n - 1], runs[n]);
  }

  /**
   The store behind the worker is a sequential store. In every interleaving of fewer than 2^31 - 1
   calls: the executed operations are a prefix of the posted ones, each at most once and in issue
   order; they are a run of the engine by itself; every promise that carries an answer carries the
   engine's reply to its own request; and nothing is executed, or even posted, after the close.
   */
  lemma RefinesSequentialStore<Op, R, E>(engine: Engine<Op, R, E>, maxPending: nat,
                                         runs: seq<System<Op, R, E>>, events: seq<Event<Op, R, E>>, n: nat)
    requires Run(engine, maxPending, runs, events) && n < |runs|
    ensures var s := runs[n];
      && Invariant(s.client, maxPending)
      && Requests(s.executed) <= s.client.sent && Increasing(s.client.sent)
      && Sequential(engine, s.executed, s.states)
      && (forall t | t in s.client.settled && s.client.settled[t].Answered? ::
        AnswersTicket(s.executed, t, s.client.settled[t].reply))
      && (forall k | 0 <= k < |s.executed| && s.executed[k].request.command == CloseStore ::
            k == |s.executed| - 1 == |s.client.sent| - 1)
  {
    GoodThroughout(engine, maxPending, runs, events, n);
    var s := runs[n];
    assert Requests(s.executed) == s.client.sent[..|s.executed|] by {
      assert (Requests(s.executed) + s.queue)[..|s.executed|] == Requests(s.executed);
      assert s.client.sent[..s.taken][..|s.executed|] == s.client.sent[..|s.executed|];
    }
    forall k | 0 <= k < |s.executed| && s.executed[k].request.command == CloseStore
      ensures k == |s.executed| - 1 == |s.client.sent| - 1
    {
      NothingAfterClose(s, k);
    }
  }
}
