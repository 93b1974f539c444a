/**
 `AnalyticsWorkerClient` (storage/client.ts): the client half of the worker protocol. Each
 event handler is a function on the client's state, and the class runs them on its fields.
 A promise is named by its ticket, the number of the call that returned it.
 */
module WorkerClient {
  import opened Basics

  const MAX_REQUEST_ID: nat := 2_147_483_647
  const MAX_PENDING_LIMIT: nat := 4_096

  datatype Command<+Op> = Call(op: Op) | CloseStore

  /// A message to the worker. It carries the id; the ticket is what the id stands for.
  datatype Request<+Op> = Request(id: nat, command: Command<Op>, ticket: nat)

  datatype Reply<+R> = Success(result: R) | Failure(message: string)

  datatype Reason = WorkerFailed | StoreClosed | TooManyPending | PostFailed | TimedOut

  datatype Settlement<+R> = Answered(reply: Reply<R>) | Rejected(reason: Reason)

  datatype Phase = Starting | Ready | Failed | Closing | Closed

  datatype ReadyPromise = Unsettled | Resolved | Refused

  /// How far `close` has come: which promise it awaits.
  datatype CloseProgress = NotClosing | AwaitReady | AwaitDrain | Drained | AwaitReply(ticket: nat) | Finished

  datatype Pending<+Op> = Pending(command: Command<Op>, ticket: nat)

  datatype Client<Op, R> = Client(
    phase: Phase,
    nextId: nat,
    failed: bool,
    pending: map<nat, Pending<Op>>,
    outbox: seq<nat>,
    ready: ReadyPromise,
    closing: CloseProgress,
    sent: seq<Request<Op>>,
    issued: nat,
    settled: map<nat, Settlement<R>>)

  // ---------------------------------------------------------------------------- request ids

  function NextId(id: nat): nat {
    if id >= MAX_REQUEST_ID then 1 else id + 1
  }

  /// The id that `allocateId` returns: the first free one, or the last one tried.
  function Allocated(next: nat, taken: set<nat>, attempts: nat): nat
    decreases attempts
  {
    if next !in taken || attempts == 0 then next else Allocated(NextId(next), taken, attempts - 1)
  }

  /// The id reached after `k` increments.
  function Later(next: nat, k: nat): nat {
    if k == 0 then next else NextId(Later(next, k - 1))
  }

  lemma {:induction false} LaterInRange(next: nat, k: nat)
    requires 1 <= next <= MAX_REQUEST_ID && k < MAX_REQUEST_ID
    ensures Later(next, k) == if next + k <= MAX_REQUEST_ID then next + k else next + k - MAX_REQUEST_ID
  {
    if k > 0 {
      LaterInRange(next, k - 1);
    }
  }

  lemma {:induction false} LaterShift(next: nat, k: nat)
    ensures Later(NextId(next), k) == Later(next, k + 1)
  {
    if k > 0 {
      LaterShift(next, k - 1);
    }
  }

  /// The first `n` ids tried are as many different ones.
  function Tried(next: nat, n: nat): set<nat> {
    if n == 0 then {} else Tried(next, n - 1) + {Later(next, n - 1)}
  }

  lemma {:induction false} TriedAreDistinct(next: nat, n: nat)
    requires 1 <= next <= MAX_REQUEST_ID && n <= MAX_REQUEST_ID
    ensures |Tried(next, n)| == n
  {
    if n > 0 {
      TriedAreDistinct(next, n - 1);
      if Later(next, n - 1) in Tried(next, n - 1) {
        var k := TriedBefore(next, n - 1, Later(next, n - 1));
        LaterInRange(next, k);
        LaterInRange(next, n - 1);
        assert false;
      }
    }
  }

  lemma {:induction false} TriedBefore(next: nat, n: nat, id: nat) returns (k: nat)
    requires id in Tried(next, n)
    ensures k < n && id == Later(next, k)
  {
    if id == Later(next, n - 1) {
      return n - 1;
    }
    k := TriedBefore(next, n - 1, id);
  }

  lemma AllTakenMeansFull(next: nat, taken: set<nat>, n: nat)
    requires 1 <= next <= MAX_REQUEST_ID && n <= MAX_REQUEST_ID
    requires forall k: nat | k < n :: Later(next, k) in taken
    ensures n <= |taken|
  {
    TriedAreDistinct(next, n);
    forall id | id in Tried(next, n) ensures id in taken {
      var k := TriedBefore(next, n, id);
    }
    assert taken == Tried(next, n) + (taken - Tried(next, n));
  }

  lemma {:induction false} AllocatedIsLater(next: nat, taken: set<nat>, attempts: nat) returns (k: nat)
    ensures k <= attempts && Allocated(next, taken, attempts) == Later(next, k)
    ensures forall i: nat | i < k :: Later(next, i) in taken
    ensures Later(next, k) in taken ==> k == attempts
    decreases attempts
  {
    if next !in taken || attempts == 0 {
      return 0;
    }
    k := AllocatedIsLater(NextId(next), taken, attempts - 1);
    LaterShift(next, k);
    forall i: nat | i < k + 1 ensures Later(next, i) in taken {
      if i > 0 {
        LaterShift(next, i - 1);
      }
    }
    k := k + 1;
  }

  /** `allocateId` never runs out: fewer ids are pending than it tries. */
  lemma AllocateFindsFree(next: nat, taken: set<nat>, attempts: nat)
    requires 1 <= next <= MAX_REQUEST_ID && |taken| <= attempts < MAX_REQUEST_ID
    ensures Allocated(next, taken, attempts) !in taken
    ensures 1 <= Allocated(next, taken, attempts) <= MAX_REQUEST_ID
  {
    var k := AllocatedIsLater(next, taken, attempts);
    LaterInRange(next, k);
    if Later(next, k) in taken {
      AllTakenMeansFull(next, taken, attempts + 1);
    }
  }

  // -------------------------------------------------------------------------- the handlers

  /// `notifyDrain`: once nothing is pending, a close that waits for it may go on.
  function NotifyDrain<Op, R>(c: Client<Op, R>): Client<Op, R> {
    if c.pending == map[] && c.closing == AwaitDrain then c.(closing := Drained) else c
  }

  /// Takes a request out of `pending` and settles its promise.
  function Settle<Op, R>(c: Client<Op, R>, id: nat, s: Settlement<R>): Client<Op, R>
    requires id in c.pending
  {
    NotifyDrain(c.(pending := c.pending - {id}, settled := c.settled[c.pending[id].ticket := s]))
  }

  /// `post`; `throws` tells whether `postMessage` throws.
  function Post<Op, R>(c: Client<Op, R>, id: nat, throws: bool): (c': Client<Op, R>)
    ensures c'.issued == c.issued
  {
    if id !in c.pending then c
    else if throws then Settle(c, id, Rejected(PostFailed))
    else c.(sent := c.sent + [Request(id, c.pending[id].command, c.pending[id].ticket)])
  }

  function PostAll<Op, R>(c: Client<Op, R>, ids: seq<nat>, n: nat, throws: nat -> bool): Client<Op, R>
    requires n <= |ids|
  {
    if n == 0 then c else
    Post(PostAll(c, ids, n - 1, throws), ids[n - 1], throws(ids[n - 1]))
  }

  function Tickets<Op>(pending: map<nat, Pending<Op>>): set<nat> {
    set id | id in pending :: pending[id].ticket
  }

  /// `rejectAll`.
  function RejectAll<Op, R>(c: Client<Op, R>, reason: Reason): Client<Op, R> {
    NotifyDrain(c.(pending := map[], outbox := [],
      settled := c.settled + map t | t in Tickets(c.pending) :: Rejected(reason)))
  }

  /// A call that is turned away: its promise, with ticket `c.issued`, is rejected at once.
  function TurnedAway<Op, R>(c: Client<Op, R>, reason: Reason): Client<Op, R> {
    c.(issued := c.issued + 1, settled := c.settled[c.issued := Rejected(reason)])
  }

  /// A call that is given an id and waits in `pending`.
  function Enqueued<Op, R>(c: Client<Op, R>, maxPending: nat, command: Command<Op>): Client<Op, R> {
    var id := Allocated(c.nextId, c.pending.Keys, maxPending);
    c.(issued := c.issued + 1, nextId := NextId(id), pending := c.pending[id := Pending(command, c.issued)])
  }

  /// `requestInternal`.
  function RequestInternal<Op, R>(c: Client<Op, R>, maxPending: nat, command: Command<Op>, allowClosing: bool,
                                  throws: bool): (c': Client<Op, R>)
    ensures c'.issued == c.issued + 1
  {
    if c.phase == Failed then TurnedAway(c, WorkerFailed)
    else if c.phase == Closed || (c.phase == Closing && !allowClosing) then TurnedAway(c, StoreClosed)
    else if |c.pending| >= maxPending then TurnedAway(c, TooManyPending)
    else
      var id, stored := Allocated(c.nextId, c.pending.Keys, maxPending), Enqueued(c, maxPending, command);
      if c.phase == Ready || (allowClosing && c.phase == Closing) then Post(stored, id, throws)
      else stored.(outbox := c.outbox + [id])
  }

  /// The ready message: the outbox is flushed, whether the client is starting or already closing.
  function OnReady<Op, R>(c: Client<Op, R>, throws: nat -> bool): Client<Op, R> {
    if c.phase != Starting && c.phase != Closing then c else
    var ready := c.(phase := if c.phase == Starting then Ready else c.phase,
      ready := if c.ready == Unsettled then Resolved else c.ready, outbox := []);
    PostAll(ready, c.outbox, |c.outbox|, throws)
  }

  /// `fail`: a fatal message, a worker error, a ready timeout, or an unexpected exit.
  function Fail<Op, R>(c: Client<Op, R>): Client<Op, R> {
    if c.phase == Failed || c.phase == Closed then c else
    RejectAll(
      c.(failed := true, phase := Failed, ready := if c.ready == Unsettled then Refused else c.ready), WorkerFailed)
  }

  /// The worker's exit event.
  function OnExit<Op, R>(c: Client<Op, R>): Client<Op, R> {
    if c.phase != Closing && c.phase != Closed && c.phase != Failed then Fail(c) else c
  }

  /// A response; one whose id is no longer pending is dropped.
  function OnResponse<Op, R>(c: Client<Op, R>, id: nat, reply: Reply<R>): Client<Op, R> {
    if id in c.pending then Settle(c, id, Answered(reply)) else c
  }

  function RemoveFirst(s: seq<nat>, x: nat): seq<nat> {
    if s == [] then [] else if s[0] == x then s[1..] else [s[0]] + RemoveFirst(s[1..], x)
  }

  /// The timer of a pending request.
  function OnTimeout<Op, R>(c: Client<Op, R>, id: nat): Client<Op, R> {
    if id in c.pending then Settle(c.(outbox := RemoveFirst(c.outbox, id)), id, Rejected(TimedOut)) else c
  }

  /// `close` up to its first await.
  function StartClose<Op, R>(c: Client<Op, R>): Client<Op, R> {
    if c.closing != NotClosing || c.phase == Closed then c else c.(phase := Closing, closing := AwaitReady)
  }

  /// The `finally` of `close`.
  function FinishClose<Op, R>(c: Client<Op, R>): Client<Op, R> {
    RejectAll(c.(phase := Closed, closing := Finished), StoreClosed)
  }

  /// `close` from one await to the next, once what it awaits has settled.
  function ContinueClose<Op, R>(c: Client<Op, R>, maxPending: nat, throws: bool): Client<Op, R> {
    match c.closing
    case AwaitReady =>
      if c.ready == Unsettled then c
      else if c.ready == Refused then FinishClose(c)
      else c.(closing := if c.pending == map[] then Drained else AwaitDrain)
    case Drained =>
      if c.failed then FinishClose(c)
      else RequestInternal(c.(closing := AwaitReply(c.issued)), maxPending, CloseStore, true, throws)
    case AwaitReply(t) => if t in c.settled then FinishClose(c) else c
    case _ => c
  }

  function Initial<Op, R>(): Client<Op, R> {
    Client(Starting, 1, false, map[], [], Unsettled, NotClosing, [], 0, map[])
  }

  // ------------------------------------------------------------------------------ the class

  class AnalyticsWorkerClient<Op, R> {
    const maxPending: nat
    var phase: Phase
    var nextId: nat
    var failed: bool
    var pending: map<nat, Pending<Op>>
    var outbox: seq<nat>
    var ready: ReadyPromise
    var closing: CloseProgress
    var sent: seq<Request<Op>>
    var issued: nat
    var settled: map<nat, Settlement<R>>

    ghost function State(): Client<Op, R>
      reads this
    {
      Client(phase, nextId, failed, pending, outbox, ready, closing, sent, issued, settled)
    }

    ghost predicate Valid()
      reads this
    {
      0 < maxPending <= MAX_PENDING_LIMIT && Invariant(State(), maxPending)
    }

    constructor (maxPending: nat)
      requires 0 < maxPending <= MAX_PENDING_LIMIT
      ensures Valid() && State() == Initial()
    {
      this.maxPending := maxPending;
      phase, nextId, failed, pending, outbox := Starting, 1, false, map[], [];
      ready, closing, sent, issued, settled := Unsettled, NotClosing, [], 0, map[];
      new;
      InitialIsInvariant<Op, R>(maxPending);
    }

    /** `allocateId`: the loop always finds a free id, so its throw is never reached. */
    method AllocateId() returns (id: nat)
      requires |pending| < maxPending <= MAX_PENDING_LIMIT && 1 <= nextId <= MAX_REQUEST_ID
      modifies this`nextId
      ensures id == Allocated(old(nextId), pending.Keys, maxPending) && id !in pending && nextId == NextId(id)
    {
      AllocateFindsFree(nextId, pending.Keys, maxPending);
      var attempt := 0;
      while attempt <= maxPending
        invariant attempt <= maxPending
        invariant Allocated(nextId, pending.Keys, maxPending - attempt) ==
          Allocated(old(nextId), pending.Keys, maxPending)
      {
        id := nextId;
        nextId := if id >= MAX_REQUEST_ID then 1 else id + 1;
        if id !in pending {
          return;
        }
        attempt := attempt + 1;
      }
      assert false;
    }

    method NotifyDrained()
      modifies this`closing
      ensures State() == NotifyDrain(old(State()))
    {
      if pending == map[] && closing == AwaitDrain {
        closing := Drained;
      }
    }

    method PostMessage(id: nat, throws: bool)
      modifies this`pending, this`settled, this`sent, this`closing
      ensures State() == Post(old(State()), id, throws)
    {
      if id in pending {
        var request := pending[id];
        if throws {
          pending, settled := pending - {id}, settled[request.ticket := Rejected(PostFailed)];
          NotifyDrained();
        } else {
          sent := sent + [Request(id, request.command, request.ticket)];
        }
      }
    }

    method RejectPending(reason: Reason)
      modifies this`pending, this`outbox, this`settled, this`closing
      ensures State() == RejectAll(old(State()), reason)
    {
      settled := settled + map t | t in Tickets(pending) :: Rejected(reason);
      pending, outbox := map[], [];
      NotifyDrained();
    }

    method SettleRequest(id: nat, s: Settlement<R>)
      requires id in pending
      modifies this`pending, this`settled, this`closing
      ensures State() == Settle(old(State()), id, s)
    {
      pending, settled := pending - {id}, settled[pending[id].ticket := s];
      NotifyDrained();
    }

    method TurnAway(reason: Reason)
      modifies this`issued, this`settled
      ensures State() == TurnedAway(old(State()), reason)
    {
      issued, settled := issued + 1, settled[issued := Rejected(reason)];
    }

    method Enqueue(command: Command<Op>) returns (id: nat)
      requires |pending| < maxPending <= MAX_PENDING_LIMIT && 1 <= nextId <= MAX_REQUEST_ID
      modifies this`issued, this`nextId, this`pending
      ensures State() == Enqueued(old(State()), maxPending, command)
      ensures id == Allocated(old(nextId), old(pending).Keys, maxPending)
    {
      id := AllocateId();
      issued, pending := issued + 1, pending[id := Pending(command, issued)];
    }

    /** `requestInternal`. */
    method Ask(command: Command<Op>, allowClosing: bool, throws: bool)
      requires 0 < maxPending <= MAX_PENDING_LIMIT && 1 <= nextId <= MAX_REQUEST_ID
      modifies this
      ensures State() == RequestInternal(old(State()), maxPending, command, allowClosing, throws)
    {
      if phase == Failed {
        TurnAway(WorkerFailed);
      } else if phase == Closed || (phase == Closing && !allowClosing) {
        TurnAway(StoreClosed);
      } else if |pending| >= maxPending {
        TurnAway(TooManyPending);
      } else {
        var id := Enqueue(command);
        if phase == Ready || (allowClosing && phase == Closing) {
          PostMessage(id, throws);
        } else {
          outbox := outbox + [id];
        }
      }
    }

    /** Any of the store's operations; the promise returned has the ticket that was next. */
    method RequestOperation(op: Op, throws: bool) returns (ticket: nat)
      requires Valid()
      modifies this
      ensures Valid() && ticket == old(issued)
      ensures State() == RequestInternal(old(State()), maxPending, Call(op), false, throws)
    {
      RequestKeepsInvariant(State(), maxPending, op, throws);
      ticket := issued;
      Ask(Call(op), false, throws);
    }

    /** The worker's ready message. */
    method ReceiveReady(throws: nat -> bool)
      requires Valid()
      modifies this
      ensures Valid() && State() == OnReady(old(State()), throws)
    {
      OnReadyKeepsInvariant(State(), maxPending, throws);
      if phase != Starting && phase != Closing {
        return;
      }
      if phase == Starting {
        phase := Ready;
      }
      if ready == Unsettled {
        ready := Resolved;
      }
      var ids := outbox;
      outbox := [];
      ghost var before := State();
      for i := 0 to |ids|
        invariant State() == PostAll(before, ids, i, throws)
      {
        PostMessage(ids[i], throws(ids[i]));
      }
    }

    /** A response from the worker, which answers only what has been posted. */
    method ReceiveResponse(id: nat, reply: Reply<R>)
      requires Valid() && id !in outbox
      modifies this
      ensures Valid() && State() == OnResponse(old(State()), id, reply)
    {
      OnResponseKeepsInvariant(State(), maxPending, id, reply);
      if id in pending {
        SettleRequest(id, Answered(reply));
      }
    }

    /** `fail`. */
    method FailAll()
      requires Valid()
      modifies this
      ensures Valid() && State() == Fail(old(State()))
    {
      FailKeepsInvariant(State(), maxPending);
      if phase == Failed || phase == Closed {
        return;
      }
      failed, phase := true, Failed;
      if ready == Unsettled {
        ready := Refused;
      }
      RejectPending(WorkerFailed);
    }

    /** The timer of a request fires. */
    method TimeoutFires(id: nat)
      requires Valid()
      modifies this
      ensures Valid() && State() == OnTimeout(old(State()), id)
    {
      OnTimeoutKeepsInvariant(State(), maxPending, id);
      if id in pending {
        outbox := RemoveFirst(outbox, id);
        SettleRequest(id, Rejected(TimedOut));
      }
    }

    /** `close`. */
    method Close()
      requires Valid()
      modifies this
      ensures Valid() && State() == StartClose(old(State()))
    {
      StartCloseKeepsInvariant(State(), maxPending);
      if closing != NotClosing || phase == Closed {
        return;
      }
      phase, closing := Closing, AwaitReady;
    }

    /// The `finally` of `close`.
    method Finish()
      modifies this
      ensures State() == FinishClose(old(State()))
    {
      phase, closing := Closed, Finished;
      RejectPending(StoreClosed);
    }

    method Resume(throws: bool)
      requires 0 < maxPending <= MAX_PENDING_LIMIT && 1 <= nextId <= MAX_REQUEST_ID
      modifies this
      ensures State() == ContinueClose(old(State()), maxPending, throws)
    {
      match closing
      case AwaitReady =>
        if ready == Refused {
          Finish();
        } else if ready == Resolved {
          closing := if pending == map[] then Drained else AwaitDrain;
        }
      case Drained =>
        if failed {
          Finish();
        } else {
          closing := AwaitReply(issued);
          Ask(CloseStore, true, throws);
        }
      case AwaitReply(t) =>
        if t in settled {
          Finish();
        }
      case _ =>
    }

    /** `close` goes on, if what it awaits has settled. */
    method ResumeClose(throws: bool)
      requires Valid()
      modifies this
      ensures Valid() && State() == ContinueClose(old(State()), maxPending, throws)
    {
      ContinueCloseKeepsInvariant(State(), maxPending, throws);
      Resume(throws);
    }
  }

  // ---------------------------------------------------------------------- the invariant

  predicate Distinct(s: seq<nat>) {
    forall i, j | 0 <= i < j < |s| :: s[i] != s[j]
  }

  /// A promise is unsettled exactly when its request is pending, and no two requests share one.
  ghost predicate Accounted<Op, R>(c: Client<Op, R>) {
    && (forall t: nat :: t in c.settled <==> t < c.issued && t !in Tickets(c.pending))
    && (forall id | id in c.pending :: c.pending[id].ticket < c.issued)
    && (forall i, j | i in c.pending && j in c.pending && c.pending[i].ticket == c.pending[j].ticket :: i == j)
  }

  ghost predicate Bounded<Op, R>(c: Client<Op, R>, maxPending: nat) {
    && |c.pending| <= maxPending && 1 <= c.nextId <= MAX_REQUEST_ID
    && (forall id | id in c.pending :: 1 <= id <= MAX_REQUEST_ID)
  }

  /// The outbox holds different pending requests, and only until the worker is ready.
  ghost predicate OutboxOk<Op, R>(c: Client<Op, R>) {
    && Distinct(c.outbox) && (forall id | id in c.outbox :: id in c.pending)
    && (c.outbox != [] ==> c.ready == Unsettled)
    && (c.ready == Unsettled ==> c.sent == [])
  }

  /// How the fields that say where the client is go together.
  ghost predicate PhasesOk<Op, R>(c: Client<Op, R>) {
    && (c.phase == Closed <==> c.closing == Finished)
    && (c.phase == Starting || c.phase == Ready ==> c.closing == NotClosing && !c.failed)
    && (c.phase == Closing ==> c.closing != NotClosing)
    && (c.phase == Failed ==> c.failed)
    && (c.phase == Starting ==> c.ready == Unsettled)
    && (c.ready == Unsettled ==> c.phase == Starting || (c.phase == Closing && c.closing == AwaitReady && !c.failed))
    && (c.failed || c.phase == Closed ==> c.pending == map[] && c.outbox == [])
    && (c.closing == Drained ==> c.pending == map[])
  }

  /// The close request is posted once nothing is pending, and nothing is posted after it.
  ghost predicate CloseOk<Op, R>(c: Client<Op, R>) {
    && (forall id | id in c.pending && c.pending[id].command == CloseStore :: c.closing.AwaitReply?)
    && (c.closing.AwaitReply? ==> forall id | id in c.pending :: c.pending[id].command == CloseStore)
    && (forall i | 0 <= i < |c.sent| && c.sent[i].command == CloseStore ::
          i == |c.sent| - 1 && (c.closing.AwaitReply? || c.closing == Finished))
    && (c.closing.AwaitReply? || c.closing == Finished || c.closing == Drained ==> c.outbox == [])
  }

  ghost predicate Invariant<Op, R>(c: Client<Op, R>, maxPending: nat) {
    Accounted(c) && Bounded(c, maxPending) && OutboxOk(c) && PhasesOk(c) && CloseOk(c)
  }

  lemma InitialIsInvariant<Op, R>(maxPending: nat)
    ensures Invariant(Initial<Op, R>(), maxPending)
  {
    var c := Initial<Op, R>();
    assert Tickets(c.pending) == {};
  }

  // ------------------------------------------------------------ every handler keeps it

  lemma TicketsWithout<Op, R>(c: Client<Op, R>, id: nat)
    requires Accounted(c) && id in c.pending
    ensures Tickets(c.pending - {id}) == Tickets(c.pending) - {c.pending[id].ticket}
  {
    forall t | t in Tickets(c.pending) - {c.pending[id].ticket} ensures t in Tickets(c.pending - {id}) {
      var i :| i in c.pending && c.pending[i].ticket == t;
      assert i in c.pending - {id};
    }
  }

  lemma SettleKeepsAccounted<Op, R>(c: Client<Op, R>, id: nat, s: Settlement<R>)
    requires Accounted(c) && id in c.pending
    ensures Accounted(Settle(c, id, s))
  {
    TicketsWithout(c, id);
    assert c.pending[id].ticket in Tickets(c.pending);
  }

  lemma SettleKeepsInvariant<Op, R>(c: Client<Op, R>, maxPending: nat, id: nat, s: Settlement<R>)
    requires Invariant(c, maxPending) && id in c.pending && id !in c.outbox
    ensures Invariant(Settle(c, id, s), maxPending)
  {
    SettleKeepsAccounted(c, id, s);
    assert (c.pending - {id}).Keys == c.pending.Keys - {id};
  }

  lemma RejectAllKeepsAccounted<Op, R>(c: Client<Op, R>, reason: Reason)
    requires Accounted(c)
    ensures Accounted(RejectAll(c, reason))
  {
    var none: map<nat, Pending<Op>> := map[];
    assert Tickets(none) == {};
    forall t | t in Tickets(c.pending) ensures t < c.issued {
      var id :| id in c.pending && c.pending[id].ticket == t;
    }
  }

  lemma FailKeepsInvariant<Op, R>(c: Client<Op, R>, maxPending: nat)
    requires Invariant(c, maxPending)
    ensures Invariant(Fail(c), maxPending)
  {
    RejectAllKeepsAccounted(
      c.(failed := true, phase := Failed, ready := if c.ready == Unsettled then Refused else c.ready), WorkerFailed);
  }

  lemma FinishKeepsInvariant<Op, R>(c: Client<Op, R>, maxPending: nat)
    requires Invariant(c, maxPending) && c.ready != Unsettled
    requires c.closing == AwaitReady || c.closing == Drained || c.closing.AwaitReply?
    ensures Invariant(FinishClose(c), maxPending)
  {
    RejectAllKeepsAccounted(c.(phase := Closed, closing := Finished), StoreClosed);
  }

  lemma PostKeepsInvariant<Op, R>(c: Client<Op, R>, maxPending: nat, id: nat, throws: bool)
    requires Invariant(c, maxPending) && c.outbox == [] && c.ready != Unsettled
    requires forall i | 0 <= i < |c.sent| :: c.sent[i].command != CloseStore
    ensures Invariant(Post(c, id, throws), maxPending)
  {
    if id in c.pending && throws {
      SettleKeepsInvariant(c, maxPending, id, Rejected(PostFailed));
    }
  }

  /// While the outbox is flushed: everything in it has been taken out, and none of it is the close request.
  ghost predicate Flushing<Op, R>(c: Client<Op, R>, maxPending: nat) {
    Invariant(c, maxPending) && c.outbox == [] && c.ready != Unsettled &&
      (c.closing == NotClosing || c.closing == AwaitReady)
  }

  lemma PostKeepsFlushing<Op, R>(c: Client<Op, R>, maxPending: nat, id: nat, throws: bool)
    requires Flushing(c, maxPending)
    ensures Flushing(Post(c, id, throws), maxPending)
  {
    PostKeepsInvariant(c, maxPending, id, throws);
  }

  lemma {:induction false} PostAllKeepsFlushing<Op, R>(c: Client<Op, R>, maxPending: nat, ids: seq<nat>, n: nat,
                                                       throws: nat -> bool)
    requires Flushing(c, maxPending) && n <= |ids|
    ensures Flushing(PostAll(c, ids, n, throws), maxPending)
  {
    if n > 0 {
      PostAllKeepsFlushing(c, maxPending, ids, n - 1, throws);
      PostKeepsFlushing(PostAll(c, ids, n - 1, throws), maxPending, ids[n - 1], throws(ids[n - 1]));
    }
  }

  lemma OnReadyKeepsInvariant<Op, R>(c: Client<Op, R>, maxPending: nat, throws: nat -> bool)
    requires Invariant(c, maxPending)
    ensures Invariant(OnReady(c, throws), maxPending)
  {
    if c.phase == Starting || c.phase == Closing {
      var ready := c.(phase := if c.phase == Starting then Ready else c.phase,
        ready := if c.ready == Unsettled then Resolved else c.ready, outbox := []);
      assert Invariant(ready, maxPending);
      if c.outbox != [] {
        PostAllKeepsFlushing(ready, maxPending, c.outbox, |c.outbox|, throws);
      }
    }
  }

  lemma TicketsWith<Op, R>(c: Client<Op, R>, id: nat, command: Command<Op>)
    requires id !in c.pending
    ensures Tickets(c.pending[id := Pending(command, c.issued)]) == Tickets(c.pending) + {c.issued}
  {
    var pending' := c.pending[id := Pending(command, c.issued)];
    forall t | t in Tickets(c.pending) + {c.issued} ensures t in Tickets(pending') {
      if t == c.issued {
        assert pending'[id].ticket == t;
      } else {
        var i :| i in c.pending && c.pending[i].ticket == t;
        assert pending'[i].ticket == t;
      }
    }
  }

  lemma OneMoreAccounted<Op, R>(c: Client<Op, R>, id: nat, command: Command<Op>)
    requires Accounted(c) && id !in c.pending
    ensures Accounted(c.(issued := c.issued + 1, pending := c.pending[id := Pending(command, c.issued)]))
  {
    var pending' := c.pending[id := Pending(command, c.issued)];
    TicketsWith(c, id, command);
    assert c.issued !in Tickets(c.pending);
    forall i, j | i in pending' && j in pending' && pending'[i].ticket == pending'[j].ticket ensures i == j {
      assert i != id ==> pending'[i] == c.pending[i];
      assert j != id ==> pending'[j] == c.pending[j];
    }
  }

  lemma OneMoreCounted<Op>(pending: map<nat, Pending<Op>>, id: nat, request: Pending<Op>)
    requires id !in pending
    ensures |pending[id := request]| == |pending| + 1
  {
    assert pending[id := request].Keys == pending.Keys + {id};
  }

  lemma RejectedKeepsAccounted<Op, R>(c: Client<Op, R>, reason: Reason)
    requires Accounted(c)
    ensures Accounted(TurnedAway(c, reason))
  {
    assert c.issued !in Tickets(c.pending);
  }

  lemma RejectedKeepsInvariant<Op, R>(c: Client<Op, R>, maxPending: nat, reason: Reason)
    requires Invariant(c, maxPending)
    ensures Invariant(TurnedAway(c, reason), maxPending)
  {
    RejectedKeepsAccounted(c, reason);
  }

  lemma EnqueuedKeeps<Op, R>(c: Client<Op, R>, maxPending: nat, command: Command<Op>)
    requires Accounted(c) && Bounded(c, maxPending) && |c.pending| < maxPending <= MAX_PENDING_LIMIT
    ensures Allocated(c.nextId, c.pending.Keys, maxPending) !in c.pending
    ensures Accounted(Enqueued(c, maxPending, command)) && Bounded(Enqueued(c, maxPending, command), maxPending)
  {
    AllocateFindsFree(c.nextId, c.pending.Keys, maxPending);
    OneMoreAccounted(c, Allocated(c.nextId, c.pending.Keys, maxPending), command);
    OneMoreCounted(c.pending, Allocated(c.nextId, c.pending.Keys, maxPending), Pending(command, c.issued));
  }

  ghost predicate Orderly<Op, R>(c: Client<Op, R>) {
    OutboxOk(c) && PhasesOk(c) && CloseOk(c)
  }

  /// A new request waits in the outbox before the worker is ready, and is posted afterwards.
  lemma NewRequestIsOrderly<Op, R>(c: Client<Op, R>, id: nat, op: Op, next: nat)
    requires Orderly(c) && (c.phase == Starting || c.phase == Ready) && id !in c.pending
    ensures var stored := c.(issued := c.issued + 1, nextId := next,
      pending := c.pending[id := Pending(Call(op), c.issued)]);
      if c.phase == Ready then Orderly(stored) && stored.outbox == [] && stored.ready != Unsettled
      else Orderly(stored.(outbox := c.outbox + [id]))
  {
  }

  lemma NewCloseIsOrderly<Op, R>(c: Client<Op, R>, id: nat, next: nat)
    requires Orderly(c) && c.closing == Drained && !c.failed
    ensures Orderly(c.(closing := AwaitReply(c.issued), issued := c.issued + 1, nextId := next,
                       pending := c.pending[id := Pending(CloseStore, c.issued)]))
  {
  }

  lemma RequestKeepsInvariant<Op, R>(c: Client<Op, R>, maxPending: nat, op: Op, throws: bool)
    requires Invariant(c, maxPending) && 0 < maxPending <= MAX_PENDING_LIMIT
    ensures Invariant(RequestInternal(c, maxPending, Call(op), false, throws), maxPending)
  {
    if c.phase == Failed {
      RejectedKeepsInvariant(c, maxPending, WorkerFailed);
    } else if c.phase == Closed || c.phase == Closing {
      RejectedKeepsInvariant(c, maxPending, StoreClosed);
    } else if |c.pending| >= maxPending {
      RejectedKeepsInvariant(c, maxPending, TooManyPending);
    } else {
      AcceptedKeepsInvariant(c, maxPending, op, throws);
    }
  }

  lemma AcceptedKeepsInvariant<Op, R>(c: Client<Op, R>, maxPending: nat, op: Op, throws: bool)
    requires Invariant(c, maxPending) && |c.pending| < maxPending <= MAX_PENDING_LIMIT
    requires (c.phase == Starting || c.phase == Ready)
    ensures Invariant(RequestInternal(c, maxPending, Call(op), false, throws), maxPending)
  {
    var id := Allocated(c.nextId, c.pending.Keys, maxPending);
    EnqueuedKeeps(c, maxPending, Call(op));
    NewRequestIsOrderly(c, id, op, NextId(id));
    if c.phase == Ready {
      PostKeepsInvariant(Enqueued(c, maxPending, Call(op)), maxPending, id, throws);
    }
  }

  lemma CloseEnqueued<Op, R>(c: Client<Op, R>, maxPending: nat)
    requires Invariant(c, maxPending) && 0 < maxPending <= MAX_PENDING_LIMIT && c.closing == Drained && !c.failed
    ensures var asked := Enqueued(c.(closing := AwaitReply(c.issued)), maxPending, CloseStore);
      Invariant(asked, maxPending) && asked.outbox == [] && asked.ready != Unsettled
  {
    var asked, id := c.(closing := AwaitReply(c.issued)), Allocated(c.nextId, c.pending.Keys, maxPending);
    EnqueuedKeeps(asked, maxPending, CloseStore);
    NewCloseIsOrderly(c, id, NextId(id));
  }

  lemma CloseRequestKeepsInvariant<Op, R>(c: Client<Op, R>, maxPending: nat, throws: bool)
    requires Invariant(c, maxPending) && 0 < maxPending <= MAX_PENDING_LIMIT && c.closing == Drained && !c.failed
    ensures Invariant(RequestInternal(c.(closing := AwaitReply(c.issued)), maxPending, CloseStore, true, throws),
      maxPending)
  {
    var asked, id := c.(closing := AwaitReply(c.issued)), Allocated(c.nextId, c.pending.Keys, maxPending);
    CloseEnqueued(c, maxPending);
    PostKeepsInvariant(Enqueued(asked, maxPending, CloseStore), maxPending, id, throws);
  }

  lemma NothingElsePending<Op, R>(c: Client<Op, R>, maxPending: nat)
    requires Invariant(c, maxPending) && c.closing == Drained && !c.failed
    ensures c.pending == map[] && c.phase == Closing
  {
  }

  /**
   The close request goes out when nothing else is pending, so it is never turned away: it is posted
   as the one pending request, unless posting itself throws.
   */
  lemma CloseRequestIsPosted<Op, R>(c: Client<Op, R>, maxPending: nat)
    requires Invariant(c, maxPending) && 0 < maxPending <= MAX_PENDING_LIMIT && c.closing == Drained && !c.failed
    ensures var id := Allocated(c.nextId, c.pending.Keys, maxPending);
      var asked := RequestInternal(c.(closing := AwaitReply(c.issued)), maxPending, CloseStore, true, false);
      && asked.pending == map[id := Pending(CloseStore, c.issued)] && asked.settled == c.settled
      && asked.sent == c.sent + [Request(id, CloseStore, c.issued)]
    ensures var asked := RequestInternal(c.(closing := AwaitReply(c.issued)), maxPending, CloseStore, true, true);
      asked.pending == map[] && asked.sent == c.sent && asked.settled == c.settled[c.issued := Rejected(PostFailed)]
  {
    NothingElsePending(c, maxPending);
    var asked, id := c.(closing := AwaitReply(c.issued)), Allocated(c.nextId, c.pending.Keys, maxPending);
    var stored := Enqueued(asked, maxPending, CloseStore);
    assert stored.pending == map[id := Pending(CloseStore, c.issued)];
    assert stored.pending - {id} == map[];
  }

  lemma ContinueCloseKeepsInvariant<Op, R>(c: Client<Op, R>, maxPending: nat, throws: bool)
    requires Invariant(c, maxPending) && 0 < maxPending <= MAX_PENDING_LIMIT
    ensures Invariant(ContinueClose(c, maxPending, throws), maxPending)
  {
    match c.closing
    case AwaitReady =>
      if c.ready == Refused {
        FinishKeepsInvariant(c, maxPending);
      }
    case Drained =>
      if c.failed {
        FinishKeepsInvariant(c, maxPending);
      } else {
        CloseRequestKeepsInvariant(c, maxPending, throws);
      }
    case AwaitReply(t) =>
      if t in c.settled {
        FinishKeepsInvariant(c, maxPending);
      }
    case _ =>
  }

  lemma StartCloseKeepsInvariant<Op, R>(c: Client<Op, R>, maxPending: nat)
    requires Invariant(c, maxPending)
    ensures Invariant(StartClose(c), maxPending)
  {
  }

  /** A response keeps the invariant if and only if it is not to a request that still waits in the outbox. */
  lemma OnResponseKeepsInvariant<Op, R>(c: Client<Op, R>, maxPending: nat, id: nat, reply: Reply<R>)
    requires Invariant(c, maxPending)
    ensures Invariant(OnResponse(c, id, reply), maxPending) <==> id !in c.outbox
  {
    if id in c.outbox {
      var i :| 0 <= i < |c.outbox| && c.outbox[i] == id;
      assert OnResponse(c, id, reply).outbox[i] == id;
      return;
    }
    if id in c.pending {
      SettleKeepsInvariant(c, maxPending, id, Answered(reply));
    }
  }

  lemma DistinctTail(s: seq<nat>)
    requires Distinct(s) && s != []
    ensures Distinct(s[1..]) && s[0] !in s[1..]
  {
  }

  lemma {:induction false} RemovedOnce(s: seq<nat>, x: nat)
    requires Distinct(s)
    ensures Distinct(RemoveFirst(s, x)) && forall y :: y in RemoveFirst(s, x) <==> y in s && y != x
  {
    if s != [] {
      DistinctTail(s);
      assert s == [s[0]] + s[1..];
      RemovedOnce(s[1..], x);
    }
  }

  lemma OnTimeoutKeepsInvariant<Op, R>(c: Client<Op, R>, maxPending: nat, id: nat)
    requires Invariant(c, maxPending)
    ensures Invariant(OnTimeout(c, id), maxPending)
  {
    if id in c.pending {
      RemovedOnce(c.outbox, id);
      var removed := c.(outbox := RemoveFirst(c.outbox, id));
      assert Invariant(removed, maxPending);
      SettleKeepsInvariant(removed, maxPending, id, Rejected(TimedOut));
    }
  }

  // ------------------------------------------------------------------- what it comes to

  /** A failed or closed client has left no promise unsettled. */
  lemma NothingLeftUnsettled<Op, R>(c: Client<Op, R>, maxPending: nat)
    requires Invariant(c, maxPending) && (c.phase == Failed || c.phase == Closed)
    ensures forall t: nat | t < c.issued :: t in c.settled
  {
    assert Tickets(c.pending) == {};
  }

  /** An answer to a request that was never posted leaves its id in the outbox: the hypothesis is needed. */
  lemma UnsolicitedAnswerBreaksOutbox<Op, R>(op: Op, reply: Reply<R>)
    ensures var asked := RequestInternal(Initial<Op, R>(), 64, Call(op), false, false);
      var answered := OnResponse(asked, 1, reply);
      Invariant(asked, 64) && answered.outbox == [1] && 1 !in answered.pending && !OutboxOk(answered)
  {
    InitialIsInvariant<Op, R>(64);
    RequestKeepsInvariant(Initial<Op, R>(), 64, op, false);
    var answered := OnResponse(RequestInternal(Initial<Op, R>(), 64, Call(op), false, false), 1, reply);
    assert answered.outbox[0] == 1;
  }
}
