/**
 `CodexDeviceLoginManager` (host/oauth/manager.ts): one device login at a time, each with a
 child process that must not be left running. Every callback is one step; the code between two
 awaits is atomic. Timers may fire at any moment.
 */
module OAuthManager {
  import opened Basics
  import Parser = OAuthParser

  datatype LoginState = Starting | Pending | Success | Denied | Expired | Cancelled | TimedOut | Failed

  /// The mutable part of an operation. `terminating` says that its termination promise is set;
  /// `terminateCalls` and `exited` record what happened to the child.
  datatype Login = Login(
    state: LoginState,
    details: Option<Parser.Details>,
    terminal: bool,
    readySettled: bool,
    successObserved: bool,
    terminating: bool,
    terminateCalls: nat,
    exited: bool)

  const STARTED := Login(Starting, None, false, false, false, false, 0, false)

  /// How the child ended, as its `done` promise tells.
  datatype Outcome = ExitedWithZero | ExitedOtherwise | DoneRejected

  function StateOf(s: Parser.TerminalState): LoginState {
    match s
    case Success => Success
    case Failed => Failed
    case Denied => Denied
    case Expired => Expired
    case Cancelled => Cancelled
  }

  predicate IsTerminalState(s: LoginState) {
    s != Starting && s != Pending
  }

  // ---------------------------------------------------------------------------- handlers

  /// `terminateAndWait` up to its await.
  function Terminate(op: Login): Login {
    if op.terminating then op else op.(terminating := true, terminateCalls := op.terminateCalls + 1)
  }

  /// `failOperation`, which every caller uses with a state that terminates the child.
  function Fail(op: Login, state: LoginState): Login {
    if op.terminal then op else Terminate(op.(state := state, terminal := true, readySettled := true))
  }

  /// One round of the loop of `applyParserEvents`.
  function ApplyEvent(op: Login, e: Parser.Event): Login {
    match e
    case Ready(details) =>
      if op.readySettled then op else op.(details := Some(details), state := Pending, readySettled := true)
    case State(state) =>
      if op.terminal then op else
      Terminate(op.(state := StateOf(state), terminal := true,
        successObserved := op.successObserved || state == Parser.TerminalState.Success,
        readySettled := op.readySettled || state != Parser.TerminalState.Success))
  }

  function ApplyEvents(op: Login, events: seq<Parser.Event>, n: nat): Login
    requires n <= |events|
  {
    if n == 0 then op else ApplyEvent(ApplyEvents(op, events, n - 1), events[n - 1])
  }

  /// A chunk of standard output, given what the parser makes of it.
  function OnChunk(op: Login, parsed: Parser.Result<seq<Parser.Event>>): Login {
    if op.terminal then op else
    match parsed
    case Thrown => Fail(op, Failed)
    case Ok(events) => ApplyEvents(op, events, |events|)
  }

  /// The end of standard output; a truncated character makes the decoder throw.
  function OnOutputEnd(op: Login, truncated: bool, finish: Parser.Result<seq<Parser.Event>>): Login {
    if op.terminal then op else
    if truncated || finish.Thrown? then Fail(op, Failed) else
    var applied := ApplyEvents(op, finish.value, |finish.value|);
    if applied.readySettled then applied else Fail(applied, Failed)
  }

  /// The child's `done` promise settles.
  function OnDone(op: Login, outcome: Outcome, finish: Parser.Result<seq<Parser.Event>>): Login {
    var seen := op.(terminating := true, exited := true);
    if op.terminal then seen else
    if outcome != ExitedWithZero then Fail(seen, Failed) else
    if !op.readySettled && finish.Thrown? then Fail(seen, Failed) else
    var applied := if op.readySettled then seen else ApplyEvents(seen, finish.value, |finish.value|);
    if !applied.readySettled || !applied.successObserved then Fail(applied, Failed)
    else applied.(state := Success, terminal := true)
  }

  /// `start` goes on after the ready promise is resolved.
  function OnReadyAwaited(op: Login): Login {
    if op.terminal then op else op.(state := Pending)
  }

  /// `cancel`, or `dispose` of an operation that is still going on.
  function Cancel(op: Login): Login {
    if op.terminal then op else Terminate(op.(state := Cancelled, terminal := true, readySettled := true))
  }

  // --------------------------------------------------------------------- what always holds

  /// A terminal login has had its child terminated or seen to exit, and terminate is called at most
  /// once, never on a child that has been seen to exit before.
  predicate Settled(op: Login) {
    && (op.terminal ==> op.terminateCalls == 1 || op.exited)
    && op.terminateCalls <= 1
    && (op.terminating <==> op.terminateCalls == 1 || op.exited)
    && (op.successObserved ==> op.terminal)
    && (!op.terminal && op.readySettled ==> op.details.Some?)
  }

  /// The child is neither terminated nor seen to exit.
  predicate Live(op: Login) {
    op.terminateCalls == 0 && !op.exited
  }

  lemma ApplyEventKeepsSettled(op: Login, e: Parser.Event)
    requires Settled(op)
    ensures Settled(ApplyEvent(op, e)) && (op.terminal ==> ApplyEvent(op, e).terminal)
  {
  }

  lemma {:induction false} ApplyEventsKeepsSettled(op: Login, events: seq<Parser.Event>, n: nat)
    requires Settled(op) && n <= |events|
    ensures Settled(ApplyEvents(op, events, n)) && (op.terminal ==> ApplyEvents(op, events, n).terminal)
  {
    if n == 0 {
      return;
    }
    ApplyEventsKeepsSettled(op, events, n - 1);
    ApplyEventKeepsSettled(ApplyEvents(op, events, n - 1), events[n - 1]);
  }

  /// The steps an operation can take.
  datatype Callback =
    | Chunk(parsed: Parser.Result<seq<Parser.Event>>)
    | OutputEnd(truncated: bool, finish: Parser.Result<seq<Parser.Event>>)
    | Done(outcome: Outcome, doneFinish: Parser.Result<seq<Parser.Event>>)
    | ReadyAwaited
    | TimerFires(expired: bool)
    | CancelCalled

  function Handle(op: Login, c: Callback): Login {
    match c
    case Chunk(parsed) => OnChunk(op, parsed)
    case OutputEnd(truncated, finish) => OnOutputEnd(op, truncated, finish)
    case Done(outcome, finish) => OnDone(op, outcome, finish)
    case ReadyAwaited => OnReadyAwaited(op)
    case TimerFires(expired) => Fail(op, if expired then Expired else TimedOut)
    case CancelCalled => Cancel(op)
  }

  lemma OutputEndKeepsSettled(op: Login, truncated: bool, finish: Parser.Result<seq<Parser.Event>>)
    requires Settled(op)
    ensures Settled(OnOutputEnd(op, truncated, finish))
  {
    if finish.Ok? {
      ApplyEventsKeepsSettled(op, finish.value, |finish.value|);
    }
  }

  lemma DoneKeepsSettled(op: Login, outcome: Outcome, finish: Parser.Result<seq<Parser.Event>>)
    requires Settled(op)
    ensures Settled(OnDone(op, outcome, finish)) && OnDone(op, outcome, finish).exited
  {
    var seen := op.(terminating := true, exited := true);
    assert Settled(seen);
    if finish.Ok? {
      ApplyEventsKeepsSettled(seen, finish.value, |finish.value|);
      ExitedStays(seen, finish.value, |finish.value|);
    }
  }

  lemma {:induction false} ExitedStays(op: Login, events: seq<Parser.Event>, n: nat)
    requires op.exited && n <= |events|
    ensures ApplyEvents(op, events, n).exited
  {
    if n > 0 {
      ExitedStays(op, events, n - 1);
    }
  }

  /** Whatever happens to a login, it never becomes terminal with its child left running. */
  lemma HandleKeepsSettled(op: Login, c: Callback)
    requires Settled(op)
    ensures Settled(Handle(op, c)) && (op.terminal ==> Handle(op, c).terminal)
  {
    match c
    case Chunk(parsed) =>
      if parsed.Ok? {
        ApplyEventsKeepsSettled(op, parsed.value, |parsed.value|);
      }
    case OutputEnd(truncated, finish) => OutputEndKeepsSettled(op, truncated, finish);
    case Done(outcome, finish) => DoneKeepsSettled(op, outcome, finish);
    case _ =>
  }

  /** No callback changes the state of a login that is terminal when it runs. */
  lemma TerminalIsFrozen(op: Login, c: Callback)
    requires op.terminal
    ensures Handle(op, c).state == op.state && Handle(op, c).details == op.details
  {
  }

  // ------------------------------------------------------- a success marker before ready

  /// A batch of events with the success marker first and ready after it.
  predicate SuccessBeforeReady(events: seq<Parser.Event>) {
    events != [] && events[0] == Parser.State(Parser.TerminalState.Success) && Parser.HasReady(events)
  }

  /// A terminal login reports a state that is terminal.
  predicate Honest(op: Login) {
    op.terminal ==> IsTerminalState(op.state)
  }

  lemma {:induction false} OnceSettledStaysHonest(op: Login, events: seq<Parser.Event>, n: nat)
    requires op.readySettled && Honest(op) && n <= |events|
    ensures ApplyEvents(op, events, n).readySettled && Honest(ApplyEvents(op, events, n))
    ensures op.terminal ==> ApplyEvents(op, events, n).terminal && ApplyEvents(op, events, n).state == op.state
  {
    if n > 0 {
      OnceSettledStaysHonest(op, events, n - 1);
    }
  }

  lemma {:induction false} FirstEventFirst(op: Login, events: seq<Parser.Event>, n: nat)
    requires 0 < n <= |events|
    ensures ApplyEvents(op, events, n) == ApplyEvents(ApplyEvent(op, events[0]), events[1..], n - 1)
  {
    if n > 1 {
      FirstEventFirst(op, events, n - 1);
    } else {
      assert ApplyEvents(op, events, 0) == op;
    }
  }

  /// After a success marker with ready still open, only ready makes a difference.
  lemma {:induction false} AfterEarlySuccess(op: Login, events: seq<Parser.Event>, n: nat)
    requires op.terminal && !op.readySettled && op.state == Success && n <= |events|
    ensures var r := ApplyEvents(op, events, n);
      r.terminal && r.successObserved == op.successObserved &&
      if exists i | 0 <= i < n :: events[i].Ready? then r.state == Pending && r.readySettled else r == op
  {
    if n > 0 {
      AfterEarlySuccess(op, events, n - 1);
    }
  }

  /** A batch leaves a terminal login with a state that is not terminal exactly when success came before ready. */
  lemma BatchHonestIff(op: Login, events: seq<Parser.Event>)
    requires !op.terminal
    ensures Honest(ApplyEvents(op, events, |events|)) <==> op.readySettled || !SuccessBeforeReady(events)
    ensures var r := ApplyEvents(op, events, |events|); !Honest(r) ==> r.readySettled && r.successObserved
  {
    if op.readySettled || events == [] {
      OnceSettledStaysHonestOrEmpty(op, events);
      return;
    }
    var first := ApplyEvent(op, events[0]);
    FirstEventFirst(op, events, |events|);
    if first.readySettled {
      OnceSettledStaysHonest(first, events[1..], |events| - 1);
      return;
    }
    AfterEarlySuccess(first, events[1..], |events| - 1);
    if Parser.HasReady(events) {
      var i :| 0 <= i < |events| && events[i].Ready?;
      assert events[1..][i - 1].Ready?;
    } else {
      forall i | 0 <= i < |events| - 1 ensures !events[1..][i].Ready? {
        assert events[1..][i] == events[i + 1];
      }
    }
  }

  lemma OnceSettledStaysHonestOrEmpty(op: Login, events: seq<Parser.Event>)
    requires !op.terminal && (op.readySettled || events == [])
    ensures Honest(ApplyEvents(op, events, |events|))
  {
    if op.readySettled {
      OnceSettledStaysHonest(op, events, |events|);
    }
  }

  /// The callback applies a batch in which success came before ready.
  predicate Misordered(op: Login, c: Callback) {
    && !op.terminal && !op.readySettled
    && match c
       case Chunk(Ok(events)) => SuccessBeforeReady(events)
       case OutputEnd(truncated, Ok(events)) => !truncated && SuccessBeforeReady(events)
       case _ => false
  }

  /**
   A login that becomes terminal reports a terminal state from then on, if and only if no batch had
   the success marker before ready; after such a batch it reports `pending` for good.
   */
  lemma HonestUnlessMisordered(op: Login, c: Callback)
    requires Honest(op)
    ensures Honest(Handle(op, c)) <==> !Misordered(op, c)
  {
    if op.terminal {
      TerminalIsFrozen(op, c);
      return;
    }
    match c
    case Chunk(Ok(events)) => BatchHonestIff(op, events); return;
    case OutputEnd(truncated, Ok(events)) => BatchHonestIff(op, events); return;
    case Done(outcome, Ok(events)) => BatchHonestIff(op.(terminating := true, exited := true), events); return;
    case _ =>
  }

  /** The shortest such batch. */
  lemma EarlySuccessStaysPending(details: Parser.Details, c: Callback)
    ensures var events := [Parser.State(Parser.TerminalState.Success), Parser.Ready(details)];
      var op := Handle(STARTED, Chunk(Parser.Ok(events)));
      op.terminal && op.state == Pending && Handle(op, c).state == Pending
  {
    var events := [Parser.State(Parser.TerminalState.Success), Parser.Ready(details)];
    assert ApplyEvents(STARTED, events, 1) == ApplyEvent(STARTED, events[0]);
  }

  // ------------------------------------------------------------------------------- whole runs

  /// A login after its first `n` callbacks.
  function After(callbacks: seq<Callback>, n: nat): Login
    requires n <= |callbacks|
  {
    if n == 0 then STARTED else Handle(After(callbacks, n - 1), callbacks[n - 1])
  }

  lemma {:induction false} SettledAfter(callbacks: seq<Callback>, i: nat, n: nat)
    requires i <= n <= |callbacks|
    ensures Settled(After(callbacks, n)) && (After(callbacks, i).terminal ==> After(callbacks, n).terminal)
    decreases n
  {
    if n == 0 {
      return;
    }
    SettledAfter(callbacks, if i < n then i else n - 1, n - 1);
    HandleKeepsSettled(After(callbacks, n - 1), callbacks[n - 1]);
  }

  /** Once a login is terminal, what it reports never changes. */
  lemma {:induction false} ReportedForGood(callbacks: seq<Callback>, i: nat, n: nat)
    requires i <= n <= |callbacks| && After(callbacks, i).terminal
    ensures After(callbacks, n).state == After(callbacks, i).state
    ensures After(callbacks, n).details == After(callbacks, i).details
    decreases n
  {
    if i < n {
      ReportedForGood(callbacks, i, n - 1);
      SettledAfter(callbacks, i, n - 1);
      TerminalIsFrozen(After(callbacks, n - 1), callbacks[n - 1]);
    }
  }

  /// A callback undoes the honesty of a login, and nothing restores it.
  lemma HonestStep(op: Login, c: Callback)
    ensures Honest(Handle(op, c)) <==> Honest(op) && !Misordered(op, c)
  {
    if Honest(op) {
      HonestUnlessMisordered(op, c);
    } else {
      TerminalIsFrozen(op, c);
      assert Handle(op, c).terminal;
    }
  }

  predicate MisorderedAt(callbacks: seq<Callback>, i: nat)
    requires i < |callbacks|
  {
    Misordered(After(callbacks, i), callbacks[i])
  }

  /**
   A login reports a terminal state whenever it is terminal if and only if no batch so far had success
   before ready.
   */
  lemma {:induction false} HonestRunIff(callbacks: seq<Callback>, n: nat)
    requires n <= |callbacks|
    ensures Honest(After(callbacks, n)) <==> forall i | 0 <= i < n :: !MisorderedAt(callbacks, i)
  {
    if n > 0 {
      HonestRunIff(callbacks, n - 1);
      HonestStep(After(callbacks, n - 1), callbacks[n - 1]);
      assert MisorderedAt(callbacks, n - 1) == Misordered(After(callbacks, n - 1), callbacks[n - 1]);
    }
  }

  // ----------------------------------------------------- a start that is never answered

  /// The login is over and its ready promise is still open, so `start` waits for it.
  predicate Unanswered(op: Login) {
    op.terminal && !op.readySettled
  }

  /// A success marker comes first in a batch without ready.
  predicate SuccessWithoutReady(events: seq<Parser.Event>) {
    events != [] && events[0] == Parser.State(Parser.TerminalState.Success) && !Parser.HasReady(events)
  }

  predicate Strands(op: Login, c: Callback) {
    && !op.terminal && !op.readySettled
    && match c
       case Chunk(Ok(events)) => SuccessWithoutReady(events)
       case OutputEnd(truncated, Ok(events)) => !truncated && SuccessWithoutReady(events)
       case Done(outcome, Ok(events)) => outcome == ExitedWithZero && SuccessWithoutReady(events)
       case _ => false
  }

  lemma {:induction false} SettledStays(op: Login, events: seq<Parser.Event>, n: nat)
    requires op.readySettled && n <= |events|
    ensures ApplyEvents(op, events, n).readySettled
  {
    if n > 0 {
      SettledStays(op, events, n - 1);
    }
  }

  lemma BatchStrandsIff(op: Login, events: seq<Parser.Event>)
    requires !op.terminal && !op.readySettled
    ensures Unanswered(ApplyEvents(op, events, |events|)) <==> SuccessWithoutReady(events)
    ensures ApplyEvents(op, events, |events|).readySettled || ApplyEvents(op, events, |events|).terminal || events == []
  {
    if events == [] {
      return;
    }
    var first := ApplyEvent(op, events[0]);
    FirstEventFirst(op, events, |events|);
    if first.readySettled {
      SettledStays(first, events[1..], |events| - 1);
      return;
    }
    AfterEarlySuccess(first, events[1..], |events| - 1);
    if Parser.HasReady(events) {
      var i :| 0 <= i < |events| && events[i].Ready?;
      assert events[1..][i - 1].Ready?;
    } else {
      forall i | 0 <= i < |events| - 1 ensures !events[1..][i].Ready? {
        assert events[1..][i] == events[i + 1];
      }
    }
  }

  lemma BatchAnswered(op: Login, events: seq<Parser.Event>)
    requires !op.terminal && op.readySettled
    ensures ApplyEvents(op, events, |events|).readySettled
  {
    SettledStays(op, events, |events|);
  }

  /** A callback leaves a login over with its start unanswered exactly when its batch has success first and no ready. */
  lemma StrandedIff(op: Login, c: Callback)
    ensures Unanswered(Handle(op, c)) <==> Unanswered(op) || Strands(op, c)
  {
    if op.terminal {
      return;
    }
    match c
    case Chunk(Ok(events)) => BatchStrandsOrAnswered(op, events); return;
    case OutputEnd(truncated, Ok(events)) => BatchStrandsOrAnswered(op, events); return;
    case Done(outcome, Ok(events)) => BatchStrandsOrAnswered(op.(terminating := true, exited := true), events); return;
    case _ =>
  }

  lemma BatchStrandsOrAnswered(op: Login, events: seq<Parser.Event>)
    requires !op.terminal
    ensures if op.readySettled then ApplyEvents(op, events, |events|).readySettled
      else Unanswered(ApplyEvents(op, events, |events|)) <==> SuccessWithoutReady(events)
  {
    if op.readySettled {
      BatchAnswered(op, events);
    } else {
      BatchStrandsIff(op, events);
    }
  }

  predicate StrandedAt(callbacks: seq<Callback>, i: nat)
    requires i < |callbacks|
  {
    Strands(After(callbacks, i), callbacks[i])
  }

  /**
   Over a run, a login is over with its start still waiting if and only if some batch had the success
   marker first and no ready; no timer, exit or cancellation answers that start afterwards.
   */
  lemma {:induction false} UnansweredRunIff(callbacks: seq<Callback>, n: nat)
    requires n <= |callbacks|
    ensures Unanswered(After(callbacks, n)) <==> exists i | 0 <= i < n :: StrandedAt(callbacks, i)
  {
    if n > 0 {
      UnansweredRunIff(callbacks, n - 1);
      StrandedIff(After(callbacks, n - 1), callbacks[n - 1]);
      assert StrandedAt(callbacks, n - 1) == Strands(After(callbacks, n - 1), callbacks[n - 1]);
    }
  }

  // ------------------------------------------------------------------------------ the classes

  class Operation {
    const operationId: string
    var state: LoginState
    var details: Option<Parser.Details>
    var terminal: bool
    var readySettled: bool
    var successObserved: bool
    var terminating: bool
    ghost var terminateCalls: nat
    ghost var exited: bool

    ghost function View(): Login
      reads this
    {
      Login(state, details, terminal, readySettled, successObserved, terminating, terminateCalls, exited)
    }

    constructor (operationId: string)
      ensures View() == STARTED && this.operationId == operationId
    {
      this.operationId := operationId;
      state, details, terminal, readySettled := Starting, None, false, false;
      successObserved, terminating, terminateCalls, exited := false, false, 0, false;
    }

    method TerminateAndWait()
      modifies this
      ensures View() == Terminate(old(View()))
    {
      if !terminating {
        terminating, terminateCalls := true, terminateCalls + 1;
      }
    }

    method FailOperation(failure: LoginState)
      modifies this
      ensures View() == Fail(old(View()), failure)
    {
      if !terminal {
        state, terminal, readySettled := failure, true, true;
        TerminateAndWait();
      }
    }

    method CancelOperation()
      modifies this
      ensures View() == Cancel(old(View()))
    {
      if !terminal {
        state, terminal, readySettled := Cancelled, true, true;
        TerminateAndWait();
      }
    }

    method ApplyParserEvent(e: Parser.Event)
      modifies this
      ensures View() == ApplyEvent(old(View()), e)
    {
      match e
      case Ready(found) =>
        if !readySettled {
          details, state, readySettled := Some(found), Pending, true;
        }
      case State(marker) =>
        if !terminal {
          state, terminal := StateOf(marker), true;
          if marker == Parser.TerminalState.Success {
            successObserved := true;
          } else {
            readySettled := true;
          }
          TerminateAndWait();
        }
    }

    method ApplyParserEvents(events: seq<Parser.Event>)
      modifies this
      ensures View() == ApplyEvents(old(View()), events, |events|)
    {
      for i := 0 to |events|
        invariant View() == ApplyEvents(old(View()), events, i)
      {
        ApplyParserEvent(events[i]);
      }
    }

    method ConsumeChunk(parsed: Parser.Result<seq<Parser.Event>>)
      modifies this
      ensures View() == OnChunk(old(View()), parsed)
    {
      if terminal {
        return;
      }
      match parsed
      case Thrown => FailOperation(Failed);
      case Ok(events) => ApplyParserEvents(events);
    }

    method ConsumeEnd(truncated: bool, finish: Parser.Result<seq<Parser.Event>>)
      modifies this
      ensures View() == OnOutputEnd(old(View()), truncated, finish)
    {
      if terminal {
        return;
      }
      if truncated || finish.Thrown? {
        FailOperation(Failed);
        return;
      }
      ApplyParserEvents(finish.value);
      if !terminal && !readySettled {
        FailOperation(Failed);
      }
    }

    method MonitorDone(outcome: Outcome, finish: Parser.Result<seq<Parser.Event>>)
      modifies this
      ensures View() == OnDone(old(View()), outcome, finish)
    {
      terminating, exited := true, true;
      if terminal {
        return;
      }
      if outcome != ExitedWithZero {
        FailOperation(Failed);
        return;
      }
      if !readySettled {
        if finish.Thrown? {
          FailOperation(Failed);
          return;
        }
        ApplyParserEvents(finish.value);
      }
      if !readySettled || !successObserved {
        FailOperation(Failed);
        return;
      }
      state, terminal := Success, true;
    }

    /// The callbacks of an operation, each with its handler.
    method React(c: Callback)
      modifies this
      ensures View() == Handle(old(View()), c)
    {
      match c
      case Chunk(parsed) => ConsumeChunk(parsed);
      case OutputEnd(truncated, finish) => ConsumeEnd(truncated, finish);
      case Done(outcome, finish) => MonitorDone(outcome, finish);
      case ReadyAwaited =>
        if !terminal {
          state := Pending;
        }
      case TimerFires(expired) => FailOperation(if expired then Expired else TimedOut);
      case CancelCalled => CancelOperation();
    }
  }

  datatype StartResult = StartedLogin(op: Operation) | AlreadyActive | SpawnFailed | ManagerDisposed

  class CodexDeviceLoginManager {
    var operation: Operation?
    var disposed: bool
    ghost var all: seq<Operation>

    /// Every operation but the current one is over, and none has left its child running.
    ghost predicate Valid()
      reads this, all
    {
      && (forall i, j | 0 <= i < j < |all| :: all[i] != all[j])
      && (forall i | 0 <= i < |all| :: Settled(all[i].View()))
      && (forall i | 0 <= i < |all| - 1 :: all[i].terminal)
      && (if all == [] then operation == null else operation == all[|all| - 1])
      && (disposed && operation != null ==> operation.terminal)
    }

    constructor ()
      ensures Valid() && all == [] && !disposed
    {
      operation, disposed, all := null, false, [];
    }

    /** `start` up to its await. */
    method Start(operationId: string, spawns: bool, hasOutput: bool) returns (result: StartResult)
      requires Valid()
      modifies this
      ensures Valid() && disposed == old(disposed)
      ensures result == ManagerDisposed <==> disposed
      ensures result == AlreadyActive <==> !disposed && old(operation) != null && !old(operation.terminal)
      ensures result.StartedLogin? ==> fresh(result.op) && all == old(all) + [result.op] && operation == result.op
      ensures result.StartedLogin? ==> result.op.View() == if hasOutput then STARTED else Fail(STARTED, Failed)
      ensures !result.StartedLogin? ==> all == old(all) && operation == old(operation)
    {
      if disposed {
        return ManagerDisposed;
      }
      if operation != null && !operation.terminal {
        return AlreadyActive;
      }
      if !spawns {
        return SpawnFailed;
      }
      var op := new Operation(operationId);
      operation := op;
      all := all + [op];
      if !hasOutput {
        op.FailOperation(Failed);
      }
      result := StartedLogin(op);
    }

    /** A callback of any operation started so far, the current one or an earlier one. */
    method Deliver(op: Operation, c: Callback)
      requires Valid() && op in all
      modifies op
      ensures Valid() && op.View() == Handle(old(op.View()), c)
    {
      HandleKeepsSettled(op.View(), c);
      op.React(c);
    }

    /** `dispose` up to its await: nothing can be started any more. */
    method Dispose()
      requires Valid()
      modifies this, all
      ensures Valid() && disposed && all == old(all) && operation == old(operation)
      ensures !old(disposed) && operation != null ==> operation.View() == Terminate(Cancel(old(operation.View())))
    {
      if disposed {
        return;
      }
      disposed := true;
      if operation != null {
        HandleKeepsSettled(operation.View(), CancelCalled);
        operation.CancelOperation();
        operation.TerminateAndWait();
      }
    }

    /** At most one child is running: that of the current operation, and only while it is not over. */
    lemma OneChildAtMost(op: Operation)
      requires Valid() && op in all && Live(op.View())
      ensures op == operation && !op.terminal && !disposed
    {
    }
  }
}
