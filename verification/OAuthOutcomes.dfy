/**
 How a device login ends, told from its callbacks alone: which callback makes it terminal, which state it
 reports from then on, and what it reports until then.
 */
module OAuthOutcomes {
  import opened Basics
  import Parser = OAuthParser
  import opened OAuthManager

  // ------------------------------------------------------------------- what a callback brings

  predicate AllReady(events: seq<Parser.Event>, n: nat)
    requires n <= |events|
  {
    forall i | 0 <= i < n :: events[i].Ready?
  }

  predicate MarksAt(events: seq<Parser.Event>, i: nat, m: Parser.TerminalState) {
    i < |events| && events[i] == Parser.State(m) && AllReady(events, i)
  }

  /// The first marker among the events is `m`.
  predicate Marks(events: seq<Parser.Event>, m: Parser.TerminalState) {
    exists i | 0 <= i < |events| :: MarksAt(events, i, m)
  }

  /// The events that a callback applies, where `ready` says that a ready has been seen before.
  function Batch(c: Callback, ready: bool): Option<seq<Parser.Event>> {
    match c
    case Chunk(Ok(events)) => Some(events)
    case OutputEnd(truncated, Ok(events)) => if truncated then None else Some(events)
    case Done(outcome, Ok(events)) => if outcome == ExitedWithZero && !ready then Some(events) else None
    case _ => None
  }

  predicate Tells(c: Callback, ready: bool, m: Parser.TerminalState) {
    Batch(c, ready).Some? && Marks(Batch(c, ready).value, m)
  }

  /// The output or the child is at its end, or broken, and has told nothing that the login could go on with.
  predicate Lost(c: Callback, ready: bool) {
    match c
    case Chunk(parsed) => parsed.Thrown?
    case OutputEnd(truncated, finish) => truncated || finish.Thrown? || (!ready && finish.value == [])
    case Done(outcome, finish) =>
      outcome != ExitedWithZero || ready || finish.Thrown? || AllReady(finish.value, |finish.value|)
    case _ => false
  }

  predicate Ends(c: Callback, ready: bool) {
    c.TimerFires? || c.CancelCalled? || Lost(c, ready) || exists m :: Tells(c, ready, m)
  }

  /// The success marker came before ready, in a batch that is not that of the child's exit.
  predicate Misplaced(c: Callback, ready: bool) {
    !ready && !c.Done? && Batch(c, ready).Some? && SuccessBeforeReady(Batch(c, ready).value)
  }

  /// What a login reports that the callback has ended.
  ghost predicate Reported(state: LoginState, c: Callback, ready: bool) {
    && (state == LoginState.Success <==> Tells(c, ready, Parser.TerminalState.Success) && !Misplaced(c, ready))
    && (state == LoginState.Denied <==> Tells(c, ready, Parser.TerminalState.Denied))
    && (state == LoginState.Expired <==> (c.TimerFires? && c.expired) || Tells(c, ready, Parser.TerminalState.Expired))
    && (state == LoginState.TimedOut <==> c.TimerFires? && !c.expired)
    && (state == LoginState.Cancelled <==> c.CancelCalled? || Tells(c, ready, Parser.TerminalState.Cancelled))
    && (state == LoginState.Failed <==> Lost(c, ready) || Tells(c, ready, Parser.TerminalState.Failed))
    && (state == LoginState.Pending <==> Misplaced(c, ready))
    && state != LoginState.Starting
  }

  // ----------------------------------------------------------------------- a batch of events

  /// Before any marker, the first ready is taken and the others are not.
  lemma {:induction false} BeforeMarker(op: Login, events: seq<Parser.Event>, n: nat)
    requires !op.terminal && n <= |events| && AllReady(events, n)
    ensures ApplyEvents(op, events, n) ==
      if op.readySettled || n == 0 then op
      else op.(details := Some(events[0].details), state := Pending, readySettled := true)
  {
    if n > 0 {
      BeforeMarker(op, events, n - 1);
    }
  }

  /// After the marker at `i`, only a ready that nobody answered yet makes a difference.
  lemma {:induction false} AfterMarker(op: Login, events: seq<Parser.Event>, i: nat, n: nat)
    requires !op.terminal && i < n <= |events| && AllReady(events, i) && events[i].State?
    ensures var r := ApplyEvents(op, events, n);
      && r.terminal && r.terminating
      && r.successObserved == (op.successObserved || events[i].state == Parser.TerminalState.Success)
      && if op.readySettled || i > 0 || events[0].state != Parser.TerminalState.Success
         then r.state == StateOf(events[i].state) && r.readySettled
         else if exists j | 0 <= j < n :: events[j].Ready? then r.state == Pending && r.readySettled
         else r.state == LoginState.Success && !r.readySettled
    decreases n
  {
    if n == i + 1 {
      BeforeMarker(op, events, i);
    } else {
      AfterMarker(op, events, i, n - 1);
    }
  }

  /// Either the events are all ready or one of them is the first marker.
  lemma {:induction false} FirstMarker(events: seq<Parser.Event>, n: nat) returns (i: nat)
    requires n <= |events|
    ensures i <= n && AllReady(events, i) && (i < n ==> events[i].State?)
  {
    if n == 0 {
      return 0;
    }
    i := FirstMarker(events, n - 1);
    if i == n - 1 && events[i].Ready? {
      i := n;
    }
  }

  /// `o` is the first marker among the events, if there is one.
  ghost predicate Marked(events: seq<Parser.Event>, o: Option<Parser.TerminalState>) {
    && (forall m :: Marks(events, m) <==> o == Some(m))
    && (AllReady(events, |events|) <==> o == None)
  }

  lemma MarkedAt(events: seq<Parser.Event>, i: nat)
    requires i <= |events| && AllReady(events, i) && (i < |events| ==> events[i].State?)
    ensures Marked(events, if i < |events| then Some(events[i].state) else None)
  {
    if i < |events| {
      assert MarksAt(events, i, events[i].state);
      forall m | Marks(events, m) ensures events[i].state == m {
        var j: nat :| j < |events| && MarksAt(events, j, m);
        assert !(i < j) && !(j < i);
      }
    }
  }

  /// What a batch of events does, `o` being its first marker.
  lemma BatchOutcome(op: Login, events: seq<Parser.Event>) returns (o: Option<Parser.TerminalState>)
    requires !op.terminal && !op.successObserved
    ensures Marked(events, o)
    ensures var r := ApplyEvents(op, events, |events|);
      match o
      case None => !r.terminal && !r.successObserved && r.readySettled == (op.readySettled || events != [])
      case Some(m) =>
        && r.terminal && (r.successObserved <==> m == Parser.TerminalState.Success)
        && if !op.readySettled && SuccessBeforeReady(events)
           then r.state == Pending && r.readySettled && r.successObserved else r.state == StateOf(m)
  {
    var i := FirstMarker(events, |events|);
    MarkedAt(events, i);
    if i == |events| {
      BeforeMarker(op, events, i);
      return None;
    }
    AfterMarker(op, events, i, |events|);
    return Some(events[i].state);
  }

  // -------------------------------------------------------------------------- one callback

  ghost predicate Ended(op: Login, c: Callback) {
    && (Handle(op, c).terminal <==> Ends(c, op.readySettled))
    && (Handle(op, c).terminal ==> Reported(Handle(op, c).state, c, op.readySettled))
  }

  /// The callback tells `o` and nothing else.
  ghost predicate Told(c: Callback, ready: bool, o: Option<Parser.TerminalState>) {
    forall m :: Tells(c, ready, m) <==> o == Some(m)
  }

  lemma MarkerReported(state: LoginState, c: Callback, ready: bool, m: Parser.TerminalState)
    requires Told(c, ready, Some(m)) && !Lost(c, ready) && Batch(c, ready).Some?
    requires state == if Misplaced(c, ready) then Pending else StateOf(m)
    ensures Ends(c, ready) && Reported(state, c, ready)
  {
    assert Tells(c, ready, m);
    if Misplaced(c, ready) {
      assert MarksAt(Batch(c, ready).value, 0, Parser.TerminalState.Success);
      assert Tells(c, ready, Parser.TerminalState.Success);
    }
  }

  lemma LossIsNotMisplaced(c: Callback, ready: bool)
    requires Lost(c, ready)
    ensures !Misplaced(c, ready) && !c.TimerFires? && !c.CancelCalled?
  {
  }

  lemma LossReported(c: Callback, ready: bool)
    requires Told(c, ready, None) && Lost(c, ready)
    ensures Ends(c, ready) && Reported(LoginState.Failed, c, ready)
  {
    LossIsNotMisplaced(c, ready);
    assert !Tells(c, ready, Parser.TerminalState.Success);
    assert !Tells(c, ready, Parser.TerminalState.Denied);
    assert !Tells(c, ready, Parser.TerminalState.Expired);
    assert !Tells(c, ready, Parser.TerminalState.Cancelled);
  }

  lemma NothingTold(c: Callback, ready: bool)
    requires Batch(c, ready) == None && !Lost(c, ready) && !c.TimerFires? && !c.CancelCalled?
    ensures !Ends(c, ready)
  {
  }

  lemma CallReported(c: Callback, ready: bool)
    requires c.TimerFires? || c.CancelCalled?
    ensures Ends(c, ready)
    ensures Reported(if c.CancelCalled? then Cancelled else if c.expired then Expired else TimedOut, c, ready)
  {
    assert !Lost(c, ready) && Batch(c, ready) == None;
  }

  lemma ChunkEnds(op: Login, parsed: Parser.Result<seq<Parser.Event>>)
    requires Settled(op) && !op.terminal
    ensures Ended(op, Chunk(parsed))
  {
    var c := Chunk(parsed);
    if parsed.Thrown? {
      LossReported(c, op.readySettled);
      return;
    }
    var o := BatchOutcome(op, parsed.value);
    assert Told(c, op.readySettled, o);
    if o.Some? {
      MarkerReported(Handle(op, c).state, c, op.readySettled, o.value);
    }
  }

  lemma OutputEnds(op: Login, truncated: bool, finish: Parser.Result<seq<Parser.Event>>)
    requires Settled(op) && !op.terminal
    ensures Ended(op, OutputEnd(truncated, finish))
  {
    var c := OutputEnd(truncated, finish);
    if truncated || finish.Thrown? {
      LossReported(c, op.readySettled);
      return;
    }
    var o := BatchOutcome(op, finish.value);
    assert Told(c, op.readySettled, o);
    if o.Some? {
      MarkerReported(Handle(op, c).state, c, op.readySettled, o.value);
      return;
    }
    if !op.readySettled && finish.value == [] {
      LossReported(c, op.readySettled);
      return;
    }
  }

  lemma ChildEnds(op: Login, outcome: Outcome, finish: Parser.Result<seq<Parser.Event>>)
    requires Settled(op) && !op.terminal
    ensures Ended(op, Done(outcome, finish))
  {
    var c := Done(outcome, finish);
    if outcome != ExitedWithZero || op.readySettled || finish.Thrown? {
      assert Batch(c, op.readySettled) == None;
      LossReported(c, op.readySettled);
      return;
    }
    var o := BatchOutcome(op.(terminating := true, exited := true), finish.value);
    assert Told(c, op.readySettled, o);
    if o.Some? {
      MarkerReported(Handle(op, c).state, c, op.readySettled, o.value);
      return;
    }
    LossReported(c, op.readySettled);
  }

  lemma CallbackEnds(op: Login, c: Callback)
    requires Settled(op) && !op.terminal
    ensures Ended(op, c)
  {
    match c
    case Chunk(parsed) => ChunkEnds(op, parsed); return;
    case OutputEnd(truncated, finish) => OutputEnds(op, truncated, finish); return;
    case Done(outcome, finish) => ChildEnds(op, outcome, finish); return;
    case ReadyAwaited => NothingTold(c, op.readySettled); return;
    case TimerFires(expired) => CallReported(c, op.readySettled); return;
    case CancelCalled => CallReported(c, op.readySettled); return;
  }

  // ------------------------------------------------------------------------------- whole runs

  predicate BringsReady(c: Callback) {
    Batch(c, true).Some? && Parser.HasReady(Batch(c, true).value)
  }

  predicate ReadySeen(callbacks: seq<Callback>, n: nat)
    requires n <= |callbacks|
  {
    exists i | 0 <= i < n :: BringsReady(callbacks[i])
  }

  /// Callback `k` would end a login that is not over.
  predicate EndsAt(callbacks: seq<Callback>, k: nat)
    requires k < |callbacks|
  {
    Ends(callbacks[k], ReadySeen(callbacks, k))
  }

  predicate Open(callbacks: seq<Callback>, n: nat)
    requires n <= |callbacks|
  {
    forall k | 0 <= k < n :: !EndsAt(callbacks, k)
  }

  /// The first details that the output has brought.
  function FirstDetails(callbacks: seq<Callback>, n: nat): Option<Parser.Details>
    requires n <= |callbacks|
  {
    if n == 0 then None
    else if ReadySeen(callbacks, n - 1) || !BringsReady(callbacks[n - 1]) then FirstDetails(callbacks, n - 1)
    else ReadyDetails(Batch(callbacks[n - 1], true).value)
  }

  function ReadyDetails(events: seq<Parser.Event>): Option<Parser.Details> {
    if events == [] then None
    else if events[0].Ready? then Some(events[0].details) else ReadyDetails(events[1..])
  }

  /// What a callback does that ends nothing.
  lemma GoesOn(op: Login, c: Callback)
    requires Settled(op) && !op.terminal && !Ends(c, op.readySettled)
    ensures Handle(op, c) ==
      if BringsReady(c) && !op.readySettled
      then op.(details := ReadyDetails(Batch(c, true).value), state := Pending, readySettled := true)
      else if c.ReadyAwaited? then op.(state := Pending) else op
  {
    CallbackEnds(op, c);
    match c
    case Chunk(parsed) => ReadyBatch(op, parsed.value); return;
    case OutputEnd(truncated, finish) => ReadyBatch(op, finish.value); return;
    case Done(outcome, finish) => DoneEnds(op, c); return;
    case ReadyAwaited => return;
    case TimerFires(expired) => return;
    case CancelCalled => return;
  }

  /// The child's exit ends every login.
  lemma DoneEnds(op: Login, c: Callback)
    requires Settled(op) && !op.terminal && c.Done?
    ensures Ends(c, op.readySettled)
  {
    CallbackEnds(op, c);
  }

  lemma ReadyBatch(op: Login, events: seq<Parser.Event>)
    requires Settled(op) && !op.terminal && !ApplyEvents(op, events, |events|).terminal
    ensures ApplyEvents(op, events, |events|) ==
      if op.readySettled || !Parser.HasReady(events) then op
      else op.(details := ReadyDetails(events), state := Pending, readySettled := true)
  {
    var i := FirstMarker(events, |events|);
    if i < |events| {
      AfterMarker(op, events, i, |events|);
      return;
    }
    BeforeMarker(op, events, |events|);
  }

  /// A login that nothing has ended yet.
  ghost predicate StillOpen(callbacks: seq<Callback>, n: nat)
    requires n <= |callbacks|
  {
    var op := After(callbacks, n);
    && Settled(op) && !op.terminal && op.readySettled == ReadySeen(callbacks, n)
    && op.details == FirstDetails(callbacks, n)
    && op.state == (if exists i | 0 <= i < n :: BringsReady(callbacks[i]) || callbacks[i].ReadyAwaited? then Pending
                    else LoginState.Starting)
  }

  lemma OneMoreOpen(callbacks: seq<Callback>, n: nat)
    requires n < |callbacks| && StillOpen(callbacks, n) && !EndsAt(callbacks, n)
    ensures StillOpen(callbacks, n + 1)
  {
    var op, c := After(callbacks, n), callbacks[n];
    GoesOn(op, c);
    HandleKeepsSettled(op, c);
    assert ReadySeen(callbacks, n + 1) == (ReadySeen(callbacks, n) || BringsReady(c));
  }

  /**
   Until a callback ends it, a login is pending from its first ready on, or from where its start goes on, and
   shows the details of the first ready.
   */
  lemma {:induction false} PendingFromReady(callbacks: seq<Callback>, n: nat)
    requires n <= |callbacks| && Open(callbacks, n)
    ensures StillOpen(callbacks, n)
  {
    if n > 0 {
      PendingFromReady(callbacks, n - 1);
      OneMoreOpen(callbacks, n - 1);
    }
  }

  lemma EndsOpen(callbacks: seq<Callback>, k: nat)
    requires k < |callbacks| && Open(callbacks, k)
    ensures After(callbacks, k + 1).terminal <==> EndsAt(callbacks, k)
    ensures EndsAt(callbacks, k) ==> Reported(After(callbacks, k + 1).state, callbacks[k], ReadySeen(callbacks, k))
  {
    PendingFromReady(callbacks, k);
    CallbackEnds(After(callbacks, k), callbacks[k]);
  }

  /**
   The first callback that ends a login decides what it reports from then on: `success` exactly when its
   events have the success marker first and in place, `expired` and `timed-out` for the timer, `cancelled`
   when asked, the state of the first marker otherwise, and `failed` when output or child broke off.
   */
  lemma DecidedByFirstEnd(callbacks: seq<Callback>, k: nat, n: nat)
    requires k < n <= |callbacks| && Open(callbacks, k) && EndsAt(callbacks, k)
    ensures After(callbacks, n).terminal
    ensures Reported(After(callbacks, n).state, callbacks[k], ReadySeen(callbacks, k))
  {
    EndsOpen(callbacks, k);
    SettledAfter(callbacks, k + 1, n);
    ReportedForGood(callbacks, k + 1, n);
  }

  /** A login is terminal if and only if some callback ended it. */
  lemma {:induction false} OverIff(callbacks: seq<Callback>, n: nat)
    requires n <= |callbacks|
    ensures After(callbacks, n).terminal <==> !Open(callbacks, n)
  {
    if n == 0 {
      return;
    }
    OverIff(callbacks, n - 1);
    if Open(callbacks, n - 1) {
      EndsOpen(callbacks, n - 1);
      return;
    }
    SettledAfter(callbacks, n - 1, n);
  }
}
