/**
 How starts and stops of the managed runtime end: a start is ready exactly when everything it waited for went
 well and nothing came in between, a stop that is not waiting for a start gets to its end, and the exit of
 the current child is what moves a running state to `failed`.
 */
module RuntimeOutcomes {
  import opened Basics
  import opened Runtime

  // ------------------------------------------------------------------- what a start waits for

  /// The event is the one that the start in progress waits for.
  predicate Takes(s: System, e: Event) {
    match e
    case Prepare(_) => s.start == Preparing
    case Probe(_) => s.start == Probing
    case Write(_, _) => s.start == Writing
    case ProbeReadiness(_, _) => s.start == ReadinessProbe
    case Race(_, _) => s.start == ReadinessRace
    case _ => false
  }

  /// It lets the start go on: the port is free, the child is up or may still come up in time.
  predicate Passes(e: Event) {
    match e
    case Prepare(ok) => ok
    case Probe(free) => free
    case Write(ok, timeLeft) => ok && timeLeft
    case ProbeReadiness(result, timeLeft) => result == Healthy || (result == NotYet && timeLeft)
    case Race(childExited, timeLeft) => !childExited && timeLeft
    case _ => true
  }

  /// What the start waits for next, after an event that passed.
  function NextPhase(e: Event): StartPhase {
    match e
    case Prepare(_) => Probing
    case Probe(_) => Writing
    case Write(_, _) => ReadinessProbe
    case ProbeReadiness(result, _) => if result == Healthy then ReadinessReturned else ReadinessRace
    case _ => ReadinessProbe
  }

  /// The exit of the current child is noticed.
  predicate SeesExit(s: System, e: Event) {
    match e
    case NoticeExit(c) => c < |s.children| && s.children[c].exited && !s.children[c].noticed && s.handle == Some(c)
    case _ => false
  }

  predicate Fails(p: StartPhase) {
    p == ReadinessThrew || p == FailTerminating || p == FailReleasing || p == FailRemoving
  }

  predicate InProgress(p: StartPhase) {
    p != NoStart && p != Settled
  }

  /// `startManaged` goes on after readiness has returned or thrown.
  predicate Decides(s: System, e: Event) {
    e == ContinueReadiness && (s.start == ReadinessReturned || s.start == ReadinessThrew)
  }

  // -------------------------------------------------------------------- a start, from its call

  /// Event `a` starts the runtime, and the start is still undecided before event `n`.
  ghost predicate Starts(runs: seq<System>, events: seq<Event>, a: nat, n: nat) {
    && Run(runs, events) && a < n <= |events| && events[a] == CallStart && Startable(runs[a])
    && (forall i | a < i <= n :: InProgress(runs[i].start))
    && (forall i | a < i < n :: !Decides(runs[i], events[i]))
  }

  /// Nothing has come between the start and its being ready: no stop, and no exit of its child.
  ghost predicate Undisturbed(runs: seq<System>, events: seq<Event>, a: nat, n: nat)
    requires a < n <= |events| < |runs|
  {
    forall i | a < i < n :: events[i] != CallStop && !SeesExit(runs[i], events[i])
  }

  /// A stop was called while the runtime was starting.
  ghost predicate StopAsked(runs: seq<System>, events: seq<Event>, a: nat, n: nat)
    requires a < n <= |events| < |runs|
  {
    exists i | a < i < n :: events[i] == CallStop && runs[i].state == Starting
  }

  /// Everything the start waited for so far passed, and no stop had been asked for by then.
  ghost predicate AllPassed(runs: seq<System>, events: seq<Event>, a: nat, n: nat)
    requires a < n <= |events| < |runs|
  {
    forall i | a < i < n && Takes(runs[i], events[i]) :: Passes(events[i]) && !StopAsked(runs, events, a, i)
  }

  /// What the start waits for after the last event that it waited for.
  ghost function Reached(runs: seq<System>, events: seq<Event>, a: nat, n: nat): StartPhase
    requires a < n <= |events| < |runs|
  {
    if n == a + 1 then Preparing
    else if Takes(runs[n - 1], events[n - 1]) then NextPhase(events[n - 1])
    else Reached(runs, events, a, n - 1)
  }

  /// An unresolved stop waits for the start.
  ghost predicate StopsAwait(s: System) {
    forall i | 0 <= i < |s.stops| && s.stops[i].phase != Resolved ::
      s.stops[i].awaitsStart && (s.stops[i].phase == Joining || s.stops[i].phase == AwaitingStart)
  }

  /// What the history of a start says of the state.
  ghost predicate AsFollows(s: System, undisturbed: bool, asked: bool, passed: bool, reached: StartPhase) {
    && (s.state == Starting <==> undisturbed) && (s.stopRequested <==> asked)
    && (asked ==> StopsAwait(s) && s.state == Stopping) && (if passed then s.start == reached else Fails(s.start))
    && (reached == Preparing || reached == Probing || reached == Writing || InReadiness(reached))
    && reached != ReadinessThrew
  }

  // ----------------------------------------------------------------------------- one step

  lemma StateFollows(s: System, e: Event, undisturbed: bool)
    requires Good(s) && InProgress(s.start) && InProgress(Next(s, e).start) && !Decides(s, e)
    requires s.state == Starting <==> undisturbed
    ensures Next(s, e).state == Starting <==> undisturbed && e != CallStop && !SeesExit(s, e)
  {
    match e
    case CallStart => return;
    case CallStop => return;
    case Prepare(ok) => return;
    case Probe(free) => return;
    case Write(ok, timeLeft) => return;
    case ProbeReadiness(result, timeLeft) => return;
    case Race(childExited, timeLeft) => return;
    case ContinueReadiness => return;
    case ContinueFail => return;
    case SettleStart => return;
    case ExitChild(c) => return;
    case NoticeExit(c) => return;
    case ContinueStop(i) => StopLeavesStarting(s, i); return;
    case EndDispose => return;
  }

  /// While the runtime is starting, no stop is unresolved; and a stop that goes on never makes it starting.
  lemma StopLeavesStarting(s: System, i: nat)
    requires Good(s)
    ensures s.state == Starting <==> StopContinues(s, i).state == Starting
  {
    if i < |s.stops| {
      assert StopOk(s, s.stops[i]);
    }
  }

  lemma StopRequestFollows(s: System, e: Event, asked: bool)
    requires Good(s) && InProgress(s.start) && InProgress(Next(s, e).start) && !Decides(s, e)
    requires (s.stopRequested <==> asked) && (asked ==> StopsAwait(s) && s.state == Stopping)
    ensures Next(s, e).stopRequested <==> asked || (e == CallStop && s.state == Starting)
    ensures Next(s, e).stopRequested ==> StopsAwait(Next(s, e)) && Next(s, e).state == Stopping
  {
    match e
    case CallStart => return;
    case CallStop => CallStopAwaits(s); return;
    case Prepare(ok) => return;
    case Probe(free) => return;
    case Write(ok, timeLeft) => return;
    case ProbeReadiness(result, timeLeft) => return;
    case Race(childExited, timeLeft) => return;
    case ContinueReadiness => return;
    case ContinueFail => return;
    case SettleStart => return;
    case ExitChild(c) => return;
    case NoticeExit(c) => return;
    case ContinueStop(i) => ContinueStopAwaits(s, i); return;
    case EndDispose => return;
  }

  lemma CallStopAwaits(s: System)
    requires Good(s) && InProgress(s.start) && (s.stopRequested ==> StopsAwait(s) && s.state == Stopping)
    ensures StopCalled(s).stopRequested <==> s.stopRequested || s.state == Starting
    ensures StopCalled(s).stopRequested ==> StopsAwait(StopCalled(s)) && StopCalled(s).state == Stopping
  {
    if s.state == Starting {
      forall i | 0 <= i < |s.stops| ensures s.stops[i].phase == Resolved {
        assert StopOk(s, s.stops[i]);
      }
    }
  }

  lemma ContinueStopAwaits(s: System, i: nat)
    requires Good(s) && InProgress(s.start) && (s.stopRequested ==> StopsAwait(s) && s.state == Stopping)
    ensures StopContinues(s, i).stopRequested <==> s.stopRequested
    ensures s.stopRequested ==> StopsAwait(StopContinues(s, i)) && StopContinues(s, i).state == Stopping
  {
    if i < |s.stops| && s.stopRequested {
      assert s.stops[i].phase != Resolved ==> s.stops[i].awaitsStart;
    }
  }

  lemma PhaseFollows(s: System, e: Event, asked: bool, passed: bool, reached: StartPhase)
    requires Good(s) && InProgress(s.start) && InProgress(Next(s, e).start) && !Decides(s, e)
    requires (s.stopRequested <==> asked) && if passed then s.start == reached else Fails(s.start)
    requires passed ==> !Fails(reached)
    ensures var passed' := passed && (Takes(s, e) ==> Passes(e) && !asked);
      if passed' then Next(s, e).start == if Takes(s, e) then NextPhase(e) else reached else Fails(Next(s, e).start)
  {
    match e
    case CallStart => return;
    case CallStop => return;
    case Prepare(ok) => return;
    case Probe(free) => return;
    case Write(ok, timeLeft) => return;
    case ProbeReadiness(result, timeLeft) => return;
    case Race(childExited, timeLeft) => return;
    case ContinueReadiness => return;
    case ContinueFail => return;
    case SettleStart => return;
    case ExitChild(c) => return;
    case NoticeExit(c) => return;
    case ContinueStop(i) => return;
    case EndDispose => return;
  }

  lemma StepFollows(s: System, e: Event, undisturbed: bool, asked: bool, passed: bool, reached: StartPhase)
    requires Good(s) && InProgress(s.start) && InProgress(Next(s, e).start) && !Decides(s, e)
    requires AsFollows(s, undisturbed, asked, passed, reached)
    ensures AsFollows(Next(s, e), undisturbed && e != CallStop && !SeesExit(s, e),
      asked || (e == CallStop && s.state == Starting),
      passed && (Takes(s, e) ==> Passes(e) && !asked), if Takes(s, e) then NextPhase(e) else reached)
  {
    StateFollows(s, e, undisturbed);
    StopRequestFollows(s, e, asked);
    PhaseFollows(s, e, asked, passed, reached);
  }

  // ---------------------------------------------------------------------------- whole starts

  lemma FirstFollows(s: System)
    requires Good(s) && Startable(s) && !Unresolved(s)
    ensures AsFollows(StartCalled(s), true, false, true, Preparing)
  {
  }

  lemma HistoryOneMore(runs: seq<System>, events: seq<Event>, a: nat, m: nat, n: nat)
    requires a < m < |events| < |runs| && n == m + 1
    ensures Undisturbed(runs, events, a, n) ==
      (Undisturbed(runs, events, a, m) && events[m] != CallStop && !SeesExit(runs[m], events[m]))
    ensures StopAsked(runs, events, a, n) ==
      (StopAsked(runs, events, a, m) || (events[m] == CallStop && runs[m].state == Starting))
    ensures AllPassed(runs, events, a, n) ==
      (AllPassed(runs, events, a, m) &&
        (Takes(runs[m], events[m]) ==> Passes(events[m]) && !StopAsked(runs, events, a, m)))
    ensures Reached(runs, events, a, n) ==
      if Takes(runs[m], events[m]) then NextPhase(events[m]) else Reached(runs, events, a, m)
  {
  }

  lemma StartsBefore(runs: seq<System>, events: seq<Event>, a: nat, n: nat)
    requires Starts(runs, events, a, n) && n > a + 1
    ensures Starts(runs, events, a, n - 1)
  {
  }

  /// What has followed from the history up to event `n`.
  ghost predicate Followed(runs: seq<System>, events: seq<Event>, a: nat, n: nat)
    requires a < n <= |events| < |runs|
  {
    AsFollows(runs[n], Undisturbed(runs, events, a, n), StopAsked(runs, events, a, n), AllPassed(runs, events, a, n),
      Reached(runs, events, a, n))
  }

  lemma CallFollows(runs: seq<System>, events: seq<Event>, a: nat)
    requires Starts(runs, events, a, a + 1)
    ensures Followed(runs, events, a, a + 1)
  {
    GoodThroughout(runs, events, a);
    assert runs[a + 1] == Next(runs[a], events[a]);
    FirstFollows(runs[a]);
  }

  /// The start stays undecided over the step to event `n`.
  predicate Undecided(s: System, e: Event) {
    InProgress(s.start) && InProgress(Next(s, e).start) && !Decides(s, e)
  }

  lemma StartsStep(runs: seq<System>, events: seq<Event>, a: nat, m: nat, n: nat)
    requires Starts(runs, events, a, n) && a < m && n == m + 1
    ensures Good(runs[m]) && runs[n] == Next(runs[m], events[m]) && Undecided(runs[m], events[m])
  {
    GoodThroughout(runs, events, m);
  }

  lemma NextFollows(runs: seq<System>, events: seq<Event>, a: nat, m: nat, n: nat)
    requires a < m < |events| < |runs| && n == m + 1 && Followed(runs, events, a, m)
    requires Good(runs[m]) && runs[n] == Next(runs[m], events[m]) && Undecided(runs[m], events[m])
    ensures Followed(runs, events, a, n)
  {
    HistoryOneMore(runs, events, a, m, n);
    StepFollows(runs[m], events[m], Undisturbed(runs, events, a, m), StopAsked(runs, events, a, m),
      AllPassed(runs, events, a, m), Reached(runs, events, a, m));
  }

  lemma {:induction false} StartFollows(runs: seq<System>, events: seq<Event>, a: nat, n: nat)
    requires Starts(runs, events, a, n)
    ensures Followed(runs, events, a, n)
    decreases n
  {
    if n > a + 1 {
      var m := n - 1;
      StartsBefore(runs, events, a, n);
      StartFollows(runs, events, a, m);
      StartsStep(runs, events, a, m, n);
      NextFollows(runs, events, a, m, n);
      return;
    }
    CallFollows(runs, events, a);
  }

  /**
   Where a start has got to: if everything it waited for passed and no stop had been asked for, it waits for
   what comes next; otherwise it is failing.
   */
  lemma StartProgress(runs: seq<System>, events: seq<Event>, a: nat, n: nat)
    requires Starts(runs, events, a, n)
    ensures if AllPassed(runs, events, a, n) then runs[n].start == Reached(runs, events, a, n) else Fails(runs[n].start)
  {
    StartFollows(runs, events, a, n);
  }

  lemma Decided(s: System)
    requires Good(s) && InProgress(s.start)
    ensures ReadinessContinues(s).start == Settled && ReadinessContinues(s).state == Ready <==>
      s.start == ReadinessReturned && s.state == Starting
    ensures s.start == ReadinessReturned && s.state == Starting ==>
      ReadinessContinues(s) == s.(state := Ready, start := Settled)
  {
  }

  /**
   A start settles as ready if and only if everything it waited for passed, its last probe was healthy, and
   neither a stop was called nor the exit of its child noticed before it went on. Its child is kept.
   */
  lemma StartSettlesReadyIff(runs: seq<System>, events: seq<Event>, a: nat, n: nat)
    requires n < |events| && Starts(runs, events, a, n) && events[n] == ContinueReadiness
    ensures runs[n + 1].start == Settled && runs[n + 1].state == Ready <==>
      && AllPassed(runs, events, a, n) && Reached(runs, events, a, n) == ReadinessReturned
      && Undisturbed(runs, events, a, n)
    ensures runs[n + 1].start == Settled && runs[n + 1].state == Ready ==>
      runs[n + 1].handle == runs[n].handle && runs[n + 1].children == runs[n].children
  {
    StartFollows(runs, events, a, n);
    GoodThroughout(runs, events, n);
    assert runs[n + 1] == Next(runs[n], events[n]);
    Decided(runs[n]);
  }

  /**
   In readiness, while starting and with no stop requested, a healthy probe makes the runtime ready with
   its child.
   */
  lemma HealthyProbeMakesReady(s: System, timeLeft: bool)
    requires Good(s) && s.start == ReadinessProbe && s.state == Starting && !s.stopRequested
    ensures ReadinessContinues(ReadinessProbed(s, Healthy, timeLeft)) == s.(state := Ready, start := Settled)
  {
  }

  // ------------------------------------------------------------------ how a failing start ends

  /// The steps that a failing start still takes.
  function StepsToFail(p: StartPhase): nat {
    match p
    case FailTerminating => 3
    case FailReleasing => 2
    case FailRemoving => 1
    case _ => 0
  }

  function FailedState(s: System): RuntimeState {
    if s.stopRequested then if s.state == Stopping then Stopped else s.state
    else if s.state == Starting || s.state == Stopping then Failed else s.state
  }

  lemma {:induction false} FailingRun(s: System, events: seq<Event>, n: nat)
    requires Good(s) && StepsToFail(s.start) > 0 && n <= |events| && n <= StepsToFail(s.start)
    requires forall i | 0 <= i < n :: events[i] == ContinueFail
    ensures var t := After(s, events, n);
      && t.children == s.children && t.stopRequested == s.stopRequested
      && t.state == (if n < StepsToFail(s.start) then s.state else FailedState(s))
      && t.start == (if n == StepsToFail(s.start) then Settled else if n == 0 then s.start
                     else if StepsToFail(s.start) - n == 2 then FailReleasing else FailRemoving)
      && t.handle == (if n == 0 then s.handle else None)
    decreases n
  {
    if n > 0 {
      FailingRun(s, events, n - 1);
    }
  }

  /** A failing start settles with no handle, as failed, or as stopped when a stop had been requested. */
  lemma FailingStartEnds(s: System, events: seq<Event>)
    requires Good(s) && StepsToFail(s.start) > 0 && |events| == StepsToFail(s.start)
    requires forall i | 0 <= i < |events| :: events[i] == ContinueFail
    ensures var t := After(s, events, |events|);
      t.start == Settled && t.handle == None && t.state == FailedState(s) && t.children == s.children
  {
    FailingRun(s, events, |events|);
  }

  /** Failing terminates the current child and no other. */
  lemma FailingTerminates(s: System)
    requires Good(s)
    ensures var t := FailManaged(s);
      && StepsToFail(t.start) > 0 && |t.children| == |s.children| && t.state == s.state
      && forall c | 0 <= c < |s.children| ::
           t.children[c] == s.children[c].(terminated := s.children[c].terminated || s.handle == Some(c))
  {
  }

  // --------------------------------------------------------------------- stops get to their end

  /// How many steps a stop still has to take.
  function StepsLeft(stop: Stop): nat {
    match stop.phase
    case Joining => if stop.awaitsStart then 4 else 3
    case AwaitingStart => 3
    case Releasing => 2
    case Removing => 1
    case Resolved => 0
  }

  /// The stop waits for the start in progress.
  predicate Blocked(s: System, i: nat) {
    i < |s.stops| && s.stops[i].phase == AwaitingStart && s.stops[i].awaitsStart && InProgress(s.start)
  }

  /** Every step of a stop takes it nearer to its end, unless it waits for a start in progress. */
  lemma StopAdvances(s: System, i: nat)
    requires Good(s) && i < |s.stops| && s.stops[i].phase != Resolved
    ensures var t := StopContinues(s, i);
      && |t.stops| == |s.stops| && (forall j | 0 <= j < |s.stops| && j != i :: t.stops[j] == s.stops[j])
      && StepsLeft(t.stops[i]) == (if Blocked(s, i) then StepsLeft(s.stops[i]) else StepsLeft(s.stops[i]) - 1)
      && t.start == s.start && t.children == s.children && (Blocked(s, i) ==> t == s)
    ensures StepsLeft(s.stops[i]) == 1 ==> StopContinues(s, i).state == Stopped && !StopContinues(s, i).stopRequested
  {
    assert StopOk(s, s.stops[i]);
  }

  lemma {:induction false} StopRun(s: System, i: nat, events: seq<Event>, n: nat)
    requires Good(s) && i < |s.stops| && !InProgress(s.start) && n <= |events| && n <= StepsLeft(s.stops[i])
    requires forall k | 0 <= k < n :: events[k] == ContinueStop(i)
    ensures var t := After(s, events, n);
      Good(t) && t.start == s.start && i < |t.stops| && StepsLeft(t.stops[i]) == StepsLeft(s.stops[i]) - n
    ensures n > 0 && n == StepsLeft(s.stops[i]) ==> After(s, events, n).state == Stopped
    decreases n
  {
    if n > 0 {
      StopRun(s, i, events, n - 1);
      var t := After(s, events, n - 1);
      StopAdvances(t, i);
      ContinueStopKeepsGood(t, i);
    }
  }

  /** With no start in progress, a stop that is left to go on resolves, and the runtime is stopped. */
  lemma StopResolves(s: System, i: nat, events: seq<Event>)
    requires Good(s) && i < |s.stops| && s.stops[i].phase != Resolved && !InProgress(s.start)
    requires |events| == StepsLeft(s.stops[i]) && forall k | 0 <= k < |events| :: events[k] == ContinueStop(i)
    ensures var t := After(s, events, |events|); i < |t.stops| && t.stops[i].phase == Resolved && t.state == Stopped
  {
    StopRun(s, i, events, |events|);
  }

  /**
   A stop that is called terminates the current child and no other; it is refused exactly when nothing
   is left to stop.
   */
  lemma StopBegins(s: System)
    requires Good(s)
    ensures StopCalled(s) == s <==> s.state == Disabled || s.state == Stopped || s.state == Stopping
    ensures StopCalled(s) != s ==> var t := StopCalled(s);
      && t.state == Stopping && |t.stops| == |s.stops| + 1 && |t.children| == |s.children|
      && t.stops[|s.stops|].awaitsStart == (s.state == Starting && s.start != NoStart)
      && (t.stopRequested <==> s.stopRequested || (s.state == Starting && s.start != NoStart))
      && forall c | 0 <= c < |s.children| ::
           t.children[c] == s.children[c].(terminated := s.children[c].terminated || s.handle == Some(c))
  {
  }

  /**
   The exit of a child is noticed once; that of the current child makes a starting or ready runtime
   fail, that of another changes nothing.
   */
  lemma NoticedExit(s: System, c: nat)
    requires Good(s) && c < |s.children| && s.children[c].exited && !s.children[c].noticed
    ensures var t := ExitNoticed(s, c);
      && t.children == s.children[c := s.children[c].(noticed := true)] && t.handle == s.handle && t.start == s.start
      && t.state == if s.handle == Some(c) && (s.state == Starting || s.state == Ready) then Failed else s.state
  {
  }
}
