/**
 `GatewayRuntime` (runtime/src/index.ts) in managed mode: start, stop and the exit of a child
 interleave at every await. The code between two awaits is one step. Releasing the owner lock
 and removing the generated configuration are steps that succeed; all other I/O may fail.
 */
module Runtime {
  import opened Basics

  datatype RuntimeState = Disabled | Stopped | Starting | Ready | Degraded | Stopping | Failed

  /// `ALLOWED_TRANSITIONS`.
  function AllowedTransitions(s: RuntimeState): set<RuntimeState> {
    match s
    case Disabled => {Stopped}
    case Stopped => {Starting, Disabled}
    case Starting => {Ready, Degraded, Stopping, Failed}
    case Ready => {Degraded, Stopping, Failed}
    case Degraded => {Starting, Stopping, Stopped, Failed}
    case Stopping => {Stopped, Disabled, Failed}
    case Failed => {Starting, Stopping, Stopped, Disabled}
  }

  /// What `transition` leaves; where it throws, the state stays.
  function Transition(s: RuntimeState, next: RuntimeState): RuntimeState {
    if next in AllowedTransitions(s) then next else s
  }

  /// A spawned child; `noticed` once `monitorChild` has reacted to its exit.
  datatype Child = Child(terminated: bool, exited: bool, noticed: bool)

  /// The await that the start in progress has reached.
  datatype StartPhase =
    | NoStart
    | Preparing           // the installed release, the port, the owner lock
    | Probing             // whether the port is occupied
    | Writing             // credentials and the managed configuration
    | ReadinessProbe
    | ReadinessRace       // the child's exit against the interval
    | ReadinessReturned   // readiness was reported, `startManaged` has not gone on yet
    | ReadinessThrew
    | FailTerminating     // `failManaged` from here on
    | FailReleasing
    | FailRemoving
    | Settled             // the promise is settled, `start` has not cleared it yet

  /// `Resolved` once the promise is settled: rejected where the final transition throws.
  datatype StopPhase = Joining | AwaitingStart | Releasing | Removing | Resolved

  /// A call of `stop` that moved the state to `stopping`; `awaitsStart` while it awaits the start in progress.
  datatype Stop = Stop(phase: StopPhase, awaitsStart: bool)

  datatype System = System(
    state: RuntimeState,
    handle: Option<nat>,
    stopRequested: bool,
    start: StartPhase,
    children: seq<Child>,
    stops: seq<Stop>)

  predicate Live(c: Child) {
    !c.terminated && !c.exited
  }

  predicate BeforeSpawn(p: StartPhase) {
    p == Preparing || p == Probing || p == Writing
  }

  predicate InReadiness(p: StartPhase) {
    p == ReadinessProbe || p == ReadinessRace || p == ReadinessReturned || p == ReadinessThrew
  }

  // ------------------------------------------------------------------------------- steps

  /// `handle.terminate()` on the current child, if any.
  function TerminateChild(s: System): System {
    if s.handle.Some? && s.handle.value < |s.children| then
      s.(children := s.children[s.handle.value := s.children[s.handle.value].(terminated := true)])
    else s
  }

  /// None of the guards of `start` throws.
  predicate Startable(s: System) {
    s.state != Disabled && s.start == NoStart && s.state != Ready && s.state != Stopping
  }

  /// `start`. No earlier start is in progress, so whatever start a stop awaited has settled.
  function StartCalled(s: System): System {
    if !Startable(s) then s else
    s.(stopRequested := false, state := Transition(s.state, Starting), start := Preparing,
      stops := seq(|s.stops|, i requires 0 <= i < |s.stops| => s.stops[i].(awaitsStart := false)))
  }

  /// `failManaged` up to its first await.
  function FailManaged(s: System): System {
    if s.handle.Some? then TerminateChild(s).(start := FailTerminating) else s.(start := FailReleasing)
  }

  function Prepared(s: System, ok: bool): System {
    if s.start != Preparing then s
    else if !ok || s.stopRequested then FailManaged(s) else s.(start := Probing)
  }

  function Probed(s: System, free: bool): System {
    if s.start != Probing then s
    else if !free || s.stopRequested then FailManaged(s) else s.(start := Writing)
  }

  /// The configuration is written, the child is spawned, and `waitForReadiness` runs up to its first await.
  function Written(s: System, ok: bool, timeLeft: bool): System {
    if s.start != Writing then s
    else if !ok then FailManaged(s)
    else s.(children := s.children + [Child(false, false, false)], handle := Some(|s.children|),
      start := if !timeLeft || s.stopRequested then ReadinessThrew else ReadinessProbe)
  }

  datatype ProbeResult = Healthy | Hopeless | NotYet

  function ReadinessProbed(s: System, result: ProbeResult, timeLeft: bool): System {
    if s.start != ReadinessProbe then s
    else if s.stopRequested then s.(start := ReadinessThrew)
    else match result
      case Healthy => s.(start := ReadinessReturned)
      case Hopeless => s.(start := ReadinessThrew)
      case NotYet => s.(start := if timeLeft then ReadinessRace else ReadinessThrew)
  }

  function Raced(s: System, childExited: bool, timeLeft: bool): System {
    if s.start != ReadinessRace then s
    else s.(start := if childExited || !timeLeft || s.stopRequested then ReadinessThrew else ReadinessProbe)
  }

  /// `startManaged` goes on after `waitForReadiness`; where `transition('ready')` throws, it fails.
  function ReadinessContinues(s: System): System {
    if s.start == ReadinessReturned then
      if s.state == Ready || Ready in AllowedTransitions(s.state) then s.(state := Ready, start := Settled)
        else FailManaged(s)
    else if s.start == ReadinessThrew then FailManaged(s)
    else s
  }

  /// `failManaged` from one await to the next.
  function FailContinues(s: System): System {
    match s.start
    case FailTerminating => s.(handle := None, start := FailReleasing)
    case FailReleasing => s.(start := FailRemoving)
    case FailRemoving =>
      s.(start := Settled,
        state := if s.stopRequested then if s.state == Stopping then Stopped else s.state
          else Transition(s.state, Failed))
    case _ => s
  }

  function StartSettles(s: System): System {
    if s.start == Settled then s.(start := NoStart) else s
  }

  function ChildExits(s: System, c: nat): System {
    if c < |s.children| then s.(children := s.children[c := s.children[c].(exited := true)]) else s
  }

  /// The callback of `monitorChild`.
  function ExitNoticed(s: System, c: nat): System {
    if c >= |s.children| || !s.children[c].exited || s.children[c].noticed then s else
    var seen := s.(children := s.children[c := s.children[c].(noticed := true)]);
    if s.handle == Some(c) && (s.state == Starting || s.state == Ready || s.state == Degraded)
    then seen.(state := Transition(s.state, Failed)) else seen
  }

  /// `stop` up to its first await; it returns at once when there is nothing to stop or another stop is at it.
  function StopCalled(s: System): System {
    if s.state == Disabled || s.state == Stopped || s.state == Stopping then s else
    var awaits := s.state == Starting && s.start != NoStart;
    var stopping := TerminateChild(s.(stopRequested := s.stopRequested ||
      awaits, state := Transition(s.state, Stopping)));
    if s.handle.Some? then stopping.(stops := s.stops + [Stop(Joining, awaits)])
    else if awaits then stopping.(stops := s.stops + [Stop(AwaitingStart, awaits)])
    else stopping.(handle := None, stops := s.stops + [Stop(Releasing, awaits)])
  }

  /// `stop` from one await to the next.
  function StopContinues(s: System, i: nat): System {
    if i >= |s.stops| then s else
    var stop := s.stops[i];
    match stop.phase
    case Joining =>
      if stop.awaitsStart then s.(stops := s.stops[i := stop.(phase := AwaitingStart)])
      else s.(handle := None, stops := s.stops[i := stop.(phase := Releasing)])
    case AwaitingStart =>
      if stop.awaitsStart && s.start != NoStart && s.start != Settled then s
      else s.(handle := None, stops := s.stops[i := stop.(phase := Releasing)])
    case Releasing => s.(stops := s.stops[i := stop.(phase := Removing)])
    case Removing =>
      var resolved := s.(stops := s.stops[i := stop.(phase := Resolved)]);
      if s.state == Stopped || Stopped in AllowedTransitions(s.state)
        then resolved.(state := Stopped, stopRequested := false) else resolved
    case Resolved => s
  }

  /// `dispose` after its stop.
  function DisposeEnds(s: System): System {
    if s.state == Stopped then s.(state := Disabled) else s
  }

  datatype Event =
    | CallStart
    | CallStop
    | Prepare(ok: bool)
    | Probe(free: bool)
    | Write(ok: bool, timeLeft: bool)
    | ProbeReadiness(result: ProbeResult, timeLeft: bool)
    | Race(childExited: bool, timeLeft: bool)
    | ContinueReadiness
    | ContinueFail
    | SettleStart
    | ExitChild(child: nat)
    | NoticeExit(child: nat)
    | ContinueStop(stop: nat)
    | EndDispose

  function Next(s: System, e: Event): System {
    match e
    case CallStart => StartCalled(s)
    case CallStop => StopCalled(s)
    case Prepare(ok) => Prepared(s, ok)
    case Probe(free) => Probed(s, free)
    case Write(ok, timeLeft) => Written(s, ok, timeLeft)
    case ProbeReadiness(result, timeLeft) => ReadinessProbed(s, result, timeLeft)
    case Race(childExited, timeLeft) => Raced(s, childExited, timeLeft)
    case ContinueReadiness => ReadinessContinues(s)
    case ContinueFail => FailContinues(s)
    case SettleStart => StartSettles(s)
    case ExitChild(c) => ChildExits(s, c)
    case NoticeExit(c) => ExitNoticed(s, c)
    case ContinueStop(i) => StopContinues(s, i)
    case EndDispose => DisposeEnds(s)
  }

  predicate Unresolved(s: System) {
    exists i | 0 <= i < |s.stops| :: s.stops[i].phase != Resolved
  }

  const INITIAL := System(Stopped, None, false, NoStart, [], [])

  /// A run in which no start begins while a stop is unresolved.
  ghost predicate Run(runs: seq<System>, events: seq<Event>) {
    && |runs| == |events| + 1 && runs[0] == INITIAL
    && (forall i | 0 <= i < |events| :: runs[i + 1] == Next(runs[i], events[i]))
    && (forall i | 0 <= i < |events| && events[i] == CallStart :: !Unresolved(runs[i]))
  }

  // -------------------------------------------------------------------------- the invariant

  predicate HasLive(s: System) {
    exists c | 0 <= c < |s.children| :: Live(s.children[c])
  }

  /// Only the current child can be live, and only while its start waits for readiness or the runtime is ready.
  ghost predicate ChildrenOk(s: System) {
    && (s.handle.Some? ==> s.handle.value < |s.children|)
    && (forall c | 0 <= c < |s.children| && Live(s.children[c]) :: s.handle == Some(c))
    && (forall c | 0 <= c < |s.children| && s.children[c].noticed :: s.children[c].exited)
    && (HasLive(s) ==> InReadiness(s.start) || s.state == Ready)
  }

  /// Where the runtime is at rest or a start has not spawned yet, no exit is still to be noticed.
  ghost predicate HandleOk(s: System) {
    && (BeforeSpawn(s.start) || s.state == Stopped || s.state == Disabled || s.state == Failed ==>
          s.handle.Some? ==> s.handle.value < |s.children| && s.children[s.handle.value].noticed)
    && (s.start == FailReleasing || s.start == FailRemoving ==> s.handle == None)
  }

  ghost predicate StartOk(s: System) {
    && (BeforeSpawn(s.start) ==> !HasLive(s) && (s.state == Starting || s.state == Stopping))
    && (s.state == Starting ==> s.start != NoStart && s.start != Settled && !s.stopRequested)
    && (s.state == Ready ==> s.start == NoStart || s.start == Settled)
    && s.state != Degraded
  }

  /// A stop in progress keeps the state where it can be stopped, and goes past the start only when
  /// the start can no longer leave a live child.
  ghost predicate StopOk(s: System, stop: Stop) {
    stop.phase == Resolved ||
    (&& (s.state == Stopping || s.state == Stopped || s.state == Failed || s.state == Disabled)
     && (BeforeSpawn(s.start) || HasLive(s) ==>
       stop.awaitsStart && (stop.phase == Joining || stop.phase == AwaitingStart))
     && (stop.phase == Releasing || stop.phase == Removing ==> s.handle == None))
  }

  ghost predicate StopsOk(s: System) {
    forall i | 0 <= i < |s.stops| :: StopOk(s, s.stops[i])
  }

  ghost predicate Good(s: System) {
    ChildrenOk(s) && HandleOk(s) && StartOk(s) && StopsOk(s)
  }

  // ------------------------------------------------------------------- every step keeps it

  /// Terminating the current child leaves none live.
  lemma TerminateLeavesNone(s: System)
    requires ChildrenOk(s)
    ensures !HasLive(TerminateChild(s)) && ChildrenOk(TerminateChild(s))
  {
  }

  lemma FailManagedKeepsGood(s: System)
    requires Good(s) && s.state != Ready
    ensures Good(FailManaged(s)) && !HasLive(FailManaged(s))
  {
    TerminateLeavesNone(s);
  }

  lemma StartKeepsGood(s: System)
    requires Good(s) && !Unresolved(s)
    ensures Good(StartCalled(s))
  {
  }

  lemma BeforeSpawnStepsKeepGood(s: System, ok: bool)
    requires Good(s)
    ensures Good(Prepared(s, ok)) && Good(Probed(s, ok))
  {
    if BeforeSpawn(s.start) {
      FailManagedKeepsGood(s);
    }
  }

  lemma SpawnKeepsGood(s: System, timeLeft: bool)
    requires Good(s) && s.start == Writing
    ensures Good(Written(s, true, timeLeft))
  {
    var s' := Written(s, true, timeLeft);
    assert Live(s'.children[|s.children|]);
    assert forall c | 0 <= c < |s.children| :: s'.children[c] == s.children[c] && !Live(s.children[c]);
  }

  lemma WriteKeepsGood(s: System, ok: bool, timeLeft: bool)
    requires Good(s)
    ensures Good(Written(s, ok, timeLeft))
  {
    if s.start != Writing {
      return;
    }
    if ok {
      SpawnKeepsGood(s, timeLeft);
      return;
    }
    FailManagedKeepsGood(s);
  }

  lemma ReadinessKeepsGood(s: System, result: ProbeResult, childExited: bool, timeLeft: bool)
    requires Good(s)
    ensures Good(ReadinessProbed(s, result, timeLeft)) && Good(Raced(s, childExited, timeLeft))
  {
  }

  lemma ReadinessContinuesKeepsGood(s: System)
    requires Good(s)
    ensures Good(ReadinessContinues(s))
  {
    if s.start == ReadinessReturned && s.state == Starting {
      return;
    }
    if InReadiness(s.start) {
      FailManagedKeepsGood(s);
    }
  }

  lemma FailContinuesKeepsGood(s: System)
    requires Good(s)
    ensures Good(FailContinues(s))
  {
  }

  lemma ExitKeepsGood(s: System, c: nat)
    requires Good(s)
    ensures Good(ChildExits(s, c))
  {
    if c < |s.children| {
      var s' := ChildExits(s, c);
      forall i | 0 <= i < |s'.children| && Live(s'.children[i]) ensures Live(s.children[i]) {
      }
    }
  }

  lemma NoticeKeepsGood(s: System, c: nat)
    requires Good(s)
    ensures Good(ExitNoticed(s, c))
  {
    if c >= |s.children| || !s.children[c].exited || s.children[c].noticed {
      return;
    }
    var s' := ExitNoticed(s, c);
    forall i | 0 <= i < |s'.children| && Live(s'.children[i]) ensures Live(s.children[i]) {
    }
  }

  lemma StopKeepsGood(s: System)
    requires Good(s)
    ensures Good(StopCalled(s))
  {
    if s.state == Disabled || s.state == Stopped || s.state == Stopping {
      return;
    }
    TerminateLeavesNone(s);
    var s' := StopCalled(s);
    assert !HasLive(s');
    forall i | 0 <= i < |s'.stops| ensures StopOk(s', s'.stops[i]) {
      assert i < |s.stops| ==> StopOk(s, s.stops[i]);
    }
  }

  /// Past its joins a stop finds no live child that could be lost from sight.
  lemma StopReleases(s: System, i: nat)
    requires Good(s) && i < |s.stops| && s.stops[i].phase != Resolved && !(BeforeSpawn(s.start) || HasLive(s))
    ensures Good(s.(handle := None, stops := s.stops[i := s.stops[i].(phase := Releasing)]))
  {
    var s' := s.(handle := None, stops := s.stops[i := s.stops[i].(phase := Releasing)]);
    assert StopOk(s, s.stops[i]);
    forall j | 0 <= j < |s'.stops| ensures StopOk(s', s'.stops[j]) {
      assert StopOk(s, s.stops[j]);
    }
  }

  lemma StopMovesOn(s: System, i: nat, phase: StopPhase)
    requires Good(s) && i < |s.stops|
    requires (s.stops[i].phase == Joining && s.stops[i].awaitsStart && phase == AwaitingStart) ||
      (s.stops[i].phase == Releasing && phase == Removing)
    ensures Good(s.(stops := s.stops[i := s.stops[i].(phase := phase)]))
  {
    var s' := s.(stops := s.stops[i := s.stops[i].(phase := phase)]);
    assert StopOk(s, s.stops[i]);
    forall j | 0 <= j < |s'.stops| ensures StopOk(s', s'.stops[j]) {
      assert StopOk(s, s.stops[j]);
    }
  }

  /// The start that a stop awaited, if any, has settled without leaving a live child.
  lemma SettledStartIsHarmless(s: System, i: nat)
    requires Good(s) && i < |s.stops| && s.stops[i].phase != Resolved
    requires !s.stops[i].awaitsStart || s.start == NoStart || s.start == Settled
    ensures !(BeforeSpawn(s.start) || HasLive(s))
  {
    assert StopOk(s, s.stops[i]);
  }

  lemma StopEnds(s: System, i: nat)
    requires Good(s) && i < |s.stops| && s.stops[i].phase == Removing
    ensures Good(StopContinues(s, i))
    ensures StopContinues(s, i).state == Stopped && !HasLive(StopContinues(s, i))
    ensures !BeforeSpawn(StopContinues(s, i).start)
  {
    var s' := StopContinues(s, i);
    assert StopOk(s, s.stops[i]);
    assert s'.children == s.children;
    forall j | 0 <= j < |s'.stops| ensures StopOk(s', s'.stops[j]) {
      assert StopOk(s, s.stops[j]);
    }
  }

  lemma ContinueStopKeepsGood(s: System, i: nat)
    requires Good(s)
    ensures Good(StopContinues(s, i))
  {
    if i >= |s.stops| || s.stops[i].phase == Resolved {
      return;
    }
    assert StopOk(s, s.stops[i]);
    match s.stops[i].phase
    case Joining =>
      if s.stops[i].awaitsStart {
        StopMovesOn(s, i, AwaitingStart);
        return;
      }
      StopReleases(s, i);
    case AwaitingStart =>
      if !s.stops[i].awaitsStart || s.start == NoStart || s.start == Settled {
        SettledStartIsHarmless(s, i);
        StopReleases(s, i);
      }
    case Releasing => StopMovesOn(s, i, Removing);
    case Removing => StopEnds(s, i);
  }

  lemma NextKeepsGood(s: System, e: Event)
    requires Good(s) && (e == CallStart ==> !Unresolved(s))
    ensures Good(Next(s, e))
  {
    match e
    case CallStart => StartKeepsGood(s); return;
    case CallStop => StopKeepsGood(s); return;
    case Prepare(ok) => BeforeSpawnStepsKeepGood(s, ok); return;
    case Probe(free) => BeforeSpawnStepsKeepGood(s, free); return;
    case Write(ok, timeLeft) => WriteKeepsGood(s, ok, timeLeft); return;
    case ProbeReadiness(result, timeLeft) => ReadinessKeepsGood(s, result, false, timeLeft); return;
    case Race(childExited, timeLeft) => ReadinessKeepsGood(s, Healthy, childExited, timeLeft); return;
    case ContinueReadiness => ReadinessContinuesKeepsGood(s); return;
    case ContinueFail => FailContinuesKeepsGood(s); return;
    case SettleStart => return;
    case ExitChild(c) => ExitKeepsGood(s, c); return;
    case NoticeExit(c) => NoticeKeepsGood(s, c); return;
    case ContinueStop(i) => ContinueStopKeepsGood(s, i); return;
    case EndDispose => return;
  }

  lemma {:induction false} GoodThroughout(runs: seq<System>, events: seq<Event>, n: nat)
    requires Run(runs, events) && n < |runs|
    ensures Good(runs[n])
  {
    if n == 0 {
      return;
    }
    GoodThroughout(runs, events, n - 1);
    assert runs[n - 1 + 1] == Next(runs[n - 1], events[n - 1]);
    NextKeepsGood(runs[n - 1], events[n - 1]);
  }

  /** In every run at most one spawned child is neither exited nor terminated, and it is the current one. */
  lemma OneLiveChild(runs: seq<System>, events: seq<Event>, n: nat, c: nat)
    requires Run(runs, events) && n < |runs| && c < |runs[n].children| && Live(runs[n].children[c])
    ensures runs[n].handle == Some(c) && (InReadiness(runs[n].start) || runs[n].state == Ready)
    ensures forall d | 0 <= d < |runs[n].children| && Live(runs[n].children[d]) :: d == c
  {
    GoodThroughout(runs, events, n);
  }

  /**
   A stop that overlaps a start wins: when the stop that moved the state to `stopping` resolves, the
   runtime is stopped, no child is live and none is about to be spawned, whatever await the start
   had reached and whenever the child exited.
   */
  lemma StopWins(runs: seq<System>, events: seq<Event>, n: nat, i: nat)
    requires Run(runs, events) && n < |events| && events[n] == ContinueStop(i)
    requires i < |runs[n].stops| && runs[n].stops[i].phase == Removing
    ensures runs[n + 1].stops[i].phase == Resolved
    ensures runs[n + 1].state == Stopped && !HasLive(runs[n + 1]) && !BeforeSpawn(runs[n + 1].start)
  {
    GoodThroughout(runs, events, n);
    StopEnds(runs[n], i);
  }

  // ------------------------------------------------------ a start while a stop is unresolved

  function After(s: System, events: seq<Event>, n: nat): System
    requires n <= |events|
  {
    if n == 0 then s else Next(After(s, events, n - 1), events[n - 1])
  }

  /// The stop is about to resolve with the state `stopped`, and a child is live or about to be spawned.
  predicate Breaks(s: System, i: nat) {
    && i < |s.stops| && s.stops[i].phase == Removing
    && var t := StopContinues(s, i); t.state == Stopped && (HasLive(t) || BeforeSpawn(t.start))
  }

  lemma {:induction false} GoodAfter(s: System, events: seq<Event>, n: nat)
    requires Good(s) && n <= |events| && CallStart !in events
    ensures Good(After(s, events, n))
  {
    if n > 0 {
      GoodAfter(s, events, n - 1);
      NextKeepsGood(After(s, events, n - 1), events[n - 1]);
    }
  }

  /// A second stop, and then the first one up to its last step.
  function Overtaking(phase: StopPhase, i: nat): seq<Event> {
    match phase
    case Joining => [CallStop, ContinueStop(i), ContinueStop(i)]
    case AwaitingStart => [CallStop, ContinueStop(i), ContinueStop(i)]
    case Releasing => [CallStop, ContinueStop(i)]
    case Removing => [CallStop]
    case Resolved => []
  }

  lemma StoppedRightAfterStart(s: System)
    requires Good(s) && Startable(s) && Unresolved(s)
    ensures var t := StopCalled(StartCalled(s));
      && t.state == Stopping && t.start == Preparing && |t.stops| == |s.stops| + 1
      && forall i | 0 <= i < |s.stops| :: t.stops[i] == Stop(s.stops[i].phase, false)
  {
    var i :| 0 <= i < |s.stops| && s.stops[i].phase != Resolved;
    assert StopOk(s, s.stops[i]);
    var t := StartCalled(s);
    assert t.state == Starting && t.start == Preparing;
  }

  lemma OvertakingBreaks(s: System, i: nat)
    requires Good(s) && Startable(s) && i < |s.stops| && s.stops[i].phase != Resolved
    ensures var es := Overtaking(s.stops[i].phase, i); Breaks(After(StartCalled(s), es, |es|), i)
  {
    StoppedRightAfterStart(s);
    var es, t := Overtaking(s.stops[i].phase, i), StartCalled(s);
    assert After(t, es, 1) == StopCalled(t) by {
      assert After(t, es, 0) == t && es[0] == CallStop;
    }
    if |es| > 1 {
      assert After(t, es, 2) == StopContinues(StopCalled(t), i);
    }
    if |es| > 2 {
      assert After(t, es, 3) == StopContinues(StopContinues(StopCalled(t), i), i);
    }
  }

  lemma SafeStartNeverBreaks(s: System, events: seq<Event>, i: nat)
    requires Good(s) && !Unresolved(s) && CallStart !in events
    ensures !Breaks(After(StartCalled(s), events, |events|), i)
  {
    StartKeepsGood(s);
    var t := After(StartCalled(s), events, |events|);
    GoodAfter(StartCalled(s), events, |events|);
    if i < |t.stops| && t.stops[i].phase == Removing {
      StopEnds(t, i);
    }
  }

  lemma UnsafeStartIsBad(s: System)
    requires Startable(s) && Unresolved(s)
    ensures !Good(StartCalled(s))
  {
    var i :| 0 <= i < |s.stops| && s.stops[i].phase != Resolved;
    assert !StopOk(StartCalled(s), StartCalled(s).stops[i]);
  }

  lemma UnsafeStartCanBreak(s: System) returns (events: seq<Event>, i: nat)
    requires Good(s) && Startable(s) && Unresolved(s)
    ensures CallStart !in events && Breaks(After(StartCalled(s), events, |events|), i)
  {
    i :| 0 <= i < |s.stops| && s.stops[i].phase != Resolved;
    events := Overtaking(s.stops[i].phase, i);
    OvertakingBreaks(s, i);
  }

  /// Whatever happens next, short of another start, no stop resolves that way.
  ghost predicate NeverBreaks(s: System) {
    forall events, i | CallStart !in events :: !Breaks(After(s, events, |events|), i)
  }

  lemma SafeStart(s: System)
    requires Good(s) && !Unresolved(s)
    ensures NeverBreaks(StartCalled(s))
  {
    forall events, i | CallStart !in events ensures !Breaks(After(StartCalled(s), events, |events|), i) {
      SafeStartNeverBreaks(s, events, i);
    }
  }

  /**
   The hypothesis on runs is exact: where a start takes effect, no continuation can make a stop
   resolve as stopped with a child live or about to be spawned, if and only if no stop was unresolved.
   */
  lemma StartIsSafeIff(s: System)
    requires Good(s) && Startable(s)
    ensures NeverBreaks(StartCalled(s)) <==> !Unresolved(s)
    ensures Good(StartCalled(s)) <==> !Unresolved(s)
  {
    if Unresolved(s) {
      var events, i := UnsafeStartCanBreak(s);
      UnsafeStartIsBad(s);
      return;
    }
    StartKeepsGood(s);
    SafeStart(s);
  }

  /// The child exits, the start fails, and a stop is called while the start still cleans up.
  predicate LeadsToJoining(events: seq<Event>) {
    events == [CallStart, Prepare(true), Probe(true), Write(true, true), ExitChild(0), NoticeExit(0),
      ProbeReadiness(Hopeless, true), ContinueReadiness, CallStop, ContinueFail, ContinueFail, ContinueFail,
        SettleStart]
  }

  /// That stop still joins the exited child although the start is over.
  const JOINING := System(Failed, None, false, NoStart, [Child(true, true, true)], [Stop(Joining, false)])

  const RESTARTED := System(Starting, Some(1), false, ReadinessProbe,
    [Child(true, true, true), Child(false, false, false)], [Stop(Joining, false)])

  const STARTING := INITIAL.(state := Starting)
  const SPAWNED := STARTING.(handle := Some(0), children := [Child(false, false, false)])
  const FAILED := System(Failed, Some(0), false, ReadinessThrew, [Child(false, true, true)], [])
  const STOPPING := System(Stopping, Some(0), false, FailTerminating, [Child(true, true, true)], [Stop(Joining, false)])

  lemma StartSpawns()
    ensures Next(INITIAL, CallStart) == STARTING.(start := Preparing)
    ensures Next(STARTING.(start := Preparing), Prepare(true)) == STARTING.(start := Probing)
    ensures Next(STARTING.(start := Probing), Probe(true)) == STARTING.(start := Writing)
    ensures Next(STARTING.(start := Writing), Write(true, true)) == SPAWNED.(start := ReadinessProbe)
  {
    assert INITIAL.children + [Child(false, false, false)] == SPAWNED.children;
  }

  lemma SpawnedFails()
    ensures var exited := SPAWNED.(start := ReadinessProbe, children := [Child(false, true, false)]);
      && Next(SPAWNED.(start := ReadinessProbe), ExitChild(0)) == exited
      && Next(exited, NoticeExit(0)) == FAILED.(start := ReadinessProbe)
      && Next(FAILED.(start := ReadinessProbe), ProbeReadiness(Hopeless, true)) == FAILED
  {
  }

  lemma FailedIsStopped()
    ensures var failing := FAILED.(start := FailTerminating, children := [Child(true, true, true)]);
      Next(FAILED, ContinueReadiness) == failing && Next(failing, CallStop) == STOPPING
  {
    assert FAILED.stops + [Stop(Joining, false)] == [Stop(Joining, false)];
  }

  lemma StoppingFails()
    ensures Next(STOPPING, ContinueFail) == STOPPING.(handle := None, start := FailReleasing)
    ensures Next(STOPPING.(handle := None, start := FailReleasing), ContinueFail) ==
      STOPPING.(handle := None, start := FailRemoving)
    ensures Next(STOPPING.(handle := None, start := FailRemoving), ContinueFail) == JOINING.(start := Settled)
    ensures Next(JOINING.(start := Settled), SettleStart) == JOINING
  {
  }

  lemma SpawnedAfterFour(events: seq<Event>)
    requires LeadsToJoining(events)
    ensures After(INITIAL, events, 4) == SPAWNED.(start := ReadinessProbe)
  {
    StartSpawns();
    assert After(INITIAL, events, 1) == STARTING.(start := Preparing);
    assert After(INITIAL, events, 2) == STARTING.(start := Probing);
    assert After(INITIAL, events, 3) == STARTING.(start := Writing);
  }

  lemma FailedAfterSeven(events: seq<Event>)
    requires LeadsToJoining(events)
    ensures After(INITIAL, events, 7) == FAILED
  {
    SpawnedAfterFour(events);
    SpawnedFails();
    assert After(INITIAL, events, 5) == SPAWNED.(start := ReadinessProbe, children := [Child(false, true, false)]);
    assert After(INITIAL, events, 6) == FAILED.(start := ReadinessProbe);
  }

  lemma StoppingAfterNine(events: seq<Event>)
    requires LeadsToJoining(events)
    ensures After(INITIAL, events, 9) == STOPPING
  {
    FailedAfterSeven(events);
    FailedIsStopped();
    assert After(INITIAL, events, 8) == FAILED.(start := FailTerminating, children := [Child(true, true, true)]);
  }

  lemma JoiningAfterThirteen(events: seq<Event>)
    requires LeadsToJoining(events)
    ensures After(INITIAL, events, 13) == JOINING
  {
    StoppingAfterNine(events);
    StoppingFails();
    assert After(INITIAL, events, 10) == STOPPING.(handle := None, start := FailReleasing);
    assert After(INITIAL, events, 11) == STOPPING.(handle := None, start := FailRemoving);
    assert After(INITIAL, events, 12) == JOINING.(start := Settled);
  }

  /** A run reaches a state in which a stop is unresolved and a start can begin. */
  lemma JoiningIsReachable(events: seq<Event>) returns (runs: seq<System>)
    requires LeadsToJoining(events)
    ensures Run(runs, events) && runs[|events|] == JOINING
    ensures Startable(JOINING) && Unresolved(JOINING)
  {
    JoiningAfterThirteen(events);
    runs := seq(14, i requires 0 <= i < 14 => After(INITIAL, events, i));
    forall i | 0 <= i < 13 && events[i] == CallStart ensures !Unresolved(runs[i]) {
      assert i == 0;
    }
    assert JOINING.stops[0].phase != Resolved;
  }

  lemma RestartWhileJoining()
    ensures Good(JOINING) && Unresolved(JOINING)
    ensures Next(Next(Next(Next(JOINING, CallStart), Prepare(true)), Probe(true)), Write(true, true)) == RESTARTED
  {
    assert JOINING.stops[0].phase != Resolved;
    assert Next(JOINING, CallStart) == JOINING.(state := Starting, start := Preparing);
    var probing := JOINING.(state := Starting, start := Writing);
    assert Next(Next(Next(JOINING, CallStart), Prepare(true)), Probe(true)) == probing;
    assert probing.children + [Child(false, false, false)] == RESTARTED.children;
  }

  /**
   If a new start begins while that stop is unresolved and spawns a second child, the stop then
   clears the handle and rejects, and the live child is out of reach.
   */
  lemma NewStartDuringStopLosesChild()
    ensures var end := Next(Next(Next(RESTARTED, ContinueStop(0)), ContinueStop(0)), ContinueStop(0));
      !Unresolved(end) && end.state == Starting && end.handle == None && HasLive(end)
  {
    var released := RESTARTED.(handle := None, stops := [Stop(Releasing, false)]);
    assert Next(RESTARTED, ContinueStop(0)) == released;
    var removing := released.(stops := [Stop(Removing, false)]);
    assert Next(released, ContinueStop(0)) == removing;
    assert Next(removing, ContinueStop(0)) == removing.(stops := [Stop(Resolved, false)]);
    assert Live(removing.children[1]);
  }

  // ------------------------------------------------------------------------------ the class

  class GatewayRuntime {
    var state: RuntimeState
    var processHandle: Option<nat>
    var stopRequested: bool
    var startPhase: StartPhase
    var children: seq<Child>
    var stops: seq<Stop>

    ghost function View(): System
      reads this
    {
      System(state, processHandle, stopRequested, startPhase, children, stops)
    }

    ghost predicate Valid()
      reads this
    {
      Good(View())
    }

    constructor ()
      ensures Valid() && View() == INITIAL
    {
      state, processHandle, stopRequested := Stopped, None, false;
      startPhase, children, stops := NoStart, [], [];
    }

    /** `transition`: throws for a transition that is not in the table. */
    method TransitionTo(next: RuntimeState) returns (ok: bool)
      modifies this`state
      ensures ok <==> old(state) == next || next in AllowedTransitions(old(state))
      ensures state == if ok then next else old(state)
    {
      ok := state == next || next in AllowedTransitions(state);
      if ok {
        state := next;
      }
    }

    method TerminateHandle()
      modifies this`children
      ensures View() == TerminateChild(old(View()))
    {
      if processHandle.Some? && processHandle.value < |children| {
        children := children[processHandle.value := children[processHandle.value].(terminated := true)];
      }
    }

    method FailStart()
      modifies this`children, this`startPhase
      ensures View() == FailManaged(old(View()))
    {
      if processHandle.Some? {
        TerminateHandle();
        startPhase := FailTerminating;
      } else {
        startPhase := FailReleasing;
      }
    }

    /** `start`; no stop may be unresolved. */
    method Start()
      requires Valid() && !Unresolved(View())
      modifies this
      ensures Valid() && View() == StartCalled(old(View()))
    {
      StartKeepsGood(View());
      if state == Disabled || startPhase != NoStart || state == Ready || state == Stopping {
        return;
      }
      stopRequested := false;
      var _ := TransitionTo(Starting);
      startPhase := Preparing;
      stops := seq(|stops|, i requires 0 <= i < |stops| reads this => stops[i].(awaitsStart := false));
    }

    /** `startManaged` goes on to the spawn: it checks for a stop after each await but the last. */
    method ContinueStart(ok: bool, timeLeft: bool)
      requires Valid() && BeforeSpawn(startPhase)
      modifies this
      ensures Valid()
      ensures View() ==
        if old(startPhase) == Preparing then Prepared(old(View()), ok)
        else if old(startPhase) == Probing then Probed(old(View()), ok)
        else Written(old(View()), ok, timeLeft)
    {
      BeforeSpawnStepsKeepGood(View(), ok);
      WriteKeepsGood(View(), ok, timeLeft);
      if !ok || (startPhase != Writing && stopRequested) {
        FailStart();
        return;
      }
      if startPhase == Preparing {
        startPhase := Probing;
      } else if startPhase == Probing {
        startPhase := Writing;
      } else {
        processHandle, children := Some(|children|), children + [Child(false, false, false)];
        startPhase := if !timeLeft || stopRequested then ReadinessThrew else ReadinessProbe;
      }
    }

    /** `startManaged` goes on after `waitForReadiness`. */
    method FinishReadiness()
      requires Valid()
      modifies this
      ensures Valid() && View() == ReadinessContinues(old(View()))
    {
      ReadinessContinuesKeepsGood(View());
      if startPhase == ReadinessReturned {
        var ok := TransitionTo(Ready);
        if ok {
          startPhase := Settled;
        } else {
          FailStart();
        }
      } else if startPhase == ReadinessThrew {
        FailStart();
      }
    }

    /** `failManaged` goes on. */
    method ContinueFailing()
      requires Valid()
      modifies this
      ensures Valid() && View() == FailContinues(old(View()))
    {
      FailContinuesKeepsGood(View());
      match startPhase
      case FailTerminating => processHandle, startPhase := None, FailReleasing;
      case FailReleasing => startPhase := FailRemoving;
      case FailRemoving =>
        if stopRequested {
          if state == Stopping {
            state := Stopped;
          }
        } else {
          var _ := TransitionTo(Failed);
        }
        startPhase := Settled;
      case _ =>
    }

    /** The callback of `monitorChild`. */
    method ChildCompleted(c: nat)
      requires Valid()
      modifies this
      ensures Valid() && View() == ExitNoticed(old(View()), c)
    {
      NoticeKeepsGood(View(), c);
      if c >= |children| || !children[c].exited || children[c].noticed {
        return;
      }
      children := children[c := children[c].(noticed := true)];
      if processHandle == Some(c) && (state == Starting || state == Ready || state == Degraded) {
        var _ := TransitionTo(Failed);
      }
    }

    /** `stop` up to its first await. */
    method RequestStop()
      requires Valid()
      modifies this
      ensures Valid() && View() == StopCalled(old(View()))
    {
      StopKeepsGood(View());
      if state == Disabled || state == Stopped || state == Stopping {
        return;
      }
      var awaits := state == Starting && startPhase != NoStart;
      if awaits {
        stopRequested := true;
      }
      var _ := TransitionTo(Stopping);
      if processHandle.Some? {
        TerminateHandle();
        stops := stops + [Stop(Joining, awaits)];
      } else if awaits {
        stops := stops + [Stop(AwaitingStart, awaits)];
      } else {
        processHandle, stops := None, stops + [Stop(Releasing, awaits)];
      }
    }

    /** `stop` goes on. */
    method ContinueStopping(i: nat)
      requires Valid() && i < |stops|
      modifies this
      ensures Valid() && View() == StopContinues(old(View()), i)
      ensures old(stops[i].phase) == Removing ==> state == Stopped && !HasLive(View())
    {
      ContinueStopKeepsGood(View(), i);
      if stops[i].phase == Removing {
        StopEnds(View(), i);
      }
      match stops[i].phase
      case Joining =>
        if stops[i].awaitsStart {
          stops := stops[i := stops[i].(phase := AwaitingStart)];
        } else {
          processHandle, stops := None, stops[i := stops[i].(phase := Releasing)];
        }
      case AwaitingStart =>
        if !stops[i].awaitsStart || startPhase == NoStart || startPhase == Settled {
          processHandle, stops := None, stops[i := stops[i].(phase := Releasing)];
        }
      case Releasing => stops := stops[i := stops[i].(phase := Removing)];
      case Removing =>
        var ok := TransitionTo(Stopped);
        if ok {
          stopRequested := false;
        }
        stops := stops[i := stops[i].(phase := Resolved)];
      case Resolved =>
    }
  }
}
