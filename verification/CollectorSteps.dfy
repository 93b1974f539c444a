/**
 The collector between its awaits: polls that join one in flight, answers of the queue and of the
 store as they come, and `dispose` at any moment. However these interleave, the collector does
 what whole polls, one after the other, do in `Collector`.
 */
module CollectorSteps {
  import opened Basics
  import opened Collector

  /// Where the poll in flight waits. A settled poll is over, but its promise is not cleared yet.
  datatype Phase<+Item> = Idle | Dequeuing | Storing(items: seq<Item>, index: nat) | Settled

  datatype Event<+Item> =
    | CallPoll
    | QueueFails
    | QueueAnswers(items: seq<Item>)
    | StoreTakes
    | StoreRefuses
    | Clear
    | CallDispose
    | EndDispose

  /// `disposing` says that `dispose` waits for the poll in flight or its own timeout. `answered`
  /// remembers the polls that the queue answered, each with what it met.
  datatype State<!Item> = State(
    phase: Phase<Item>,
    disposed: bool,
    disposing: bool,
    availability: Availability,
    tally: Tally<Item>,
    answered: seq<Environment<Item>>)

  datatype Setup = Setup(enabled: bool, configured: bool)

  predicate Possible<Item>(s: State<Item>, e: Event<Item>) {
    match e
    case CallPoll => true
    case CallDispose => true
    case EndDispose => s.disposing
    case QueueFails => s.phase.Dequeuing?
    case QueueAnswers(_) => s.phase.Dequeuing?
    case StoreTakes => s.phase.Storing? && s.phase.index < |s.phase.items|
    case StoreRefuses => s.phase.Storing? && s.phase.index < |s.phase.items|
    case Clear => s.phase.Settled?
  }

  function Met<Item>(items: seq<Item>, taken: nat): Environment<Item> {
    Environment(Popped(items), i => i < taken, false, false)
  }

  /// The code that runs from one await to the next.
  function Next<Item>(setup: Setup, isDeadLetter: Item -> bool, s: State<Item>, e: Event<Item>): State<Item>
    requires Possible(s, e)
  {
    match e
    case CallPoll =>
      if !s.phase.Idle? || s.disposed || !setup.enabled || s.tally.latched then s
      else if setup.configured then s.(phase := Dequeuing)
      else s.(phase := Settled, availability := Unavailable)
    case CallDispose =>
      if s.disposed then s
      else if s.phase.Idle? then s.(disposed := true, availability := Closed(setup))
      else s.(disposed := true, disposing := true)
    case EndDispose => s.(disposing := false, availability := Closed(setup))
    case QueueFails => s.(phase := Settled, availability := Unavailable)
    case QueueAnswers(items) =>
      var t := s.tally.(popped := s.tally.popped + items);
      if items == []
        then s.(phase := Settled, availability := Available, tally := t, answered := s.answered + [Met(items, 0)])
      else s.(phase := Storing(items, 0), tally := t)
    case StoreTakes => AfterTake(isDeadLetter, s)
    case StoreRefuses =>
      var Storing(items, index) := s.phase;
      State(Settled, s.disposed, s.disposing, Unavailable,
        s.tally.(lossPossible := s.tally.lossPossible + |items| - index, latched := true,
          lossyPolls := s.tally.lossyPolls + 1),
        s.answered + [Met(items, index)])
    case Clear => s.(phase := Idle)
  }

  function AfterTake<Item>(isDeadLetter: Item -> bool, s: State<Item>): State<Item>
    requires s.phase.Storing? && s.phase.index < |s.phase.items|
  {
    var Storing(items, index) := s.phase;
    var stored := s.tally.(stored := s.tally.stored + [items[index]]);
    var t := if isDeadLetter(items[index]) then stored.(deadLetter := stored.deadLetter + 1)
      else stored.(committed := stored.committed + 1);
    if index + 1 < |items| then s.(phase := Storing(items, index + 1), tally := t)
    else s.(phase := Settled, availability := Available, tally := t, answered := s.answered + [Met(items, |items|)])
  }

  /// The availability that `dispose` sets at its end.
  function Closed(setup: Setup): Availability {
    if setup.enabled then Unavailable else DisabledCollector
  }

  ghost predicate Run<Item>(setup: Setup, isDeadLetter: Item -> bool, states: seq<State<Item>>,
                            events: seq<Event<Item>>) {
    && |states| == |events| + 1
    && states[0] == State(Idle, false, false, if setup.enabled then StartingUp else DisabledCollector, NothingYet(), [])
    && forall i | 0 <= i < |events| ::
      Possible(states[i], events[i]) && states[i + 1] == Next(setup, isDeadLetter, states[i], events[i])
  }

  // ------------------------------------------------------------------ whole polls, in order

  ghost function Whole<Item>(isDeadLetter: Item -> bool, s: State<Item>): Tally<Item> {
    AfterPolls(isDeadLetter, NothingYet(), s.answered, |s.answered|)
  }

  /// A tally with a batch popped and its first `index` items stored.
  ghost function PartOf<Item>(isDeadLetter: Item -> bool, whole: Tally<Item>, items: seq<Item>, index: nat): Tally<Item>
    requires index <= |items|
  {
    var dead := DeadLetters(isDeadLetter, items[..index]);
    whole.(popped := whole.popped + items, stored := whole.stored + items[..index],
      committed := whole.committed + index - dead, deadLetter := whole.deadLetter + dead)
  }

  /// The tally is that of the answered polls, and of the part of a batch that is stored already.
  ghost predicate Refines<Item>(isDeadLetter: Item -> bool, s: State<Item>) {
    var whole := Whole(isDeadLetter, s);
    match s.phase
    case Storing(items, index) =>
      && index < |items| && !whole.latched
      && s.tally == PartOf(isDeadLetter, whole, items, index)
    case Dequeuing => s.tally == whole && !whole.latched
    case _ => s.tally == whole
  }

  lemma {:induction false} EarlierPolls<Item>(isDeadLetter: Item -> bool, es: seq<Environment<Item>>,
                                              e: Environment<Item>, n: nat)
    requires n <= |es|
    ensures AfterPolls(isDeadLetter, NothingYet(), es + [e], n) == AfterPolls(isDeadLetter, NothingYet(), es, n)
  {
    if n > 0 {
      EarlierPolls(isDeadLetter, es, e, n - 1);
    }
  }

  /// One more answered poll is one more step of whole polls.
  lemma OneMorePoll<Item>(isDeadLetter: Item -> bool, s: State<Item>, items: seq<Item>, taken: nat)
    requires !Whole(isDeadLetter, s).latched && taken <= |items|
    ensures var whole := Whole(isDeadLetter, s);
      AfterPolls(isDeadLetter, NothingYet(), s.answered + [Met(items, taken)], |s.answered| + 1) ==
      PartOf(isDeadLetter, whole, items, taken).(lossPossible := whole.lossPossible + |items| - taken,
        latched := taken < |items|, lossyPolls := whole.lossyPolls + if taken < |items| then 1 else 0)
  {
    var e := Met(items, taken);
    EarlierPolls(isDeadLetter, s.answered, e, |s.answered|);
    assert !e.takes(taken) && forall i | 0 <= i < taken :: e.takes(i);
    assert StoredBefore(e.takes, |items|) == taken;
  }

  lemma TakeRefines<Item>(isDeadLetter: Item -> bool, s: State<Item>)
    requires s.phase.Storing? && Refines(isDeadLetter, s)
    ensures Refines(isDeadLetter, AfterTake(isDeadLetter, s))
  {
    var Storing(items, index) := s.phase;
    var whole := Whole(isDeadLetter, s);
    assert items[..index + 1][..index] == items[..index];
    assert whole.stored + items[..index + 1] == whole.stored + items[..index] + [items[index]];
    assert AfterTake(isDeadLetter, s).tally == PartOf(isDeadLetter, whole, items, index + 1);
    if index + 1 == |items| {
      OneMorePoll(isDeadLetter, s, items, |items|);
    }
  }

  lemma RefusalRefines<Item>(setup: Setup, isDeadLetter: Item -> bool, s: State<Item>)
    requires s.phase.Storing? && Refines(isDeadLetter, s)
    ensures Refines(isDeadLetter, Next(setup, isDeadLetter, s, StoreRefuses))
  {
    OneMorePoll(isDeadLetter, s, s.phase.items, s.phase.index);
  }

  lemma AnswerRefines<Item>(setup: Setup, isDeadLetter: Item -> bool, s: State<Item>, items: seq<Item>)
    requires s.phase.Dequeuing? && Refines(isDeadLetter, s)
    ensures Refines(isDeadLetter, Next(setup, isDeadLetter, s, QueueAnswers(items)))
  {
    if items == [] {
      OneMorePoll(isDeadLetter, s, items, 0);
    }
  }

  lemma StepRefines<Item>(setup: Setup, isDeadLetter: Item -> bool, s: State<Item>, e: Event<Item>)
    requires Possible(s, e) && Refines(isDeadLetter, s)
    ensures Refines(isDeadLetter, Next(setup, isDeadLetter, s, e))
  {
    match e
    case QueueAnswers(items) => AnswerRefines(setup, isDeadLetter, s, items);
    case StoreTakes => TakeRefines(isDeadLetter, s);
    case StoreRefuses => RefusalRefines(setup, isDeadLetter, s);
    case _ =>
  }

  /** In every interleaving, the collector has done what the answered polls do one after the other. */
  lemma RunRefinesWholePolls<Item>(setup: Setup, isDeadLetter: Item -> bool, states: seq<State<Item>>,
                                   events: seq<Event<Item>>, n: nat)
    requires Run(setup, isDeadLetter, states, events) && n < |states|
    ensures forall i | 0 <= i <= n :: Refines(isDeadLetter, states[i])
  {
    var good := (s: State<Item>) => Refines(isDeadLetter, s);
    forall i | 0 <= i < n && good(states[i]) ensures good(states[i + 1]) {
      StepRefines(setup, isDeadLetter, states[i], events[i]);
    }
    HoldsThroughout(states, good, n);
    assert forall i | 0 <= i <= n :: good(states[i]);
  }

  // --------------------------------------------------------------------- what always holds

  /// Popped items of which the store has not said yet whether it takes them.
  function Waiting<Item>(s: State<Item>): int {
    if s.phase.Storing? then |s.phase.items| - s.phase.index else 0
  }

  /// Between any two steps: stored is a prefix of popped, and each popped item is counted or waiting.
  ghost predicate Accounted<Item>(s: State<Item>) {
    && s.tally.stored <= s.tally.popped && |s.tally.stored| == s.tally.committed + s.tally.deadLetter
    && |s.tally.popped| == s.tally.committed + s.tally.deadLetter + s.tally.lossPossible + Waiting(s)
    && (s.tally.latched <==> s.tally.lossPossible > 0) && s.tally.lossyPolls == (if s.tally.latched then 1 else 0)
    && (s.tally.latched ==> s.phase.Idle? || s.phase.Settled?)
  }

  lemma RefinesIsAccounted<Item>(isDeadLetter: Item -> bool, s: State<Item>)
    requires Refines(isDeadLetter, s)
    ensures Accounted(s)
  {
    RunConserves(isDeadLetter, s.answered, |s.answered|);
    if s.phase.Storing? {
      var Storing(items, index) := s.phase;
      var whole := Whole(isDeadLetter, s);
      assert whole.stored == whole.popped;
      assert whole.popped + items == (whole.stored + items[..index]) + items[index..];
    }
  }

  /** At every step of every interleaving, not only between polls, nothing popped is unaccounted for. */
  lemma AccountedThroughout<Item>(setup: Setup, isDeadLetter: Item -> bool, states: seq<State<Item>>,
                                  events: seq<Event<Item>>, n: nat)
    requires Run(setup, isDeadLetter, states, events) && n < |states|
    ensures Accounted(states[n])
  {
    RunRefinesWholePolls(setup, isDeadLetter, states, events, n);
    RefinesIsAccounted(isDeadLetter, states[n]);
  }

  /// No poll is waiting, and none can begin again.
  predicate Over<Item>(s: State<Item>) {
    (s.disposed || s.tally.latched) && (s.phase.Idle? || s.phase.Settled?)
  }

  /**
   Once an item is lost, or the collector is disposed with no poll waiting, nothing is dequeued, stored
   or counted again.
   */
  lemma {:induction false} OverForever<Item>(setup: Setup, isDeadLetter: Item -> bool, states: seq<State<Item>>,
                                             events: seq<Event<Item>>, i: nat, j: nat)
    requires Run(setup, isDeadLetter, states, events) && i <= j < |states|
    requires states[i].tally.lossPossible > 0 || Over(states[i])
    ensures Over(states[j]) && states[j].tally == states[i].tally && states[j].answered == states[i].answered
  {
    if i == j {
      AccountedThroughout(setup, isDeadLetter, states, events, i);
    } else {
      OverForever(setup, isDeadLetter, states, events, i, j - 1);
      assert states[j - 1 + 1] == Next(setup, isDeadLetter, states[j - 1], events[j - 1]);
    }
  }

  // ------------------------------------------------------------- availability after dispose

  predicate Waits<Item>(s: State<Item>) {
    s.phase.Dequeuing? || s.phase.Storing?
  }

  predicate DisposeEnded<Item>(s: State<Item>) {
    s.disposed && !s.disposing
  }

  /// A poll that was answered after `s` has ended, and all it popped is stored.
  predicate StoredSince<Item>(s: State<Item>, later: State<Item>) {
    |later.answered| > |s.answered| && !later.tally.latched
  }

  /// What a poll that still waited when `dispose` ended can make of the availability.
  predicate Outlasted<Item>(s: State<Item>, later: State<Item>) {
    && DisposeEnded(later) && |s.answered| <= |later.answered|
    && if Waits(later) || !Waits(s)
      then Waits(s) == Waits(later) && |later.answered| == |s.answered| && later.availability == s.availability
       else later.availability == if StoredSince(s, later) then Available else Unavailable
  }

  lemma StepOutlasted<Item>(setup: Setup, isDeadLetter: Item -> bool, s: State<Item>, later: State<Item>,
                            e: Event<Item>)
    requires Outlasted(s, later) && Accounted(later) && Possible(later, e)
    ensures Outlasted(s, Next(setup, isDeadLetter, later, e))
  {
  }

  lemma NextOutlasted<Item>(setup: Setup, isDeadLetter: Item -> bool, states: seq<State<Item>>,
                            events: seq<Event<Item>>, s: State<Item>, i: nat)
    requires Run(setup, isDeadLetter, states, events) && i < |events| && Outlasted(s, states[i])
    ensures Outlasted(s, states[i + 1])
  {
    AccountedThroughout(setup, isDeadLetter, states, events, i);
    StepOutlasted(setup, isDeadLetter, s, states[i], events[i]);
  }

  lemma {:induction false} OutlastedThroughout<Item>(setup: Setup, isDeadLetter: Item -> bool, states: seq<State<Item>>,
                                                     events: seq<Event<Item>>, k: nat, n: nat)
    requires Run(setup, isDeadLetter, states, events) && k <= n < |states| && DisposeEnded(states[k])
    ensures Outlasted(states[k], states[n])
  {
    if k < n {
      OutlastedThroughout(setup, isDeadLetter, states, events, k, n - 1);
      NextOutlasted(setup, isDeadLetter, states, events, states[k], n - 1);
    }
  }

  /**
   Step k ends a `dispose`. When no poll waits any more, the collector reports itself available if and
   only if a poll was waiting at that step, outlasted it, and had its whole batch stored.
   */
  lemma AvailableAfterDisposeIff<Item>(setup: Setup, isDeadLetter: Item -> bool, states: seq<State<Item>>,
                                       events: seq<Event<Item>>, k: nat, n: nat)
    requires Run(setup, isDeadLetter, states, events) && k < n < |states|
    requires !DisposeEnded(states[k]) && DisposeEnded(states[k + 1]) && !Waits(states[n])
    ensures states[n].availability == Available <==> Waits(states[k]) && StoredSince(states[k], states[n])
  {
    OutlastedThroughout(setup, isDeadLetter, states, events, k + 1, n);
    assert states[k + 1] == Next(setup, isDeadLetter, states[k], events[k]);
  }

  /** A run in which `dispose` times out, and the poll it waited for then reports the collector available. */
  lemma DisposedYetAvailable<Item>(isDeadLetter: Item -> bool) returns (states: seq<State<Item>>)
    ensures Run(Setup(true, true), isDeadLetter, states, [CallPoll, CallDispose, EndDispose, QueueAnswers([])])
    ensures states[3].availability == Unavailable
    ensures DisposeEnded(states[4]) && states[4].availability == Available
  {
    var setup := Setup(true, true);
    var s0: State<Item> := State(Idle, false, false, StartingUp, NothingYet(), []);
    var s1 := Next(setup, isDeadLetter, s0, CallPoll);
    var s2 := Next(setup, isDeadLetter, s1, CallDispose);
    var s3 := Next(setup, isDeadLetter, s2, EndDispose);
    states := [s0, s1, s2, s3, Next(setup, isDeadLetter, s3, QueueAnswers([]))];
  }
}
