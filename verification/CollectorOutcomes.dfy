/**
 What one poll of the collector does, in terms of the queue's answer and the store's alone; how the backoff grows
 and falls back; and that every whole poll can take place step by step.
 */
module CollectorOutcomes {
  import opened Basics
  import opened Collector
  import opened CollectorSteps

  // ------------------------------------------------------------------------------ one poll

  function DeadPositions<Item>(isDeadLetter: Item -> bool, items: seq<Item>, k: nat): set<nat>
    requires k <= |items|
  {
    set i: nat | i < k && isDeadLetter(items[i])
  }

  lemma {:induction false} DeadLettersAreCounted<Item>(isDeadLetter: Item -> bool, items: seq<Item>, k: nat)
    requires k <= |items|
    ensures DeadLetters(isDeadLetter, items[..k]) == |DeadPositions(isDeadLetter, items, k)|
  {
    if k == 0 {
      assert items[..0] == [];
      return;
    }
    DeadLettersAreCounted(isDeadLetter, items, k - 1);
    assert items[..k][..k - 1] == items[..k - 1];
    OneMorePosition(isDeadLetter, items, k);
  }

  lemma OneMorePosition<Item>(isDeadLetter: Item -> bool, items: seq<Item>, k: nat)
    requires 0 < k <= |items|
    ensures |DeadPositions(isDeadLetter, items, k)| ==
      |DeadPositions(isDeadLetter, items, k - 1)| + if isDeadLetter(items[k - 1]) then 1 else 0
  {
    var few, more := DeadPositions(isDeadLetter, items, k - 1), DeadPositions(isDeadLetter, items, k);
    if isDeadLetter(items[k - 1]) {
      assert more == few + {k - 1};
    } else {
      assert more == few;
    }
  }

  /// The store takes the first `k` items of the batch and refuses the next, if there is one.
  predicate TakesFirst(takes: nat -> bool, k: nat, n: nat) {
    k <= n && (forall i: nat | i < k :: takes(i)) && (k < n ==> !takes(k))
  }

  /**
   A poll that the queue answers adds the whole batch to what was popped, and to what was stored the items before
   the first refused one, dead letters counted apart; the rest may be lost, and if there is any it latches.
   */
  lemma AnsweredPoll<Item>(isDeadLetter: Item -> bool, t: Tally<Item>, e: Environment<Item>, k: nat)
    requires !t.latched && e.dequeue.Popped? && TakesFirst(e.takes, k, |e.dequeue.items|)
    ensures var items, r := e.dequeue.items, AfterPoll(isDeadLetter, t, e);
      && r.popped == t.popped + items && r.stored == t.stored + items[..k]
      && r.deadLetter - t.deadLetter == |DeadPositions(isDeadLetter, items, k)|
      && (r.committed - t.committed) + (r.deadLetter - t.deadLetter) == k
      && r.lossPossible - t.lossPossible == |items| - k && (r.latched <==> k < |items|)
  {
    StoredUpTo(e.takes, k, |e.dequeue.items|, k);
    DeadLettersAreCounted(isDeadLetter, e.dequeue.items, k);
  }

  lemma {:induction false} StoredUpTo(takes: nat -> bool, k: nat, n: nat, m: nat)
    requires TakesFirst(takes, k, n) && m <= n
    ensures StoredBefore(takes, m) == if m <= k then m else k
  {
    if m > 0 {
      StoredUpTo(takes, k, n, m - 1);
    }
  }

  // ------------------------------------------------------------------------------- backoff

  function Doublings(initial: nat, n: nat): nat {
    if n == 0 then initial else 2 * Doublings(initial, n - 1)
  }

  function Least(a: nat, b: nat): nat {
    if a < b then a else b
  }

  /// The backoff after `n` failed polls in a row.
  function Failing(initial: nat, most: nat, n: nat): nat {
    if n == 0 then initial else AfterFailure(initial, most, Failing(initial, most, n - 1))
  }

  lemma {:induction false} DoublingsGrow(initial: nat, n: nat)
    ensures Doublings(initial, n) >= initial
  {
    if n > 0 {
      DoublingsGrow(initial, n - 1);
    }
  }

  /** After n failures in a row the backoff is the initial one doubled n times, and never more than the maximum. */
  lemma {:induction false} BackoffDoubles(initial: nat, most: nat, n: nat)
    requires initial <= most
    ensures Failing(initial, most, n) == Least(Doublings(initial, n), most)
  {
    if n > 0 {
      BackoffDoubles(initial, most, n - 1);
      DoublingsGrow(initial, n - 1);
    }
  }

  // ------------------------------------------------------------------ whole polls take place

  ghost predicate Path<Item>(setup: Setup, isDeadLetter: Item -> bool, states: seq<State<Item>>,
                             events: seq<Event<Item>>) {
    && |states| == |events| + 1
    && forall i | 0 <= i < |events| ::
      Possible(states[i], events[i]) && states[i + 1] == Next(setup, isDeadLetter, states[i], events[i])
  }

  function Last<T>(states: seq<T>): T
    requires states != []
  {
    states[|states| - 1]
  }

  lemma PathGoesOn<Item>(setup: Setup, isDeadLetter: Item -> bool, states: seq<State<Item>>, events: seq<Event<Item>>,
                         e: Event<Item>)
    requires Path(setup, isDeadLetter, states, events) && Possible(Last(states), e)
    ensures Path(setup, isDeadLetter, states + [Next(setup, isDeadLetter, Last(states), e)], events + [e])
  {
  }

  /// A poll can begin.
  predicate CanPoll<Item>(setup: Setup, s: State<Item>) {
    s.phase.Idle? && !s.disposed && setup.enabled && setup.configured && !s.tally.latched
  }

  /// In the middle of storing a batch.
  function StoringAt<Item>(isDeadLetter: Item -> bool, s: State<Item>, items: seq<Item>, n: nat): State<Item>
    requires n <= |items|
  {
    var dead := DeadLetters(isDeadLetter, items[..n]);
    s.(phase := Storing(items, n), tally := s.tally.(popped := s.tally.popped + items,
      stored := s.tally.stored + items[..n], committed := s.tally.committed + n - dead,
      deadLetter := s.tally.deadLetter + dead))
  }

  lemma TakeStep<Item>(isDeadLetter: Item -> bool, s: State<Item>, items: seq<Item>, n: nat)
    requires n < |items|
    ensures var next := AfterTake(isDeadLetter, StoringAt(isDeadLetter, s, items, n));
      if n + 1 < |items| then next == StoringAt(isDeadLetter, s, items, n + 1)
      else next == StoringAt(isDeadLetter, s, items, n + 1).(phase := Settled, availability := Available,
        answered := s.answered + [Met(items, |items|)])
  {
    assert items[..n + 1][..n] == items[..n];
    assert s.tally.stored + items[..n + 1] == s.tally.stored + items[..n] + [items[n]];
  }

  /// A path from `s` to the middle of storing a batch.
  ghost predicate StoresUpTo<Item>(setup: Setup, isDeadLetter: Item -> bool, s: State<Item>, items: seq<Item>, n: nat,
                                   states: seq<State<Item>>, events: seq<Event<Item>>) {
    && n < |items| && Path(setup, isDeadLetter, states, events) && states[0] == s
    && Last(states) == StoringAt(isDeadLetter, s, items, n)
  }

  lemma BatchBegins<Item>(setup: Setup, isDeadLetter: Item -> bool, s: State<Item>, items: seq<Item>)
    returns (states: seq<State<Item>>, events: seq<Event<Item>>)
    requires CanPoll(setup, s) && items != []
    ensures StoresUpTo(setup, isDeadLetter, s, items, 0, states, events)
  {
    var asked := s.(phase := Dequeuing);
    states, events := [s, asked, StoringAt(isDeadLetter, s, items, 0)], [CallPoll, QueueAnswers(items)];
    assert s.tally.stored + items[..0] == s.tally.stored;
  }

  lemma {:induction false} BatchGoesOn<Item>(setup: Setup, isDeadLetter: Item -> bool, s: State<Item>, items: seq<Item>,
                                             n: nat) returns (states: seq<State<Item>>, events: seq<Event<Item>>)
    requires CanPoll(setup, s) && n < |items|
    ensures StoresUpTo(setup, isDeadLetter, s, items, n, states, events)
  {
    if n == 0 {
      states, events := BatchBegins(setup, isDeadLetter, s, items);
      return;
    }
    states, events := BatchGoesOn(setup, isDeadLetter, s, items, n - 1);
    PathGoesOn(setup, isDeadLetter, states, events, StoreTakes);
    TakeStep(isDeadLetter, s, items, n - 1);
    states, events := states + [StoringAt(isDeadLetter, s, items, n)], events + [StoreTakes];
  }

  /// What a poll leaves of which the store takes the first `k` items.
  function Polled<Item>(isDeadLetter: Item -> bool, s: State<Item>, items: seq<Item>, k: nat): State<Item> {
    s.(phase := Settled, availability := if k < |items| then Unavailable else Available,
      tally := AfterPoll(isDeadLetter, s.tally, Met(items, k)), answered := s.answered + [Met(items, k)])
  }

  lemma PolledTally<Item>(isDeadLetter: Item -> bool, s: State<Item>, items: seq<Item>, k: nat)
    requires !s.tally.latched && k <= |items|
    ensures AfterPoll(isDeadLetter, s.tally, Met(items, k)) ==
      StoringAt(isDeadLetter, s, items, k).tally.(lossPossible := s.tally.lossPossible + |items| - k,
        latched := k < |items|, lossyPolls := s.tally.lossyPolls + if k < |items| then 1 else 0)
  {
    var e := Met(items, k);
    assert !e.takes(k) && forall i | 0 <= i < k :: e.takes(i);
    assert StoredBefore(e.takes, |items|) == k;
  }

  lemma BatchEnds<Item>(setup: Setup, isDeadLetter: Item -> bool, s: State<Item>, items: seq<Item>, k: nat)
    requires !s.tally.latched && k <= |items| && items != []
    ensures k < |items| ==>
      Next(setup, isDeadLetter, StoringAt(isDeadLetter, s, items, k), StoreRefuses) == Polled(isDeadLetter, s, items, k)
    ensures k == |items| ==>
      Next(setup, isDeadLetter, StoringAt(isDeadLetter, s, items, k - 1), StoreTakes) ==
        Polled(isDeadLetter, s, items, k)
  {
    PolledTally(isDeadLetter, s, items, k);
    if k == |items| {
      TakeStep(isDeadLetter, s, items, k - 1);
    }
  }

  ghost predicate LeadsTo<Item>(setup: Setup, isDeadLetter: Item -> bool, s: State<Item>, t: State<Item>,
                                states: seq<State<Item>>, events: seq<Event<Item>>) {
    Path(setup, isDeadLetter, states, events) && states[0] == s && Last(states) == t
  }

  lemma BatchIsPolled<Item>(setup: Setup, isDeadLetter: Item -> bool, s: State<Item>, items: seq<Item>, k: nat)
    returns (states: seq<State<Item>>, events: seq<Event<Item>>)
    requires CanPoll(setup, s) && k <= |items| && items != []
    ensures LeadsTo(setup, isDeadLetter, s, Polled(isDeadLetter, s, items, k), states, events)
  {
    var n := if k < |items| then k else k - 1;
    var e := if k < |items| then StoreRefuses else StoreTakes;
    states, events := BatchGoesOn(setup, isDeadLetter, s, items, n);
    PathGoesOn(setup, isDeadLetter, states, events, e);
    BatchEnds(setup, isDeadLetter, s, items, k);
    states, events := states + [Polled(isDeadLetter, s, items, k)], events + [e];
  }

  lemma NothingIsPolled<Item>(setup: Setup, isDeadLetter: Item -> bool, s: State<Item>)
    returns (states: seq<State<Item>>, events: seq<Event<Item>>)
    requires CanPoll(setup, s)
    ensures LeadsTo(setup, isDeadLetter, s, Polled(isDeadLetter, s, [], 0), states, events)
  {
    var nothing: seq<Item> := [];
    PolledTally(isDeadLetter, s, nothing, 0);
    assert s.tally.stored + nothing[..0] == s.tally.stored;
    states, events := [s, s.(phase := Dequeuing), Polled(isDeadLetter, s, nothing, 0)],
      [CallPoll, QueueAnswers(nothing)];
  }

  /**
   Every whole poll takes place: whatever batch the queue answers with, and wherever the store stops, some steps
   lead from a collector that can poll to one that has polled, idle again, and able to poll again if nothing is lost.
   */
  lemma EveryPollHappens<Item>(setup: Setup, isDeadLetter: Item -> bool, s: State<Item>, items: seq<Item>, k: nat)
    returns (states: seq<State<Item>>, events: seq<Event<Item>>)
    requires CanPoll(setup, s) && k <= |items|
    ensures LeadsTo(setup, isDeadLetter, s, Polled(isDeadLetter, s, items, k).(phase := Idle), states, events)
    ensures CanPoll(setup, Last(states)) <==> k == |items|
  {
    if items == [] {
      states, events := NothingIsPolled(setup, isDeadLetter, s);
    } else {
      states, events := BatchIsPolled(setup, isDeadLetter, s, items, k);
    }
    PathGoesOn(setup, isDeadLetter, states, events, Clear);
    states, events := states + [Polled(isDeadLetter, s, items, k).(phase := Idle)], events + [Clear];
    PolledTally(isDeadLetter, s, items, k);
  }

  /**
   A poll that the queue does not answer leaves the collector unavailable, with nothing counted and able
   to poll again.
   */
  lemma FailedPollHappens<Item>(setup: Setup, isDeadLetter: Item -> bool, s: State<Item>)
    returns (states: seq<State<Item>>)
    requires CanPoll(setup, s)
    ensures LeadsTo(setup, isDeadLetter, s, s.(availability := Unavailable), states, [CallPoll, QueueFails, Clear])
    ensures CanPoll(setup, Last(states))
  {
    var asked := s.(phase := Dequeuing);
    var failed := s.(phase := Settled, availability := Unavailable);
    states := [s, asked, failed, s.(availability := Unavailable)];
  }
}
