/**
 `HttpUsageCollector` (pipeline/collector.ts): the at-most-once collector. A batch is popped
 before anything is stored, so what matters is that nothing popped is unaccounted for, that
 what was stored is a prefix of what was popped, and that a loss stops the collector for good.
 */
module Collector {
  import opened Basics

  datatype Mode = Disabled | Managed | External

  datatype Availability = DisabledCollector | StartingUp | Available | Degraded | Unavailable

  datatype Completeness = Unknown | SoleConsumer | CompetitionPossible | CrashLossPossible

  datatype ErrorKind = Configuration | DequeueFailed | IngestFailed | DisposedCollector

  datatype Metrics = Metrics(
    polls: nat,
    popped: nat,
    committed: nat,
    deadLetter: nat,
    lossPossible: nat,
    dequeueFailures: nat,
    ingestFailures: nat)

  datatype Report = Report(
    polled: bool,
    popped: nat,
    committed: nat,
    deadLetter: nat,
    lossPossible: nat,
    errorKind: Option<ErrorKind>)

  datatype AnalyticsStatus = AnalyticsStatus(
    availability: Availability,
    mode: Mode,
    completeness: Completeness,
    lossPossibleCount: nat,
    lastErrorKind: Option<ErrorKind>)

  /// What the queue answers to one dequeue; a value that is not an array counts as a failure.
  datatype Dequeue<+Item> = QueueFailed | Popped(items: seq<Item>)

  /// What one poll meets: the queue's answer, whether the store takes each item, and a `dispose` while it waits.
  datatype Environment<!Item> = Environment(
    dequeue: Dequeue<Item>,
    takes: nat -> bool,
    disposedDuringDequeue: bool,
    disposedDuringStores: bool)

  // -------------------------------------------------------------------- what polls add up to

  /// The items popped and the items the store took, over a whole run, with their counts.
  datatype Tally<Item> = Tally(
    popped: seq<Item>,
    stored: seq<Item>,
    committed: nat,
    deadLetter: nat,
    lossPossible: nat,
    latched: bool,
    lossyPolls: nat)

  /// How many of the first `n` items are stored before one is refused.
  function StoredBefore(takes: nat -> bool, n: nat): (k: nat)
    ensures k <= n && (forall i | 0 <= i < k :: takes(i)) && (k < n ==> !takes(k))
  {
    if n == 0 then 0 else
    var k := StoredBefore(takes, n - 1);
    if k == n - 1 && takes(n - 1) then n else k
  }

  function DeadLetters<Item>(isDeadLetter: Item -> bool, items: seq<Item>): (n: nat)
    ensures n <= |items|
  {
    if items == [] then 0 else
    DeadLetters(isDeadLetter, items[..|items| - 1]) + if isDeadLetter(items[|items| - 1]) then 1 else 0
  }

  /// One poll that reaches the queue.
  function AfterPoll<Item>(isDeadLetter: Item -> bool, t: Tally<Item>, e: Environment<Item>): Tally<Item> {
    if t.latched || e.dequeue.QueueFailed? then t else
    var items := e.dequeue.items;
    var k := StoredBefore(e.takes, |items|);
    var dead := DeadLetters(isDeadLetter, items[..k]);
    Tally(t.popped + items, t.stored + items[..k], t.committed + k - dead, t.deadLetter + dead,
      t.lossPossible + |items| - k, k < |items|, t.lossyPolls + if k < |items| then 1 else 0)
  }

  function AfterPolls<Item>(isDeadLetter: Item -> bool, t: Tally<Item>, es: seq<Environment<Item>>, n: nat): Tally<Item>
    requires n <= |es|
  {
    if n == 0 then t else AfterPoll(isDeadLetter, AfterPolls(isDeadLetter, t, es, n - 1), es[n - 1])
  }

  function NothingYet<Item>(): Tally<Item> {
    Tally([], [], 0, 0, 0, false, 0)
  }

  /// Stored items are a prefix of the popped ones, every popped item is counted once, and losing
  /// anything means being latched by the one lossy poll.
  ghost predicate Conserved<Item>(isDeadLetter: Item -> bool, t: Tally<Item>) {
    && t.stored <= t.popped
    && |t.stored| == t.committed + t.deadLetter && t.deadLetter == DeadLetters(isDeadLetter, t.stored)
    && |t.popped| == t.committed + t.deadLetter + t.lossPossible
    && (t.latched <==> t.lossPossible > 0) && t.lossyPolls == (if t.latched then 1 else 0)
  }

  lemma {:induction false} DeadLettersAdd<Item>(isDeadLetter: Item -> bool, a: seq<Item>, b: seq<Item>)
    ensures DeadLetters(isDeadLetter, a + b) == DeadLetters(isDeadLetter, a) + DeadLetters(isDeadLetter, b)
    decreases |b|
  {
    if b == [] {
      assert a + b == a;
      return;
    }
    assert (a + b)[..|a + b| - 1] == a + b[..|b| - 1];
    DeadLettersAdd(isDeadLetter, a, b[..|b| - 1]);
  }

  lemma PollConserves<Item>(isDeadLetter: Item -> bool, t: Tally<Item>, e: Environment<Item>)
    requires Conserved(isDeadLetter, t)
    ensures Conserved(isDeadLetter, AfterPoll(isDeadLetter, t, e))
  {
    if t.latched || e.dequeue.QueueFailed? {
      return;
    }
    var items := e.dequeue.items;
    var k := StoredBefore(e.takes, |items|);
    assert t.stored == t.popped;
    assert t.popped + items == (t.stored + items[..k]) + items[k..];
    DeadLettersAdd(isDeadLetter, t.stored, items[..k]);
  }

  /**
   Over any run of polls: the items stored form a prefix of all the items popped, popped equals
   committed plus dead letters plus possible losses after each poll, and at most one poll loses anything.
   */
  lemma {:induction false} RunConserves<Item>(isDeadLetter: Item -> bool, es: seq<Environment<Item>>, n: nat)
    requires n <= |es|
    ensures Conserved(isDeadLetter, AfterPolls(isDeadLetter, NothingYet(), es, n))
  {
    if n > 0 {
      RunConserves(isDeadLetter, es, n - 1);
      PollConserves(isDeadLetter, AfterPolls(isDeadLetter, NothingYet(), es, n - 1), es[n - 1]);
    }
  }

  /** Once an item has been refused, nothing is popped or stored any more, however often it is polled. */
  lemma {:induction false} LatchedForever<Item>(isDeadLetter: Item -> bool, es: seq<Environment<Item>>, i: nat, n: nat)
    requires i <= n <= |es| && AfterPolls(isDeadLetter, NothingYet(), es, i).latched
    ensures AfterPolls(isDeadLetter, NothingYet(), es, n) == AfterPolls(isDeadLetter, NothingYet(), es, i)
  {
    if i < n {
      LatchedForever(isDeadLetter, es, i, n - 1);
    }
  }

  /// The backoff after a failed poll.
  function AfterFailure(initial: nat, most: nat, backoff: nat): nat {
    var doubled := if backoff * 2 < initial then initial else backoff * 2;
    if doubled < most then doubled else most
  }

  lemma LossIsMissing<Item>(isDeadLetter: Item -> bool, t: Tally<Item>)
    requires Conserved(isDeadLetter, t)
    ensures t.lossPossible == 0 <==> t.stored == t.popped
  {
  }

  /** A run that never loses anything has stored exactly what it popped. */
  lemma UnlatchedLosesNothing<Item>(isDeadLetter: Item -> bool, es: seq<Environment<Item>>, n: nat)
    requires n <= |es|
    ensures var t := AfterPolls(isDeadLetter, NothingYet(), es, n);
      t.lossPossible == 0 <==> t.stored == t.popped
  {
    RunConserves(isDeadLetter, es, n);
    LossIsMissing(isDeadLetter, AfterPolls(isDeadLetter, NothingYet(), es, n));
  }

  // ------------------------------------------------------------------------------ the class

  class HttpUsageCollector<Item(==)> {
    const mode: Mode
    const configured: bool
    const isDeadLetter: Item -> bool
    const initialBackoff: nat
    const maxBackoff: nat
    var metrics: Metrics
    var disposed: bool
    var unavailableLatched: bool
    var currentBackoff: nat
    var lastErrorKind: Option<ErrorKind>
    var availability: Availability
    ghost var tally: Tally<Item>

    ghost predicate Valid()
      reads this
    {
      && Conserved(isDeadLetter, tally)
      && metrics.popped == |tally.popped| && metrics.committed == tally.committed
      && metrics.deadLetter == tally.deadLetter && metrics.lossPossible == tally.lossPossible
      && unavailableLatched == tally.latched && metrics.ingestFailures == tally.lossyPolls
      && initialBackoff <= currentBackoff <= maxBackoff
    }

    constructor (mode: Mode, configured: bool, isDeadLetter: Item -> bool, initialBackoff: nat, maxBackoff: nat)
      ensures Valid() && tally == NothingYet() && this.isDeadLetter == isDeadLetter && !disposed
    {
      this.mode, this.configured, this.isDeadLetter := mode, configured, isDeadLetter;
      this.initialBackoff := initialBackoff;
      this.maxBackoff := if maxBackoff < initialBackoff then initialBackoff else maxBackoff;
      metrics := Metrics(0, 0, 0, 0, 0, 0, 0);
      disposed, unavailableLatched, lastErrorKind := false, false, None;
      currentBackoff := initialBackoff;
      availability := if mode == Disabled then DisabledCollector else StartingUp;
      tally := NothingYet();
    }

    /** `status`: loss is reported exactly when something was lost, or other consumers could take items. */
    function Status(): (status: AnalyticsStatus)
      requires Valid()
      reads this
      ensures status.completeness == SoleConsumer <==> mode == Managed && tally.stored == tally.popped
      ensures status.lossPossibleCount == |tally.popped| - |tally.stored|
      ensures status.availability == availability && status.mode == mode && status.lastErrorKind == lastErrorKind
    {
      LossIsMissing(isDeadLetter, tally);
      var completeness := match mode
        case Disabled => Unknown
        case External => CompetitionPossible
        case Managed => if metrics.lossPossible > 0 then CrashLossPossible else SoleConsumer;
      AnalyticsStatus(availability, mode, completeness, metrics.lossPossible, lastErrorKind)
    }

    /// How a poll that begins on a collector not disposed of ends: available exactly when the queue
    /// answered and no item was refused, disposed of or not.
    ghost predicate Ended(e: Environment<Item>)
      reads this
    {
      && (disposed <==> configured && (e.disposedDuringDequeue || (e.dequeue.Popped? && e.disposedDuringStores)))
      && availability == if configured && e.dequeue.Popped? && !unavailableLatched then Available else Unavailable
    }

    /** `poll`, when no other poll is in flight. */
    method Poll(e: Environment<Item>) returns (report: Report)
      requires Valid()
      modifies this
      ensures Valid()
      ensures tally == if old(disposed) || mode == Disabled || !configured then old(tally)
        else AfterPoll(isDeadLetter, old(tally), e)
      ensures report.popped == report.committed + report.deadLetter + report.lossPossible
      ensures |tally.popped| == |old(tally).popped| + report.popped
      ensures report.lossPossible > 0 <==> unavailableLatched && !old(unavailableLatched)
      ensures old(unavailableLatched) ==> !report.polled
      ensures old(disposed) || mode == Disabled || old(unavailableLatched) ==>
        && disposed == old(disposed) && availability == old(availability) && !report.polled
        && metrics == old(metrics) && currentBackoff == old(currentBackoff) && lastErrorKind == old(lastErrorKind)
      ensures !old(disposed) && mode != Disabled && !old(unavailableLatched) ==> Ended(e)
    {
      if disposed {
        return Report(false, 0, 0, 0, 0, Some(DisposedCollector));
      }
      if mode == Disabled {
        return Report(false, 0, 0, 0, 0, None);
      }
      if unavailableLatched {
        return Report(false, 0, 0, 0, 0, Some(IngestFailed));
      }
      report := ExecutePoll(e);
    }

    /// The poll failed, and not for being disposed of.
    predicate Fails(disposed: bool, e: Environment<Item>) {
      configured && e.dequeue.QueueFailed? && !disposed && !e.disposedDuringDequeue
    }

    method ExecutePoll(e: Environment<Item>) returns (report: Report)
      requires Valid() && !unavailableLatched
      modifies this
      ensures Valid()
      ensures metrics.polls == old(metrics.polls) + 1
      ensures metrics.dequeueFailures == old(metrics.dequeueFailures) + if Fails(old(disposed), e) then 1 else 0
      ensures currentBackoff ==
        if Fails(old(disposed), e) then AfterFailure(initialBackoff, maxBackoff, old(currentBackoff))
        else if configured && e.dequeue.Popped? && !unavailableLatched then initialBackoff else old(currentBackoff)
      ensures lastErrorKind ==
        if !configured then Some(Configuration)
        else if Fails(old(disposed), e) then Some(DequeueFailed)
        else if e.dequeue.QueueFailed? then old(lastErrorKind)
        else if unavailableLatched then Some(IngestFailed) else None
      ensures tally == if configured then AfterPoll(isDeadLetter, old(tally), e) else old(tally)
      ensures report.popped == report.committed + report.deadLetter + report.lossPossible
      ensures |tally.popped| == |old(tally).popped| + report.popped
      ensures report.lossPossible > 0 <==> unavailableLatched
      ensures !old(disposed) ==> Ended(e)
    {
      metrics := metrics.(polls := metrics.polls + 1);
      if !configured {
        availability, lastErrorKind := Unavailable, Some(Configuration);
        return Report(false, 0, 0, 0, 0, Some(DequeueFailed));
      }
      if e.disposedDuringDequeue {
        disposed := true;
      }
      if e.dequeue.QueueFailed? {
        if disposed {
          availability := Unavailable;
          return Report(false, 0, 0, 0, 0, Some(DisposedCollector));
        }
        metrics := metrics.(dequeueFailures := metrics.dequeueFailures + 1);
        availability, lastErrorKind := Unavailable, Some(DequeueFailed);
        currentBackoff := AfterFailure(initialBackoff, maxBackoff, currentBackoff);
        return Report(false, 0, 0, 0, 0, Some(DequeueFailed));
      }
      report := StoreBatch(e.dequeue.items, e);
      if e.disposedDuringStores {
        disposed := true;
      }
    }

    /// The index loop of `executePoll`, which stops at the first item that the store refuses.
    method StoreItems(items: seq<Item>, takes: nat -> bool) returns (committed: nat, deadLetter: nat, lossPossible: nat)
      requires !unavailableLatched
      modifies this`metrics, this`unavailableLatched, this`availability, this`lastErrorKind
      ensures var k := StoredBefore(takes, |items|);
        && committed + deadLetter == k && deadLetter == DeadLetters(isDeadLetter, items[..k]) &&
          lossPossible == |items| - k
        && unavailableLatched == (k < |items|) && (k < |items| ==> availability == Unavailable)
        && metrics == old(metrics).(committed := old(metrics.committed) + committed,
             deadLetter := old(metrics.deadLetter) + deadLetter,
             ingestFailures := old(metrics.ingestFailures) + if k < |items| then 1 else 0)
    {
      committed, deadLetter, lossPossible := 0, 0, 0;
      var index := 0;
      while index < |items|
        invariant 0 <= index <= |items| && StoredBefore(takes, index) == index && !unavailableLatched
        invariant committed + deadLetter == index && deadLetter == DeadLetters(isDeadLetter, items[..index])
        invariant lossPossible == 0
        invariant metrics == old(metrics).(committed := old(metrics.committed) + committed,
          deadLetter := old(metrics.deadLetter) + deadLetter)
      {
        assert items[..index + 1][..index] == items[..index];
        if !takes(index) {
          StoppedAt(takes, index, |items|);
          lossPossible := lossPossible + |items| - index;
          metrics := metrics.(ingestFailures := metrics.ingestFailures + 1);
          unavailableLatched, availability, lastErrorKind := true, Unavailable, Some(IngestFailed);
          return;
        }
        if isDeadLetter(items[index]) {
          deadLetter := deadLetter + 1;
          metrics := metrics.(deadLetter := metrics.deadLetter + 1);
        } else {
          committed := committed + 1;
          metrics := metrics.(committed := metrics.committed + 1);
        }
        index := index + 1;
      }
    }

    method StoreBatch(items: seq<Item>, e: Environment<Item>) returns (report: Report)
      requires Valid() && !unavailableLatched && e.dequeue == Popped(items)
      modifies this
      ensures Valid() && tally == AfterPoll(isDeadLetter, old(tally), e) && disposed == old(disposed)
      ensures report ==
        Report(true, |items|, tally.committed - old(tally).committed, tally.deadLetter - old(tally).deadLetter,
        tally.lossPossible - old(tally).lossPossible, if unavailableLatched then Some(IngestFailed) else None)
      ensures availability == if unavailableLatched then Unavailable else Available
      ensures metrics.polls == old(metrics.polls) && metrics.dequeueFailures == old(metrics.dequeueFailures)
      ensures currentBackoff == if unavailableLatched then old(currentBackoff) else initialBackoff
      ensures lastErrorKind == if unavailableLatched then Some(IngestFailed) else None
    {
      PollConserves(isDeadLetter, tally, e);
      metrics := metrics.(popped := metrics.popped + |items|);
      var committed, deadLetter, lossPossible := StoreItems(items, e.takes);
      tally := AfterPoll(isDeadLetter, tally, e);
      if lossPossible > 0 {
        metrics := metrics.(lossPossible := metrics.lossPossible + lossPossible);
        // A loss has always latched by now, so the collector is never left merely degraded.
        availability := if unavailableLatched then availability else Degraded;
        lastErrorKind := Some(IngestFailed);
      } else {
        availability, currentBackoff, lastErrorKind := Available, initialBackoff, None;
      }
      var errorKind := if lossPossible > 0 then Some(IngestFailed) else None;
      report := Report(true, |items|, committed, deadLetter, lossPossible, errorKind);
    }

    /** `dispose`, once no poll is in flight. */
    method Dispose()
      requires Valid()
      modifies this
      ensures Valid() && disposed && tally == old(tally)
      ensures !old(disposed) ==> availability == if mode == Disabled then DisabledCollector else Unavailable
    {
      if !disposed {
        disposed := true;
        availability := if mode == Disabled then DisabledCollector else Unavailable;
      }
    }
  }

  lemma {:induction false} StoppedAt(takes: nat -> bool, k: nat, n: nat)
    requires k <= n && StoredBefore(takes, k) == k && (k < n ==> !takes(k))
    ensures StoredBefore(takes, n) == k
  {
    if k < n {
      StoppedAt(takes, k, n - 1);
    }
  }
}
