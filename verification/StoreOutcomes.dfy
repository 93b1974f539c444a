/**
 What one ingest and one maintenance run do to the store, in terms of the observation, the tables and the clock
 alone: each disposition with its exact condition, every row that is written, and every row that goes.
 */
module StoreOutcomes {
  import opened Basics
  import opened Requests
  import opened Rollup
  import opened Engine
  import opened Retention

  // ---------------------------------------------------------------------------- maintenance

  /// Midnight of the day that `at` lies in, `days` days earlier, in milliseconds.
  function DaysBefore(at: int, days: nat): int {
    86_400_000 * (at / 86_400_000 - days)
  }

  /// All the expired rows go, or ten thousand of them when there are more; every other row stays as it is.
  ghost predicate Swept<K(!new), V>(table: map<K, V>, table': map<K, V>, expired: set<K>) {
    && (forall k | k in table' :: k in table && table'[k] == table[k])
    && (forall k | k in table && k !in expired :: k in table')
    && (|expired| <= 10_000 ==> forall k | k in expired :: k !in table')
    && (|expired| > 10_000 ==> |table.Keys - table'.Keys| == 10_000)
  }

  lemma PurgedIsSwept<K(!new), V>(table: map<K, V>, table': map<K, V>, expired: set<K>)
    requires Purged(table, expired, table') && expired <= table.Keys
    ensures Swept(table, table', expired)
  {
    var gone := table.Keys - table'.Keys;
    if |expired| <= 10_000 {
      SameSize(gone, expired);
    }
  }

  lemma SameSize<K>(part: set<K>, whole: set<K>)
    requires part <= whole && |part| == |whole|
    ensures part == whole
  {
    assert |whole - part| == 0 by {
      assert whole == part + (whole - part);
    }
  }

  /**
   Maintenance sweeps requests and dead letters older than 30 whole days and rollups and receipts older than 365,
   each by its own time, at most ten thousand rows a table; it touches no row that stays and no counter.
   */
  lemma MaintenanceSweeps(db: Db, at: int, db': Db)
    requires Maintained(db, at, db')
    ensures Swept(db.raw, db'.raw,
      set id | id in db.raw && db.raw[id].request.view.occurredAt < DaysBefore(at, 30))
    ensures Swept(db.deadLetters, db'.deadLetters,
      set n | n in db.deadLetters && db.deadLetters[n].failedAt < DaysBefore(at, 30))
    ensures Swept(db.hourly, db'.hourly, set k | k in db.hourly && k.bucket < DaysBefore(at, 365))
    ensures Swept(db.daily, db'.daily, set k | k in db.daily && k.bucket < DaysBefore(at, 365))
    ensures Swept(db.latencyHourly, db'.latencyHourly,
      set k | k in db.latencyHourly && k.group.bucket < DaysBefore(at, 365))
    ensures Swept(db.latencyDaily, db'.latencyDaily,
      set k | k in db.latencyDaily && k.group.bucket < DaysBefore(at, 365))
    ensures Swept(db.receipts, db'.receipts,
      set k | k in db.receipts && db.receipts[k].lastReceived < DaysBefore(at, 365))
    ensures db'.committedCount == db.committedCount && db'.deadLetterCount == db.deadLetterCount
    ensures db'.nextDeadLetter == db.nextDeadLetter
  {
    Cutoffs(at);
    PurgedIsSwept(db.raw, db'.raw, ExpiredRaw(db.raw, RawCutoff(at)));
    PurgedIsSwept(db.deadLetters, db'.deadLetters, ExpiredDeadLetters(db.deadLetters, RawCutoff(at)));
    PurgedIsSwept(db.hourly, db'.hourly, ExpiredUsage(db.hourly, RollupCutoff(at)));
    PurgedIsSwept(db.daily, db'.daily, ExpiredUsage(db.daily, RollupCutoff(at)));
    PurgedIsSwept(db.latencyHourly, db'.latencyHourly, ExpiredLatency(db.latencyHourly, RollupCutoff(at)));
    PurgedIsSwept(db.latencyDaily, db'.latencyDaily, ExpiredLatency(db.latencyDaily, RollupCutoff(at)));
    PurgedIsSwept(db.receipts, db'.receipts, ExpiredReceipts(db.receipts, RollupCutoff(at)));
  }

  lemma Cutoffs(at: int)
    ensures RawCutoff(at) == DaysBefore(at, 30) && RollupCutoff(at) == DaysBefore(at, 365)
  {
  }

  // --------------------------------------------------------------------------------- ingest

  /// More than 365 days old when it is checked.
  predicate TooOld(o: Observation, checkedAt: int) {
    checkedAt - o.view.occurredAt > 365 * 86_400_000
  }

  /// The source has delivered this key before.
  predicate SeenBefore(db: Db, o: Observation) {
    ReceiptKey(o.kind, o.sourceKey) in db.receipts
  }

  predicate SamePayload(db: Db, o: Observation)
    requires SeenBefore(db, o)
  {
    db.receipts[ReceiptKey(o.kind, o.sourceKey)].fingerprint == o.fingerprint
  }

  /// The request is there already, from the same source, or with a view that no view could extend along with this one.
  ghost predicate Contradicts(db: Db, o: Observation) {
    o.requestId in db.raw && var previous := db.raw[o.requestId].request;
      SeenFrom(previous, o.kind) || !exists w :: Extends(previous.view, w) && Extends(o.view, w)
  }

  /// One dead letter more, under a number of its own; of the receipts only the observation's may differ.
  ghost predicate DeadLetteredAs(db: Db, o: Observation, reason: Reason, now: int, db': Db) {
    && db'.deadLetters == db.deadLetters[db.nextDeadLetter := DeadLetter(o, reason, now)]
    && db'.nextDeadLetter == db.nextDeadLetter + 1 && db'.deadLetterCount == db.deadLetterCount + 1
    && db'.committedCount == db.committedCount && SameRows(db, db')
  }

  lemma MergesIff(db: Db, o: Observation)
    ensures MergedRequest(db.raw, o).None? <==> Contradicts(db, o)
  {
    if o.requestId in db.raw && !SeenFrom(db.raw[o.requestId].request, o.kind) {
      MergeIsLeastUpperBound(db.raw[o.requestId].request, o);
    }
  }

  /** The disposition of every delivery, as one of six cases that exclude each other. */
  lemma DispositionIff(pricer: Pricer, db: Db, o: Observation, checkedAt: int, now: int, db': Db, outcome: Outcome)
    requires Ingested(pricer, db, o, checkedAt, now, db', outcome)
    ensures var news := !TooOld(o, checkedAt) && !SeenBefore(db, o) && !Contradicts(db, o);
      && (outcome == Done(OutsideRetention) <==> TooOld(o, checkedAt))
      && (outcome == Done(Duplicate) <==> !TooOld(o, checkedAt) && SeenBefore(db, o) && SamePayload(db, o))
      && (outcome == Done(DeadLettered) <==>
            !TooOld(o, checkedAt) && (if SeenBefore(db, o) then !SamePayload(db, o) else Contradicts(db, o)))
      && (outcome == Threw <==> news && pricer(MergedRequest(db.raw, o).value.view).None?)
      && (outcome == Done(Inserted) <==>
            news && pricer(MergedRequest(db.raw, o).value.view).Some? && o.requestId !in db.raw)
      && (outcome == Done(Enriched) <==>
            news && pricer(MergedRequest(db.raw, o).value.view).Some? && o.requestId in db.raw)
  {
    MergesIff(db, o);
  }

  /** A delivery that is too old or that throws leaves no trace. */
  lemma NoTrace(pricer: Pricer, db: Db, o: Observation, checkedAt: int, now: int, db': Db, outcome: Outcome)
    requires Ingested(pricer, db, o, checkedAt, now, db', outcome)
    requires outcome == Done(OutsideRetention) || outcome == Threw
    ensures db' == db
  {
  }

  /** A duplicate renews its receipt, which keeps the time of its first delivery, and nothing else. */
  lemma DuplicateRenews(pricer: Pricer, db: Db, o: Observation, checkedAt: int, now: int, db': Db)
    requires Ingested(pricer, db, o, checkedAt, now, db', Done(Duplicate))
    ensures SeenBefore(db, o) && var key := ReceiptKey(o.kind, o.sourceKey);
      var receipt := db.receipts[key];
      db' == db.(receipts := db.receipts[key := Receipt(receipt.requestId, o.fingerprint, receipt.firstReceived, now)])
  {
  }

  /**
   A dead letter keeps the observation and says why: a source that contradicts itself leaves its receipt as it
   was, and one that contradicts the stored request gets a receipt of its own.
   */
  lemma DeadLetterSays(pricer: Pricer, db: Db, o: Observation, checkedAt: int, now: int, db': Db)
    requires Ingested(pricer, db, o, checkedAt, now, db', Done(DeadLettered))
    ensures SeenBefore(db, o) ==>
      DeadLetteredAs(db, o, ConflictingSourceReceipt, now, db') && db'.receipts == db.receipts
    ensures !SeenBefore(db, o) ==>
      && DeadLetteredAs(db, o, ConflictingRequestProjection, now, db')
      && db'.receipts ==
        db.receipts[ReceiptKey(o.kind, o.sourceKey) := Receipt(o.requestId, o.fingerprint, now, now)]
  {
  }

  /// The fingerprints of a request after a delivery: the delivering source's is recorded, the other's stays.
  predicate Recorded(previous: Option<Request>, o: Observation, r: Request) {
    match o.kind
    case Gateway => r.gateway == Some(o.fingerprint) && r.cpa == (if previous.Some? then previous.value.cpa else None)
    case CpaHttpUsage =>
      r.cpa == Some(o.fingerprint) && r.gateway == if previous.Some? then previous.value.gateway else None
  }

  /**
   A committed delivery stores one row: that of its request, with the view that both sources report and no more,
   the time of its first delivery, and its price; its receipt and its counter are written along with it.
   */
  lemma CommitStores(pricer: Pricer, db: Db, o: Observation, checkedAt: int, now: int, db': Db, outcome: Outcome)
    requires Ingested(pricer, db, o, checkedAt, now, db', outcome) && Committed(outcome)
    ensures o.requestId in db'.raw && db'.raw == db.raw[o.requestId := db'.raw[o.requestId]]
    ensures var row := db'.raw[o.requestId];
      && row.lastReceived == now && pricer(row.request.view) == Some(row.price)
      && match outcome
         case Done(Inserted) =>
           && row.request.id == o.requestId && row.request.view == o.view && row.firstReceived == now
           && Recorded(None, o, row.request)
         case _ => o.requestId in db.raw && var previous := db.raw[o.requestId];
           && row.request.id == previous.request.id && row.firstReceived == previous.firstReceived
           && Extends(previous.request.view, row.request.view) && Extends(o.view, row.request.view)
           && Recorded(Some(previous.request), o, row.request)
    ensures db'.receipts ==
      db.receipts[ReceiptKey(o.kind, o.sourceKey) := Receipt(o.requestId, o.fingerprint, now, now)]
    ensures db'.committedCount == db.committedCount + 1 && db'.deadLetterCount == db.deadLetterCount
    ensures db'.deadLetters == db.deadLetters && db'.nextDeadLetter == db.nextDeadLetter
  {
    if o.requestId in db.raw {
      MergeIsLeastUpperBound(db.raw[o.requestId].request, o);
    }
  }

  // ----------------------------------------------------------------------------- whole runs

  predicate Failed(outcome: Outcome) {
    outcome == Done(DeadLettered)
  }

  function Commits(events: seq<Event>, n: nat): nat
    requires n <= |events|
  {
    if n == 0 then 0 else
    Commits(events, n - 1) + if events[n - 1].Deliver? && Committed(events[n - 1].outcome) then 1 else 0
  }

  function Failures(events: seq<Event>, n: nat): nat
    requires n <= |events|
  {
    if n == 0 then 0 else
    Failures(events, n - 1) + if events[n - 1].Deliver? && Failed(events[n - 1].outcome) then 1 else 0
  }

  /// The counters with so many commits and dead letters more.
  predicate Counted(db: Db, commits: nat, failures: nat, db': Db) {
    && db'.committedCount == db.committedCount + commits && db'.deadLetterCount == db.deadLetterCount + failures
    && db'.nextDeadLetter == db.nextDeadLetter + failures
  }

  lemma UncommittedCounts(pricer: Pricer, db: Db, o: Observation, checkedAt: int, now: int)
    requires Uncommitted(pricer, db, o, checkedAt, now).Some?
    ensures var r := Uncommitted(pricer, db, o, checkedAt, now).value;
      Counted(db, 0, if Failed(r.1) then 1 else 0, r.0)
  {
    if Refused(o, checkedAt) {
      return;
    }
    if ReceiptKeyOf(o) in db.receipts {
      if db.receipts[ReceiptKeyOf(o)].fingerprint == o.fingerprint {
        return;
      }
      return;
    }
    if MergedRequest(db.raw, o).None? {
      return;
    }
  }

  lemma IngestCounts(pricer: Pricer, db: Db, o: Observation, checkedAt: int, now: int, db': Db, outcome: Outcome)
    requires Ingested(pricer, db, o, checkedAt, now, db', outcome)
    ensures Counted(db, if Committed(outcome) then 1 else 0, if Failed(outcome) then 1 else 0, db')
  {
    if Committed(outcome) {
      CommitStores(pricer, db, o, checkedAt, now, db', outcome);
      return;
    }
    UncountedIngest(pricer, db, o, checkedAt, now, db', outcome);
    UncommittedCounts(pricer, db, o, checkedAt, now);
  }

  lemma StepCounts(pricer: Pricer, s: Store, e: Event, s': Store)
    requires Step(pricer, s, e, s')
    ensures Counted(s.db, if e.Deliver? && Committed(e.outcome) then 1 else 0,
      if e.Deliver? && Failed(e.outcome) then 1 else 0, s'.db)
  {
    match e
    case Deliver(o, checkedAt, now, outcome) => IngestCounts(pricer, s.db, o, checkedAt, now, s'.db, outcome); return;
    case Maintain(at, clock) => return;
  }

  /// The counters after `n` events.
  ghost predicate CountsMatch(db: Db, events: seq<Event>, n: nat)
    requires n <= |events|
  {
    Counted(EMPTY_DB, Commits(events, n), Failures(events, n), db)
  }

  lemma NothingCounted(pricer: Pricer, states: seq<Store>, events: seq<Event>)
    requires Run(pricer, states, events)
    ensures CountsMatch(states[0].db, events, 0)
  {
  }

  lemma OneMoreCounted(pricer: Pricer, s: Store, s': Store, events: seq<Event>, n: nat)
    requires n < |events| && Step(pricer, s, events[n], s') && CountsMatch(s.db, events, n)
    ensures CountsMatch(s'.db, events, n + 1)
  {
    StepCounts(pricer, s, events[n], s');
  }

  lemma StepAt(pricer: Pricer, states: seq<Store>, events: seq<Event>, n: nat)
    requires Run(pricer, states, events) && n < |events|
    ensures Step(pricer, states[n], events[n], states[n + 1])
  {
  }

  lemma {:induction false} CountsThroughout(pricer: Pricer, states: seq<Store>, events: seq<Event>, n: nat)
    requires Run(pricer, states, events) && n < |states|
    ensures CountsMatch(states[n].db, events, n)
  {
    if n == 0 {
      NothingCounted(pricer, states, events);
      return;
    }
    var m := n - 1;
    CountsThroughout(pricer, states, events, m);
    StepAt(pricer, states, events, m);
    OneMoreCounted(pricer, states[m], states[m + 1], events, m);
  }

  /** The engine's counters are the numbers of deliveries committed and dead-lettered, purges notwithstanding. */
  lemma CountersCount(pricer: Pricer, states: seq<Store>, events: seq<Event>, n: nat)
    requires Run(pricer, states, events) && n < |states|
    ensures states[n].db.committedCount == Commits(events, n)
    ensures states[n].db.deadLetterCount == Failures(events, n) == states[n].db.nextDeadLetter
  {
    CountsThroughout(pricer, states, events, n);
  }
}
