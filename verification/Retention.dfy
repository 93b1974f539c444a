/**
 Whole runs of the store: any interleaving of deliveries, redeliveries and maintenance. Every
 rollup stays the group-by of the rows it stands for, answers survive the purge of raw rows,
 and no source event is counted twice although its receipt is purged in the end.
 */
module Retention {
  import opened Basics
  import opened Requests
  import opened Rollup
  import opened Engine

  datatype Event =
    | Deliver(o: Observation, checkedAt: int, now: int, outcome: Outcome)
    | Maintain(at: int, clock: int)

  /// The tables with what a run needs to remember: every request ever committed, the source
  /// keys counted, the highest cutoffs used so far, and the clock.
  datatype Store = Store(
    db: Db,
    history: set<Row>,
    counted: set<ReceiptKey>,
    rawHigh: int,
    rollupHigh: int,
    clock: int)

  predicate Counts(e: Event) {
    e.Deliver? && Committed(e.outcome)
  }

  function Max(a: int, b: int): int {
    if a < b then b else a
  }

  /// The request log after a commit: an enriched request replaces its earlier row.
  function Logged(s: Store, o: Observation, db': Db): set<Row>
    requires o.requestId in db'.raw
  {
    s.history - (if o.requestId in s.db.raw then {s.db.raw[o.requestId]} else {}) + {db'.raw[o.requestId]}
  }

  ghost predicate Step(pricer: Pricer, s: Store, e: Event, s': Store) {
    match e
    case Deliver(o, checkedAt, now, outcome) =>
      && s.clock <= checkedAt <= now
      && Ingested(pricer, s.db, o, checkedAt, now, s'.db, outcome)
      && (Counts(e) ==> o.requestId in s'.db.raw)
      && s' == Store(s'.db,
           if Counts(e) then Logged(s, o, s'.db) else s.history,
           if Counts(e) then s.counted + {ReceiptKeyOf(o)} else s.counted,
           s.rawHigh, s.rollupHigh, now)
    case Maintain(at, clock) =>
      && s.clock <= clock && 0 <= at <= clock
      && Maintained(s.db, at, s'.db)
      && s' == Store(s'.db, s.history, s.counted, Max(s.rawHigh, RawCutoff(at)),
        Max(s.rollupHigh, RollupCutoff(at)), clock)
  }

  function Initial(clock: int): Store {
    Store(EMPTY_DB, {}, {}, 0, 0, clock)
  }

  /// A run: the states before and after each event, from the empty database.
  ghost predicate Run(pricer: Pricer, states: seq<Store>, events: seq<Event>) {
    && |states| == |events| + 1
    && states[0] == Initial(states[0].clock)
    && forall i {:trigger events[i]} | 0 <= i < |events| :: Step(pricer, states[i], events[i], states[i + 1])
  }

  // ---------------------------------------------------------------- the rollup invariant

  ghost predicate BucketExact(db: Db, rows: set<Row>, kind: BucketKind, bucket: int) {
    UsageExact(kind, UsageOf(db, kind), rows, bucket) && LatencyExact(kind, LatencyOf(db, kind), rows, bucket)
  }

  /// Every bucket from `since` on is the group-by of `rows`.
  ghost predicate RollupsExact(db: Db, rows: set<Row>, since: int) {
    forall kind, bucket | since <= bucket :: BucketExact(db, rows, kind, bucket)
  }

  ghost predicate Consistent(s: Store) {
    match s
    case Store(db, _, _, rawHigh, rollupHigh, _) =>
      Keyed(db) && RollupsExact(db, db.raw.Values, rawHigh)
      && rollupHigh <= rawHigh && rawHigh % DAY_MS == 0 && rollupHigh % DAY_MS == 0
  }

  lemma OtherBucketsUntouched(db: Db, o: Observation, db': Db, kind: BucketKind, bucket: int)
    requires Keyed(db) && o.requestId in db'.raw
    requires db'.raw == db.raw[o.requestId := db'.raw[o.requestId]]
    requires db'.raw[o.requestId].request.id == o.requestId
    requires db'.raw[o.requestId].request.view.occurredAt == o.view.occurredAt
    requires o.requestId in db.raw ==> db.raw[o.requestId].request.view.occurredAt == o.view.occurredAt
    requires bucket != BucketStart(kind, o.view.occurredAt)
    ensures InBucket(kind, db'.raw.Values, bucket) == InBucket(kind, db.raw.Values, bucket)
  {
    forall r ensures r in InBucket(kind, db'.raw.Values, bucket) <==> r in InBucket(kind, db.raw.Values, bucket) {
      if r in InBucket(kind, db'.raw.Values, bucket) {
        var id :| id in db'.raw && db'.raw[id] == r;
        assert id in db.raw && db.raw[id] == r;
      }
      if r in InBucket(kind, db.raw.Values, bucket) {
        var id :| id in db.raw && db.raw[id] == r;
        assert id in db'.raw && db'.raw[id] == r;
      }
    }
  }

  lemma AcceptedRow(db: Db, o: Observation, price: Pricing.PriceColumns, now: int, db': Db)
    requires Keyed(db) && MergedRequest(db.raw, o).Some? && Accepts(db, o, price, now, db')
    ensures Keyed(db') && o.requestId in db'.raw
    ensures db'.raw[o.requestId].request.id == o.requestId
    ensures db'.raw[o.requestId].request.view.occurredAt == o.view.occurredAt
    ensures o.requestId in db.raw ==> db.raw[o.requestId].request.view.occurredAt == o.view.occurredAt
  {
  }

  lemma UntouchedUsage(kind: BucketKind, start: int, table: UsageTable, table': UsageTable, rows: set<Row>, bucket: int)
    requires forall k: GroupKey | k.bucket !in {start} ::
      (k in table' <==> k in table) && (k in table ==> table'[k] == table[k])
    requires UsageExact(kind, table, rows, bucket) && bucket != start
    ensures UsageExact(kind, table', rows, bucket)
  {
  }

  lemma UntouchedLatency(kind: BucketKind, start: int, table: LatencyTable, table': LatencyTable, rows: set<Row>,
                         bucket: int)
    requires forall k: LatencyKey | k.group.bucket !in {start} ::
      (k in table' <==> k in table) && (k in table ==> table'[k] == table[k])
    requires LatencyExact(kind, table, rows, bucket) && bucket != start
    ensures LatencyExact(kind, table', rows, bucket)
  {
  }

  /// A bucket that was not rebuilt is exact for the same rows as before.
  lemma UntouchedTables(kind: BucketKind, at: int, db: Db, db': Db, rows: set<Row>, bucket: int)
    requires RebuiltAt(kind, at, db, db') && bucket != BucketStart(kind, at)
    requires BucketExact(db, rows, kind, bucket)
    ensures BucketExact(db', rows, kind, bucket)
  {
    UntouchedUsage(kind, BucketStart(kind, at), UsageOf(db, kind), UsageOf(db', kind), rows, bucket);
    UntouchedLatency(kind, BucketStart(kind, at), LatencyOf(db, kind), LatencyOf(db', kind), rows, bucket);
  }

  lemma TouchedTables(kind: BucketKind, at: int, db: Db, db': Db)
    requires RebuiltAt(kind, at, db, db')
    ensures BucketExact(db', db'.raw.Values, kind, BucketStart(kind, at))
  {
  }

  /** Rebuilding only the touched buckets keeps every other bucket exact too. */
  lemma AcceptKeepsRollups(db: Db, o: Observation, price: Pricing.PriceColumns, now: int, db': Db, since: int)
    requires Keyed(db) && RollupsExact(db, db.raw.Values, since)
    requires MergedRequest(db.raw, o).Some? && Accepts(db, o, price, now, db')
    ensures RollupsExact(db', db'.raw.Values, since)
  {
    AcceptedRow(db, o, price, now, db');
    var at := o.view.occurredAt;
    assert RebuiltAt(Hour, at, db, db') && RebuiltAt(Day, at, db, db');
    forall kind, bucket | since <= bucket ensures BucketExact(db', db'.raw.Values, kind, bucket) {
      if bucket == BucketStart(kind, at) {
        TouchedTables(kind, at, db, db');
      } else {
        assert BucketExact(db, db.raw.Values, kind, bucket);
        OtherBucketsUntouched(db, o, db', kind, bucket);
        UntouchedTables(kind, at, db, db', db.raw.Values, bucket);
        OnlyTheBucketMatters(kind, db'.raw.Values, db.raw.Values, bucket);
      }
    }
  }

  lemma UsagePurgeKeepsBucket(table: UsageTable, cutoff: int, table': UsageTable, rows: set<Row>, kind: BucketKind,
                              bucket: int)
    requires Purged(table, ExpiredUsage(table, cutoff), table') && cutoff <= bucket
    requires UsageExact(kind, table, rows, bucket)
    ensures UsageExact(kind, table', rows, bucket)
  {
    forall k: GroupKey | k.bucket == bucket
      ensures (k in table' <==> k in table) && (k in table ==> table'[k] == table[k])
    {
      assert k !in ExpiredUsage(table, cutoff);
    }
  }

  lemma LatencyPurgeKeepsBucket(table: LatencyTable, cutoff: int, table': LatencyTable, rows: set<Row>,
                                kind: BucketKind, bucket: int)
    requires Purged(table, ExpiredLatency(table, cutoff), table') && cutoff <= bucket
    requires LatencyExact(kind, table, rows, bucket)
    ensures LatencyExact(kind, table', rows, bucket)
  {
    forall k: LatencyKey | k.group.bucket == bucket
      ensures (k in table' <==> k in table) && (k in table ==> table'[k] == table[k])
    {
      assert k !in ExpiredLatency(table, cutoff);
    }
  }

  /// Maintenance does not touch a bucket at or after its rollup cutoff.
  lemma MaintenanceKeepsBucket(db: Db, at: int, db': Db, rows: set<Row>, kind: BucketKind, bucket: int)
    requires Maintained(db, at, db') && RollupCutoff(at) <= bucket
    requires BucketExact(db, rows, kind, bucket)
    ensures BucketExact(db', rows, kind, bucket)
  {
    UsagePurgeKeepsBucket(UsageOf(db, kind), RollupCutoff(at), UsageOf(db', kind), rows, kind, bucket);
    LatencyPurgeKeepsBucket(LatencyOf(db, kind), RollupCutoff(at), LatencyOf(db', kind), rows, kind, bucket);
  }

  /// Nor does it purge a raw row of a bucket at or after the raw cutoff.
  lemma MaintenanceKeepsRows(raw: map<Hash, Row>, cutoff: int, raw': map<Hash, Row>, kind: BucketKind, bucket: int)
    requires Purged(raw, ExpiredRaw(raw, cutoff), raw') && cutoff <= bucket
    ensures InBucket(kind, raw'.Values, bucket) == InBucket(kind, raw.Values, bucket)
  {
    forall r | r in InBucket(kind, raw.Values, bucket) ensures r in raw'.Values {
      var id :| id in raw && raw[id] == r;
      assert id !in ExpiredRaw(raw, cutoff);
      assert id in raw';
    }
  }

  lemma MaintenanceKeepsRollups(db: Db, at: int, db': Db, since: int)
    requires RollupsExact(db, db.raw.Values, since) && Maintained(db, at, db') && RawCutoff(at) <= since
    ensures RollupsExact(db', db'.raw.Values, since)
  {
    forall kind, bucket | since <= bucket ensures BucketExact(db', db'.raw.Values, kind, bucket) {
      assert BucketExact(db, db.raw.Values, kind, bucket);
      MaintenanceKeepsBucket(db, at, db', db.raw.Values, kind, bucket);
      MaintenanceKeepsRows(db.raw, RawCutoff(at), db'.raw, kind, bucket);
      OnlyTheBucketMatters(kind, db'.raw.Values, db.raw.Values, bucket);
    }
  }

  /// The receipts differ at most in the observation's own, written at `now`.
  ghost predicate Touched(db: Db, o: Observation, now: int, receipt: Receipt, db': Db) {
    db'.receipts == db.receipts[ReceiptKeyOf(o) := receipt] && receipt.lastReceived == now
  }

  /// An ingest that commits nothing writes no other receipt.
  lemma UncommittedReceipt(pricer: Pricer, db: Db, o: Observation, checkedAt: int, now: int)
    returns (receipt: Option<Receipt>)
    requires Uncommitted(pricer, db, o, checkedAt, now).Some?
    ensures var db' := Uncommitted(pricer, db, o, checkedAt, now).value.0;
      if receipt.Some? then Touched(db, o, now, receipt.value, db') else db'.receipts == db.receipts
  {
    if Refused(o, checkedAt) {
      return None;
    }
    if ReceiptKeyOf(o) in db.receipts {
      var present := db.receipts[ReceiptKeyOf(o)];
      return if present.fingerprint == o.fingerprint then Some(present.(lastReceived := now)) else None;
    }
    receipt := if MergedRequest(db.raw, o).None? then Some(Receipt(o.requestId, o.fingerprint, now, now)) else None;
  }

  /// What is not committed is what `Uncommitted` says.
  lemma UncountedIngest(pricer: Pricer, db: Db, o: Observation, checkedAt: int, now: int, db': Db, outcome: Outcome)
    requires Ingested(pricer, db, o, checkedAt, now, db', outcome) && !Committed(outcome)
    ensures Uncommitted(pricer, db, o, checkedAt, now) == Some((db', outcome)) && SameRows(db, db')
  {
  }

  lemma CountedIngest(pricer: Pricer, db: Db, o: Observation, checkedAt: int, now: int, db': Db, outcome: Outcome)
    returns (price: Pricing.PriceColumns)
    requires Ingested(pricer, db, o, checkedAt, now, db', outcome) && Committed(outcome)
    ensures !Refused(o, checkedAt) && ReceiptKeyOf(o) !in db.receipts
    ensures Touched(db, o, now, Receipt(o.requestId, o.fingerprint, now, now), db')
    ensures MergedRequest(db.raw, o).Some? && Accepts(db, o, price, now, db')
  {
    price := pricer(MergedRequest(db.raw, o).value.view).value;
  }

  lemma CutoffAligned(at: int)
    ensures RawCutoff(at) % DAY_MS == 0 && RollupCutoff(at) % DAY_MS == 0 && RollupCutoff(at) < RawCutoff(at)
  {
    assert RollupCutoff(at) == DAY_MS * (at / DAY_MS - ROLLUP_DAYS);
    assert RawCutoff(at) == DAY_MS * (at / DAY_MS - RAW_DAYS);
  }

  lemma StepKeepsConsistent(pricer: Pricer, s: Store, e: Event, s': Store)
    requires Step(pricer, s, e, s') && Consistent(s)
    ensures Consistent(s')
  {
    match e
    case Deliver(o, checkedAt, now, outcome) =>
      if Counts(e) {
        var price := CountedIngest(pricer, s.db, o, checkedAt, now, s'.db, outcome);
        AcceptedRow(s.db, o, price, now, s'.db);
        AcceptKeepsRollups(s.db, o, price, now, s'.db, s.rawHigh);
      } else {
        UncountedIngest(pricer, s.db, o, checkedAt, now, s'.db, outcome);
        forall kind, bucket | s'.rawHigh <= bucket ensures BucketExact(s'.db, s'.db.raw.Values, kind, bucket) {
          assert BucketExact(s.db, s.db.raw.Values, kind, bucket);
        }
      }
    case Maintain(at, clock) =>
      CutoffAligned(at);
      assert RollupsExact(s.db, s.db.raw.Values, s'.rawHigh) by {
        forall kind, bucket | s'.rawHigh <= bucket ensures BucketExact(s.db, s.db.raw.Values, kind, bucket) {
        }
      }
      MaintenanceKeepsRollups(s.db, at, s'.db, s'.rawHigh);
  }

  lemma InitialConsistent(clock: int)
    ensures Consistent(Initial(clock))
  {
  }

  /**
   In every reachable state, every hour and day bucket at or after the highest raw cutoff used so
   far is exactly the group-by of the raw table, histograms included.
   */
  lemma RollupInvariant(pricer: Pricer, states: seq<Store>, events: seq<Event>, n: nat)
    requires Run(pricer, states, events) && n < |states|
    ensures forall i | 0 <= i <= n :: Consistent(states[i])
  {
    var good := (s: Store) => Consistent(s);
    InitialConsistent(states[0].clock);
    forall i | 0 <= i < n && good(states[i]) ensures good(states[i + 1]) {
      StepKeepsConsistent(pricer, states[i], events[i], states[i + 1]);
    }
    HoldsThroughout(states, good, n);
    assert forall i | 0 <= i <= n :: good(states[i]);
  }

  // -------------------------------------------------------- answers that survive the purge

  /// The log agrees with the raw table where nothing was purged, and every bucket that has not
  /// expired answers for the whole log.
  ghost predicate Remembers(s: Store) {
    match s
    case Store(db, history, _, rawHigh, rollupHigh, _) =>
      && db.raw.Values <= history
      && (forall kind, bucket | rawHigh <= bucket ::
        InBucket(kind, history, bucket) == InBucket(kind, db.raw.Values, bucket))
      && RollupsExact(db, history, rollupHigh)
  }

  /// The event commits nothing below the highest raw cutoff.
  predicate NotLate(s: Store, e: Event) {
    Counts(e) ==> s.rawHigh <= e.o.view.occurredAt
  }

  lemma BucketStartsAfterCutoff(kind: BucketKind, cutoff: int, at: int)
    requires cutoff % DAY_MS == 0 && cutoff <= at
    ensures cutoff <= BucketStart(kind, at)
  {
    var days := cutoff / DAY_MS;
    assert cutoff == Size(kind) * (days * (DAY_MS / Size(kind)));
  }

  lemma RawValuesAfter(db: Db, o: Observation, price: Pricing.PriceColumns, now: int, db': Db)
    requires Keyed(db) && MergedRequest(db.raw, o).Some? && Accepts(db, o, price, now, db')
    ensures db'.raw.Values ==
      db.raw.Values - (if o.requestId in db.raw then {db.raw[o.requestId]} else {}) + {db'.raw[o.requestId]}
  {
    var before := db.raw.Values - (if o.requestId in db.raw then {db.raw[o.requestId]} else {});
    forall r ensures r in db'.raw.Values <==> r in before + {db'.raw[o.requestId]} {
      if r in before {
        var id :| id in db.raw && db.raw[id] == r;
        assert db'.raw[id] == r;
      }
      if r in db'.raw.Values && r != db'.raw[o.requestId] {
        var id :| id in db'.raw && db'.raw[id] == r;
        assert id != o.requestId && db.raw[id] == r;
      }
    }
  }

  lemma AcceptKeepsMemory(s: Store, o: Observation, price: Pricing.PriceColumns, now: int, db': Db)
    requires Consistent(s) && Remembers(s) && s.rawHigh <= o.view.occurredAt
    requires MergedRequest(s.db.raw, o).Some? && Accepts(s.db, o, price, now, db')
    ensures o.requestId in db'.raw
    ensures Remembers(s.(db := db', history := Logged(s, o, db')))
  {
    var at, history' := o.view.occurredAt, Logged(s, o, db');
    AcceptedRow(s.db, o, price, now, db');
    RawValuesAfter(s.db, o, price, now, db');
    assert RebuiltAt(Hour, at, s.db, db') && RebuiltAt(Day, at, s.db, db');
    forall kind, bucket | s.rawHigh <= bucket
      ensures InBucket(kind, history', bucket) == InBucket(kind, db'.raw.Values, bucket)
    {
      assert InBucket(kind, s.history, bucket) == InBucket(kind, s.db.raw.Values, bucket);
      SameChange(kind, bucket, s.history, s.db.raw.Values,
        if o.requestId in s.db.raw then {s.db.raw[o.requestId]} else {}, {db'.raw[o.requestId]});
    }
    forall kind, bucket | s.rollupHigh <= bucket ensures BucketExact(db', history', kind, bucket) {
      if bucket == BucketStart(kind, at) {
        BucketStartsAfterCutoff(kind, s.rawHigh, at);
        TouchedTables(kind, at, s.db, db');
        OnlyTheBucketMatters(kind, history', db'.raw.Values, bucket);
      } else {
        assert BucketExact(s.db, s.history, kind, bucket);
        UntouchedTables(kind, at, s.db, db', s.history, bucket);
        assert InBucket(kind, history', bucket) == InBucket(kind, s.history, bucket);
        OnlyTheBucketMatters(kind, history', s.history, bucket);
      }
    }
  }

  lemma SameChange(kind: BucketKind, bucket: int, a: set<Row>, b: set<Row>, gone: set<Row>, added: set<Row>)
    requires InBucket(kind, a, bucket) == InBucket(kind, b, bucket)
    ensures InBucket(kind, a - gone + added, bucket) == InBucket(kind, b - gone + added, bucket)
  {
    forall r ensures r in InBucket(kind, a - gone + added, bucket) <==> r in InBucket(kind, b - gone + added, bucket) {
      assert r in InBucket(kind, a, bucket) <==> r in InBucket(kind, b, bucket);
    }
  }

  lemma StepKeepsMemory(pricer: Pricer, s: Store, e: Event, s': Store)
    requires Step(pricer, s, e, s') && Consistent(s) && Remembers(s) && NotLate(s, e)
    ensures Remembers(s')
  {
    match e
    case Deliver(o, checkedAt, now, outcome) =>
      if Counts(e) {
        var price := CountedIngest(pricer, s.db, o, checkedAt, now, s'.db, outcome);
        AcceptKeepsMemory(s, o, price, now, s'.db);
      } else {
        UncountedIngest(pricer, s.db, o, checkedAt, now, s'.db, outcome);
        forall kind, bucket | s'.rollupHigh <= bucket ensures BucketExact(s'.db, s'.history, kind, bucket) {
          assert BucketExact(s.db, s.history, kind, bucket);
        }
      }
    case Maintain(at, clock) =>
      forall kind, bucket | s'.rawHigh <= bucket
        ensures InBucket(kind, s'.history, bucket) == InBucket(kind, s'.db.raw.Values, bucket)
      {
        MaintenanceKeepsRows(s.db.raw, RawCutoff(at), s'.db.raw, kind, bucket);
      }
      forall kind, bucket | s'.rollupHigh <= bucket ensures BucketExact(s'.db, s'.history, kind, bucket) {
        assert BucketExact(s.db, s.history, kind, bucket);
        MaintenanceKeepsBucket(s.db, at, s'.db, s.history, kind, bucket);
      }
  }

  /**
   Compaction preserves answers: if no event is ever accepted below the highest raw cutoff, every
   bucket that has not expired is the group-by of all requests ever committed, purged ones included.
   */
  lemma CompactionPreservesAnswers(pricer: Pricer, states: seq<Store>, events: seq<Event>, n: nat)
    requires Run(pricer, states, events) && n < |states|
    requires forall i | 0 <= i < n :: NotLate(states[i], events[i])
    ensures forall i | 0 <= i <= n :: Remembers(states[i])
  {
    var good := (s: Store) => Consistent(s) && Remembers(s);
    InitialConsistent(states[0].clock);
    forall i | 0 <= i < n && good(states[i]) ensures good(states[i + 1]) {
      StepKeepsConsistent(pricer, states[i], events[i], states[i + 1]);
      StepKeepsMemory(pricer, states[i], events[i], states[i + 1]);
    }
    HoldsThroughout(states, good, n);
    assert forall i | 0 <= i <= n :: good(states[i]);
  }

  lemma {:induction false} RequestsCountMembers(rows: set<Row>)
    ensures Sum(rows, Requests) == |rows|
    decreases |rows|
  {
    if rows != {} {
      var r :| r in rows;
      SumRemove(rows, r, Requests);
      RequestsCountMembers(rows - {r});
    }
  }

  lemma RequestsGrow(few: set<Row>, many: set<Row>)
    requires few < many
    ensures Sum(few, Requests) < Sum(many, Requests)
  {
    RequestsCountMembers(few);
    RequestsCountMembers(many);
    assert many == few + (many - few) && many - few != {};
  }

  // ------------------------------------------------------------------------- exactly once

  /// Each source key belongs to one event, whose date is `date`; no event is dated after its receipt.
  ghost predicate Dated(e: Event, date: ReceiptKey -> nat) {
    e.Deliver? ==> e.o.view.occurredAt == date(ReceiptKeyOf(e.o)) <= e.now
  }

  /// An event too old to be accepted at any later time.
  predicate Gone(date: nat, clock: int) {
    date < clock - ROLLUP_DAYS * DAY_MS
  }

  /// A receipt is at least as young as the event it guards, and whatever was counted is either
  /// still guarded by its receipt or too old to be accepted again.
  ghost predicate Guarded(s: Store, date: ReceiptKey -> nat) {
    match s
    case Store(db, _, counted, _, _, clock) =>
      && (forall k | k in db.receipts :: date(k) <= db.receipts[k].lastReceived)
      && (forall k | k in counted :: k in db.receipts || Gone(date(k), clock))
  }

  /** A receipt is purged only when the event it guards would already be refused. */
  lemma PurgedReceiptIsGone(pricer: Pricer, s: Store, e: Event, s': Store, date: ReceiptKey -> nat, k: ReceiptKey)
    requires Step(pricer, s, e, s') && e.Maintain? && Guarded(s, date)
    requires k in s.db.receipts && k !in s'.db.receipts
    ensures Gone(date(k), s'.clock)
    ensures forall o, checkedAt | ReceiptKeyOf(o) == k && o.view.occurredAt == date(k) && s'.clock <= checkedAt ::
      Refused(o, checkedAt)
  {
    assert k in ExpiredReceipts(s.db.receipts, RollupCutoff(e.at));
  }

  lemma DeliverKeepsGuarded(pricer: Pricer, s: Store, e: Event, s': Store, date: ReceiptKey -> nat)
    requires Step(pricer, s, e, s') && e.Deliver? && Guarded(s, date) && Dated(e, date)
    ensures Guarded(s', date)
    ensures Counts(e) ==> ReceiptKeyOf(e.o) !in s.counted
  {
    if Counts(e) {
      var _ := CountedIngest(pricer, s.db, e.o, e.checkedAt, e.now, s'.db, e.outcome);
    } else {
      UncountedIngest(pricer, s.db, e.o, e.checkedAt, e.now, s'.db, e.outcome);
      var _ := UncommittedReceipt(pricer, s.db, e.o, e.checkedAt, e.now);
    }
  }

  lemma MaintainKeepsGuarded(pricer: Pricer, s: Store, e: Event, s': Store, date: ReceiptKey -> nat)
    requires Step(pricer, s, e, s') && e.Maintain? && Guarded(s, date)
    ensures Guarded(s', date)
  {
    forall k | k in s'.counted ensures k in s'.db.receipts || Gone(date(k), s'.clock) {
      if k in s.db.receipts && k !in s'.db.receipts {
        PurgedReceiptIsGone(pricer, s, e, s', date, k);
      }
    }
  }

  lemma GuardedThroughout(pricer: Pricer, states: seq<Store>, events: seq<Event>, date: ReceiptKey -> nat, n: nat)
    requires Run(pricer, states, events) && n < |states|
    requires forall e | e in events :: Dated(e, date)
    ensures forall i | 0 <= i <= n :: Guarded(states[i], date)
  {
    var good := (s: Store) => Guarded(s, date);
    forall i | 0 <= i < n && good(states[i]) ensures good(states[i + 1]) {
      assert events[i] in events;
      if events[i].Deliver? {
        DeliverKeepsGuarded(pricer, states[i], events[i], states[i + 1], date);
      } else {
        MaintainKeepsGuarded(pricer, states[i], events[i], states[i + 1], date);
      }
    }
    HoldsThroughout(states, good, n);
    assert forall i | 0 <= i <= n :: good(states[i]);
  }

  lemma {:induction false} CountedForever(pricer: Pricer, states: seq<Store>, events: seq<Event>, i: nat, j: nat)
    requires Run(pricer, states, events) && i <= j < |states|
    ensures states[i].counted <= states[j].counted
  {
    if i < j {
      CountedForever(pricer, states, events, i, j - 1);
      assert Step(pricer, states[j - 1], events[j - 1], states[j]);
    }
  }

  lemma CountedAfter(pricer: Pricer, states: seq<Store>, events: seq<Event>, i: nat)
    requires Run(pricer, states, events) && i < |events| && Counts(events[i])
    ensures ReceiptKeyOf(events[i].o) in states[i + 1].counted
  {
    assert Step(pricer, states[i], events[i], states[i + 1]);
  }

  lemma NotCountedBefore(pricer: Pricer, states: seq<Store>, events: seq<Event>, date: ReceiptKey -> nat, j: nat)
    requires Run(pricer, states, events) && j < |events| && Counts(events[j])
    requires forall e | e in events :: Dated(e, date)
    ensures ReceiptKeyOf(events[j].o) !in states[j].counted
  {
    GuardedThroughout(pricer, states, events, date, j);
    assert events[j] in events;
    assert Step(pricer, states[j], events[j], states[j + 1]);
    DeliverKeepsGuarded(pricer, states[j], events[j], states[j + 1], date);
  }

  /** No two events of a run count the same source key, however receipts are purged in between. */
  lemma ExactlyOnce(pricer: Pricer, states: seq<Store>, events: seq<Event>, date: ReceiptKey -> nat, i: nat, j: nat)
    requires Run(pricer, states, events) && i < j < |events|
    requires forall e | e in events :: Dated(e, date)
    requires Counts(events[i]) && Counts(events[j])
    ensures ReceiptKeyOf(events[i].o) != ReceiptKeyOf(events[j].o)
  {
    CountedAfter(pricer, states, events, i);
    CountedForever(pricer, states, events, i + 1, j);
    NotCountedBefore(pricer, states, events, date, j);
  }

  /**
   In any state, whatever was counted before: an event is counted exactly when it is in retention, has
   no receipt, does not conflict with the row of its request, and can be priced.
   */
  lemma CountedIff(pricer: Pricer, s: Store, e: Event, s': Store)
    requires Step(pricer, s, e, s') && e.Deliver?
    ensures Counts(e) <==>
      && !Refused(e.o, e.checkedAt) && ReceiptKeyOf(e.o) !in s.db.receipts
      && MergedRequest(s.db.raw, e.o).Some? && pricer(MergedRequest(s.db.raw, e.o).value.view).Some?
  {
    if Counts(e) {
      var _ := CountedIngest(pricer, s.db, e.o, e.checkedAt, e.now, s'.db, e.outcome);
    }
  }

  // ----------------------------------------------------------------------------- safe costs

  ghost predicate PricesSafely(pricer: Pricer) {
    forall v :: pricer(v).Some? ==> Pricing.SafePrice(pricer(v).value)
  }

  ghost predicate CostsSafe(s: Store) {
    forall id | id in s.db.raw :: Pricing.SafePrice(s.db.raw[id].price)
  }

  lemma StepKeepsCostsSafe(pricer: Pricer, s: Store, e: Event, s': Store)
    requires PricesSafely(pricer) && Step(pricer, s, e, s') && CostsSafe(s)
    ensures CostsSafe(s')
  {
    if Counts(e) {
      var price := CountedIngest(pricer, s.db, e.o, e.checkedAt, e.now, s'.db, e.outcome);
      var v := MergedRequest(s.db.raw, e.o).value.view;
      assert pricer(v).Some?;
    } else if e.Deliver? {
      UncountedIngest(pricer, s.db, e.o, e.checkedAt, e.now, s'.db, e.outcome);
    }
  }

  /** In every reachable state of the engine's own pricer, every stored cost is a safe integer. */
  lemma StoredCostsStaySafe(rules: seq<Pricing.Rule>, collate: (string, string) -> int, states: seq<Store>,
                            events: seq<Event>, n: nat)
    requires Run(v => Pricing.Price(rules, SubjectOf(v), Requests.Counts(v), collate), states, events) && n < |states|
    ensures forall i | 0 <= i <= n :: CostsSafe(states[i])
  {
    var pricer: Pricer := v => Pricing.Price(rules, SubjectOf(v), Requests.Counts(v), collate);
    forall v ensures pricer(v).Some? ==> Pricing.SafePrice(pricer(v).value) {
      Pricing.StoredCostsAreSafe(rules, SubjectOf(v), Requests.Counts(v), collate);
    }
    var good := (s: Store) => CostsSafe(s);
    forall i | 0 <= i < n && good(states[i]) ensures good(states[i + 1]) {
      StepKeepsCostsSafe(pricer, states[i], events[i], states[i + 1]);
    }
    HoldsThroughout(states, good, n);
    assert forall i | 0 <= i <= n :: good(states[i]);
  }
}
