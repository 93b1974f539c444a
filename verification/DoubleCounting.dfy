/**
 Why exactly-once counting needs its three hypotheses. Every delivery and every maintenance run can
 take place in every state; and after one of each, a second event under the same source key is counted
 again exactly when the first event's receipt and row have both expired and the second has not.
 */
module DoubleCounting {
  import opened Basics
  import opened Requests
  import opened Rollup
  import opened Engine
  import opened Retention

  // ------------------------------------------------------------ every step can be taken

  lemma {:induction false} TimesExist(rows: set<Row>) returns (first: int, last: int)
    requires rows != {}
    ensures forall r | r in rows :: first <= r.request.view.occurredAt <= last
    ensures exists r | r in rows :: r.request.view.occurredAt == first
    ensures exists r | r in rows :: r.request.view.occurredAt == last
    decreases |rows|
  {
    var r :| r in rows;
    var at := r.request.view.occurredAt;
    if rows == {r} {
      return at, at;
    }
    first, last := TimesExist(rows - {r});
    assert rows == (rows - {r}) + {r};
    first, last := if at < first then at else first, if at > last then at else last;
  }

  lemma GroupExists(members: set<Row>) returns (u: Usage)
    requires members != {}
    ensures Aggregates(u, members)
  {
    var first, last := TimesExist(members);
    u := Usage(map c | c in COLUMNS :: Sum(members, c), first, last);
  }

  ghost function GroupOf(members: set<Row>): (u: Usage)
    requires members != {}
    ensures Aggregates(u, members)
  {
    assert exists u :: Aggregates(u, members) by {
      var u := GroupExists(members);
    }
    var u :| Aggregates(u, members);
    u
  }

  ghost function RebuiltUsage(kind: BucketKind, rows: set<Row>, bucket: int, table: UsageTable): UsageTable {
    (map k | k in table && k.bucket != bucket :: table[k]) + (map k | k in UsageKeys(kind, rows, bucket) ::
      GroupOf(Members(kind, rows, k)))
  }

  ghost function RebuiltLatency(kind: BucketKind, rows: set<Row>, bucket: int, table: LatencyTable): LatencyTable {
    (map k | k in table && k.group.bucket != bucket :: table[k])
    + (map k | k in LatencyKeys(kind, FirstToken, rows, bucket) + LatencyKeys(kind, Duration, rows, bucket) ::
      |Samples(kind, rows, k)|)
  }

  lemma RebuiltUsageExact(kind: BucketKind, rows: set<Row>, bucket: int, table: UsageTable)
    ensures UsageExact(kind, RebuiltUsage(kind, rows, bucket, table), rows, bucket)
    ensures SameElsewhere(table, RebuiltUsage(kind, rows, bucket, table), bucket)
  {
    var keys := UsageKeys(kind, rows, bucket);
    forall k: GroupKey | k.bucket == bucket
      ensures k in RebuiltUsage(kind, rows, bucket, table) <==> k in keys
      ensures k in keys ==> RebuiltUsage(kind, rows, bucket, table)[k] == GroupOf(Members(kind, rows, k))
    {
    }
  }

  ghost predicate SameElsewhere(table: UsageTable, table': UsageTable, bucket: int) {
    forall k: GroupKey | k.bucket != bucket :: (k in table' <==> k in table) && (k in table ==> table'[k] == table[k])
  }

  lemma RebuiltLatencyExact(kind: BucketKind, rows: set<Row>, bucket: int, table: LatencyTable)
    ensures LatencyExact(kind, RebuiltLatency(kind, rows, bucket, table), rows, bucket)
  {
    LatencyKeysExact(kind, FirstToken, rows, bucket);
    LatencyKeysExact(kind, Duration, rows, bucket);
    var keys := LatencyKeys(kind, FirstToken, rows, bucket) + LatencyKeys(kind, Duration, rows, bucket);
    forall k: LatencyKey | k.group.bucket == bucket
      ensures k in keys <==> Samples(kind, rows, k) != {}
      ensures k in RebuiltLatency(kind, rows, bucket, table) <==> k in keys
    {
    }
  }

  lemma SameLatencyElsewhere(kind: BucketKind, rows: set<Row>, bucket: int, table: LatencyTable, k: LatencyKey)
    requires k.group.bucket != bucket
    ensures var table' := RebuiltLatency(kind, rows, bucket, table);
      (k in table' <==> k in table) && (k in table ==> table'[k] == table[k])
  {
    LatencyKeysExact(kind, FirstToken, rows, bucket);
    LatencyKeysExact(kind, Duration, rows, bucket);
  }

  lemma RebuildExists(kind: BucketKind, rows: set<Row>, bucket: int, usage: UsageTable, latency: LatencyTable)
    ensures Rebuilt(kind, rows, {bucket}, usage, RebuiltUsage(kind, rows, bucket, usage), latency,
      RebuiltLatency(kind, rows, bucket, latency))
  {
    RebuiltUsageExact(kind, rows, bucket, usage);
    RebuiltLatencyExact(kind, rows, bucket, latency);
    forall k: LatencyKey | k.group.bucket !in {bucket}
      ensures var table' := RebuiltLatency(kind, rows, bucket, latency);
        (k in table' <==> k in latency) && (k in latency ==> table'[k] == latency[k])
    {
      SameLatencyElsewhere(kind, rows, bucket, latency, k);
    }
  }

  ghost function AfterCommit(db: Db, o: Observation, price: Pricing.PriceColumns, now: int): Db
    requires MergedRequest(db.raw, o).Some?
  {
    var raw := db.raw[o.requestId := StoredRow(db.raw, o, price, now)];
    var hour, day := BucketStart(Hour, o.view.occurredAt), BucketStart(Day, o.view.occurredAt);
    WithReceipt(db, o, now).(
      raw := raw,
      hourly := RebuiltUsage(Hour, raw.Values, hour, db.hourly),
      daily := RebuiltUsage(Day, raw.Values, day, db.daily),
      latencyHourly := RebuiltLatency(Hour, raw.Values, hour, db.latencyHourly),
      latencyDaily := RebuiltLatency(Day, raw.Values, day, db.latencyDaily),
      committedCount := db.committedCount + 1)
  }

  lemma CommitExists(db: Db, o: Observation, price: Pricing.PriceColumns, now: int)
    requires MergedRequest(db.raw, o).Some?
    ensures Accepts(db, o, price, now, AfterCommit(db, o, price, now))
  {
    var raw := db.raw[o.requestId := StoredRow(db.raw, o, price, now)];
    RebuildExists(Hour, raw.Values, BucketStart(Hour, o.view.occurredAt), db.hourly, db.latencyHourly);
    RebuildExists(Day, raw.Values, BucketStart(Day, o.view.occurredAt), db.daily, db.latencyDaily);
  }

  /** Every delivery has an outcome, in every state of the tables. */
  lemma IngestExists(pricer: Pricer, db: Db, o: Observation, checkedAt: int, now: int)
    returns (db': Db, outcome: Outcome)
    ensures Ingested(pricer, db, o, checkedAt, now, db', outcome)
  {
    match Uncommitted(pricer, db, o, checkedAt, now)
    case Some(result) => db', outcome := result.0, result.1;
    case None =>
      var price := pricer(MergedRequest(db.raw, o).value.view).value;
      CommitExists(db, o, price, now);
      db', outcome := AfterCommit(db, o, price, now), Done(if o.requestId in db.raw then Enriched else Inserted);
  }

  lemma {:induction false} SubsetOfSize<K>(keys: set<K>, n: nat) returns (part: set<K>)
    requires n <= |keys|
    ensures part <= keys && |part| == n
    decreases |keys|
  {
    if n == |keys| {
      return keys;
    }
    var k :| k in keys;
    part := SubsetOfSize(keys - {k}, n);
  }

  lemma PurgeExists<K, V>(table: map<K, V>, expired: set<K>) returns (table': map<K, V>)
    requires expired <= table.Keys
    ensures Purged(table, expired, table')
  {
    var part := SubsetOfSize(expired, Min(|expired|, DELETE_BATCH * MAX_DELETE_BATCHES));
    table' := table - part;
    assert table.Keys - table'.Keys == part;
  }

  /** Every maintenance run can take place, in every state of the tables. */
  lemma MaintenanceExists(db: Db, at: int) returns (db': Db)
    ensures Maintained(db, at, db')
  {
    var raw := PurgeExists(db.raw, ExpiredRaw(db.raw, RawCutoff(at)));
    var deadLetters := PurgeExists(db.deadLetters, ExpiredDeadLetters(db.deadLetters, RawCutoff(at)));
    var hourly := PurgeExists(db.hourly, ExpiredUsage(db.hourly, RollupCutoff(at)));
    var daily := PurgeExists(db.daily, ExpiredUsage(db.daily, RollupCutoff(at)));
    var latencyHourly := PurgeExists(db.latencyHourly, ExpiredLatency(db.latencyHourly, RollupCutoff(at)));
    var latencyDaily := PurgeExists(db.latencyDaily, ExpiredLatency(db.latencyDaily, RollupCutoff(at)));
    var receipts := PurgeExists(db.receipts, ExpiredReceipts(db.receipts, RollupCutoff(at)));
    db' := db.(raw := raw, deadLetters := deadLetters, hourly := hourly, daily := daily,
      latencyHourly := latencyHourly, latencyDaily := latencyDaily, receipts := receipts);
  }

  // ------------------------------------------------------------------- counted again

  /// One event is counted, maintenance is run, and another event of the same key and request arrives.
  datatype Case = Case(first: Observation, second: Observation, received: int, at: int, now: int)

  predicate SameKey(c: Case) {
    ReceiptKeyOf(c.first) == ReceiptKeyOf(c.second) && c.first.requestId == c.second.requestId
  }

  /// A purge at time `at`, which may be ahead of the clock.
  ghost predicate PurgedAt(s: Store, at: int, clock: int, s': Store) {
    && Maintained(s.db, at, s'.db)
    && s' == Store(s'.db, s.history, s.counted, Max(s.rawHigh, RawCutoff(at)),
      Max(s.rollupHigh, RollupCutoff(at)), clock)
  }

  ghost predicate Happens(pricer: Pricer, c: Case, s1: Store, s2: Store, s3: Store, outcome: Outcome) {
    && SameKey(c) && pricer(c.first.view).Some? && pricer(c.second.view).Some? && c.received <= c.now
    && Step(pricer, Initial(c.received), Deliver(c.first, c.received, c.received, Done(Inserted)), s1)
    && PurgedAt(s1, c.at, c.now, s2)
    && Step(pricer, s2, Deliver(c.second, c.now, c.now, outcome), s3)
  }

  /// The first event's receipt and row have expired at the maintenance, and the second event is in retention.
  predicate Recounts(c: Case) {
    c.received < RollupCutoff(c.at) && c.first.view.occurredAt < RawCutoff(c.at) && !Refused(c.second, c.now)
  }

  lemma PurgedOne<K, V>(table: map<K, V>, k: K, v: V, expired: set<K>, table': map<K, V>)
    requires table == map[k := v] && expired <= {k} && Purged(table, expired, table')
    ensures table' == if k in expired then map[] else table
  {
    assert table.Keys == {k};
    if k in expired {
      assert expired == {k} && |table.Keys - table'.Keys| == 1;
      assert k !in table' || table.Keys - table'.Keys == {};
    } else {
      assert expired == {};
    }
  }

  lemma CountedOnce(pricer: Pricer, c: Case, s1: Store)
    requires Step(pricer, Initial(c.received), Deliver(c.first, c.received, c.received, Done(Inserted)), s1)
    ensures s1.db.receipts ==
      map[ReceiptKeyOf(c.first) := Receipt(c.first.requestId, c.first.fingerprint, c.received, c.received)]
    ensures c.first.requestId in s1.db.raw && s1.db.raw == map[c.first.requestId := s1.db.raw[c.first.requestId]]
    ensures s1.db.raw[c.first.requestId].request == NewRequest(c.first)
    ensures s1.counted == {ReceiptKeyOf(c.first)}
  {
    var price := CountedIngest(pricer, EMPTY_DB, c.first, c.received, c.received, s1.db, Done(Inserted));
  }

  lemma AfterPurge(pricer: Pricer, c: Case, s1: Store, s2: Store)
    requires Step(pricer, Initial(c.received), Deliver(c.first, c.received, c.received, Done(Inserted)), s1)
    requires PurgedAt(s1, c.at, c.now, s2)
    ensures s2.db.receipts == if c.received < RollupCutoff(c.at) then map[] else s1.db.receipts
    ensures s2.db.raw == if c.first.view.occurredAt < RawCutoff(c.at) then map[] else s1.db.raw
  {
    CountedOnce(pricer, c, s1);
    var key, id := ReceiptKeyOf(c.first), c.first.requestId;
    PurgedOne(s1.db.receipts, key, s1.db.receipts[key], ExpiredReceipts(s1.db.receipts, RollupCutoff(c.at)),
      s2.db.receipts);
    PurgedOne(s1.db.raw, id, s1.db.raw[id], ExpiredRaw(s1.db.raw, RawCutoff(c.at)), s2.db.raw);
  }

  /// What the second ingest finds decides whether it counts.
  lemma SecondCounted(pricer: Pricer, c: Case, db: Db, receipt: Receipt, row: Row, db': Db, outcome: Outcome)
    requires SameKey(c) && pricer(c.second.view).Some? && row.request == NewRequest(c.first)
    requires Ingested(pricer, db, c.second, c.now, c.now, db', outcome)
    requires db.receipts == map[] || db.receipts == map[ReceiptKeyOf(c.first) := receipt]
    requires db.raw == map[] || db.raw == map[c.first.requestId := row]
    ensures Committed(outcome) <==> db.receipts == map[] && db.raw == map[] && !Refused(c.second, c.now)
  {
    assert db.receipts != map[] ==> ReceiptKeyOf(c.second) in db.receipts;
    assert db.raw != map[] ==> MergedRequest(db.raw, c.second).None?;
  }

  /** The second event is counted although its key was counted before, if and only if the case is one of these. */
  lemma CountedAgainIff(pricer: Pricer, c: Case, s1: Store, s2: Store, s3: Store, outcome: Outcome)
    requires Happens(pricer, c, s1, s2, s3, outcome)
    ensures ReceiptKeyOf(c.second) in s2.counted
    ensures Committed(outcome) <==> Recounts(c)
  {
    CountedOnce(pricer, c, s1);
    AfterPurge(pricer, c, s1, s2);
    SecondCounted(pricer, c, s2.db, s1.db.receipts[ReceiptKeyOf(c.first)], s1.db.raw[c.first.requestId],
      s3.db, outcome);
  }

  /** In every state, every delivery can happen. */
  lemma DeliveryHappens(pricer: Pricer, s: Store, o: Observation, checkedAt: int, now: int)
    returns (s': Store, outcome: Outcome)
    requires s.clock <= checkedAt <= now
    ensures Step(pricer, s, Deliver(o, checkedAt, now, outcome), s')
  {
    var db';
    db', outcome := IngestExists(pricer, s.db, o, checkedAt, now);
    if Committed(outcome) {
      var price := CountedIngest(pricer, s.db, o, checkedAt, now, db', outcome);
      s' := Store(db', Logged(s, o, db'), s.counted + {ReceiptKeyOf(o)}, s.rawHigh, s.rollupHigh, now);
    } else {
      s' := s.(db := db', clock := now);
    }
  }

  lemma PurgeHappens(s: Store, at: int, clock: int) returns (s': Store)
    ensures PurgedAt(s, at, clock, s')
  {
    var db' := MaintenanceExists(s.db, at);
    s' := Store(db', s.history, s.counted, Max(s.rawHigh, RawCutoff(at)), Max(s.rollupHigh, RollupCutoff(at)), clock);
  }

  lemma FirstCounts(pricer: Pricer, o: Observation, received: int, s: Store, outcome: Outcome)
    requires Step(pricer, Initial(received), Deliver(o, received, received, outcome), s)
    requires !Refused(o, received) && pricer(o.view).Some?
    ensures outcome == Done(Inserted)
  {
  }

  /** Each such case can happen; with maintenance not ahead of the clock it is a run of the store. */
  lemma CaseHappens(pricer: Pricer, c: Case) returns (s1: Store, s2: Store, s3: Store, outcome: Outcome)
    requires SameKey(c) && pricer(c.first.view).Some? && pricer(c.second.view).Some?
    requires !Refused(c.first, c.received) && c.received <= c.now
    ensures Happens(pricer, c, s1, s2, s3, outcome)
    ensures 0 <= c.at <= c.now ==> Step(pricer, s1, Maintain(c.at, c.now), s2)
  {
    s1, outcome := DeliveryHappens(pricer, Initial(c.received), c.first, c.received, c.received);
    FirstCounts(pricer, c.first, c.received, s1, outcome);
    s2 := PurgeHappens(s1, c.at, c.now);
    s3, outcome := DeliveryHappens(pricer, s2, c.second, c.now, c.now);
  }

  // ---------------------------------------------------------------- the three hypotheses

  /// One key, one date.
  predicate KeyFixesDate(c: Case) {
    c.first.view.occurredAt == c.second.view.occurredAt
  }

  /// No event is dated after it is received.
  predicate NotBeforeItsDate(c: Case) {
    c.first.view.occurredAt <= c.received && c.second.view.occurredAt <= c.now
  }

  /// Maintenance is not ahead of the clock.
  predicate NotAheadOfClock(c: Case) {
    c.at <= c.now
  }

  /** Under the three hypotheses no case counts a key again. */
  lemma HypothesesExcludeRecounts(c: Case)
    requires KeyFixesDate(c) && NotBeforeItsDate(c) && NotAheadOfClock(c)
    ensures !Recounts(c)
  {
    assert BucketStart(Day, c.at) <= c.at;
  }

  function Sample(at: nat): Observation {
    Observation(Gateway, 1, 1, 1,
      View(at, 1, Success, "", 1, "route", "provider", "model", None, None, None, None, None, None, None, None,
        None, None))
  }

  const LATER_DATE := Case(Sample(400 * DAY_MS), Sample(800 * DAY_MS), 400 * DAY_MS, 800 * DAY_MS, 800 * DAY_MS)
  const BEFORE_ITS_DATE := Case(Sample(760 * DAY_MS), Sample(760 * DAY_MS), 400 * DAY_MS, 800 * DAY_MS, 800 * DAY_MS)
  const AHEAD_OF_CLOCK := Case(Sample(400 * DAY_MS), Sample(400 * DAY_MS), 400 * DAY_MS, 800 * DAY_MS, 400 * DAY_MS)

  /** Without any one of them, a key is counted twice while the other two hold. */
  lemma EachHypothesisIsNeeded()
    ensures Recounts(LATER_DATE) && !KeyFixesDate(LATER_DATE) && NotBeforeItsDate(LATER_DATE)
    ensures NotAheadOfClock(LATER_DATE)
    ensures Recounts(BEFORE_ITS_DATE) && KeyFixesDate(BEFORE_ITS_DATE) && !NotBeforeItsDate(BEFORE_ITS_DATE)
    ensures NotAheadOfClock(BEFORE_ITS_DATE)
    ensures Recounts(AHEAD_OF_CLOCK) && KeyFixesDate(AHEAD_OF_CLOCK) && NotBeforeItsDate(AHEAD_OF_CLOCK)
    ensures !NotAheadOfClock(AHEAD_OF_CLOCK)
  {
  }

  /** So each of the three is a run in which one source key is counted twice. */
  lemma CountedTwice(pricer: Pricer, c: Case) returns (s1: Store, s2: Store, s3: Store, outcome: Outcome)
    requires c == LATER_DATE || c == BEFORE_ITS_DATE || c == AHEAD_OF_CLOCK
    requires pricer(c.first.view).Some? && pricer(c.second.view).Some?
    ensures Happens(pricer, c, s1, s2, s3, outcome) && ReceiptKeyOf(c.second) in s2.counted && Committed(outcome)
  {
    EachHypothesisIsNeeded();
    s1, s2, s3, outcome := CaseHappens(pricer, c);
    CountedAgainIff(pricer, c, s1, s2, s3, outcome);
  }
}
