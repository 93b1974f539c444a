/**
 `SQLiteAnalyticsEngine` (storage/engine.ts): the tables as maps, each SQL transaction one
 method. What one ingest and one maintenance run do to the tables is stated as a relation
 between the tables before and after; the other storage modules reason about runs of these.
 */
module Engine {
  import opened Basics
  import opened Pricing
  import opened Requests
  import opened Rollup
  import Queries

  const RAW_DAYS: nat := 30
  const ROLLUP_DAYS: nat := 365
  const DELETE_BATCH: nat := 500
  const MAX_DELETE_BATCHES: nat := 20

  datatype ReceiptKey = ReceiptKey(kind: SourceKind, sourceKey: Hash)

  datatype Receipt = Receipt(requestId: Hash, fingerprint: Hash, firstReceived: int, lastReceived: int)

  datatype Reason = ConflictingSourceReceipt | ConflictingRequestProjection

  datatype DeadLetter = DeadLetter(observation: Observation, reason: Reason, failedAt: int)

  datatype Db = Db(
    raw: map<Hash, Row>,
    hourly: UsageTable,
    daily: UsageTable,
    latencyHourly: LatencyTable,
    latencyDaily: LatencyTable,
    receipts: map<ReceiptKey, Receipt>,
    deadLetters: map<nat, DeadLetter>,
    nextDeadLetter: nat,
    committedCount: nat,
    deadLetterCount: nat)

  const EMPTY_DB := Db(map[], map[], map[], map[], map[], map[], map[], 0, 0, 0)

  datatype Disposition = Inserted | Enriched | Duplicate | DeadLettered | OutsideRetention

  datatype Outcome = Done(disposition: Disposition) | Threw

  /// Prices a request view; `None` where `safeCost` throws.
  type Pricer = View -> Option<PriceColumns>

  function ReceiptKeyOf(o: Observation): ReceiptKey {
    ReceiptKey(o.kind, o.sourceKey)
  }

  /// Raw rows are stored under their own request id.
  ghost predicate Keyed(db: Db) {
    forall id | id in db.raw :: db.raw[id].request.id == id
  }

  predicate Committed(outcome: Outcome) {
    outcome == Done(Inserted) || outcome == Done(Enriched)
  }

  // ---------------------------------------------------------------------- one ingest

  predicate Refused(o: Observation, checkedAt: int) {
    o.view.occurredAt < checkedAt - ROLLUP_DAYS * DAY_MS
  }

  /// The row that accepting the observation stores, prices aside; `None` where merging throws.
  function MergedRequest(raw: map<Hash, Row>, o: Observation): Option<Request> {
    if o.requestId in raw then Merge(raw[o.requestId].request, o) else Some(NewRequest(o))
  }

  function StoredRow(raw: map<Hash, Row>, o: Observation, price: PriceColumns, now: int): Row
    requires MergedRequest(raw, o).Some?
  {
    Row(MergedRequest(raw, o).value, price,
      if o.requestId in raw then raw[o.requestId].firstReceived else now, now)
  }

  function WithReceipt(db: Db, o: Observation, now: int): Db {
    db.(receipts := db.receipts[ReceiptKeyOf(o) := Receipt(o.requestId, o.fingerprint, now, now)])
  }

  function WithDeadLetter(db: Db, o: Observation, reason: Reason, now: int): Db {
    db.(
      deadLetters := db.deadLetters[db.nextDeadLetter := DeadLetter(o, reason, now)],
      nextDeadLetter := db.nextDeadLetter + 1,
      deadLetterCount := db.deadLetterCount + 1)
  }

  function UsageOf(db: Db, kind: BucketKind): UsageTable {
    if kind == Hour then db.hourly else db.daily
  }

  function LatencyOf(db: Db, kind: BucketKind): LatencyTable {
    if kind == Hour then db.latencyHourly else db.latencyDaily
  }

  ghost predicate RebuiltAt(kind: BucketKind, at: int, db: Db, db': Db) {
    Rebuilt(kind, db'.raw.Values, {BucketStart(kind, at)}, UsageOf(db, kind), UsageOf(db', kind), LatencyOf(db, kind),
      LatencyOf(db', kind))
  }

  /// Both kinds of rollup are rebuilt from the raw table in the buckets of one time, and nowhere else.
  ghost predicate RollupsRebuiltAt(at: int, db: Db, db': Db) {
    RebuiltAt(Hour, at, db, db') && RebuiltAt(Day, at, db, db')
  }

  /// The tables after a new observation has been accepted and priced.
  ghost predicate Accepts(db: Db, o: Observation, price: PriceColumns, now: int, db': Db)
    requires MergedRequest(db.raw, o).Some?
  {
    && db'.raw == db.raw[o.requestId := StoredRow(db.raw, o, price, now)]
    && db'.receipts == WithReceipt(db, o, now).receipts
    && RollupsRebuiltAt(o.view.occurredAt, db, db')
    && db'.committedCount == db.committedCount + 1
    && db'.deadLetters == db.deadLetters && db'.nextDeadLetter == db.nextDeadLetter &&
      db'.deadLetterCount == db.deadLetterCount
  }

  predicate SameRows(db: Db, db': Db) {
    && db'.raw == db.raw
    && db'.hourly == db.hourly && db'.daily == db.daily
    && db'.latencyHourly == db.latencyHourly && db'.latencyDaily == db.latencyDaily
  }

  /// The tables and the answer when nothing is committed; `None` when the observation is accepted and priced.
  function Uncommitted(pricer: Pricer, db: Db, o: Observation, checkedAt: int,
                       now: int): (result: Option<(Db, Outcome)>)
    ensures result.Some? ==> SameRows(db, result.value.0) && !Committed(result.value.1)
  {
    if Refused(o, checkedAt) then
      Some((db, Done(OutsideRetention)))
    else if ReceiptKeyOf(o) in db.receipts then
      var receipt := db.receipts[ReceiptKeyOf(o)];
      if receipt.fingerprint == o.fingerprint then
        Some((db.(receipts := db.receipts[ReceiptKeyOf(o) := receipt.(lastReceived := now)]), Done(Duplicate)))
      else
        Some((WithDeadLetter(db, o, ConflictingSourceReceipt, now), Done(DeadLettered)))
    else if MergedRequest(db.raw, o).None? then
      Some((WithDeadLetter(WithReceipt(db, o, now), o, ConflictingRequestProjection, now), Done(DeadLettered)))
    else if pricer(MergedRequest(db.raw, o).value.view).None? then
      Some((db, Threw))
    else
      None
  }

  /**
   What one `ingestRequest` does. `checkedAt` and `now` are its two clock reads.
   */
  ghost predicate Ingested(pricer: Pricer, db: Db, o: Observation, checkedAt: int, now: int, db': Db,
                           outcome: Outcome) {
    match Uncommitted(pricer, db, o, checkedAt, now)
    case Some(result) => db' == result.0 && outcome == result.1
    case None =>
      && outcome == Done(if o.requestId in db.raw then Enriched else Inserted)
      && Accepts(db, o, pricer(MergedRequest(db.raw, o).value.view).value, now, db')
  }

  // ------------------------------------------------------------------- one maintenance

  function Min(a: nat, b: nat): nat {
    if a < b then a else b
  }

  /// A batched delete: only expired rows go, and all of them unless there are more than the batches hold.
  ghost predicate Purged<K, V>(table: map<K, V>, expired: set<K>, table': map<K, V>) {
    && table'.Keys <= table.Keys && (forall k | k in table' :: table'[k] == table[k])
    && table.Keys - table'.Keys <= expired
    && |table.Keys - table'.Keys| == Min(|expired|, DELETE_BATCH * MAX_DELETE_BATCHES)
  }

  function RawCutoff(at: int): int {
    BucketStart(Day, at) - RAW_DAYS * DAY_MS
  }

  function RollupCutoff(at: int): int {
    BucketStart(Day, at) - ROLLUP_DAYS * DAY_MS
  }

  function ExpiredRaw(raw: map<Hash, Row>, cutoff: int): set<Hash> {
    set id | id in raw && raw[id].request.view.occurredAt < cutoff
  }

  function ExpiredUsage(table: UsageTable, cutoff: int): set<GroupKey> {
    set k | k in table && k.bucket < cutoff
  }

  function ExpiredLatency(table: LatencyTable, cutoff: int): set<LatencyKey> {
    set k | k in table && k.group.bucket < cutoff
  }

  function ExpiredReceipts(receipts: map<ReceiptKey, Receipt>, cutoff: int): set<ReceiptKey> {
    set k | k in receipts && receipts[k].lastReceived < cutoff
  }

  function ExpiredDeadLetters(deadLetters: map<nat, DeadLetter>, cutoff: int): set<nat> {
    set k | k in deadLetters && deadLetters[k].failedAt < cutoff
  }

  /// What `maintain(at)` does to the tables.
  ghost predicate Maintained(db: Db, at: int, db': Db) {
    && Purged(db.raw, ExpiredRaw(db.raw, RawCutoff(at)), db'.raw)
    && Purged(db.deadLetters, ExpiredDeadLetters(db.deadLetters, RawCutoff(at)), db'.deadLetters)
    && Purged(db.hourly, ExpiredUsage(db.hourly, RollupCutoff(at)), db'.hourly)
    && Purged(db.daily, ExpiredUsage(db.daily, RollupCutoff(at)), db'.daily)
    && Purged(db.latencyHourly, ExpiredLatency(db.latencyHourly, RollupCutoff(at)), db'.latencyHourly)
    && Purged(db.latencyDaily, ExpiredLatency(db.latencyDaily, RollupCutoff(at)), db'.latencyDaily)
    && Purged(db.receipts, ExpiredReceipts(db.receipts, RollupCutoff(at)), db'.receipts)
    && db'.nextDeadLetter == db.nextDeadLetter
    && db'.committedCount == db.committedCount && db'.deadLetterCount == db.deadLetterCount
  }

  /// The subquery with LIMIT: any `limit` of the expired rows, or all when there are fewer.
  method Limited<K(==)>(expired: set<K>, limit: nat) returns (batch: set<K>)
    ensures batch <= expired && |batch| == Min(|expired|, limit)
  {
    batch := {};
    var rest := expired;
    while rest != {} && |batch| < limit
      invariant rest <= expired && batch == expired - rest && |batch| + |rest| == |expired| && |batch| <= limit
      decreases rest
    {
      var k :| k in rest;
      rest := rest - {k};
      batch := batch + {k};
    }
  }

  /// The keys that the batches reach, one LIMIT at a time; a short batch is the last.
  method Batches<K(==)>(expired: set<K>) returns (reached: set<K>)
    ensures reached <= expired && |reached| == Min(|expired|, DELETE_BATCH * MAX_DELETE_BATCHES)
  {
    var rest := expired;
    reached := {};
    for batch := 0 to MAX_DELETE_BATCHES
      invariant rest <= expired && reached == expired - rest
      invariant |reached| == DELETE_BATCH * batch && |expired| == |reached| + |rest|
    {
      var changed := Limited(rest, DELETE_BATCH);
      CountParts(rest, changed);
      CountParts(expired, rest - changed);
      reached, rest := reached + changed, rest - changed;
      assert reached == expired - rest;
      if |changed| < DELETE_BATCH {
        return;
      }
    }
  }

  lemma CountParts<K>(whole: set<K>, part: set<K>)
    requires part <= whole
    ensures |whole| == |part| + |whole - part|
  {
    assert whole == part + (whole - part);
  }

  /** `deleteBatches`: at most twenty deletes of at most five hundred rows, stopping after a short one. */
  method DeleteBatches<K(==), V>(table: map<K, V>, expired: set<K>) returns (result: map<K, V>)
    requires expired <= table.Keys
    ensures Purged(table, expired, result)
  {
    var reached := Batches(expired);
    result := table - reached;
    assert table.Keys - result.Keys == reached;
  }

  // -------------------------------------------------------------------------- the class

  class SQLiteAnalyticsEngine {
    const pricingRules: seq<Rule>
    const collate: (string, string) -> int
    var db: Db
    var closed: bool

    ghost predicate Valid()
      reads this
    {
      Keyed(db)
    }

    constructor (pricingRules: seq<Rule>, collate: (string, string) -> int)
      ensures Valid() && this.pricingRules == pricingRules && this.collate == collate
      ensures db == EMPTY_DB && !closed
    {
      this.pricingRules, this.collate := pricingRules, collate;
      db, closed := EMPTY_DB, false;
    }

    /// `applyPricing` as a function of the merged view.
    function PriceOf(v: View): Option<PriceColumns> {
      Price(pricingRules, SubjectOf(v), Counts(v), collate)
    }

    method ApplyPricing(v: View) returns (price: Option<PriceColumns>)
      ensures price == PriceOf(v)
    {
      var rule := EngineMatch(pricingRules, SubjectOf(v), collate);
      if rule.None? {
        return Some(UNPRICED_COLUMNS);
      }
      price := ApplyRule(rule.value, Counts(v));
    }

    /** `recomputeBuckets` for the hour and the day of the previous row, if any, and of the stored one. */
    method RecomputeRollups(previous: Option<Row>, stored: Row)
      requires previous.Some? ==> previous.value.request.view.occurredAt == stored.request.view.occurredAt
      modifies this`db
      ensures RollupsRebuiltAt(stored.request.view.occurredAt, old(db), db)
      ensures db ==
        old(db).(hourly := db.hourly, daily := db.daily, latencyHourly := db.latencyHourly,
          latencyDaily := db.latencyDaily)
    {
      var rows := db.raw.Values;
      var hour, day := BucketOf(Hour, stored), BucketOf(Day, stored);
      var hours := if previous.Some? then [BucketOf(Hour, previous.value), hour] else [hour];
      var days := if previous.Some? then [BucketOf(Day, previous.value), day] else [day];
      var hourly, latencyHourly := RecomputeBuckets(Hour, rows, hours, db.hourly, db.latencyHourly);
      var daily, latencyDaily := RecomputeBuckets(Day, rows, days, db.daily, db.latencyDaily);
      assert (set b | b in hours) == {hour} && (set b | b in days) == {day};
      db := db.(hourly := hourly, daily := daily, latencyHourly := latencyHourly, latencyDaily := latencyDaily);
    }

    /** `ingestRequest`. A closed engine throws before reading anything. */
    method IngestRequest(o: Observation, checkedAt: int, now: int) returns (outcome: Outcome)
      requires Valid()
      modifies this`db
      ensures Valid()
      ensures closed ==> outcome == Threw && db == old(db)
      ensures !closed ==> Ingested(PriceOf, old(db), o, checkedAt, now, db, outcome)
    {
      if closed {
        return Threw;
      }
      if o.view.occurredAt < checkedAt - ROLLUP_DAYS * DAY_MS {
        return Done(OutsideRetention);
      }
      var begin := db;
      var key := ReceiptKeyOf(o);
      if key in db.receipts {
        var receipt := db.receipts[key];
        if receipt.fingerprint == o.fingerprint {
          db := db.(receipts := db.receipts[key := receipt.(lastReceived := now)]);
          return Done(Duplicate);
        }
        db := WithDeadLetter(db, o, ConflictingSourceReceipt, now);
        return Done(DeadLettered);
      }
      db := db.(receipts := db.receipts[key := Receipt(o.requestId, o.fingerprint, now, now)]);
      var previous := if o.requestId in db.raw then Some(db.raw[o.requestId]) else None;
      var merged := if previous.Some? then Merge(previous.value.request, o) else Some(NewRequest(o));
      if merged.None? {
        db := WithDeadLetter(db, o, ConflictingRequestProjection, now);
        return Done(DeadLettered);
      }
      var price := ApplyPricing(merged.value.view);
      if price.None? {
        db := begin;
        return Threw;
      }
      var firstReceived := if previous.Some? then previous.value.firstReceived else now;
      var stored := Row(merged.value, price.value, firstReceived, now);
      db := db.(raw := db.raw[o.requestId := stored]);
      RecomputeRollups(previous, stored);
      db := db.(committedCount := db.committedCount + 1);
      outcome := Done(if previous.Some? then Enriched else Inserted);
    }

    /** `maintain`: throws for a time that is not a non-negative safe integer. */
    method Maintain(at: int) returns (ok: bool)
      requires Valid()
      modifies this`db
      ensures Valid()
      ensures ok <==> !closed && 0 <= at <= MAX_SAFE
      ensures !ok ==> db == old(db)
      ensures ok ==> Maintained(old(db), at, db)
    {
      if closed || at < 0 || at > MAX_SAFE {
        return false;
      }
      var rawCutoff, rollupCutoff := RawCutoff(at), RollupCutoff(at);
      var raw := DeleteBatches(db.raw, ExpiredRaw(db.raw, rawCutoff));
      var deadLetters := DeleteBatches(db.deadLetters, ExpiredDeadLetters(db.deadLetters, rawCutoff));
      var hourly := DeleteBatches(db.hourly, ExpiredUsage(db.hourly, rollupCutoff));
      var daily := DeleteBatches(db.daily, ExpiredUsage(db.daily, rollupCutoff));
      var latencyHourly := DeleteBatches(db.latencyHourly, ExpiredLatency(db.latencyHourly, rollupCutoff));
      var latencyDaily := DeleteBatches(db.latencyDaily, ExpiredLatency(db.latencyDaily, rollupCutoff));
      var receipts := DeleteBatches(db.receipts, ExpiredReceipts(db.receipts, rollupCutoff));
      db := db.(raw := raw, deadLetters := deadLetters, hourly := hourly, daily := daily,
        latencyHourly := latencyHourly, latencyDaily := latencyDaily, receipts := receipts);
      ok := true;
    }

    /** `summary`: the totals over the daily rows that reach into the range; throws for invalid filters. */
    method Summary(f: Queries.Filters) returns (result: Option<Queries.Summary>)
      ensures result.Some? <==> !closed && Queries.ValidFilters(f)
      ensures result.Some? ==> Queries.SumsUp(db.daily, Queries.SummaryKeys(db.daily, f), result.value)
    {
      if closed || !Queries.ValidFilters(f) {
        return None;
      }
      var summary := Queries.Summarize(db.daily, Queries.SummaryKeys(db.daily, f));
      result := Some(summary);
    }

    /** `trend`: the totals of each bucket, at most a thousand of them. */
    method Trend(kind: BucketKind, f: Queries.Filters) returns (result: Option<seq<Queries.TrendPoint>>)
      ensures result.Some? <==> !closed && Queries.ValidFilters(f)
      ensures result.Some? ==>
        Queries.TrendOf(UsageOf(db, kind), Queries.TrendKeys(kind, UsageOf(db, kind), f), result.value)
    {
      if closed || !Queries.ValidFilters(f) {
        return None;
      }
      var table := UsageOf(db, kind);
      var points := Queries.SelectTrend(table, Queries.TrendKeys(kind, table, f));
      result := Some(points);
    }

    /** `recent`: one page of raw rows, latest first. */
    method Recent(f: Queries.Filters, cursor: Option<Queries.Key>, limit: int) returns (result: Option<Queries.Page>)
      requires Valid()
      ensures result.Some? <==> !closed && 1 <= limit <= Queries.MAX_RECENT_LIMIT && Queries.ValidFilters(f)
      ensures result.Some? ==> Queries.PageOf(db.raw.Values, f, cursor, limit, result.value)
    {
      if closed || limit < 1 || limit > Queries.MAX_RECENT_LIMIT || !Queries.ValidFilters(f) {
        return None;
      }
      var page := Queries.Recent(db.raw.Values, f, cursor, limit);
      result := Some(page);
    }

    /** `close`: every later call throws. */
    method Close()
      modifies this`closed
      ensures closed
    {
      closed := true;
    }
  }
}
