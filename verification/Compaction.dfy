/**
 Which rollup buckets answer for all requests ever committed although raw rows are purged: exactly, for
 any run and for each rollup table, whatever was accepted late.
 */
module Compaction {
  import opened Basics
  import opened Requests
  import opened Rollup
  import opened Engine
  import opened Retention

  datatype Table = UsageRows | Histogram

  /// Only requests with a latency leave a trace in the histograms.
  predicate Matters(table: Table, r: Row) {
    table == UsageRows || Latency(FirstToken, r).Some? || Latency(Duration, r).Some?
  }

  /// In one bucket, the table is exactly what `rows` give.
  ghost predicate Exact(table: Table, kind: BucketKind, db: Db, rows: set<Row>, bucket: int) {
    if table == UsageRows then UsageExact(kind, UsageOf(db, kind), rows, bucket)
    else LatencyExact(kind, LatencyOf(db, kind), rows, bucket)
  }

  /// The rows of a bucket that the table depends on.
  ghost function Relevant(table: Table, kind: BucketKind, rows: set<Row>, bucket: int): set<Row> {
    set r | r in InBucket(kind, rows, bucket) && Matters(table, r)
  }

  // ------------------------------------------------------- a bucket that is exact for fewer rows

  lemma NotBothAggregates(u: Usage, few: set<Row>, many: set<Row>)
    requires Sum(few, Requests) < Sum(many, Requests)
    ensures !(Aggregates(u, few) && Aggregates(u, many))
  {
  }

  lemma UsageForMoreIffSame(kind: BucketKind, table: UsageTable, rows: set<Row>, more: set<Row>, bucket: int)
    requires rows <= more && UsageExact(kind, table, rows, bucket)
    ensures UsageExact(kind, table, more, bucket) <==> InBucket(kind, rows, bucket) == InBucket(kind, more, bucket)
  {
    if InBucket(kind, rows, bucket) == InBucket(kind, more, bucket) {
      OnlyTheBucketMatters(kind, rows, more, bucket);
      return;
    }
    var r :| r in InBucket(kind, more, bucket) && r !in rows;
    var k := KeyOf(kind, r);
    assert r in Members(kind, more, k) && r !in Members(kind, rows, k);
    RequestsGrow(Members(kind, rows, k), Members(kind, more, k));
    if k in table {
      NotBothAggregates(table[k], Members(kind, rows, k), Members(kind, more, k));
    }
  }

  lemma SubsetIsSmaller(few: set<Row>, many: set<Row>)
    requires few < many
    ensures |few| < |many|
  {
    assert many == few + (many - few) && many - few != {};
  }

  lemma SamplesAreRelevant(kind: BucketKind, rows: set<Row>, k: LatencyKey, bucket: int)
    requires k.group.bucket == bucket
    ensures Samples(kind, rows, k) == Samples(kind, Relevant(Histogram, kind, rows, bucket), k)
  {
  }

  lemma HistogramMissesSample(kind: BucketKind, table: LatencyTable, rows: set<Row>, more: set<Row>, m: Metric, r: Row)
    requires rows <= more && r in more && r !in rows && Latency(m, r).Some?
    requires LatencyExact(kind, table, rows, BucketOf(kind, r))
    ensures !LatencyExact(kind, table, more, BucketOf(kind, r))
  {
    var k := LatencyKeyOf(kind, m, r);
    assert r in Samples(kind, more, k) && r !in Samples(kind, rows, k);
    SubsetIsSmaller(Samples(kind, rows, k), Samples(kind, more, k));
    assert k.group.bucket == BucketOf(kind, r);
  }

  lemma HistogramForMoreIffSame(kind: BucketKind, table: LatencyTable, rows: set<Row>, more: set<Row>, bucket: int)
    requires rows <= more && LatencyExact(kind, table, rows, bucket)
    ensures LatencyExact(kind, table, more, bucket) <==>
      Relevant(Histogram, kind, rows, bucket) == Relevant(Histogram, kind, more, bucket)
  {
    if Relevant(Histogram, kind, rows, bucket) == Relevant(Histogram, kind, more, bucket) {
      forall k: LatencyKey | k.group.bucket == bucket ensures Samples(kind, rows, k) == Samples(kind, more, k) {
        SamplesAreRelevant(kind, rows, k, bucket);
        SamplesAreRelevant(kind, more, k, bucket);
      }
      return;
    }
    var r :| r in Relevant(Histogram, kind, more, bucket) && r !in rows;
    HistogramMissesSample(kind, table, rows, more, if Latency(FirstToken, r).Some? then FirstToken else Duration, r);
  }

  /** A bucket that is exact for some rows is exact for more rows only if none of those matter to it. */
  lemma ExactForMoreIffSame(table: Table, kind: BucketKind, db: Db, rows: set<Row>, more: set<Row>, bucket: int)
    requires rows <= more && Exact(table, kind, db, rows, bucket)
    ensures Exact(table, kind, db, more, bucket) <==>
      Relevant(table, kind, rows, bucket) == Relevant(table, kind, more, bucket)
  {
    if table == UsageRows {
      UsageForMoreIffSame(kind, UsageOf(db, kind), rows, more, bucket);
      assert Relevant(table, kind, rows, bucket) == InBucket(kind, rows, bucket);
      assert Relevant(table, kind, more, bucket) == InBucket(kind, more, bucket);
    } else {
      HistogramForMoreIffSame(kind, LatencyOf(db, kind), rows, more, bucket);
    }
  }

  // ------------------------------------------------------------------------------ one commit

  /// No request that matters and was logged for the bucket has been purged, the very row about to be written apart.
  ghost predicate NothingPurged(table: Table, kind: BucketKind, s: Store, row: Row) {
    forall r | r in Relevant(table, kind, s.history, BucketOf(kind, row)) :: r in s.db.raw.Values || r == row
  }

  lemma SameAfterReplacingIff(table: Table, kind: BucketKind, bucket: int, log: set<Row>, raw: set<Row>,
                              gone: set<Row>, row: Row)
    requires gone <= raw <= log
    ensures Relevant(table, kind, log - gone + {row}, bucket) == Relevant(table, kind, raw - gone + {row}, bucket) <==>
      forall r | r in Relevant(table, kind, log, bucket) :: r in raw || r == row
  {
    var log', raw' := log - gone + {row}, raw - gone + {row};
    if r :| r in Relevant(table, kind, log, bucket) && r !in raw && r != row {
      assert r in Relevant(table, kind, log', bucket) && r !in Relevant(table, kind, raw', bucket);
    } else {
      forall r ensures r in Relevant(table, kind, log', bucket) <==> r in Relevant(table, kind, raw', bucket) {
        assert r in log && BucketOf(kind, r) == bucket && Matters(table, r) <==>
          r in Relevant(table, kind, log, bucket);
      }
    }
  }

  lemma LogAfterIff(table: Table, kind: BucketKind, s: Store, o: Observation, price: Pricing.PriceColumns, now: int,
                    db': Db)
    requires Logs(s) && MergedRequest(s.db.raw, o).Some? && Accepts(s.db, o, price, now, db')
    ensures var row := StoredRow(s.db.raw, o, price, now);
      Relevant(table, kind, Logged(s, o, db'), BucketOf(kind, row)) ==
        Relevant(table, kind, db'.raw.Values, BucketOf(kind, row)) <==>
      NothingPurged(table, kind, s, row)
  {
    var row := StoredRow(s.db.raw, o, price, now);
    RawValuesAfter(s.db, o, price, now, db');
    SameAfterReplacingIff(table, kind, BucketOf(kind, row), s.history, s.db.raw.Values,
      if o.requestId in s.db.raw then {s.db.raw[o.requestId]} else {}, row);
  }

  /// The table's bucket answers for the whole log.
  ghost predicate Answers(table: Table, kind: BucketKind, s: Store, bucket: int) {
    Exact(table, kind, s.db, s.history, bucket)
  }

  /// The row that an event which is accepted writes.
  ghost predicate Writes(pricer: Pricer, s: Store, o: Observation, now: int, row: Row) {
    && MergedRequest(s.db.raw, o).Some? && pricer(MergedRequest(s.db.raw, o).value.view).Some?
    && row == StoredRow(s.db.raw, o, pricer(MergedRequest(s.db.raw, o).value.view).value, now)
  }

  /**
   The hypothesis of compaction is exact, bucket by bucket, and can be checked before the commit: the bucket
   of the row then answers for the whole log if and only if nothing that matters to it has been purged.
   */
  lemma CommitAnswersForTheLogIff(pricer: Pricer, table: Table, kind: BucketKind, s: Store,
                                  o: Observation, checkedAt: int, now: int, row: Row, s': Store)
    requires Logs(s) && Uncommitted(pricer, s.db, o, checkedAt, now).None? && Writes(pricer, s, o, now, row)
    requires Step(pricer, s,
      Deliver(o, checkedAt, now, Done(if o.requestId in s.db.raw then Enriched else Inserted)), s')
    ensures Answers(table, kind, s', BucketOf(kind, row)) <==> NothingPurged(table, kind, s, row)
  {
    var price := pricer(MergedRequest(s.db.raw, o).value.view).value;
    AcceptedRow(s.db, o, price, now, s'.db);
    LogAfterIff(table, kind, s, o, price, now, s'.db);
    RawValuesAfter(s.db, o, price, now, s'.db);
    TouchedTables(kind, o.view.occurredAt, s.db, s'.db);
    ExactForMoreIffSame(table, kind, s'.db, s'.db.raw.Values, s'.history, BucketOf(kind, row));
  }

  // ------------------------------------------------------------------------------ whole runs

  /// The log holds every raw row.
  ghost predicate Logs(s: Store) {
    Keyed(s.db) && s.db.raw.Values <= s.history
  }

  lemma StepKeepsLog(pricer: Pricer, s: Store, e: Event, s': Store)
    requires Step(pricer, s, e, s') && Logs(s)
    ensures Logs(s')
  {
    match e
    case Deliver(o, checkedAt, now, outcome) =>
      if Retention.Counts(e) {
        var price := CountedIngest(pricer, s.db, o, checkedAt, now, s'.db, outcome);
        AcceptedRow(s.db, o, price, now, s'.db);
        RawValuesAfter(s.db, o, price, now, s'.db);
      } else {
        UncountedIngest(pricer, s.db, o, checkedAt, now, s'.db, outcome);
      }
    case Maintain(at, clock) =>
  }

  lemma LogsThroughout(pricer: Pricer, states: seq<Store>, events: seq<Event>, n: nat)
    requires Run(pricer, states, events) && n < |states|
    ensures forall i | 0 <= i <= n :: Logs(states[i])
  {
    var good := (s: Store) => Logs(s);
    forall i | 0 <= i < n && good(states[i]) ensures good(states[i + 1]) {
      StepKeepsLog(pricer, states[i], events[i], states[i + 1]);
    }
    HoldsThroughout(states, good, n);
    assert forall i | 0 <= i <= n :: good(states[i]);
  }

  predicate CommitsInto(e: Event, kind: BucketKind, bucket: int) {
    Retention.Counts(e) && BucketStart(kind, e.o.view.occurredAt) == bucket
  }

  /// Both tables have the same entries in one bucket.
  ghost predicate SameBucket(kind: BucketKind, db: Db, db': Db, bucket: int) {
    var usage, usage', latency, latency' := UsageOf(db, kind), UsageOf(db', kind), LatencyOf(db, kind),
      LatencyOf(db', kind);
    && (forall k: GroupKey | k.bucket == bucket ::
      (k in usage' <==> k in usage) && (k in usage ==> usage'[k] == usage[k]))
    && (forall k: LatencyKey | k.group.bucket == bucket ::
          (k in latency' <==> k in latency) && (k in latency ==> latency'[k] == latency[k]))
  }

  lemma SameBucketSameAnswer(table: Table, kind: BucketKind, s: Store, s': Store, bucket: int)
    requires SameBucket(kind, s.db, s'.db, bucket)
    requires InBucket(kind, s.history, bucket) == InBucket(kind, s'.history, bucket)
    ensures Answers(table, kind, s', bucket) <==> Answers(table, kind, s, bucket)
  {
    OnlyTheBucketMatters(kind, s.history, s'.history, bucket);
  }

  lemma RebuiltElsewhere(kind: BucketKind, at: int, db: Db, db': Db, bucket: int)
    requires RebuiltAt(kind, at, db, db') && BucketStart(kind, at) != bucket
    ensures SameBucket(kind, db, db', bucket)
  {
  }

  /// A commit elsewhere leaves the bucket and its part of the log alone.
  lemma CommitElsewhere(kind: BucketKind, s: Store, o: Observation, price: Pricing.PriceColumns, now: int, db': Db,
                        bucket: int)
    requires Logs(s) && MergedRequest(s.db.raw, o).Some? && Accepts(s.db, o, price, now, db')
    requires BucketStart(kind, o.view.occurredAt) != bucket
    ensures SameBucket(kind, s.db, db', bucket)
    ensures InBucket(kind, s.history, bucket) == InBucket(kind, Logged(s, o, db'), bucket)
  {
    AcceptedRow(s.db, o, price, now, db');
    RebuiltElsewhere(kind, o.view.occurredAt, s.db, db', bucket);
    var row := db'.raw[o.requestId];
    assert BucketOf(kind, row) != bucket;
    assert o.requestId in s.db.raw ==> BucketOf(kind, s.db.raw[o.requestId]) != bucket;
  }

  /// Maintenance leaves an unexpired bucket alone.
  lemma MaintenanceElsewhere(kind: BucketKind, db: Db, at: int, db': Db, bucket: int)
    requires Maintained(db, at, db') && RollupCutoff(at) <= bucket
    ensures SameBucket(kind, db, db', bucket)
  {
    forall k: GroupKey | k.bucket == bucket ensures k !in ExpiredUsage(UsageOf(db, kind), RollupCutoff(at)) {
    }
    forall k: LatencyKey | k.group.bucket == bucket
      ensures k !in ExpiredLatency(LatencyOf(db, kind), RollupCutoff(at))
    {
    }
  }

  /// An event that commits nothing into an unexpired bucket does not change what it answers.
  lemma StepElsewhere(pricer: Pricer, table: Table, kind: BucketKind, s: Store, e: Event, s': Store, bucket: int)
    requires Step(pricer, s, e, s') && Logs(s) && s'.rollupHigh <= bucket && !CommitsInto(e, kind, bucket)
    ensures Answers(table, kind, s', bucket) <==> Answers(table, kind, s, bucket)
  {
    match e
    case Deliver(o, checkedAt, now, outcome) =>
      if Retention.Counts(e) {
        var price := CountedIngest(pricer, s.db, o, checkedAt, now, s'.db, outcome);
        CommitElsewhere(kind, s, o, price, now, s'.db, bucket);
      } else {
        UncountedIngest(pricer, s.db, o, checkedAt, now, s'.db, outcome);
      }
      SameBucketSameAnswer(table, kind, s, s', bucket);
    case Maintain(at, clock) =>
      MaintenanceElsewhere(kind, s.db, at, s'.db, bucket);
      SameBucketSameAnswer(table, kind, s, s', bucket);
  }

  /// The commit that event `e` makes in state `s` finds nothing purged that matters to its bucket.
  ghost predicate FindsAll(pricer: Pricer, table: Table, kind: BucketKind, s: Store, e: Event) {
    e.Deliver? && exists row :: Writes(pricer, s, e.o, e.now, row) && NothingPurged(table, kind, s, row)
  }

  /// The last commit into the bucket, if there was any, found nothing purged that matters to it.
  ghost predicate LastCommitFindsAll(pricer: Pricer, table: Table, kind: BucketKind, states: seq<Store>,
                                     events: seq<Event>,
                                     bucket: int, n: nat)
    requires n <= |events| < |states|
  {
    n == 0 ||
    if CommitsInto(events[n - 1], kind, bucket) then FindsAll(pricer, table, kind, states[n - 1], events[n - 1])
    else LastCommitFindsAll(pricer, table, kind, states, events, bucket, n - 1)
  }

  lemma CommitAnswersIff(pricer: Pricer, table: Table, kind: BucketKind, s: Store, e: Event, s': Store)
    requires Step(pricer, s, e, s') && Logs(s) && Retention.Counts(e)
    ensures Answers(table, kind, s', BucketStart(kind, e.o.view.occurredAt)) <==> FindsAll(pricer, table, kind, s, e)
  {
    var price := CountedIngest(pricer, s.db, e.o, e.checkedAt, e.now, s'.db, e.outcome);
    AcceptedRow(s.db, e.o, price, e.now, s'.db);
    var row := StoredRow(s.db.raw, e.o, pricer(MergedRequest(s.db.raw, e.o).value.view).value, e.now);
    assert Writes(pricer, s, e.o, e.now, row);
    CommitAnswersForTheLogIff(pricer, table, kind, s, e.o, e.checkedAt, e.now, row, s');
  }

  lemma NothingLoggedYet(table: Table, kind: BucketKind, clock: int, bucket: int)
    ensures Answers(table, kind, Initial(clock), bucket)
  {
  }

  lemma NothingAtStart(pricer: Pricer, table: Table, kind: BucketKind, states: seq<Store>, events: seq<Event>,
                       bucket: int)
    requires Run(pricer, states, events)
    ensures AsLastCommitSays(pricer, table, kind, states, events, bucket, 0)
  {
    NothingLoggedYet(table, kind, states[0].clock, bucket);
  }

  lemma RunTakesStep(pricer: Pricer, states: seq<Store>, events: seq<Event>, i: nat)
    requires Run(pricer, states, events) && i < |events|
    ensures Step(pricer, states[i], events[i], states[i + 1])
  {
  }

  lemma NextCutoff(pricer: Pricer, states: seq<Store>, events: seq<Event>, i: nat)
    requires Run(pricer, states, events) && i < |events|
    ensures states[i].rollupHigh <= states[i + 1].rollupHigh
  {
    assert Step(pricer, states[i], events[i], states[i + 1]);
  }

  lemma {:induction false} CutoffGrows(pricer: Pricer, states: seq<Store>, events: seq<Event>, i: nat, n: nat)
    requires Run(pricer, states, events) && i <= n < |states|
    ensures states[i].rollupHigh <= states[n].rollupHigh
  {
    if i < n {
      CutoffGrows(pricer, states, events, i, n - 1);
      NextCutoff(pricer, states, events, n - 1);
    }
  }

  /// The bucket answers as the last commit into it says.
  ghost predicate AsLastCommitSays(pricer: Pricer, table: Table, kind: BucketKind, states: seq<Store>,
                                   events: seq<Event>, bucket: int, n: nat)
    requires n <= |events| < |states|
  {
    Answers(table, kind, states[n], bucket) <==> LastCommitFindsAll(pricer, table, kind, states, events, bucket, n)
  }

  lemma AnswersNext(pricer: Pricer, table: Table, kind: BucketKind, states: seq<Store>, events: seq<Event>,
                    bucket: int, n: nat)
    requires Run(pricer, states, events) && n < |events| && states[n + 1].rollupHigh <= bucket
    requires AsLastCommitSays(pricer, table, kind, states, events, bucket, n)
    ensures AsLastCommitSays(pricer, table, kind, states, events, bucket, n + 1)
  {
    LogsThroughout(pricer, states, events, n);
    RunTakesStep(pricer, states, events, n);
    if CommitsInto(events[n], kind, bucket) {
      CommitAnswersIff(pricer, table, kind, states[n], events[n], states[n + 1]);
    } else {
      StepElsewhere(pricer, table, kind, states[n], events[n], states[n + 1], bucket);
    }
  }

  lemma StillUnexpired(pricer: Pricer, states: seq<Store>, events: seq<Event>, bucket: int, i: nat, n: nat)
    requires Run(pricer, states, events) && i <= n < |states| && states[n].rollupHigh <= bucket
    ensures states[i].rollupHigh <= bucket
  {
    CutoffGrows(pricer, states, events, i, n);
  }

  lemma {:induction false} SaysThroughout(pricer: Pricer, table: Table, kind: BucketKind, states: seq<Store>,
                                          events: seq<Event>, bucket: int, n: nat)
    requires Run(pricer, states, events) && n < |states| && states[n].rollupHigh <= bucket
    ensures AsLastCommitSays(pricer, table, kind, states, events, bucket, n)
  {
    if n == 0 {
      NothingAtStart(pricer, table, kind, states, events, bucket);
    } else {
      StillUnexpired(pricer, states, events, bucket, n - 1, n);
      SaysThroughout(pricer, table, kind, states, events, bucket, n - 1);
      AnswersNext(pricer, table, kind, states, events, bucket, n - 1);
    }
  }

  /**
   Over a whole run, whatever was accepted late: a bucket of either table that has not expired answers for
   all requests ever committed, purged ones included, if and only if the last commit into it found none
   purged that matters to the table. Requests without a latency do not matter to the histograms.
   */
  lemma BucketAnswersIff(pricer: Pricer, table: Table, kind: BucketKind, states: seq<Store>, events: seq<Event>,
                         bucket: int, n: nat)
    requires Run(pricer, states, events) && n < |states| && states[n].rollupHigh <= bucket
    ensures Answers(table, kind, states[n], bucket) <==>
      LastCommitFindsAll(pricer, table, kind, states, events, bucket, n)
  {
    SaysThroughout(pricer, table, kind, states, events, bucket, n);
  }
}
