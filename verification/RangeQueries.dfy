/**
 What `summary` and `trend` answer in a reachable store: exact aggregates of the requests
 themselves when the range falls on day boundaries, and otherwise something between the
 aggregate of the range and that of the whole days around it.
 */
module RangeQueries {
  import opened Basics
  import opened Pricing
  import opened Requests
  import opened Rollup
  import opened Engine
  import opened Retention
  import opened Queries

  // ------------------------------------------------------- rollup rows lie in their bucket

  ghost predicate PlacedRow(kind: BucketKind, k: GroupKey, u: Usage) {
    k.bucket == BucketStart(kind, k.bucket) && k.bucket <= u.firstAt <= u.lastAt < k.bucket + Size(kind)
  }

  ghost predicate WellPlaced(kind: BucketKind, table: UsageTable) {
    forall k | k in table :: PlacedRow(kind, k, table[k])
  }

  lemma StartOfStart(kind: BucketKind, at: int)
    ensures BucketStart(kind, BucketStart(kind, at)) == BucketStart(kind, at)
  {
  }

  lemma AggregateIsPlaced(kind: BucketKind, rows: set<Row>, k: GroupKey, u: Usage)
    requires Aggregates(u, Members(kind, rows, k))
    ensures PlacedRow(kind, k, u)
  {
    var first :| first in Members(kind, rows, k) && first.request.view.occurredAt == u.firstAt;
    var last :| last in Members(kind, rows, k) && last.request.view.occurredAt == u.lastAt;
    assert BucketOf(kind, first) == k.bucket == BucketOf(kind, last);
    StartOfStart(kind, first.request.view.occurredAt);
  }

  lemma RebuildKeepsPlaced(kind: BucketKind, at: int, db: Db, db': Db)
    requires RebuiltAt(kind, at, db, db') && WellPlaced(kind, UsageOf(db, kind))
    ensures WellPlaced(kind, UsageOf(db', kind))
  {
    var table, table' := UsageOf(db, kind), UsageOf(db', kind);
    forall k | k in table' ensures PlacedRow(kind, k, table'[k]) {
      if k.bucket == BucketStart(kind, at) {
        assert UsageExact(kind, table', db'.raw.Values, k.bucket);
        AggregateIsPlaced(kind, db'.raw.Values, k, table'[k]);
      } else {
        assert k in table && table'[k] == table[k];
      }
    }
  }

  ghost predicate Placed(db: Db) {
    WellPlaced(Hour, db.hourly) && WellPlaced(Day, db.daily)
  }

  lemma StepKeepsPlaced(pricer: Pricer, s: Store, e: Event, s': Store)
    requires Step(pricer, s, e, s') && Placed(s.db)
    ensures Placed(s'.db)
  {
    if e.Maintain? {
      assert Maintained(s.db, e.at, s'.db);
    } else if Retention.Counts(e) {
      var price := CountedIngest(pricer, s.db, e.o, e.checkedAt, e.now, s'.db, e.outcome);
      RebuildKeepsPlaced(Hour, e.o.view.occurredAt, s.db, s'.db);
      RebuildKeepsPlaced(Day, e.o.view.occurredAt, s.db, s'.db);
    } else {
      UncountedIngest(pricer, s.db, e.o, e.checkedAt, e.now, s'.db, e.outcome);
    }
  }

  /** Every rollup row of a reachable store, however old, has its times inside its own bucket. */
  lemma PlacedThroughout(pricer: Pricer, states: seq<Store>, events: seq<Event>, n: nat)
    requires Run(pricer, states, events) && n < |states|
    ensures forall i | 0 <= i <= n :: Placed(states[i].db)
  {
    var good := (s: Store) => Placed(s.db);
    forall i | 0 <= i < n && good(states[i]) ensures good(states[i + 1]) {
      StepKeepsPlaced(pricer, states[i], events[i], states[i + 1]);
    }
    HoldsThroughout(states, good, n);
    assert forall i | 0 <= i <= n :: good(states[i]);
  }

  // ------------------------------------------------------------ from groups back to requests

  /// The requests that a query is about, taken from the requests themselves.
  function Matching(rows: set<Row>, f: Filters): set<Row> {
    set r | r in rows && f.from <= r.request.view.occurredAt < f.to && RowMatches(f, r)
  }

  function RowsOf(kind: BucketKind, rows: set<Row>, keys: set<GroupKey>): set<Row> {
    set r | r in rows && KeyOf(kind, r) in keys
  }

  lemma FiltersAgree(f: Filters, kind: BucketKind, r: Row)
    requires ValidFilters(f)
    ensures GroupMatches(f, KeyOf(kind, r)) <==> RowMatches(f, r)
  {
  }

  lemma NoGroups(kind: BucketKind, rows: set<Row>, c: Column)
    ensures Sum(RowsOf(kind, rows, {}), c) == 0
  {
    assert RowsOf(kind, rows, {}) == {};
  }

  lemma OneMoreGroup(kind: BucketKind, rows: set<Row>, keys: set<GroupKey>, k: GroupKey, c: Column)
    requires k in keys
    ensures Sum(RowsOf(kind, rows, keys), c) == Sum(Members(kind, rows, k), c) + Sum(RowsOf(kind, rows, keys - {k}), c)
  {
    var members, others := Members(kind, rows, k), RowsOf(kind, rows, keys - {k});
    assert RowsOf(kind, rows, keys) == members + others;
    SumUnion(members, others, c);
  }

  /// Rollup rows add up to what the requests of their groups add up to.
  lemma {:induction false} GroupsAddUp(kind: BucketKind, table: UsageTable, rows: set<Row>, keys: set<GroupKey>,
                                       c: Column)
    requires forall k | k in keys :: Cell(table, k, c) == Sum(Members(kind, rows, k), c)
    ensures Total(table, keys, c) == Sum(RowsOf(kind, rows, keys), c)
    decreases |keys|
  {
    if keys == {} {
      NoGroups(kind, rows, c);
    } else {
      var k := PickedCell(table, keys, c);
      OneMoreGroup(kind, rows, keys, k, c);
      GroupsAddUp(kind, table, rows, keys - {k}, c);
    }
  }

  /// The hypothesis of the range theorems: a rollup answers for `rows` from `since` on.
  ghost predicate RollupAnswers(kind: BucketKind, table: UsageTable, rows: set<Row>, since: int) {
    && (forall k | k in table && since <= k.bucket :: Aggregates(table[k], Members(kind, rows, k)))
    && (forall r | r in rows && since <= BucketOf(kind, r) :: KeyOf(kind, r) in table)
    && WellPlaced(kind, table)
  }

  lemma ExactRollupsAnswer(kind: BucketKind, db: Db, rows: set<Row>, since: int)
    requires RollupsExact(db, rows, since) && Placed(db)
    ensures RollupAnswers(kind, UsageOf(db, kind), rows, since)
  {
    var table := UsageOf(db, kind);
    forall k | k in table && since <= k.bucket ensures Aggregates(table[k], Members(kind, rows, k)) {
      assert BucketExact(db, rows, kind, k.bucket);
    }
    forall r | r in rows && since <= BucketOf(kind, r) ensures KeyOf(kind, r) in table {
      assert BucketExact(db, rows, kind, BucketOf(kind, r));
      assert r in Members(kind, rows, KeyOf(kind, r));
    }
  }

  /// A valid range over buckets that answer.
  predicate Answerable(since: int, f: Filters) {
    ValidFilters(f) && since <= BucketStart(Day, f.from)
  }

  /// A rollup row of the summary reaches into the range, so its day touches it.
  lemma SelectedDay(table: UsageTable, f: Filters, k: GroupKey)
    requires WellPlaced(Day, table) && k in SummaryKeys(table, f)
    ensures BucketStart(Day, f.from) <= k.bucket < f.to && k.bucket == BucketStart(Day, k.bucket)
  {
    assert PlacedRow(Day, k, table[k]);
    assert f.from < k.bucket + DAY_MS;
  }

  lemma SummaryIsOfItsRows(table: UsageTable, rows: set<Row>, since: int, f: Filters, c: Column)
    requires RollupAnswers(Day, table, rows, since) && Answerable(since, f) && c in COLUMNS
    ensures Total(table, SummaryKeys(table, f), c) == Sum(RowsOf(Day, rows, SummaryKeys(table, f)), c)
  {
    forall k | k in SummaryKeys(table, f) ensures Cell(table, k, c) == Sum(Members(Day, rows, k), c) {
      SelectedDay(table, f, k);
      assert Aggregates(table[k], Members(Day, rows, k));
    }
    GroupsAddUp(Day, table, rows, SummaryKeys(table, f), c);
  }

  lemma MatchingIsSelected(table: UsageTable, rows: set<Row>, since: int, f: Filters, r: Row)
    requires RollupAnswers(Day, table, rows, since) && Answerable(since, f) && r in Matching(rows, f)
    ensures KeyOf(Day, r) in SummaryKeys(table, f)
  {
    var k := KeyOf(Day, r);
    DayOrder(f.from, r.request.view.occurredAt);
    assert Aggregates(table[k], Members(Day, rows, k)) && r in Members(Day, rows, k);
    FiltersAgree(f, Day, r);
  }

  lemma DayOrder(a: int, b: int)
    requires a <= b
    ensures BucketStart(Day, a) <= BucketStart(Day, b)
  {
  }

  /// The whole days that a range touches.
  function WholeDays(f: Filters): Filters {
    f.(from := BucketStart(Day, f.from), to := -BucketStart(Day, -f.to))
  }

  lemma SelectedIsInWholeDays(table: UsageTable, rows: set<Row>, f: Filters, r: Row)
    requires WellPlaced(Day, table) && ValidFilters(f) && r in RowsOf(Day, rows, SummaryKeys(table, f))
    ensures r in Matching(rows, WholeDays(f))
  {
    var k := KeyOf(Day, r);
    SelectedDay(table, f, k);
    FiltersAgree(f, Day, r);
    NextDay(k.bucket, f.to);
  }

  lemma NextDay(start: int, to: int)
    requires start == BucketStart(Day, start) && start < to
    ensures start + DAY_MS <= -BucketStart(Day, -to)
  {
    var day, last := start / DAY_MS, (-to) / DAY_MS;
    assert start == day * DAY_MS && last * DAY_MS <= -to < (last + 1) * DAY_MS;
    assert day < -last;
  }

  /**
   Whatever the range, a summary lies between the aggregate of the requests in the range and that
   of the requests on the days it touches.
   */
  lemma SummaryIsSandwiched(table: UsageTable, rows: set<Row>, since: int, f: Filters, s: Summary, c: Column)
    requires RollupAnswers(Day, table, rows, since) && Answerable(since, f) && c in COLUMNS
    requires SumsUp(table, SummaryKeys(table, f), s)
    ensures Sum(Matching(rows, f), c) <= s.totals[c] <= Sum(Matching(rows, WholeDays(f)), c)
  {
    var selected := RowsOf(Day, rows, SummaryKeys(table, f));
    SummaryIsOfItsRows(table, rows, since, f, c);
    forall r | r in Matching(rows, f) ensures r in selected {
      MatchingIsSelected(table, rows, since, f, r);
    }
    forall r | r in selected ensures r in Matching(rows, WholeDays(f)) {
      SelectedIsInWholeDays(table, rows, f, r);
    }
    SumMonotone(Matching(rows, f), selected, c);
    SumMonotone(selected, Matching(rows, WholeDays(f)), c);
  }

  predicate DayAligned(f: Filters) {
    f.from % DAY_MS == 0 && f.to % DAY_MS == 0
  }

  lemma AlignedDays(f: Filters)
    requires DayAligned(f)
    ensures WholeDays(f) == f
  {
  }

  function RowCurrencies(rows: set<Row>): set<string> {
    set r | r in rows && Currency(r) != "" :: Currency(r)
  }

  lemma SameCurrencies(table: UsageTable, rows: set<Row>, since: int, f: Filters)
    requires RollupAnswers(Day, table, rows, since) && Answerable(since, f) && DayAligned(f)
    ensures Currencies(SummaryKeys(table, f)) == RowCurrencies(Matching(rows, f))
  {
    AlignedDays(f);
    forall k | k in SummaryKeys(table, f) && k.currency != "" ensures k.currency in RowCurrencies(Matching(rows, f)) {
      SelectedDay(table, f, k);
      var r :| r in Members(Day, rows, k);
      SelectedIsInWholeDays(table, rows, f, r);
    }
    forall r | r in Matching(rows, f) && Currency(r) != "" ensures Currency(r) in Currencies(SummaryKeys(table, f)) {
      MatchingIsSelected(table, rows, since, f, r);
      assert KeyOf(Day, r).currency == Currency(r);
    }
  }

  /**
   On day boundaries a summary is exactly the aggregate of the matching requests, and it names a
   currency exactly when all priced ones share it.
   */
  lemma AlignedSummaryIsExact(table: UsageTable, rows: set<Row>, since: int, f: Filters, s: Summary)
    requires RollupAnswers(Day, table, rows, since) && Answerable(since, f) && DayAligned(f)
    requires SumsUp(table, SummaryKeys(table, f), s)
    ensures forall c | c in COLUMNS :: s.totals[c] == Sum(Matching(rows, f), c)
    ensures forall currency :: s.currency == Some(currency) <==> RowCurrencies(Matching(rows, f)) == {currency}
  {
    AlignedDays(f);
    forall c | c in COLUMNS ensures s.totals[c] == Sum(Matching(rows, f), c) {
      SummaryIsSandwiched(table, rows, since, f, s, c);
    }
    SameCurrencies(table, rows, since, f);
  }

  /**
   In every reachable store, for every valid range from the highest raw cutoff on, the summary lies
   between the raw table's aggregates of the range and of its days, which are equal on day boundaries.
   */
  lemma SummaryOfTheRawTable(pricer: Pricer, states: seq<Store>, events: seq<Event>, n: nat, f: Filters, s: Summary)
    requires Run(pricer, states, events) && n < |states|
    requires ValidFilters(f) && states[n].rawHigh <= f.from
    requires SumsUp(states[n].db.daily, SummaryKeys(states[n].db.daily, f), s)
    ensures var rows := states[n].db.raw.Values;
      forall c | c in COLUMNS :: Sum(Matching(rows, f), c) <= s.totals[c] <= Sum(Matching(rows, WholeDays(f)), c)
    ensures DayAligned(f) ==> forall c | c in COLUMNS :: s.totals[c] == Sum(Matching(states[n].db.raw.Values, f), c)
  {
    var db, since := states[n].db, states[n].rawHigh;
    RawTableAnswers(pricer, states, events, n, Day);
    BucketStartsAfterCutoff(Day, since, f.from);
    forall c | c in COLUMNS
      ensures Sum(Matching(db.raw.Values, f), c) <= s.totals[c] <= Sum(Matching(db.raw.Values, WholeDays(f)), c)
    {
      SummaryIsSandwiched(db.daily, db.raw.Values, since, f, s, c);
    }
    if DayAligned(f) {
      AlignedDays(f);
    }
  }

  /**
   And, when nothing was accepted late, for every valid range from the highest rollup cutoff on the same
   holds of every request ever committed, although most of their raw rows are long purged.
   */
  lemma SummaryOfTheLog(pricer: Pricer, states: seq<Store>, events: seq<Event>, n: nat, f: Filters, s: Summary)
    requires Run(pricer, states, events) && n < |states|
    requires forall i | 0 <= i < n :: NotLate(states[i], events[i])
    requires ValidFilters(f) && states[n].rollupHigh <= f.from
    requires SumsUp(states[n].db.daily, SummaryKeys(states[n].db.daily, f), s)
    ensures var rows := states[n].history;
      forall c | c in COLUMNS :: Sum(Matching(rows, f), c) <= s.totals[c] <= Sum(Matching(rows, WholeDays(f)), c)
    ensures DayAligned(f) ==> forall c | c in COLUMNS :: s.totals[c] == Sum(Matching(states[n].history, f), c)
  {
    var table, rows, since := states[n].db.daily, states[n].history, states[n].rollupHigh;
    LogAnswers(pricer, states, events, n, Day);
    BucketStartsAfterCutoff(Day, since, f.from);
    forall c | c in COLUMNS ensures Sum(Matching(rows, f), c) <= s.totals[c] <= Sum(Matching(rows, WholeDays(f)), c) {
      SummaryIsSandwiched(table, rows, since, f, s, c);
    }
    if DayAligned(f) {
      AlignedDays(f);
    }
  }

  lemma RawTableAnswers(pricer: Pricer, states: seq<Store>, events: seq<Event>, n: nat, kind: BucketKind)
    requires Run(pricer, states, events) && n < |states|
    ensures RollupAnswers(kind, UsageOf(states[n].db, kind), states[n].db.raw.Values, states[n].rawHigh)
    ensures states[n].rawHigh % DAY_MS == 0
  {
    RollupInvariant(pricer, states, events, n);
    PlacedThroughout(pricer, states, events, n);
    ExactRollupsAnswer(kind, states[n].db, states[n].db.raw.Values, states[n].rawHigh);
  }

  lemma LogAnswers(pricer: Pricer, states: seq<Store>, events: seq<Event>, n: nat, kind: BucketKind)
    requires Run(pricer, states, events) && n < |states|
    requires forall i | 0 <= i < n :: NotLate(states[i], events[i])
    ensures RollupAnswers(kind, UsageOf(states[n].db, kind), states[n].history, states[n].rollupHigh)
    ensures states[n].rollupHigh % DAY_MS == 0
  {
    RollupInvariant(pricer, states, events, n);
    CompactionPreservesAnswers(pricer, states, events, n);
    PlacedThroughout(pricer, states, events, n);
    ExactRollupsAnswer(kind, states[n].db, states[n].history, states[n].rollupHigh);
  }

  // ------------------------------------------------------------------------------- trends

  /// A column added up over the first `n` points.
  function PointTotal(points: seq<TrendPoint>, n: nat, c: Column): nat
    requires n <= |points|
  {
    if n == 0 then 0 else
    var totals := points[n - 1].summary.totals;
    PointTotal(points, n - 1, c) + if c in totals then totals[c] else 0
  }

  ghost function PointBuckets(points: seq<TrendPoint>): set<int> {
    set p | p in points :: p.bucket
  }

  lemma {:induction false} PointsAreDistinct(points: seq<TrendPoint>)
    requires Ascending(points)
    ensures |PointBuckets(points)| == |points|
    decreases |points|
  {
    if points == [] {
      assert PointBuckets(points) == {};
    } else {
      var rest, last := points[..|points| - 1], points[|points| - 1];
      PointsAreDistinct(rest);
      assert points == rest + [last];
      assert PointBuckets(points) == PointBuckets(rest) + {last.bucket};
      assert last.bucket !in PointBuckets(rest);
    }
  }

  ghost predicate AllListed(keys: set<GroupKey>, points: seq<TrendPoint>) {
    forall k | k in keys :: Lists(points, k.bucket)
  }

  /** The row limit cuts a trend exactly when more than a thousand buckets have data. */
  lemma TrendIsCompleteIff(table: UsageTable, keys: set<GroupKey>, points: seq<TrendPoint>)
    requires TrendOf(table, keys, points)
    ensures AllListed(keys, points) <==> |Buckets(keys)| <= MAX_QUERY_ROWS
  {
    PointsAreDistinct(points);
    forall b | b in PointBuckets(points) ensures b in Buckets(keys) {
      var p :| p in points && p.bucket == b;
      assert PointOf(table, keys, p);
    }
    if AllListed(keys, points) {
      forall b | b in Buckets(keys) ensures b in PointBuckets(points) {
        var k :| k in keys && k.bucket == b;
        var i :| 0 <= i < |points| && points[i].bucket == b;
        assert points[i] in points;
      }
      assert Buckets(keys) == PointBuckets(points);
    } else {
      var k :| k in keys && !Lists(points, k.bucket);
      assert k.bucket in Buckets(keys) && k.bucket !in PointBuckets(points);
      SubsetSize(PointBuckets(points) + {k.bucket}, Buckets(keys));
    }
  }

  lemma SubsetSize<T>(a: set<T>, b: set<T>)
    requires a <= b
    ensures |a| <= |b|
  {
    assert b == a + (b - a);
  }

  lemma {:induction false} SpreadOut(points: seq<TrendPoint>, lo: int, i: nat)
    requires Ascending(points) && i < |points|
    requires forall p | p in points :: lo <= p.bucket && p.bucket == BucketStart(Day, p.bucket)
    requires lo == BucketStart(Day, lo)
    ensures lo + i * DAY_MS <= points[i].bucket
  {
    if i > 0 {
      SpreadOut(points, lo, i - 1);
      assert points[i - 1] in points && points[i] in points;
      NextDay(points[i - 1].bucket, points[i].bucket);
      assert -BucketStart(Day, -points[i].bucket) == points[i].bucket;
    }
  }

  /** A day trend over a valid range has at most 367 points, so the row limit never cuts it. */
  lemma DayTrendIsComplete(db: Db, f: Filters, points: seq<TrendPoint>)
    requires Placed(db) && ValidFilters(f) && TrendOf(db.daily, TrendKeys(Day, db.daily, f), points)
    ensures |points| <= 367 && AllListed(TrendKeys(Day, db.daily, f), points)
  {
    var lo := BucketStart(Day, f.from);
    StartOfStart(Day, f.from);
    forall p | p in points ensures lo <= p.bucket < f.to && p.bucket == BucketStart(Day, p.bucket) {
      assert PointOf(db.daily, TrendKeys(Day, db.daily, f), p);
      var k :| k in TrendKeys(Day, db.daily, f) && k.bucket == p.bucket;
      assert PlacedRow(Day, k, db.daily[k]);
    }
    if |points| > 0 {
      SpreadOut(points, lo, |points| - 1);
      assert points[|points| - 1] in points;
      assert (|points| - 1) * DAY_MS < 367 * DAY_MS;
    }
  }

  /// The rollup rows of the first `n` points.
  ghost function KeysIn(keys: set<GroupKey>, points: seq<TrendPoint>, n: nat): set<GroupKey>
    requires n <= |points|
  {
    set k | k in keys && Lists(points[..n], k.bucket)
  }

  /// A point's total is that of the rollup rows of its bucket.
  ghost predicate PointAddsUp(table: UsageTable, keys: set<GroupKey>, p: TrendPoint, c: Column) {
    c in p.summary.totals && p.summary.totals[c] == Total(table, KeysAt(keys, p.bucket), c)
  }

  lemma KeysOfOneMore(keys: set<GroupKey>, points: seq<TrendPoint>, n: nat)
    requires Ascending(points) && n < |points|
    ensures KeysIn(keys, points, n + 1) == KeysIn(keys, points, n) + KeysAt(keys, points[n].bucket)
    ensures KeysIn(keys, points, n) !! KeysAt(keys, points[n].bucket)
  {
    assert points[..n + 1] == points[..n] + [points[n]];
    ListsMore(points[..n], points[n]);
    forall b | Lists(points[..n + 1], b) ensures b == points[n].bucket || Lists(points[..n], b) {
      var i :| 0 <= i < n + 1 && points[..n + 1][i].bucket == b;
      assert i < n ==> points[..n][i].bucket == b;
    }
  }

  ghost predicate AllAddUp(table: UsageTable, keys: set<GroupKey>, points: seq<TrendPoint>, n: nat, c: Column)
    requires n <= |points|
  {
    n == 0 || (PointAddsUp(table, keys, points[n - 1], c) && AllAddUp(table, keys, points, n - 1, c))
  }

  lemma {:induction false} EveryPointAddsUp(table: UsageTable, keys: set<GroupKey>, points: seq<TrendPoint>, n: nat,
                                            c: Column)
    requires TrendOf(table, keys, points) && n <= |points| && c in COLUMNS
    ensures AllAddUp(table, keys, points, n, c)
  {
    if n > 0 {
      EveryPointAddsUp(table, keys, points, n - 1, c);
      assert points[n - 1] in points;
      assert PointOf(table, keys, points[n - 1]);
    }
  }

  lemma OnePointMore(table: UsageTable, keys: set<GroupKey>, points: seq<TrendPoint>, n: nat, c: Column)
    requires Ascending(points) && n < |points| && PointAddsUp(table, keys, points[n], c)
    ensures Total(table, KeysIn(keys, points, n + 1), c) ==
      Total(table, KeysIn(keys, points, n), c) + points[n].summary.totals[c]
  {
    KeysOfOneMore(keys, points, n);
    TotalUnion(table, KeysIn(keys, points, n), KeysAt(keys, points[n].bucket), c);
  }

  lemma {:induction false} PointsAddUp(table: UsageTable, keys: set<GroupKey>, points: seq<TrendPoint>, n: nat,
                                       c: Column)
    requires Ascending(points) && n <= |points| && AllAddUp(table, keys, points, n, c)
    ensures PointTotal(points, n, c) == Total(table, KeysIn(keys, points, n), c)
  {
    if n == 0 {
      assert KeysIn(keys, points, n) == {};
      return;
    }
    PointsAddUp(table, keys, points, n - 1, c);
    OnePointMore(table, keys, points, n - 1, c);
  }

  /** The points of a complete trend add up to the total over all its rollup rows. */
  lemma CompleteTrendAddsUp(table: UsageTable, keys: set<GroupKey>, points: seq<TrendPoint>, c: Column)
    requires TrendOf(table, keys, points) && AllListed(keys, points) && c in COLUMNS
    ensures PointTotal(points, |points|, c) == Total(table, keys, c)
  {
    EveryPointAddsUp(table, keys, points, |points|, c);
    PointsAddUp(table, keys, points, |points|, c);
    assert points[..|points|] == points;
    assert KeysIn(keys, points, |points|) == keys;
  }

  /** On day boundaries the points of a day trend add up to the summary, column by column. */
  lemma DayTrendAddsUpToSummary(db: Db, f: Filters, points: seq<TrendPoint>, s: Summary, c: Column)
    requires Placed(db) && ValidFilters(f) && DayAligned(f) && c in COLUMNS
    requires TrendOf(db.daily, TrendKeys(Day, db.daily, f), points)
    requires SumsUp(db.daily, SummaryKeys(db.daily, f), s)
    ensures PointTotal(points, |points|, c) == s.totals[c]
  {
    DayTrendIsComplete(db, f, points);
    CompleteTrendAddsUp(db.daily, TrendKeys(Day, db.daily, f), points, c);
    AlignedDays(f);
    forall k | k in db.daily ensures k in TrendKeys(Day, db.daily, f) <==> k in SummaryKeys(db.daily, f) {
      assert PlacedRow(Day, k, db.daily[k]);
      AlignedBucket(k.bucket, f.from);
      AlignedBucket(k.bucket, f.to);
    }
    assert TrendKeys(Day, db.daily, f) == SummaryKeys(db.daily, f);
  }

  lemma AlignedBucket(start: int, boundary: int)
    requires start == BucketStart(Day, start) && boundary % DAY_MS == 0
    ensures start < boundary ==> start + DAY_MS <= boundary
  {
  }

  // --------------------------------------------------------------------- the points of a trend

  /// The matching requests of a bucket, whether or not the range cuts the bucket.
  function BucketMatches(kind: BucketKind, rows: set<Row>, f: Filters, bucket: int): set<Row> {
    set r | r in rows && BucketOf(kind, r) == bucket && RowMatches(f, r)
  }

  lemma GroupsOfBucket(kind: BucketKind, table: UsageTable, rows: set<Row>, since: int, f: Filters, bucket: int)
    requires RollupAnswers(kind, table, rows, since) && ValidFilters(f)
    requires since <= bucket && BucketStart(kind, f.from) <= bucket < f.to
    ensures RowsOf(kind, rows, KeysAt(TrendKeys(kind, table, f), bucket)) == BucketMatches(kind, rows, f, bucket)
  {
    forall r | r in rows
      ensures r in RowsOf(kind, rows, KeysAt(TrendKeys(kind, table, f), bucket)) <==>
        r in BucketMatches(kind, rows, f, bucket)
    {
      FiltersAgree(f, kind, r);
    }
  }

  lemma BucketTotal(kind: BucketKind, table: UsageTable, rows: set<Row>, since: int, f: Filters, bucket: int, c: Column)
    requires RollupAnswers(kind, table, rows, since) && ValidFilters(f) && c in COLUMNS
    requires since <= bucket && BucketStart(kind, f.from) <= bucket < f.to
    ensures Total(table, KeysAt(TrendKeys(kind, table, f), bucket), c) == Sum(BucketMatches(kind, rows, f, bucket), c)
  {
    var keys := KeysAt(TrendKeys(kind, table, f), bucket);
    forall k | k in keys ensures Cell(table, k, c) == Sum(Members(kind, rows, k), c) {
      assert Aggregates(table[k], Members(kind, rows, k));
    }
    GroupsAddUp(kind, table, rows, keys, c);
    GroupsOfBucket(kind, table, rows, since, f, bucket);
  }

  lemma BucketCurrencies(kind: BucketKind, table: UsageTable, rows: set<Row>, since: int, f: Filters, bucket: int)
    requires RollupAnswers(kind, table, rows, since) && ValidFilters(f)
    requires since <= bucket && BucketStart(kind, f.from) <= bucket < f.to
    ensures Currencies(KeysAt(TrendKeys(kind, table, f), bucket)) == RowCurrencies(BucketMatches(kind, rows, f, bucket))
  {
    var keys := KeysAt(TrendKeys(kind, table, f), bucket);
    GroupsOfBucket(kind, table, rows, since, f, bucket);
    forall k | k in keys && k.currency != "" ensures k.currency in RowCurrencies(BucketMatches(kind, rows, f, bucket)) {
      var r :| r in Members(kind, rows, k);
      assert r in RowsOf(kind, rows, keys);
    }
    forall r | r in BucketMatches(kind, rows, f, bucket) && Currency(r) != "" ensures Currency(r) in Currencies(keys) {
      assert r in RowsOf(kind, rows, keys);
      assert KeyOf(kind, r).currency == Currency(r);
    }
  }

  lemma BucketIsNotEmpty(kind: BucketKind, table: UsageTable, rows: set<Row>, since: int, f: Filters, bucket: int)
    requires RollupAnswers(kind, table, rows, since) && ValidFilters(f)
    requires since <= bucket && bucket in Buckets(TrendKeys(kind, table, f))
    ensures BucketMatches(kind, rows, f, bucket) != {}
  {
    var k :| k in TrendKeys(kind, table, f) && k.bucket == bucket;
    var r :| r in Members(kind, rows, k);
    FiltersAgree(f, kind, r);
    assert r in BucketMatches(kind, rows, f, bucket);
  }

  /// What a point of a trend says about `rows`: its bucket has matching requests, and it is their aggregate.
  ghost predicate PointIsExact(kind: BucketKind, rows: set<Row>, f: Filters, p: TrendPoint) {
    var matches := BucketMatches(kind, rows, f, p.bucket);
    && matches != {} && p.summary.totals.Keys == COLUMNS
    && (forall c | c in COLUMNS :: p.summary.totals[c] == Sum(matches, c))
    && (forall currency :: p.summary.currency == Some(currency) <==> RowCurrencies(matches) == {currency})
  }

  /** Every point of a trend, hourly or daily, is the aggregate of the matching requests of its bucket. */
  lemma TrendPointIsExact(kind: BucketKind, table: UsageTable, rows: set<Row>, since: int, f: Filters, p: TrendPoint)
    requires RollupAnswers(kind, table, rows, since) && ValidFilters(f) && since <= BucketStart(kind, f.from)
    requires PointOf(table, TrendKeys(kind, table, f), p)
    ensures PointIsExact(kind, rows, f, p)
  {
    BucketCurrencies(kind, table, rows, since, f, p.bucket);
    forall c | c in COLUMNS ensures p.summary.totals[c] == Sum(BucketMatches(kind, rows, f, p.bucket), c) {
      BucketTotal(kind, table, rows, since, f, p.bucket, c);
    }
    BucketIsNotEmpty(kind, table, rows, since, f, p.bucket);
  }

  /** And every bucket with a matching request has its point, unless the row limit cuts the trend before it. */
  lemma BucketHasPoint(kind: BucketKind, table: UsageTable, rows: set<Row>, since: int, f: Filters,
                       points: seq<TrendPoint>, r: Row)
    requires RollupAnswers(kind, table, rows, since) && ValidFilters(f) && since <= BucketStart(kind, f.from)
    requires TrendOf(table, TrendKeys(kind, table, f), points)
    requires r in rows && RowMatches(f, r) && BucketStart(kind, f.from) <= BucketOf(kind, r) < f.to
    ensures Lists(points, BucketOf(kind, r)) ||
      (|points| == MAX_QUERY_ROWS && points[|points| - 1].bucket < BucketOf(kind, r))
  {
    FiltersAgree(f, kind, r);
    assert KeyOf(kind, r) in TrendKeys(kind, table, f);
  }

  /// What a trend says about `rows`: exact points, and one for every bucket that has matching requests.
  ghost predicate TrendIsExact(kind: BucketKind, rows: set<Row>, f: Filters, points: seq<TrendPoint>) {
    && (forall p | p in points :: PointIsExact(kind, rows, f, p))
    && (forall r | r in rows && RowMatches(f, r) && BucketStart(kind, f.from) <= BucketOf(kind, r) < f.to ::
          Lists(points, BucketOf(kind, r)) ||
            (|points| == MAX_QUERY_ROWS && points[|points| - 1].bucket < BucketOf(kind, r)))
  }

  lemma AnswersMakeTrendExact(kind: BucketKind, table: UsageTable, rows: set<Row>, since: int, f: Filters,
                              points: seq<TrendPoint>)
    requires RollupAnswers(kind, table, rows, since) && ValidFilters(f) && since <= BucketStart(kind, f.from)
    requires TrendOf(table, TrendKeys(kind, table, f), points)
    ensures TrendIsExact(kind, rows, f, points)
  {
    forall p | p in points ensures PointIsExact(kind, rows, f, p) {
      TrendPointIsExact(kind, table, rows, since, f, p);
    }
    forall r | r in rows && RowMatches(f, r) && BucketStart(kind, f.from) <= BucketOf(kind, r) < f.to
      ensures Lists(points, BucketOf(kind, r)) ||
        (|points| == MAX_QUERY_ROWS && points[|points| - 1].bucket < BucketOf(kind, r))
    {
      BucketHasPoint(kind, table, rows, since, f, points, r);
    }
  }

  /** In every reachable store a trend from the highest raw cutoff on is exact for the raw table. */
  lemma TrendOfTheRawTable(pricer: Pricer, states: seq<Store>, events: seq<Event>, n: nat,
                           kind: BucketKind, f: Filters, points: seq<TrendPoint>)
    requires Run(pricer, states, events) && n < |states| && ValidFilters(f) && states[n].rawHigh <= f.from
    requires var table := UsageOf(states[n].db, kind); TrendOf(table, TrendKeys(kind, table, f), points)
    ensures TrendIsExact(kind, states[n].db.raw.Values, f, points)
  {
    RawTableAnswers(pricer, states, events, n, kind);
    BucketStartsAfterCutoff(kind, states[n].rawHigh, f.from);
    AnswersMakeTrendExact(kind, UsageOf(states[n].db, kind), states[n].db.raw.Values, states[n].rawHigh, f, points);
  }

  /** And, when nothing was accepted late, from the highest rollup cutoff on for every request ever committed. */
  lemma TrendOfTheLog(pricer: Pricer, states: seq<Store>, events: seq<Event>, n: nat,
                      kind: BucketKind, f: Filters, points: seq<TrendPoint>)
    requires Run(pricer, states, events) && n < |states| && ValidFilters(f) && states[n].rollupHigh <= f.from
    requires forall i | 0 <= i < n :: NotLate(states[i], events[i])
    requires var table := UsageOf(states[n].db, kind); TrendOf(table, TrendKeys(kind, table, f), points)
    ensures TrendIsExact(kind, states[n].history, f, points)
  {
    LogAnswers(pricer, states, events, n, kind);
    BucketStartsAfterCutoff(kind, states[n].rollupHigh, f.from);
    AnswersMakeTrendExact(kind, UsageOf(states[n].db, kind), states[n].history, states[n].rollupHigh, f, points);
  }
}
