/**
 The read side of the engine: `summary`, `trend` and `recent` (storage/engine.ts) over the
 tables, with the SQL selections written as loops. Percentiles are not part of this model.
 */
module Queries {
  import opened Basics
  import opened Pricing
  import opened Requests
  import opened Rollup

  const MAX_QUERY_RANGE_MS: nat := 366 * DAY_MS
  const MAX_QUERY_ROWS: nat := 1_000
  const MAX_RECENT_LIMIT: nat := 100

  datatype Filters = Filters(
    from: int,
    to: int,
    route: Option<string>,
    provider: Option<string>,
    model: Option<string>,
    account: Option<string>,
    apiKey: Option<string>)

  /// What `validateFilters` accepts; account and key filters are 64-digit hashes, so never empty.
  predicate ValidFilters(f: Filters) {
    && 0 <= f.from <= f.to <= MAX_SAFE && f.to - f.from <= MAX_QUERY_RANGE_MS
    && f.account != Some("") && f.apiKey != Some("")
  }

  predicate Admits(filter: Option<string>, value: string) {
    filter.Some? ==> filter.value == value
  }

  predicate AdmitsNullable(filter: Option<string>, value: Option<string>) {
    filter.Some? ==> value == filter
  }

  predicate GroupMatches(f: Filters, k: GroupKey) {
    && Admits(f.route, k.route) && Admits(f.provider, k.provider) && Admits(f.model, k.model)
    && Admits(f.account, k.account) && Admits(f.apiKey, k.apiKey)
  }

  predicate RowMatches(f: Filters, r: Row) {
    var v := r.request.view;
    && Admits(f.route, v.route) && Admits(f.provider, v.provider) && Admits(f.model, v.model)
    && AdmitsNullable(f.account, v.account) && AdmitsNullable(f.apiKey, v.apiKey)
  }

  // --------------------------------------------------------------------------- totals

  function Cell(table: UsageTable, k: GroupKey, c: Column): nat {
    if k in table && c in table[k].sums then table[k].sums[c] else 0
  }

  ghost function Total(table: UsageTable, keys: set<GroupKey>, c: Column): nat {
    if keys == {} then 0 else
    var k :| k in keys;
    Cell(table, k, c) + Total(table, keys - {k}, c)
  }

  lemma PickedCell(table: UsageTable, keys: set<GroupKey>, c: Column) returns (p: GroupKey)
    requires keys != {}
    ensures p in keys && Total(table, keys, c) == Cell(table, p, c) + Total(table, keys - {p}, c)
  {
    p :| p in keys && Total(table, keys, c) == Cell(table, p, c) + Total(table, keys - {p}, c);
  }

  lemma {:induction false} TotalRemove(table: UsageTable, keys: set<GroupKey>, k: GroupKey, c: Column)
    requires k in keys
    ensures Total(table, keys, c) == Cell(table, k, c) + Total(table, keys - {k}, c)
    decreases |keys|
  {
    var p := PickedCell(table, keys, c);
    if p != k {
      TotalRemove(table, keys - {p}, k, c);
      TotalRemove(table, keys - {k}, p, c);
      assert keys - {p} - {k} == keys - {k} - {p};
    }
  }

  lemma {:induction false} TotalUnion(table: UsageTable, a: set<GroupKey>, b: set<GroupKey>, c: Column)
    requires a !! b
    ensures Total(table, a + b, c) == Total(table, a, c) + Total(table, b, c)
    decreases |a|
  {
    if a == {} {
      assert a + b == b;
    } else {
      var k :| k in a;
      TotalRemove(table, a, k, c);
      TotalRemove(table, a + b, k, c);
      assert a + b - {k} == (a - {k}) + b;
      TotalUnion(table, a - {k}, b, c);
    }
  }

  /// The totals of a query, and its currency when all priced groups share one.
  datatype Summary = Summary(totals: map<Column, nat>, currency: Option<string>)

  function Currencies(keys: set<GroupKey>): set<string> {
    set k | k in keys && k.currency != "" :: k.currency
  }

  ghost predicate SumsUp(table: UsageTable, keys: set<GroupKey>, s: Summary) {
    && s.totals.Keys == COLUMNS
    && (forall c | c in COLUMNS :: s.totals[c] == Total(table, keys, c))
    && (forall currency :: s.currency == Some(currency) <==> Currencies(keys) == {currency})
  }

  method SumColumnOver(table: UsageTable, keys: set<GroupKey>, c: Column) returns (total: nat)
    ensures total == Total(table, keys, c)
  {
    total := 0;
    var rest := keys;
    while rest != {}
      invariant total + Total(table, rest, c) == Total(table, keys, c)
      decreases rest
    {
      var k :| k in rest;
      TotalRemove(table, rest, k, c);
      total, rest := total + Cell(table, k, c), rest - {k};
    }
  }

  /** `SELECT SUM(...), CASE WHEN COUNT(DISTINCT currency) = 1 ...` over some rollup rows. */
  method Summarize(table: UsageTable, keys: set<GroupKey>) returns (s: Summary)
    ensures SumsUp(table, keys, s)
  {
    var totals: map<Column, nat> := map[];
    var columns := COLUMNS;
    while columns != {}
      invariant columns <= COLUMNS && totals.Keys == COLUMNS - columns
      invariant forall c | c in totals :: totals[c] == Total(table, keys, c)
      decreases columns
    {
      var c :| c in columns;
      var total := SumColumnOver(table, keys, c);
      totals, columns := totals[c := total], columns - {c};
    }
    var currencies := Currencies(keys);
    var currency := None;
    if |currencies| == 1 {
      var only :| only in currencies;
      SingletonOf(currencies, only);
      currency := Some(only);
    }
    s := Summary(totals, currency);
  }

  lemma SingletonOf<T>(s: set<T>, x: T)
    requires |s| == 1 && x in s
    ensures s == {x}
  {
    assert |s - {x}| == 0;
    assert s == (s - {x}) + {x};
  }

  // ------------------------------------------------------------------ summary and trend

  /// The rollup rows that `summary` adds up: those whose requests reach into the range.
  function SummaryKeys(table: UsageTable, f: Filters): set<GroupKey> {
    set k | k in table && table[k].lastAt >= f.from && table[k].firstAt < f.to && GroupMatches(f, k)
  }

  /// The rollup rows that `trend` groups by bucket.
  function TrendKeys(kind: BucketKind, table: UsageTable, f: Filters): set<GroupKey> {
    set k | k in table && BucketStart(kind, f.from) <= k.bucket < f.to && GroupMatches(f, k)
  }

  function KeysAt(keys: set<GroupKey>, bucket: int): set<GroupKey> {
    set k | k in keys && k.bucket == bucket
  }

  function Buckets(keys: set<GroupKey>): set<int> {
    set k | k in keys :: k.bucket
  }

  datatype TrendPoint = TrendPoint(bucket: int, summary: Summary)

  ghost predicate Ascending(points: seq<TrendPoint>) {
    forall i, j | 0 <= i < j < |points| :: points[i].bucket < points[j].bucket
  }

  ghost predicate Lists(points: seq<TrendPoint>, bucket: int) {
    exists i | 0 <= i < |points| :: points[i].bucket == bucket
  }

  /// A point for a bucket of `keys` with that bucket's totals.
  ghost predicate PointOf(table: UsageTable, keys: set<GroupKey>, p: TrendPoint) {
    p.bucket in Buckets(keys) && SumsUp(table, KeysAt(keys, p.bucket), p.summary)
  }

  /// The buckets in ascending order, cut at the row limit, each with its own totals.
  ghost predicate TrendOf(table: UsageTable, keys: set<GroupKey>, points: seq<TrendPoint>) {
    && |points| <= MAX_QUERY_ROWS && Ascending(points)
    && (forall p | p in points :: PointOf(table, keys, p))
    && (forall k | k in keys ::
          Lists(points, k.bucket) || (|points| == MAX_QUERY_ROWS && points[|points| - 1].bucket < k.bucket))
  }

  method LeastBucket(keys: set<GroupKey>) returns (least: int)
    requires keys != {}
    ensures least in Buckets(keys) && forall k | k in keys :: least <= k.bucket
  {
    var k :| k in keys;
    least := k.bucket;
    var rest := keys - {k};
    while rest != {}
      invariant rest <= keys && least in Buckets(keys)
      invariant forall x | x in keys - rest :: least <= x.bucket
      decreases rest
    {
      k :| k in rest;
      if k.bucket < least {
        least := k.bucket;
      }
      rest := rest - {k};
    }
  }

  /** `SELECT ... GROUP BY bucket_start_ms ORDER BY bucket_start_ms ASC LIMIT 1000`. */
  method SelectTrend(table: UsageTable, keys: set<GroupKey>) returns (points: seq<TrendPoint>)
    ensures TrendOf(table, keys, points)
  {
    points := [];
    var rest := keys;
    while rest != {} && |points| < MAX_QUERY_ROWS
      invariant rest <= keys && |points| <= MAX_QUERY_ROWS && Ascending(points)
      invariant forall p | p in points :: PointOf(table, keys, p)
      invariant forall k | k in rest :: |points| > 0 ==> points[|points| - 1].bucket < k.bucket
      invariant forall k | k in keys - rest :: Lists(points, k.bucket)
      decreases rest
    {
      var bucket := LeastBucket(rest);
      var s := Summarize(table, KeysAt(keys, bucket));
      ghost var before := points;
      points := points + [TrendPoint(bucket, s)];
      ListsMore(before, TrendPoint(bucket, s));
      ghost var k :| k in rest && k.bucket == bucket;
      rest := set x | x in rest && x.bucket != bucket;
      assert k !in rest;
    }
  }

  lemma ListsMore(points: seq<TrendPoint>, p: TrendPoint)
    ensures Lists(points + [p], p.bucket)
    ensures forall b :: Lists(points, b) ==> Lists(points + [p], b)
  {
    assert (points + [p])[|points|] == p;
    forall b | Lists(points, b) ensures Lists(points + [p], b) {
      var i :| 0 <= i < |points| && points[i].bucket == b;
      assert (points + [p])[i].bucket == b;
    }
  }

  // ---------------------------------------------------------------------------- recent

  /// `ORDER BY occurred_at_ms DESC, request_id_hash DESC`.
  datatype Key = Key(at: int, id: Hash)

  function RowKey(r: Row): Key {
    Key(r.request.view.occurredAt, r.request.id)
  }

  predicate Before(a: Key, b: Key) {
    a.at < b.at || (a.at == b.at && a.id < b.id)
  }

  datatype Page = Page(items: seq<Row>, nextCursor: Option<Key>)

  /// The rows a page may show: in range, matching, and strictly before the cursor.
  function Eligible(rows: set<Row>, f: Filters, cursor: Option<Key>): set<Row> {
    set r | r in rows && f.from <= r.request.view.occurredAt < f.to && RowMatches(f, r)
      && (cursor.Some? ==> Before(RowKey(r), cursor.value))
  }

  ghost predicate Descending(items: seq<Row>) {
    forall i, j | 0 <= i < j < |items| :: Before(RowKey(items[j]), RowKey(items[i]))
  }

  /// The `limit` latest rows, latest first.
  ghost predicate Latest(eligible: set<Row>, limit: nat, items: seq<Row>) {
    && (forall r | r in items :: r in eligible)
    && Descending(items)
    && |items| <= limit
    && (|items| < limit ==> forall r | r in eligible :: r in items)
    && (forall r, i | r in eligible && r !in items && 0 <= i < |items| :: Before(RowKey(r), RowKey(items[i])))
  }

  ghost predicate PageOf(rows: set<Row>, f: Filters, cursor: Option<Key>, limit: nat, page: Page) {
    var eligible := Eligible(rows, f, cursor);
    && Latest(eligible, limit, page.items)
    && match page.nextCursor
       case None => forall r | r in eligible :: r in page.items
       case Some(key) => |page.items| == limit && limit > 0 && key == RowKey(page.items[limit - 1])
                         && exists r :: r in eligible && r !in page.items
  }

  /// Rows of one table never share a key.
  ghost predicate DistinctKeys(rows: set<Row>) {
    forall a, b | a in rows && b in rows && a.request.id == b.request.id :: a == b
  }

  method LatestRow(rows: set<Row>) returns (latest: Row)
    requires rows != {} && DistinctKeys(rows)
    ensures latest in rows && forall r | r in rows && r != latest :: Before(RowKey(r), RowKey(latest))
  {
    latest :| latest in rows;
    var rest := rows - {latest};
    while rest != {}
      invariant rest <= rows && latest in rows - rest
      invariant forall r | r in rows - rest && r != latest :: Before(RowKey(r), RowKey(latest))
      decreases rest
    {
      var r :| r in rest;
      if Before(RowKey(latest), RowKey(r)) {
        latest := r;
      }
      rest := rest - {r};
    }
  }

  /** `SELECT ... ORDER BY ... LIMIT ?`. */
  method SelectLatest(eligible: set<Row>, limit: nat) returns (items: seq<Row>)
    requires DistinctKeys(eligible)
    ensures Latest(eligible, limit, items)
  {
    items := [];
    var rest := eligible;
    while rest != {} && |items| < limit
      invariant rest <= eligible && |items| <= limit && Descending(items)
      invariant forall r | r in eligible :: r in items <==> r !in rest
      invariant forall r | r in items :: r in eligible
      invariant forall r, i | r in rest && 0 <= i < |items| :: Before(RowKey(r), RowKey(items[i]))
      decreases rest
    {
      var latest := LatestRow(rest);
      items, rest := items + [latest], rest - {latest};
    }
  }

  /// All but the last of the rows selected are the latest ones, and the last is not among them.
  lemma AllButOne(eligible: set<Row>, limit: nat, selected: seq<Row>)
    requires Latest(eligible, limit + 1, selected) && |selected| == limit + 1
    ensures Latest(eligible, limit, selected[..limit])
    ensures selected[limit] in eligible && selected[limit] !in selected[..limit]
  {
    var visible := selected[..limit];
    assert selected == visible + [selected[limit]];
    assert selected[limit] in selected;
    forall i | 0 <= i < limit ensures Before(RowKey(selected[limit]), RowKey(visible[i])) {
      assert visible[i] == selected[i];
    }
  }

  /** `recent`: asks for one row more than the page shows to learn whether there is another page. */
  method Recent(rows: set<Row>, f: Filters, cursor: Option<Key>, limit: nat) returns (page: Page)
    requires DistinctKeys(rows) && limit > 0
    ensures PageOf(rows, f, cursor, limit, page)
  {
    var eligible := Eligible(rows, f, cursor);
    var selected := SelectLatest(eligible, limit + 1);
    if |selected| > limit {
      AllButOne(eligible, limit, selected);
      var visible := selected[..limit];
      page := Page(visible, Some(RowKey(visible[limit - 1])));
    } else {
      page := Page(selected, None);
    }
  }
}
