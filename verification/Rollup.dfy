/**
 The hourly and daily rollups and latency histograms: what a group of raw rows adds up to,
 and the SQL statements of `recomputeBuckets` (storage/engine.ts) as loops over the rows.
 */
module Rollup {
  import opened Basics
  import opened Pricing
  import opened Requests

  datatype BucketKind = Hour | Day

  function Size(kind: BucketKind): nat {
    if kind == Hour then HOUR_MS else DAY_MS
  }

  /// `utcBucket`: the start of the bucket that holds a time.
  function BucketStart(kind: BucketKind, at: int): (start: int)
    ensures start <= at < start + Size(kind)
  {
    at / Size(kind) * Size(kind)
  }

  function BucketOf(kind: BucketKind, r: Row): int {
    BucketStart(kind, r.request.view.occurredAt)
  }

  datatype GroupKey = GroupKey(
    bucket: int,
    route: string,
    provider: string,
    model: string,
    account: string,
    apiKey: string,
    keyVersion: nat,
    currency: string)

  /// The primary key of the rollup tables; a null account, key or currency groups as the empty string.
  function KeyOf(kind: BucketKind, r: Row): GroupKey {
    var v := r.request.view;
    GroupKey(BucketOf(kind, r), v.route, v.provider, v.model, EngineText(v.account), EngineText(v.apiKey), v.keyVersion,
      Currency(r))
  }

  function Currency(r: Row): string {
    if r.price.rule.Some? then r.price.rule.value.currency else ""
  }

  /// The columns that a rollup row sums over its requests.
  datatype Column =
    | Requests | Successes | Errors | AbortedRequests | Units
    | InputTokens | OutputTokens | CacheReadTokens | CacheWriteTokens | ReasoningTokens
    | InputKnown | OutputKnown | CacheReadKnown | CacheWriteKnown | ReasoningKnown
    | FirstTokenKnown | FirstTokenSum | DurationKnown | DurationSum
    | PricedRequests | PartialRequests | UnpricedRequests | KnownCostMicros | EstimatedCostMicros

  const COLUMNS: set<Column> := {
    Requests, Successes, Errors, AbortedRequests, Units,
    InputTokens, OutputTokens, CacheReadTokens, CacheWriteTokens, ReasoningTokens,
    InputKnown, OutputKnown, CacheReadKnown, CacheWriteKnown, ReasoningKnown,
    FirstTokenKnown, FirstTokenSum, DurationKnown, DurationSum,
    PricedRequests, PartialRequests, UnpricedRequests, KnownCostMicros, EstimatedCostMicros }

  function OrZero(value: Option<nat>): nat {
    if value.Some? then value.value else 0
  }

  function Indicator(b: bool): nat {
    if b then 1 else 0
  }

  /// What one request contributes to a column.
  function Measure(c: Column, r: Row): nat {
    var v := r.request.view;
    match c
    case Requests => 1
    case Successes => Indicator(v.outcome == Success)
    case Errors => Indicator(v.outcome == RequestOutcome.Error)
    case AbortedRequests => Indicator(v.outcome == Aborted)
    case Units => v.units
    case InputTokens => OrZero(v.input)
    case OutputTokens => OrZero(v.output)
    case CacheReadTokens => OrZero(v.cacheRead)
    case CacheWriteTokens => OrZero(v.cacheWrite)
    case ReasoningTokens => OrZero(v.reasoning)
    case InputKnown => Indicator(v.input.Some?)
    case OutputKnown => Indicator(v.output.Some?)
    case CacheReadKnown => Indicator(v.cacheRead.Some?)
    case CacheWriteKnown => Indicator(v.cacheWrite.Some?)
    case ReasoningKnown => Indicator(v.reasoning.Some?)
    case FirstTokenKnown => Indicator(v.firstToken.Some?)
    case FirstTokenSum => OrZero(v.firstToken)
    case DurationKnown => Indicator(v.duration.Some?)
    case DurationSum => OrZero(v.duration)
    case PricedRequests => Indicator(r.price.state == Priced)
    case PartialRequests => Indicator(r.price.state == Partial)
    case UnpricedRequests => Indicator(r.price.state == Unpriced)
    case KnownCostMicros => r.price.knownCost
    case EstimatedCostMicros => OrZero(r.price.estimatedCost)
  }

  datatype Usage = Usage(sums: map<Column, nat>, firstAt: int, lastAt: int)

  datatype Metric = FirstToken | Duration

  datatype LatencyKey = LatencyKey(group: GroupKey, metric: Metric, bound: nat)

  type UsageTable = map<GroupKey, Usage>
  type LatencyTable = map<LatencyKey, nat>

  const INFINITY_BUCKET: nat := 2_147_483_647
  const LATENCY_BOUNDS: seq<nat> := [25, 50, 100, 250, 500, 1_000, 2_000, 5_000, 10_000, 30_000, 60_000, 120_000]

  /// The first bound that a latency does not exceed.
  function Bound(latency: nat, from: nat): (bound: nat)
    requires from <= |LATENCY_BOUNDS|
    ensures bound == INFINITY_BUCKET || (bound in LATENCY_BOUNDS && latency <= bound)
    decreases |LATENCY_BOUNDS| - from
  {
    if from == |LATENCY_BOUNDS| then INFINITY_BUCKET
    else if latency <= LATENCY_BOUNDS[from] then LATENCY_BOUNDS[from]
    else Bound(latency, from + 1)
  }

  function Latency(m: Metric, r: Row): Option<nat> {
    if m == FirstToken then r.request.view.firstToken else r.request.view.duration
  }

  function LatencyKeyOf(kind: BucketKind, m: Metric, r: Row): (key: LatencyKey)
    requires Latency(m, r).Some?
  {
    LatencyKey(KeyOf(kind, r), m, Bound(Latency(m, r).value, 0))
  }

  // --------------------------------------------------------------- sums over sets of rows

  ghost function Sum(rows: set<Row>, c: Column): nat {
    if rows == {} then 0 else
    var r :| r in rows;
    Measure(c, r) + Sum(rows - {r}, c)
  }

  lemma {:induction false} SumRemove(rows: set<Row>, r: Row, c: Column)
    requires r in rows
    ensures Sum(rows, c) == Measure(c, r) + Sum(rows - {r}, c)
    decreases |rows|
  {
    var p :| p in rows && Sum(rows, c) == Measure(c, p) + Sum(rows - {p}, c);
    if p != r {
      SumRemove(rows - {p}, r, c);
      SumRemove(rows - {r}, p, c);
      assert rows - {p} - {r} == rows - {r} - {p};
    }
  }

  lemma {:induction false} SumUnion(a: set<Row>, b: set<Row>, c: Column)
    requires a !! b
    ensures Sum(a + b, c) == Sum(a, c) + Sum(b, c)
    decreases |a|
  {
    if a == {} {
      assert a + b == b;
    } else {
      var r :| r in a;
      SumRemove(a, r, c);
      SumRemove(a + b, r, c);
      assert a + b - {r} == (a - {r}) + b;
      SumUnion(a - {r}, b, c);
    }
  }

  lemma SumMonotone(a: set<Row>, b: set<Row>, c: Column)
    requires a <= b
    ensures Sum(a, c) <= Sum(b, c)
  {
    SumUnion(a, b - a, c);
    assert a + (b - a) == b;
  }

  // -------------------------------------------------------------------------- the group-by

  /// The rows of one group.
  function Members(kind: BucketKind, rows: set<Row>, k: GroupKey): set<Row> {
    set r | r in rows && KeyOf(kind, r) == k
  }

  function Samples(kind: BucketKind, rows: set<Row>, k: LatencyKey): set<Row> {
    set r | r in rows && Latency(k.metric, r).Some? && LatencyKeyOf(kind, k.metric, r) == k
  }

  /// `u` is what the group's rows add up to.
  ghost predicate Aggregates(u: Usage, members: set<Row>) {
    && u.sums.Keys == COLUMNS
    && (forall c | c in COLUMNS :: u.sums[c] == Sum(members, c))
    && (forall r | r in members :: u.firstAt <= r.request.view.occurredAt <= u.lastAt)
    && (exists r | r in members :: r.request.view.occurredAt == u.firstAt)
    && (exists r | r in members :: r.request.view.occurredAt == u.lastAt)
  }

  /// In one bucket, a usage table is exactly the group-by of `rows`.
  ghost predicate UsageExact(kind: BucketKind, table: UsageTable, rows: set<Row>, bucket: int) {
    forall k: GroupKey | k.bucket == bucket ::
      && (k in table <==> Members(kind, rows, k) != {})
      && (k in table ==> Aggregates(table[k], Members(kind, rows, k)))
  }

  /// In one bucket, a latency table is exactly the histogram of `rows`.
  ghost predicate LatencyExact(kind: BucketKind, table: LatencyTable, rows: set<Row>, bucket: int) {
    forall k: LatencyKey | k.group.bucket == bucket ::
      && (k in table <==> Samples(kind, rows, k) != {})
      && (k in table ==> table[k] == |Samples(kind, rows, k)|)
  }

  lemma {:induction false} AggregatesUnique(u: Usage, v: Usage, members: set<Row>)
    requires Aggregates(u, members) && Aggregates(v, members)
    ensures u == v
  {
    assert u.sums == v.sums;
  }

  /// Rows of other buckets do not matter to a bucket.
  ghost function InBucket(kind: BucketKind, rows: set<Row>, bucket: int): set<Row> {
    set r | r in rows && BucketOf(kind, r) == bucket
  }

  /** A bucket's group-by depends only on the rows in it. */
  lemma OnlyTheBucketMatters(kind: BucketKind, a: set<Row>, b: set<Row>, bucket: int)
    requires InBucket(kind, a, bucket) == InBucket(kind, b, bucket)
    ensures forall k: GroupKey | k.bucket == bucket :: Members(kind, a, k) == Members(kind, b, k)
    ensures forall k: LatencyKey | k.group.bucket == bucket :: Samples(kind, a, k) == Samples(kind, b, k)
    ensures forall t :: UsageExact(kind, t, a, bucket) == UsageExact(kind, t, b, bucket)
    ensures forall t :: LatencyExact(kind, t, a, bucket) == LatencyExact(kind, t, b, bucket)
  {
    forall k: GroupKey | k.bucket == bucket ensures Members(kind, a, k) == Members(kind, b, k) {
      forall r ensures r in Members(kind, a, k) <==> r in Members(kind, b, k) {
        assert r in InBucket(kind, a, bucket) <==> r in InBucket(kind, b, bucket);
      }
    }
    forall k: LatencyKey | k.group.bucket == bucket ensures Samples(kind, a, k) == Samples(kind, b, k) {
      forall r ensures r in Samples(kind, a, k) <==> r in Samples(kind, b, k) {
        assert r in InBucket(kind, a, bucket) <==> r in InBucket(kind, b, bucket);
      }
    }
  }

  // ------------------------------------------------------------------- the SQL aggregates

  method SumColumn(rows: set<Row>, c: Column) returns (total: nat)
    ensures total == Sum(rows, c)
  {
    total := 0;
    var rest := rows;
    while rest != {}
      invariant total + Sum(rest, c) == Sum(rows, c)
      decreases rest
    {
      var r :| r in rest;
      SumRemove(rest, r, c);
      total, rest := total + Measure(c, r), rest - {r};
    }
  }

  method TimeRange(rows: set<Row>) returns (first: int, last: int)
    requires rows != {}
    ensures forall r | r in rows :: first <= r.request.view.occurredAt <= last
    ensures exists r | r in rows :: r.request.view.occurredAt == first
    ensures exists r | r in rows :: r.request.view.occurredAt == last
  {
    var r :| r in rows;
    first, last := r.request.view.occurredAt, r.request.view.occurredAt;
    var rest := rows - {r};
    while rest != {}
      invariant rest < rows
      invariant forall x | x in rows - rest :: first <= x.request.view.occurredAt <= last
      invariant exists x | x in rows - rest :: x.request.view.occurredAt == first
      invariant exists x | x in rows - rest :: x.request.view.occurredAt == last
      decreases rest
    {
      r :| r in rest;
      var at := r.request.view.occurredAt;
      first, last := if at < first then at else first, if at > last then at else last;
      assert r in rows - (rest - {r}) && rows - rest <= rows - (rest - {r});
      rest := rest - {r};
    }
  }

  method Aggregate(members: set<Row>) returns (u: Usage)
    requires members != {}
    ensures Aggregates(u, members)
  {
    var sums: map<Column, nat> := map[];
    var columns := COLUMNS;
    while columns != {}
      invariant columns <= COLUMNS && sums.Keys == COLUMNS - columns
      invariant forall c | c in sums :: sums[c] == Sum(members, c)
      decreases columns
    {
      var c :| c in columns;
      var total := SumColumn(members, c);
      sums, columns := sums[c := total], columns - {c};
    }
    var first, last := TimeRange(members);
    u := Usage(sums, first, last);
  }

  function UsageKeys(kind: BucketKind, rows: set<Row>, bucket: int): (keys: set<GroupKey>)
    ensures forall k: GroupKey :: k in keys <==> k.bucket == bucket && Members(kind, rows, k) != {}
  {
    var keys := set r | r in rows && BucketOf(kind, r) == bucket :: KeyOf(kind, r);
    assert forall k: GroupKey | k.bucket == bucket && Members(kind, rows, k) != {} :: k in keys by {
      forall k: GroupKey | k.bucket == bucket && Members(kind, rows, k) != {} ensures k in keys {
        var r :| r in Members(kind, rows, k);
        assert KeyOf(kind, r) in keys;
      }
    }
    assert forall k | k in keys :: Members(kind, rows, k) != {} by {
      forall k | k in keys ensures Members(kind, rows, k) != {} {
        var r :| r in rows && BucketOf(kind, r) == bucket && KeyOf(kind, r) == k;
        assert r in Members(kind, rows, k);
      }
    }
    keys
  }

  /** `INSERT INTO usage SELECT ... GROUP BY` for one bucket that has just been emptied. */
  method InsertUsage(kind: BucketKind, table: UsageTable, rows: set<Row>, bucket: int) returns (result: UsageTable)
    requires forall k | k in table :: k.bucket != bucket
    ensures forall k: GroupKey | k.bucket != bucket ::
      (k in result <==> k in table) && (k in table ==> result[k] == table[k])
    ensures UsageExact(kind, result, rows, bucket)
  {
    var keys := UsageKeys(kind, rows, bucket);
    var inserted: UsageTable := map[];
    var rest := keys;
    while rest != {}
      invariant rest <= keys && inserted.Keys == keys - rest
      invariant forall k | k in inserted :: Aggregates(inserted[k], Members(kind, rows, k))
      decreases rest
    {
      var k :| k in rest;
      var u := Aggregate(Members(kind, rows, k));
      inserted, rest := inserted[k := u], rest - {k};
    }
    result := table + inserted;
  }

  function LatencyKeys(kind: BucketKind, m: Metric, rows: set<Row>, bucket: int): set<LatencyKey> {
    set r | r in rows && BucketOf(kind, r) == bucket && Latency(m, r).Some? :: LatencyKeyOf(kind, m, r)
  }

  lemma LatencyKeysExact(kind: BucketKind, m: Metric, rows: set<Row>, bucket: int)
    ensures forall k: LatencyKey :: k in LatencyKeys(kind, m, rows, bucket) <==>
      k.group.bucket == bucket && k.metric == m && Samples(kind, rows, k) != {}
  {
    forall k: LatencyKey
      ensures k in LatencyKeys(kind, m, rows, bucket) <==>
        k.group.bucket == bucket && k.metric == m && Samples(kind, rows, k) != {}
    {
      if k in LatencyKeys(kind, m, rows, bucket) {
        var r :| r in rows && BucketOf(kind, r) == bucket && Latency(m, r).Some? && LatencyKeyOf(kind, m, r) == k;
        assert r in Samples(kind, rows, k);
      }
      if k.group.bucket == bucket && k.metric == m && Samples(kind, rows, k) != {} {
        var r :| r in Samples(kind, rows, k);
        assert LatencyKeyOf(kind, m, r) in LatencyKeys(kind, m, rows, bucket);
      }
    }
  }

  /** `INSERT INTO latency SELECT ... GROUP BY` for one metric of one bucket. */
  method InsertLatency(kind: BucketKind, m: Metric, table: LatencyTable, rows: set<Row>, bucket: int)
    returns (result: LatencyTable)
    requires forall k | k in table :: k.group.bucket != bucket || k.metric != m
    ensures forall k: LatencyKey | k.group.bucket != bucket || k.metric != m ::
      (k in result <==> k in table) && (k in table ==> result[k] == table[k])
    ensures forall k: LatencyKey | k.group.bucket == bucket && k.metric == m ::
      (k in result <==> Samples(kind, rows, k) != {}) && (k in result ==> result[k] == |Samples(kind, rows, k)|)
  {
    var keys := LatencyKeys(kind, m, rows, bucket);
    LatencyKeysExact(kind, m, rows, bucket);
    result := table + map k | k in keys :: |Samples(kind, rows, k)|;
  }

  /// What rebuilding some buckets does to the two tables of a kind.
  ghost predicate Rebuilt(kind: BucketKind, rows: set<Row>, buckets: set<int>,
                          usage: UsageTable, usage': UsageTable, latency: LatencyTable, latency': LatencyTable) {
    && (forall k: GroupKey | k.bucket !in buckets ::
      (k in usage' <==> k in usage) && (k in usage ==> usage'[k] == usage[k]))
    && (forall k: LatencyKey | k.group.bucket !in buckets ::
      (k in latency' <==> k in latency) && (k in latency ==> latency'[k] == latency[k]))
    && (forall b | b in buckets :: UsageExact(kind, usage', rows, b) && LatencyExact(kind, latency', rows, b))
  }

  /// Both metrics of an emptied bucket have been inserted, one after the other.
  lemma BothMetricsInserted(kind: BucketKind, rows: set<Row>, bucket: int, before: LatencyTable, first: LatencyTable,
                            both: LatencyTable)
    requires forall k: LatencyKey | k.group.bucket != bucket || k.metric != FirstToken ::
      (k in first <==> k in before) && (k in before ==> first[k] == before[k])
    requires forall k: LatencyKey | k.group.bucket == bucket && k.metric == FirstToken ::
      (k in first <==> Samples(kind, rows, k) != {}) && (k in first ==> first[k] == |Samples(kind, rows, k)|)
    requires forall k: LatencyKey | k.group.bucket != bucket || k.metric != Duration ::
      (k in both <==> k in first) && (k in first ==> both[k] == first[k])
    requires forall k: LatencyKey | k.group.bucket == bucket && k.metric == Duration ::
      (k in both <==> Samples(kind, rows, k) != {}) && (k in both ==> both[k] == |Samples(kind, rows, k)|)
    ensures LatencyExact(kind, both, rows, bucket)
    ensures forall k: LatencyKey | k.group.bucket != bucket ::
      (k in both <==> k in before) && (k in before ==> both[k] == before[k])
  {
    forall k: LatencyKey | k.group.bucket == bucket
      ensures (k in both <==> Samples(kind, rows, k) != {}) && (k in both ==> both[k] == |Samples(kind, rows, k)|)
    {
      assert k.metric == FirstToken || k.metric == Duration;
    }
  }

  method RecomputeBucket(kind: BucketKind, rows: set<Row>, bucket: int, usage: UsageTable, latency: LatencyTable)
    returns (usage': UsageTable, latency': LatencyTable)
    ensures Rebuilt(kind, rows, {bucket}, usage, usage', latency, latency')
  {
    usage' := InsertUsage(kind, map k | k in usage && k.bucket != bucket :: usage[k], rows, bucket);
    var emptied: LatencyTable := map k | k in latency && k.group.bucket != bucket :: latency[k];
    var first := InsertLatency(kind, FirstToken, emptied, rows, bucket);
    latency' := InsertLatency(kind, Duration, first, rows, bucket);
    BothMetricsInserted(kind, rows, bucket, emptied, first, latency');
  }

  /** `recomputeBuckets`: delete and re-insert one touched bucket after the other. */
  method RecomputeBuckets(kind: BucketKind, rows: set<Row>, buckets: seq<int>, usage: UsageTable, latency: LatencyTable)
    returns (usage': UsageTable, latency': LatencyTable)
    ensures Rebuilt(kind, rows, (set b | b in buckets), usage, usage', latency, latency')
  {
    usage', latency' := usage, latency;
    ghost var done: set<int> := {};
    for i := 0 to |buckets|
      invariant done == set b | b in buckets[..i]
      invariant Rebuilt(kind, rows, done, usage, usage', latency, latency')
    {
      ghost var before, latencyBefore := usage', latency';
      usage', latency' := RecomputeBucket(kind, rows, buckets[i], usage', latency');
      RebuiltOneMore(kind, rows, done, buckets[i], usage, before, usage', latency, latencyBefore, latency');
      done := done + {buckets[i]};
      assert buckets[..i + 1] == buckets[..i] + [buckets[i]];
    }
    assert buckets[..|buckets|] == buckets;
  }

  lemma RebuiltOneMore(kind: BucketKind, rows: set<Row>, done: set<int>, bucket: int,
                       usage: UsageTable, usage': UsageTable, usage'': UsageTable,
                       latency: LatencyTable, latency': LatencyTable, latency'': LatencyTable)
    requires Rebuilt(kind, rows, done, usage, usage', latency, latency')
    requires Rebuilt(kind, rows, {bucket}, usage', usage'', latency', latency'')
    ensures Rebuilt(kind, rows, done + {bucket}, usage, usage'', latency, latency'')
  {
    forall b | b in done && b != bucket
      ensures UsageExact(kind, usage'', rows, b) && LatencyExact(kind, latency'', rows, b)
    {
      assert UsageExact(kind, usage', rows, b) && LatencyExact(kind, latency', rows, b);
    }
  }
}
