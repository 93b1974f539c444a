/**
 What each column of a rollup row adds up, in terms of the fields of the requests themselves, and which
 requests share a row or a histogram bucket.
 */
module RollupColumns {
  import opened Basics
  import opened Pricing
  import opened Requests
  import opened Rollup

  // -------------------------------------------------------------------- one field at a time

  /// The fields of a request that are added up, and two of its price.
  datatype Field =
    | UnitsField | InputField | OutputField | CacheReadField | CacheWriteField | ReasoningField
    | FirstTokenField | DurationField | KnownCostField | EstimatedCostField

  /// The value of a field; units and known cost are always known.
  function ValueOf(r: Row, f: Field): Option<nat> {
    var v := r.request.view;
    match f
    case UnitsField => Some(v.units)
    case InputField => v.input
    case OutputField => v.output
    case CacheReadField => v.cacheRead
    case CacheWriteField => v.cacheWrite
    case ReasoningField => v.reasoning
    case FirstTokenField => v.firstToken
    case DurationField => v.duration
    case KnownCostField => Some(r.price.knownCost)
    case EstimatedCostField => r.price.estimatedCost
  }

  /// The row with another value of a field.
  function With(r: Row, f: Field, value: Option<nat>): (changed: Row)
    requires f == UnitsField || f == KnownCostField ==> value.Some?
    ensures ValueOf(changed, f) == value && forall g | g != f :: ValueOf(changed, g) == ValueOf(r, g)
  {
    match f
    case UnitsField => r.(request := r.request.(view := r.request.view.(units := value.value)))
    case InputField => r.(request := r.request.(view := r.request.view.(input := value)))
    case OutputField => r.(request := r.request.(view := r.request.view.(output := value)))
    case CacheReadField => r.(request := r.request.(view := r.request.view.(cacheRead := value)))
    case CacheWriteField => r.(request := r.request.(view := r.request.view.(cacheWrite := value)))
    case ReasoningField => r.(request := r.request.(view := r.request.view.(reasoning := value)))
    case FirstTokenField => r.(request := r.request.(view := r.request.view.(firstToken := value)))
    case DurationField => r.(request := r.request.(view := r.request.view.(duration := value)))
    case KnownCostField => r.(price := r.price.(knownCost := value.value))
    case EstimatedCostField => r.(price := r.price.(estimatedCost := value))
  }

  /// The column that adds up a field.
  function TotalColumn(f: Field): Column {
    match f
    case UnitsField => Units
    case InputField => InputTokens
    case OutputField => OutputTokens
    case CacheReadField => CacheReadTokens
    case CacheWriteField => CacheWriteTokens
    case ReasoningField => ReasoningTokens
    case FirstTokenField => FirstTokenSum
    case DurationField => DurationSum
    case KnownCostField => KnownCostMicros
    case EstimatedCostField => EstimatedCostMicros
  }

  /// The column that counts the requests in which a field is known, where there is one.
  function KnownColumn(f: Field): Option<Column> {
    match f
    case InputField => Some(InputKnown)
    case OutputField => Some(OutputKnown)
    case CacheReadField => Some(CacheReadKnown)
    case CacheWriteField => Some(CacheWriteKnown)
    case ReasoningField => Some(ReasoningKnown)
    case FirstTokenField => Some(FirstTokenKnown)
    case DurationField => Some(DurationKnown)
    case _ => None
  }

  function Amount(value: Option<nat>): nat {
    if value.Some? then value.value else 0
  }

  function Presence(value: Option<nat>): nat {
    if value.Some? then 1 else 0
  }

  function Change(before: nat, after: nat): int {
    after - before
  }

  lemma OneRow(base: set<Row>, r: Row, c: Column)
    requires r !in base
    ensures Sum(base + {r}, c) == Sum(base, c) + Measure(c, r)
  {
    SumRemove(base + {r}, r, c);
    assert base + {r} - {r} == base;
  }

  lemma OwnColumns(r: Row, f: Field)
    ensures Measure(TotalColumn(f), r) == Amount(ValueOf(r, f))
    ensures KnownColumn(f).Some? ==> Measure(KnownColumn(f).value, r) == Presence(ValueOf(r, f))
  {
  }

  lemma OtherColumns(r: Row, f: Field, value: Option<nat>, c: Column)
    requires f == UnitsField || f == KnownCostField ==> value.Some?
    requires c != TotalColumn(f) && KnownColumn(f) != Some(c)
    ensures Measure(c, With(r, f, value)) == Measure(c, r)
  {
    match f
    case UnitsField => return;
    case InputField => return;
    case OutputField => return;
    case CacheReadField => return;
    case CacheWriteField => return;
    case ReasoningField => return;
    case FirstTokenField => return;
    case DurationField => return;
    case KnownCostField => return;
    case EstimatedCostField => return;
  }

  lemma FieldMeasured(r: Row, f: Field, value: Option<nat>, c: Column)
    requires f == UnitsField || f == KnownCostField ==> value.Some?
    ensures var changed := With(r, f, value);
      Change(Measure(c, r), Measure(c, changed)) ==
      if c == TotalColumn(f) then Change(Amount(ValueOf(r, f)), Amount(value))
      else if KnownColumn(f) == Some(c) then Change(Presence(ValueOf(r, f)), Presence(value))
      else 0
  {
    OwnColumns(r, f);
    OwnColumns(With(r, f, value), f);
    if c != TotalColumn(f) && KnownColumn(f) != Some(c) {
      OtherColumns(r, f, value, c);
    }
  }

  /**
   Two groups that differ in one field of one request: the field's own column differs by as much, its count
   of known values by one where it became or ceased to be known, and no other column differs.
   */
  lemma FieldMovesItsColumns(u: Usage, u': Usage, base: set<Row>, r: Row, f: Field, value: Option<nat>, c: Column)
    requires f == UnitsField || f == KnownCostField ==> value.Some?
    requires r !in base && With(r, f, value) !in base && c in COLUMNS
    requires Aggregates(u, base + {r}) && Aggregates(u', base + {With(r, f, value)})
    ensures Change(u.sums[c], u'.sums[c]) ==
      if c == TotalColumn(f) then Change(Amount(ValueOf(r, f)), Amount(value))
      else if KnownColumn(f) == Some(c) then Change(Presence(ValueOf(r, f)), Presence(value))
      else 0
  {
    OneRow(base, r, c);
    OneRow(base, With(r, f, value), c);
    FieldMeasured(r, f, value, c);
  }

  // ------------------------------------------------------------ outcome and pricing state

  function OutcomeColumn(outcome: RequestOutcome): Column {
    match outcome
    case Success => Successes
    case Error => Errors
    case Aborted => AbortedRequests
  }

  function StateColumn(state: PricingState): Column {
    match state
    case Priced => PricedRequests
    case Partial => PartialRequests
    case Unpriced => UnpricedRequests
  }

  function WithOutcome(r: Row, outcome: RequestOutcome): Row {
    r.(request := r.request.(view := r.request.view.(outcome := outcome)))
  }

  function WithState(r: Row, state: PricingState): Row {
    r.(price := r.price.(state := state))
  }

  /// One request leaves the column `from` and joins the column `to`.
  predicate Moves(before: nat, after: nat, c: Column, from: Column, to: Column) {
    after + (if c == from then 1 else 0) == before + (if c == to then 1 else 0)
  }

  lemma OutcomeMeasured(r: Row, outcome: RequestOutcome, c: Column)
    ensures Moves(Measure(c, r), Measure(c, WithOutcome(r, outcome)), c, OutcomeColumn(r.request.view.outcome),
      OutcomeColumn(outcome))
  {
    if c == Successes || c == Errors || c == AbortedRequests {
      return;
    }
    assert Measure(c, r) == Measure(c, WithOutcome(r, outcome));
  }

  lemma StateMeasured(r: Row, state: PricingState, c: Column)
    ensures Moves(Measure(c, r), Measure(c, WithState(r, state)), c, StateColumn(r.price.state), StateColumn(state))
  {
    if c == PricedRequests || c == PartialRequests || c == UnpricedRequests {
      return;
    }
    assert Measure(c, r) == Measure(c, WithState(r, state));
  }

  /** Another outcome moves a request between the outcome columns and changes no other. */
  lemma OutcomeMoves(u: Usage, u': Usage, base: set<Row>, r: Row, outcome: RequestOutcome, c: Column)
    requires r !in base && WithOutcome(r, outcome) !in base && c in COLUMNS
    requires Aggregates(u, base + {r}) && Aggregates(u', base + {WithOutcome(r, outcome)})
    ensures Moves(u.sums[c], u'.sums[c], c, OutcomeColumn(r.request.view.outcome), OutcomeColumn(outcome))
  {
    OneRow(base, r, c);
    OneRow(base, WithOutcome(r, outcome), c);
    OutcomeMeasured(r, outcome, c);
  }

  /** Another pricing state moves it between the pricing columns. */
  lemma StateMoves(u: Usage, u': Usage, base: set<Row>, r: Row, state: PricingState, c: Column)
    requires r !in base && WithState(r, state) !in base && c in COLUMNS
    requires Aggregates(u, base + {r}) && Aggregates(u', base + {WithState(r, state)})
    ensures Moves(u.sums[c], u'.sums[c], c, StateColumn(r.price.state), StateColumn(state))
  {
    OneRow(base, r, c);
    OneRow(base, WithState(r, state), c);
    StateMeasured(r, state, c);
  }

  // -------------------------------------------------------------------- one request more

  /// What one request more adds to a column, read off its fields.
  function Added(r: Row, c: Column): nat {
    var v := r.request.view;
    match c
    case Requests => 1
    case Successes => if v.outcome == Success then 1 else 0
    case Errors => if v.outcome == RequestOutcome.Error then 1 else 0
    case AbortedRequests => if v.outcome == Aborted then 1 else 0
    case Units => v.units
    case InputTokens => Amount(v.input)
    case OutputTokens => Amount(v.output)
    case CacheReadTokens => Amount(v.cacheRead)
    case CacheWriteTokens => Amount(v.cacheWrite)
    case ReasoningTokens => Amount(v.reasoning)
    case InputKnown => Presence(v.input)
    case OutputKnown => Presence(v.output)
    case CacheReadKnown => Presence(v.cacheRead)
    case CacheWriteKnown => Presence(v.cacheWrite)
    case ReasoningKnown => Presence(v.reasoning)
    case FirstTokenKnown => Presence(v.firstToken)
    case FirstTokenSum => Amount(v.firstToken)
    case DurationKnown => Presence(v.duration)
    case DurationSum => Amount(v.duration)
    case PricedRequests => if r.price.state == Priced then 1 else 0
    case PartialRequests => if r.price.state == Partial then 1 else 0
    case UnpricedRequests => if r.price.state == Unpriced then 1 else 0
    case KnownCostMicros => r.price.knownCost
    case EstimatedCostMicros => Amount(r.price.estimatedCost)
  }

  /** One request more in a group adds its own fields to the columns. */
  lemma OneRequestMore(u: Usage, u': Usage, base: set<Row>, r: Row, c: Column)
    requires r !in base && c in COLUMNS && Aggregates(u, base) && Aggregates(u', base + {r})
    ensures u'.sums[c] == u.sums[c] + Added(r, c)
  {
    OneRow(base, r, c);
  }

  lemma OnlyTime(u: Usage, r: Row)
    requires Aggregates(u, {r})
    ensures u.firstAt == u.lastAt == r.request.view.occurredAt
  {
    assert r in {r};
  }

  lemma OnlyMeasure(r: Row, c: Column)
    ensures Sum({r}, c) == Added(r, c)
  {
    OneRow({}, r, c);
    assert {} + {r} == {r};
  }

  /** A group of one request has that request's own fields, and its time as first and last. */
  lemma OnlyRequest(u: Usage, r: Row, c: Column)
    requires Aggregates(u, {r}) && c in COLUMNS
    ensures u.sums[c] == Added(r, c) && u.firstAt == u.lastAt == r.request.view.occurredAt
  {
    OnlyTime(u, r);
    OnlyMeasure(r, c);
  }

  // --------------------------------------------------------------------------- partitions

  /// Three columns of which each request counts in exactly one.
  ghost predicate Partition(a: Column, b: Column, c: Column) {
    forall r :: Measure(a, r) + Measure(b, r) + Measure(c, r) == 1
  }

  lemma {:induction false} PartsAddUp(rows: set<Row>, a: Column, b: Column, c: Column)
    requires Partition(a, b, c)
    ensures |rows| == Sum(rows, a) + Sum(rows, b) + Sum(rows, c)
    decreases |rows|
  {
    if rows != {} {
      var r :| r in rows;
      SumRemove(rows, r, a);
      SumRemove(rows, r, b);
      SumRemove(rows, r, c);
      PartsAddUp(rows - {r}, a, b, c);
      assert Measure(a, r) + Measure(b, r) + Measure(c, r) == 1;
    }
  }

  lemma OutcomesAndStatesPartition()
    ensures Partition(Successes, Errors, AbortedRequests)
    ensures Partition(PricedRequests, PartialRequests, UnpricedRequests)
  {
  }

  lemma {:induction false} RequestsAreCounted(rows: set<Row>)
    ensures Sum(rows, Requests) == |rows|
    decreases |rows|
  {
    if rows != {} {
      var r :| r in rows;
      SumRemove(rows, r, Requests);
      RequestsAreCounted(rows - {r});
    }
  }

  /** A group counts its requests, and partitions them by outcome and by pricing state. */
  lemma GroupsPartition(u: Usage, members: set<Row>)
    requires Aggregates(u, members)
    ensures u.sums[Requests] == |members|
    ensures u.sums[Requests] == u.sums[Successes] + u.sums[Errors] + u.sums[AbortedRequests]
    ensures u.sums[Requests] == u.sums[PricedRequests] + u.sums[PartialRequests] + u.sums[UnpricedRequests]
  {
    OutcomesAndStatesPartition();
    PartsAddUp(members, Successes, Errors, AbortedRequests);
    PartsAddUp(members, PricedRequests, PartialRequests, UnpricedRequests);
    RequestsAreCounted(members);
  }

  // ----------------------------------------------------------------- groups and histograms

  function TextOf(value: Option<string>): string {
    if value.Some? then value.value else ""
  }

  function CurrencyOf(r: Row): string {
    if r.price.rule.Some? then r.price.rule.value.currency else ""
  }

  /**
   Two requests share a rollup row exactly when they share the bucket, the five dimensions, the key
   version and the currency.
   */
  lemma SameGroupIff(kind: BucketKind, a: Row, b: Row)
    ensures KeyOf(kind, a) == KeyOf(kind, b) <==>
      && a.request.view.occurredAt / Size(kind) == b.request.view.occurredAt / Size(kind)
      && a.request.view.route == b.request.view.route && a.request.view.provider == b.request.view.provider
      && a.request.view.model == b.request.view.model
      && TextOf(a.request.view.account) == TextOf(b.request.view.account)
      && TextOf(a.request.view.apiKey) == TextOf(b.request.view.apiKey)
      && a.request.view.keyVersion == b.request.view.keyVersion && CurrencyOf(a) == CurrencyOf(b)
  {
    SameBucketIff(kind, a.request.view.occurredAt, b.request.view.occurredAt);
  }

  lemma SameBucketIff(kind: BucketKind, a: int, b: int)
    ensures BucketStart(kind, a) == BucketStart(kind, b) <==> a / Size(kind) == b / Size(kind)
  {
  }

  /** A row's group key carries its own dimensions. */
  lemma KeyCarries(kind: BucketKind, r: Row)
    ensures var k, v := KeyOf(kind, r), r.request.view;
      && k.bucket == v.occurredAt - v.occurredAt % (if kind == Hour then 3_600_000 else 86_400_000)
      && k.route == v.route && k.provider == v.provider && k.model == v.model && k.account == TextOf(v.account)
      && k.apiKey == TextOf(v.apiKey) && k.keyVersion == v.keyVersion && k.currency == CurrencyOf(r)
  {
  }

  /// `bound` is the least of the listed bounds that the latency does not exceed, or infinity above all of them.
  predicate FallsUnder(latency: nat, bound: nat) {
    if latency > 120_000 then bound == 2_147_483_647
    else bound in LATENCY_BOUNDS && latency <= bound && forall b | b in LATENCY_BOUNDS && latency <= b :: bound <= b
  }

  lemma BoundsAscend()
    ensures forall i, j | 0 <= i < j < |LATENCY_BOUNDS| :: LATENCY_BOUNDS[i] < LATENCY_BOUNDS[j]
    ensures |LATENCY_BOUNDS| == 12 && LATENCY_BOUNDS[11] == 120_000
  {
  }

  lemma {:induction false} BoundIsLeast(latency: nat, from: nat)
    requires from <= |LATENCY_BOUNDS| && forall i | 0 <= i < from :: LATENCY_BOUNDS[i] < latency
    ensures FallsUnder(latency, Bound(latency, from))
    decreases |LATENCY_BOUNDS| - from
  {
    BoundsAscend();
    if from == |LATENCY_BOUNDS| {
      assert LATENCY_BOUNDS[11] < latency;
    } else if latency <= LATENCY_BOUNDS[from] {
      forall b | b in LATENCY_BOUNDS && latency <= b ensures LATENCY_BOUNDS[from] <= b {
        var i :| 0 <= i < |LATENCY_BOUNDS| && LATENCY_BOUNDS[i] == b;
      }
    } else {
      BoundIsLeast(latency, from + 1);
    }
  }

  /// The latency that a metric is about.
  function MetricOf(m: Metric, v: View): Option<nat> {
    match m
    case FirstToken => v.firstToken
    case Duration => v.duration
  }

  /**
   A request is counted in a histogram bucket exactly when it is in the group and its latency is known
   and falls under the bound.
   */
  lemma SampleIff(kind: BucketKind, rows: set<Row>, k: LatencyKey, r: Row)
    ensures r in Samples(kind, rows, k) <==>
      && r in rows && KeyOf(kind, r) == k.group && MetricOf(k.metric, r.request.view).Some?
      && FallsUnder(MetricOf(k.metric, r.request.view).value, k.bound)
  {
    var latency := MetricOf(k.metric, r.request.view);
    assert latency == Latency(k.metric, r);
    if latency.Some? {
      BoundIsLeast(latency.value, 0);
      BoundIsUnique(latency.value, k.bound, Bound(latency.value, 0));
    }
  }

  lemma BoundIsUnique(latency: nat, a: nat, b: nat)
    ensures FallsUnder(latency, a) && FallsUnder(latency, b) ==> a == b
  {
  }
}
