/**
 What the engine's price says about a request, in terms of the request's own fields: which field each
 cost column charges, which rule is applied, and when pricing throws.
 */
module PricedViews {
  import opened Basics
  import opened Pricing
  import opened Requests
  import opened Engine

  // ------------------------------------------------------------------------- the cost columns

  /// The multiple of one micro nearest to count * rate / 10^6, halves rounded up.
  ghost predicate RoundsTo(cost: nat, count: nat, rate: nat) {
    1_000_000 * cost <= count * rate + 500_000 < 1_000_000 * (cost + 1)
  }

  /// A token column: the rounded product when both factors are known, null otherwise.
  ghost predicate ChargesTokens(cost: Option<nat>, count: Option<nat>, rate: Option<nat>) {
    match (count, rate)
    case (Some(n), Some(r)) => cost.Some? && RoundsTo(cost.value, n, r)
    case _ => cost == None
  }

  /// The request-unit column: the exact product when the rate is known.
  ghost predicate ChargesUnits(cost: Option<nat>, count: nat, rate: Option<nat>) {
    cost == if rate.Some? then Some(count * rate.value) else None
  }

  /// Six cost columns for a request under some rates, field by field.
  ghost predicate Charges(costs: PerComponent, v: View, rates: PerComponent) {
    && ChargesUnits(costs[0], v.units, rates[0])
    && ChargesTokens(costs[1], v.input, rates[1])
    && ChargesTokens(costs[2], v.output, rates[2])
    && ChargesTokens(costs[3], v.cacheRead, rates[3])
    && ChargesTokens(costs[4], v.cacheWrite, rates[4])
    && ChargesTokens(costs[5], v.reasoning, rates[5])
  }

  lemma TokenCostRounds(i: nat, count: nat, rate: nat)
    requires i > 0
    ensures RoundsTo(Cost(i, count, rate), count, rate)
  {
    var n := count * rate + HALF;
    assert n == MILLION * (n / MILLION) + n % MILLION;
  }

  lemma TokenColumnCharges(i: nat, count: Option<nat>, rate: Option<nat>)
    requires i > 0
    ensures ChargesTokens(ComponentCost(i, count, rate), count, rate)
  {
    if Both(count, rate) {
      TokenCostRounds(i, count.value, rate.value);
    }
  }

  /// The six columns before any of them is checked to be a safe integer.
  function Columns(v: View, rates: PerComponent): PerComponent {
    seq(COMPONENTS, i requires 0 <= i < COMPONENTS => ComponentCost(i, Counts(v)[i], rates[i]))
  }

  lemma ColumnsCharge(v: View, rates: PerComponent)
    ensures Charges(Columns(v, rates), v, rates)
  {
    TokenColumnCharges(1, v.input, rates[1]);
    TokenColumnCharges(2, v.output, rates[2]);
    TokenColumnCharges(3, v.cacheRead, rates[3]);
    TokenColumnCharges(4, v.cacheWrite, rates[4]);
    TokenColumnCharges(5, v.reasoning, rates[5]);
  }

  lemma RoundingIsUnique(a: nat, b: nat, count: nat, rate: nat)
    requires RoundsTo(a, count, rate) && RoundsTo(b, count, rate)
    ensures a == b
  {
  }

  /// Rates and fields determine the columns.
  lemma ChargesAreUnique(a: PerComponent, b: PerComponent, v: View, rates: PerComponent)
    requires Charges(a, v, rates) && Charges(b, v, rates)
    ensures a == b
  {
    SameCharge(a[1], b[1], v.input, rates[1]);
    SameCharge(a[2], b[2], v.output, rates[2]);
    SameCharge(a[3], b[3], v.cacheRead, rates[3]);
    SameCharge(a[4], b[4], v.cacheWrite, rates[4]);
    SameCharge(a[5], b[5], v.reasoning, rates[5]);
  }

  lemma SameCharge(a: Option<nat>, b: Option<nat>, count: Option<nat>, rate: Option<nat>)
    requires ChargesTokens(a, count, rate) && ChargesTokens(b, count, rate)
    ensures a == b
  {
    if Both(count, rate) {
      RoundingIsUnique(a.value, b.value, count.value, rate.value);
    }
  }

  function Known(cost: Option<nat>): nat {
    if cost.Some? then cost.value else 0
  }

  function SumOf(costs: PerComponent): nat {
    Known(costs[0]) + Known(costs[1]) + Known(costs[2]) + Known(costs[3]) + Known(costs[4]) + Known(costs[5])
  }

  lemma KnownCostIsSum(v: View, rates: PerComponent)
    ensures KnownCost(Counts(v), rates, COMPONENTS) == SumOf(Columns(v, rates))
  {
    var counts := Counts(v);
    assert KnownCost(counts, rates, 3) ==
      Amount(0, counts[0], rates[0]) + Amount(1, counts[1], rates[1]) + Amount(2, counts[2], rates[2]) by {
      assert KnownCost(counts, rates, 1) == Amount(0, counts[0], rates[0]);
    }
    assert KnownCost(counts, rates, 5) ==
      KnownCost(counts, rates, 3) + Amount(3, counts[3], rates[3]) + Amount(4, counts[4], rates[4]);
  }

  // ------------------------------------------------------------------------ the pricing state

  /// A component that cannot be charged although it may cost something.
  predicate Lacks(count: Option<nat>, rate: Option<nat>) {
    (rate.Some? && count.None?) || (rate.None? && count.Some? && count.value > 0)
  }

  predicate LacksSomething(v: View, rates: PerComponent) {
    || Lacks(Some(v.units), rates[0]) || Lacks(v.input, rates[1]) || Lacks(v.output, rates[2])
    || Lacks(v.cacheRead, rates[3]) || Lacks(v.cacheWrite, rates[4]) || Lacks(v.reasoning, rates[5])
  }

  predicate ChargesSomething(v: View, rates: PerComponent) {
    || rates[0].Some? || (v.input.Some? && rates[1].Some?) || (v.output.Some? && rates[2].Some?)
    || (v.cacheRead.Some? && rates[3].Some?) || (v.cacheWrite.Some? && rates[4].Some?)
    || (v.reasoning.Some? && rates[5].Some?)
  }

  lemma SomethingLacks(v: View, rates: PerComponent)
    ensures LacksSomething(v, rates) <==> exists i | 0 <= i < COMPONENTS :: EngineUnknown(Counts(v)[i], rates[i])
  {
    var counts := Counts(v);
    assert Lacks(Some(v.units), rates[0]) <==> EngineUnknown(counts[0], rates[0]);
    assert Lacks(v.input, rates[1]) <==> EngineUnknown(counts[1], rates[1]);
    assert Lacks(v.output, rates[2]) <==> EngineUnknown(counts[2], rates[2]);
    assert Lacks(v.cacheRead, rates[3]) <==> EngineUnknown(counts[3], rates[3]);
    assert Lacks(v.cacheWrite, rates[4]) <==> EngineUnknown(counts[4], rates[4]);
    assert Lacks(v.reasoning, rates[5]) <==> EngineUnknown(counts[5], rates[5]);
  }

  lemma SomethingCharged(v: View, rates: PerComponent)
    ensures ChargesSomething(v, rates) <==> KnownParts(Counts(v), rates, COMPONENTS) > 0
  {
    var counts := Counts(v);
    assert ChargesSomething(v, rates) <==> exists i | 0 <= i < COMPONENTS :: Both(counts[i], rates[i]) by {
      assert Both(counts[0], rates[0]) <==> rates[0].Some?;
      assert Both(counts[1], rates[1]) <==> v.input.Some? && rates[1].Some?;
      assert Both(counts[2], rates[2]) <==> v.output.Some? && rates[2].Some?;
      assert Both(counts[3], rates[3]) <==> v.cacheRead.Some? && rates[3].Some?;
      assert Both(counts[4], rates[4]) <==> v.cacheWrite.Some? && rates[4].Some?;
      assert Both(counts[5], rates[5]) <==> v.reasoning.Some? && rates[5].Some?;
    }
  }

  // --------------------------------------------------------------------- the engine's price

  predicate Safe(costs: PerComponent) {
    forall i | 0 <= i < COMPONENTS && costs[i].Some? :: costs[i].value <= MAX_SAFE
  }

  /// What is stored for a request under a rule.
  ghost predicate PricedUnder(p: PriceColumns, rule: Rule, v: View) {
    && p.rule == Some(rule) && Charges(p.costs, v, rule.rates) && Safe(p.costs)
    && p.knownCost == SumOf(p.costs) <= MAX_SAFE
    && (p.state == Unpriced <==> !ChargesSomething(v, rule.rates))
    && (p.state == Priced <==> ChargesSomething(v, rule.rates) && !LacksSomething(v, rule.rates))
    && p.estimatedCost == if p.state == Priced then Some(p.knownCost) else None
  }

  lemma NoOverflowIffSafe(v: View, rates: PerComponent)
    ensures AnyOverflow(Counts(v), rates, COMPONENTS) <==> !Safe(Columns(v, rates))
  {
    OverflowIffSome(Counts(v), rates, COMPONENTS);
    var columns := Columns(v, rates);
    forall i | 0 <= i < COMPONENTS
      ensures Overflows(i, Counts(v)[i], rates[i]) <==> columns[i].Some? && columns[i].value > MAX_SAFE
    {
    }
  }

  lemma PriceUnderRule(rule: Rule, v: View)
    ensures PriceWith(rule, Counts(v)).Some? <==>
      Safe(Columns(v, rule.rates)) && SumOf(Columns(v, rule.rates)) <= MAX_SAFE
    ensures PriceWith(rule, Counts(v)).Some? ==> PricedUnder(PriceWith(rule, Counts(v)).value, rule, v)
  {
    NoOverflowIffSafe(v, rule.rates);
    KnownCostIsSum(v, rule.rates);
    SomethingLacks(v, rule.rates);
    SomethingCharged(v, rule.rates);
    ColumnsCharge(v, rule.rates);
    if PriceWith(rule, Counts(v)).Some? {
      assert PriceWith(rule, Counts(v)).value.costs == Columns(v, rule.rates);
    }
  }

  /** Each cost column of a stored price charges its own field of the request, under the rates of the chosen rule. */
  lemma EachColumnChargesItsField(e: SQLiteAnalyticsEngine, v: View)
    requires e.PriceOf(v).Some? && e.PriceOf(v).value.rule.Some?
    ensures PricedUnder(e.PriceOf(v).value, e.PriceOf(v).value.rule.value, v)
  {
    PriceUnderRule(e.PriceOf(v).value.rule.value, v);
  }

  /** Without a rule nothing is charged. */
  lemma NoRuleNoCost(e: SQLiteAnalyticsEngine, v: View)
    requires e.PriceOf(v).Some? && e.PriceOf(v).value.rule.None?
    ensures var p := e.PriceOf(v).value;
      && (forall i | 0 <= i < COMPONENTS :: p.costs[i] == None) && p.knownCost == 0
      && p.estimatedCost == None && p.state == Unpriced
  {
  }

  /**
   Pricing throws exactly when the columns that the rates and the fields give are not all safe integers,
   or their sum is not.
   */
  lemma ThrowsIff(e: SQLiteAnalyticsEngine, v: View, rule: Rule, costs: PerComponent)
    requires EngineMatch(e.pricingRules, SubjectOf(v), e.collate) == Some(rule) && Charges(costs, v, rule.rates)
    ensures e.PriceOf(v).None? <==> !Safe(costs) || SumOf(costs) > MAX_SAFE
  {
    ColumnsCharge(v, rule.rates);
    ChargesAreUnique(costs, Columns(v, rule.rates), v, rule.rates);
    PriceUnderRule(rule, v);
  }

  /// Two requests that rules cannot tell apart.
  predicate SameSubject(v: View, w: View) {
    && v.route == w.route && v.provider == w.provider && v.model == w.model
    && v.account == w.account && v.apiKey == w.apiKey && v.occurredAt == w.occurredAt
  }

  lemma SameRuleFor(e: SQLiteAnalyticsEngine, v: View, w: View)
    requires SameSubject(v, w) && e.PriceOf(v).Some? && e.PriceOf(w).Some?
    ensures e.PriceOf(v).value.rule == e.PriceOf(w).value.rule
  {
    assert SubjectOf(v) == SubjectOf(w);
  }

  /** A column stays as it was when any other field of the request changes. */
  lemma OtherFieldsDoNotMatter(e: SQLiteAnalyticsEngine, v: View, w: View)
    requires SameSubject(v, w) && e.PriceOf(v).Some? && e.PriceOf(w).Some?
    ensures var p, q := e.PriceOf(v).value, e.PriceOf(w).value;
      && (v.units == w.units ==> p.costs[0] == q.costs[0]) && (v.input == w.input ==> p.costs[1] == q.costs[1])
      && (v.output == w.output ==> p.costs[2] == q.costs[2])
      && (v.cacheRead == w.cacheRead ==> p.costs[3] == q.costs[3])
      && (v.cacheWrite == w.cacheWrite ==> p.costs[4] == q.costs[4])
      && (v.reasoning == w.reasoning ==> p.costs[5] == q.costs[5])
  {
    SameRuleFor(e, v, w);
    var p, q := e.PriceOf(v).value, e.PriceOf(w).value;
    if p.rule.Some? {
      EachColumnChargesItsField(e, v);
      EachColumnChargesItsField(e, w);
      var rates := p.rule.value.rates;
      if v.input == w.input { SameCharge(p.costs[1], q.costs[1], v.input, rates[1]); }
      if v.output == w.output { SameCharge(p.costs[2], q.costs[2], v.output, rates[2]); }
      if v.cacheRead == w.cacheRead { SameCharge(p.costs[3], q.costs[3], v.cacheRead, rates[3]); }
      if v.cacheWrite == w.cacheWrite { SameCharge(p.costs[4], q.costs[4], v.cacheWrite, rates[4]); }
      if v.reasoning == w.reasoning { SameCharge(p.costs[5], q.costs[5], v.reasoning, rates[5]); }
    }
  }

  // ------------------------------------------------------------------------- the chosen rule

  predicate Fits(dimension: string, text: string) {
    dimension == "*" || dimension == text
  }

  function TextOf(value: Option<string>): string {
    if value.Some? then value.value else ""
  }

  /// The rule is in force at the time of the request, and each of its dimensions is a wildcard or the request's own.
  predicate Covers(r: Rule, v: View) {
    && r.effectiveFrom <= v.occurredAt && (r.effectiveTo.Some? ==> v.occurredAt < r.effectiveTo.value)
    && Fits(r.dimensions[0], v.route) && Fits(r.dimensions[1], v.provider) && Fits(r.dimensions[2], v.model)
    && Fits(r.dimensions[3], TextOf(v.account)) && Fits(r.dimensions[4], TextOf(v.apiKey))
  }

  /// The dimensions that a rule names.
  function NamedDimensions(r: Rule): set<nat> {
    set i: nat | i < DIMENSIONS && r.dimensions[i] != "*"
  }

  function NamedBelow(r: Rule, n: nat): set<nat> {
    set i: nat | i < n && i < DIMENSIONS && r.dimensions[i] != "*"
  }

  lemma {:induction false} OneMoreNamed(r: Rule, n: nat)
    requires n < DIMENSIONS
    ensures |NamedBelow(r, n + 1)| == |NamedBelow(r, n)| + Named(r, n)
  {
    if r.dimensions[n] != "*" {
      assert NamedBelow(r, n + 1) == NamedBelow(r, n) + {n};
    } else {
      assert NamedBelow(r, n + 1) == NamedBelow(r, n);
    }
  }

  lemma SpecificityCounts(r: Rule)
    ensures Specificity(r) == |NamedDimensions(r)|
  {
    OneMoreNamed(r, 0);
    OneMoreNamed(r, 1);
    OneMoreNamed(r, 2);
    OneMoreNamed(r, 3);
    OneMoreNamed(r, 4);
    assert NamedBelow(r, 0) == {} && NamedBelow(r, DIMENSIONS) == NamedDimensions(r);
  }

  lemma CoversIffMatches(r: Rule, v: View)
    ensures Covers(r, v) <==> EngineMatches(r, SubjectOf(v))
  {
    var s := SubjectOf(v);
    assert EngineText(s.dimensions[0]) == v.route && EngineText(s.dimensions[1]) == v.provider;
    assert EngineText(s.dimensions[2]) == v.model && EngineText(s.dimensions[3]) == TextOf(v.account);
    assert EngineText(s.dimensions[4]) == TextOf(v.apiKey);
  }

  /// `r` names more dimensions than `q`, or as many and is in force for less long, or as long with no later id.
  predicate GoesBefore(r: Rule, q: Rule, collate: (string, string) -> int) {
    || |NamedDimensions(r)| > |NamedDimensions(q)|
    || (|NamedDimensions(r)| == |NamedDimensions(q)|
        && (r.effectiveFrom > q.effectiveFrom ||
          (r.effectiveFrom == q.effectiveFrom && collate(r.ruleId, q.ruleId) <= 0)))
  }

  lemma GoesBeforeIff(r: Rule, q: Rule, collate: (string, string) -> int)
    ensures GoesBefore(r, q, collate) <==> Compare(r, q, collate) <= 0
  {
    SpecificityCounts(r);
    SpecificityCounts(q);
  }

  lemma HeadIsLeast(matches: seq<Rule>, collate: (string, string) -> int)
    requires matches != [] && Collates(collate)
    ensures var head := Sort(matches, collate)[0];
      head in matches && forall r | r in matches :: Compare(head, r, collate) <= 0
  {
    var i := SortedHead(matches, collate);
    forall r | r in matches ensures Compare(matches[i], r, collate) <= 0 {
      var j :| 0 <= j < |matches| && matches[j] == r;
    }
  }

  lemma MatchIsHead(rules: seq<Rule>, s: Subject, collate: (string, string) -> int)
    requires Collates(collate)
    ensures EngineMatch(rules, s, collate).None? <==> forall r | r in rules :: !EngineMatches(r, s)
    ensures EngineMatch(rules, s, collate).Some? ==> var choice := EngineMatch(rules, s, collate).value;
      && choice in rules && EngineMatches(choice, s)
      && forall r | r in rules && EngineMatches(r, s) :: Compare(choice, r, collate) <= 0
  {
    var matches := Filter(rules, r => EngineMatches(r, s));
    assert forall r :: r in matches <==> r in rules && EngineMatches(r, s);
    if matches != [] {
      assert matches[0] in matches;
      HeadIsLeast(matches, collate);
    }
  }

  /**
   The rule applied to a request covers it and goes before every other rule that does; none is applied
   when none covers it.
   */
  lemma AppliedRule(e: SQLiteAnalyticsEngine, v: View)
    requires Collates(e.collate) && e.PriceOf(v).Some?
    ensures e.PriceOf(v).value.rule.None? <==> forall r | r in e.pricingRules :: !Covers(r, v)
    ensures e.PriceOf(v).value.rule.Some? ==> var rule := e.PriceOf(v).value.rule.value;
      && rule in e.pricingRules && Covers(rule, v)
      && forall r | r in e.pricingRules && Covers(r, v) :: GoesBefore(rule, r, e.collate)
  {
    MatchIsHead(e.pricingRules, SubjectOf(v), e.collate);
    forall r ensures Covers(r, v) <==> EngineMatches(r, SubjectOf(v)) {
      CoversIffMatches(r, v);
    }
    if e.PriceOf(v).value.rule.Some? {
      forall r
        ensures GoesBefore(e.PriceOf(v).value.rule.value, r, e.collate) <==>
          Compare(e.PriceOf(v).value.rule.value, r, e.collate) <= 0
      {
        GoesBeforeIff(e.PriceOf(v).value.rule.value, r, e.collate);
      }
    }
  }
}
