/**
 Price rules and the two pricers of the analytics package: `PricingRuleMatcher` with
 `estimatePricing` (pipeline/pricing.ts) and the storage engine's `applyPricing`
 (storage/engine.ts). They choose a rule and add up a cost in different ways; the
 lemmas at the end say when the two agree.
 */
module Pricing {
  import opened Basics

  const WILDCARD := "*"
  const HALF: nat := 500_000
  const MILLION: nat := 1_000_000

  /// Request units first, then input, output, cache read, cache write and reasoning tokens.
  const COMPONENTS: nat := 6

  /// A rate or a count per component; `None` is the source's null.
  type PerComponent = s: seq<Option<nat>> | |s| == COMPONENTS witness [None, None, None, None, None, None]

  /// Route, provider, model, account and API key, in the order both pricers use.
  const DIMENSIONS: nat := 5
  type RuleDimensions = s: seq<string> | |s| == DIMENSIONS witness ["*", "*", "*", "*", "*"]
  type SubjectDimensions = s: seq<Option<string>> | |s| == DIMENSIONS witness [None, None, None, None, None]

  datatype Rule = Rule(
    snapshotVersion: string,
    ruleId: string,
    currency: string,
    dimensions: RuleDimensions,
    rates: PerComponent,
    effectiveFrom: int,
    effectiveTo: Option<int>)

  /// What a rule is matched against: the five dimensions and the time of the request.
  datatype Subject = Subject(dimensions: SubjectDimensions, occurredAt: int)

  datatype PricingState = Priced | Partial | Unpriced

  // ---------------------------------------------------------------- the matcher's rules

  predicate ValidRule(r: Rule) {
    && 0 < |r.snapshotVersion| <= 512 && 0 < |r.ruleId| <= 512 && 0 < |r.currency| <= 512
    && (forall d | d in r.dimensions :: 0 < |d| <= 512)
    && (forall i | 0 <= i < COMPONENTS :: r.rates[i].Some? ==> r.rates[i].value <= MAX_SAFE)
    && (exists i | 0 <= i < COMPONENTS :: r.rates[i].Some?)
    && 0 <= r.effectiveFrom <= MAX_SAFE
    && (r.effectiveTo.Some? ==> r.effectiveFrom < r.effectiveTo.value <= MAX_SAFE)
  }

  function Specificity(r: Rule): nat
  {
    Named(r, 0) + Named(r, 1) + Named(r, 2) + Named(r, 3) + Named(r, 4)
  }

  function Named(r: Rule, i: nat): nat
    requires i < DIMENSIONS
  {
    if r.dimensions[i] == WILDCARD then 0 else 1
  }

  function End(r: Rule): int {
    if r.effectiveTo.Some? then r.effectiveTo.value else MAX_SAFE
  }

  predicate WindowsOverlap(a: Rule, b: Rule) {
    a.effectiveFrom < End(b) && b.effectiveFrom < End(a)
  }

  predicate DimensionsOverlap(a: Rule, b: Rule)
  {
    forall i | 0 <= i < DIMENSIONS ::
      a.dimensions[i] == WILDCARD || b.dimensions[i] == WILDCARD || a.dimensions[i] == b.dimensions[i]
  }

  predicate Clash(a: Rule, b: Rule)
  {
    Specificity(a) == Specificity(b) && WindowsOverlap(a, b) && DimensionsOverlap(a, b)
  }

  /// The rule lists that the matcher's constructor accepts.
  ghost predicate Accepted(rules: seq<Rule>) {
    && (forall r | r in rules :: ValidRule(r))
    && (forall i, j | 0 <= i < j < |rules| :: !Clash(rules[i], rules[j]))
  }

  /** `validateOverlaps`: the first clashing pair in index order, which the constructor throws. */
  method ValidateOverlaps(rules: seq<Rule>) returns (clash: Option<(nat, nat)>)
    requires forall r | r in rules :: ValidRule(r)
    ensures clash.None? <==> Accepted(rules)
    ensures clash.Some? ==>
      var (i, j) := clash.value;
      && i < j < |rules| && Clash(rules[i], rules[j])
      && (forall k, l | 0 <= k < l < |rules| && (k < i || (k == i && l < j)) :: !Clash(rules[k], rules[l]))
  {
    for left := 0 to |rules|
      invariant forall k, l | 0 <= k < left && k < l < |rules| :: !Clash(rules[k], rules[l])
    {
      for right := left + 1 to |rules|
        invariant forall l | left < l < right :: !Clash(rules[left], rules[l])
      {
        if Specificity(rules[left]) == Specificity(rules[right])
          && WindowsOverlap(rules[left], rules[right]) && DimensionsOverlap(rules[left], rules[right])
        {
          return Some((left, right));
        }
      }
    }
    clash := None;
  }

  predicate Effective(r: Rule, at: int) {
    r.effectiveFrom <= at && (r.effectiveTo.Some? ==> at < r.effectiveTo.value)
  }

  predicate MatchesDimensions(r: Rule, s: Subject) {
    && forall i | 0 <= i < DIMENSIONS ::
         r.dimensions[i] == WILDCARD || Some(r.dimensions[i]) == s.dimensions[i]
  }

  predicate Matches(r: Rule, s: Subject) {
    Effective(r, s.occurredAt) && MatchesDimensions(r, s)
  }

  function Filter(rules: seq<Rule>, keep: Rule -> bool): (kept: seq<Rule>)
    ensures forall r :: r in kept <==> r in rules && keep(r)
  {
    if rules == [] then [] else
    if keep(rules[0]) then [rules[0]] + Filter(rules[1..], keep) else Filter(rules[1..], keep)
  }

  function MaxSpecificity(rules: seq<Rule>): (m: nat)
    requires rules != []
    ensures exists r | r in rules :: Specificity(r) == m
    ensures forall r | r in rules :: Specificity(r) <= m
  {
    if |rules| == 1 then assert rules[0] in rules; Specificity(rules[0]) else
    var m := MaxSpecificity(rules[1..]);
    assert rules == [rules[0]] + rules[1..];
    if Specificity(rules[0]) > m then Specificity(rules[0]) else m
  }

  function FirstWith(rules: seq<Rule>, specificity: nat): (r: Rule)
    requires exists r | r in rules :: Specificity(r) == specificity
    ensures r in rules && Specificity(r) == specificity
  {
    if Specificity(rules[0]) == specificity then rules[0] else FirstWith(rules[1..], specificity)
  }

  /** `PricingRuleMatcher.match`: among the matching rules, the first of maximal specificity. */
  function MatchRule(rules: seq<Rule>, s: Subject): (choice: Option<Rule>)
  {
    if s.occurredAt < 0 || s.occurredAt > MAX_SAFE then None else
    var matches := Filter(rules, r => Matches(r, s));
    if matches == [] then None else
    Some(FirstWith(matches, MaxSpecificity(matches)))
  }

  // ------------------------------------------------------------- the engine's selection

  /// The engine reads a null account or key as the empty string before comparing.
  function EngineText(value: Option<string>): string {
    if value.Some? then value.value else ""
  }

  predicate EngineMatches(r: Rule, s: Subject) {
    && Effective(r, s.occurredAt)
    && forall i | 0 <= i < DIMENSIONS ::
         r.dimensions[i] == WILDCARD || r.dimensions[i] == EngineText(s.dimensions[i])
  }

  /// The comparator of the engine's sort; `collate` stands for `localeCompare`.
  function Compare(a: Rule, b: Rule, collate: (string, string) -> int): int
  {
    if Specificity(a) != Specificity(b) then Specificity(b) - Specificity(a)
    else if a.effectiveFrom != b.effectiveFrom then b.effectiveFrom - a.effectiveFrom
    else collate(a.ruleId, b.ruleId)
  }

  function Insert(r: Rule, sorted: seq<Rule>, collate: (string, string) -> int): (result: seq<Rule>)
    ensures multiset(result) == multiset(sorted) + multiset{r}
    ensures |result| == |sorted| + 1
    ensures result[0] == r || (sorted != [] && result[0] == sorted[0])
    ensures Specificity(result[0]) >= Specificity(r)
    ensures sorted != [] ==> Specificity(result[0]) >= Specificity(sorted[0])
  {
    if sorted == [] then [r]
    else if Compare(r, sorted[0], collate) <= 0 then [r] + sorted
    else
      assert sorted == [sorted[0]] + sorted[1..];
      [sorted[0]] + Insert(r, sorted[1..], collate)
  }

  /// A stable sort by the comparator, as JavaScript's `Array.prototype.sort` is.
  function Sort(rules: seq<Rule>, collate: (string, string) -> int): (sorted: seq<Rule>)
    ensures multiset(sorted) == multiset(rules) && |sorted| == |rules|
    ensures forall r | r in rules :: sorted != [] && r in sorted && Specificity(sorted[0]) >= Specificity(r)
    ensures forall r | r in sorted :: r in rules
  {
    if rules == [] then [] else
    assert rules == [rules[0]] + rules[1..];
    var rest := Sort(rules[1..], collate);
    var sorted := Insert(rules[0], rest, collate);
    assert forall r :: r in rules <==> r in multiset(rules);
    assert forall r :: r in sorted <==> r in multiset(sorted);
    sorted
  }

  function EngineMatch(rules: seq<Rule>, s: Subject, collate: (string, string) -> int): (choice: Option<Rule>)
  {
    var sorted := Sort(Filter(rules, r => EngineMatches(r, s)), collate);
    if sorted == [] then None else Some(sorted[0])
  }

  // ------------------------------------------------------------------ agreeing on a rule

  /// `best` matches, and every other matching rule is strictly less specific.
  ghost predicate StrictBest(rules: seq<Rule>, s: Subject, best: Rule) {
    && best in rules && Matches(best, s)
    && forall r | r in rules && Matches(r, s) && r != best ::
         Specificity(r) < Specificity(best)
  }

  lemma MatchingRulesClash(a: Rule, b: Rule, s: Subject)
    requires Matches(a, s) && Matches(b, s) && s.occurredAt < MAX_SAFE
    requires Specificity(a) == Specificity(b)
    ensures Clash(a, b)
  {
  }

  /** Two different positions of an accepted list never match one subject at equal specificity. */
  lemma MatchIsUnique(rules: seq<Rule>, s: Subject, i: nat, j: nat)
    requires Accepted(rules) && s.occurredAt < MAX_SAFE
    requires i < |rules| && j < |rules| && Matches(rules[i], s) && Matches(rules[j], s)
    requires Specificity(rules[i]) == Specificity(rules[j])
    ensures i == j
  {
    if i < j {
      MatchingRulesClash(rules[i], rules[j], s);
    } else if j < i {
      MatchingRulesClash(rules[j], rules[i], s);
    }
  }

  lemma StrictBestIsUnique(rules: seq<Rule>, other: seq<Rule>, s: Subject, a: Rule, b: Rule)
    requires multiset(rules) == multiset(other)
    requires StrictBest(rules, s, a) && StrictBest(other, s, b)
    ensures a == b
  {
    assert b in multiset(rules) && a in multiset(other);
  }

  lemma MostSpecificIsStrictBest(rules: seq<Rule>, s: Subject, best: Rule)
    requires Accepted(rules) && s.occurredAt < MAX_SAFE
    requires best in rules && Matches(best, s)
    requires forall r | r in rules && Matches(r, s) :: Specificity(r) <= Specificity(best)
    ensures StrictBest(rules, s, best)
  {
    var i :| 0 <= i < |rules| && rules[i] == best;
    forall r | r in rules && Matches(r, s) && r != best
      ensures Specificity(r) < Specificity(best)
    {
      var j :| 0 <= j < |rules| && rules[j] == r;
      if Specificity(r) == Specificity(best) {
        MatchIsUnique(rules, s, i, j);
      }
    }
  }

  /// On an accepted list the engine's reading of null as "" never changes what matches.
  lemma SameMatches(r: Rule, s: Subject)
    requires ValidRule(r)
    ensures EngineMatches(r, s) == Matches(r, s)
  {
    forall i | 0 <= i < DIMENSIONS
      ensures (r.dimensions[i] == EngineText(s.dimensions[i])) == (Some(r.dimensions[i]) == s.dimensions[i])
    {
      assert r.dimensions[i] in r.dimensions;
    }
  }

  lemma MatcherPicksStrictBest(rules: seq<Rule>, s: Subject)
    requires Accepted(rules) && 0 <= s.occurredAt < MAX_SAFE
    ensures MatchRule(rules, s).None? <==> forall r | r in rules :: !Matches(r, s)
    ensures MatchRule(rules, s).Some? ==> StrictBest(rules, s, MatchRule(rules, s).value)
  {
    var matches := Filter(rules, r => Matches(r, s));
    if matches == [] {
      forall r | r in rules ensures !Matches(r, s) {
        assert r !in matches;
      }
    } else {
      assert matches[0] in matches;
      MostSpecificIsStrictBest(rules, s, MatchRule(rules, s).value);
    }
  }

  lemma EnginePicksStrictBest(rules: seq<Rule>, s: Subject, collate: (string, string) -> int)
    requires Accepted(rules) && 0 <= s.occurredAt < MAX_SAFE
    ensures EngineMatch(rules, s, collate).None? <==> forall r | r in rules :: !Matches(r, s)
    ensures EngineMatch(rules, s, collate).Some? ==> StrictBest(rules, s, EngineMatch(rules, s, collate).value)
  {
    forall r | r in rules ensures EngineMatches(r, s) == Matches(r, s) {
      SameMatches(r, s);
    }
    var matches := Filter(rules, r => EngineMatches(r, s));
    var sorted := Sort(matches, collate);
    if sorted == [] {
      forall r | r in rules ensures !Matches(r, s) {
        assert r !in matches;
      }
    } else {
      assert sorted[0] in matches;
      MostSpecificIsStrictBest(rules, s, sorted[0]);
    }
  }

  lemma {:induction false} RepeatedValue(rules: seq<Rule>, r: Rule)
    requires multiset(rules)[r] >= 2
    ensures exists i, j :: 0 <= i < j < |rules| && rules[i] == r && rules[j] == r
  {
    assert rules == [rules[0]] + rules[1..];
    if rules[0] == r {
      assert r in multiset(rules[1..]);
      var j :| 0 <= j < |rules[1..]| && rules[1..][j] == r;
      assert rules[0] == r && rules[j + 1] == r;
    } else {
      RepeatedValue(rules[1..], r);
      var i, j :| 0 <= i < j < |rules[1..]| && rules[1..][i] == r && rules[1..][j] == r;
      assert rules[i + 1] == r && rules[j + 1] == r;
    }
  }

  lemma RepeatedIndex(rules: seq<Rule>, i: nat, j: nat)
    requires i < j < |rules| && rules[i] == rules[j]
    ensures multiset(rules)[rules[i]] >= 2
  {
    assert rules == rules[..j] + rules[j..];
    assert rules[..j][i] in rules[..j] && rules[j..][0] in rules[j..];
    assert multiset(rules) == multiset(rules[..j]) + multiset(rules[j..]);
  }

  lemma DifferentRulesDoNotClash(rules: seq<Rule>, a: Rule, b: Rule)
    requires Accepted(rules) && a in rules && b in rules && a != b
    ensures !Clash(a, b)
  {
    var k :| 0 <= k < |rules| && rules[k] == a;
    var l :| 0 <= l < |rules| && rules[l] == b;
    assert Clash(a, b) == Clash(b, a);
  }

  /** Acceptance does not depend on the order of the rules either. */
  lemma AcceptedReordered(rules: seq<Rule>, reordered: seq<Rule>)
    requires Accepted(rules) && multiset(rules) == multiset(reordered)
    ensures Accepted(reordered)
  {
    forall r | r in reordered ensures r in rules {
      assert r in multiset(rules);
    }
    forall i, j | 0 <= i < j < |reordered| ensures !Clash(reordered[i], reordered[j]) {
      if reordered[i] == reordered[j] {
        RepeatedIndex(reordered, i, j);
        RepeatedValue(rules, reordered[i]);
      } else {
        DifferentRulesDoNotClash(rules, reordered[i], reordered[j]);
      }
    }
  }

  /** Both pricers choose the same rule, whatever the order of the rules and the collation of ids. */
  lemma PricersChooseTheSameRule(rules: seq<Rule>, reordered: seq<Rule>, s: Subject, collate: (string, string) -> int)
    requires Accepted(rules) && multiset(rules) == multiset(reordered)
    requires 0 <= s.occurredAt < MAX_SAFE
    ensures MatchRule(rules, s) == EngineMatch(reordered, s, collate)
  {
    AcceptedReordered(rules, reordered);
    MatcherPicksStrictBest(rules, s);
    EnginePicksStrictBest(reordered, s, collate);
    assert forall r :: r in rules <==> r in multiset(rules);
    assert forall r :: r in reordered <==> r in multiset(reordered);
    if MatchRule(rules, s).Some? && EngineMatch(reordered, s, collate).Some? {
      StrictBestIsUnique(rules, reordered, s, MatchRule(rules, s).value, EngineMatch(reordered, s, collate).value);
    }
  }

  /** The time bound is sharp: at 2^53 - 1 an accepted list can hold two equally specific matches. */
  lemma AmbiguousAtLastInstant(r: Rule) returns (rules: seq<Rule>, s: Subject)
    requires ValidRule(r) && r.effectiveTo.None? && r.effectiveFrom < MAX_SAFE
    ensures Accepted(rules) && |rules| == 2 && s.occurredAt == MAX_SAFE
    ensures Matches(rules[0], s) && Matches(rules[1], s) && Specificity(rules[0]) == Specificity(rules[1])
    ensures MatchRule(rules, s) != MatchRule([rules[1], rules[0]], s)
  {
    var late := r.(effectiveFrom := MAX_SAFE);
    rules := [r, late];
    s := Subject(seq(DIMENSIONS, i requires 0 <= i < DIMENSIONS => Some(r.dimensions[i])), MAX_SAFE);
    assert Filter(rules[1..], x => Matches(x, s)) == [late];
    assert Filter(rules, x => Matches(x, s)) == rules;
    var swapped := [late, r];
    assert Filter(swapped[1..], x => Matches(x, s)) == [r];
    assert Filter(swapped, x => Matches(x, s)) == swapped;
  }

  // -------------------------------------------------- when the order of the rules matters

  ghost predicate SameRules(rules: seq<Rule>, other: seq<Rule>) {
    multiset(rules) == multiset(other)
  }

  lemma SameRulesSameMembers(rules: seq<Rule>, other: seq<Rule>)
    requires SameRules(rules, other)
    ensures forall r :: r in rules <==> r in other
  {
    assert forall r :: r in rules <==> r in multiset(rules);
    assert forall r :: r in other <==> r in multiset(other);
  }

  /// Whatever the list, the matcher's choice is a match of maximal specificity.
  lemma ChoiceIsMaximal(rules: seq<Rule>, s: Subject)
    requires 0 <= s.occurredAt <= MAX_SAFE
    ensures MatchRule(rules, s).None? <==> forall r | r in rules :: !Matches(r, s)
    ensures MatchRule(rules, s).Some? ==> var choice := MatchRule(rules, s).value;
      choice in rules && Matches(choice, s) && forall r | r in rules && Matches(r, s) ::
        Specificity(r) <= Specificity(choice)
  {
    var matches := Filter(rules, r => Matches(r, s));
    if matches == [] {
      forall r | r in rules ensures !Matches(r, s) {
        assert r !in matches;
      }
    } else {
      assert matches[0] in matches;
    }
  }

  /// A match of maximal specificity that comes first is chosen.
  lemma FirstIsChosen(rest: seq<Rule>, s: Subject, b: Rule)
    requires 0 <= s.occurredAt <= MAX_SAFE && Matches(b, s)
    requires forall r | r in rest && Matches(r, s) :: Specificity(r) <= Specificity(b)
    ensures MatchRule([b] + rest, s) == Some(b)
  {
    var matches := Filter([b] + rest, r => Matches(r, s));
    assert ([b] + rest)[1..] == rest;
    assert matches[0] == b && MaxSpecificity(matches) == Specificity(b);
  }

  lemma MovedToFront(rules: seq<Rule>, k: nat)
    requires k < |rules|
    ensures SameRules(rules, [rules[k]] + (rules[..k] + rules[k + 1..]))
  {
    assert rules == rules[..k] + [rules[k]] + rules[k + 1..];
  }

  ghost predicate OrderFree(rules: seq<Rule>, s: Subject) {
    forall other | SameRules(rules, other) :: MatchRule(other, s) == MatchRule(rules, s)
  }

  lemma StrictBestIsChosen(rules: seq<Rule>, other: seq<Rule>, s: Subject, best: Rule)
    requires 0 <= s.occurredAt <= MAX_SAFE && StrictBest(rules, s, best) && SameRules(rules, other)
    ensures MatchRule(other, s) == Some(best)
  {
    SameRulesSameMembers(rules, other);
    ChoiceIsMaximal(other, s);
  }

  lemma NoMatchNoChoice(rules: seq<Rule>, other: seq<Rule>, s: Subject)
    requires 0 <= s.occurredAt <= MAX_SAFE && SameRules(rules, other) && forall r | r in rules :: !Matches(r, s)
    ensures MatchRule(other, s) == None
  {
    SameRulesSameMembers(rules, other);
    ChoiceIsMaximal(other, s);
  }

  /// A match as specific as the chosen one is chosen instead when it comes first.
  lemma RivalIsChosen(rules: seq<Rule>, s: Subject, k: nat)
    requires 0 <= s.occurredAt <= MAX_SAFE && k < |rules| && Matches(rules[k], s)
    requires forall r | r in rules && Matches(r, s) :: Specificity(r) <= Specificity(rules[k])
    ensures exists other :: SameRules(rules, other) && MatchRule(other, s) == Some(rules[k])
  {
    var rest := rules[..k] + rules[k + 1..];
    forall r | r in rest ensures r in rules {
    }
    MovedToFront(rules, k);
    FirstIsChosen(rest, s, rules[k]);
  }

  lemma RivalExists(rules: seq<Rule>, s: Subject, a: Rule) returns (k: nat)
    requires a in rules && Matches(a, s) && !StrictBest(rules, s, a)
    ensures k < |rules| && Matches(rules[k], s) && rules[k] != a && Specificity(rules[k]) >= Specificity(a)
  {
    var b :| b in rules && Matches(b, s) && b != a && Specificity(b) >= Specificity(a);
    k :| 0 <= k < |rules| && rules[k] == b;
  }

  /**
   For any rules and any time at all: the choice does not depend on the order of the rules if and only
   if nothing matches or one match is more specific than every other.
   */
  lemma OrderFreeIff(rules: seq<Rule>, s: Subject)
    requires 0 <= s.occurredAt <= MAX_SAFE
    ensures OrderFree(rules, s) <==>
      (forall r | r in rules :: !Matches(r, s)) || exists best :: StrictBest(rules, s, best)
  {
    if best :| StrictBest(rules, s, best) {
      assert SameRules(rules, rules);
      forall other | SameRules(rules, other) ensures MatchRule(other, s) == Some(best) {
        StrictBestIsChosen(rules, other, s, best);
      }
      return;
    }
    ChoiceIsMaximal(rules, s);
    if MatchRule(rules, s).Some? {
      var k := RivalExists(rules, s, MatchRule(rules, s).value);
      RivalIsChosen(rules, s, k);
      return;
    }
    forall other | SameRules(rules, other) ensures MatchRule(other, s) == None {
      NoMatchNoChoice(rules, other, s);
    }
  }

  // ---------------------------------------- when matcher and engine choose the same rule

  /// What `localeCompare` promises: the order of two texts is the reverse of the other way round, and is transitive.
  ghost predicate Collates(collate: (string, string) -> int) {
    && (forall a, b :: collate(a, b) > 0 <==> collate(b, a) < 0)
    && (forall a, b, c :: collate(a, b) <= 0 && collate(b, c) <= 0 ==> collate(a, c) <= 0)
  }

  lemma CompareIsAnOrder(a: Rule, b: Rule, c: Rule, collate: (string, string) -> int)
    requires Collates(collate)
    ensures Compare(a, b, collate) > 0 <==> Compare(b, a, collate) < 0
    ensures Compare(a, b, collate) <= 0 && Compare(b, c, collate) <= 0 ==> Compare(a, c, collate) <= 0
  {
  }

  /// The first of the rules that no other rule comes before.
  ghost predicate FirstLeast(rules: seq<Rule>, i: nat, collate: (string, string) -> int) {
    && i < |rules| && (forall j | 0 <= j < |rules| :: Compare(rules[i], rules[j], collate) <= 0)
    && (forall j | 0 <= j < i :: Compare(rules[i], rules[j], collate) < 0)
  }

  lemma FirstLeastIsUnique(rules: seq<Rule>, i: nat, k: nat, collate: (string, string) -> int)
    requires FirstLeast(rules, i, collate) && FirstLeast(rules, k, collate) && Collates(collate)
    ensures i == k
  {
    CompareIsAnOrder(rules[i], rules[k], rules[k], collate);
  }

  lemma InsertedHead(r: Rule, sorted: seq<Rule>, collate: (string, string) -> int)
    ensures Insert(r, sorted, collate)[0] ==
      if sorted == [] || Compare(r, sorted[0], collate) <= 0 then r else sorted[0]
  {
  }

  lemma FirstStaysLeast(rules: seq<Rule>, i: nat, collate: (string, string) -> int)
    requires Collates(collate) && |rules| > 1 && FirstLeast(rules[1..], i, collate)
    ensures FirstLeast(rules, if Compare(rules[0], rules[i + 1], collate) <= 0 then 0 else i + 1, collate)
  {
    var rest := rules[1..];
    CompareIsAnOrder(rules[0], rules[0], rules[0], collate);
    forall j | 0 <= j < |rules| && Compare(rules[0], rules[i + 1], collate) <= 0
      ensures Compare(rules[0], rules[j], collate) <= 0
    {
      if j > 0 {
        assert rest[j - 1] == rules[j];
        CompareIsAnOrder(rules[0], rules[i + 1], rules[j], collate);
      }
    }
    forall j | 0 <= j < |rules| && Compare(rules[0], rules[i + 1], collate) > 0
      ensures Compare(rules[i + 1], rules[j], collate) <= 0
      ensures (j < i + 1 ==> Compare(rules[i + 1], rules[j], collate) < 0)
    {
      if j == 0 {
        CompareIsAnOrder(rules[0], rules[i + 1], rules[0], collate);
      } else {
        assert rest[j - 1] == rules[j];
      }
    }
  }

  /** The engine's stable sort puts the first least rule in front. */
  lemma {:induction false} SortedHead(rules: seq<Rule>, collate: (string, string) -> int) returns (i: nat)
    requires rules != [] && Collates(collate)
    ensures FirstLeast(rules, i, collate) && Sort(rules, collate)[0] == rules[i]
  {
    InsertedHead(rules[0], Sort(rules[1..], collate), collate);
    if |rules| == 1 {
      CompareIsAnOrder(rules[0], rules[0], rules[0], collate);
      return 0;
    }
    var k := SortedHead(rules[1..], collate);
    FirstStaysLeast(rules, k, collate);
    i := if Compare(rules[0], rules[k + 1], collate) <= 0 then 0 else k + 1;
  }

  /// The first of maximal specificity, by position.
  lemma {:induction false} FirstWithAt(rules: seq<Rule>, specificity: nat) returns (i: nat)
    requires exists r | r in rules :: Specificity(r) == specificity
    ensures i < |rules| && rules[i] == FirstWith(rules, specificity) && Specificity(rules[i]) == specificity
    ensures forall j | 0 <= j < i :: Specificity(rules[j]) != specificity
  {
    if Specificity(rules[0]) == specificity {
      return 0;
    }
    assert rules == [rules[0]] + rules[1..];
    i := FirstWithAt(rules[1..], specificity);
    i := i + 1;
  }

  /// No match comes before the choice in the engine's order.
  ghost predicate NothingBefore(matches: seq<Rule>, choice: Rule, collate: (string, string) -> int) {
    forall r | r in matches :: Compare(choice, r, collate) <= 0
  }

  lemma SameHeadIff(matches: seq<Rule>, collate: (string, string) -> int)
    requires matches != [] && Collates(collate)
    ensures var choice := FirstWith(matches, MaxSpecificity(matches));
      Sort(matches, collate)[0] == choice <==> NothingBefore(matches, choice, collate)
  {
    var head := SortedHead(matches, collate);
    var i := FirstWithAt(matches, MaxSpecificity(matches));
    if NothingBefore(matches, matches[i], collate) {
      forall j | 0 <= j < i ensures Compare(matches[i], matches[j], collate) < 0 {
        assert matches[j] in matches;
      }
      assert FirstLeast(matches, i, collate);
      FirstLeastIsUnique(matches, head, i, collate);
    }
  }

  lemma {:induction false} SameFilter(rules: seq<Rule>, s: Subject)
    requires forall r | r in rules :: ValidRule(r)
    ensures Filter(rules, r => EngineMatches(r, s)) == Filter(rules, r => Matches(r, s))
  {
    if rules != [] {
      assert rules == [rules[0]] + rules[1..];
      SameMatches(rules[0], s);
      SameFilter(rules[1..], s);
    }
  }

  lemma ChoicesAmong(rules: seq<Rule>, s: Subject, collate: (string, string) -> int, matches: seq<Rule>)
    requires 0 <= s.occurredAt <= MAX_SAFE
    requires matches == Filter(rules, r => Matches(r, s)) == Filter(rules, r => EngineMatches(r, s))
    ensures MatchRule(rules, s) == if matches == [] then None else Some(FirstWith(matches, MaxSpecificity(matches)))
    ensures EngineMatch(rules, s, collate) == if matches == [] then None else Some(Sort(matches, collate)[0])
  {
    assert Sort(matches, collate) == [] <==> matches == [];
  }

  /**
   For any valid rules and any time, the last instant included: matcher and engine choose the same rule if and
   only if no match comes before the matcher's choice in the engine's order. A match of the same specificity
   that takes effect later, or at the same time with a smaller id, is what makes them differ.
   */
  lemma SameChoiceIff(rules: seq<Rule>, s: Subject, collate: (string, string) -> int)
    requires (forall r | r in rules :: ValidRule(r)) && 0 <= s.occurredAt <= MAX_SAFE && Collates(collate)
    ensures MatchRule(rules, s) == EngineMatch(rules, s, collate) <==>
      MatchRule(rules, s).Some? ==>
      forall r | r in rules && Matches(r, s) :: Compare(MatchRule(rules, s).value, r, collate) <= 0
  {
    var matches := Filter(rules, r => Matches(r, s));
    SameFilter(rules, s);
    ChoicesAmong(rules, s, collate, matches);
    if matches != [] {
      SameHeadIff(matches, collate);
      assert forall r :: r in matches <==> r in rules && Matches(r, s);
    }
  }

  // --------------------------------------------------------------------- cost of a component

  /// The exact cost in micros: request units are not divided, token counts round half up.
  function Cost(i: nat, count: nat, rate: nat): (cost: nat) {
    if i == 0 then count * rate else (count * rate + HALF) / MILLION
  }

  predicate Both(count: Option<nat>, rate: Option<nat>) {
    count.Some? && rate.Some?
  }

  /// The cost column of one component: null unless both its count and its rate are known.
  function ComponentCost(i: nat, count: Option<nat>, rate: Option<nat>): Option<nat> {
    if Both(count, rate) then Some(Cost(i, count.value, rate.value)) else None
  }

  function Amount(i: nat, count: Option<nat>, rate: Option<nat>): nat {
    if Both(count, rate) then Cost(i, count.value, rate.value) else 0
  }

  /// Sum of the known costs of the first n components.
  function KnownCost(counts: PerComponent, rates: PerComponent, n: nat): (cost: nat)
    requires n <= COMPONENTS
  {
    if n == 0 then 0 else KnownCost(counts, rates, n - 1) + Amount(n - 1, counts[n - 1], rates[n - 1])
  }

  function KnownParts(counts: PerComponent, rates: PerComponent, n: nat): (parts: nat)
    requires n <= COMPONENTS
    ensures parts <= n
    ensures parts == 0 <==> forall i | 0 <= i < n :: !Both(counts[i], rates[i])
  {
    if n == 0 then 0 else
    KnownParts(counts, rates, n - 1) + if Both(counts[n - 1], rates[n - 1]) then 1 else 0
  }

  /// `safeCost` throws for this component.
  predicate Overflows(i: nat, count: Option<nat>, rate: Option<nat>) {
    Both(count, rate) && Cost(i, count.value, rate.value) > MAX_SAFE
  }

  predicate AnyOverflow(counts: PerComponent, rates: PerComponent, n: nat)
    requires n <= COMPONENTS
  {
    n > 0 && (AnyOverflow(counts, rates, n - 1) || Overflows(n - 1, counts[n - 1], rates[n - 1]))
  }

  lemma {:induction false} OverflowIffSome(counts: PerComponent, rates: PerComponent, n: nat)
    requires n <= COMPONENTS
    ensures AnyOverflow(counts, rates, n) <==> exists i | 0 <= i < n :: Overflows(i, counts[i], rates[i])
  {
    if n > 0 {
      OverflowIffSome(counts, rates, n - 1);
    }
  }

  lemma {:induction false} OverflowPersists(counts: PerComponent, rates: PerComponent, n: nat, m: nat)
    requires n <= m <= COMPONENTS && AnyOverflow(counts, rates, n)
    ensures AnyOverflow(counts, rates, m)
  {
    if n < m {
      OverflowPersists(counts, rates, n, m - 1);
    }
  }

  /// The engine's test for an unknown component: any rate without its count, or a positive count without a rate.
  predicate EngineUnknown(count: Option<nat>, rate: Option<nat>) {
    (rate.Some? && count.None?) || (rate.None? && count.Some? && count.value > 0)
  }

  /// The estimator's test: a zero rate without a count is not missing.
  predicate EstimateMissing(count: Option<nat>, rate: Option<nat>) {
    (count.None? && rate.Some? && rate.value != 0) || (count.Some? && count.value != 0 && rate.None?)
  }

  function State(unknown: bool, parts: nat): PricingState {
    if !unknown && parts > 0 then Priced else if parts > 0 then Partial else Unpriced
  }

  /// The price columns of a raw row. `rule` stands for the columns copied from the rule.
  datatype PriceColumns = PriceColumns(
    rule: Option<Rule>,
    costs: PerComponent,
    knownCost: nat,
    estimatedCost: Option<nat>,
    state: PricingState)

  const UNPRICED_COLUMNS := PriceColumns(None, [None, None, None, None, None, None], 0, None, Unpriced)

  /// The priced columns for a rule; `None` when `safeCost` throws on a part or on the total.
  function PriceWith(rule: Rule, counts: PerComponent): (price: Option<PriceColumns>)
  {
    var rates := rule.rates;
    var known := KnownCost(counts, rates, COMPONENTS);
    var state := State(
      exists i | 0 <= i < COMPONENTS :: EngineUnknown(counts[i], rates[i]),
      KnownParts(counts, rates, COMPONENTS));
    if AnyOverflow(counts, rates, COMPONENTS) || known > MAX_SAFE then None else
    Some(PriceColumns(
      Some(rule),
      seq(COMPONENTS, i requires 0 <= i < COMPONENTS => ComponentCost(i, counts[i], rates[i])),
      known,
      if state == Priced then Some(known) else None,
      state))
  }

  function Price(rules: seq<Rule>, s: Subject, counts: PerComponent, collate: (string, string) -> int)
    : Option<PriceColumns>
  {
    var rule := EngineMatch(rules, s, collate);
    if rule.None? then Some(UNPRICED_COLUMNS) else PriceWith(rule.value, counts)
  }

  /** `applyPricing` after the rule is chosen: six calls of the accumulating `add`. */
  method ApplyRule(rule: Rule, counts: PerComponent) returns (price: Option<PriceColumns>)
    ensures price == PriceWith(rule, counts)
  {
    var knownCost, knownParts, unknown := 0, 0, false;
    var costs: seq<Option<nat>> := [];
    var rates := rule.rates;
    for i := 0 to COMPONENTS
      invariant !AnyOverflow(counts, rates, i)
      invariant |costs| == i && forall j | 0 <= j < i :: costs[j] == ComponentCost(j, counts[j], rates[j])
      invariant knownCost == KnownCost(counts, rates, i) && knownParts == KnownParts(counts, rates, i)
      invariant unknown <==> exists j | 0 <= j < i :: EngineUnknown(counts[j], rates[j])
    {
      var count, rate := counts[i], rates[i];
      if rate.Some? && count.Some? {
        var cost := Cost(i, count.value, rate.value);
        if cost > MAX_SAFE {
          OverflowPersists(counts, rates, i + 1, COMPONENTS);
          return None;
        }
        costs, knownCost, knownParts := costs + [Some(cost)], knownCost + cost, knownParts + 1;
      } else {
        costs := costs + [None];
        if (rate.Some? && count.None?) || (rate.None? && count.Some? && count.value > 0) {
          unknown := true;
        }
      }
    }
    if knownCost > MAX_SAFE {
      return None;
    }
    var state := State(unknown, knownParts);
    price := Some(PriceColumns(Some(rule), costs, knownCost, if state == Priced then Some(knownCost) else None, state));
    assert price.value.costs == PriceWith(rule, counts).value.costs;
  }

  // ------------------------------------------------------------------------- the estimator

  /// `down` or its successor: whichever multiple of the gap is nearer, ties to the even one.
  function Nearest(down: nat, twiceRest: nat, gap: nat): nat {
    if twiceRest < gap || (twiceRest == gap && down % 2 == 0) then down else down + 1
  }

  /// Addition of two doubles that hold whole numbers, for sums below 2^56: exact up to 2^53,
  /// beyond that rounded to the spacing of the doubles, ties to even.
  function DoubleAdd(a: nat, b: nat): (sum: nat)
    ensures a + b <= MAX_SAFE ==> sum == a + b
  {
    var n := a + b;
    if n <= 0x20_0000_0000_0000 then n
    else if n <= 0x40_0000_0000_0000 then 2 * Nearest(n / 2, 2 * (n % 2), 2)
    else if n <= 0x80_0000_0000_0000 then 4 * Nearest(n / 4, 2 * (n % 4), 4)
    else 8 * Nearest(n / 8, 2 * (n % 8), 8)
  }

  /// `rule` stands for the currency, the snapshot version and the rule id; without a rule, the rule is what is missing.
  datatype Estimate = Estimate(
    rule: Option<Rule>,
    knownCost: nat,
    estimatedCost: Option<nat>,
    state: PricingState,
    missing: seq<nat>)

  /// What the estimator reports as its known cost, added up in doubles.
  function DoubleCost(counts: PerComponent, rates: PerComponent, n: nat): nat
    requires n <= COMPONENTS
  {
    if n == 0 then 0 else DoubleAdd(DoubleCost(counts, rates, n - 1), Amount(n - 1, counts[n - 1], rates[n - 1]))
  }

  function Missing(counts: PerComponent, rates: PerComponent, n: nat): (missing: seq<nat>)
    requires n <= COMPONENTS
    ensures forall i | i in missing :: i < n
    ensures forall i | 0 <= i < n :: i in missing <==> EstimateMissing(counts[i], rates[i])
  {
    if n == 0 then [] else
    Missing(counts, rates, n - 1) + if EstimateMissing(counts[n - 1], rates[n - 1]) then [n - 1] else []
  }

  /** `componentCost`: its cost (`None` where it throws) and whether it is known or missing. */
  method EstimateComponent(i: nat, count: Option<nat>, price: Option<nat>)
    returns (cost: Option<nat>, known: bool, missing: bool)
    ensures cost == if Overflows(i, count, price) then None else Some(Amount(i, count, price))
    ensures known <==> Both(count, price)
    ensures missing <==> EstimateMissing(count, price)
  {
    if count.None? {
      return Some(0), false, !(price.None? || price.value == 0);
    }
    if count.value == 0 && price.None? {
      return Some(0), false, false;
    }
    if price.None? {
      return Some(0), false, true;
    }
    var exact := Cost(i, count.value, price.value);
    cost, known, missing := if exact > MAX_SAFE then None else Some(exact), true, false;
  }

  /// The estimate under a rule, or without one; `None` when a component throws.
  function EstimateOf(rule: Option<Rule>, counts: PerComponent): (estimate: Option<Estimate>)
  {
    if rule.None? then Some(Estimate(None, 0, None, Unpriced, [])) else
    var rates := rule.value.rates;
    if AnyOverflow(counts, rates, COMPONENTS) then None else
    var known, state := DoubleCost(counts, rates, COMPONENTS), EstimateState(rule.value, counts);
    var total := if state == Priced then Some(known) else None;
    Some(Estimate(rule, known, total, state, Missing(counts, rates, COMPONENTS)))
  }

  /** `estimatePricing`. */
  method EstimatePricing(rule: Option<Rule>, counts: PerComponent) returns (estimate: Option<Estimate>)
    ensures estimate == EstimateOf(rule, counts)
  {
    if rule.None? {
      return Some(Estimate(None, 0, None, Unpriced, []));
    }
    var knownCost, knownComponents := 0, 0;
    var missing := [];
    var rates := rule.value.rates;
    for i := 0 to COMPONENTS
      invariant !AnyOverflow(counts, rates, i)
      invariant knownCost == DoubleCost(counts, rates, i) && knownComponents == KnownParts(counts, rates, i)
      invariant missing == Missing(counts, rates, i)
    {
      var cost, known, isMissing := EstimateComponent(i, counts[i], rates[i]);
      if cost.None? {
        OverflowPersists(counts, rates, i + 1, COMPONENTS);
        return None;
      }
      knownCost := DoubleAdd(knownCost, cost.value);
      if known { knownComponents := knownComponents + 1; }
      if isMissing { missing := missing + [i]; }
    }
    var state := State(missing != [], knownComponents);
    estimate := Some(Estimate(rule, knownCost, if state == Priced then Some(knownCost) else None, state, missing));
  }

  // ---------------------------------------------------------------- agreeing on the price

  lemma {:induction false} KnownCostGrows(counts: PerComponent, rates: PerComponent, n: nat, m: nat)
    requires n <= m <= COMPONENTS
    ensures KnownCost(counts, rates, n) <= KnownCost(counts, rates, m)
  {
    if n < m {
      KnownCostGrows(counts, rates, n, m - 1);
    }
  }

  /** Whenever the engine stores a price, the estimator's double additions were all exact. */
  lemma {:induction false} KnownCostsAgree(rule: Rule, counts: PerComponent, n: nat)
    requires n <= COMPONENTS && PriceWith(rule, counts).Some?
    ensures DoubleCost(counts, rule.rates, n) == KnownCost(counts, rule.rates, n)
  {
    if n > 0 {
      KnownCostsAgree(rule, counts, n - 1);
      KnownCostGrows(counts, rule.rates, n, COMPONENTS);
    }
  }

  predicate NullMeetsZeroRate(counts: PerComponent, rates: PerComponent) {
    exists i | 0 <= i < COMPONENTS :: counts[i].None? && rates[i] == Some(0)
  }

  function EngineState(rule: Rule, counts: PerComponent): PricingState {
    State(exists i | 0 <= i < COMPONENTS ::
      EngineUnknown(counts[i], rule.rates[i]), KnownParts(counts, rule.rates, COMPONENTS))
  }

  function EstimateState(rule: Rule, counts: PerComponent): PricingState {
    State(Missing(counts, rule.rates, COMPONENTS) != [], KnownParts(counts, rule.rates, COMPONENTS))
  }

  /**
   The two pricers name the same state exactly unless a null count meets a zero rate, some other
   component is known, and no component is missing outright.
   */
  lemma StatesAgreeExactly(rule: Rule, counts: PerComponent)
    ensures EngineState(rule, counts) == EstimateState(rule, counts) <==>
      !(NullMeetsZeroRate(counts, rule.rates)
        && (exists i | 0 <= i < COMPONENTS :: Both(counts[i], rule.rates[i]))
        && (forall i | 0 <= i < COMPONENTS :: !EstimateMissing(counts[i], rule.rates[i])))
  {
    var missing := Missing(counts, rule.rates, COMPONENTS);
    if missing != [] {
      assert missing[0] in missing;
      assert EngineUnknown(counts[missing[0]], rule.rates[missing[0]]);
    } else {
      forall i | 0 <= i < COMPONENTS ensures !EstimateMissing(counts[i], rule.rates[i]) {
        assert i !in missing;
      }
      if NullMeetsZeroRate(counts, rule.rates) {
        var i :| 0 <= i < COMPONENTS && counts[i].None? && rule.rates[i] == Some(0);
        assert EngineUnknown(counts[i], rule.rates[i]);
      }
    }
  }

  /**
   A stored price and the estimate under the same rule: equal known cost, and equal state but for the
   zero-rate case.
   */
  lemma PricersAgree(rule: Rule, counts: PerComponent)
    requires PriceWith(rule, counts).Some?
    ensures !AnyOverflow(counts, rule.rates, COMPONENTS)
    ensures PriceWith(rule, counts).value.knownCost == DoubleCost(counts, rule.rates, COMPONENTS)
    ensures PriceWith(rule, counts).value.state == EngineState(rule, counts)
    ensures !NullMeetsZeroRate(counts, rule.rates) ==> EngineState(rule, counts) == EstimateState(rule, counts)
  {
    KnownCostsAgree(rule, counts, COMPONENTS);
    StatesAgreeExactly(rule, counts);
  }

  /**
   From the rule list to the price: whenever the engine stores a price, the matcher's estimate is under
   the same rule, has the same known cost, and has the same state and total but for the zero-rate case.
   */
  lemma EstimateAgreesWithPrice(rules: seq<Rule>, s: Subject, counts: PerComponent, collate: (string, string) -> int)
    requires Accepted(rules) && 0 <= s.occurredAt < MAX_SAFE && Price(rules, s, counts, collate).Some?
    ensures var price, estimate := Price(rules, s, counts, collate).value, EstimateOf(MatchRule(rules, s), counts);
      && estimate.Some? && estimate.value.rule == price.rule && estimate.value.knownCost == price.knownCost
      && (price.rule.None? || !NullMeetsZeroRate(counts, price.rule.value.rates) ==>
           estimate.value.state == price.state && estimate.value.estimatedCost == price.estimatedCost)
  {
    PricersChooseTheSameRule(rules, rules, s, collate);
    var rule := EngineMatch(rules, s, collate);
    if rule.Some? {
      PricersAgree(rule.value, counts);
    }
  }

  // ---------------------------------------------------------------------------- cost bounds

  /// A million times the exact, unrounded cost of one component.
  function ExactAmount(i: nat, count: Option<nat>, rate: Option<nat>): nat {
    if !Both(count, rate) then 0
    else if i == 0 then MILLION * (count.value * rate.value)
    else count.value * rate.value
  }

  /// A million times the exact cost of the first n components.
  function ExactScaled(counts: PerComponent, rates: PerComponent, n: nat): nat
    requires n <= COMPONENTS
  {
    if n == 0 then 0 else ExactScaled(counts, rates, n - 1) + ExactAmount(n - 1, counts[n - 1], rates[n - 1])
  }

  function Distance(a: int, b: int): nat {
    if a < b then b - a else a - b
  }

  /** One token cost is within half a micro of count * rate / 10^6. */
  lemma TokenCostBound(i: nat, count: nat, rate: nat)
    requires i > 0
    ensures Distance(MILLION * Cost(i, count, rate), count * rate) <= HALF
  {
    var exact := count * rate;
    assert exact + HALF == MILLION * ((exact + HALF) / MILLION) + (exact + HALF) % MILLION;
  }

  lemma AmountBound(i: nat, count: Option<nat>, rate: Option<nat>)
    ensures Distance(MILLION * Amount(i, count, rate), ExactAmount(i, count, rate)) <= if i == 0 then 0 else HALF
  {
    if Both(count, rate) && i > 0 {
      TokenCostBound(i, count.value, rate.value);
    }
  }

  /** The total over all six components is within 2.5 micros of the exact cost. */
  lemma {:induction false} TotalCostBound(counts: PerComponent, rates: PerComponent, n: nat)
    requires n <= COMPONENTS
    ensures Distance(MILLION * KnownCost(counts, rates, n), ExactScaled(counts, rates, n)) <=
      HALF * (if n == 0 then 0 else n - 1)
  {
    if n > 0 {
      TotalCostBound(counts, rates, n - 1);
      AmountBound(n - 1, counts[n - 1], rates[n - 1]);
    }
  }

  lemma CostMonotone(i: nat, count: nat, rate: nat, count': nat, rate': nat)
    requires count <= count' && rate <= rate'
    ensures Cost(i, count, rate) <= Cost(i, count', rate')
  {
    assert count * rate <= count' * rate <= count' * rate';
    Divides(count * rate + HALF, count' * rate' + HALF);
  }

  lemma Divides(a: nat, b: nat)
    requires a <= b
    ensures a / MILLION <= b / MILLION
  {
  }

  ghost predicate AtMost(a: Option<nat>, b: Option<nat>) {
    a.Some? ==> b.Some? && a.value <= b.value
  }

  /** Raising counts or rates, or making a null one known, never lowers the cost. */
  lemma {:induction false} KnownCostMonotone(counts: PerComponent, rates: PerComponent, counts': PerComponent,
                                             rates': PerComponent, n: nat)
    requires n <= COMPONENTS
    requires forall i | 0 <= i < n :: AtMost(counts[i], counts'[i]) && AtMost(rates[i], rates'[i])
    ensures KnownCost(counts, rates, n) <= KnownCost(counts', rates', n)
  {
    if n > 0 {
      KnownCostMonotone(counts, rates, counts', rates', n - 1);
      if Both(counts[n - 1], rates[n - 1]) {
        CostMonotone(n - 1, counts[n - 1].value, rates[n - 1].value, counts'[n - 1].value, rates'[n - 1].value);
      }
    }
  }

  ghost predicate SafePrice(p: PriceColumns) {
    && p.knownCost <= MAX_SAFE
    && (p.estimatedCost.Some? ==> p.estimatedCost.value <= MAX_SAFE)
    && (forall i | 0 <= i < COMPONENTS :: p.costs[i].Some? ==> p.costs[i].value <= MAX_SAFE)
  }

  /** Every cost the engine ever stores is a safe integer. */
  lemma StoredCostsAreSafe(rules: seq<Rule>, s: Subject, counts: PerComponent, collate: (string, string) -> int)
    ensures Price(rules, s, counts, collate).Some? ==> SafePrice(Price(rules, s, counts, collate).value)
  {
    var rule := EngineMatch(rules, s, collate);
    if rule.Some? && PriceWith(rule.value, counts).Some? {
      OverflowIffSome(counts, rule.value.rates, COMPONENTS);
      forall i | 0 <= i < COMPONENTS && Both(counts[i], rule.value.rates[i])
        ensures Cost(i, counts[i].value, rule.value.rates[i].value) <= MAX_SAFE
      {
        assert !Overflows(i, counts[i], rule.value.rates[i]);
      }
    }
  }
}
