/**
 Usage observations, the raw rows built from them, and the merge of the two sources' views
 of one request (storage/engine.ts, `newRequest` and `mergeRequest`).
 */
module Requests {
  import opened Basics
  import opened Pricing

  /// A 64-digit lowercase hex hash, read as the number it writes: equality and SQLite's
  /// binary text order are those of the numbers.
  type Hash = nat

  datatype SourceKind = Gateway | CpaHttpUsage

  datatype RequestOutcome = Success | Error | Aborted

  /// The projection of one request that a source reports.
  datatype View = View(
    occurredAt: nat,
    keyVersion: nat,
    outcome: RequestOutcome,
    errorKind: string,
    units: nat,
    route: string,
    provider: string,
    model: string,
    account: Option<string>,
    apiKey: Option<string>,
    httpStatus: Option<nat>,
    input: Option<nat>,
    output: Option<nat>,
    cacheRead: Option<nat>,
    cacheWrite: Option<nat>,
    reasoning: Option<nat>,
    firstToken: Option<nat>,
    duration: Option<nat>)

  datatype Observation = Observation(
    kind: SourceKind,
    sourceKey: Hash,
    requestId: Hash,
    fingerprint: Hash,
    view: View)

  /// A request as the raw table keeps it; a source has been seen when its fingerprint is recorded.
  datatype Request = Request(id: Hash, view: View, gateway: Option<Hash>, cpa: Option<Hash>)

  datatype Row = Row(request: Request, price: PriceColumns, firstReceived: int, lastReceived: int)

  function NewRequest(o: Observation): Request {
    Request(o.requestId, o.view,
      if o.kind == Gateway then Some(o.fingerprint) else None,
      if o.kind == CpaHttpUsage then Some(o.fingerprint) else None)
  }

  /// `mergeText`: an empty text counts as absent.
  predicate TextsClash(current: string, incoming: string) {
    current != "" && incoming != "" && current != incoming
  }

  function MergeText(current: string, incoming: string): string {
    if current != "" then current else incoming
  }

  predicate ValuesClash<T(==)>(current: Option<T>, incoming: Option<T>) {
    current.Some? && incoming.Some? && current != incoming
  }

  function MergeValue<T>(current: Option<T>, incoming: Option<T>): Option<T> {
    if current.Some? then current else incoming
  }

  /// The checks of `mergeRequest` that throw, source kinds aside.
  predicate ViewsClash(current: View, incoming: View) {
    || current.occurredAt != incoming.occurredAt
    || current.keyVersion != incoming.keyVersion
    || current.outcome != incoming.outcome
    || current.errorKind != incoming.errorKind
    || current.units != incoming.units
    || TextsClash(current.route, incoming.route)
    || TextsClash(current.provider, incoming.provider)
    || TextsClash(current.model, incoming.model)
    || ValuesClash(current.account, incoming.account)
    || ValuesClash(current.apiKey, incoming.apiKey)
    || ValuesClash(current.httpStatus, incoming.httpStatus)
    || ValuesClash(current.input, incoming.input)
    || ValuesClash(current.output, incoming.output)
    || ValuesClash(current.cacheRead, incoming.cacheRead)
    || ValuesClash(current.cacheWrite, incoming.cacheWrite)
    || ValuesClash(current.reasoning, incoming.reasoning)
    || ValuesClash(current.firstToken, incoming.firstToken)
    || ValuesClash(current.duration, incoming.duration)
  }

  function MergeViews(current: View, incoming: View): View {
    current.(
      route := MergeText(current.route, incoming.route),
      provider := MergeText(current.provider, incoming.provider),
      model := MergeText(current.model, incoming.model),
      account := MergeValue(current.account, incoming.account),
      apiKey := MergeValue(current.apiKey, incoming.apiKey),
      httpStatus := MergeValue(current.httpStatus, incoming.httpStatus),
      input := MergeValue(current.input, incoming.input),
      output := MergeValue(current.output, incoming.output),
      cacheRead := MergeValue(current.cacheRead, incoming.cacheRead),
      cacheWrite := MergeValue(current.cacheWrite, incoming.cacheWrite),
      reasoning := MergeValue(current.reasoning, incoming.reasoning),
      firstToken := MergeValue(current.firstToken, incoming.firstToken),
      duration := MergeValue(current.duration, incoming.duration))
  }

  predicate SeenFrom(request: Request, kind: SourceKind) {
    if kind == Gateway then request.gateway.Some? else request.cpa.Some?
  }

  /** `mergeRequest`: `None` where it throws. */
  function Merge(previous: Request, o: Observation): (merged: Option<Request>)
    ensures merged.Some? ==>
      && merged.value.id == previous.id
      && merged.value.view.occurredAt == previous.view.occurredAt == o.view.occurredAt
      && SeenFrom(merged.value, o.kind)
  {
    if SeenFrom(previous, o.kind) || ViewsClash(previous.view, o.view) then None else
    var request := previous.(view := MergeViews(previous.view, o.view));
    Some(if o.kind == Gateway then request.(gateway := Some(o.fingerprint)) else request.(cpa := Some(o.fingerprint)))
  }

  /// The counts that the price rules apply to, in component order.
  function Counts(v: View): PerComponent {
    [Some(v.units), v.input, v.output, v.cacheRead, v.cacheWrite, v.reasoning]
  }

  function SubjectOf(v: View): Subject {
    Subject([Some(v.route), Some(v.provider), Some(v.model), v.account, v.apiKey], v.occurredAt)
  }

  // -------------------------------------------------------------- merging is symmetric

  /** Whether two views of one request conflict does not depend on which arrived first. */
  lemma ConflictIsSymmetric(a: View, b: View)
    ensures ViewsClash(a, b) == ViewsClash(b, a)
  {
  }

  /** Neither does the merged view when they do not conflict. */
  lemma MergeIsSymmetric(a: View, b: View)
    requires !ViewsClash(a, b)
    ensures MergeViews(a, b) == MergeViews(b, a)
  {
  }

  /**
   Two observations from different sources build the same request in either order, or neither order
   accepts the second.
   */
  lemma EitherOrder(a: Observation, b: Observation)
    requires a.kind != b.kind && a.requestId == b.requestId
    ensures Merge(NewRequest(a), b) == Merge(NewRequest(b), a)
    ensures Merge(NewRequest(a), b).Some? <==> !ViewsClash(a.view, b.view)
  {
    ConflictIsSymmetric(a.view, b.view);
    if !ViewsClash(a.view, b.view) {
      MergeIsSymmetric(a.view, b.view);
    }
  }

  // ---------------------------------------------------- the merged view knows what both know

  predicate TextExtends(v: string, w: string) {
    v != "" ==> w == v
  }

  predicate ValueExtends<T(==)>(v: Option<T>, w: Option<T>) {
    v.Some? ==> w == v
  }

  /// `w` reports whatever `v` reports, and possibly more.
  predicate Extends(v: View, w: View) {
    && v.occurredAt == w.occurredAt && v.keyVersion == w.keyVersion && v.outcome == w.outcome
    && v.errorKind == w.errorKind && v.units == w.units
    && TextExtends(v.route, w.route) && TextExtends(v.provider, w.provider) && TextExtends(v.model, w.model)
    && ValueExtends(v.account, w.account) && ValueExtends(v.apiKey, w.apiKey) &&
      ValueExtends(v.httpStatus, w.httpStatus)
    && ValueExtends(v.input, w.input) && ValueExtends(v.output, w.output)
    && ValueExtends(v.cacheRead, w.cacheRead) && ValueExtends(v.cacheWrite, w.cacheWrite) &&
      ValueExtends(v.reasoning, w.reasoning)
    && ValueExtends(v.firstToken, w.firstToken) && ValueExtends(v.duration, w.duration)
  }

  lemma MergedExtendsBoth(a: View, b: View)
    requires !ViewsClash(a, b)
    ensures Extends(a, MergeViews(a, b)) && Extends(b, MergeViews(a, b))
  {
  }

  lemma MergedIsLeast(a: View, b: View, w: View)
    requires Extends(a, w) && Extends(b, w)
    ensures !ViewsClash(a, b) && Extends(MergeViews(a, b), w)
  {
  }

  /**
   Two views can be merged if and only if some view reports whatever either reports, and the merged
   view is the least such: it adds nothing of its own.
   */
  lemma MergeIsLeastUpperBound(previous: Request, o: Observation)
    requires !SeenFrom(previous, o.kind)
    ensures Merge(previous, o).Some? <==> exists w :: Extends(previous.view, w) && Extends(o.view, w)
    ensures Merge(previous, o).Some? ==> var v := Merge(previous, o).value.view;
      && Extends(previous.view, v) && Extends(o.view, v)
      && forall w | Extends(previous.view, w) && Extends(o.view, w) :: Extends(v, w)
  {
    if Merge(previous, o).Some? {
      MergedExtendsBoth(previous.view, o.view);
    }
    forall w | Extends(previous.view, w) && Extends(o.view, w)
      ensures Merge(previous, o).Some? && Extends(Merge(previous, o).value.view, w)
    {
      MergedIsLeast(previous.view, o.view, w);
    }
  }
}
