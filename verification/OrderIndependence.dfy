/**
 The order in which observations arrive, and how often, does not matter: the raw table and the
 rollups depend only on the set of observations delivered.
 */
module OrderIndependence {
  import opened Basics
  import opened Pricing
  import opened Requests
  import opened Rollup
  import opened Engine
  import Retention
  import DoubleCounting

  datatype Delivery = Delivery(o: Observation, checkedAt: int, now: int, outcome: Outcome)

  /// Any stream of ingests, from the empty database, with no maintenance in between.
  ghost predicate Stream(pricer: Pricer, states: seq<Db>, deliveries: seq<Delivery>) {
    && |states| == |deliveries| + 1
    && states[0] == EMPTY_DB
    && forall i | 0 <= i < |deliveries| ::
         var d := deliveries[i];
         Ingested(pricer, states[i], d.o, d.checkedAt, d.now, states[i + 1], d.outcome)
  }

  function Delivered(deliveries: seq<Delivery>, n: nat): set<Observation>
    requires n <= |deliveries|
  {
    set d | d in deliveries[..n] :: d.o
  }

  /// Equal source keys carry equal payloads, a request has at most one observation from each source,
  /// and the views of one request do not conflict.
  ghost predicate Coherent(os: set<Observation>) {
    && (forall a, b | a in os && b in os && ReceiptKeyOf(a) == ReceiptKeyOf(b) :: a == b)
    && (forall a, b | a in os && b in os && a.kind == b.kind && a.requestId == b.requestId :: a == b)
    && (forall a, b | a in os && b in os && a.requestId == b.requestId :: !ViewsClash(a.view, b.view))
  }

  /// No price of a view or of a merged pair of views leaves the safe integers.
  ghost predicate Priceable(pricer: Pricer, os: set<Observation>) {
    && (forall o | o in os :: pricer(o.view).Some?)
    && (forall a, b | a in os && b in os && a.kind != b.kind && a.requestId == b.requestId ::
      pricer(MergeViews(a.view, b.view)).Some?)
  }

  /**
   Of the two views of a request, the merged one can be priced exactly when both can; it may be anything
   when neither can. An observation that cannot be priced makes the ingest throw and leaves no trace.
   */
  ghost predicate Steady(pricer: Pricer, os: set<Observation>) {
    forall a, b | a in os && b in os && a.kind != b.kind && a.requestId == b.requestId ::
      SteadyPair(pricer, a.view, b.view)
  }

  predicate SteadyPair(pricer: Pricer, a: View, b: View) {
    pricer(a).Some? || pricer(b).Some? ==> (pricer(MergeViews(a, b)).Some? <==> pricer(a).Some? && pricer(b).Some?)
  }

  /// The observations that the engine can price, and so accepts.
  ghost function Priced(pricer: Pricer, os: set<Observation>): set<Observation> {
    set o | o in os && pricer(o.view).Some?
  }

  ghost predicate Reported(os: set<Observation>, o: Observation, id: Hash, kind: SourceKind) {
    o in os && o.requestId == id && o.kind == kind
  }

  /// The observation of a request that a source reported, if any.
  ghost function From(os: set<Observation>, id: Hash, kind: SourceKind): (o: Option<Observation>)
    ensures o.Some? ==> Reported(os, o.value, id, kind)
    ensures o.None? ==> forall p :: !Reported(os, p, id, kind)
  {
    if exists p :: Reported(os, p, id, kind) then
      var p :| Reported(os, p, id, kind);
      Some(p)
    else None
  }

  /// The request that everything delivered adds up to, given only the set of observations.
  ghost function Expected(os: set<Observation>, id: Hash): Option<Request> {
    match (From(os, id, Gateway), From(os, id, CpaHttpUsage))
    case (None, None) => None
    case (Some(g), None) => Some(NewRequest(g))
    case (None, Some(c)) => Some(NewRequest(c))
    case (Some(g), Some(c)) => Merge(NewRequest(g), c)
  }

  function Stored(raw: map<Hash, Row>, id: Hash): Option<Request> {
    if id in raw then Some(raw[id].request) else None
  }

  ghost predicate RawReflects(pricer: Pricer, raw: map<Hash, Row>, os: set<Observation>) {
    && (forall id: Hash :: Stored(raw, id) == Expected(os, id))
    && (forall id | id in raw :: raw[id].request.id == id && pricer(raw[id].request.view) == Some(raw[id].price))
  }

  ghost predicate ReceiptsReflect(receipts: map<ReceiptKey, Receipt>, os: set<Observation>) {
    && (forall o | o in os :: ReceiptKeyOf(o) in receipts && receipts[ReceiptKeyOf(o)].fingerprint == o.fingerprint)
    && (forall key | key in receipts :: exists o | o in os :: ReceiptKeyOf(o) == key)
  }

  /// The tables hold exactly the delivered observations.
  ghost predicate Reflects(pricer: Pricer, db: Db, os: set<Observation>) {
    RawReflects(pricer, db.raw, os) && ReceiptsReflect(db.receipts, os)
  }

  lemma RedeliveryIsDuplicate(pricer: Pricer, db: Db, d: Delivery, db': Db, os: set<Observation>)
    requires ReceiptsReflect(db.receipts, os) && d.o in os && !Refused(d.o, d.checkedAt)
    requires Ingested(pricer, db, d.o, d.checkedAt, d.now, db', d.outcome)
    ensures d.outcome == Done(Duplicate) && SameRows(db, db')
    ensures db'.receipts == db.receipts[ReceiptKeyOf(d.o) := db.receipts[ReceiptKeyOf(d.o)].(lastReceived := d.now)]
  {
  }

  lemma TouchedReceiptsReflect(receipts: map<ReceiptKey, Receipt>, key: ReceiptKey, now: int, os: set<Observation>)
    requires ReceiptsReflect(receipts, os) && key in receipts
    ensures ReceiptsReflect(receipts[key := receipts[key].(lastReceived := now)], os)
  {
  }

  lemma FromIsUnique(os: set<Observation>, o: Observation)
    requires Coherent(os) && o in os
    ensures From(os, o.requestId, o.kind) == Some(o)
  {
    assert Reported(os, o, o.requestId, o.kind);
  }

  /// A new observation is found from its own request and source, and changes no other.
  lemma FromAfter(os: set<Observation>, o: Observation, id: Hash, kind: SourceKind)
    requires Coherent(os + {o})
    ensures From(os + {o}, id, kind) == if o.requestId == id && o.kind == kind then Some(o) else From(os, id, kind)
  {
    if o.requestId == id && o.kind == kind {
      FromIsUnique(os + {o}, o);
    } else if From(os, id, kind).Some? {
      FromIsUnique(os + {o}, From(os, id, kind).value);
    } else if From(os + {o}, id, kind).Some? {
      assert Reported(os, From(os + {o}, id, kind).value, id, kind);
    }
  }

  /// The view of a request that was stored first, when another one is delivered.
  lemma FirstView(os: set<Observation>, o: Observation)
    requires Coherent(os + {o}) && o !in os
    ensures From(os, o.requestId, o.kind).None?
  {
    if From(os, o.requestId, o.kind).Some? {
      FromIsUnique(os + {o}, From(os, o.requestId, o.kind).value);
      FromIsUnique(os + {o}, o);
    }
  }

  /// Whichever source came first, the stored request becomes the one expected of both.
  lemma StoredAsExpected(pricer: Pricer, raw: map<Hash, Row>, o: Observation, os: set<Observation>)
    requires RawReflects(pricer, raw, os) && o !in os
    requires Coherent(os + {o}) && Priceable(pricer, os + {o})
    ensures MergedRequest(raw, o).Some? && MergedRequest(raw, o) == Expected(os + {o}, o.requestId)
    ensures MergedRequest(raw, o).value.id == o.requestId
    ensures pricer(MergedRequest(raw, o).value.view).Some?
  {
    assert o in os + {o};
    FirstView(os, o);
    FromAfter(os, o, o.requestId, Gateway);
    FromAfter(os, o, o.requestId, CpaHttpUsage);
    assert Stored(raw, o.requestId) == Expected(os, o.requestId);
    var other := From(os, o.requestId, if o.kind == Gateway then CpaHttpUsage else Gateway);
    if other.Some? {
      var p := other.value;
      assert p in os + {o} && raw[o.requestId].request == NewRequest(p);
      EitherOrder(p, o);
      assert !ViewsClash(p.view, o.view) && pricer(MergeViews(p.view, o.view)).Some?;
    }
  }

  lemma NewDelivery(pricer: Pricer, db: Db, d: Delivery, db': Db, os: set<Observation>)
    requires Reflects(pricer, db, os) && d.o !in os && !Refused(d.o, d.checkedAt)
    requires Coherent(os + {d.o}) && Priceable(pricer, os + {d.o})
    requires Ingested(pricer, db, d.o, d.checkedAt, d.now, db', d.outcome)
    ensures Committed(d.outcome) && ReceiptKeyOf(d.o) !in db.receipts
    ensures MergedRequest(db.raw, d.o).Some? && pricer(MergedRequest(db.raw, d.o).value.view).Some?
    ensures Accepts(db, d.o, pricer(MergedRequest(db.raw, d.o).value.view).value, d.now, db')
  {
    assert d.o in os + {d.o};
    forall p | p in os ensures ReceiptKeyOf(p) != ReceiptKeyOf(d.o) {
      assert p in os + {d.o};
    }
    assert ReceiptKeyOf(d.o) !in db.receipts;
    StoredAsExpected(pricer, db.raw, d.o, os);
  }

  lemma NewRowReflected(pricer: Pricer, raw: map<Hash, Row>, o: Observation, row: Row, os: set<Observation>)
    requires RawReflects(pricer, raw, os) && Coherent(os + {o})
    requires Some(row.request) == Expected(os + {o}, o.requestId) && row.request.id == o.requestId
    requires pricer(row.request.view) == Some(row.price)
    ensures RawReflects(pricer, raw[o.requestId := row], os + {o})
  {
    var raw' := raw[o.requestId := row];
    forall id: Hash ensures Stored(raw', id) == Expected(os + {o}, id) {
      if id != o.requestId {
        assert Stored(raw, id) == Expected(os, id);
        FromAfter(os, o, id, Gateway);
        FromAfter(os, o, id, CpaHttpUsage);
      }
    }
  }

  lemma NewReceiptReflected(receipts: map<ReceiptKey, Receipt>, o: Observation, now: int, os: set<Observation>)
    requires ReceiptsReflect(receipts, os) && ReceiptKeyOf(o) !in receipts
    ensures ReceiptsReflect(receipts[ReceiptKeyOf(o) := Receipt(o.requestId, o.fingerprint, now, now)], os + {o})
  {
    assert o in os + {o};
    forall key | key in receipts ensures exists p | p in os + {o} :: ReceiptKeyOf(p) == key {
      var p :| p in os && ReceiptKeyOf(p) == key;
      assert p in os + {o};
    }
  }

  ghost predicate GoodStream(pricer: Pricer, states: seq<Db>, deliveries: seq<Delivery>) {
    && Stream(pricer, states, deliveries)
    && Coherent(Delivered(deliveries, |deliveries|)) && Steady(pricer, Delivered(deliveries, |deliveries|))
    && forall d | d in deliveries :: !Refused(d.o, d.checkedAt)
  }

  lemma DeliveredNext(deliveries: seq<Delivery>, n: nat)
    requires n < |deliveries|
    ensures Delivered(deliveries, n + 1) == Delivered(deliveries, n) + {deliveries[n].o}
    ensures Delivered(deliveries, n + 1) <= Delivered(deliveries, |deliveries|)
  {
    assert deliveries[..n + 1] == deliveries[..n] + [deliveries[n]];
    forall d | d in deliveries[..n + 1] ensures d in deliveries[..|deliveries|] {
    }
  }

  lemma SmallerStillCoherent(pricer: Pricer, few: set<Observation>, many: set<Observation>)
    requires few <= many && Coherent(many) && Steady(pricer, many)
    ensures Coherent(few) && Steady(pricer, few)
  {
  }

  lemma RedeliveryReflected(pricer: Pricer, db: Db, d: Delivery, db': Db, os: set<Observation>)
    requires Reflects(pricer, db, os) && !Refused(d.o, d.checkedAt) && d.o in os
    requires Ingested(pricer, db, d.o, d.checkedAt, d.now, db', d.outcome)
    ensures RawReflects(pricer, db'.raw, os) && ReceiptsReflect(db'.receipts, os)
  {
    RedeliveryIsDuplicate(pricer, db, d, db', os);
    TouchedReceiptsReflect(db.receipts, ReceiptKeyOf(d.o), d.now, os);
  }

  lemma NewDeliveryReflected(pricer: Pricer, db: Db, d: Delivery, db': Db, os: set<Observation>)
    requires Reflects(pricer, db, os) && !Refused(d.o, d.checkedAt) && d.o !in os
    requires Coherent(os + {d.o}) && Priceable(pricer, os + {d.o})
    requires Ingested(pricer, db, d.o, d.checkedAt, d.now, db', d.outcome)
    ensures RawReflects(pricer, db'.raw, os + {d.o}) && ReceiptsReflect(db'.receipts, os + {d.o})
  {
    NewDelivery(pricer, db, d, db', os);
    NewReceiptReflected(db.receipts, d.o, d.now, os);
    StoredAsExpected(pricer, db.raw, d.o, os);
    NewRowReflected(pricer, db.raw, d.o, db'.raw[d.o.requestId], os);
  }

  /// The observations that can be priced may be merged with each other.
  lemma PricedIsPriceable(pricer: Pricer, os: set<Observation>)
    requires Coherent(os) && Steady(pricer, os)
    ensures Coherent(Priced(pricer, os)) && Priceable(pricer, Priced(pricer, os))
  {
  }

  /// An observation that cannot be priced stays so when it is merged with what the other source reported.
  lemma UnpricedMerge(pricer: Pricer, raw: map<Hash, Row>, o: Observation, os: set<Observation>)
    requires RawReflects(pricer, raw, Priced(pricer, os)) && pricer(o.view).None?
    requires Coherent(os + {o}) && Steady(pricer, os + {o})
    ensures MergedRequest(raw, o).Some? && pricer(MergedRequest(raw, o).value.view).None?
  {
    var id, accepted := o.requestId, Priced(pricer, os);
    assert o in os + {o};
    forall p | p in accepted ensures !Reported(accepted, p, id, o.kind) {
      assert p in os + {o};
    }
    assert Stored(raw, id) == Expected(accepted, id) && From(accepted, id, o.kind) == None;
    var other := From(accepted, id, if o.kind == Gateway then CpaHttpUsage else Gateway);
    if other.Some? {
      var p := other.value;
      assert p in os + {o} && raw[id].request == NewRequest(p);
      EitherOrder(p, o);
      assert SteadyPair(pricer, p.view, o.view);
    }
  }

  /// So it throws, whether or not the other source has reported.
  lemma UnpricedThrows(pricer: Pricer, db: Db, d: Delivery, db': Db, os: set<Observation>)
    requires Reflects(pricer, db, Priced(pricer, os)) && !Refused(d.o, d.checkedAt) && pricer(d.o.view).None?
    requires Coherent(os + {d.o}) && Steady(pricer, os + {d.o})
    requires Ingested(pricer, db, d.o, d.checkedAt, d.now, db', d.outcome)
    ensures db' == db && d.outcome == Threw
  {
    assert d.o in os + {d.o};
    forall p | p in Priced(pricer, os) ensures ReceiptKeyOf(p) != ReceiptKeyOf(d.o) {
      assert p in os + {d.o};
    }
    UnpricedMerge(pricer, db.raw, d.o, os);
  }

  lemma PricedDeliveryReflected(pricer: Pricer, db: Db, d: Delivery, db': Db, accepted: set<Observation>)
    requires Reflects(pricer, db, accepted) && !Refused(d.o, d.checkedAt)
    requires Coherent(accepted + {d.o}) && Priceable(pricer, accepted + {d.o})
    requires Ingested(pricer, db, d.o, d.checkedAt, d.now, db', d.outcome)
    ensures Reflects(pricer, db', accepted + {d.o})
  {
    if d.o in accepted {
      assert accepted + {d.o} == accepted;
      RedeliveryReflected(pricer, db, d, db', accepted);
      return;
    }
    NewDeliveryReflected(pricer, db, d, db', accepted);
  }

  lemma PricedWithOne(pricer: Pricer, os: set<Observation>, o: Observation)
    ensures pricer(o.view).Some? ==> Priced(pricer, os + {o}) == Priced(pricer, os) + {o}
    ensures pricer(o.view).None? ==> Priced(pricer, os + {o}) == Priced(pricer, os)
  {
  }

  lemma AcceptableReflected(pricer: Pricer, db: Db, d: Delivery, db': Db, os: set<Observation>)
    requires Reflects(pricer, db, Priced(pricer, os)) && !Refused(d.o, d.checkedAt) && pricer(d.o.view).Some?
    requires Coherent(os + {d.o}) && Steady(pricer, os + {d.o})
    requires Ingested(pricer, db, d.o, d.checkedAt, d.now, db', d.outcome)
    ensures Reflects(pricer, db', Priced(pricer, os) + {d.o})
  {
    PricedWithOne(pricer, os, d.o);
    PricedIsPriceable(pricer, os + {d.o});
    PricedDeliveryReflected(pricer, db, d, db', Priced(pricer, os));
  }

  lemma DeliveryReflected(pricer: Pricer, db: Db, d: Delivery, db': Db, os: set<Observation>)
    requires Reflects(pricer, db, Priced(pricer, os)) && !Refused(d.o, d.checkedAt)
    requires Coherent(os + {d.o}) && Steady(pricer, os + {d.o})
    requires Ingested(pricer, db, d.o, d.checkedAt, d.now, db', d.outcome)
    ensures Reflects(pricer, db', Priced(pricer, os + {d.o}))
  {
    PricedWithOne(pricer, os, d.o);
    if pricer(d.o.view).None? {
      UnpricedThrows(pricer, db, d, db', os);
    } else {
      AcceptableReflected(pricer, db, d, db', os);
    }
  }

  lemma DeliveryKeepsRollups(pricer: Pricer, db: Db, d: Delivery, db': Db, since: int)
    requires Ingested(pricer, db, d.o, d.checkedAt, d.now, db', d.outcome)
    requires Keyed(db) && Retention.RollupsExact(db, db.raw.Values, since)
    ensures Retention.RollupsExact(db', db'.raw.Values, since)
  {
    if Committed(d.outcome) {
      var price := Retention.CountedIngest(pricer, db, d.o, d.checkedAt, d.now, db', d.outcome);
      Retention.AcceptKeepsRollups(db, d.o, price, d.now, db', since);
    } else {
      Retention.UncountedIngest(pricer, db, d.o, d.checkedAt, d.now, db', d.outcome);
      SameRowsSameRollups(db, db', since);
    }
  }

  lemma SameRowsSameRollups(db: Db, db': Db, since: int)
    requires SameRows(db, db') && Retention.RollupsExact(db, db.raw.Values, since)
    ensures Retention.RollupsExact(db', db'.raw.Values, since)
  {
    forall kind, bucket | since <= bucket ensures Retention.BucketExact(db', db'.raw.Values, kind, bucket) {
      assert Retention.BucketExact(db, db.raw.Values, kind, bucket);
    }
  }

  lemma StreamStep(pricer: Pricer, states: seq<Db>, deliveries: seq<Delivery>, i: nat)
    requires GoodStream(pricer, states, deliveries) && i < |deliveries|
    requires Reflects(pricer, states[i], Priced(pricer, Delivered(deliveries, i)))
    ensures Reflects(pricer, states[i + 1], Priced(pricer, Delivered(deliveries, i + 1)))
  {
    DeliveredNext(deliveries, i);
    SmallerStillCoherent(pricer, Delivered(deliveries, i + 1), Delivered(deliveries, |deliveries|));
    assert deliveries[i] in deliveries;
    DeliveryReflected(pricer, states[i], deliveries[i], states[i + 1], Delivered(deliveries, i));
  }

  /** After any prefix of a stream the tables reflect the set delivered so far, as far as it can be priced. */
  lemma {:induction false} StreamReflected(pricer: Pricer, states: seq<Db>, deliveries: seq<Delivery>, n: nat)
    requires GoodStream(pricer, states, deliveries) && n < |states|
    ensures Reflects(pricer, states[n], Priced(pricer, Delivered(deliveries, n)))
  {
    if n > 0 {
      StreamReflected(pricer, states, deliveries, n - 1);
      StreamStep(pricer, states, deliveries, n - 1);
    }
  }

  lemma {:induction false} StreamKeepsRollups(pricer: Pricer, states: seq<Db>, deliveries: seq<Delivery>, n: nat,
                                              since: int)
    requires GoodStream(pricer, states, deliveries) && n < |states|
    ensures Retention.RollupsExact(states[n], states[n].raw.Values, since)
  {
    if n > 0 {
      StreamKeepsRollups(pricer, states, deliveries, n - 1, since);
      StreamReflected(pricer, states, deliveries, n - 1);
      DeliveryKeepsRollups(pricer, states[n - 1], deliveries[n - 1], states[n], since);
    }
  }

  // ------------------------------------------------------------- rows up to received times

  function Timeless(r: Row): Row {
    r.(firstReceived := 0, lastReceived := 0)
  }

  ghost function Stripped(rows: set<Row>): set<Row> {
    set r | r in rows :: Timeless(r)
  }

  /// Distinct rows belong to distinct requests.
  ghost predicate OneRowPerRequest(rows: set<Row>) {
    forall a, b | a in rows && b in rows && a.request.id == b.request.id :: a == b
  }

  lemma StripRemove(rows: set<Row>, r: Row)
    requires OneRowPerRequest(rows) && r in rows
    ensures Timeless(r) in Stripped(rows) && Stripped(rows) - {Timeless(r)} == Stripped(rows - {r})
  {
    forall x | x in Stripped(rows) - {Timeless(r)} ensures x in Stripped(rows - {r}) {
      var y :| y in rows && Timeless(y) == x;
      assert y in rows - {r};
    }
    forall x | x in Stripped(rows - {r}) ensures x in Stripped(rows) - {Timeless(r)} {
      var y :| y in rows - {r} && Timeless(y) == x;
      assert y.request.id != r.request.id;
    }
  }

  lemma TimelessMeasure(c: Column, r: Row)
    ensures Measure(c, Timeless(r)) == Measure(c, r)
  {
  }

  lemma {:induction false} StripKeepsSum(rows: set<Row>, c: Column)
    requires OneRowPerRequest(rows)
    ensures Sum(Stripped(rows), c) == Sum(rows, c)
    decreases |rows|
  {
    if rows == {} {
      assert Stripped(rows) == {};
    } else {
      var r :| r in rows;
      StripRemove(rows, r);
      TimelessMeasure(c, r);
      SumRemove(rows, r, c);
      SumRemove(Stripped(rows), Timeless(r), c);
      StripKeepsSum(rows - {r}, c);
    }
  }

  lemma StripKeepsCount(rows: set<Row>)
    requires OneRowPerRequest(rows)
    ensures |Stripped(rows)| == |rows|
  {
    StripKeepsSum(rows, Requests);
    Retention.RequestsCountMembers(rows);
    Retention.RequestsCountMembers(Stripped(rows));
  }

  lemma StripKeepsAggregates(u: Usage, members: set<Row>)
    requires OneRowPerRequest(members) && Aggregates(u, members)
    ensures Aggregates(u, Stripped(members))
  {
    forall c | c in COLUMNS ensures u.sums[c] == Sum(Stripped(members), c) {
      StripKeepsSum(members, c);
    }
    var first :| first in members && first.request.view.occurredAt == u.firstAt;
    assert Timeless(first) in Stripped(members);
    var last :| last in members && last.request.view.occurredAt == u.lastAt;
    assert Timeless(last) in Stripped(members);
  }

  lemma StripCommutes(kind: BucketKind, rows: set<Row>, k: GroupKey, l: LatencyKey)
    ensures Stripped(Members(kind, rows, k)) == Members(kind, Stripped(rows), k)
    ensures Stripped(Samples(kind, rows, l)) == Samples(kind, Stripped(rows), l)
  {
    forall r | r in rows
      ensures KeyOf(kind, Timeless(r)) == KeyOf(kind, r) && Latency(l.metric, Timeless(r)) == Latency(l.metric, r)
    {
    }
  }

  /// Received times play no part in the rollups.
  lemma ExactForStripped(db: Db, rows: set<Row>, kind: BucketKind, bucket: int)
    requires OneRowPerRequest(rows) && Retention.BucketExact(db, rows, kind, bucket)
    ensures Retention.BucketExact(db, Stripped(rows), kind, bucket)
  {
    var l := LatencyKey(GroupKey(bucket, "", "", "", "", "", 0, ""), FirstToken, 0);
    forall k: GroupKey | k.bucket == bucket
      ensures k in UsageOf(db, kind) <==> Members(kind, Stripped(rows), k) != {}
      ensures k in UsageOf(db, kind) ==> Aggregates(UsageOf(db, kind)[k], Members(kind, Stripped(rows), k))
    {
      StripCommutes(kind, rows, k, l);
      StripKeepsCount(Members(kind, rows, k));
      if k in UsageOf(db, kind) {
        StripKeepsAggregates(UsageOf(db, kind)[k], Members(kind, rows, k));
      }
    }
    forall k: LatencyKey | k.group.bucket == bucket
      ensures k in LatencyOf(db, kind) <==> Samples(kind, Stripped(rows), k) != {}
      ensures k in LatencyOf(db, kind) ==> LatencyOf(db, kind)[k] == |Samples(kind, Stripped(rows), k)|
    {
      StripCommutes(kind, rows, k.group, k);
      StripKeepsCount(Samples(kind, rows, k));
    }
  }

  /// Two databases whose buckets are exact for the same rows have the same tables.
  lemma ExactTablesAreEqual(x: Db, y: Db, rows: set<Row>, kind: BucketKind)
    requires forall bucket ::
      Retention.BucketExact(x, rows, kind, bucket) && Retention.BucketExact(y, rows, kind, bucket)
    ensures UsageOf(x, kind) == UsageOf(y, kind) && LatencyOf(x, kind) == LatencyOf(y, kind)
  {
    forall k: GroupKey
      ensures k in UsageOf(x, kind) <==> k in UsageOf(y, kind)
      ensures k in UsageOf(x, kind) ==> UsageOf(x, kind)[k] == UsageOf(y, kind)[k]
    {
      assert Retention.BucketExact(x, rows, kind, k.bucket) && Retention.BucketExact(y, rows, kind, k.bucket);
      if k in UsageOf(x, kind) {
        AggregatesUnique(UsageOf(x, kind)[k], UsageOf(y, kind)[k], Members(kind, rows, k));
      }
    }
    forall k: LatencyKey
      ensures k in LatencyOf(x, kind) <==> k in LatencyOf(y, kind)
      ensures k in LatencyOf(x, kind) ==> LatencyOf(x, kind)[k] == LatencyOf(y, kind)[k]
    {
      assert Retention.BucketExact(x, rows, kind, k.group.bucket) &&
        Retention.BucketExact(y, rows, kind, k.group.bucket);
    }
  }

  // ------------------------------------------------------------------------- the theorem

  ghost predicate SameRawTable(x: Db, y: Db) {
    && x.raw.Keys == y.raw.Keys
    && forall id | id in x.raw :: Timeless(x.raw[id]) == Timeless(y.raw[id])
  }

  ghost predicate SameRollups(x: Db, y: Db) {
    x.hourly == y.hourly && x.daily == y.daily && x.latencyHourly == y.latencyHourly && x.latencyDaily == y.latencyDaily
  }

  lemma ReflectionsAgree(pricer: Pricer, x: Db, y: Db, os: set<Observation>)
    requires RawReflects(pricer, x.raw, os) && RawReflects(pricer, y.raw, os)
    ensures SameRawTable(x, y)
  {
    forall id: Hash ensures Stored(x.raw, id) == Stored(y.raw, id) {
      assert Stored(x.raw, id) == Expected(os, id) == Stored(y.raw, id);
    }
    forall id ensures id in x.raw <==> id in y.raw {
      assert Stored(x.raw, id) == Stored(y.raw, id);
    }
    forall id | id in x.raw ensures Timeless(x.raw[id]) == Timeless(y.raw[id]) {
      assert Stored(x.raw, id) == Stored(y.raw, id);
    }
  }

  lemma SameStrippedRows(x: Db, y: Db)
    requires Keyed(x) && Keyed(y) && SameRawTable(x, y)
    ensures Stripped(x.raw.Values) == Stripped(y.raw.Values)
    ensures OneRowPerRequest(x.raw.Values) && OneRowPerRequest(y.raw.Values)
  {
    forall r | r in Stripped(x.raw.Values) ensures r in Stripped(y.raw.Values) {
      var id :| id in x.raw && Timeless(x.raw[id]) == r;
      assert y.raw[id] in y.raw.Values;
    }
    forall r | r in Stripped(y.raw.Values) ensures r in Stripped(x.raw.Values) {
      var id :| id in y.raw && Timeless(y.raw[id]) == r;
      assert x.raw[id] in x.raw.Values;
    }
  }

  /**
   Two streams that deliver the same set of observations, in any order and with any repetition, end
   in the same raw table, received times aside, and in the same rollups and histograms.
   */
  lemma OrderDoesNotMatter(pricer: Pricer, xs: seq<Db>, xd: seq<Delivery>, ys: seq<Db>, yd: seq<Delivery>)
    requires GoodStream(pricer, xs, xd) && GoodStream(pricer, ys, yd)
    requires Delivered(xd, |xd|) == Delivered(yd, |yd|)
    ensures SameRawTable(xs[|xd|], ys[|yd|])
    ensures SameRollups(xs[|xd|], ys[|yd|])
  {
    var x, y, os := xs[|xd|], ys[|yd|], Priced(pricer, Delivered(xd, |xd|));
    StreamReflected(pricer, xs, xd, |xd|);
    StreamReflected(pricer, ys, yd, |yd|);
    ReflectionsAgree(pricer, x, y, os);
    SameStrippedRows(x, y);
    var rows := Stripped(x.raw.Values);
    forall kind, bucket
      ensures Retention.BucketExact(x, rows, kind, bucket) && Retention.BucketExact(y, rows, kind, bucket)
    {
      StreamKeepsRollups(pricer, xs, xd, |xd|, bucket);
      StreamKeepsRollups(pricer, ys, yd, |yd|, bucket);
      ExactForStripped(x, x.raw.Values, kind, bucket);
      ExactForStripped(y, y.raw.Values, kind, bucket);
    }
    ExactTablesAreEqual(x, y, rows, Hour);
    ExactTablesAreEqual(x, y, rows, Day);
  }

  // ------------------------------------------------------------------- when order does matter

  /// What the raw table keeps of a request that two sources report, one after the other.
  function KeptOfTwo(pricer: Pricer, first: Observation, second: Observation): Option<Request> {
    if pricer(first.view).Some? then
      if pricer(MergeViews(first.view, second.view)).Some? then Merge(NewRequest(first), second)
        else Some(NewRequest(first))
    else if pricer(second.view).Some? then Some(NewRequest(second))
    else None
  }

  /// A stream that delivers these two observations first, and in this order.
  ghost predicate StartsWithTwo(pricer: Pricer, states: seq<Db>, deliveries: seq<Delivery>, first: Observation,
                                second: Observation) {
    && Stream(pricer, states, deliveries) && |deliveries| >= 2
    && deliveries[0].o == first && deliveries[1].o == second
    && !Refused(first, deliveries[0].checkedAt) && !Refused(second, deliveries[1].checkedAt)
  }

  ghost predicate TwoViews(a: Observation, b: Observation) {
    a.kind != b.kind && a.requestId == b.requestId && !ViewsClash(a.view, b.view)
  }

  lemma FirstOfTwo(pricer: Pricer, db: Db, d: Delivery)
    requires Ingested(pricer, EMPTY_DB, d.o, d.checkedAt, d.now, db, d.outcome) && !Refused(d.o, d.checkedAt)
    ensures if pricer(d.o.view).Some?
      then d.o.requestId in db.raw && db.raw[d.o.requestId].request == NewRequest(d.o) &&
        db.receipts.Keys == {ReceiptKeyOf(d.o)}
      else db == EMPTY_DB
  {
  }

  lemma KeptAfterTwo(pricer: Pricer, states: seq<Db>, deliveries: seq<Delivery>, first: Observation,
                     second: Observation)
    requires StartsWithTwo(pricer, states, deliveries, first, second) && TwoViews(first, second)
    ensures Stored(states[2].raw, first.requestId) == KeptOfTwo(pricer, first, second)
  {
    var d0, d1 := deliveries[0], deliveries[1];
    assert Ingested(pricer, states[0], d0.o, d0.checkedAt, d0.now, states[0 + 1], d0.outcome);
    assert Ingested(pricer, states[1], d1.o, d1.checkedAt, d1.now, states[1 + 1], d1.outcome);
    FirstOfTwo(pricer, states[1], d0);
    if pricer(first.view).Some? {
      EitherOrder(first, second);
      assert ReceiptKeyOf(second) !in states[1].receipts;
    } else {
      FirstOfTwo(pricer, states[2], d1);
    }
  }

  lemma KeptDiffers(pricer: Pricer, a: Observation, b: Observation)
    requires TwoViews(a, b) && !SteadyPair(pricer, a.view, b.view)
    ensures KeptOfTwo(pricer, a, b) != KeptOfTwo(pricer, b, a)
  {
    EitherOrder(a, b);
    MergeIsSymmetric(a.view, b.view);
  }

  ghost predicate JustTwo(pricer: Pricer, states: seq<Db>, deliveries: seq<Delivery>, first: Observation,
                          second: Observation) {
    StartsWithTwo(pricer, states, deliveries, first, second) && |deliveries| == 2
  }

  lemma NoSelfClash(v: View)
    ensures !ViewsClash(v, v)
  {
  }

  lemma TwoDoNotClash(a: Observation, b: Observation, x: Observation, y: Observation)
    requires TwoViews(a, b) && x in {a, b} && y in {a, b}
    ensures !ViewsClash(x.view, y.view)
  {
    if x == y {
      NoSelfClash(x.view);
    } else if x == b {
      ConflictIsSymmetric(a.view, b.view);
    }
  }

  lemma TwoAreCoherent(a: Observation, b: Observation)
    requires TwoViews(a, b)
    ensures Coherent({a, b})
  {
    forall x, y | x in {a, b} && y in {a, b} ensures !ViewsClash(x.view, y.view) {
      TwoDoNotClash(a, b, x, y);
    }
  }

  lemma TwoAreSteady(pricer: Pricer, a: Observation, b: Observation)
    requires TwoViews(a, b) && SteadyPair(pricer, a.view, b.view)
    ensures Steady(pricer, {a, b})
  {
    MergeIsSymmetric(a.view, b.view);
  }

  lemma DeliversBoth(pricer: Pricer, states: seq<Db>, deliveries: seq<Delivery>, a: Observation, b: Observation)
    requires JustTwo(pricer, states, deliveries, a, b) && TwoViews(a, b) && SteadyPair(pricer, a.view, b.view)
    ensures Delivered(deliveries, 2) == {a, b} && GoodStream(pricer, states, deliveries)
  {
    assert deliveries[..2] == [deliveries[0], deliveries[1]] == deliveries;
    assert Delivered(deliveries, 2) == {a, b};
    TwoAreCoherent(a, b);
    TwoAreSteady(pricer, a, b);
  }

  /**
   For two sources' views of one request, both orders end in the same raw table if and only if the merged
   view can be priced exactly when both views can, or neither can.
   */
  lemma OrderMattersIff(pricer: Pricer, xs: seq<Db>, xd: seq<Delivery>, ys: seq<Db>, yd: seq<Delivery>,
                        a: Observation, b: Observation)
    requires JustTwo(pricer, xs, xd, a, b) && JustTwo(pricer, ys, yd, b, a) && TwoViews(a, b)
    ensures SameRawTable(xs[2], ys[2]) <==> SteadyPair(pricer, a.view, b.view)
  {
    ConflictIsSymmetric(a.view, b.view);
    MergeIsSymmetric(a.view, b.view);
    if SteadyPair(pricer, a.view, b.view) {
      DeliversBoth(pricer, xs, xd, a, b);
      DeliversBoth(pricer, ys, yd, b, a);
      OrderDoesNotMatter(pricer, xs, xd, ys, yd);
    } else {
      KeptAfterTwo(pricer, xs, xd, a, b);
      KeptAfterTwo(pricer, ys, yd, b, a);
      KeptDiffers(pricer, a, b);
    }
  }

  // ------------------------------------------------------- the condition is exact for any set

  /// A stream that delivers exactly these observations, in some order and with some repetition, none too late.
  ghost predicate Delivers(pricer: Pricer, states: seq<Db>, deliveries: seq<Delivery>, os: set<Observation>) {
    && Stream(pricer, states, deliveries) && Delivered(deliveries, |deliveries|) == os
    && forall d | d in deliveries :: !Refused(d.o, d.checkedAt)
  }

  lemma {:induction false} Enumerate(os: set<Observation>) returns (order: seq<Observation>)
    ensures forall o :: o in order <==> o in os
    decreases |os|
  {
    if os == {} {
      return [];
    }
    var o :| o in os;
    order := Enumerate(os - {o});
    order := order + [o];
  }

  /// Any sequence of observations can be delivered.
  lemma {:induction false} StreamExists(pricer: Pricer, order: seq<Observation>)
    returns (states: seq<Db>, deliveries: seq<Delivery>)
    ensures Stream(pricer, states, deliveries) && |deliveries| == |order|
    ensures forall i | 0 <= i < |order| ::
      deliveries[i].o == order[i] && !Refused(deliveries[i].o, deliveries[i].checkedAt)
  {
    if order == [] {
      return [EMPTY_DB], [];
    }
    var n := |order| - 1;
    var before, earlier := StreamExists(pricer, order[..n]);
    var db, outcome := DoubleCounting.IngestExists(pricer, before[n], order[n], 0, 0);
    states, deliveries := before + [db], earlier + [Delivery(order[n], 0, 0, outcome)];
    forall i | 0 <= i < |deliveries|
      ensures var d := deliveries[i]; Ingested(pricer, states[i], d.o, d.checkedAt, d.now, states[i + 1], d.outcome)
    {
      if i < n {
        assert deliveries[i] == earlier[i] && states[i] == before[i] && states[i + 1] == before[i + 1];
      }
    }
  }

  lemma OtherRequestStays(pricer: Pricer, db: Db, d: Delivery, db': Db, id: Hash)
    requires Ingested(pricer, db, d.o, d.checkedAt, d.now, db', d.outcome) && d.o.requestId != id
    ensures Stored(db'.raw, id) == Stored(db.raw, id)
  {
  }

  /// Deliveries of other requests leave a request alone.
  lemma {:induction false} OthersLeaveRequest(pricer: Pricer, states: seq<Db>, deliveries: seq<Delivery>, id: Hash,
                                              from: nat, n: nat)
    requires Stream(pricer, states, deliveries) && from <= n < |states|
    requires forall i | from <= i < |deliveries| :: deliveries[i].o.requestId != id
    ensures Stored(states[n].raw, id) == Stored(states[from].raw, id)
  {
    if from < n {
      OthersLeaveRequest(pricer, states, deliveries, id, from, n - 1);
      OtherRequestStays(pricer, states[n - 1], deliveries[n - 1], states[n], id);
    }
  }

  /// Of a coherent set, only the two sources' observations are about their request.
  lemma OnlyTwoOfRequest(os: set<Observation>, a: Observation, b: Observation, o: Observation)
    requires Coherent(os) && a in os && b in os && TwoViews(a, b) && o in os - {a, b}
    ensures o.requestId != a.requestId
  {
    assert o.kind == a.kind || o.kind == b.kind;
  }

  lemma TwoFirst(os: set<Observation>, a: Observation, b: Observation) returns (order: seq<Observation>)
    requires Coherent(os) && a in os && b in os && TwoViews(a, b)
    ensures |order| >= 2 && order[0] == a && order[1] == b && forall o :: o in order <==> o in os
    ensures forall i | 2 <= i < |order| :: order[i].requestId != a.requestId
  {
    var rest := Enumerate(os - {a, b});
    order := [a, b] + rest;
    forall o ensures o in order <==> o in os {
      assert o in order <==> o == a || o == b || o in rest;
    }
    forall i | 2 <= i < |order| ensures order[i].requestId != a.requestId {
      assert order[i] == rest[i - 2];
      OnlyTwoOfRequest(os, a, b, order[i]);
    }
  }

  /// A stream of the whole set that begins with two of its observations.
  lemma BeginsWith(pricer: Pricer, os: set<Observation>, a: Observation, b: Observation)
    returns (states: seq<Db>, deliveries: seq<Delivery>)
    requires Coherent(os) && a in os && b in os && TwoViews(a, b)
    ensures Delivers(pricer, states, deliveries, os) && StartsWithTwo(pricer, states, deliveries, a, b)
    ensures Stored(states[|deliveries|].raw, a.requestId) == KeptOfTwo(pricer, a, b)
  {
    var order := TwoFirst(os, a, b);
    states, deliveries := StreamExists(pricer, order);
    DeliveredAre(deliveries, order);
    assert Delivered(deliveries, |deliveries|) == os;
    assert deliveries[0].o == order[0] && deliveries[1].o == order[1];
    KeptAfterTwo(pricer, states, deliveries, a, b);
    forall i | 2 <= i < |deliveries| ensures deliveries[i].o.requestId != a.requestId {
      assert deliveries[i].o == order[i];
    }
    OthersLeaveRequest(pricer, states, deliveries, a.requestId, 2, |deliveries|);
  }

  lemma DeliveredAre(deliveries: seq<Delivery>, order: seq<Observation>)
    requires |deliveries| == |order| && forall i | 0 <= i < |order| :: deliveries[i].o == order[i]
    ensures forall o :: o in Delivered(deliveries, |deliveries|) <==> o in order
  {
    assert deliveries[..|deliveries|] == deliveries;
    forall o | o in order ensures o in Delivered(deliveries, |deliveries|) {
      var i :| 0 <= i < |order| && order[i] == o;
      assert deliveries[i] in deliveries;
    }
    forall o | o in Delivered(deliveries, |deliveries|) ensures o in order {
      var d :| d in deliveries && d.o == o;
      var i :| 0 <= i < |deliveries| && deliveries[i] == d;
      assert order[i] == o;
    }
  }

  /// All streams of the set end in the same raw table.
  ghost predicate OrderFree(pricer: Pricer, os: set<Observation>) {
    forall xs, xd, ys, yd | Delivers(pricer, xs, xd, os) && Delivers(pricer, ys, yd, os) ::
      SameRawTable(xs[|xd|], ys[|yd|])
  }

  /// Two streams of a set that is not steady, with different raw tables.
  lemma UnsteadyDiffers(pricer: Pricer, os: set<Observation>, a: Observation, b: Observation)
    returns (xs: seq<Db>, xd: seq<Delivery>, ys: seq<Db>, yd: seq<Delivery>)
    requires Coherent(os) && a in os && b in os && TwoViews(a, b) && !SteadyPair(pricer, a.view, b.view)
    ensures Delivers(pricer, xs, xd, os) && Delivers(pricer, ys, yd, os) && !SameRawTable(xs[|xd|], ys[|yd|])
  {
    ConflictIsSymmetric(a.view, b.view);
    xs, xd := BeginsWith(pricer, os, a, b);
    ys, yd := BeginsWith(pricer, os, b, a);
    KeptDiffers(pricer, a, b);
    assert Stored(xs[|xd|].raw, a.requestId) != Stored(ys[|yd|].raw, a.requestId);
  }

  /**
   The condition is exact: all streams that deliver a coherent set of observations end in the same raw
   table if and only if, of any two sources' views of a request, the merged view can be priced exactly
   when both can, or neither can.
   */
  lemma OrderFreeIffSteady(pricer: Pricer, os: set<Observation>)
    requires Coherent(os)
    ensures OrderFree(pricer, os) <==> Steady(pricer, os)
  {
    if Steady(pricer, os) {
      forall xs, xd, ys, yd | Delivers(pricer, xs, xd, os) && Delivers(pricer, ys, yd, os)
        ensures SameRawTable(xs[|xd|], ys[|yd|])
      {
        OrderDoesNotMatter(pricer, xs, xd, ys, yd);
      }
      return;
    }
    var a, b :| a in os && b in os && a.kind != b.kind && a.requestId == b.requestId &&
      !SteadyPair(pricer, a.view, b.view);
    var xs, xd, ys, yd := UnsteadyDiffers(pricer, os, a, b);
  }
}
