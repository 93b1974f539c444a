/**
 Keyset paging through `recent`: following the cursor while ingests go on in between returns
 every row that was there at the start and keeps matching exactly once, in strictly decreasing
 key order. It rests on enrichment never changing a row's key.
 */
module Paging {
  import opened Basics
  import opened Pricing
  import opened Requests
  import opened Rollup
  import opened Engine
  import opened Queries
  import Retention

  datatype Ingest = Ingest(o: Observation, checkedAt: int, now: int, outcome: Outcome)

  /// Ingests from any table on; nothing is purged.
  ghost predicate Ingests(pricer: Pricer, states: seq<Db>, ingests: seq<Ingest>) {
    && |states| == |ingests| + 1 && Keyed(states[0])
    && forall i | 0 <= i < |ingests| ::
         var d := ingests[i];
         Ingested(pricer, states[i], d.o, d.checkedAt, d.now, states[i + 1], d.outcome)
  }

  type RawTable = map<Hash, Row>

  function CursorOf(pages: seq<Page>, i: nat): Option<Key>
    requires i <= |pages|
  {
    if i == 0 then None else pages[i - 1].nextCursor
  }

  /// Page `i` is read from `tables[i]`, from the cursor that the page before it gave.
  ghost predicate ReadAt(tables: seq<RawTable>, f: Filters, limit: nat, pages: seq<Page>, i: nat)
    requires i < |tables| == |pages|
  {
    PageOf(tables[i].Values, f, CursorOf(pages, i), limit, pages[i])
  }

  /// One page after the other, each from where the one before it ended.
  ghost predicate Session(tables: seq<RawTable>, f: Filters, limit: nat, pages: seq<Page>) {
    && limit > 0 && |tables| == |pages| > 0
    && (forall i | 0 <= i < |pages| :: ReadAt(tables, f, limit, pages, i))
    && (forall i | 0 <= i < |pages| - 1 :: pages[i].nextCursor.Some?)
  }

  /// The tables of the pages are those of a run of ingests, in order.
  ghost predicate ReadDuring(pricer: Pricer, states: seq<Db>, ingests: seq<Ingest>, times: seq<nat>,
                             tables: seq<RawTable>) {
    && Ingests(pricer, states, ingests) && |times| == |tables|
    && (forall i | 0 <= i < |times| :: times[i] < |states| && tables[i] == states[times[i]].raw)
    && (forall i, j | 0 <= i <= j < |times| :: times[i] <= times[j])
  }

  /// The reader has reached the end.
  ghost predicate Finished(pages: seq<Page>) {
    |pages| > 0 && pages[|pages| - 1].nextCursor.None?
  }

  /// The items of the first `n` pages, one after the other.
  function Returned(pages: seq<Page>, n: nat): seq<Row>
    requires n <= |pages|
  {
    if n == 0 then [] else Returned(pages, n - 1) + pages[n - 1].items
  }

  lemma {:induction false} ReturnedFrom(pages: seq<Page>, n: nat, r: Row) returns (i: nat)
    requires n <= |pages| && r in Returned(pages, n)
    ensures i < n && r in pages[i].items
  {
    if r in pages[n - 1].items {
      return n - 1;
    }
    i := ReturnedFrom(pages, n - 1, r);
  }

  // -------------------------------------------------------------------- keys never change

  /// Every row stays, under the same key.
  ghost predicate KeysStay(raw: map<Hash, Row>, raw': map<Hash, Row>) {
    forall id | id in raw :: id in raw' && RowKey(raw'[id]) == RowKey(raw[id])
  }

  lemma IngestKeepsKeys(pricer: Pricer, db: Db, d: Ingest, db': Db)
    requires Keyed(db) && Ingested(pricer, db, d.o, d.checkedAt, d.now, db', d.outcome)
    ensures Keyed(db') && KeysStay(db.raw, db'.raw)
  {
    if Committed(d.outcome) {
      var price := Retention.CountedIngest(pricer, db, d.o, d.checkedAt, d.now, db', d.outcome);
      Retention.AcceptedRow(db, d.o, price, d.now, db');
    } else {
      Retention.UncountedIngest(pricer, db, d.o, d.checkedAt, d.now, db', d.outcome);
    }
  }

  /** However a row is enriched, its place in the order stays. */
  lemma {:induction false} KeysStayThroughout(pricer: Pricer, states: seq<Db>, ingests: seq<Ingest>, i: nat, j: nat)
    requires Ingests(pricer, states, ingests) && i <= j < |states|
    ensures Keyed(states[j]) && KeysStay(states[i].raw, states[j].raw)
    decreases j
  {
    if j > 0 {
      KeysStayThroughout(pricer, states, ingests, if i < j then i else j - 1, j - 1);
      IngestKeepsKeys(pricer, states[j - 1], ingests[j - 1], states[j]);
    }
  }

  ghost predicate KeyedTable(raw: RawTable) {
    forall id | id in raw :: raw[id].request.id == id
  }

  /// What the pages of a run have in common: rows stay where they are in the order.
  ghost predicate Stable(tables: seq<RawTable>) {
    |tables| > 0 && forall i | 0 <= i < |tables| :: KeyedTable(tables[i]) && KeysStay(tables[0], tables[i])
  }

  lemma TablesAreStable(pricer: Pricer, states: seq<Db>, ingests: seq<Ingest>, times: seq<nat>, tables: seq<RawTable>)
    requires ReadDuring(pricer, states, ingests, times, tables) && |tables| > 0
    ensures Stable(tables)
  {
    forall i | 0 <= i < |tables| ensures KeyedTable(tables[i]) && KeysStay(tables[0], tables[i]) {
      KeysStayThroughout(pricer, states, ingests, times[0], times[i]);
    }
  }

  // ------------------------------------------------------------------------ decreasing keys

  /// A page's keys decrease from below its cursor down to the cursor it gives.
  ghost predicate PageInOrder(cursor: Option<Key>, page: Page) {
    && Descending(page.items)
    && (cursor.Some? ==> forall r | r in page.items :: Before(RowKey(r), cursor.value))
    && (page.nextCursor.Some? ==> page.items != [] && page.nextCursor.value == RowKey(page.items[|page.items| - 1]))
  }

  lemma DescendingConcat(a: seq<Row>, b: seq<Row>)
    requires Descending(a) && Descending(b)
    requires a != [] ==> forall r | r in b :: Before(RowKey(r), RowKey(a[|a| - 1]))
    ensures Descending(a + b)
  {
    forall i, j | 0 <= i < j < |a + b| ensures Before(RowKey((a + b)[j]), RowKey((a + b)[i])) {
      if i < |a| <= j {
        assert b[j - |a|] in b;
        assert i < |a| - 1 ==> Before(RowKey(a[|a| - 1]), RowKey(a[i]));
      }
    }
  }

  /// The cursor, if any, is the last key returned.
  predicate CursorIsLast(items: seq<Row>, cursor: Option<Key>) {
    cursor.Some? ==> items != [] && cursor.value == RowKey(items[|items| - 1])
  }

  lemma NextPageInOrder(before: seq<Row>, cursor: Option<Key>, page: Page)
    requires Descending(before) && CursorIsLast(before, cursor) && PageInOrder(cursor, page)
    requires cursor.None? ==> before == []
    ensures Descending(before + page.items) && CursorIsLast(before + page.items, page.nextCursor)
  {
    DescendingConcat(before, page.items);
  }

  ghost predicate InOrderAt(pages: seq<Page>, i: nat)
    requires i < |pages|
  {
    PageInOrder(CursorOf(pages, i), pages[i]) && (i + 1 < |pages| ==> pages[i].nextCursor.Some?)
  }

  lemma {:induction false} PagesInOrder(pages: seq<Page>, n: nat)
    requires n <= |pages| && forall i | 0 <= i < |pages| :: InOrderAt(pages, i)
    ensures Descending(Returned(pages, n)) && CursorIsLast(Returned(pages, n), CursorOf(pages, n))
  {
    if n > 0 {
      PagesInOrder(pages, n - 1);
      assert InOrderAt(pages, n - 1) && (n > 1 ==> InOrderAt(pages, n - 2));
      NextPageInOrder(Returned(pages, n - 1), CursorOf(pages, n - 1), pages[n - 1]);
    }
  }

  /** Keys strictly decrease within pages and across them, whatever happens to the table in between. */
  lemma KeysDecrease(tables: seq<RawTable>, f: Filters, limit: nat, pages: seq<Page>)
    requires Session(tables, f, limit, pages)
    ensures Descending(Returned(pages, |pages|))
  {
    forall i | 0 <= i < |pages| ensures InOrderAt(pages, i) {
      assert ReadAt(tables, f, limit, pages, i);
    }
    PagesInOrder(pages, |pages|);
  }

  // ---------------------------------------------------------------------- nothing is missed

  /// A row that the filters admit in one table.
  predicate MatchesIn(raw: RawTable, f: Filters, id: Hash) {
    id in raw && RowMatches(f, raw[id]) && f.from <= raw[id].request.view.occurredAt < f.to
  }

  ghost predicate Shows(items: seq<Row>, id: Hash) {
    exists i | 0 <= i < |items| :: items[i].request.id == id
  }

  /// A page does not pass over the row: it shows it, or leaves it behind its own cursor.
  ghost predicate DoesNotSkip(cursor: Option<Key>, page: Page, id: Hash, key: Key) {
    (cursor.Some? ==> Before(key, cursor.value)) ==>
      Shows(page.items, id) || (page.nextCursor.Some? && Before(key, page.nextCursor.value))
  }

  lemma PageDoesNotSkip(raw: RawTable, f: Filters, cursor: Option<Key>, limit: nat, page: Page, id: Hash)
    requires PageOf(raw.Values, f, cursor, limit, page) && KeyedTable(raw) && MatchesIn(raw, f, id)
    ensures DoesNotSkip(cursor, page, id, RowKey(raw[id]))
  {
    var r := raw[id];
    if (cursor.Some? ==> Before(RowKey(r), cursor.value)) {
      assert r in Eligible(raw.Values, f, cursor);
      if r in page.items {
        var i :| 0 <= i < |page.items| && page.items[i] == r;
      }
    }
  }

  lemma ShowsIn(a: seq<Row>, b: seq<Row>, id: Hash)
    ensures Shows(a + b, id) <==> Shows(a, id) || Shows(b, id)
  {
    if Shows(a + b, id) {
      var i :| 0 <= i < |a + b| && (a + b)[i].request.id == id;
      assert if i < |a| then a[i].request.id == id else b[i - |a|].request.id == id;
    }
    if Shows(a, id) {
      var i :| 0 <= i < |a| && a[i].request.id == id;
      assert (a + b)[i].request.id == id;
    }
    if Shows(b, id) {
      var i :| 0 <= i < |b| && b[i].request.id == id;
      assert (a + b)[|a| + i].request.id == id;
    }
  }

  ghost predicate NoSkipAt(pages: seq<Page>, i: nat, id: Hash, key: Key)
    requires i < |pages|
  {
    DoesNotSkip(CursorOf(pages, i), pages[i], id, key)
  }

  lemma {:induction false} ReturnedOrStillToCome(pages: seq<Page>, n: nat, id: Hash, key: Key)
    requires n <= |pages| && forall i | 0 <= i < |pages| :: NoSkipAt(pages, i, id, key)
    ensures n > 0 ==>
      Shows(Returned(pages, n), id) || (CursorOf(pages, n).Some? && Before(key, CursorOf(pages, n).value))
  {
    if n > 0 {
      ReturnedOrStillToCome(pages, n - 1, id, key);
      assert NoSkipAt(pages, n - 1, id, key);
      ShowsIn(Returned(pages, n - 1), pages[n - 1].items, id);
    }
  }

  lemma NothingIsMissed(tables: seq<RawTable>, f: Filters, limit: nat, pages: seq<Page>, id: Hash)
    requires Session(tables, f, limit, pages) && Stable(tables) && Finished(pages)
    requires forall raw | raw in tables :: MatchesIn(raw, f, id)
    ensures Shows(Returned(pages, |pages|), id)
  {
    assert tables[0] in tables;
    var key := RowKey(tables[0][id]);
    forall i | 0 <= i < |pages| ensures NoSkipAt(pages, i, id, key) {
      assert ReadAt(tables, f, limit, pages, i);
      assert tables[i] in tables && KeysStay(tables[0], tables[i]);
      PageDoesNotSkip(tables[i], f, CursorOf(pages, i), limit, pages[i], id);
    }
    ReturnedOrStillToCome(pages, |pages|, id, key);
  }

  lemma ReturnedIsStored(tables: seq<RawTable>, f: Filters, limit: nat, pages: seq<Page>, r: Row) returns (i: nat)
    requires Session(tables, f, limit, pages) && r in Returned(pages, |pages|)
    ensures i < |tables| && r in Eligible(tables[i].Values, f, CursorOf(pages, i))
  {
    i := ReturnedFrom(pages, |pages|, r);
    assert ReadAt(tables, f, limit, pages, i);
  }

  /// A returned row of a request has the key that the request has in the first table.
  lemma SameKey(tables: seq<RawTable>, f: Filters, limit: nat, pages: seq<Page>, r: Row)
    requires Session(tables, f, limit, pages) && Stable(tables)
    requires r in Returned(pages, |pages|) && r.request.id in tables[0]
    ensures RowKey(r) == RowKey(tables[0][r.request.id])
  {
    var i := ReturnedIsStored(tables, f, limit, pages, r);
    var id :| id in tables[i] && tables[i][id] == r;
    assert KeyedTable(tables[i]) && KeysStay(tables[0], tables[i]);
  }

  lemma DistinctPlaces(items: seq<Row>, i: nat, j: nat)
    requires Descending(items) && i < |items| && j < |items| && RowKey(items[i]) == RowKey(items[j])
    ensures i == j
  {
  }

  /**
   Following the cursor to the end, with any ingests in between, returns every row that was there
   at the first page and that the filters admit at every page, exactly once.
   */
  lemma EveryRowExactlyOnce(pricer: Pricer, states: seq<Db>, ingests: seq<Ingest>, times: seq<nat>,
                            tables: seq<RawTable>,
                            f: Filters, limit: nat, pages: seq<Page>, id: Hash) returns (at: nat)
    requires ReadDuring(pricer, states, ingests, times, tables)
    requires Session(tables, f, limit, pages) && Finished(pages)
    requires forall raw | raw in tables :: MatchesIn(raw, f, id)
    ensures var all := Returned(pages, |pages|);
      at < |all| && forall i | 0 <= i < |all| :: all[i].request.id == id <==> i == at
  {
    var all := Returned(pages, |pages|);
    TablesAreStable(pricer, states, ingests, times, tables);
    NothingIsMissed(tables, f, limit, pages, id);
    KeysDecrease(tables, f, limit, pages);
    at :| 0 <= at < |all| && all[at].request.id == id;
    assert tables[0] in tables;
    forall i | 0 <= i < |all| && all[i].request.id == id ensures i == at {
      assert all[i] in all && all[at] in all;
      SameKey(tables, f, limit, pages, all[i]);
      SameKey(tables, f, limit, pages, all[at]);
      DistinctPlaces(all, i, at);
    }
  }

  // -------------------------------------------------------------------------- static tables

  /** On a table that does not change, the pages concatenate to the sorted, filtered table. */
  lemma StaticPagesConcatenate(raw: RawTable, tables: seq<RawTable>, f: Filters, limit: nat, pages: seq<Page>)
    requires KeyedTable(raw) && Session(tables, f, limit, pages) && Finished(pages)
    requires forall i | 0 <= i < |tables| :: tables[i] == raw
    ensures Descending(Returned(pages, |pages|))
    ensures (set r | r in Returned(pages, |pages|)) == Eligible(raw.Values, f, None)
  {
    var all := Returned(pages, |pages|);
    KeysDecrease(tables, f, limit, pages);
    forall r | r in all ensures r in Eligible(raw.Values, f, None) {
      var i := ReturnedIsStored(tables, f, limit, pages, r);
    }
    forall r | r in Eligible(raw.Values, f, None) ensures r in all {
      StaticRowReturned(raw, tables, f, limit, pages, r);
    }
  }

  lemma StaticRowReturned(raw: RawTable, tables: seq<RawTable>, f: Filters, limit: nat, pages: seq<Page>, r: Row)
    requires KeyedTable(raw) && Session(tables, f, limit, pages) && Finished(pages)
    requires forall i | 0 <= i < |tables| :: tables[i] == raw
    requires r in Eligible(raw.Values, f, None)
    ensures r in Returned(pages, |pages|)
  {
    var all, id := Returned(pages, |pages|), r.request.id;
    assert raw[id] == r;
    NothingIsMissed(tables, f, limit, pages, id);
    var i :| 0 <= i < |all| && all[i].request.id == id;
    var page := ReturnedIsStored(tables, f, limit, pages, all[i]);
  }

  // --------------------------------------------------------------- one page, field by field

  /// The filter is not given, or the row's own value is the one that it gives.
  predicate Passes(filter: Option<string>, value: Option<string>) {
    filter == None || filter == value
  }

  /// Later, or at the same time with the greater id.
  predicate IsLater(r: Row, at: int, id: Hash) {
    r.request.view.occurredAt > at || (r.request.view.occurredAt == at && r.request.id > id)
  }

  predicate IsEarlier(r: Row, at: int, id: Hash) {
    r.request.view.occurredAt < at || (r.request.view.occurredAt == at && r.request.id < id)
  }

  /// The row may be shown after the cursor.
  predicate MayShow(f: Filters, cursor: Option<Key>, r: Row) {
    var v := r.request.view;
    && f.from <= v.occurredAt && v.occurredAt < f.to
    && Passes(f.route, Some(v.route)) && Passes(f.provider, Some(v.provider)) && Passes(f.model, Some(v.model))
    && Passes(f.account, v.account) && Passes(f.apiKey, v.apiKey)
    && (cursor.Some? ==> IsEarlier(r, cursor.value.at, cursor.value.id))
  }

  /**
   A page shows rows of the range that match every filter given and lie before the cursor, latest first, ties by
   the greater id; all that it leaves out come later in that order, and its cursor is its last row.
   */
  lemma PageIsLatestFirst(rows: set<Row>, f: Filters, cursor: Option<Key>, limit: nat, page: Page)
    requires PageOf(rows, f, cursor, limit, page)
    ensures forall r | r in page.items :: r in rows && MayShow(f, cursor, r)
    ensures forall i, j | 0 <= i < j < |page.items| ::
      IsLater(page.items[i], page.items[j].request.view.occurredAt, page.items[j].request.id)
    ensures forall r, i | r in rows && MayShow(f, cursor, r) && r !in page.items && 0 <= i < |page.items| ::
      IsLater(page.items[i], r.request.view.occurredAt, r.request.id)
    ensures page.nextCursor.Some? ==> |page.items| == limit && limit > 0
    ensures page.nextCursor.Some? ==>
      page.nextCursor.value == Key(page.items[limit - 1].request.view.occurredAt, page.items[limit - 1].request.id)
    ensures page.nextCursor.None? <==> forall r | r in rows && MayShow(f, cursor, r) :: r in page.items
  {
    forall r ensures r in Eligible(rows, f, cursor) <==> r in rows && MayShow(f, cursor, r) {
    }
  }
}
