/** Which rows the moderation queue lists, in what order and how many, told from the rows and the query. */
module SubmissionContents {
  import opened Basics
  import opened CaseFold
  import opened StringOrder
  import opened SubmissionCursor
  import opened SubmissionOrder
  import opened SubmissionQueue
  import opened SubmissionTotals

  /** A decided status of rows that people contributed: listed by when they were decided. */
  predicate DecidedView(query: Query) {
    query.status != PENDING && (query.userId != "" || query.source == Some(Contributed))
  }

  predicate WrittenBy(row: Row, query: Query) {
    if query.userId != "" then row.submittedById == Some(query.userId)
    else
      && (query.source == Some(Contributed) ==> row.submittedById != None)
      && (query.source == Some(Ingested) ==> row.submittedById == None)
  }

  /** The name of the row's company; of a company itself, its own; of a firm edit, the firm's. */
  predicate Named(t: string, row: Row, text: string) {
    match t
    case "company" => row.name.Some? && ContainsInsensitive(row.name.value, text)
    case "investorProposal" => row.investorName.Some? && ContainsInsensitive(row.investorName.value, text)
    case _ => row.companyName.Some? && ContainsInsensitive(row.companyName.value, text)
  }

  /** The queue lists the row, at this time. */
  predicate Listed(t: string, row: Row, query: Query, at: string) {
    && row.status == query.status && WrittenBy(row, query)
    && (if DecidedView(query) then row.reviewedAt == Some(at) else row.createdAt == at)
    && (query.q != "" ==> Named(t, row, query.q))
  }

  lemma MatchesMeans(db: Tables, query: Query, t: string, x: Item)
    requires ValidTables(db) && t in db.kinds
    ensures x in Matching(db, query, t, None) <==>
      x.kind == t && x.id in db.rows[t] && Listed(t, db.rows[t][x.id], query, x.at)
  {
    hide ContainsInsensitive;
    if x in Matching(db, query, t, None) {
      var id :| id in db.rows[t] && Matches(t, db.rows[t][id], query) && x == ItemOf(t, id, db.rows[t][id], query);
    }
  }

  /** A full crawl lists exactly the rows of the wanted tables that the query asks for. */
  lemma {:induction false} CrawlHoldsExactly(db: Tables, query: Query, pageSize: nat, pages: seq<Page>, x: Item)
    requires ValidTables(db) && ValidQuery(db, query) && pageSize >= 1
    requires pages != [] && Crawled(db, query, pageSize, pages) && pages[|pages| - 1].nextCursor == None
    ensures x in Items(pages) <==>
      && x.kind in db.kinds && (query.kind == None || query.kind == Some(x.kind))
      && x.id in db.rows[x.kind] && Listed(x.kind, db.rows[x.kind][x.id], query, x.at)
  {
    hide Listed, Crawled, Matching;
    var got := CrawlIsPrefix(db, query, pageSize, pages);
    var queue := Queue(db, query);
    assert got == |queue| && queue[..got] == queue;
    assert x in Items(pages) <==> x in Elements(queue);
    forall t | t in db.kinds
      ensures x in Matching(db, query, t, None) <==>
        x.kind == t && x.id in db.rows[t] && Listed(t, db.rows[t][x.id], query, x.at)
    {
      MatchesMeans(db, query, t, x);
    }
  }

  /** Newest first; at the same time by type, forwards; within a type by id, backwards. */
  ghost predicate InOrder(items: seq<Item>) {
    forall i, j :: 0 <= i < j < |items| ==>
      || Less(items[j].at, items[i].at)
      || (items[j].at == items[i].at && Less(items[i].kind, items[j].kind))
      || (items[j].at == items[i].at && items[i].kind == items[j].kind && Less(items[j].id, items[i].id))
  }

  /** However far it went, a crawl lists its rows in that order, and no row twice. */
  lemma CrawlInOrder(db: Tables, query: Query, pageSize: nat, pages: seq<Page>)
    requires ValidTables(db) && ValidQuery(db, query) && pageSize >= 1
    requires pages != [] && Crawled(db, query, pageSize, pages)
    ensures InOrder(Items(pages)) && Distinct(Items(pages))
  {
    hide Crawled, Items, Queue;
    var got := CrawlIsPrefix(db, query, pageSize, pages);
    QueueOrdered(db, query);
    var queue, items := Queue(db, query), Items(pages);
    assert items == queue[..got];
    forall i, j | 0 <= i < j < |items| ensures Before(items[i], items[j]) && items[i] != items[j] {
      assert items[i] == queue[i] && items[j] == queue[j];
      BeforeStrict(queue[i], queue[j]);
    }
  }

  lemma QueueOrdered(db: Tables, query: Query)
    requires ValidTables(db)
    ensures Ordered(Queue(db, query))
  {
  }

  /** A count per type, of the rows of that type the query asks for, whatever its page. */
  lemma {:induction false} CountsMeans(db: Tables, query: Query, t: string)
    requires ValidTables(db) && t in db.kinds
    ensures CountsByType(db, query).Keys == Elements(db.kinds)
    ensures CountsByType(db, query)[t] == |set id | id in db.rows[t] && ListedAtAll(t, db.rows[t][id], query)|
  {
    hide Listed;
    var rows := set id | id in db.rows[t] && ListedAtAll(t, db.rows[t][id], query);
    var items := Matching(db, query, t, None);
    forall x ensures x in items <==> x.kind == t && x.id in db.rows[t] && Listed(t, db.rows[t][x.id], query, x.at) {
      MatchesMeans(db, query, t, x);
    }
    ListedOnce(db, query, t);
    forall id | id in rows ensures exists x :: x in items && x.id == id {
      var row := db.rows[t][id];
      var at :| at in {row.createdAt, if row.reviewedAt.Some? then row.reviewedAt.value else row.createdAt}
        && Listed(t, row, query, at);
      assert Item(at, t, id) in items;
    }
    SameNumber(rows, items);
  }

  predicate ListedAtAll(t: string, row: Row, query: Query) {
    exists at | at in {row.createdAt, if row.reviewedAt.Some? then row.reviewedAt.value else row.createdAt} ::
      Listed(t, row, query, at)
  }

  lemma ListedOnce(db: Tables, query: Query, t: string)
    requires ValidTables(db) && t in db.kinds
    ensures forall id, at :: id in db.rows[t] && Listed(t, db.rows[t][id], query, at) ==>
      ListedAtAll(t, db.rows[t][id], query)
    ensures forall id, at, other ::
      (id in db.rows[t] && Listed(t, db.rows[t][id], query, at) && Listed(t, db.rows[t][id], query, other)) ==>
        at == other
  {
    hide ContainsInsensitive;
  }

  /** Items told apart by their ids are as many as the ids. */
  lemma {:induction false} SameNumber(ids: set<string>, items: set<Item>)
    requires forall x :: x in items ==> x.id in ids
    requires forall x, y :: x in items && y in items && x.id == y.id ==> x == y
    requires forall id :: id in ids ==> exists x :: x in items && x.id == id
    ensures |ids| == |items|
  {
    if ids != {} {
      var id :| id in ids;
      var x :| x in items && x.id == id;
      forall other | other in ids - {id} ensures exists y :: y in items - {x} && y.id == other {
        var y :| y in items && y.id == other;
        assert y in items - {x};
      }
      SameNumber(ids - {id}, items - {x});
    } else {
      assert items == {};
    }
  }

  lemma RequestCounts(db: Tables, query: Query, before: string)
    requires ValidTables(db) && ValidQuery(db, query)
    ensures CountsByType(db, query.(before := before)) == CountsByType(db, query)
    ensures Total(db, query.(before := before)) == Total(db, query)
  {
    forall t | t in db.kinds
      ensures Matching(db, query.(before := before), t, None) == Matching(db, query, t, None)
    {
      assert forall id :: id in db.rows[t] ==>
        Matches(t, db.rows[t][id], query.(before := before)) == Matches(t, db.rows[t][id], query);
    }
  }

  /** Each page of a full crawl tells how many rows the crawl lists in all, and how many of each type. */
  lemma {:induction false} PagesTellTotals(db: Tables, query: Query, pageSize: nat, pages: seq<Page>, k: nat)
    requires ValidTables(db) && ValidQuery(db, query) && pageSize >= 1 && k < |pages|
    requires Crawled(db, query, pageSize, pages) && pages[|pages| - 1].nextCursor == None
    ensures pages[k].total == |Items(pages)|
    ensures forall t :: t in db.kinds ==>
      && t in pages[k].countsByType
      && pages[k].countsByType[t] == |set id | id in db.rows[t] && ListedAtAll(t, db.rows[t][id], query)|
  {
    hide Items, Total, Queue, ListedAtAll;
    var got := CrawlIsPrefix(db, query, pageSize, pages);
    TotalIsQueueLength(db, query);
    assert Fetched(db, query, pageSize, pages, k);
    RequestCounts(db, query, Request(query, pages, k).before);
    PageCarries(db, Request(query, pages, k), pageSize);
    forall t | t in db.kinds
      ensures t in pages[k].countsByType
      ensures pages[k].countsByType[t] == |set id | id in db.rows[t] && ListedAtAll(t, db.rows[t][id], query)|
    {
      CountsMeans(db, query, t);
    }
  }

  lemma PageCarries(db: Tables, query: Query, pageSize: nat)
    requires ValidTables(db) && ValidQuery(db, query) && pageSize >= 1
    ensures var r := ListSubmissions(db, query, pageSize);
      r.Ok? ==> r.value.total == Total(db, query) && r.value.countsByType == CountsByType(db, query)
  {
  }

  // ----- cursors ------------------------------------------------------------------------------------------

  /** A time, a type and an id as a cursor joins them. */
  ghost predicate IsCursor(kinds: seq<string>, raw: string) {
    exists at, kind, id :: IsIso(at) && kind in kinds && id != "" && raw == at + "_" + kind + "_" + id
  }

  /** A page is refused exactly when its cursor is no such thing; a missing one asks for the first page. */
  lemma RefusedExactlyWhen(db: Tables, query: Query, pageSize: nat)
    requires ValidTables(db) && ValidQuery(db, query) && pageSize >= 1
    ensures ListSubmissions(db, query, pageSize).Err? <==> query.before != "" && !IsCursor(db.kinds, query.before)
  {
    hide ReadPage, IsIso;
    var raw := query.before;
    if Parse(db.kinds, raw).Ok? {
      var item := Parse(db.kinds, raw).value;
      CursorRoundTrip(db.kinds, item, raw);
      assert raw == item.at + "_" + item.kind + "_" + item.id;
    }
    if at, kind, id :| IsIso(at) && kind in db.kinds && id != "" && raw == at + "_" + kind + "_" + id {
      CursorRoundTrip(db.kinds, Item(at, kind, id), raw);
    }
  }
}
