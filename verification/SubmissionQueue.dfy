/**
 * The moderation queue: a page is cut from what each table has next, one row more than a page of it.
 * Following the cursors visits the whole filtered nine-table list, in order, each row once.
 */
module SubmissionQueue {
  import opened Basics
  import opened CaseFold
  import opened StringOrder
  import opened SubmissionCursor
  import opened SubmissionOrder

  datatype Source = Contributed | Ingested | All

  /** An absent and an empty string read alike (`if (query.userId)`). */
  datatype Query = Query(
    status: ReviewStatus,
    kind: Option<string>,
    before: string,
    source: Option<Source>,
    userId: string,
    q: string
  )

  datatype SortKey = CreatedAt | ReviewedAt

  /** A row of any reviewable table, with the names a search may look at. */
  datatype Row = Row(
    status: ReviewStatus,
    submittedById: Option<string>,
    createdAt: string,
    reviewedAt: Option<string>,
    name: Option<string>,
    companyName: Option<string>,
    investorName: Option<string>
  )

  /** The reviewable types, and for each its table: every row by its id. */
  datatype Tables = Tables(kinds: seq<string>, rows: map<string, map<string, Row>>)

  ghost predicate ValidTables(db: Tables) {
    && ValidKinds(db.kinds)
    && (forall t :: t in db.kinds ==> t in db.rows)
    && forall t, id :: t in db.kinds && id in db.rows[t] ==> ValidRow(id, db.rows[t][id])
  }

  predicate ValidRow(id: string, row: Row) {
    id != "" && IsIso(row.createdAt) && (row.reviewedAt.Some? ==> IsIso(row.reviewedAt.value))
  }

  predicate ValidQuery(db: Tables, query: Query) {
    query.kind.Some? ==> query.kind.value in db.kinds
  }

  function SubmissionSortKey(query: Query): SortKey {
    var source := if query.userId != "" then Contributed else if query.source.Some? then query.source.value else All;
    if query.status != PENDING && source == Contributed then ReviewedAt else CreatedAt
  }

  function At(row: Row, key: SortKey): string
    requires key == ReviewedAt ==> row.reviewedAt.Some?
  {
    if key == CreatedAt then row.createdAt else row.reviewedAt.value
  }

  /** Rows of table `t` past the cursor, told from the timestamp, the type and the id. */
  predicate OlderThan(cursor: Item, t: string, at: string, id: string) {
    if Less(cursor.kind, t) then Less(at, cursor.at) || at == cursor.at
    else if Less(t, cursor.kind) then Less(at, cursor.at)
    else Less(at, cursor.at) || (at == cursor.at && Less(id, cursor.id))
  }

  function SearchedName(t: string, row: Row): Option<string> {
    if t == "company" then row.name else if t == "investorProposal" then row.investorName else row.companyName
  }

  /** `submissionWhere` without its cursor. */
  predicate Matches(t: string, row: Row, query: Query) {
    && row.status == query.status
    && (if query.userId != "" then row.submittedById == Some(query.userId)
        else if query.source == Some(Contributed) then row.submittedById.Some?
        else if query.source == Some(Ingested) then row.submittedById.None?
        else true)
    && (SubmissionSortKey(query) == ReviewedAt ==> row.reviewedAt.Some?)
    && (query.q != "" ==> SearchedName(t, row).Some? && ContainsInsensitive(SearchedName(t, row).value, query.q))
  }

  function ItemOf(t: string, id: string, row: Row, query: Query): Item
    requires Matches(t, row, query)
  {
    Item(At(row, SubmissionSortKey(query)), t, id)
  }

  /** The rows of table `t` under the query, past the cursor when there is one. */
  ghost function Matching(db: Tables, query: Query, t: string, cursor: Option<Item>): set<Item>
    requires ValidTables(db) && t in db.kinds
  {
    set id | id in db.rows[t] && Matches(t, db.rows[t][id], query)
      && (cursor.Some? ==> OlderThan(cursor.value, t, At(db.rows[t][id], SubmissionSortKey(query)), id)) ::
      ItemOf(t, id, db.rows[t][id], query)
  }

  predicate Wanted(query: Query, t: string) {
    query.kind == None || query.kind == Some(t)
  }

  /** The whole list the queue shows under a query's filters, past the cursor when there is one. */
  ghost function Everything(db: Tables, query: Query, cursor: Option<Item>): set<Item>
    requires ValidTables(db)
  {
    set t, x | t in db.kinds && Wanted(query, t) && x in Matching(db, query, t, cursor) :: x
  }

  /** What the nine reads return together: each wanted table's own next `n` rows. */
  ghost function Reads(db: Tables, query: Query, cursor: Option<Item>, n: nat): set<Item>
    requires ValidTables(db)
  {
    set t, x | t in db.kinds && Wanted(query, t) && x in Top(Matching(db, query, t, cursor), n) :: x
  }

  datatype Page = Page(items: seq<Item>, nextCursor: Option<string>, total: nat, countsByType: map<string, nat>)

  ghost function CountsByType(db: Tables, query: Query): map<string, nat>
    requires ValidTables(db)
  {
    map t | t in db.kinds :: |Matching(db, query, t, None)|
  }

  ghost function Sum(kinds: seq<string>, counts: map<string, nat>): nat
    requires forall t :: t in kinds ==> t in counts
  {
    if kinds == [] then 0 else Sum(kinds[..|kinds| - 1], counts) + counts[kinds[|kinds| - 1]]
  }

  /** The requested type's count, or all of them together. */
  ghost function Total(db: Tables, query: Query): nat
    requires ValidTables(db) && ValidQuery(db, query)
  {
    var counts := CountsByType(db, query);
    if query.kind.Some? then counts[query.kind.value] else Sum(db.kinds, counts)
  }

  ghost function ReadPage(db: Tables, query: Query, cursor: Option<Item>, pageSize: nat): Page
    requires ValidTables(db) && ValidQuery(db, query) && pageSize >= 1
  {
    var (items, nextCursor) := Cut(Sorted(Reads(db, query, cursor, pageSize + 1)), pageSize);
    Page(items, nextCursor, Total(db, query), CountsByType(db, query))
  }

  /** `listSubmissions`, for any page size. */
  ghost function ListSubmissions(db: Tables, query: Query, pageSize: nat): Result<Page, BadRequest>
    requires ValidTables(db) && ValidQuery(db, query) && pageSize >= 1
  {
    if query.before == "" then Ok(ReadPage(db, query, None, pageSize))
    else
      var cursor := Parse(db.kinds, query.before);
      if cursor.Err? then Err(cursor.error) else Ok(ReadPage(db, query, Some(cursor.value), pageSize))
  }

  /** Keep the first `n`, and name the last of them when more were there. */
  function Cut(items: seq<Item>, n: nat): (seq<Item>, Option<string>)
    requires n >= 1
  {
    if |items| > n then (items[..n], Some(Print(items[n - 1]))) else (items, None)
  }

  // ----- one page ------------------------------------------------------------------------

  /** The cursor filter means exactly "strictly after the cursor in the queue's order". */
  lemma OlderThanIsAfter(cursor: Item, t: string, at: string, id: string)
    ensures OlderThan(cursor, t, at, id) <==> Before(cursor, Item(at, t, id))
  {
    LessTotal(t, cursor.kind);
    LessIrreflexive(t);
    if Less(t, cursor.kind) { LessAsymmetric(t, cursor.kind); }
  }

  ghost function After(s: set<Item>, cursor: Option<Item>): set<Item> {
    set x | x in s && (cursor.Some? ==> Before(cursor.value, x))
  }

  lemma MatchingAfter(db: Tables, query: Query, t: string, cursor: Option<Item>)
    requires ValidTables(db) && t in db.kinds
    ensures Matching(db, query, t, cursor) == After(Matching(db, query, t, None), cursor)
    ensures forall x :: x in Matching(db, query, t, cursor) ==> x.kind == t && ValidItem(db.kinds, x)
  {
    if cursor.Some? {
      forall id | id in db.rows[t] && Matches(t, db.rows[t][id], query)
        ensures var at := At(db.rows[t][id], SubmissionSortKey(query));
          OlderThan(cursor.value, t, at, id) <==> Before(cursor.value, Item(at, t, id))
      {
        OlderThanIsAfter(cursor.value, t, At(db.rows[t][id], SubmissionSortKey(query)), id);
      }
    }
    forall x | x in Matching(db, query, t, cursor)
      ensures x.kind == t && ValidItem(db.kinds, x)
    {
      assert ValidRow(x.id, db.rows[t][x.id]);
    }
  }

  lemma EverythingAfter(db: Tables, query: Query, cursor: Option<Item>)
    requires ValidTables(db)
    ensures Everything(db, query, cursor) == After(Everything(db, query, None), cursor)
    ensures forall x :: x in Everything(db, query, cursor) ==> ValidItem(db.kinds, x)
  {
    forall x
      ensures x in Everything(db, query, cursor) <==> x in After(Everything(db, query, None), cursor)
      ensures x in Everything(db, query, cursor) ==> ValidItem(db.kinds, x)
    {
      forall t | t in db.kinds
        ensures x in Matching(db, query, t, cursor) <==> x in After(Matching(db, query, t, None), cursor)
        ensures x in Matching(db, query, t, cursor) ==> ValidItem(db.kinds, x)
      {
        MatchingAfter(db, query, t, cursor);
      }
    }
  }

  /** Each table's own prefix is enough: the merged prefix of the prefixes is that of everything. */
  lemma PrefixesSuffice(db: Tables, query: Query, cursor: Option<Item>, m: nat, n: nat)
    requires ValidTables(db) && n <= m
    ensures Top(Reads(db, query, cursor, m), n) == Top(Everything(db, query, cursor), n)
  {
    var some, all := Reads(db, query, cursor, m), Everything(db, query, cursor);
    forall t, x | t in db.kinds && Wanted(query, t) && x in Top(Matching(db, query, t, cursor), m)
      ensures x in all
    {
      TopWithin(Matching(db, query, t, cursor), m);
    }
    assert some <= all;
    TopWithin(all, n);
    forall x | x in Top(all, n)
      ensures x in some
    {
      var t :| t in db.kinds && Wanted(query, t) && x in Matching(db, query, t, cursor);
      TopIffFewAhead(all, n, x);
      assert Matching(db, query, t, cursor) <= all;
      FewerAhead(Matching(db, query, t, cursor), all, x);
      TopIffFewAhead(Matching(db, query, t, cursor), m, x);
    }
    TopOfPart(some, all, n);
  }

  lemma TopWithin(s: set<Item>, n: nat)
    ensures forall x :: x in Top(s, n) ==> x in s
  {
    forall x | x in Top(s, n) ensures x in s {
      assert x in Elements(Sorted(s));
    }
  }

  /** Lists that agree on their first n + 1 items are cut alike. */
  lemma SameCut(a: seq<Item>, b: seq<Item>, n: nat)
    requires n >= 1
    requires a[..if |a| < n + 1 then |a| else n + 1] == b[..if |b| < n + 1 then |b| else n + 1]
    ensures Cut(a, n) == Cut(b, n)
  {
    var p := a[..if |a| < n + 1 then |a| else n + 1];
    if |p| == n + 1 {
      assert a[..n] == p[..n] == b[..n];
      assert a[n - 1] == p[n - 1] == b[n - 1];
    } else {
      assert a == p == b;
    }
  }

  lemma PageOfRest(read: set<Item>, rest: set<Item>, n: nat)
    requires n >= 1 && Top(read, n + 1) == Top(rest, n + 1)
    ensures Cut(Sorted(read), n) == Cut(Sorted(rest), n)
  {
    SameCut(Sorted(read), Sorted(rest), n);
  }

  function ItemsAndNext(page: Page): (seq<Item>, Option<string>) {
    (page.items, page.nextCursor)
  }

  /** The page past a cursor is cut from the whole list past it, not just from what was read. */
  lemma PageIsTheNextItems(db: Tables, query: Query, pageSize: nat, cursor: Option<Item>)
    requires ValidTables(db) && ValidQuery(db, query) && pageSize >= 1
    ensures ItemsAndNext(ReadPage(db, query, cursor, pageSize)) ==
      Cut(Sorted(After(Everything(db, query, None), cursor)), pageSize)
  {
    hide Everything, Reads, After, Sorted, Top, Cut, Total, CountsByType;
    EverythingAfter(db, query, cursor);
    PrefixesSuffice(db, query, cursor, pageSize + 1, pageSize + 1);
    PageOfRest(Reads(db, query, cursor, pageSize + 1), Everything(db, query, cursor), pageSize);
  }

  // ----- following the cursors --------------------------------------------------------------

  /** The whole filtered queue, in order. */
  ghost function Queue(db: Tables, query: Query): seq<Item>
    requires ValidTables(db)
  {
    Sorted(Everything(db, query, None))
  }

  lemma SortedAfter(s: set<Item>, i: nat)
    requires i < |Sorted(s)|
    ensures Sorted(After(s, Some(Sorted(s)[i]))) == Sorted(s)[i + 1..]
  {
    var list := Sorted(s);
    OrderedSlice(list, i + 1, |list|);
    assert list[i + 1..|list|] == list[i + 1..];
    forall x
      ensures x in After(s, Some(list[i])) <==> x in list[i + 1..]
    {
      assert x in s <==> x in Elements(list);
      if x in s {
        var j :| 0 <= j < |list| && list[j] == x;
        BeforeStrict(list[i], list[j]);
        assert j > i ==> list[i + 1..][j - (i + 1)] == x;
      }
    }
    assert Elements(list[i + 1..]) == After(s, Some(list[i]));
    OrderedUnique(Sorted(After(s, Some(list[i]))), list[i + 1..]);
  }

  function Items(pages: seq<Page>): seq<Item> {
    if pages == [] then [] else Items(pages[..|pages| - 1]) + pages[|pages| - 1].items
  }

  /** The request for page `k`: none before the first, then each page's own cursor. */
  function Request(query: Query, pages: seq<Page>, k: nat): Query
    requires k <= |pages| && (k > 0 ==> pages[k - 1].nextCursor.Some?)
  {
    query.(before := if k == 0 then "" else pages[k - 1].nextCursor.value)
  }

  /** The pages a client gets by following cursors from the first, as far as it has gone. */
  ghost predicate Crawled(db: Tables, query: Query, pageSize: nat, pages: seq<Page>)
    requires ValidTables(db) && ValidQuery(db, query) && pageSize >= 1
  {
    forall k: nat :: k < |pages| ==> Fetched(db, query, pageSize, pages, k)
  }

  ghost predicate Fetched(db: Tables, query: Query, pageSize: nat, pages: seq<Page>, k: nat)
    requires ValidTables(db) && ValidQuery(db, query) && pageSize >= 1 && k < |pages|
  {
    && (k > 0 ==> pages[k - 1].nextCursor.Some?)
    && ListSubmissions(db, Request(query, pages, k), pageSize) == Ok(pages[k])
  }

  /** After `pages` a client has the first `got` items, and a cursor if that is not everything. */
  ghost predicate StandsAt(queue: seq<Item>, pages: seq<Page>, got: nat) {
    && pages != [] && got <= |queue| && Items(pages) == queue[..got]
    && (got < |queue| ==> |pages| <= got && pages[|pages| - 1].nextCursor == Some(Print(queue[got - 1])))
    && (got == |queue| ==> pages[|pages| - 1].nextCursor == None)
  }

  lemma RequestSameQueue(db: Tables, query: Query, before: string)
    requires ValidTables(db)
    ensures Everything(db, query.(before := before), None) == Everything(db, query, None)
  {
    var q := query.(before := before);
    forall t | t in db.kinds
      ensures Matching(db, q, t, None) == Matching(db, query, t, None)
    {
      assert forall id :: id in db.rows[t] ==> Matches(t, db.rows[t][id], q) == Matches(t, db.rows[t][id], query);
    }
  }

  /** Where a page cut from the queue at `got` leads. */
  ghost predicate Leads(queue: seq<Item>, got: nat, n: nat, items: seq<Item>, nextCursor: Option<string>, next: nat) {
    && got <= next <= |queue| && items == queue[got..next]
    && (next < |queue| ==> next == got + n > 0 && nextCursor == Some(Print(queue[next - 1])))
    && (next == |queue| ==> nextCursor == None)
  }

  lemma CutLeads(queue: seq<Item>, got: nat, n: nat) returns (next: nat)
    requires n >= 1 && got <= |queue|
    ensures var (items, nextCursor) := Cut(queue[got..], n); Leads(queue, got, n, items, nextCursor, next)
  {
    var rest := queue[got..];
    next := if |rest| > n then got + n else |queue|;
    assert |rest| > n ==> rest[..n] == queue[got..next] && rest[n - 1] == queue[next - 1];
  }

  /** The request a client sends with the first `got` items in hand. */
  ghost predicate Asks(db: Tables, query: Query, got: nat)
    requires ValidTables(db)
  {
    var queue := Queue(db, query);
    got <= |queue| && query.before == if got == 0 then "" else Print(queue[got - 1])
  }

  lemma RestFrom(db: Tables, query: Query, got: nat) returns (cursor: Option<Item>)
    requires ValidTables(db) && Asks(db, query, got)
    ensures Sorted(After(Everything(db, query, None), cursor)) == Queue(db, query)[got..]
    ensures cursor.None? ==> query.before == ""
    ensures cursor.Some? ==> query.before != "" && Parse(db.kinds, query.before) == Ok(cursor.value)
  {
    hide Everything, Sorted, Print, Parse, ValidQuery;
    var queue := Queue(db, query);
    if got == 0 {
      cursor := None;
      assert After(Everything(db, query, None), None) == Everything(db, query, None);
      assert queue[0..] == queue;
    } else {
      var item := queue[got - 1];
      cursor := Some(item);
      EverythingAfter(db, query, None);
      assert item in Elements(queue);
      CursorRoundTrip(db.kinds, item, query.before);
      PrintNonEmpty(item);
      SortedAfter(Everything(db, query, None), got - 1);
    }
  }

  /** Asking with the first `got` items in hand moves on by the page size, or to the end. */
  lemma NextPage(db: Tables, query: Query, pageSize: nat, got: nat) returns (next: nat)
    requires ValidTables(db) && ValidQuery(db, query) && pageSize >= 1 && Asks(db, query, got)
    ensures var r := ListSubmissions(db, query, pageSize);
      r.Ok? && Leads(Queue(db, query), got, pageSize, r.value.items, r.value.nextCursor, next)
  {
    hide Queue, Sorted, ListSubmissions, Leads, Cut;
    var cursor := RestFrom(db, query, got);
    ListsFrom(db, query, pageSize, cursor);
    next := CutLeads(Queue(db, query), got, pageSize);
  }

  lemma ListsFrom(db: Tables, query: Query, pageSize: nat, cursor: Option<Item>)
    requires ValidTables(db) && ValidQuery(db, query) && pageSize >= 1
    requires cursor.None? ==> query.before == ""
    requires cursor.Some? ==> query.before != "" && Parse(db.kinds, query.before) == Ok(cursor.value)
    ensures var r := ListSubmissions(db, query, pageSize);
      r.Ok? && ItemsAndNext(r.value) == Cut(Sorted(After(Everything(db, query, None), cursor)), pageSize)
  {
    hide Everything, Sorted, ReadPage, Cut, ItemsAndNext, Parse;
    PageIsTheNextItems(db, query, pageSize, cursor);
  }

  lemma PrintNonEmpty(item: Item)
    ensures Print(item) != ""
  {
    assert |Print(item)| >= 2;
  }

  lemma CrawledPrefix(db: Tables, query: Query, pageSize: nat, pages: seq<Page>, k: nat)
    requires ValidTables(db) && ValidQuery(db, query) && pageSize >= 1
    requires k <= |pages| && Crawled(db, query, pageSize, pages)
    ensures Crawled(db, query, pageSize, pages[..k])
  {
    forall j: nat | j < k
      ensures Fetched(db, query, pageSize, pages[..k], j)
    {
      assert Fetched(db, query, pageSize, pages, j);
    }
  }

  /** The next request of a client that stands at `got` asks from there. */
  lemma StandingAsks(db: Tables, query: Query, pages: seq<Page>, got: nat)
    requires ValidTables(db)
    requires if pages == [] then got == 0 else StandsAt(Queue(db, query), pages, got)
    requires pages != [] ==> pages[|pages| - 1].nextCursor.Some?
    ensures Asks(db, Request(query, pages, |pages|), got)
    ensures Queue(db, Request(query, pages, |pages|)) == Queue(db, query)
  {
    RequestSameQueue(db, query, Request(query, pages, |pages|).before);
  }

  lemma StandsOn(queue: seq<Item>, pages: seq<Page>, got: nat, page: Page, n: nat, next: nat)
    requires n >= 1 && if pages == [] then got == 0 else StandsAt(queue, pages, got) && got < |queue|
    requires Leads(queue, got, n, page.items, page.nextCursor, next)
    ensures StandsAt(queue, pages + [page], next)
  {
    assert (pages + [page])[..|pages|] == pages;
    assert queue[..got] + queue[got..next] == queue[..next];
  }

  lemma MoreToCome(queue: seq<Item>, pages: seq<Page>, got: nat)
    requires StandsAt(queue, pages, got) && pages[|pages| - 1].nextCursor.Some?
    ensures got < |queue|
  {
  }

  lemma LastFetched(db: Tables, query: Query, pageSize: nat, pages: seq<Page>)
    requires ValidTables(db) && ValidQuery(db, query) && pageSize >= 1
    requires pages != [] && Crawled(db, query, pageSize, pages)
    ensures |pages| > 1 ==> pages[..|pages| - 1][|pages| - 2].nextCursor.Some?
    ensures ListSubmissions(db, Request(query, pages[..|pages| - 1], |pages| - 1), pageSize) == Ok(pages[|pages| - 1])
    ensures ValidQuery(db, Request(query, pages[..|pages| - 1], |pages| - 1))
  {
    hide ListSubmissions;
    assert Fetched(db, query, pageSize, pages, |pages| - 1);
    assert Request(query, pages, |pages| - 1) == Request(query, pages[..|pages| - 1], |pages| - 1);
  }

  /** However far a client has followed the cursors, it has a prefix of the queue: no row lost,
      repeated or out of order, at least one row a page, and a cursor exactly while more remain. */
  lemma {:induction false} CrawlIsPrefix(db: Tables, query: Query, pageSize: nat, pages: seq<Page>) returns (got: nat)
    requires ValidTables(db) && ValidQuery(db, query) && pageSize >= 1
    requires pages != [] && Crawled(db, query, pageSize, pages)
    ensures StandsAt(Queue(db, query), pages, got)
  {
    hide ListSubmissions, Queue, Leads, Asks, Crawled, StandsAt, Request;
    var k := |pages| - 1;
    var earlier := pages[..k];
    LastFetched(db, query, pageSize, pages);
    var start := 0;
    if k > 0 {
      CrawledPrefix(db, query, pageSize, pages, k);
      start := CrawlIsPrefix(db, query, pageSize, earlier);
      MoreToCome(Queue(db, query), earlier, start);
    }
    StandingAsks(db, query, earlier, start);
    got := NextPage(db, Request(query, earlier, k), pageSize, start);
    StandsOn(Queue(db, query), earlier, start, pages[k], pageSize, got);
    assert pages == earlier + [pages[k]];
  }

  lemma CrawlOn(db: Tables, query: Query, pageSize: nat, pages: seq<Page>, page: Page)
    requires ValidTables(db) && ValidQuery(db, query) && pageSize >= 1
    requires Crawled(db, query, pageSize, pages) && (pages != [] ==> pages[|pages| - 1].nextCursor.Some?)
    requires ListSubmissions(db, Request(query, pages, |pages|), pageSize) == Ok(page)
    ensures Crawled(db, query, pageSize, pages + [page])
  {
    forall j: nat | j < |pages + [page]|
      ensures Fetched(db, query, pageSize, pages + [page], j)
    {
      if j < |pages| {
        assert Fetched(db, query, pageSize, pages, j);
      }
    }
  }

  lemma CrawlFurther(db: Tables, query: Query, pageSize: nat, pages: seq<Page>, got: nat) returns (page: Page)
    requires ValidTables(db) && ValidQuery(db, query) && pageSize >= 1 && Crawled(db, query, pageSize, pages)
    requires if pages == [] then got == 0 else StandsAt(Queue(db, query), pages, got) && got < |Queue(db, query)|
    ensures Crawled(db, query, pageSize, pages + [page])
  {
    StandingAsks(db, query, pages, got);
    var request := Request(query, pages, |pages|);
    var _ := NextPage(db, request, pageSize, got);
    page := ListSubmissions(db, request, pageSize).value;
    CrawlOn(db, query, pageSize, pages, page);
  }

  /** Following the cursors ends, and the pages put together are the whole queue. */
  lemma {:induction false} CrawlCoversQueue(db: Tables, query: Query, pageSize: nat, soFar: seq<Page>)
    returns (pages: seq<Page>)
    requires ValidTables(db) && ValidQuery(db, query) && pageSize >= 1 && Crawled(db, query, pageSize, soFar)
    ensures soFar <= pages && pages != [] && Crawled(db, query, pageSize, pages)
    ensures pages[|pages| - 1].nextCursor == None && Items(pages) == Queue(db, query)
    decreases |Queue(db, query)| + 1 - |soFar|
  {
    hide Queue, Crawled;
    var queue := Queue(db, query);
    var got := 0;
    if soFar != [] {
      got := CrawlIsPrefix(db, query, pageSize, soFar);
    }
    if soFar != [] && got == |queue| {
      assert queue[..got] == queue;
      pages := soFar;
    } else {
      var page := CrawlFurther(db, query, pageSize, soFar, got);
      pages := CrawlCoversQueue(db, query, pageSize, soFar + [page]);
    }
  }
}
