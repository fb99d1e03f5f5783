/** The queue's totals, and the queue over the nine tables the moderation service reads. */
module SubmissionTotals {
  import opened Basics
  import opened SubmissionCursor
  import opened SubmissionOrder
  import opened SubmissionQueue

  const REVIEWABLE_TYPES: seq<string> :=
    ["company", "round", "person", "investor", "acquisition", "exit", "diversity", "proposal", "investorProposal"]
  const SUBMISSION_PAGE_SIZE := 50

  /** The matching rows of some of the tables together. */
  ghost function MatchingOf(db: Tables, query: Query, kinds: seq<string>): set<Item>
    requires ValidTables(db) && forall t :: t in kinds ==> t in db.kinds
  {
    set t, x | t in kinds && x in Matching(db, query, t, None) :: x
  }

  lemma {:induction false} CountsAddUp(db: Tables, query: Query, kinds: seq<string>)
    requires ValidTables(db) && Distinct(kinds) && forall t :: t in kinds ==> t in db.kinds
    ensures Sum(kinds, CountsByType(db, query)) == |MatchingOf(db, query, kinds)|
  {
    if kinds != [] {
      var last := kinds[|kinds| - 1];
      var others := kinds[..|kinds| - 1];
      assert kinds == others + [last];
      CountsAddUp(db, query, others);
      var a, b := MatchingOf(db, query, others), Matching(db, query, last, None);
      assert MatchingOf(db, query, kinds) == a + b;
      forall x | x in a ensures x !in b {
        var t :| t in others && x in Matching(db, query, t, None);
        MatchingAfter(db, query, t, None);
        MatchingAfter(db, query, last, None);
      }
      assert a !! b;
    }
  }

  /** The total a page reports is the length of the whole filtered queue. */
  lemma TotalIsQueueLength(db: Tables, query: Query)
    requires ValidTables(db) && ValidQuery(db, query)
    ensures Total(db, query) == |Queue(db, query)|
  {
    if query.kind.Some? {
      assert Everything(db, query, None) == Matching(db, query, query.kind.value, None);
    } else {
      CountsAddUp(db, query, db.kinds);
      assert Everything(db, query, None) == MatchingOf(db, query, db.kinds);
    }
  }

  lemma NineKinds()
    ensures ValidKinds(REVIEWABLE_TYPES)
  {
  }

  ghost predicate ValidNine(rows: map<string, map<string, Row>>) {
    && (forall t :: t in REVIEWABLE_TYPES ==> t in rows)
    && forall t, id :: t in REVIEWABLE_TYPES && id in rows[t] ==> ValidRow(id, rows[t][id])
  }

  /** Over any fixed contents of the nine tables, following the cursors ends, and the pages put
      together are the filtered queue: in order, no row lost or repeated, as many as the total says. */
  lemma {:induction false} NineTableQueue(rows: map<string, map<string, Row>>, query: Query) returns (pages: seq<Page>)
    requires ValidNine(rows) && (query.kind.Some? ==> query.kind.value in REVIEWABLE_TYPES)
    ensures ValidKinds(REVIEWABLE_TYPES)
    ensures REVIEWABLE_TYPES == [
      "company", "round", "person", "investor", "acquisition", "exit", "diversity", "proposal", "investorProposal"]
    ensures var db := Tables(REVIEWABLE_TYPES, rows);
      && pages != [] && Crawled(db, query, 50, pages) && pages[|pages| - 1].nextCursor == None
      && Ordered(Items(pages)) && Elements(Items(pages)) == Everything(db, query, None)
      && |Items(pages)| == Total(db, query)
  {
    NineKinds();
    var db := Tables(REVIEWABLE_TYPES, rows);
    pages := CrawlCoversQueue(db, query, SUBMISSION_PAGE_SIZE, []);
    TotalIsQueueLength(db, query);
  }
}
