/** What a search text adds to what the directory can reveal: exactly when it tells a withheld value. */
module DirectorySearch {
  import opened Basics
  import opened CaseFold
  import opened FieldGate
  import opened DirectoryRead

  /** A query that can match no company at all: an empty list of slugs, or of domains in use. */
  predicate AsksForNothing(p: FieldPolicy, query: Query) {
    || query.slugs == Some([])
    || (query.domain == Some([]) && "domain" !in Filters(p, Applied(query), p.registry).ignored)
  }

  /** Whatever two databases look the same to the viewer, the query matches the same companies. */
  ghost predicate TellsNothing(p: FieldPolicy, signedOut: bool, query: Query) {
    forall a, b :: SameDbToViewer(p, a, b) ==> MatchedIds(p, signedOut, query, a) == MatchedIds(p, signedOut, query, b)
  }

  /** No filter parameter is bound to the field. */
  predicate Unfiltered(registry: seq<FieldInfo>, field: string) {
    forall info :: info in registry && info.field == field ==> info.filter.None?
  }

  /** A company that meets every filter of the query, its one-liner written by the partner. */
  function Candidate(query: Query, oneLiner: string): Company {
    var slug := if query.slugs.Some? && query.slugs.value != [] then query.slugs.value[0] else "";
    var domain := if query.domain.Some? && query.domain.value != [] then query.domain.value[0] else "";
    Company(slug, "", true, false, ["oneLiner"], map[
      "oneLiner" := oneLiner,
      "primarySector" := query.sector,
      "stage" := query.stage,
      "status" := query.status,
      "countryCode" := query.country,
      "domain" := domain])
  }

  lemma CandidateFound(p: FieldPolicy, signedOut: bool, query: Query, oneLiner: string)
    requires Unfiltered(p.registry, "oneLiner") && !AsksForNothing(p, query)
    ensures Found(p, signedOut, query, Candidate(query, oneLiner)) <==>
      query.q == "" || ContainsInsensitive("", query.q) || ContainsInsensitive(oneLiner, query.q)
  {
    FiltersExactly(p, Applied(query), p.registry);
  }

  lemma TextFound(q: string)
    requires q != ""
    ensures ContainsInsensitive(q, q) && !ContainsInsensitive("", q)
  {
    assert OccursAt(Lower(q), Lower(q), 0);
  }

  /** With the one-liner withheld, a search for some text tells one that holds it from an empty one. */
  lemma SearchTellsWithheld(p: FieldPolicy, signedOut: bool, query: Query)
    returns (a: map<string, Company>, b: map<string, Company>)
    requires Unfiltered(p.registry, "oneLiner") && !AsksForNothing(p, query)
    requires query.q != "" && p.gate("oneLiner") != Show
    ensures SameDbToViewer(p, a, b) && MatchedIds(p, signedOut, query, a) != MatchedIds(p, signedOut, query, b)
  {
    hide Found, Filters;
    var x, y := Candidate(query, query.q), Candidate(query, "");
    a, b := map["1" := x], map["1" := y];
    CandidateFound(p, signedOut, query, query.q);
    CandidateFound(p, signedOut, query, "");
    TextFound(query.q);
    assert HiddenFrom(p, x, "oneLiner");
    assert SameToViewer(p, x, y);
    assert "1" in MatchedIds(p, signedOut, query, a) && "1" !in MatchedIds(p, signedOut, query, b);
  }

  /**
   * The matches show nothing withheld from the viewer if and only if nothing is searched for, the
   * viewer may see every one-liner, or the query can match nobody anyway.
   */
  lemma SearchTellsNothingExactlyWhen(p: FieldPolicy, signedOut: bool, query: Query)
    requires CompanyBindings(p.registry) && Unfiltered(p.registry, "oneLiner")
    ensures TellsNothing(p, signedOut, query) <==>
      query.q == "" || OneLinerOpen(p) || AsksForNothing(p, query)
  {
    hide MatchedIds, SameDbToViewer, AsksForNothing;
    if query.q == "" || OneLinerOpen(p) || AsksForNothing(p, query) {
      forall a, b | SameDbToViewer(p, a, b)
        ensures MatchedIds(p, signedOut, query, a) == MatchedIds(p, signedOut, query, b)
      {
        if query.q == "" {
          MatchesDoNotLeak(p, signedOut, query, a, b);
        } else if OneLinerOpen(p) {
          OneLinersAgree(p, a, b);
          SearchLeaksOneLinerOnly(p, signedOut, query, a, b);
        } else {
          NobodyMatches(p, signedOut, query, a);
          NobodyMatches(p, signedOut, query, b);
        }
      }
    } else {
      var a, b := SearchTellsWithheld(p, signedOut, query);
    }
  }

  predicate OneLinerOpen(p: FieldPolicy) {
    p.gate("oneLiner") == Show
  }

  lemma OneLinersAgree(p: FieldPolicy, a: map<string, Company>, b: map<string, Company>)
    requires OneLinerOpen(p) && SameDbToViewer(p, a, b)
    ensures a.Keys == b.Keys
    ensures forall id :: id in a ==> SameColumn(a[id], b[id], "oneLiner")
  {
    forall id | id in a ensures SameColumn(a[id], b[id], "oneLiner") {
      assert SameToViewer(p, a[id], b[id]);
      assert !HiddenFrom(p, a[id], "oneLiner");
    }
  }

  lemma NobodyMatches(p: FieldPolicy, signedOut: bool, query: Query, db: map<string, Company>)
    requires AsksForNothing(p, query)
    ensures MatchedIds(p, signedOut, query, db) == {}
  {
    forall id | id in db ensures !Found(p, signedOut, query, db[id]) {
    }
  }
}
