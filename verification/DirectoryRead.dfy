/** The company directory under the field policy: which filters and sorts apply, and what matches. */
module DirectoryRead {
  import opened Basics
  import opened CaseFold
  import opened FieldGate

  /** A registered field, and the directory parameters that match or order on its column. */
  datatype FieldInfo = FieldInfo(field: string, filter: Option<string>, sort: Option<string>, partnerOnlyColumn: bool)

  /** The field policy as it applies to one viewer. */
  datatype FieldPolicy = FieldPolicy(
    gate: string -> Gate,
    unlockBy: (string, bool) -> Option<UnlockBy>,
    registry: seq<FieldInfo>
  )

  /** Which filters are ignored, which fields must not be the partner's, which sorts are locked. */
  datatype DirectoryGate = DirectoryGate(
    ignored: seq<string>,
    notPartner: seq<string>,
    sorts: seq<string>,
    unlockBy: map<string, UnlockBy>
  )

  const OPEN_GATE := DirectoryGate([], [], [], map[])

  function Include(s: seq<string>, x: string): (r: seq<string>)
    ensures forall y :: y in r <==> y in s || y == x
  {
    if x in s then s else s + [x]
  }

  predicate Ignores(p: FieldPolicy, info: FieldInfo) {
    p.gate(info.field) == Hide || (p.gate(info.field) == HidePartner && info.partnerOnlyColumn)
  }

  function Unlock(p: FieldPolicy, field: string, partnerWritten: bool): UnlockBy {
    var how := p.unlockBy(field, partnerWritten);
    if how.Some? then how.value else SignIn
  }

  function Strongest(unlockBy: map<string, UnlockBy>, param: string, other: UnlockBy): UnlockBy {
    if param in unlockBy && unlockBy[param] == Contribute then Contribute else other
  }

  /** What one registered field adds. */
  function AddField(p: FieldPolicy, applied: set<string>, info: FieldInfo, g: DirectoryGate): DirectoryGate {
    var gate := p.gate(info.field);
    var filtered :=
      if info.filter.None? then g
      else if Ignores(p, info) then g.(
        ignored := Include(g.ignored, info.filter.value),
        unlockBy := g.unlockBy[info.filter.value := Unlock(p, info.field, gate == HidePartner)])
      else if gate == HidePartner && info.filter.value in applied then g.(notPartner := g.notPartner + [info.field])
      else g;
    if info.sort.Some? && gate == Hide then filtered.(
      sorts := Include(filtered.sorts, info.sort.value),
      unlockBy := filtered.unlockBy[info.sort.value :=
        Strongest(filtered.unlockBy, info.sort.value, Unlock(p, info.field, false))])
    else filtered
  }

  function Filters(p: FieldPolicy, applied: set<string>, registry: seq<FieldInfo>): DirectoryGate {
    if registry == [] then OPEN_GATE
    else AddField(p, applied, registry[|registry| - 1], Filters(p, applied, registry[..|registry| - 1]))
  }

  method DirectoryFilters(p: FieldPolicy, applied: set<string>) returns (g: DirectoryGate)
    ensures g == Filters(p, applied, p.registry)
  {
    var ignored: seq<string>, sorts: seq<string>, notPartner: seq<string> := [], [], [];
    var unlockBy: map<string, UnlockBy> := map[];
    var i := 0;
    while i < |p.registry|
      invariant 0 <= i <= |p.registry|
      invariant DirectoryGate(ignored, notPartner, sorts, unlockBy) == Filters(p, applied, p.registry[..i])
    {
      assert p.registry[..i + 1][..i] == p.registry[..i];
      var info := p.registry[i];
      var gate := p.gate(info.field);
      if info.filter.Some? {
        if gate == Hide || (gate == HidePartner && info.partnerOnlyColumn) {
          ignored := Include(ignored, info.filter.value);
          unlockBy := unlockBy[info.filter.value := Unlock(p, info.field, gate == HidePartner)];
        } else if gate == HidePartner && info.filter.value in applied {
          notPartner := notPartner + [info.field];
        }
      }
      if info.sort.Some? && gate == Hide {
        sorts := Include(sorts, info.sort.value);
        unlockBy := unlockBy[info.sort.value :=
          Strongest(unlockBy, info.sort.value, Unlock(p, info.field, false))];
      }
      i := i + 1;
    }
    assert p.registry[..i] == p.registry;
    return DirectoryGate(ignored, notPartner, sorts, unlockBy);
  }

  /** The gate's three lists, told from the registry and the policy alone. */
  lemma {:induction false} FiltersExactly(p: FieldPolicy, applied: set<string>, registry: seq<FieldInfo>)
    ensures var g := Filters(p, applied, registry);
      && (forall param :: param in g.ignored <==>
           exists info :: info in registry && info.filter == Some(param) && Ignores(p, info))
      && (forall f :: f in g.notPartner <==>
           exists info :: info in registry && info.field == f && Narrows(p, applied, info))
      && (forall param :: param in g.sorts <==>
           exists info :: info in registry && info.sort == Some(param) && p.gate(info.field) == Hide)
  {
    if registry != [] {
      FiltersExactly(p, applied, registry[..|registry| - 1]);
      assert registry == registry[..|registry| - 1] + [registry[|registry| - 1]];
    }
  }

  /** A filter that applies, but only to companies whose value came from somebody else. */
  predicate Narrows(p: FieldPolicy, applied: set<string>, info: FieldInfo) {
    info.filter.Some? && info.filter.value in applied && p.gate(info.field) == HidePartner && !info.partnerOnlyColumn
  }

  // ----- the company list ----------------------------------------------------------------------------

  /** A company as the query sees it. `isPublic`: approved and not merged into another. A column that is NULL
      is not in `columns`. */
  datatype Company = Company(
    slug: string,
    name: string,
    isPublic: bool,
    partnerOnly: bool,
    partnerFields: seq<string>,
    columns: map<string, string>
  )

  /** An absent and an empty parameter read alike; `domain` holds the variants it stands for. */
  datatype Query = Query(
    slugs: Option<seq<string>>,
    q: string,
    sector: string,
    stage: string,
    status: string,
    country: string,
    domain: Option<seq<string>>
  )

  function Applied(query: Query): set<string> {
    (if query.sector != "" then {"sector"} else {}) +
    (if query.stage != "" then {"stage"} else {}) +
    (if query.status != "" then {"status"} else {}) +
    (if query.country != "" then {"country"} else {}) +
    (if query.domain.Some? then {"domain"} else {})
  }

  predicate ColumnIs(c: Company, field: string, value: string) {
    field in c.columns && c.columns[field] == value
  }

  predicate ColumnContains(c: Company, field: string, part: string) {
    field in c.columns && ContainsInsensitive(c.columns[field], part)
  }

  predicate Filtered(g: DirectoryGate, c: Company, param: string, field: string, value: string) {
    value != "" && param !in g.ignored ==> ColumnIs(c, field, value)
  }

  /** `findAllApproved`'s where-clause. */
  predicate Matches(g: DirectoryGate, signedOut: bool, query: Query, c: Company) {
    && c.isPublic
    && (signedOut ==> !c.partnerOnly)
    && (query.slugs.Some? ==> c.slug in query.slugs.value)
    && (query.q != "" ==> ContainsInsensitive(c.name, query.q) || ColumnContains(c, "oneLiner", query.q))
    && Filtered(g, c, "sector", "primarySector", query.sector)
    && Filtered(g, c, "stage", "stage", query.stage)
    && Filtered(g, c, "status", "status", query.status)
    && Filtered(g, c, "country", "countryCode", query.country)
    && (query.domain.Some? && "domain" !in g.ignored ==>
         "domain" in c.columns && c.columns["domain"] in query.domain.value)
    && (forall f :: f in g.notPartner ==> f !in c.partnerFields)
  }

  predicate Found(p: FieldPolicy, signedOut: bool, query: Query, c: Company) {
    Matches(Filters(p, Applied(query), p.registry), signedOut, query, c)
  }

  // ----- what a withheld value can show through the list -----------------------------------------------

  predicate Registered(registry: seq<FieldInfo>, field: string) {
    exists info :: info in registry && info.field == field
  }

  /** `FieldGate.Withheld`, on a directory row. */
  predicate HiddenFrom(p: FieldPolicy, c: Company, field: string) {
    (field in c.partnerFields && p.gate(field) != Show) || (Registered(p.registry, field) && p.gate(field) == Hide)
  }

  /** The same value in both rows, or NULL, which reads as no column, in both. */
  predicate SameColumn(a: Company, b: Company, field: string) {
    (field in a.columns <==> field in b.columns) && (field in a.columns ==> a.columns[field] == b.columns[field])
  }

  /** Two rows that differ only in values withheld from the viewer, NULL or not. */
  ghost predicate SameToViewer(p: FieldPolicy, a: Company, b: Company) {
    && a.(columns := b.columns) == b
    && forall f :: !HiddenFrom(p, a, f) ==> SameColumn(a, b, f)
  }

  /** The registry binds a filter parameter to the column the where-clause matches it against. */
  predicate Binds(registry: seq<FieldInfo>, param: string, field: string) {
    exists info :: info in registry && info.field == field && info.filter == Some(param)
  }

  predicate CompanyBindings(registry: seq<FieldInfo>) {
    && Binds(registry, "sector", "primarySector")
    && Binds(registry, "stage", "stage")
    && Binds(registry, "status", "status")
    && Binds(registry, "country", "countryCode")
    && Binds(registry, "domain", "domain")
  }

  /** A filter in use on a column either reads a value the viewer may see, or the row is excluded
      because the partner wrote it. */
  lemma FilterReadsVisible(p: FieldPolicy, applied: set<string>, c: Company, param: string, field: string)
    requires Binds(p.registry, param, field) && param in applied
    requires var g := Filters(p, applied, p.registry);
      param !in g.ignored && forall f :: f in g.notPartner ==> f !in c.partnerFields
    ensures !HiddenFrom(p, c, field)
  {
    var g := Filters(p, applied, p.registry);
    FiltersExactly(p, applied, p.registry);
    var info :| info in p.registry && info.field == field && info.filter == Some(param);
    assert !Ignores(p, info);
    if p.gate(field) == HidePartner {
      assert Narrows(p, applied, info);
      assert field in g.notPartner;
    }
  }

  lemma MatchesAlike(p: FieldPolicy, signedOut: bool, query: Query, a: Company, b: Company)
    requires CompanyBindings(p.registry) && SameToViewer(p, a, b) && Found(p, signedOut, query, a)
    requires query.q == "" || SameColumn(a, b, "oneLiner")
    ensures Found(p, signedOut, query, b)
  {
    var applied := Applied(query);
    var g := Filters(p, applied, p.registry);
    if query.sector != "" && "sector" !in g.ignored { FilterReadsVisible(p, applied, a, "sector", "primarySector"); }
    if query.stage != "" && "stage" !in g.ignored { FilterReadsVisible(p, applied, a, "stage", "stage"); }
    if query.status != "" && "status" !in g.ignored { FilterReadsVisible(p, applied, a, "status", "status"); }
    if query.country != "" && "country" !in g.ignored { FilterReadsVisible(p, applied, a, "country", "countryCode"); }
    if query.domain.Some? && "domain" !in g.ignored { FilterReadsVisible(p, applied, a, "domain", "domain"); }
  }

  lemma SameToViewerSymmetric(p: FieldPolicy, a: Company, b: Company)
    requires SameToViewer(p, a, b)
    ensures SameToViewer(p, b, a)
  {
    assert a.partnerFields == b.partnerFields;
    assert forall f :: HiddenFrom(p, a, f) == HiddenFrom(p, b, f);
  }

  function MatchedIds(p: FieldPolicy, signedOut: bool, query: Query, db: map<string, Company>): set<string> {
    set id | id in db && Found(p, signedOut, query, db[id])
  }

  /** The same database to this viewer: row by row, only withheld values differ. */
  ghost predicate SameDbToViewer(p: FieldPolicy, a: map<string, Company>, b: map<string, Company>) {
    a.Keys == b.Keys && forall id :: id in a ==> SameToViewer(p, a[id], b[id])
  }

  /**
   * For a query without a search text, neither the companies matched nor their number depends on
   * any value withheld from the viewer: over two databases that look the same, they are the same.
   */
  lemma MatchesDoNotLeak(
    p: FieldPolicy, signedOut: bool, query: Query, a: map<string, Company>, b: map<string, Company>
  )
    requires CompanyBindings(p.registry) && SameDbToViewer(p, a, b) && query.q == ""
    ensures MatchedIds(p, signedOut, query, a) == MatchedIds(p, signedOut, query, b)
  {
    forall id | id in a
      ensures Found(p, signedOut, query, a[id]) <==> Found(p, signedOut, query, b[id])
    {
      if Found(p, signedOut, query, a[id]) { MatchesAlike(p, signedOut, query, a[id], b[id]); }
      SameToViewerSymmetric(p, a[id], b[id]);
      if Found(p, signedOut, query, b[id]) { MatchesAlike(p, signedOut, query, b[id], a[id]); }
    }
  }

  /** With a search text the same holds wherever the one-liners agree: the text reads no other
      column that may be withheld. */
  lemma SearchLeaksOneLinerOnly(
    p: FieldPolicy, signedOut: bool, query: Query, a: map<string, Company>, b: map<string, Company>
  )
    requires CompanyBindings(p.registry) && SameDbToViewer(p, a, b)
    requires forall id :: id in a ==> SameColumn(a[id], b[id], "oneLiner")
    ensures MatchedIds(p, signedOut, query, a) == MatchedIds(p, signedOut, query, b)
  {
    forall id | id in a
      ensures Found(p, signedOut, query, a[id]) <==> Found(p, signedOut, query, b[id])
    {
      if Found(p, signedOut, query, a[id]) { MatchesAlike(p, signedOut, query, a[id], b[id]); }
      SameToViewerSymmetric(p, a[id], b[id]);
      if Found(p, signedOut, query, b[id]) { MatchesAlike(p, signedOut, query, b[id], a[id]); }
    }
  }
}
