/** Which companies the directory lists, and which of its filters and sorts are locked, told from the policy. */
module DirectoryContents {
  import opened Basics
  import opened CaseFold
  import opened CompanyRegistry
  import opened FieldGate
  import opened DirectoryRead

  /** The parameter filters by a field that is hidden from the viewer, or that only the partner ever fills
      while the partner's values are hidden. */
  predicate LockedBy(p: FieldPolicy, info: FieldInfo, param: string) {
    info.filter == Some(param)
    && (p.gate(info.field) == Hide || (p.gate(info.field) == HidePartner && info.partnerOnlyColumn))
  }

  predicate Locked(p: FieldPolicy, param: string) {
    exists info :: info in p.registry && LockedBy(p, info, param)
  }

  /** The request carries the parameter. */
  predicate Used(query: Query, param: string) {
    || (param == "sector" && query.sector != "") || (param == "stage" && query.stage != "")
    || (param == "status" && query.status != "") || (param == "country" && query.country != "")
    || (param == "domain" && query.domain != None)
  }

  /** A filter in use applies to the field, but not to values the partner wrote. */
  predicate NarrowedBy(p: FieldPolicy, query: Query, info: FieldInfo) {
    info.filter.Some? && Used(query, info.filter.value) && p.gate(info.field) == HidePartner && !info.partnerOnlyColumn
  }

  predicate Narrowed(p: FieldPolicy, query: Query, field: string) {
    exists info :: info in p.registry && info.field == field && NarrowedBy(p, query, info)
  }

  predicate Holds(c: Company, field: string, value: string) {
    field in c.columns && c.columns[field] == value
  }

  /** Public, and not the partner's alone when signed out. */
  predicate Visible(signedOut: bool, c: Company) {
    c.isPublic && !(signedOut && c.partnerOnly)
  }

  predicate AskedFor(query: Query, c: Company) {
    && (query.slugs.Some? ==> c.slug in query.slugs.value)
    && (query.q == "" || ContainsInsensitive(c.name, query.q)
        || ("oneLiner" in c.columns && ContainsInsensitive(c.columns["oneLiner"], query.q)))
  }

  predicate Filtered(p: FieldPolicy, query: Query, c: Company) {
    && (query.sector != "" && !Locked(p, "sector") ==> Holds(c, "primarySector", query.sector))
    && (query.stage != "" && !Locked(p, "stage") ==> Holds(c, "stage", query.stage))
    && (query.status != "" && !Locked(p, "status") ==> Holds(c, "status", query.status))
    && (query.country != "" && !Locked(p, "country") ==> Holds(c, "countryCode", query.country))
    && (query.domain.Some? && !Locked(p, "domain") ==>
         "domain" in c.columns && c.columns["domain"] in query.domain.value)
    && forall field :: field in c.partnerFields ==> !Narrowed(p, query, field)
  }

  lemma GateMeans(p: FieldPolicy, query: Query)
    ensures var g := Filters(p, Applied(query), p.registry);
      && (forall param :: param in g.ignored <==> Locked(p, param))
      && (forall field :: field in g.notPartner <==> Narrowed(p, query, field))
  {
    hide Filters;
    var g := Filters(p, Applied(query), p.registry);
    FiltersExactly(p, Applied(query), p.registry);
    assert forall param :: param in Applied(query) <==> Used(query, param);
    assert forall info, param :: LockedBy(p, info, param) <==> info.filter == Some(param) && Ignores(p, info);
    assert forall info :: NarrowedBy(p, query, info) <==> Narrows(p, Applied(query), info);
  }

  /** The directory lists exactly the companies the viewer may see, asked for, and past the open filters. */
  lemma ListsExactly(p: FieldPolicy, signedOut: bool, query: Query, db: map<string, Company>, id: string)
    ensures id in MatchedIds(p, signedOut, query, db) <==>
      id in db && Visible(signedOut, db[id]) && AskedFor(query, db[id]) && Filtered(p, query, db[id])
  {
    hide ContainsInsensitive, Filters;
    if id in db {
      GateMeans(p, query);
    }
  }

  /** A column the viewer's gate lets through, or lets through unless the partner wrote it. */
  predicate Compares(p: FieldPolicy, c: Company, field: string, value: string) {
    p.gate(field) == Hide
    || (Holds(c, field, value) && (p.gate(field) == HidePartner ==> field !in c.partnerFields))
  }

  lemma ListsByFilter(p: FieldPolicy, signedOut: bool, query: Query, db: map<string, Company>, id: string)
    requires CompanyBindings(p.registry) && FiltersAre(p.registry)
    ensures id in MatchedIds(p, signedOut, query, db) <==>
      && id in db && Visible(signedOut, db[id]) && AskedFor(query, db[id])
      && (query.sector != "" ==> Compares(p, db[id], "primarySector", query.sector))
      && (query.stage != "" ==> Compares(p, db[id], "stage", query.stage))
      && (query.status != "" ==> Compares(p, db[id], "status", query.status))
      && (query.country != "" ==> Compares(p, db[id], "countryCode", query.country))
      && (query.domain.Some? ==>
           p.gate("domain") == Hide
           || ("domain" in db[id].columns && db[id].columns["domain"] in query.domain.value
                && (p.gate("domain") == HidePartner ==> "domain" !in db[id].partnerFields)))
  {
    hide AskedFor, Visible, Locked, Narrowed, MatchedIds, CompanyBindings, FiltersAre, Holds;
    ListsExactly(p, signedOut, query, db, id);
    CompanyFilters(p, query);
  }

  /** The same for the company list, filter by filter. */
  lemma CompanyListsExactly(p: FieldPolicy, signedOut: bool, query: Query, db: map<string, Company>, id: string)
    requires p.registry == COMPANY_REGISTRY
    ensures id in MatchedIds(p, signedOut, query, db) <==>
      && id in db && Visible(signedOut, db[id]) && AskedFor(query, db[id])
      && (query.sector != "" ==> Compares(p, db[id], "primarySector", query.sector))
      && (query.stage != "" ==> Compares(p, db[id], "stage", query.stage))
      && (query.status != "" ==> Compares(p, db[id], "status", query.status))
      && (query.country != "" ==> Compares(p, db[id], "countryCode", query.country))
      && (query.domain.Some? ==>
           p.gate("domain") == Hide
           || ("domain" in db[id].columns && db[id].columns["domain"] in query.domain.value
                && (p.gate("domain") == HidePartner ==> "domain" !in db[id].partnerFields)))
  {
    hide AskedFor, Visible, Compares, MatchedIds, CompanyBindings, FiltersAre;
    CompanyRegistryBinds();
    CompanyFilterFields();
    ListsByFilter(p, signedOut, query, db, id);
  }

  /** The fields that have a filter, and which. */
  ghost predicate FiltersAre(registry: seq<FieldInfo>) {
    forall info :: info in registry && info.filter.Some? ==>
      && !info.partnerOnlyColumn
      && (info.field, info.filter.value) in {
           ("primarySector", "sector"), ("stage", "stage"), ("status", "status"), ("countryCode", "country"),
           ("domain", "domain")}
  }

  lemma CompanyFilterFields()
    ensures FiltersAre(COMPANY_REGISTRY)
  {
    forall i | 0 <= i < |COMPANY_REGISTRY| && COMPANY_REGISTRY[i].filter.Some?
      ensures i in {6, 7, 10, 12, 13}
    {
    }
  }

  /** The company list's two sorts are locked exactly while the amounts they order on are hidden. */
  lemma CompanySortsExactly(p: FieldPolicy, applied: set<string>, param: string)
    requires p.registry == COMPANY_REGISTRY
    ensures param in Filters(p, applied, COMPANY_REGISTRY).sorts <==>
      || (param == "raised" && p.gate("totalRaisedUsd") == Hide)
      || (param == "valuation" && p.gate("lastValuationUsd") == Hide)
  {
    hide Filters;
    FiltersExactly(p, applied, COMPANY_REGISTRY);
    CompanySorts();
    hide COMPANY_REGISTRY;
  }

  lemma CompanySorts()
    ensures forall info :: info in COMPANY_REGISTRY && info.sort.Some? <==>
      info in {RAISED, VALUATION}
  {
    assert COMPANY_REGISTRY[0] == RAISED && COMPANY_REGISTRY[1] == VALUATION;
    forall i | 0 <= i < |COMPANY_REGISTRY| && COMPANY_REGISTRY[i].sort.Some?
      ensures i in {0, 1}
    {
    }
  }

  const RAISED := FieldInfo("totalRaisedUsd", None, Some("raised"), false)
  const VALUATION := FieldInfo("lastValuationUsd", None, Some("valuation"), false)

  /** The columns of a company that are hidden from a viewer whoever wrote them. */
  lemma CompanyHides(p: FieldPolicy, c: Company, field: string)
    requires p.registry == COMPANY_REGISTRY
    ensures HiddenFrom(p, c, field) <==>
      || (field in c.partnerFields && p.gate(field) != Show)
      || (p.gate(field) == Hide && field in COMPANY_FIELDS)
  {
    hide COMPANY_REGISTRY, COMPANY_FIELDS;
    NamesRegistered(field);
  }

  const COMPANY_FIELDS: seq<string> := [
    "totalRaisedUsd", "lastValuationUsd", "headcount", "founded", "hq", "legalName", "stage", "status",
    "operatingStatus", "companyType", "primarySector", "industry", "countryCode", "domain", "websiteUrl",
    "linkedinUrl", "twitterUrl", "oneLiner", "description"
  ]

  lemma NamesRegistered(field: string)
    ensures Registered(COMPANY_REGISTRY, field) <==> field in COMPANY_FIELDS
  {
    assert |COMPANY_REGISTRY| == |COMPANY_FIELDS| == 19;
    forall i | 0 <= i < 19 ensures COMPANY_REGISTRY[i].field == COMPANY_FIELDS[i] {
      FieldAt(i);
    }
    hide COMPANY_REGISTRY, COMPANY_FIELDS;
    if field in COMPANY_FIELDS {
      var i :| 0 <= i < 19 && COMPANY_FIELDS[i] == field;
      assert COMPANY_REGISTRY[i] in COMPANY_REGISTRY;
    }
  }

  lemma FieldAt(i: int)
    requires 0 <= i < 19
    ensures COMPANY_REGISTRY[i].field == COMPANY_FIELDS[i]
  {
  }

  lemma LockedExactly(p: FieldPolicy, param: string, field: string)
    requires Binds(p.registry, param, field)
    requires forall info :: info in p.registry && info.filter == Some(param) ==>
      info.field == field && !info.partnerOnlyColumn
    ensures Locked(p, param) <==> p.gate(field) == Hide
  {
  }

  lemma NarrowedExactly(p: FieldPolicy, query: Query, param: string, field: string)
    requires Binds(p.registry, param, field) && FiltersAre(p.registry)
    requires forall info :: info in p.registry && info.field == field && info.filter.Some? ==>
      info.filter == Some(param)
    ensures Narrowed(p, query, field) <==> p.gate(field) == HidePartner && Used(query, param)
  {
    hide Used;
    var bound :| bound in p.registry && bound.field == field && bound.filter == Some(param);
  }

  /** What the registry makes of the five filters. */
  lemma CompanyFilters(p: FieldPolicy, query: Query)
    requires CompanyBindings(p.registry) && FiltersAre(p.registry)
    ensures Locked(p, "sector") <==> p.gate("primarySector") == Hide
    ensures Locked(p, "stage") <==> p.gate("stage") == Hide
    ensures Locked(p, "status") <==> p.gate("status") == Hide
    ensures Locked(p, "country") <==> p.gate("countryCode") == Hide
    ensures Locked(p, "domain") <==> p.gate("domain") == Hide
    ensures forall field :: Narrowed(p, query, field) <==>
      p.gate(field) == HidePartner && (
        || (field == "primarySector" && query.sector != "") || (field == "stage" && query.stage != "")
        || (field == "status" && query.status != "") || (field == "countryCode" && query.country != "")
        || (field == "domain" && query.domain.Some?))
  {
    hide Locked, Narrowed;
    LockedExactly(p, "sector", "primarySector");
    LockedExactly(p, "stage", "stage");
    LockedExactly(p, "status", "status");
    LockedExactly(p, "country", "countryCode");
    LockedExactly(p, "domain", "domain");
    NarrowedExactly(p, query, "sector", "primarySector");
    NarrowedExactly(p, query, "stage", "stage");
    NarrowedExactly(p, query, "status", "status");
    NarrowedExactly(p, query, "country", "countryCode");
    NarrowedExactly(p, query, "domain", "domain");
    forall field | field !in {"primarySector", "stage", "status", "countryCode", "domain"}
      ensures !Narrowed(p, query, field)
    {
      NeverNarrowed(p, query, field);
    }
  }

  lemma NeverNarrowed(p: FieldPolicy, query: Query, field: string)
    requires FiltersAre(p.registry) && field !in {"primarySector", "stage", "status", "countryCode", "domain"}
    ensures !Narrowed(p, query, field)
  {
  }

  // ----- what unlocks them --------------------------------------------------------------------------------

  /** A sort on a hidden field. */
  predicate SortLockedBy(p: FieldPolicy, info: FieldInfo, param: string) {
    info.sort == Some(param) && p.gate(info.field) == Hide
  }

  /** Whatever is locked tells what unlocks it, and nothing else does. */
  lemma {:induction false} UnlocksWhatIsLocked(p: FieldPolicy, applied: set<string>, registry: seq<FieldInfo>)
    ensures forall param :: param in Filters(p, applied, registry).unlockBy <==>
      exists info :: info in registry && (LockedBy(p, info, param) || SortLockedBy(p, info, param))
  {
    if registry != [] {
      var shorter, last := registry[..|registry| - 1], registry[|registry| - 1];
      UnlocksWhatIsLocked(p, applied, shorter);
      assert registry == shorter + [last];
      UnlocksOneMore(p, applied, last, Filters(p, applied, shorter));
      hide LockedBy, SortLockedBy, AddField;
      forall param
        ensures (exists info :: info in registry && (LockedBy(p, info, param) || SortLockedBy(p, info, param))) <==>
          || (exists info :: info in shorter && (LockedBy(p, info, param) || SortLockedBy(p, info, param)))
          || LockedBy(p, last, param) || SortLockedBy(p, last, param)
      {
      }
    }
  }

  lemma UnlocksOneMore(p: FieldPolicy, applied: set<string>, info: FieldInfo, g: DirectoryGate)
    ensures forall param :: param in AddField(p, applied, info, g).unlockBy <==>
      param in g.unlockBy || LockedBy(p, info, param) || SortLockedBy(p, info, param)
  {
  }

  /** A locked filter is unlocked by what reveals its field, the partner's values if those are what is
      hidden; by signing in where the policy names nothing. */
  lemma {:induction false} FilterUnlocks(
    p: FieldPolicy, applied: set<string>, registry: seq<FieldInfo>, info: FieldInfo, param: string
  )
    requires info in registry && LockedBy(p, info, param)
    requires forall o :: o in registry ==> o.sort != Some(param) && (o.filter == Some(param) ==> o == info)
    ensures var g, how := Filters(p, applied, registry), p.unlockBy(info.field, p.gate(info.field) == HidePartner);
      param in g.unlockBy && g.unlockBy[param] == if how == Some(Contribute) then Contribute else SignIn
  {
    var shorter, last := registry[..|registry| - 1], registry[|registry| - 1];
    assert registry == shorter + [last];
    if info in shorter {
      FilterUnlocks(p, applied, shorter, info, param);
    }
  }

  /** A locked sort asks for a contribution if any field it orders on does, and else for signing in. */
  lemma {:induction false} SortUnlocks(p: FieldPolicy, applied: set<string>, registry: seq<FieldInfo>, param: string)
    requires forall o :: o in registry ==> o.filter != Some(param)
    ensures var g := Filters(p, applied, registry);
      param in g.unlockBy ==>
        (g.unlockBy[param] == Contribute <==>
          exists info :: info in registry && SortLockedBy(p, info, param)
            && p.unlockBy(info.field, false) == Some(Contribute))
    ensures (exists info :: info in registry && SortLockedBy(p, info, param)) ==>
      param in Filters(p, applied, registry).unlockBy
  {
    if registry != [] {
      var shorter, last := registry[..|registry| - 1], registry[|registry| - 1];
      assert registry == shorter + [last];
      SortUnlocks(p, applied, shorter, param);
      UnlocksWhatIsLocked(p, applied, shorter);
    }
  }
}
