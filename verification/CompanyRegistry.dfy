/** The company fields the policy covers, and exactly when their directory shows a withheld one. */
module CompanyRegistry {
  import opened Basics
  import opened FieldGate
  import opened DirectoryRead
  import opened DirectorySearch

  function Plain(field: string): FieldInfo {
    FieldInfo(field, None, None, false)
  }

  function Filter(field: string, param: string): FieldInfo {
    FieldInfo(field, Some(param), None, false)
  }

  /** `FIELD_REGISTRY.company` */
  const COMPANY_REGISTRY: seq<FieldInfo> := [
    FieldInfo("totalRaisedUsd", None, Some("raised"), false),
    FieldInfo("lastValuationUsd", None, Some("valuation"), false),
    Plain("headcount"),
    Plain("founded"),
    Plain("hq"),
    Plain("legalName"),
    Filter("stage", "stage"),
    Filter("status", "status"),
    Plain("operatingStatus"),
    Plain("companyType"),
    Filter("primarySector", "sector"),
    Plain("industry"),
    Filter("countryCode", "country"),
    Filter("domain", "domain"),
    Plain("websiteUrl"),
    Plain("linkedinUrl"),
    Plain("twitterUrl"),
    Plain("oneLiner"),
    Plain("description")
  ]

  /** Every filter of the company list is bound to the column it is matched against. */
  lemma CompanyRegistryBinds()
    ensures CompanyBindings(COMPANY_REGISTRY)
  {
    assert COMPANY_REGISTRY[10] == Filter("primarySector", "sector");
    assert COMPANY_REGISTRY[6] == Filter("stage", "stage");
    assert COMPANY_REGISTRY[7] == Filter("status", "status");
    assert COMPANY_REGISTRY[12] == Filter("countryCode", "country");
    assert COMPANY_REGISTRY[13] == Filter("domain", "domain");
  }

  lemma OneLinerUnfiltered()
    ensures Unfiltered(COMPANY_REGISTRY, "oneLiner")
  {
    forall info | info in COMPANY_REGISTRY && info.field == "oneLiner" ensures info.filter.None? {
    }
  }

  /**
   * In the company list, under any gate: what a search matches is independent of the values withheld
   * from the viewer if and only if there is no search text, the one-liner is open to the viewer, or
   * the query can match nobody.
   */
  lemma CompanySearchTellsNothingExactlyWhen(p: FieldPolicy, signedOut: bool, query: Query)
    requires p.registry == COMPANY_REGISTRY
    ensures TellsNothing(p, signedOut, query) <==>
      query.q == "" || p.gate("oneLiner") == Show || AsksForNothing(p, query)
  {
    hide TellsNothing, AsksForNothing, Unfiltered, CompanyBindings;
    CompanyRegistryBinds();
    OneLinerUnfiltered();
    SearchTellsNothingExactlyWhen(p, signedOut, query);
  }
}
