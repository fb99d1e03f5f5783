/**
 * The stored directory sort counts, the statements that recompute them for everyone or for a
 * scope, and the moderation decisions after which only a scope is recomputed.
 */
module DirectoryCounts {
  import opened Basics

  datatype Company = Company(status: ReviewStatus, mergedIntoId: Option<string>)

  datatype Role = Role(personId: Option<string>, companyId: Option<string>, status: ReviewStatus)

  datatype Person = Person(roleCount: int, companyCount: int)

  datatype Holding = Holding(investorId: Option<string>, companyId: string, status: ReviewStatus)

  datatype Investor = Investor(holdingCount: int, status: ReviewStatus)

  datatype Directory = Directory(
    companies: map<string, Company>,
    roles: map<string, Role>,
    people: map<string, Person>,
    holdings: map<string, Holding>,
    investors: map<string, Investor>
  )

  /** No id is the empty string, which the scope's `filter(Boolean)` would drop. */
  ghost predicate ValidDirectory(d: Directory) {
    && "" !in d.companies
    && (forall r :: r in d.roles ==> d.roles[r].personId != Some(""))
    && forall h :: h in d.holdings ==> d.holdings[h].investorId != Some("")
  }

  // ----- what the counts count ---------------------------------------------------------------

  predicate PublicCompany(d: Directory, c: string) {
    c in d.companies && d.companies[c].status == APPROVED && d.companies[c].mergedIntoId.None?
  }

  predicate PublicRole(d: Directory, role: Role) {
    role.status == APPROVED && (role.companyId.None? || PublicCompany(d, role.companyId.value))
  }

  predicate PublicHolding(d: Directory, holding: Holding) {
    holding.status == APPROVED && PublicCompany(d, holding.companyId)
  }

  function RolesOf(d: Directory, person: string): set<string> {
    set r | r in d.roles && d.roles[r].personId == Some(person) && PublicRole(d, d.roles[r])
  }

  /** `count(DISTINCT "companyId")` ignores NULL. */
  function CompaniesOf(d: Directory, person: string): set<string> {
    set r | r in RolesOf(d, person) && d.roles[r].companyId.Some? :: d.roles[r].companyId.value
  }

  function HoldingsOf(d: Directory, investor: string): set<string> {
    set h | h in d.holdings && d.holdings[h].investorId == Some(investor) && PublicHolding(d, d.holdings[h])
  }

  predicate PersonCounted(d: Directory, p: string)
    requires p in d.people
  {
    d.people[p].roleCount == |RolesOf(d, p)| && d.people[p].companyCount == |CompaniesOf(d, p)|
  }

  predicate InvestorCounted(d: Directory, i: string)
    requires i in d.investors
  {
    d.investors[i].holdingCount == |HoldingsOf(d, i)|
  }

  /** Every stored count is the true one. */
  ghost predicate Counted(d: Directory) {
    && (forall p :: p in d.people ==> PersonCounted(d, p))
    && (forall i :: i in d.investors ==> InvestorCounted(d, i))
  }

  // ----- the refresh statements -----------------------------------------------------------------

  datatype Scope = Scope(personIds: seq<string>, investorIds: seq<string>, companyIds: seq<string>)

  /** `[...new Set(ids.filter(Boolean))]` */
  function Unique(ids: seq<string>): set<string> {
    set id | id in ids && id != ""
  }

  /** `target`: the named people, and whoever has a role on a named company. */
  function PeopleTarget(d: Directory, ids: set<string>, companyIds: set<string>): set<string> {
    ids + set r | r in d.roles && d.roles[r].personId.Some? && d.roles[r].companyId.Some?
      && d.roles[r].companyId.value in companyIds :: d.roles[r].personId.value
  }

  function InvestorsTarget(d: Directory, ids: set<string>, companyIds: set<string>): set<string> {
    ids + set h | h in d.holdings && d.holdings[h].investorId.Some? && d.holdings[h].companyId in companyIds ::
      d.holdings[h].investorId.value
  }

  /** The condition a scoped statement adds to each of its selections; a full one adds none. */
  predicate InTarget(target: Option<set<string>>, id: string) {
    target.Some? ==> id in target.value
  }

  /** The rows `counts` groups for a person, the target's filter included. */
  function GroupedRoles(d: Directory, target: Option<set<string>>, person: string): set<string> {
    set r | r in d.roles && d.roles[r].personId == Some(person) && PublicRole(d, d.roles[r]) && InTarget(target, person)
  }

  /** `GROUP BY "personId"`: only people with at least one such row have a group. */
  function RoleGroups(d: Directory, target: Option<set<string>>): map<string, (int, int)> {
    map r | r in d.roles && d.roles[r].personId.Some? && PublicRole(d, d.roles[r])
        && InTarget(target, d.roles[r].personId.value) ::
      d.roles[r].personId.value := Group(d, GroupedRoles(d, target, d.roles[r].personId.value))
  }

  function Group(d: Directory, rows: set<string>): (int, int)
    requires rows <= d.roles.Keys
  {
    (|rows|, |set r | r in rows && d.roles[r].companyId.Some? :: d.roles[r].companyId.value|)
  }

  /** `COALESCE(k.roles, 0), COALESCE(k.companies, 0)` */
  function Recount(groups: map<string, (int, int)>, person: string): Person {
    if person in groups then Person(groups[person].0, groups[person].1) else Person(0, 0)
  }

  /** `UPDATE "Person" …`: rows in the target whose counts differ. */
  function PeopleWritten(d: Directory, target: Option<set<string>>): set<string> {
    set p | p in d.people && InTarget(target, p) && d.people[p] != Recount(RoleGroups(d, target), p)
  }

  function PeopleUpdated(d: Directory, target: Option<set<string>>): (r: map<string, Person>)
    ensures r.Keys == d.people.Keys
  {
    map p | p in d.people ::
      if p in PeopleWritten(d, target) then Recount(RoleGroups(d, target), p) else d.people[p]
  }

  function GroupedHoldings(d: Directory, target: Option<set<string>>, investor: string): set<string> {
    set h | h in d.holdings && d.holdings[h].investorId == Some(investor) && PublicHolding(d, d.holdings[h])
      && InTarget(target, investor)
  }

  function HoldingGroups(d: Directory, target: Option<set<string>>): map<string, int> {
    map h | h in d.holdings && d.holdings[h].investorId.Some? && PublicHolding(d, d.holdings[h])
        && InTarget(target, d.holdings[h].investorId.value) ::
      d.holdings[h].investorId.value := |GroupedHoldings(d, target, d.holdings[h].investorId.value)|
  }

  function RecountHoldings(groups: map<string, int>, investor: string): int {
    if investor in groups then groups[investor] else 0
  }

  function InvestorsWritten(d: Directory, target: Option<set<string>>): set<string> {
    set i | i in d.investors && InTarget(target, i)
      && d.investors[i].holdingCount != RecountHoldings(HoldingGroups(d, target), i)
  }

  function InvestorsUpdated(d: Directory, target: Option<set<string>>): (r: map<string, Investor>)
    ensures r.Keys == d.investors.Keys
  {
    map i | i in d.investors ::
      if i in InvestorsWritten(d, target)
      then d.investors[i].(holdingCount := RecountHoldings(HoldingGroups(d, target), i))
      else d.investors[i]
  }

  /** Everyone in the target has their true counts and nobody else moved; `written` rows had been wrong. */
  ghost predicate PeopleSetRight(
    d: Directory, target: Option<set<string>>, people: map<string, Person>, written: nat
  ) {
    && people.Keys == d.people.Keys
    && (forall p :: p in d.people ==> PersonSetRight(d, target, p, people[p]))
    && written == |set p | p in d.people && people[p] != d.people[p]|
  }

  /**
   * In the target, the approved roles that name no company or a public one, and the public companies
   * among them, each counted once; outside it the row as it was.
   */
  ghost predicate PersonSetRight(d: Directory, target: Option<set<string>>, p: string, row: Person)
    requires p in d.people
  {
    if target.Some? && p !in target.value then row == d.people[p]
    else
      && row.roleCount == |set r |
           r in d.roles && d.roles[r].personId == Some(p) && d.roles[r].status == APPROVED
           && (d.roles[r].companyId.None?
               || (d.roles[r].companyId.value in d.companies
                   && d.companies[d.roles[r].companyId.value].status == APPROVED
                   && d.companies[d.roles[r].companyId.value].mergedIntoId.None?))|
      && row.companyCount == |set c |
           c in d.companies && d.companies[c].status == APPROVED && d.companies[c].mergedIntoId.None?
           && (exists r :: r in d.roles && d.roles[r] == Role(Some(p), Some(c), APPROVED))|
  }

  ghost predicate InvestorsSetRight(
    d: Directory, target: Option<set<string>>, investors: map<string, Investor>, written: nat
  ) {
    && investors.Keys == d.investors.Keys
    && (forall i :: i in d.investors ==> InvestorSetRight(d, target, i, investors[i]))
    && written == |set i | i in d.investors && investors[i] != d.investors[i]|
  }

  /** In the target, the approved holdings of public companies; a firm's other columns stay. */
  ghost predicate InvestorSetRight(d: Directory, target: Option<set<string>>, i: string, row: Investor)
    requires i in d.investors
  {
    if target.Some? && i !in target.value then row == d.investors[i]
    else
      && row.status == d.investors[i].status
      && row.holdingCount == |set h |
           h in d.holdings && d.holdings[h].investorId == Some(i) && d.holdings[h].status == APPROVED
           && d.holdings[h].companyId in d.companies
           && d.companies[d.holdings[h].companyId].status == APPROVED
           && d.companies[d.holdings[h].companyId].mergedIntoId.None?|
  }

  lemma PersonMeans(d: Directory, target: Option<set<string>>, p: string)
    requires p in d.people
    ensures PersonSetRight(d, target, p,
      if InTarget(target, p) then Person(|RolesOf(d, p)|, |CompaniesOf(d, p)|) else d.people[p])
  {
    assert RolesOf(d, p) == set r |
      r in d.roles && d.roles[r].personId == Some(p) && d.roles[r].status == APPROVED
      && (d.roles[r].companyId.None?
          || (d.roles[r].companyId.value in d.companies
              && d.companies[d.roles[r].companyId.value].status == APPROVED
              && d.companies[d.roles[r].companyId.value].mergedIntoId.None?));
    assert CompaniesOf(d, p) == set c |
      c in d.companies && d.companies[c].status == APPROVED && d.companies[c].mergedIntoId.None?
      && (exists r :: r in d.roles && d.roles[r] == Role(Some(p), Some(c), APPROVED))
    by {
      forall c | c in d.companies && d.companies[c].status == APPROVED && d.companies[c].mergedIntoId.None?
          && exists r :: r in d.roles && d.roles[r] == Role(Some(p), Some(c), APPROVED)
        ensures c in CompaniesOf(d, p)
      {
        var r :| r in d.roles && d.roles[r] == Role(Some(p), Some(c), APPROVED);
        assert r in RolesOf(d, p);
      }
    }
  }

  lemma InvestorMeans(d: Directory, target: Option<set<string>>, i: string)
    requires i in d.investors
    ensures InvestorSetRight(d, target, i,
      if InTarget(target, i) then d.investors[i].(holdingCount := |HoldingsOf(d, i)|) else d.investors[i])
  {
    assert HoldingsOf(d, i) == set h |
      h in d.holdings && d.holdings[h].investorId == Some(i) && d.holdings[h].status == APPROVED
      && d.holdings[h].companyId in d.companies
      && d.companies[d.holdings[h].companyId].status == APPROVED
      && d.companies[d.holdings[h].companyId].mergedIntoId.None?;
  }

  class DirectoryTables {
    var companies: map<string, Company>
    var roles: map<string, Role>
    var people: map<string, Person>
    var holdings: map<string, Holding>
    var investors: map<string, Investor>

    function Snapshot(): Directory
      reads this
    {
      Directory(companies, roles, people, holdings, investors)
    }

    constructor (d: Directory)
      ensures Snapshot() == d
    {
      companies, roles, people := d.companies, d.roles, d.people;
      holdings, investors := d.holdings, d.investors;
    }

    /** Everyone in the target has their true counts, nobody else moves, and only wrong rows are written. */
    method UpdatePeople(target: Option<set<string>>) returns (written: nat)
      modifies this`people
      ensures people == PeopleUpdated(old(Snapshot()), target)
      ensures PeopleSetRight(old(Snapshot()), target, people, written)
      ensures written == |PeopleWritten(old(Snapshot()), target)|
    {
      hide RolesOf, CompaniesOf, RoleGroups, PeopleUpdated, PersonSetRight;
      PeopleStatement(Snapshot(), target);
      written := |PeopleWritten(Snapshot(), target)|;
      people := PeopleUpdated(Snapshot(), target);
    }

    /** The same for firms, whose other columns stay. */
    method UpdateInvestors(target: Option<set<string>>) returns (written: nat)
      modifies this`investors
      ensures investors == InvestorsUpdated(old(Snapshot()), target)
      ensures InvestorsSetRight(old(Snapshot()), target, investors, written)
      ensures written == |InvestorsWritten(old(Snapshot()), target)|
    {
      hide HoldingsOf, HoldingGroups, InvestorsUpdated, InvestorSetRight;
      InvestorsStatement(Snapshot(), target);
      written := |InvestorsWritten(Snapshot(), target)|;
      investors := InvestorsUpdated(Snapshot(), target);
    }

    /** At most one statement per table: a table the scope names nobody in is left alone. */
    method RefreshDirectoryCounts(scope: Option<Scope>) returns (peopleWritten: nat, investorsWritten: nat)
      modifies this`people, this`investors
      ensures Snapshot() == Refreshed(old(Snapshot()), scope)
      ensures (peopleWritten, investorsWritten) == RowsWritten(old(Snapshot()), scope)
      ensures RefreshSetsRight(old(Snapshot()), scope, Snapshot(), peopleWritten, investorsWritten)
    {
      hide RefreshSetsRight;
      RefreshMeans(Snapshot(), scope);
      hide PeopleUpdated, InvestorsUpdated, PeopleWritten, InvestorsWritten, PeopleTarget, InvestorsTarget;
      hide PeopleSetRight, InvestorsSetRight, Unique;
      ghost var before := Snapshot();
      if scope.None? {
        peopleWritten := UpdatePeople(None);
        UpdatesIndependent(before, people, None);
        investorsWritten := UpdateInvestors(None);
        return;
      }
      var personIds, investorIds := Unique(scope.value.personIds), Unique(scope.value.investorIds);
      var companyIds := Unique(scope.value.companyIds);
      peopleWritten, investorsWritten := 0, 0;
      if personIds != {} || companyIds != {} {
        peopleWritten := UpdatePeople(Some(PeopleTarget(Snapshot(), personIds, companyIds)));
      }
      TargetsIndependent(before, people, investorIds, companyIds);
      if investorIds != {} || companyIds != {} {
        var target := InvestorsTarget(Snapshot(), investorIds, companyIds);
        UpdatesIndependent(before, people, Some(target));
        investorsWritten := UpdateInvestors(Some(target));
      }
    }
  }

  /** The first statement writes nothing the second one reads. */
  lemma UpdatesIndependent(d: Directory, people: map<string, Person>, target: Option<set<string>>)
    ensures InvestorsWritten(d.(people := people), target) == InvestorsWritten(d, target)
    ensures InvestorsUpdated(d.(people := people), target) == InvestorsUpdated(d, target)
  {
    hide HoldingGroups, RecountHoldings;
    HoldingGroupsUnmoved(d, d.(people := people), target);
  }

  lemma TargetsIndependent(d: Directory, people: map<string, Person>, ids: set<string>, companyIds: set<string>)
    ensures InvestorsTarget(d.(people := people), ids, companyIds) == InvestorsTarget(d, ids, companyIds)
  {
  }

  // ----- what a refresh comes to -------------------------------------------------------------------

  predicate TouchesPeople(scope: Scope) {
    Unique(scope.personIds) != {} || Unique(scope.companyIds) != {}
  }

  predicate TouchesInvestors(scope: Scope) {
    Unique(scope.investorIds) != {} || Unique(scope.companyIds) != {}
  }

  function ScopedPeople(d: Directory, scope: Scope): set<string> {
    PeopleTarget(d, Unique(scope.personIds), Unique(scope.companyIds))
  }

  function ScopedInvestors(d: Directory, scope: Scope): set<string> {
    InvestorsTarget(d, Unique(scope.investorIds), Unique(scope.companyIds))
  }

  function Refreshed(d: Directory, scope: Option<Scope>): Directory {
    match scope
    case None => d.(people := PeopleUpdated(d, None), investors := InvestorsUpdated(d, None))
    case Some(s) => d.(
      people := if TouchesPeople(s) then PeopleUpdated(d, Some(ScopedPeople(d, s))) else d.people,
      investors := if TouchesInvestors(s) then InvestorsUpdated(d, Some(ScopedInvestors(d, s))) else d.investors)
  }

  function RowsWritten(d: Directory, scope: Option<Scope>): (nat, nat) {
    match scope
    case None => (|PeopleWritten(d, None)|, |InvestorsWritten(d, None)|)
    case Some(s) => (
      if TouchesPeople(s) then |PeopleWritten(d, Some(ScopedPeople(d, s)))| else 0,
      if TouchesInvestors(s) then |InvestorsWritten(d, Some(ScopedInvestors(d, s)))| else 0)
  }

  lemma RecountIsTrue(d: Directory, target: Option<set<string>>, p: string)
    requires InTarget(target, p)
    ensures Recount(RoleGroups(d, target), p) == Person(|RolesOf(d, p)|, |CompaniesOf(d, p)|)
  {
    assert GroupedRoles(d, target, p) == RolesOf(d, p);
    assert forall r :: r in RolesOf(d, p) ==> p in RoleGroups(d, target);
    if p in RoleGroups(d, target) {
      assert RoleGroups(d, target)[p] == Group(d, RolesOf(d, p));
    } else {
      assert RolesOf(d, p) == {} && CompaniesOf(d, p) == {};
    }
  }

  lemma RecountHoldingsIsTrue(d: Directory, target: Option<set<string>>, i: string)
    requires InTarget(target, i)
    ensures RecountHoldings(HoldingGroups(d, target), i) == |HoldingsOf(d, i)|
  {
    assert GroupedHoldings(d, target, i) == HoldingsOf(d, i);
    assert forall h :: h in HoldingsOf(d, i) ==> i in HoldingGroups(d, target);
    if i !in HoldingGroups(d, target) {
      assert HoldingsOf(d, i) == {};
    }
  }

  /** Counts are taken from roles, companies and holdings alone. */
  lemma SameRowsSameCounts(a: Directory, b: Directory)
    requires a.companies == b.companies && a.roles == b.roles && a.holdings == b.holdings
    ensures forall p :: RolesOf(a, p) == RolesOf(b, p) && CompaniesOf(a, p) == CompaniesOf(b, p)
    ensures forall i :: HoldingsOf(a, i) == HoldingsOf(b, i)
  {
    assert forall c :: PublicCompany(a, c) == PublicCompany(b, c);
    forall p ensures RolesOf(a, p) == RolesOf(b, p) && CompaniesOf(a, p) == CompaniesOf(b, p) {
      assert RolesOf(a, p) == RolesOf(b, p);
    }
    forall i ensures HoldingsOf(a, i) == HoldingsOf(b, i) {
    }
  }

  /** Refreshing changes no row a count is taken from. */
  lemma CountsUnmoved(d: Directory, scope: Option<Scope>)
    ensures var r := Refreshed(d, scope);
      && (forall p :: RolesOf(r, p) == RolesOf(d, p) && CompaniesOf(r, p) == CompaniesOf(d, p))
      && (forall i :: HoldingsOf(r, i) == HoldingsOf(d, i))
      && r.people.Keys == d.people.Keys && r.investors.Keys == d.investors.Keys
  {
    hide RolesOf, CompaniesOf, HoldingsOf;
    SameRowsSameCounts(Refreshed(d, scope), d);
  }

  lemma PersonUpdated(d: Directory, target: Option<set<string>>, p: string)
    requires p in d.people
    ensures PeopleUpdated(d, target)[p] ==
      if InTarget(target, p) then Person(|RolesOf(d, p)|, |CompaniesOf(d, p)|) else d.people[p]
  {
    if InTarget(target, p) {
      RecountIsTrue(d, target, p);
    }
  }

  lemma InvestorUpdated(d: Directory, target: Option<set<string>>, i: string)
    requires i in d.investors
    ensures InvestorsUpdated(d, target)[i] ==
      if InTarget(target, i) then d.investors[i].(holdingCount := |HoldingsOf(d, i)|) else d.investors[i]
  {
    if InTarget(target, i) {
      RecountHoldingsIsTrue(d, target, i);
    }
  }

  /** What the people statement comes to: the rows of its target whose counts are wrong, set right. */
  lemma PeopleStatement(d: Directory, target: Option<set<string>>)
    ensures forall p :: p in d.people ==>
      PeopleUpdated(d, target)[p] ==
        if InTarget(target, p) then Person(|RolesOf(d, p)|, |CompaniesOf(d, p)|) else d.people[p]
    ensures PeopleSetRight(d, target, PeopleUpdated(d, target), |PeopleWritten(d, target)|)
  {
    hide RolesOf, CompaniesOf, RoleGroups, PeopleUpdated, PersonSetRight;
    forall p | p in d.people
      ensures PeopleUpdated(d, target)[p] ==
        if InTarget(target, p) then Person(|RolesOf(d, p)|, |CompaniesOf(d, p)|) else d.people[p]
      ensures PersonSetRight(d, target, p, PeopleUpdated(d, target)[p])
      ensures p in PeopleWritten(d, target) <==> PeopleUpdated(d, target)[p] != d.people[p]
    {
      PersonUpdated(d, target, p);
      PersonMeans(d, target, p);
      if InTarget(target, p) {
        RecountIsTrue(d, target, p);
      }
    }
    assert PeopleWritten(d, target) == set p | p in d.people && PeopleUpdated(d, target)[p] != d.people[p];
  }

  lemma InvestorsStatement(d: Directory, target: Option<set<string>>)
    ensures forall i :: i in d.investors ==>
      InvestorsUpdated(d, target)[i] ==
        if InTarget(target, i) then d.investors[i].(holdingCount := |HoldingsOf(d, i)|) else d.investors[i]
    ensures InvestorsSetRight(d, target, InvestorsUpdated(d, target), |InvestorsWritten(d, target)|)
  {
    hide HoldingsOf, HoldingGroups, InvestorsUpdated, InvestorSetRight;
    forall i | i in d.investors
      ensures InvestorsUpdated(d, target)[i] ==
        if InTarget(target, i) then d.investors[i].(holdingCount := |HoldingsOf(d, i)|) else d.investors[i]
      ensures InvestorSetRight(d, target, i, InvestorsUpdated(d, target)[i])
      ensures i in InvestorsWritten(d, target) <==> InvestorsUpdated(d, target)[i] != d.investors[i]
    {
      InvestorUpdated(d, target, i);
      InvestorMeans(d, target, i);
      if InTarget(target, i) {
        RecountHoldingsIsTrue(d, target, i);
      }
    }
    assert InvestorsWritten(d, target) ==
      set i | i in d.investors && InvestorsUpdated(d, target)[i] != d.investors[i];
  }

  /** A full refresh makes every stored count true. */
  lemma FullRefreshCounts(d: Directory)
    ensures Counted(Refreshed(d, None))
  {
    hide PeopleUpdated, InvestorsUpdated, RolesOf, CompaniesOf, HoldingsOf;
    CountsUnmoved(d, None);
    forall p | p in d.people ensures PersonCounted(Refreshed(d, None), p) {
      PersonUpdated(d, None, p);
    }
    forall i | i in d.investors ensures InvestorCounted(Refreshed(d, None), i) {
      InvestorUpdated(d, None, i);
    }
  }

  /** A scoped refresh is the full refresh on the people and firms its target reaches, and leaves
      everyone else's row as it was. */
  lemma ScopedIsFullRestricted(d: Directory, scope: Scope)
    ensures var scoped, full := Refreshed(d, Some(scope)), Refreshed(d, None);
      && (forall p :: p in d.people ==>
           scoped.people[p] == if p in ScopedPeople(d, scope) then full.people[p] else d.people[p])
      && (forall i :: i in d.investors ==>
           scoped.investors[i] == if i in ScopedInvestors(d, scope) then full.investors[i] else d.investors[i])
  {
    hide PeopleUpdated, InvestorsUpdated, RolesOf, CompaniesOf, HoldingsOf;
    NothingTouched(d, scope);
    forall p | p in d.people
      ensures Refreshed(d, Some(scope)).people[p] ==
        if p in ScopedPeople(d, scope) then Refreshed(d, None).people[p] else d.people[p]
    {
      PersonUpdated(d, None, p);
      PersonUpdated(d, Some(ScopedPeople(d, scope)), p);
    }
    forall i | i in d.investors
      ensures Refreshed(d, Some(scope)).investors[i] ==
        if i in ScopedInvestors(d, scope) then Refreshed(d, None).investors[i] else d.investors[i]
    {
      InvestorUpdated(d, None, i);
      InvestorUpdated(d, Some(ScopedInvestors(d, scope)), i);
    }
  }

  /** Everyone without a scope; with one, the named people and those with a role on a named company. */
  ghost predicate PersonReached(d: Directory, scope: Option<Scope>, p: string) {
    scope.None? || (p != "" && p in scope.value.personIds)
    || exists r :: r in d.roles && d.roles[r].personId == Some(p) && d.roles[r].companyId.Some?
         && d.roles[r].companyId.value != "" && d.roles[r].companyId.value in scope.value.companyIds
  }

  ghost predicate InvestorReached(d: Directory, scope: Option<Scope>, i: string) {
    scope.None? || (i != "" && i in scope.value.investorIds)
    || exists h :: h in d.holdings && d.holdings[h].investorId == Some(i)
         && d.holdings[h].companyId != "" && d.holdings[h].companyId in scope.value.companyIds
  }

  /** Whoever is reached has their true counts, whoever is not their old row; changed rows are the written ones. */
  ghost predicate RefreshSetsRight(
    d: Directory, scope: Option<Scope>, after: Directory, peopleWritten: nat, investorsWritten: nat
  ) {
    && after.companies == d.companies && after.roles == d.roles && after.holdings == d.holdings
    && after.people.Keys == d.people.Keys && after.investors.Keys == d.investors.Keys
    && (forall p :: p in d.people ==>
         PersonSetRight(d, if PersonReached(d, scope, p) then None else Some({}), p, after.people[p]))
    && (forall i :: i in d.investors ==>
         InvestorSetRight(d, if InvestorReached(d, scope, i) then None else Some({}), i, after.investors[i]))
    && peopleWritten == |set p | p in d.people && after.people[p] != d.people[p]|
    && investorsWritten == |set i | i in d.investors && after.investors[i] != d.investors[i]|
  }

  function TargetOfPeople(d: Directory, scope: Option<Scope>): Option<set<string>> {
    if scope.None? then None else Some(ScopedPeople(d, scope.value))
  }

  function TargetOfInvestors(d: Directory, scope: Option<Scope>): Option<set<string>> {
    if scope.None? then None else Some(ScopedInvestors(d, scope.value))
  }

  lemma ReachedIsTarget(d: Directory, scope: Option<Scope>, id: string)
    ensures PersonReached(d, scope, id) <==> InTarget(TargetOfPeople(d, scope), id)
    ensures InvestorReached(d, scope, id) <==> InTarget(TargetOfInvestors(d, scope), id)
  {
  }

  lemma EmptyTargetWritesNothing(d: Directory)
    ensures PeopleWritten(d, Some({})) == {} && InvestorsWritten(d, Some({})) == {}
    ensures PeopleUpdated(d, Some({})) == d.people && InvestorsUpdated(d, Some({})) == d.investors
  {
  }

  /** A statement that is skipped would have written nothing. */
  lemma RefreshedByTarget(d: Directory, scope: Option<Scope>)
    ensures Refreshed(d, scope) == d.(
      people := PeopleUpdated(d, TargetOfPeople(d, scope)),
      investors := InvestorsUpdated(d, TargetOfInvestors(d, scope)))
    ensures RowsWritten(d, scope) ==
      (|PeopleWritten(d, TargetOfPeople(d, scope))|, |InvestorsWritten(d, TargetOfInvestors(d, scope))|)
  {
    hide PeopleUpdated, InvestorsUpdated, PeopleWritten, InvestorsWritten, ScopedPeople, ScopedInvestors;
    EmptyTargetWritesNothing(d);
    if scope.Some? {
      NothingTouched(d, scope.value);
    }
  }

  lemma RefreshMeans(d: Directory, scope: Option<Scope>)
    ensures RefreshSetsRight(d, scope, Refreshed(d, scope), RowsWritten(d, scope).0, RowsWritten(d, scope).1)
  {
    hide PeopleUpdated, InvestorsUpdated, PeopleWritten, InvestorsWritten, TargetOfPeople, TargetOfInvestors;
    hide Refreshed, RowsWritten, PersonReached, InvestorReached;
    RefreshedByTarget(d, scope);
    PeopleStatement(d, TargetOfPeople(d, scope));
    InvestorsStatement(d, TargetOfInvestors(d, scope));
    forall id
      ensures PersonReached(d, scope, id) <==> InTarget(TargetOfPeople(d, scope), id)
      ensures InvestorReached(d, scope, id) <==> InTarget(TargetOfInvestors(d, scope), id)
    {
      ReachedIsTarget(d, scope, id);
    }
  }

  /** Where a statement is skipped, its target would have been empty. */
  lemma NothingTouched(d: Directory, scope: Scope)
    ensures !TouchesPeople(scope) ==> ScopedPeople(d, scope) == {}
    ensures !TouchesInvestors(scope) ==> ScopedInvestors(d, scope) == {}
  {
  }

  /** A scope that names nothing changes nothing and writes nothing. */
  lemma EmptyScopeWritesNothing(d: Directory, scope: Scope)
    requires forall id :: id in scope.personIds || id in scope.investorIds || id in scope.companyIds ==> id == ""
    ensures Refreshed(d, Some(scope)) == d && RowsWritten(d, Some(scope)) == (0, 0)
  {
    assert Unique(scope.personIds) == {} && Unique(scope.investorIds) == {} && Unique(scope.companyIds) == {};
  }

  lemma TargetUnmoved(d: Directory, scope: Scope)
    ensures ScopedPeople(Refreshed(d, Some(scope)), scope) == ScopedPeople(d, scope)
    ensures ScopedInvestors(Refreshed(d, Some(scope)), scope) == ScopedInvestors(d, scope)
  {
  }

  lemma NothingLeftToWrite(d: Directory, people: Option<set<string>>, firms: Option<set<string>>, r: Directory)
    requires r.companies == d.companies && r.roles == d.roles && r.holdings == d.holdings
    ensures r.people == PeopleUpdated(d, people) ==> PeopleWritten(r, people) == {}
    ensures r.investors == InvestorsUpdated(d, firms) ==> InvestorsWritten(r, firms) == {}
  {
    hide Recount, RoleGroups, HoldingGroups, RecountHoldings;
    var same := d.(people := r.people, investors := r.investors);
    assert r == same;
    RoleGroupsUnmoved(d, r, people);
    HoldingGroupsUnmoved(d, r, firms);
  }

  lemma RoleGroupsUnmoved(d: Directory, r: Directory, target: Option<set<string>>)
    requires r.companies == d.companies && r.roles == d.roles
    ensures RoleGroups(r, target) == RoleGroups(d, target)
  {
    assert forall c :: PublicCompany(r, c) == PublicCompany(d, c);
    assert forall p :: GroupedRoles(r, target, p) == GroupedRoles(d, target, p);
  }

  lemma HoldingGroupsUnmoved(d: Directory, r: Directory, target: Option<set<string>>)
    requires r.companies == d.companies && r.holdings == d.holdings
    ensures HoldingGroups(r, target) == HoldingGroups(d, target)
  {
    assert forall c :: PublicCompany(r, c) == PublicCompany(d, c);
    assert forall i :: GroupedHoldings(r, target, i) == GroupedHoldings(d, target, i);
  }

  lemma NoWriteNoChange(d: Directory, people: Option<set<string>>, firms: Option<set<string>>)
    ensures PeopleWritten(d, people) == {} ==> PeopleUpdated(d, people) == d.people
    ensures InvestorsWritten(d, firms) == {} ==> InvestorsUpdated(d, firms) == d.investors
  {
    hide Recount, RoleGroups, HoldingGroups, RecountHoldings;
  }

  /** Run again on what it left, a refresh writes no row, whatever its scope. */
  lemma SecondRefreshWritesNothing(d: Directory, scope: Option<Scope>)
    ensures RowsWritten(Refreshed(d, scope), scope) == (0, 0)
    ensures Refreshed(Refreshed(d, scope), scope) == Refreshed(d, scope)
  {
    hide PeopleUpdated, InvestorsUpdated, PeopleWritten, InvestorsWritten, ScopedPeople, ScopedInvestors;
    var r := Refreshed(d, scope);
    match scope {
      case None =>
        NothingLeftToWrite(d, None, None, r);
        NoWriteNoChange(r, None, None);
      case Some(s) =>
        TargetUnmoved(d, s);
        NothingLeftToWrite(d, Some(ScopedPeople(d, s)), Some(ScopedInvestors(d, s)), r);
        NoWriteNoChange(r, Some(ScopedPeople(d, s)), Some(ScopedInvestors(d, s)));
    }
  }
}
