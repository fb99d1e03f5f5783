/** The counts stay true after every moderation decision, though only a scope is recomputed. */
module ModeratedCounts {
  import opened Basics
  import opened DirectoryCounts

  /** The reviewable types whose decisions touch the tables counts are taken from. */
  datatype Kind = CompanyRow | RoleRow | HoldingRow | OtherRow

  /** The human a contributed name resolves to: nobody (suppressed), a known person, or a new row. */
  datatype Resolution = Nobody | Known(personId: string) | Created(personId: string)

  datatype Decision = Decision(kind: Kind, id: string, approved: bool, resolution: Resolution)

  predicate Found(d: Directory, e: Decision) {
    match e.kind
    case CompanyRow => e.id in d.companies
    case RoleRow => e.id in d.roles
    case HoldingRow => e.id in d.holdings
    case OtherRow => true
  }

  predicate ValidDecision(d: Directory, e: Decision) {
    e.approved && e.kind == RoleRow ==>
      match e.resolution
      case Nobody => true
      case Known(p) => p != ""
      case Created(p) => p != "" && p !in d.people && forall r :: r in d.roles ==> d.roles[r].personId != Some(p)
  }

  /** `applyDecision`, on the tables the counts are taken from. */
  function Decided(d: Directory, e: Decision): Directory
    requires Found(d, e)
  {
    var status := if e.approved then APPROVED else REJECTED;
    match e.kind
    case OtherRow => d
    case CompanyRow => d.(companies := d.companies[e.id := d.companies[e.id].(status := status)])
    case RoleRow =>
      var role := d.roles[e.id].(status := status);
      if !e.approved || e.resolution.Nobody? then d.(roles := d.roles[e.id := role])
      else d.(
        roles := d.roles[e.id := role.(personId := Some(e.resolution.personId))],
        people := if e.resolution.Created? then d.people[e.resolution.personId := Person(0, 0)] else d.people)
    case HoldingRow =>
      var holding := d.holdings[e.id].(status := status);
      d.(
        holdings := d.holdings[e.id := holding],
        investors :=
          if e.approved && holding.investorId.Some? && holding.investorId.value in d.investors
            && d.investors[holding.investorId.value].status == PENDING
          then d.investors[holding.investorId.value := d.investors[holding.investorId.value].(status := APPROVED)]
          else d.investors)
  }

  function CountScope(d: Directory, e: Decision): Option<Scope> {
    match e.kind
    case CompanyRow => Some(Scope([], [], [e.id]))
    case RoleRow =>
      if e.id in d.roles && d.roles[e.id].personId.Some? && d.roles[e.id].personId.value != ""
      then Some(Scope([d.roles[e.id].personId.value], [], [])) else None
    case HoldingRow =>
      if e.id in d.holdings && d.holdings[e.id].investorId.Some? && d.holdings[e.id].investorId.value != ""
      then Some(Scope([], [d.holdings[e.id].investorId.value], [])) else None
    case OtherRow => None
  }

  function MergeScopes(a: Option<Scope>, b: Option<Scope>): Option<Scope> {
    if a.None? then b
    else if b.None? then a
    else Some(Scope(
      a.value.personIds + b.value.personIds,
      a.value.investorIds + b.value.investorIds,
      a.value.companyIds + b.value.companyIds))
  }

  function BothScopes(d: Directory, e: Decision): Option<Scope>
    requires Found(d, e)
  {
    MergeScopes(CountScope(d, e), CountScope(Decided(d, e), e))
  }

  /** `moderate`: decide, then refresh the scopes the row had before and has after. */
  function Moderated(d: Directory, e: Decision): Directory {
    if !Found(d, e) then d
    else
      var scope := BothScopes(d, e);
      if scope.None? then Decided(d, e) else Refreshed(Decided(d, e), scope)
  }

  /** The tables differ in one row at most. */
  ghost predicate OnlyAt<T>(before: map<string, T>, after: map<string, T>, id: string) {
    && (forall o :: o != id ==> (o in after <==> o in before))
    && forall o :: o in before && o != id ==> after[o] == before[o]
  }

  function Outcome(e: Decision): ReviewStatus {
    if e.approved then APPROVED else REJECTED
  }

  /** The decided row takes the new status, and a role so approved the human it was resolved to. */
  ghost predicate RowDecided(d: Directory, e: Decision, d': Directory)
    requires Found(d, e)
  {
    match e.kind
    case OtherRow => true
    case CompanyRow =>
      && e.id in d'.companies && d'.companies[e.id].status == Outcome(e)
      && d'.companies[e.id].mergedIntoId == d.companies[e.id].mergedIntoId
    case RoleRow =>
      && e.id in d'.roles && d'.roles[e.id].status == Outcome(e)
      && d'.roles[e.id].companyId == d.roles[e.id].companyId
      && d'.roles[e.id].personId ==
           if e.approved && !e.resolution.Nobody? then Some(e.resolution.personId) else d.roles[e.id].personId
    case HoldingRow =>
      && e.id in d'.holdings && d'.holdings[e.id].status == Outcome(e)
      && d'.holdings[e.id].investorId == d.holdings[e.id].investorId
      && d'.holdings[e.id].companyId == d.holdings[e.id].companyId
  }

  /** The holding whose approval publishes a firm that was waiting for it. */
  predicate Publishes(d: Directory, e: Decision, firm: string) {
    && e.kind == HoldingRow && e.approved && e.id in d.holdings && d.holdings[e.id].investorId == Some(firm)
    && firm in d.investors && d.investors[firm].status == PENDING
  }

  /** Nothing else moves, but for a new human without counts and a firm that is published. */
  ghost predicate OthersStay(d: Directory, e: Decision, d': Directory) {
    && (if e.kind == CompanyRow then OnlyAt(d.companies, d'.companies, e.id) else d'.companies == d.companies)
    && (if e.kind == RoleRow then OnlyAt(d.roles, d'.roles, e.id) else d'.roles == d.roles)
    && (if e.kind == HoldingRow then OnlyAt(d.holdings, d'.holdings, e.id) else d'.holdings == d.holdings)
    && (if e.kind == RoleRow && e.approved && e.resolution.Created?
        then OnlyAt(d.people, d'.people, e.resolution.personId)
          && e.resolution.personId in d'.people && d'.people[e.resolution.personId] == Person(0, 0)
        else d'.people == d.people)
    && d'.investors.Keys == d.investors.Keys
    && forall firm :: firm in d.investors ==>
         && d'.investors[firm].holdingCount == d.investors[firm].holdingCount
         && d'.investors[firm].status == if Publishes(d, e, firm) then APPROVED else d.investors[firm].status
  }

  /** The writes of the decision, one table row at a time. */
  method ApplyDecision(tables: DirectoryTables, e: Decision)
    requires Found(tables.Snapshot(), e)
    modifies tables
    ensures tables.Snapshot() == Decided(old(tables.Snapshot()), e)
    ensures RowDecided(old(tables.Snapshot()), e, tables.Snapshot())
    ensures OthersStay(old(tables.Snapshot()), e, tables.Snapshot())
  {
    var status := if e.approved then APPROVED else REJECTED;
    match e.kind {
      case OtherRow =>
      case CompanyRow =>
        var company := tables.companies[e.id];
        tables.companies := tables.companies[e.id := company.(status := status)];
      case RoleRow =>
        tables.roles := tables.roles[e.id := tables.roles[e.id].(status := status)];
        if e.approved {
          if e.resolution.Created? {
            tables.people := tables.people[e.resolution.personId := Person(0, 0)];
          }
          if !e.resolution.Nobody? && Some(e.resolution.personId) != tables.roles[e.id].personId {
            tables.roles := tables.roles[e.id := tables.roles[e.id].(personId := Some(e.resolution.personId))];
          }
        }
      case HoldingRow =>
        var holding := tables.holdings[e.id];
        tables.holdings := tables.holdings[e.id := holding.(status := status)];
        if e.approved && holding.investorId.Some? && holding.investorId.value in tables.investors {
          var firm := tables.investors[holding.investorId.value];
          if firm.status == PENDING {
            tables.investors := tables.investors[holding.investorId.value := firm.(status := APPROVED)];
          }
        }
    }
  }

  /** Whose counts a decision has recomputed: the person a role named before or names after it, or all
      with a role on a company it decided. */
  ghost predicate PersonTouched(d: Directory, d': Directory, e: Decision, p: string)
    requires Found(d, e) && Found(d', e)
  {
    || (e.kind == RoleRow && p != "" && (d.roles[e.id].personId == Some(p) || d'.roles[e.id].personId == Some(p)))
    || (e.kind == CompanyRow && e.id != "" &&
         exists r :: r in d'.roles && d'.roles[r].personId == Some(p) && d'.roles[r].companyId == Some(e.id))
  }

  ghost predicate InvestorTouched(d: Directory, e: Decision, i: string)
    requires Found(d, e)
  {
    || (e.kind == HoldingRow && i != "" && d.holdings[e.id].investorId == Some(i))
    || (e.kind == CompanyRow && e.id != "" &&
         exists h :: h in d.holdings && d.holdings[h].investorId == Some(i) && d.holdings[h].companyId == e.id)
  }

  /** From the decided tables: true counts for whoever is touched, the old row for everyone else. */
  ghost predicate RecountsTouched(d: Directory, d': Directory, e: Decision, after: Directory)
    requires Found(d, e) && Found(d', e)
  {
    && after.companies == d'.companies && after.roles == d'.roles && after.holdings == d'.holdings
    && after.people.Keys == d'.people.Keys && after.investors.Keys == d'.investors.Keys
    && (forall p :: p in d'.people ==>
         PersonSetRight(d', if PersonTouched(d, d', e, p) then None else Some({}), p, after.people[p]))
    && forall i :: i in d'.investors ==>
         InvestorSetRight(d', if InvestorTouched(d, e, i) then None else Some({}), i, after.investors[i])
  }

  lemma DecidedMeans(d: Directory, e: Decision)
    requires Found(d, e)
    ensures Found(Decided(d, e), e)
    ensures RowDecided(d, e, Decided(d, e)) && OthersStay(d, e, Decided(d, e))
  {
    hide RowDecided, OthersStay;
    match e.kind {
      case OtherRow =>
        OtherDecided(d, e);
      case CompanyRow =>
        CompanyDecided(d, e);
      case RoleRow =>
        RoleDecided(d, e);
      case HoldingRow =>
        HoldingDecided(d, e);
    }
  }

  lemma OtherDecided(d: Directory, e: Decision)
    requires e.kind == OtherRow
    ensures Found(Decided(d, e), e) && RowDecided(d, e, Decided(d, e)) && OthersStay(d, e, Decided(d, e))
  {
  }

  lemma CompanyDecided(d: Directory, e: Decision)
    requires e.kind == CompanyRow && Found(d, e)
    ensures Found(Decided(d, e), e) && RowDecided(d, e, Decided(d, e)) && OthersStay(d, e, Decided(d, e))
  {
  }

  lemma RoleDecided(d: Directory, e: Decision)
    requires e.kind == RoleRow && Found(d, e)
    ensures Found(Decided(d, e), e) && RowDecided(d, e, Decided(d, e)) && OthersStay(d, e, Decided(d, e))
  {
  }

  lemma HoldingDecided(d: Directory, e: Decision)
    requires e.kind == HoldingRow && Found(d, e)
    ensures Found(Decided(d, e), e) && RowDecided(d, e, Decided(d, e)) && OthersStay(d, e, Decided(d, e))
  {
  }

  lemma ScopeReaches(d: Directory, e: Decision, id: string)
    requires Found(d, e) && Found(Decided(d, e), e)
    ensures var scope := BothScopes(d, e);
      && (scope.Some? ==>
           && (PersonReached(Decided(d, e), scope, id) <==> PersonTouched(d, Decided(d, e), e, id))
           && (InvestorReached(Decided(d, e), scope, id) <==> InvestorTouched(d, e, id)))
      && (scope.None? ==> !PersonTouched(d, Decided(d, e), e, id) && !InvestorTouched(d, e, id))
  {
  }

  lemma RecountMeans(d: Directory, e: Decision)
    requires Found(d, e) && Found(Decided(d, e), e)
    ensures RecountsTouched(d, Decided(d, e), e, Moderated(d, e))
  {
    hide Decided, BothScopes, Refreshed, RowsWritten, PersonReached, InvestorReached, PersonTouched, InvestorTouched;
    var scope := BothScopes(d, e);
    forall id
      ensures scope.Some? ==>
        && (PersonReached(Decided(d, e), scope, id) <==> PersonTouched(d, Decided(d, e), e, id))
        && (InvestorReached(Decided(d, e), scope, id) <==> InvestorTouched(d, e, id))
      ensures scope.None? ==> !PersonTouched(d, Decided(d, e), e, id) && !InvestorTouched(d, e, id)
    {
      ScopeReaches(d, e, id);
    }
    if scope.Some? {
      RefreshMeans(Decided(d, e), scope);
    }
  }

  /** The counts stay true for everyone, whatever is decided. */
  method Moderate(tables: DirectoryTables, e: Decision) returns (found: bool)
    modifies tables
    ensures tables.Snapshot() == Moderated(old(tables.Snapshot()), e)
    ensures found <==> Found(old(tables.Snapshot()), e)
    ensures !found ==> tables.Snapshot() == old(tables.Snapshot())
    ensures found ==> exists d' ::
      && RowDecided(old(tables.Snapshot()), e, d') && OthersStay(old(tables.Snapshot()), e, d')
      && Found(d', e) && RecountsTouched(old(tables.Snapshot()), d', e, tables.Snapshot())
    ensures
      var before := old(tables.Snapshot());
      ValidDirectory(before) && ValidDecision(before, e) && Counted(before) ==> Counted(tables.Snapshot())
  {
    hide Decided, Refreshed, Counted;
    ghost var before := tables.Snapshot();
    if ValidDirectory(before) && ValidDecision(before, e) && Counted(before) {
      DecisionKeepsCounts(before, e);
    }
    if !Found(tables.Snapshot(), e) {
      return false;
    }
    hide RowDecided, OthersStay, RecountsTouched;
    DecidedMeans(before, e);
    RecountMeans(before, e);
    var countsBefore := CountScope(tables.Snapshot(), e);
    ApplyDecision(tables, e);
    var counts := MergeScopes(countsBefore, CountScope(tables.Snapshot(), e));
    if counts.Some? {
      var _, _ := tables.RefreshDirectoryCounts(counts);
    }
    return true;
  }

  // ----- the scope covers everything the decision can move -----------------------------------------

  predicate InPeopleScope(d: Directory, scope: Option<Scope>, p: string) {
    scope.Some? && p in ScopedPeople(d, scope.value)
  }

  predicate InInvestorScope(d: Directory, scope: Option<Scope>, i: string) {
    scope.Some? && i in ScopedInvestors(d, scope.value)
  }

  /** A person outside the scope has the same roles, at the same companies, as before. */
  lemma PersonOutOfScope(d: Directory, e: Decision, p: string)
    requires ValidDirectory(d) && Found(d, e) && ValidDecision(d, e)
    requires !InPeopleScope(Decided(d, e), BothScopes(d, e), p)
    ensures RolesOf(Decided(d, e), p) == RolesOf(d, p) && CompaniesOf(Decided(d, e), p) == CompaniesOf(d, p)
  {
    var d' := Decided(d, e);
    match e.kind {
      case OtherRow =>
      case HoldingRow =>
        assert forall c :: PublicCompany(d', c) == PublicCompany(d, c);
      case CompanyRow =>
        CompanyOutOfScope(d, e, p);
      case RoleRow =>
        RoleOutOfScope(d, e, p);
    }
  }

  lemma CompanyOutOfScope(d: Directory, e: Decision, p: string)
    requires ValidDirectory(d) && e.kind == CompanyRow && Found(d, e)
    requires !InPeopleScope(Decided(d, e), BothScopes(d, e), p)
    ensures RolesOf(Decided(d, e), p) == RolesOf(d, p)
  {
    var d' := Decided(d, e);
    var scope := BothScopes(d, e).value;
    assert scope.companyIds == [e.id, e.id];
    assert e.id in Unique(scope.companyIds);
    forall r | r in d.roles && d.roles[r].personId == Some(p)
      ensures PublicRole(d', d.roles[r]) == PublicRole(d, d.roles[r])
    {
      assert d.roles[r].companyId != Some(e.id);
    }
  }

  lemma RoleOutOfScope(d: Directory, e: Decision, p: string)
    requires ValidDirectory(d) && e.kind == RoleRow && Found(d, e) && ValidDecision(d, e)
    requires !InPeopleScope(Decided(d, e), BothScopes(d, e), p)
    ensures RolesOf(Decided(d, e), p) == RolesOf(d, p) && CompaniesOf(Decided(d, e), p) == CompaniesOf(d, p)
  {
    var d' := Decided(d, e);
    var before, after := d.roles[e.id].personId, d'.roles[e.id].personId;
    assert forall c :: PublicCompany(d', c) == PublicCompany(d, c);
    NamedInScope(d, e, p);
    assert before != Some(p) && after != Some(p);
    assert RolesOf(d', p) == RolesOf(d, p);
    assert e.id !in RolesOf(d, p);
  }

  /** Whoever a role pointed at before or points at after is in the scope. */
  lemma NamedInScope(d: Directory, e: Decision, p: string)
    requires ValidDirectory(d) && e.kind == RoleRow && Found(d, e) && ValidDecision(d, e)
    ensures d.roles[e.id].personId == Some(p) || Decided(d, e).roles[e.id].personId == Some(p) ==>
      InPeopleScope(Decided(d, e), BothScopes(d, e), p)
  {
    if d.roles[e.id].personId == Some(p) || Decided(d, e).roles[e.id].personId == Some(p) {
      var scope := BothScopes(d, e);
      assert p != "" && scope.Some?;
      assert p in scope.value.personIds;
      assert p in Unique(scope.value.personIds);
    }
  }

  lemma InvestorOutOfScope(d: Directory, e: Decision, i: string)
    requires ValidDirectory(d) && Found(d, e) && ValidDecision(d, e)
    requires !InInvestorScope(Decided(d, e), BothScopes(d, e), i)
    ensures HoldingsOf(Decided(d, e), i) == HoldingsOf(d, i)
  {
    var d' := Decided(d, e);
    match e.kind {
      case OtherRow =>
      case RoleRow =>
        assert forall c :: PublicCompany(d', c) == PublicCompany(d, c);
      case CompanyRow =>
        var scope := BothScopes(d, e).value;
        assert scope.companyIds == [e.id, e.id];
        assert e.id in Unique(scope.companyIds);
        forall h | h in d.holdings && d.holdings[h].investorId == Some(i)
          ensures PublicHolding(d', d.holdings[h]) == PublicHolding(d, d.holdings[h])
        {
          assert d.holdings[h].companyId != e.id;
        }
      case HoldingRow =>
        assert forall c :: PublicCompany(d', c) == PublicCompany(d, c);
        FirmInScope(d, e, i);
        assert d.holdings[e.id].investorId != Some(i);
        assert e.id !in HoldingsOf(d, i) && e.id !in HoldingsOf(d', i);
    }
  }

  lemma FirmInScope(d: Directory, e: Decision, i: string)
    requires ValidDirectory(d) && e.kind == HoldingRow && Found(d, e)
    ensures d.holdings[e.id].investorId == Some(i) ==> InInvestorScope(Decided(d, e), BothScopes(d, e), i)
  {
    if d.holdings[e.id].investorId == Some(i) {
      var scope := BothScopes(d, e);
      assert i != "" && scope.Some?;
      assert i in scope.value.investorIds;
      assert i in Unique(scope.value.investorIds);
    }
  }

  /** The decision itself rewrites no stored count of anyone outside the scope. */
  lemma StoredUnmoved(d: Directory, e: Decision)
    requires ValidDirectory(d) && Found(d, e) && ValidDecision(d, e)
    ensures var d' := Decided(d, e);
      && ValidDirectory(d')
      && (forall p :: p in d'.people && !InPeopleScope(d', BothScopes(d, e), p) ==>
           p in d.people && d'.people[p] == d.people[p])
      && d'.investors.Keys == d.investors.Keys
      && (forall i :: i in d.investors ==> d'.investors[i].holdingCount == d.investors[i].holdingCount)
  {
    hide ScopedPeople;
    if e.kind == RoleRow && e.approved && e.resolution.Created? {
      NamedInScope(d, e, e.resolution.personId);
    }
  }

  lemma RefreshedValid(d: Directory, scope: Option<Scope>)
    requires ValidDirectory(d)
    ensures ValidDirectory(Refreshed(d, scope))
  {
  }

  lemma PersonStaysCounted(d: Directory, e: Decision, p: string)
    requires ValidDirectory(d) && ValidDecision(d, e) && Counted(d) && Found(d, e) && p in Moderated(d, e).people
    ensures PersonCounted(Moderated(d, e), p)
  {
    hide RolesOf, CompaniesOf, ScopedPeople, PeopleUpdated, InvestorsUpdated, Decided, CountScope;
    var d' := Decided(d, e);
    var scope := BothScopes(d, e);
    StoredUnmoved(d, e);
    CountsUnmoved(d', scope);
    if scope.Some? {
      NothingTouched(d', scope.value);
      PersonUpdated(d', Some(ScopedPeople(d', scope.value)), p);
    }
    if !InPeopleScope(d', scope, p) {
      PersonOutOfScope(d, e, p);
      assert PersonCounted(d, p);
    }
  }

  lemma InvestorStaysCounted(d: Directory, e: Decision, i: string)
    requires ValidDirectory(d) && ValidDecision(d, e) && Counted(d) && Found(d, e) && i in Moderated(d, e).investors
    ensures InvestorCounted(Moderated(d, e), i)
  {
    hide HoldingsOf, ScopedInvestors, PeopleUpdated, InvestorsUpdated, Decided, CountScope;
    var d' := Decided(d, e);
    var scope := BothScopes(d, e);
    StoredUnmoved(d, e);
    CountsUnmoved(d', scope);
    if scope.Some? {
      NothingTouched(d', scope.value);
      InvestorUpdated(d', Some(ScopedInvestors(d', scope.value)), i);
    }
    if !InInvestorScope(d', scope, i) {
      InvestorOutOfScope(d, e, i);
      assert InvestorCounted(d, i);
    }
  }

  /**
   * One decision, approving or rejecting, even one that re-points a role to another person or
   * publishes a company with all its roles and holdings: every stored count is true after it if
   * every one was true before, although only the row's own scopes are recomputed.
   */
  lemma DecisionKeepsCounts(d: Directory, e: Decision)
    requires ValidDirectory(d) && ValidDecision(d, e) && Counted(d)
    ensures Counted(Moderated(d, e)) && ValidDirectory(Moderated(d, e))
  {
    hide PersonCounted, InvestorCounted, Decided, BothScopes, Refreshed;
    if Found(d, e) {
      StoredUnmoved(d, e);
      RefreshedValid(Decided(d, e), BothScopes(d, e));
      forall p | p in Moderated(d, e).people ensures PersonCounted(Moderated(d, e), p) {
        PersonStaysCounted(d, e, p);
      }
      forall i | i in Moderated(d, e).investors ensures InvestorCounted(Moderated(d, e), i) {
        InvestorStaysCounted(d, e, i);
      }
    }
  }

  /** Any run of decisions, each resolving names as the directory then stands. */
  function Run(d: Directory, es: seq<Decision>): Option<Directory> {
    if es == [] then Some(d)
    else
      var mid := Run(d, es[..|es| - 1]);
      if mid.Some? && ValidDecision(mid.value, es[|es| - 1]) then Some(Moderated(mid.value, es[|es| - 1])) else None
  }

  /** Starting from true counts, every run of decisions ends with true counts. */
  lemma {:induction false} RunKeepsCounts(d: Directory, es: seq<Decision>)
    requires ValidDirectory(d) && Counted(d) && Run(d, es).Some?
    ensures Counted(Run(d, es).value) && ValidDirectory(Run(d, es).value)
  {
    if es != [] {
      RunKeepsCounts(d, es[..|es| - 1]);
      DecisionKeepsCounts(Run(d, es[..|es| - 1]).value, es[|es| - 1]);
    }
  }
}
