/** Edits rejected in the order they were approved, and when a row still shows only what stands. */
module ProposalOrder {
  import opened Basics
  import opened Proposals
  import opened ProposalRuns
  import opened ProposalUndo
  import opened ProposalNesting

  // ----- one field, one retraction ----------------------------------------------------------------

  /** What a retraction leaves in a field whose original value the log tells. */
  function AfterRejection(original: Value, live: Value, proposed: Value): Value {
    if live == proposed then original else live
  }

  lemma RejectedField(db: Db, id: string, d: Decision, f: string, original: Value)
    requires ValidDb(db) && id in db.proposals && f in db.proposals[id].changes.keys
    requires Remembers(db.revisions, id, f, original, db.proposals[id].changes.values[f])
    ensures var c := db.proposals[id].companyId;
      var after := Live(Retracted(db, id, d));
      && c in after && f in after[c]
      && after[c][f] == AfterRejection(original, db.companies[c].columns[f], db.proposals[id].changes.values[f])
  {
    var p := db.proposals[id];
    var live := db.companies[p.companyId].columns;
    SweptExactly(db.revisions, id, live, p.changes, |p.changes.keys|);
    assert p.changes.keys[..|p.changes.keys|] == p.changes.keys;
  }

  lemma OtherFieldsStay(db: Db, id: string, d: Decision)
    requires ValidDb(db) && id in db.proposals
    ensures var before, after := Live(db), Live(Retracted(db, id, d));
      && after.Keys == before.Keys
      && forall c :: c in before ==>
           && after[c].Keys == before[c].Keys
           && forall f :: f in before[c] && !(c == db.proposals[id].companyId && f in db.proposals[id].changes.keys) ==>
                after[c][f] == before[c][f]
  {
    hide Reverted, Retracted;
    var p := db.proposals[id];
    LiveColumns(db);
    LiveColumns(Retracted(db, id, d));
    RetractionNeverClobbers(db, id, d);
    RestoresOwnFields(db, id);
  }

  lemma RestoresOwnFields(db: Db, id: string)
    requires ValidDb(db) && id in db.proposals
    ensures forall f :: f in Reverted(db, id).restored.keys ==> f in db.proposals[id].changes.keys
  {
    hide Swept;
    var p := db.proposals[id];
    SweptExactly(db.revisions, id, db.companies[p.companyId].columns, p.changes, |p.changes.keys|);
    assert p.changes.keys[..|p.changes.keys|] == p.changes.keys;
  }

  lemma LiveColumns(db: Db)
    ensures Live(db).Keys == db.companies.Keys
    ensures forall c :: c in db.companies ==> Live(db)[c] == db.companies[c].columns
  {
  }

  // ----- two edits, rejected in the order they were approved ----------------------------------------

  datatype FourDecisions =
    FourDecisions(approveOne: Decision, approveTwo: Decision, rejectOne: Decision, rejectTwo: Decision)

  function Events(one: string, two: string, ds: FourDecisions): seq<Event> {
    [Approve(one, ds.approveOne), Approve(two, ds.approveTwo), Reject(one, ds.rejectOne), Reject(two, ds.rejectTwo)]
  }

  function ApprovedBoth(db: Db, one: string, two: string, ds: FourDecisions): (r: Db)
    requires ValidDb(db) && one in db.proposals && two in db.proposals
    ensures ValidDb(r) && one in r.proposals && two in r.proposals
  {
    ModeratedValid(db, Approve(one, ds.approveOne));
    ModeratedValid(Moderated(db, Approve(one, ds.approveOne)), Approve(two, ds.approveTwo));
    Moderated(Moderated(db, Approve(one, ds.approveOne)), Approve(two, ds.approveTwo))
  }

  /** The value the second proposal found in one of its fields. */
  function Found(db: Db, one: string, two: string, f: string): Value
    requires ValidDb(db) && one in db.proposals && two in db.proposals && f in db.proposals[two].changes.keys
  {
    var p, q := db.proposals[one], db.proposals[two];
    if p.companyId == q.companyId && f in p.changes.keys then p.changes.values[f]
    else db.companies[q.companyId].columns[f]
  }

  ghost predicate TwoFresh(db: Db, one: string, two: string) {
    && ValidDb(db) && one != two && one in db.proposals && two in db.proposals
    && NeverApproved(db.revisions, one) && NeverApproved(db.revisions, two)
  }

  /** The field of a company after both approvals, told from the first state. */
  function Shown(db: Db, one: string, two: string, c: string, f: string): Value
    requires ValidDb(db) && one in db.proposals && two in db.proposals
    requires c in db.companies && f in db.companies[c].columns
  {
    var p, q := db.proposals[one], db.proposals[two];
    if q.companyId == c && f in q.changes.keys then q.changes.values[f]
    else if p.companyId == c && f in p.changes.keys then p.changes.values[f]
    else db.companies[c].columns[f]
  }

  type Companies = map<string, Company>

  /** The proposal's values over the columns of one company, every other column as it was. */
  ghost predicate Overlaid(a: Companies, p: Proposal, b: Companies) {
    && b.Keys == a.Keys
    && forall c :: c in a ==>
         && b[c].columns.Keys == a[c].columns.Keys
         && forall f :: f in a[c].columns ==>
              if p.companyId == c && f in p.changes.values then b[c].columns[f] == p.changes.values[f]
              else b[c].columns[f] == a[c].columns[f]
  }

  lemma ApprovalOverlays(db: Db, id: string, d: Decision)
    requires ValidDb(db) && id in db.proposals
    ensures var p, now := db.proposals[id], Moderated(db, Approve(id, d));
      && Overlaid(db.companies, p, now.companies) && now.proposals.Keys == db.proposals.Keys
      && SameProposal(p, now.proposals[id]) && now.proposals[id].status == APPROVED
      && forall o :: o in db.proposals && o != id ==> now.proposals[o] == db.proposals[o]
  {
    assert ValidProposal(db.proposals[id], db.companies);
  }

  /** Both proposals approved, with the first one's values where the second has none. */
  ghost predicate OverlaidTwice(db: Db, one: string, two: string, now: Companies)
    requires ValidDb(db) && one in db.proposals && two in db.proposals
  {
    && now.Keys == db.companies.Keys
    && forall c :: c in db.companies ==>
         && now[c].columns.Keys == db.companies[c].columns.Keys
         && forall f :: f in db.companies[c].columns ==> now[c].columns[f] == Shown(db, one, two, c, f)
  }

  lemma OverlayTwice(db: Db, one: string, two: string, mid: Companies, now: Companies)
    requires ValidDb(db) && one in db.proposals && two in db.proposals
    requires Overlaid(db.companies, db.proposals[one], mid) && Overlaid(mid, db.proposals[two], now)
    ensures OverlaidTwice(db, one, two, now)
  {
    assert ValidProposal(db.proposals[one], db.companies) && ValidProposal(db.proposals[two], db.companies);
    forall c, f | c in db.companies && f in db.companies[c].columns
      ensures now[c].columns[f] == Shown(db, one, two, c, f)
    {
      assert f in mid[c].columns;
    }
  }

  lemma BothApproved(db: Db, one: string, two: string, ds: FourDecisions)
    requires TwoFresh(db, one, two)
    ensures var now := ApprovedBoth(db, one, two, ds);
      && OverlaidTwice(db, one, two, now.companies)
      && SameProposal(db.proposals[one], now.proposals[one]) && now.proposals[one].status == APPROVED
      && SameProposal(db.proposals[two], now.proposals[two]) && now.proposals[two].status == APPROVED
  {
    hide Moderated, Overlaid, OverlaidTwice, NeverApproved;
    var mid := Moderated(db, Approve(one, ds.approveOne));
    ApprovalOverlays(db, one, ds.approveOne);
    ModeratedValid(db, Approve(one, ds.approveOne));
    ApprovalOverlays(mid, two, ds.approveTwo);
    OverlayTwice(db, one, two, mid.companies, ApprovedBoth(db, one, two, ds).companies);
  }

  lemma BothRemembered(db: Db, one: string, two: string, ds: FourDecisions)
    requires TwoFresh(db, one, two)
    ensures var now := ApprovedBoth(db, one, two, ds);
      var p, q := db.proposals[one], db.proposals[two];
      && (forall f :: f in p.changes.keys ==>
           Remembers(now.revisions, one, f, db.companies[p.companyId].columns[f], p.changes.values[f]))
      && (forall f :: f in q.changes.keys ==>
           Remembers(now.revisions, two, f, Found(db, one, two, f), q.changes.values[f]))
  {
    hide Remembers, Live;
    var mid := Moderated(db, Approve(one, ds.approveOne));
    var now := ApprovedBoth(db, one, two, ds);
    EditedAfterOne(db, one, ds.approveOne);
    EditedRemembers(db, one, mid);
    var first := StepApart(db, Approve(one, ds.approveOne), [one]);
    FreshSingle(db, two);
    FreshApart(db, mid, first, [one], [two]);
    assert two in [two];
    EditedAfterOne(mid, two, ds.approveTwo);
    EditedRemembers(mid, two, now);
    var second := StepApart(mid, Approve(two, ds.approveTwo), [two]);
    forall f | f in db.proposals[one].changes.keys
      ensures Remembers(now.revisions, one, f,
        db.companies[db.proposals[one].companyId].columns[f], db.proposals[one].changes.values[f])
    {
      NewestThrough(mid.revisions, second, one, f);
      SameNewest(mid.revisions, now.revisions, one, f,
        db.companies[db.proposals[one].companyId].columns[f], db.proposals[one].changes.values[f]);
    }
    forall f | f in db.proposals[two].changes.keys
      ensures f in mid.companies[db.proposals[two].companyId].columns
      ensures mid.companies[db.proposals[two].companyId].columns[f] == Found(db, one, two, f)
    {
    }
  }

  lemma FreshSingle(db: Db, id: string)
    requires id in db.proposals && NeverApproved(db.revisions, id)
    ensures Fresh(db, [id])
  {
  }

  lemma EditedRemembers(db: Db, id: string, now: Db)
    requires ValidDb(db) && id in db.proposals && ValidDb(now) && Edited(db, id, now)
    ensures var p := db.proposals[id];
      forall f :: f in p.changes.keys ==>
        Remembers(now.revisions, id, f, db.companies[p.companyId].columns[f], p.changes.values[f])
  {
    hide Remembers;
  }

  lemma SameNewest(log: seq<Revision>, longer: seq<Revision>, id: string, f: string, original: Value, proposed: Value)
    requires Newest(longer, id, f) == Newest(log, id, f) && NewestReal(longer, id, f) == NewestReal(log, id, f)
    requires Remembers(log, id, f, original, proposed)
    ensures Remembers(longer, id, f, original, proposed)
  {
  }

  function Rejected(db: Db, id: string, d: Decision): (r: Db)
    requires ValidDb(db) && id in db.proposals && db.proposals[id].status == APPROVED
    ensures ValidDb(r) && r == Moderated(db, Reject(id, d)) && r.proposals.Keys == db.proposals.Keys
  {
    ModeratedValid(db, Reject(id, d));
    Retracted(db, id, d)
  }

  /** The field after a retraction, whichever proposal and field they are. */
  lemma RejectionShows(db: Db, id: string, d: Decision, c: string, f: string, original: Value)
    requires ValidDb(db) && id in db.proposals && db.proposals[id].status == APPROVED
    requires c in db.companies && f in db.companies[c].columns
    requires var p := db.proposals[id];
      p.companyId == c && f in p.changes.keys ==> Remembers(db.revisions, id, f, original, p.changes.values[f])
    ensures var p, after := db.proposals[id], Rejected(db, id, d);
      && c in after.companies && f in after.companies[c].columns
      && after.companies[c].columns[f] ==
           if p.companyId == c && f in p.changes.keys
           then AfterRejection(original, db.companies[c].columns[f], p.changes.values[f])
           else db.companies[c].columns[f]
  {
    hide Remembers, Retracted, Live, Moderated;
    var p := db.proposals[id];
    LiveColumns(db);
    LiveColumns(Retracted(db, id, d));
    OtherFieldsStay(db, id, d);
    if p.companyId == c && f in p.changes.keys {
      RejectedField(db, id, d, f, original);
    }
  }

  lemma RejectionKeepsOther(db: Db, id: string, d: Decision, other: string, f: string, original: Value, proposed: Value)
    requires ValidDb(db) && id in db.proposals && db.proposals[id].status == APPROVED
    requires other in db.proposals && other != id && Remembers(db.revisions, other, f, original, proposed)
    ensures var after := Rejected(db, id, d);
      && after.proposals[other] == db.proposals[other] && Remembers(after.revisions, other, f, original, proposed)
  {
    hide Remembers, Retracted, Moderated;
    var added := StepApart(db, Reject(id, d), [id]);
    NewestThrough(db.revisions, added, other, f);
    SameNewest(db.revisions, Rejected(db, id, d).revisions, other, f, original, proposed);
  }

  lemma RejectionLeavesOther(db: Db, id: string, d: Decision, other: string)
    requires ValidDb(db) && id in db.proposals && db.proposals[id].status == APPROVED
    requires other in db.proposals && other != id
    ensures Rejected(db, id, d).proposals[other] == db.proposals[other]
  {
    hide Moderated, Reverted;
  }

  function RejectedBoth(db: Db, one: string, two: string, ds: FourDecisions): (r: Db)
    requires TwoFresh(db, one, two)
  {
    BothApproved(db, one, two, ds);
    var both := ApprovedBoth(db, one, two, ds);
    RejectionLeavesOther(both, one, ds.rejectOne, two);
    Rejected(Rejected(both, one, ds.rejectOne), two, ds.rejectTwo)
  }

  /** Both retracted, the first one first. */
  lemma FirstThenSecond(db: Db, one: string, two: string, ds: FourDecisions, c: string, f: string)
    requires TwoFresh(db, one, two) && c in db.companies && f in db.companies[c].columns
    ensures var p, q, after := db.proposals[one], db.proposals[two], RejectedBoth(db, one, two, ds);
      && c in after.companies && f in after.companies[c].columns
      && after.companies[c].columns[f] ==
           if p.companyId == c && q.companyId == c && f in p.changes.keys && f in q.changes.keys
             && p.changes.values[f] != q.changes.values[f]
           then p.changes.values[f]
           else db.companies[c].columns[f]
  {
    hide Remembers, Moderated, Rejected, ApprovedBoth, TwoFresh;
    TwoProposals(db, one, two);
    var p, q := db.proposals[one], db.proposals[two];
    var both := ApprovedBoth(db, one, two, ds);
    BothApproved(db, one, two, ds);
    BothRemembered(db, one, two, ds);
    var original := db.companies[c].columns[f];
    RejectionShows(both, one, ds.rejectOne, c, f, original);
    RejectionLeavesOther(both, one, ds.rejectOne, two);
    var third := Rejected(both, one, ds.rejectOne);
    if q.companyId == c && f in q.changes.keys {
      var found := Found(db, one, two, f);
      RejectionKeepsOther(both, one, ds.rejectOne, two, f, found, q.changes.values[f]);
      RejectionShows(third, two, ds.rejectTwo, c, f, found);
    } else {
      RejectionShows(third, two, ds.rejectTwo, c, f, original);
    }
  }

  lemma TwoProposals(db: Db, one: string, two: string)
    requires TwoFresh(db, one, two)
    ensures ValidDb(db) && one != two && one in db.proposals && two in db.proposals
  {
  }

  lemma RunOfBoth(db: Db, one: string, two: string, ds: FourDecisions)
    requires TwoFresh(db, one, two)
    ensures Run(db, Events(one, two, ds)) == RejectedBoth(db, one, two, ds)
  {
    hide Moderated;
    FourSteps(
      db, Approve(one, ds.approveOne), Approve(two, ds.approveTwo),
      Reject(one, ds.rejectOne), Reject(two, ds.rejectTwo));
  }

  lemma FourSteps(db: Db, a: Event, b: Event, c: Event, d: Event)
    requires ValidDb(db)
    ensures ValidDb(Moderated(db, a)) && ValidDb(Moderated(Moderated(db, a), b))
    ensures ValidDb(Moderated(Moderated(Moderated(db, a), b), c))
    ensures Run(db, [a, b, c, d]) == Moderated(Moderated(Moderated(Moderated(db, a), b), c), d)
  {
    hide Moderated;
    RunOne(db, a);
    RunConcat(db, [a], [b]);
    RunOne(Run(db, [a]), b);
    RunConcat(db, [a] + [b], [c]);
    RunOne(Run(db, [a] + [b]), c);
    RunConcat(db, [a] + [b] + [c], [d]);
    RunOne(Run(db, [a] + [b] + [c]), d);
    assert [a] + [b] + [c] + [d] == [a, b, c, d];
  }

  /** Both write the field, to different values, and the first changes it. */
  predicate Clashes(db: Db, one: string, two: string, c: string, f: string)
    requires one in db.proposals && two in db.proposals && c in db.companies && f in db.companies[c].columns
  {
    var p, q := db.proposals[one], db.proposals[two];
    && p.companyId == c && q.companyId == c
    && f in p.changes.keys && f in q.changes.keys && f in p.changes.values && f in q.changes.values
    && p.changes.values[f] != q.changes.values[f] && p.changes.values[f] != db.companies[c].columns[f]
  }

  /**
   * Two edits approved and then rejected in the same order bring every column back if and only if
   * wherever both write a field of one company they agree on it, or the first changed nothing there.
   * Otherwise the first proposal's value stays, with nothing approved that stands for it.
   */
  lemma {:induction false} SameOrderReturnsExactlyWhen(db: Db, one: string, two: string, ds: FourDecisions)
    requires TwoFresh(db, one, two)
    ensures var p, q := db.proposals[one], db.proposals[two];
      Live(Run(db, Events(one, two, ds))) == Live(db) <==>
        (p.companyId == q.companyId ==>
          forall f :: f in p.changes.keys && f in q.changes.keys ==>
            p.changes.values[f] == q.changes.values[f] || p.changes.values[f] == db.companies[p.companyId].columns[f])
  {
    hide Run, Moderated, RejectedBoth, Live;
    var p, q := db.proposals[one], db.proposals[two];
    var events := Events(one, two, ds);
    var after := Run(db, events);
    RunOfBoth(db, one, two, ds);
    LiveColumns(db);
    LiveColumns(after);
    RunKeepsColumns(db, events);
    forall c, f | c in db.companies && f in db.companies[c].columns
      ensures c in after.companies && f in after.companies[c].columns
      ensures after.companies[c].columns[f] == db.companies[c].columns[f] <==> !Clashes(db, one, two, c, f)
    {
      FirstThenSecond(db, one, two, ds, c, f);
    }
    SameRows(Live(after), Live(db));
    assert ValidProposal(p, db.companies);
    if c, f :| c in db.companies && f in db.companies[c].columns && Clashes(db, one, two, c, f) {
      assert Live(after)[c][f] != Live(db)[c][f];
    } else {
      forall c, f | c in Live(db) && f in Live(db)[c] ensures Live(after)[c][f] == Live(db)[c][f] {
        assert c in db.companies && f in db.companies[c].columns && !Clashes(db, one, two, c, f);
      }
      forall f | p.companyId == q.companyId && f in p.changes.keys && f in q.changes.keys
        ensures
          || p.changes.values[f] == q.changes.values[f]
          || p.changes.values[f] == db.companies[p.companyId].columns[f]
      {
        assert !Clashes(db, one, two, p.companyId, f);
      }
    }
  }

  lemma SameRows(a: Rows, b: Rows)
    requires a.Keys == b.Keys && forall c :: c in b ==> a[c].Keys == b[c].Keys
    ensures a == b <==> forall c, f :: c in b && f in b[c] ==> a[c][f] == b[c][f]
  {
    if forall c, f :: c in b && f in b[c] ==> a[c][f] == b[c][f] {
      forall c | c in b ensures a[c] == b[c] {
      }
    }
  }

  lemma {:induction false} RunKeepsColumns(db: Db, es: seq<Event>)
    requires ValidDb(db)
    ensures Live(Run(db, es)).Keys == Live(db).Keys
    ensures forall c :: c in Live(db) ==> Live(Run(db, es))[c].Keys == Live(db)[c].Keys
  {
    if es != [] {
      RunKeepsColumns(db, es[..|es| - 1]);
      StepKeepsColumns(Run(db, es[..|es| - 1]), es[|es| - 1]);
    }
  }

  lemma StepKeepsColumns(db: Db, e: Event)
    requires ValidDb(db)
    ensures Live(Moderated(db, e)).Keys == Live(db).Keys
    ensures forall c :: c in Live(db) ==> Live(Moderated(db, e))[c].Keys == Live(db)[c].Keys
  {
    if e.Reject? && e.id in db.proposals {
      OtherFieldsStay(db, e.id, e.decision);
    }
  }
}
