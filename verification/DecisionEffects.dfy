/**
 * What each decision on a proposal does to every table, told from the rows and the log as they were,
 * apart from the functions that compute it.
 */
module DecisionEffects {
  import opened Basics
  import opened Proposals
  import opened ProposalRuns
  import opened ProposalUndo

  // ----- the entry a retraction goes by -----------------------------------------------------------------

  predicate LoggedAt(log: seq<Revision>, id: string, f: string, k: nat) {
    k < |log| && log[k].proposalId == id && log[k].field == f && log[k].action == UPDATE
  }

  /** The newest entry of the proposal that changed the field, or, if none ever did, its newest one. */
  ghost predicate GoesBy(log: seq<Revision>, id: string, f: string, k: nat) {
    && LoggedAt(log, id, f, k)
    && (log[k].before != log[k].after ==>
         forall j: nat :: k < j && LoggedAt(log, id, f, j) ==> log[j].before == log[j].after)
    && (log[k].before == log[k].after ==>
         && (forall j: nat :: LoggedAt(log, id, f, j) ==> log[j].before == log[j].after)
         && forall j: nat :: k < j ==> !LoggedAt(log, id, f, j))
  }

  lemma ReplacedMeans(log: seq<Revision>, id: string, f: string)
    ensures Replaced(log, id, f).Some? <==> exists k: nat :: LoggedAt(log, id, f, k)
    ensures Replaced(log, id, f).Some? ==> exists k: nat :: GoesBy(log, id, f, k)
    ensures forall k: nat :: GoesBy(log, id, f, k) ==> k < |log| && Replaced(log, id, f) == Some(log[k])
  {
    assert forall k: nat :: k < |log| ==> (LoggedAt(log, id, f, k) <==> Mine(log[k], id, f));
    var newest := NewestIndex(log, id, f);
    var changing := RealIndex(log, id, f);
    if changing >= 0 {
      assert GoesBy(log, id, f, changing);
    } else if newest >= 0 {
      assert GoesBy(log, id, f, newest);
    }
  }

  // ----- a retraction -----------------------------------------------------------------------------------

  /** The company still shows the proposal's value, and what it replaced was `value`, another one. */
  ghost predicate TakenBackTo(db: Db, id: string, f: string, value: Value)
    requires id in db.proposals && ValidProposal(db.proposals[id], db.companies)
  {
    var p := db.proposals[id];
    && f in p.changes.keys && db.companies[p.companyId].columns[f] == p.changes.values[f]
    && value != p.changes.values[f]
    && exists k: nat :: GoesBy(db.revisions, id, f, k) && db.revisions[k].before == value
  }

  ghost predicate TakenBack(db: Db, id: string, f: string)
    requires id in db.proposals && ValidProposal(db.proposals[id], db.companies)
  {
    exists value :: TakenBackTo(db, id, f, value)
  }

  /** The company has moved on from the proposal's value, or nothing tells what that replaced. */
  ghost predicate LeftAlone(db: Db, id: string, f: string)
    requires id in db.proposals && ValidProposal(db.proposals[id], db.companies)
  {
    var p := db.proposals[id];
    && f in p.changes.keys
    && (db.companies[p.companyId].columns[f] != p.changes.values[f]
        || forall k: nat :: !LoggedAt(db.revisions, id, f, k))
  }

  lemma RevertedMeans(db: Db, id: string)
    requires ValidDb(db) && id in db.proposals
    ensures var s := Reverted(db, id);
      && s.restored.Valid() && Distinct(s.skipped)
      && (forall f :: f in s.skipped <==> LeftAlone(db, id, f))
      && (forall f :: f in s.restored.keys <==> TakenBack(db, id, f))
      && (forall f :: f in s.restored.keys ==> TakenBackTo(db, id, f, s.restored.values[f]))
  {
    hide Replaced, Swept, GoesBy;
    var p := db.proposals[id];
    var live := db.companies[p.companyId].columns;
    SweptExactly(db.revisions, id, live, p.changes, |p.changes.keys|);
    assert p.changes.keys[..|p.changes.keys|] == p.changes.keys;
    forall f | f in p.changes.keys
      ensures Judge(db.revisions, id, f, live[f], p.changes.values[f]).Skip? <==> LeftAlone(db, id, f)
      ensures Judge(db.revisions, id, f, live[f], p.changes.values[f]).Restore? <==> TakenBack(db, id, f)
      ensures Judge(db.revisions, id, f, live[f], p.changes.values[f]).Restore? ==>
        TakenBackTo(db, id, f, Judge(db.revisions, id, f, live[f], p.changes.values[f]).before)
    {
      ReplacedMeans(db.revisions, id, f);
      if Judge(db.revisions, id, f, live[f], p.changes.values[f]).Restore? {
        var k: nat :| GoesBy(db.revisions, id, f, k);
        assert TakenBackTo(db, id, f, db.revisions[k].before);
      }
    }
  }

  lemma TakenBackOnce(db: Db, id: string, f: string, value: Value, other: Value)
    requires id in db.proposals && ValidProposal(db.proposals[id], db.companies)
    requires TakenBackTo(db, id, f, value) && TakenBackTo(db, id, f, other)
    ensures value == other
  {
    ReplacedMeans(db.revisions, id, f);
  }

  /** Fields taken back return to what the proposal replaced; no other column of any company moves. */
  ghost predicate TakesBack(db: Db, id: string, after: map<string, Company>)
    requires id in db.proposals && ValidProposal(db.proposals[id], db.companies)
  {
    var c := db.proposals[id].companyId;
    && c in after && (forall o :: o in after <==> o in db.companies)
    && (forall o :: o in db.companies && o != c ==> after[o] == db.companies[o])
    && after[c].columns.Keys == db.companies[c].columns.Keys
    && (forall f :: f in after[c].columns ==>
         if TakenBack(db, id, f) then TakenBackTo(db, id, f, after[c].columns[f])
         else after[c].columns[f] == db.companies[c].columns[f])
    && after[c].partnerOnly == db.companies[c].partnerOnly
    && after[c].partnerIdentifiers == db.companies[c].partnerIdentifiers
  }

  /** Taken back fields are marked again where the approval unmarked them, or, on a proposal that does not
      tell, where the partner may have touched the row and the value is not null. */
  ghost predicate MarksAgain(db: Db, id: string, after: seq<string>)
    requires id in db.proposals && ValidProposal(db.proposals[id], db.companies)
  {
    var p := db.proposals[id];
    var row := db.companies[p.companyId];
    forall f :: f in after <==>
      || f in row.partnerFields
      || (TakenBack(db, id, f) &&
           if p.clearedPartnerFields.Some? then f in p.clearedPartnerFields.value
           else (row.partnerOnly || row.partnerIdentifiers > 0) && !TakenBackTo(db, id, f, Null))
  }

  /** One RETRACT entry for each field taken back, and no other. */
  ghost predicate LogsRetraction(db: Db, id: string, admin: string, log: seq<Revision>)
    requires id in db.proposals && ValidProposal(db.proposals[id], db.companies)
  {
    var c, n := db.proposals[id].companyId, |db.revisions|;
    && db.revisions <= log
    && (forall i :: n <= i < |log| ==>
         && log[i].companyId == c && log[i].proposalId == id && log[i].action == RETRACT
         && log[i].actorUserId == admin && TakenBackTo(db, id, log[i].field, log[i].after)
         && log[i].field in db.companies[c].columns && log[i].before == db.companies[c].columns[log[i].field])
    && (forall i, j :: n <= i < j < |log| ==> log[i].field != log[j].field)
    && forall f :: TakenBack(db, id, f) ==> exists i :: n <= i < |log| && log[i].field == f
  }

  /** The citations that go are of the proposal's URL and submitter, for fields taken back that no other
      approved proposal of the company cites to it. */
  ghost predicate Uncites(db: Db, id: string, after: map<CitationKey, Option<string>>)
    requires id in db.proposals && ValidProposal(db.proposals[id], db.companies)
  {
    var p := db.proposals[id];
    && (forall key :: key in after ==> key in db.citations && after[key] == db.citations[key])
    && forall key :: key in db.citations ==>
         (key !in after <==>
           && p.sourceUrl == Some(key.url) && key.url != "" && p.companyId == key.companyId
           && TakenBack(db, id, key.field) && db.citations[key] == p.submittedById
           && forall o | o in db.proposals && o != id && db.proposals[o].status == APPROVED ::
                db.proposals[o].companyId == p.companyId && db.proposals[o].sourceUrl == p.sourceUrl ==>
                  key.field !in db.proposals[o].changes.keys)
  }

  // ----- all decisions --------------------------------------------------------------------------------------

  /** The decided proposal carries the decision, and says what it said; the others stand. */
  ghost predicate CarriesDecision(db: Db, e: Event, db': Db)
    requires e.id in db.proposals
  {
    && (forall o :: o in db'.proposals <==> o in db.proposals)
    && (forall o :: o in db.proposals && o != e.id ==> db'.proposals[o] == db.proposals[o])
    && e.id in db'.proposals
    && var p, p' := db.proposals[e.id], db'.proposals[e.id];
       && p'.status == (if e.Approve? then APPROVED else REJECTED) && p'.review == Some(e.decision)
       && p'.companyId == p.companyId && p'.changes == p.changes
       && p'.sourceUrl == p.sourceUrl && p'.submittedById == p.submittedById
       && (e.Reject? ==> p'.clearedPartnerFields == p.clearedPartnerFields)
  }

  /** Every table after a decision on a known proposal. */
  ghost predicate Decides(db: Db, e: Event, db': Db)
    requires ValidDb(db) && e.id in db.proposals
  {
    && CarriesDecision(db, e, db')
    && (e.Approve? ==>
         && Applies(db, e.id, e.decision, db')
         && forall url :: url in db'.sources <==>
              url in db.sources || (url != "" && db.proposals[e.id].sourceUrl == Some(url)))
    && (e.Reject? ==> db'.sources == db.sources)
    && (e.Reject? && db.proposals[e.id].status == APPROVED ==>
         && TakesBack(db, e.id, db'.companies)
         && MarksAgain(db, e.id, db'.companies[db.proposals[e.id].companyId].partnerFields)
         && LogsRetraction(db, e.id, e.decision.reviewedById, db'.revisions)
         && Uncites(db, e.id, db'.citations))
    && (e.Reject? && db.proposals[e.id].status != APPROVED ==>
         db'.companies == db.companies && db'.revisions == db.revisions && db'.citations == db.citations)
  }

  lemma RetractionTakesBack(db: Db, id: string, d: Decision)
    requires ValidDb(db) && id in db.proposals
    ensures TakesBack(db, id, Retracted(db, id, d).companies)
    ensures MarksAgain(db, id, Retracted(db, id, d).companies[db.proposals[id].companyId].partnerFields)
  {
    hide TakenBack, TakenBackTo, Reverted, Swept;
    RevertedMeans(db, id);
    forall f | TakenBackTo(db, id, f, Null) ensures TakenBack(db, id, f) {
      SomewhereTakenBack(db, id, f, Null);
    }
    var restored := Reverted(db, id).restored;
    forall f | f in restored.keys
      ensures TakenBackTo(db, id, f, Null) <==> restored.values[f] == Null
    {
      if TakenBackTo(db, id, f, Null) {
        TakenBackOnce(db, id, f, Null, restored.values[f]);
      }
    }
    OwnFields(db, id);
    assert restored.keys[..|restored.keys|] == restored.keys;
  }

  lemma OwnFields(db: Db, id: string)
    requires ValidDb(db) && id in db.proposals
    ensures forall f :: TakenBack(db, id, f) ==> f in db.companies[db.proposals[id].companyId].columns
  {
  }

  lemma SomewhereTakenBack(db: Db, id: string, f: string, value: Value)
    requires ValidDb(db) && id in db.proposals && TakenBackTo(db, id, f, value)
    ensures TakenBack(db, id, f)
  {
  }

  lemma RetractionLogs(db: Db, id: string, d: Decision)
    requires ValidDb(db) && id in db.proposals
    ensures LogsRetraction(db, id, d.reviewedById, Retracted(db, id, d).revisions)
  {
    hide TakenBack, TakenBackTo, Reverted, Swept, MarksToRestore;
    RevertedMeans(db, id);
    OwnFields(db, id);
    var restored, log, n := Reverted(db, id).restored, Retracted(db, id, d).revisions, |db.revisions|;
    assert |log| == n + |restored.keys|;
    forall f | TakenBack(db, id, f) ensures exists i :: n <= i < |log| && log[i].field == f {
      var i :| 0 <= i < |restored.keys| && restored.keys[i] == f;
      assert log[n + i].field == f;
    }
  }

  lemma RetractionUncites(db: Db, id: string, d: Decision)
    requires ValidDb(db) && id in db.proposals
    ensures Uncites(db, id, Retracted(db, id, d).citations)
  {
    hide TakenBack, Reverted, Swept, MarksToRestore;
    RevertedMeans(db, id);
  }

  /** Whatever is decided, each table comes out as told. */
  lemma DecisionMeans(db: Db, e: Event)
    requires ValidDb(db) && e.id in db.proposals
    ensures Decides(db, e, Moderated(db, e))
  {
    hide Applies, TakesBack, MarksAgain, LogsRetraction, Uncites, Reverted, MarksToRestore;
    if e.Approve? {
      ApprovalApplies(db, e.id, e.decision);
    } else if db.proposals[e.id].status == APPROVED {
      RetractionTakesBack(db, e.id, e.decision);
      RetractionLogs(db, e.id, e.decision);
      RetractionUncites(db, e.id, e.decision);
    }
  }

  // ----- over runs ---------------------------------------------------------------------------------------------

  /** The newest decision of the run on the proposal. */
  ghost predicate NewestAt(es: seq<Event>, id: string, k: nat) {
    k < |es| && es[k].id == id && forall j :: k < j < |es| ==> es[j].id != id
  }

  lemma StepCarries(db: Db, e: Event, id: string)
    requires ValidDb(db) && id in db.proposals
    ensures var p := Moderated(db, e).proposals[id];
      && (e.id == id ==> p.status == (if e.Approve? then APPROVED else REJECTED) && p.review == Some(e.decision))
      && (e.id != id ==> p == db.proposals[id])
  {
    hide Applies, TakesBack, MarksAgain, LogsRetraction, Uncites;
    if e.id in db.proposals {
      DecisionMeans(db, e);
    }
  }

  lemma NewestPush(es: seq<Event>, id: string, k: nat)
    requires es != []
    ensures NewestAt(es, id, k) <==>
      if es[|es| - 1].id == id then k == |es| - 1 else NewestAt(es[..|es| - 1], id, k)
  {
    if k < |es| - 1 {
      assert forall j :: k < j < |es| - 1 ==> es[..|es| - 1][j] == es[j];
    }
  }

  /** Each proposal carries the status and the review of its newest decision. */
  lemma {:induction false} RunCarriesNewest(db: Db, es: seq<Event>, id: string, k: nat)
    requires ValidDb(db) && id in db.proposals && NewestAt(es, id, k)
    ensures var p := Run(db, es).proposals[id];
      p.status == (if es[k].Approve? then APPROVED else REJECTED) && p.review == Some(es[k].decision)
  {
    hide Moderated;
    var before := es[..|es| - 1];
    NewestPush(es, id, k);
    StepCarries(Run(db, before), es[|es| - 1], id);
    if es[|es| - 1].id != id {
      RunCarriesNewest(db, before, id, k);
    }
  }

  /** And one that was not decided is what it was. */
  lemma {:induction false} RunLeavesUndecided(db: Db, es: seq<Event>, id: string)
    requires ValidDb(db) && id in db.proposals && forall i :: 0 <= i < |es| ==> es[i].id != id
    ensures Run(db, es).proposals[id] == db.proposals[id]
  {
    hide Moderated;
    if es != [] {
      RunLeavesUndecided(db, es[..|es| - 1], id);
      StepCarries(Run(db, es[..|es| - 1]), es[|es| - 1], id);
    }
  }
}
