/** Citations over runs: a published field keeps its source, and a retraction takes only its own. */
module ProposalCitations {
  import opened Basics
  import opened Proposals
  import opened ProposalNesting
  import opened ProposalRuns
  import opened ProposalUndo

  /** Each field an approved proposal with a source names is cited to that source. */
  ghost predicate Cited(db: Db) {
    forall id, f :: id in db.proposals && f in db.proposals[id].changes.keys ==> FieldCited(db, id, f)
  }

  predicate FieldCited(db: Db, id: string, f: string)
    requires id in db.proposals
  {
    var p := db.proposals[id];
    p.status == APPROVED && Cites(p) ==> CitationKey(p.sourceUrl.value, p.companyId, f) in db.citations
  }

  lemma StepCited(db: Db, e: Event)
    requires ValidDb(db) && Cited(db)
    ensures Cited(Moderated(db, e))
  {
    var db' := Moderated(db, e);
    forall id, f | id in db'.proposals && f in db'.proposals[id].changes.keys
      ensures FieldCited(db', id, f)
    {
      var p := db.proposals[id];
      assert FieldCited(db, id, f);
      if e.Reject? && e.id in db.proposals && id != e.id && p.status == APPROVED && Cites(p) {
        // Another proposal's citation of the field survives because this one still cites it.
        var key := CitationKey(p.sourceUrl.value, p.companyId, f);
        var q := db.proposals[e.id];
        if q.companyId == p.companyId && q.sourceUrl == p.sourceUrl {
          assert StillCited(db.proposals, e.id, q, f);
        }
      }
    }
  }

  /** In every state a run reaches, every published cited field has its citation. */
  lemma {:induction false} RunCited(db: Db, es: seq<Event>)
    requires ValidDb(db) && Cited(db)
    ensures Cited(Run(db, es))
  {
    if es != [] {
      RunCited(db, es[..|es| - 1]);
      StepCited(Run(db, es[..|es| - 1]), es[|es| - 1]);
    }
  }

  /**
   * A retraction deletes a citation if and only if it is of the proposal's URL on its company,
   * for a field it reverted that no other approved proposal cites to that URL, and was minted
   * under the same submitter. Every other citation stays as it was, and none appears.
   */
  lemma RetractionUnmintsExactly(db: Db, id: string, d: Decision, key: CitationKey)
    requires ValidDb(db) && id in db.proposals && key in db.citations
    ensures var p := db.proposals[id];
      key !in Retracted(db, id, d).citations <==>
        && p.sourceUrl == Some(key.url) && key.url != ""
        && p.companyId == key.companyId && key.field in Reverted(db, id).restored.keys
        && db.citations[key] == p.submittedById
        && forall o | o in db.proposals && o != id && db.proposals[o].status == APPROVED ::
             db.proposals[o].companyId == p.companyId && db.proposals[o].sourceUrl == p.sourceUrl ==>
               key.field !in db.proposals[o].changes.keys
    ensures key in Retracted(db, id, d).citations ==> Retracted(db, id, d).citations[key] == db.citations[key]
    ensures Retracted(db, id, d).citations.Keys <= db.citations.Keys
  {
    var p := db.proposals[id];
    SweptExactly(db.revisions, id, db.companies[p.companyId].columns, p.changes, |p.changes.keys|);
  }

  /** The proposal's retraction could take a citation like this one, minted under `user`. */
  predicate CouldUnmint(p: Proposal, key: CitationKey, user: Option<string>) {
    p.sourceUrl == Some(key.url) && p.companyId == key.companyId && p.submittedById == user
  }

  lemma StepKeepsCitation(db: Db, e: Event, key: CitationKey)
    requires ValidDb(db) && key in db.citations
    requires e.id in db.proposals ==> !CouldUnmint(db.proposals[e.id], key, db.citations[key])
    ensures key in Moderated(db, e).citations && Moderated(db, e).citations[key] == db.citations[key]
  {
  }

  /** Over any run, a citation stays, under the same user, unless some proposal that user
      submitted cites the same URL for the same company. */
  lemma {:induction false} CitationsOutliveOthers(db: Db, es: seq<Event>, key: CitationKey)
    requires ValidDb(db) && key in db.citations
    requires forall id :: id in db.proposals ==> !CouldUnmint(db.proposals[id], key, db.citations[key])
    ensures key in Run(db, es).citations && Run(db, es).citations[key] == db.citations[key]
  {
    if es != [] {
      var mid := Run(db, es[..|es| - 1]);
      var e := es[|es| - 1];
      CitationsOutliveOthers(db, es[..|es| - 1], key);
      RunKeepsProposals(db, es[..|es| - 1]);
      assert e.id in mid.proposals ==> SameProposal(db.proposals[e.id], mid.proposals[e.id]);
      StepKeepsCitation(mid, e, key);
    }
  }

  // ----- an approval and its retraction ------------------------------------------------------------

  /** Minting for `f` and then retracting leaves the field's citations as they were. */
  predicate CitationReturns(db: Db, id: string, f: string)
    requires id in db.proposals && ValidProposal(db.proposals[id], db.companies) && f in db.proposals[id].changes.keys
    requires Cites(db.proposals[id])
  {
    var p := db.proposals[id];
    var key := CitationKey(p.sourceUrl.value, p.companyId, f);
    if db.companies[p.companyId].columns[f] != p.changes.values[f] && !StillCited(db.proposals, id, p, f)
    then !(key in db.citations && db.citations[key] == p.submittedById)
    else key in db.citations
  }

  /** Only the keys the proposal cites can come or go, and each does exactly when it does not return. */
  predicate Outcome(db: Db, id: string, after: map<CitationKey, Option<string>>, key: CitationKey)
    requires id in db.proposals && ValidProposal(db.proposals[id], db.companies)
  {
    var p := db.proposals[id];
    var mints :=
      p.sourceUrl == Some(key.url) && key.url != "" && key.companyId == p.companyId && key.field in p.changes.keys;
    && (key in after <==>
         if mints && !CitationReturns(db, id, key.field) then key !in db.citations else key in db.citations)
    && (key in after && key in db.citations ==> after[key] == db.citations[key])
  }

  lemma SameCitations(db: Db, id: string, after: map<CitationKey, Option<string>>)
    requires id in db.proposals && ValidProposal(db.proposals[id], db.companies)
    requires forall key :: Outcome(db, id, after, key)
    ensures after == db.citations <==>
      (Cites(db.proposals[id]) ==> forall f :: f in db.proposals[id].changes.keys ==> CitationReturns(db, id, f))
  {
    hide CitationReturns;
    var p := db.proposals[id];
    if Cites(p) {
      forall f | f in p.changes.keys && !CitationReturns(db, id, f)
        ensures var key := CitationKey(p.sourceUrl.value, p.companyId, f); key in after <==> key !in db.citations
      {
        assert Outcome(db, id, after, CitationKey(p.sourceUrl.value, p.companyId, f));
      }
    }
    if !Cites(p) || forall f :: f in p.changes.keys ==> CitationReturns(db, id, f) {
      forall key
        ensures key in after <==> key in db.citations
        ensures key in after && key in db.citations ==> after[key] == db.citations[key]
      {
        assert Outcome(db, id, after, key);
      }
    }
  }

  lemma CitationAfterBoth(db: Db, id: string, mid: Db, d: Decision, key: CitationKey)
    requires ValidDb(db) && id in db.proposals && ValidDb(mid) && Edited(db, id, mid)
    requires CitesFields(db.proposals[id], db.citations, mid.citations)
    requires forall o :: o != id ==>
      (o in mid.proposals <==> o in db.proposals) && (o in db.proposals ==> mid.proposals[o] == db.proposals[o])
    ensures Outcome(db, id, Retracted(mid, id, d).citations, key)
  {
    hide Reverted, MarksToRestore, Live, StillCited, Edited;
    var p := db.proposals[id];
    EditedProposal(db, id, mid);
    VerdictsEdited(db, id, mid);
    SameStillCited(db, id, mid, key.field);
    RetractedCitations(mid, id, d, key);
  }

  lemma EditedProposal(db: Db, id: string, now: Db)
    requires ValidDb(db) && id in db.proposals && ValidDb(now) && Edited(db, id, now)
    ensures id in now.proposals && SameProposal(db.proposals[id], now.proposals[id])
  {
  }

  lemma SameStillCited(db: Db, id: string, mid: Db, f: string)
    requires id in db.proposals && id in mid.proposals && SameProposal(db.proposals[id], mid.proposals[id])
    requires forall o :: o != id ==>
      (o in mid.proposals <==> o in db.proposals) && (o in db.proposals ==> mid.proposals[o] == db.proposals[o])
    ensures StillCited(mid.proposals, id, mid.proposals[id], f) <==> StillCited(db.proposals, id, db.proposals[id], f)
  {
  }

  lemma RetractedCitations(db: Db, id: string, d: Decision, key: CitationKey)
    requires ValidDb(db) && id in db.proposals
    ensures var after := Retracted(db, id, d).citations;
      && (key in after <==>
           key in db.citations
           && !Unminted(db.proposals, db.citations, id, db.proposals[id], Reverted(db, id).restored.keys, key))
      && (key in after ==> after[key] == db.citations[key])
  {
    hide Reverted, MarksToRestore, Unminted;
  }

  lemma CitesFieldsTwice(
    p: Proposal, a: map<CitationKey, Option<string>>, b: map<CitationKey, Option<string>>,
    c: map<CitationKey, Option<string>>
  )
    requires CitesFields(p, a, b) && CitesFields(p, b, c)
    ensures CitesFields(p, a, c)
  {
  }

  /** Approving again mints nothing more. */
  lemma {:induction false} ApprovalsCite(db: Db, id: string, ds: seq<Decision>)
    requires ValidDb(db) && id in db.proposals && |ds| >= 1
    ensures CitesFields(db.proposals[id], db.citations, Run(db, Approvals(id, ds)).citations)
  {
    hide Moderated, CitesFields, Run, Approvals;
    var n := |ds| - 1;
    var shorter := Approvals(id, ds[..n]);
    ApprovalsPush(db, id, ds);
    CitesOnceMore(db, id, shorter, ds[n]);
    if n > 0 {
      ApprovalsCite(db, id, ds[..n]);
      CitesFieldsTwice(
        db.proposals[id], db.citations, Run(db, shorter).citations, Run(db, Approvals(id, ds)).citations);
    } else {
      NoneApproved(db, id, ds[..n]);
    }
  }

  lemma NoneApproved(db: Db, id: string, ds: seq<Decision>)
    requires ValidDb(db) && ds == []
    ensures Run(db, Approvals(id, ds)) == db
  {
  }

  lemma ApprovalsPush(db: Db, id: string, ds: seq<Decision>)
    requires ValidDb(db) && |ds| >= 1
    ensures var n := |ds| - 1;
      Run(db, Approvals(id, ds)) == Moderated(Run(db, Approvals(id, ds[..n])), Approve(id, ds[n]))
  {
    hide Moderated;
    var n := |ds| - 1;
    assert Approvals(id, ds) == Approvals(id, ds[..n]) + [Approve(id, ds[n])];
    RunConcat(db, Approvals(id, ds[..n]), [Approve(id, ds[n])]);
    RunOne(Run(db, Approvals(id, ds[..n])), Approve(id, ds[n]));
  }

  lemma CitesOnceMore(db: Db, id: string, es: seq<Event>, d: Decision)
    requires ValidDb(db) && id in db.proposals
    ensures var mid := Run(db, es);
      CitesFields(db.proposals[id], mid.citations, Moderated(mid, Approve(id, d)).citations)
  {
    hide Moderated, CitesFields, Run;
    var mid := Run(db, es);
    RunKeepsProposals(db, es);
    ApprovalCites(mid, id, d);
    SameCites(db.proposals[id], mid.proposals[id], mid.citations, Moderated(mid, Approve(id, d)).citations);
  }

  lemma SameCites(
    p: Proposal, q: Proposal, before: map<CitationKey, Option<string>>, after: map<CitationKey, Option<string>>
  )
    requires SameProposal(p, q) && CitesFields(q, before, after)
    ensures CitesFields(p, before, after)
  {
  }

  /**
   * A proposal approved any number of times and then rejected leaves the citations as they were if and
   * only if, for each of its fields: where the edit is taken back and nobody else cites it, its
   * submitter held no citation of that URL before, and everywhere else a citation was there already.
   */
  lemma {:induction false} CitationsReturnExactlyWhen(db: Db, id: string, ds: seq<Decision>, rejected: Decision)
    requires ValidDb(db) && id in db.proposals && NeverApproved(db.revisions, id) && |ds| >= 1
    ensures Run(db, Approvals(id, ds) + [Reject(id, rejected)]).citations == db.citations <==>
      (Cites(db.proposals[id]) ==> forall f :: f in db.proposals[id].changes.keys ==> CitationReturns(db, id, f))
  {
    hide Moderated, Retracted, Approved, Edited, Standing, CitationReturns, NeverApproved, Outcome, Run, CitesFields;
    var es := Approvals(id, ds);
    var mid, after := Run(db, es), Run(db, es + [Reject(id, rejected)]);
    AfterApprovals(db, id, ds);
    StandingEdited(db, id, |ds|, mid);
    EditedApproved(db, id, mid);
    ApprovalsCite(db, id, ds);
    var added := RunApart(db, es, [id]);
    RunRejected(db, es, id, rejected);
    forall key: CitationKey ensures Outcome(db, id, after.citations, key) {
      CitationAfterBoth(db, id, mid, rejected, key);
    }
    SameCitations(db, id, after.citations);
  }

  lemma ApprovalCites(db: Db, id: string, d: Decision)
    requires ValidDb(db) && id in db.proposals
    ensures var mid := Moderated(db, Approve(id, d));
      && CitesFields(db.proposals[id], db.citations, mid.citations)
      && forall o :: o != id ==>
           (o in mid.proposals <==> o in db.proposals) && (o in db.proposals ==> mid.proposals[o] == db.proposals[o])
  {
    hide CitesFields;
    ApprovalApplies(db, id, d);
  }
}
