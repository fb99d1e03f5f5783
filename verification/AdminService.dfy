/** The moderation service over its tables: each method is proved to do what `Proposals` says. */
module AdminServiceCode {
  import opened Basics
  import opened DecisionEffects
  import opened Proposals

  datatype Failure = NotFound

  /** The fields a retraction put back, and those it left because the company no longer shows the edit. */
  datatype RevertResult = RevertResult(revertedFields: seq<string>, skippedFields: seq<string>)

  class AdminService {
    var companies: map<string, Company>
    var proposals: map<string, Proposal>
    var revisions: seq<Revision>
    var sources: set<string>
    var citations: map<CitationKey, Option<string>>

    ghost function Snapshot(): Db
      reads this
    {
      Db(companies, proposals, revisions, sources, citations)
    }

    constructor (db: Db)
      ensures Snapshot() == db
    {
      companies, proposals, revisions := db.companies, db.proposals, db.revisions;
      sources, citations := db.sources, db.citations;
    }

    /** Every table after a decision, told apart from the code; an unknown proposal changes none. */
    method Moderate(e: Event) returns (r: Result<Option<RevertResult>, Failure>)
      requires ValidDb(Snapshot())
      modifies this
      ensures Snapshot() == Moderated(old(Snapshot()), e) && ValidDb(Snapshot())
      ensures r.Err? <==> e.id !in old(proposals)
      ensures r.Err? ==> Snapshot() == old(Snapshot())
      ensures r.Ok? ==> Decides(old(Snapshot()), e, Snapshot())
      ensures r.Ok? ==>
        (r.value.Some? <==> e.Reject? && old(proposals)[e.id].status == APPROVED)
      ensures r.Ok? && r.value.Some? ==>
        var s := Reverted(old(Snapshot()), e.id);
        r.value.value == RevertResult(s.restored.keys, s.skipped)
    {
      hide Decides;
      ModeratedValid(Snapshot(), e);
      if e.id in proposals {
        DecisionMeans(Snapshot(), e);
      }
      if e.id !in proposals {
        return Err(NotFound);
      }
      if e.Approve? {
        ApplyProposal(e.id, e.decision);
        return Ok(None);
      }
      if proposals[e.id].status == APPROVED {
        var reverted := RevertProposal(e.id, e.decision);
        return Ok(Some(reverted));
      }
      proposals := proposals[e.id := proposals[e.id].(status := REJECTED, review := Some(e.decision))];
      return Ok(None);
    }

    method ApplyProposal(id: string, decision: Decision)
      requires id in proposals && ValidDb(Snapshot())
      modifies this
      ensures Snapshot() == Approved(old(Snapshot()), id, decision)
      ensures Applies(old(Snapshot()), id, decision, Snapshot())
    {
      hide Applies;
      ApprovalApplies(Snapshot(), id, decision);
      var proposal := proposals[id];
      var company := companies[proposal.companyId];
      // Read now: the log needs the old values once the row has the new ones.
      var before := company.columns;
      var fields := proposal.changes.keys;

      companies := companies[proposal.companyId := company.(
        columns := company.columns + proposal.changes.values,
        partnerFields := Drop(company.partnerFields, fields))];
      proposals := proposals[id := proposal.(
        status := APPROVED,
        review := Some(decision),
        clearedPartnerFields := Some(Keep(company.partnerFields, fields)))];
      revisions := revisions + UpdateRevisions(proposal, id, before, decision.reviewedById);
      if Cites(proposal) {
        sources := sources + {proposal.sourceUrl.value};
        citations := Minted(proposal, citations);
      }
    }

    /** Newest first: the entry that changed something, else the first entry of all. */
    method FindReplaced(id: string, field: string) returns (replaced: Option<Revision>)
      ensures replaced == Replaced(revisions, id, field)
      ensures replaced.Some? <==> exists k: nat :: LoggedAt(revisions, id, field, k)
      ensures forall k: nat :: GoesBy(revisions, id, field, k) ==> k < |revisions| && replaced == Some(revisions[k])
    {
      hide GoesBy, LoggedAt;
      ReplacedMeans(revisions, id, field);
      replaced := None;
      var n := |revisions|;
      assert revisions[..n] == revisions;
      while n > 0
        invariant 0 <= n <= |revisions|
        invariant NewestReal(revisions, id, field) == NewestReal(revisions[..n], id, field)
        invariant Newest(revisions, id, field) ==
          if replaced.Some? then replaced else Newest(revisions[..n], id, field)
      {
        n := n - 1;
        var r := revisions[n];
        assert revisions[..n + 1][..n] == revisions[..n];
        if Mine(r, id, field) {
          if r.before != r.after {
            return Some(r);
          }
          if replaced.None? {
            replaced := Some(r);
          }
        }
      }
    }

    /** Compare each proposed field with the live row and the log: what to put back, what to skip. */
    method CompareFields(id: string) returns (restored: Diff, skippedFields: seq<string>)
      requires id in proposals && ValidDb(Snapshot())
      ensures Sweep(restored, skippedFields) == Reverted(Snapshot(), id)
    {
      var changes := proposals[id].changes;
      var current := companies[proposals[id].companyId].columns;
      restored, skippedFields := EMPTY_DIFF, [];
      var i := 0;
      while i < |changes.keys|
        invariant 0 <= i <= |changes.keys|
        invariant Sweep(restored, skippedFields) == Swept(revisions, id, current, changes, i)
      {
        var field := changes.keys[i];
        var value := changes.values[field];
        var replaced := FindReplaced(id, field);
        if replaced.None? || current[field] != value {
          skippedFields := skippedFields + [field];
        } else if replaced.value.before != value {
          restored := Diff(restored.keys + [field], restored.values[field := replaced.value.before]);
        }
        i := i + 1;
      }
    }

    method RevertProposal(id: string, decision: Decision) returns (result: RevertResult)
      requires id in proposals && ValidDb(Snapshot())
      modifies this
      ensures Snapshot() == Retracted(old(Snapshot()), id, decision)
      ensures var s := Reverted(old(Snapshot()), id);
        result == RevertResult(s.restored.keys, s.skipped)
      ensures forall f :: f in result.revertedFields <==> TakenBack(old(Snapshot()), id, f)
      ensures forall f :: f in result.skippedFields <==> LeftAlone(old(Snapshot()), id, f)
    {
      hide TakenBack, LeftAlone;
      RevertedMeans(Snapshot(), id);
      hide MarksToRestore, Drop, TouchedByPartner, RetractRevisions, Unminted, Swept;
      var proposal := proposals[id];
      var company := companies[proposal.companyId];
      var current := company.columns;
      assert forall key :: key in Snapshot().citations ==> key.url in Snapshot().sources;
      var restored, skippedFields := CompareFields(id);
      SweptExactly(revisions, id, current, proposal.changes, |proposal.changes.keys|);
      var revertedFields := restored.keys;

      if |revertedFields| > 0 {
        var marks := MarksToRestore(TouchedByPartner(company), proposal.clearedPartnerFields, restored);
        companies := companies[proposal.companyId := company.(
          columns := company.columns + restored.values,
          partnerFields := company.partnerFields + Drop(marks, company.partnerFields))];
        revisions := revisions + RetractRevisions(proposal, id, current, restored, decision.reviewedById);
        DeleteProposalCitations(id, proposal, revertedFields);
      } else {
        NothingRestored(old(Snapshot()), id);
      }
      proposals := proposals[id := proposal.(status := REJECTED, review := Some(decision))];
      return RevertResult(revertedFields, skippedFields);
    }

    method DeleteProposalCitations(id: string, proposal: Proposal, fields: seq<string>)
      requires forall key :: key in citations ==> key.url in sources
      modifies this`citations
      ensures citations ==
        map key | key in old(citations) && !Unminted(proposals, old(citations), id, proposal, fields, key) ::
          old(citations)[key]
    {
      if !Cites(proposal) || proposal.sourceUrl.value !in sources {
        return;
      }
      var stillCited := set o, f | o in proposals && o != id
        && proposals[o].companyId == proposal.companyId && proposals[o].sourceUrl == proposal.sourceUrl
        && proposals[o].status == APPROVED && f in proposals[o].changes.keys :: f;
      var drop := set f | f in fields && f !in stillCited;
      if drop == {} {
        assert forall key | key in citations :: key.field in fields ==> key.field in stillCited by {
          forall f | f in fields ensures f in stillCited { assert f !in drop; }
        }
        return;
      }
      citations := map key | key in citations && !(
        key.url == proposal.sourceUrl.value && key.companyId == proposal.companyId
        && key.field in drop && citations[key] == proposal.submittedById) :: citations[key];
    }
  }

  /** With nothing to restore, a retraction only flips the proposal's status. */
  lemma NothingRestored(db: Db, id: string)
    requires id in db.proposals && ValidDb(db)
    requires Reverted(db, id).restored.keys == []
    ensures forall d ::
      Retracted(db, id, d) ==
        db.(proposals := db.proposals[id := db.proposals[id].(status := REJECTED, review := Some(d))])
  {
    var p := db.proposals[id];
    var row := db.companies[p.companyId];
    var restored := Reverted(db, id).restored;
    SweptExactly(db.revisions, id, row.columns, p.changes, |p.changes.keys|);
    assert restored.values == map[];
    var marks := MarksToRestore(TouchedByPartner(row), p.clearedPartnerFields, restored);
    assert marks == [];
    forall d
      ensures Retracted(db, id, d) ==
        db.(proposals := db.proposals[id := p.(status := REJECTED, review := Some(d))])
    {
      var after := Retracted(db, id, d);
      assert row.columns + restored.values == row.columns;
      assert after.companies[p.companyId] == row;
      assert after.companies == db.companies;
      assert after.citations == db.citations;
    }
  }
}
