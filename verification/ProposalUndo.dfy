/** What a retraction undoes, what it leaves alone, and which marks and citations it moves. */
module ProposalUndo {
  import opened Basics
  import opened Proposals
  import opened ProposalRuns

  // ----- the entry a retraction goes back to ----------------------------------------

  ghost predicate NeverApproved(log: seq<Revision>, id: string) {
    forall i :: 0 <= i < |log| ==> !(log[i].proposalId == id && log[i].action == UPDATE)
  }

  lemma {:induction false} NothingOfMine(log: seq<Revision>, id: string, f: string)
    requires NeverApproved(log, id)
    ensures Newest(log, id, f).None? && NewestReal(log, id, f).None?
  {
    if log != [] {
      assert !Mine(log[|log| - 1], id, f);
      NothingOfMine(log[..|log| - 1], id, f);
    }
  }

  lemma {:induction false} RealIndex(log: seq<Revision>, id: string, f: string) returns (k: int)
    ensures NewestReal(log, id, f).Some? <==> 0 <= k
    ensures 0 <= k ==> k < |log| && Mine(log[k], id, f) && NewestReal(log, id, f).value == log[k]
    ensures 0 <= k ==> log[k].before != log[k].after
    ensures -1 <= k
    ensures forall j :: k < j < |log| && Mine(log[j], id, f) ==> log[j].before == log[j].after
  {
    if log == [] {
      k := -1;
    } else if Mine(log[|log| - 1], id, f) && log[|log| - 1].before != log[|log| - 1].after {
      k := |log| - 1;
    } else {
      k := RealIndex(log[..|log| - 1], id, f);
    }
  }

  lemma {:induction false} NewestIndex(log: seq<Revision>, id: string, f: string) returns (k: int)
    ensures Newest(log, id, f).Some? <==> 0 <= k
    ensures 0 <= k ==> k < |log| && Mine(log[k], id, f) && Newest(log, id, f).value == log[k]
    ensures -1 <= k
    ensures forall j :: k < j < |log| ==> !Mine(log[j], id, f)
  {
    if log == [] {
      k := -1;
    } else if Mine(log[|log| - 1], id, f) {
      k := |log| - 1;
    } else {
      k := NewestIndex(log[..|log| - 1], id, f);
    }
  }

  /** What no decision ever rewrites: which company a proposal edits, how, and citing what. */
  predicate SameProposal(p: Proposal, q: Proposal) {
    p.(status := q.status, review := q.review, clearedPartnerFields := q.clearedPartnerFields) == q
  }

  /** An approval's entries carry the proposal's own company and values. */
  ghost predicate EntryOf(proposals: map<string, Proposal>, r: Revision) {
    r.action == UPDATE ==>
      && r.proposalId in proposals
      && var p := proposals[r.proposalId];
         r.companyId == p.companyId && r.field in p.changes.values && r.after == p.changes.values[r.field]
  }

  ghost predicate EntriesFrom(db: Db, n: nat) {
    forall i :: n <= i < |db.revisions| ==> EntryOf(db.proposals, db.revisions[i])
  }

  lemma {:induction false} RunKeepsProposals(db: Db, es: seq<Event>)
    requires ValidDb(db)
    ensures forall id :: id in db.proposals ==> SameProposal(db.proposals[id], Run(db, es).proposals[id])
    ensures EntriesFrom(Run(db, es), |db.revisions|)
  {
    if es != [] {
      RunKeepsProposals(db, es[..|es| - 1]);
      var mid := Run(db, es[..|es| - 1]);
      StepKeepsProposals(mid, es[|es| - 1], |db.revisions|);
    }
  }

  lemma StepKeepsProposals(db: Db, e: Event, n: nat)
    requires ValidDb(db) && EntriesFrom(db, n)
    ensures forall id :: id in db.proposals ==> SameProposal(db.proposals[id], Moderated(db, e).proposals[id])
    ensures EntriesFrom(Moderated(db, e), n)
  {
    var db' := Moderated(db, e);
    assert forall id :: id in db.proposals ==> SameProposal(db.proposals[id], db'.proposals[id]);
    forall i | n <= i < |db'.revisions|
      ensures EntryOf(db'.proposals, db'.revisions[i])
    {
      if i < |db.revisions| {
        assert db'.revisions[i] == db.revisions[i];
        assert EntryOf(db.proposals, db.revisions[i]);
      }
    }
  }

  /** The entry a restoring verdict goes back to: the newest of the proposal's that changed something. */
  lemma RestoringEntry(log: seq<Revision>, id: string, f: string, live: Value, proposed: Value) returns (k: nat)
    requires Judge(log, id, f, live, proposed).Restore?
    requires forall i :: 0 <= i < |log| && Mine(log[i], id, f) ==> log[i].after == proposed
    ensures k < |log| && Mine(log[k], id, f) && log[k].before != log[k].after
    ensures log[k].before == Judge(log, id, f, live, proposed).before
    ensures forall j :: k < j < |log| && Mine(log[j], id, f) ==> log[j].before == log[j].after
  {
    var newest := NewestIndex(log, id, f);
    k := RealIndex(log, id, f);
  }

  lemma MineAfter(db: Db, log: seq<Revision>, id: string, f: string)
    requires ValidDb(db) && id in db.proposals && log <= db.revisions
    requires NeverApproved(log, id) && EntriesFrom(db, |log|)
    ensures forall i :: 0 <= i < |db.revisions| && Mine(db.revisions[i], id, f) ==>
      |log| <= i && db.revisions[i].companyId == db.proposals[id].companyId
      && f in db.proposals[id].changes.values && db.revisions[i].after == db.proposals[id].changes.values[f]
  {
    assert forall i :: 0 <= i < |log| ==> db.revisions[i] == log[i];
    forall i | 0 <= i < |db.revisions| && Mine(db.revisions[i], id, f)
      ensures |log| <= i && EntryOf(db.proposals, db.revisions[i])
    {
    }
  }

  /**
   * Whatever run came before, a value a retraction restores is the one the company showed
   * immediately before the proposal's newest approval that changed that field.
   */
  lemma {:induction false} RestoresWhatWasShown(
    db: Db, es: seq<Event>, id: string, f: string
  ) returns (added: seq<Revision>, k: nat)
    requires ValidDb(db) && id in db.proposals && NeverApproved(db.revisions, id)
    requires f in Reverted(Run(db, es), id).restored.keys
    ensures Explains(db, added, Run(db, es)) && k < |added|
    ensures Mine(added[k], id, f) && added[k].before != added[k].after
    ensures forall j :: k < j < |added| && Mine(added[j], id, f) ==> added[j].before == added[j].after
    ensures var shown := Replay(Live(db), added[..k]);
      var c := db.proposals[id].companyId;
      c in shown && f in shown[c] && f in Reverted(Run(db, es), id).restored.values
      && Reverted(Run(db, es), id).restored.values[f] == shown[c][f]
  {
    var now := Run(db, es);
    added := LogExplainsRows(db, es);
    RunKeepsProposals(db, es);
    k := ShownBefore(db, now, added, id, f);
  }

  lemma ShownBefore(db: Db, now: Db, added: seq<Revision>, id: string, f: string) returns (k: nat)
    requires ValidDb(now) && id in now.proposals && NeverApproved(db.revisions, id)
    requires Explains(db, added, now) && EntriesFrom(now, |db.revisions|)
    requires f in Reverted(now, id).restored.keys
    ensures k < |added| && Mine(added[k], id, f) && added[k].before != added[k].after
    ensures forall j :: k < j < |added| && Mine(added[j], id, f) ==> added[j].before == added[j].after
    ensures var shown := Replay(Live(db), added[..k]);
      var c := now.proposals[id].companyId;
      c in shown && f in shown[c] && f in Reverted(now, id).restored.values
      && Reverted(now, id).restored.values[f] == shown[c][f]
  {
    k := PickInRun(db, now, added, id, f);
    assert Follows(Replay(Live(db), added[..k]), added[k]);
  }

  lemma PickInRun(db: Db, now: Db, added: seq<Revision>, id: string, f: string) returns (k: nat)
    requires ValidDb(now) && id in now.proposals && NeverApproved(db.revisions, id)
    requires now.revisions == db.revisions + added && EntriesFrom(now, |db.revisions|)
    requires f in Reverted(now, id).restored.keys
    ensures k < |added| && Mine(added[k], id, f) && added[k].before != added[k].after
    ensures added[k].companyId == now.proposals[id].companyId
    ensures f in Reverted(now, id).restored.values && added[k].before == Reverted(now, id).restored.values[f]
    ensures forall j :: k < j < |added| && Mine(added[j], id, f) ==> added[j].before == added[j].after
  {
    var p := now.proposals[id];
    var live := now.companies[p.companyId].columns;
    SweptExactly(now.revisions, id, live, p.changes, |p.changes.keys|);
    assert p.changes.keys[..|p.changes.keys|] == p.changes.keys;
    MineAfter(now, db.revisions, id, f);
    var at := RestoringEntry(now.revisions, id, f, live[f], p.changes.values[f]);
    k := at - |db.revisions|;
    assert forall j :: 0 <= j < |added| ==> added[j] == now.revisions[|db.revisions| + j];
  }

  // ----- a retraction never overwrites newer data -------------------------------------

  /** A retraction changes exactly the columns it reports reverted, on the proposal's own company;
      a field that has moved on since is reported skipped and keeps its value. */
  lemma RetractionNeverClobbers(db: Db, id: string, d: Decision)
    requires ValidDb(db) && id in db.proposals
    ensures var p := db.proposals[id];
      var s := Reverted(db, id);
      var before := db.companies[p.companyId].columns;
      var after := Retracted(db, id, d).companies[p.companyId].columns;
      && after.Keys == before.Keys
      && (forall f :: f in before ==> (after[f] != before[f] <==> f in s.restored.keys))
      && (forall f :: f in p.changes.keys && before[f] != p.changes.values[f] ==>
           f in s.skipped && after[f] == before[f])
      && (forall f :: f in s.skipped ==> f in p.changes.keys && f !in s.restored.keys)
    ensures forall c :: c in db.companies && c != db.proposals[id].companyId ==>
      Retracted(db, id, d).companies[c] == db.companies[c]
    ensures Retracted(db, id, d).companies.Keys == db.companies.Keys
  {
    var p := db.proposals[id];
    var before := db.companies[p.companyId].columns;
    SweptExactly(db.revisions, id, before, p.changes, |p.changes.keys|);
    assert p.changes.keys[..|p.changes.keys|] == p.changes.keys;
  }

  // ----- approving any number of times, then rejecting ---------------------------------

  function Approvals(id: string, ds: seq<Decision>): seq<Event> {
    seq(|ds|, i requires 0 <= i < |ds| => Approve(id, ds[i]))
  }

  lemma {:induction false} NewestInBatch(log: seq<Revision>, rs: seq<Revision>, n: nat, id: string, f: string)
    requires n <= |rs|
    requires forall i :: 0 <= i < |rs| ==> rs[i].proposalId == id && rs[i].action == UPDATE
    requires forall i, j :: 0 <= i < j < |rs| ==> rs[i].field != rs[j].field
    ensures (forall i :: 0 <= i < n ==> rs[i].field != f) ==>
      Newest(log + rs[..n], id, f) == Newest(log, id, f) && NewestReal(log + rs[..n], id, f) == NewestReal(log, id, f)
    ensures forall i :: 0 <= i < n && rs[i].field == f ==>
      && Newest(log + rs[..n], id, f) == Some(rs[i])
      && NewestReal(log + rs[..n], id, f) == if rs[i].before != rs[i].after then Some(rs[i]) else NewestReal(log, id, f)
  {
    if n == 0 {
      assert log + rs[..0] == log;
    } else {
      NewestInBatch(log, rs, n - 1, id, f);
      var whole := log + rs[..n];
      assert whole[..|whole| - 1] == log + rs[..n - 1];
      assert whole[|whole| - 1] == rs[n - 1];
    }
  }

  /** The row a retraction of `p` goes back to, as the log records it. */
  ghost predicate Remembers(log: seq<Revision>, id: string, f: string, original: Value, proposed: Value) {
    && Newest(log, id, f).Some?
    && (original != proposed ==> NewestReal(log, id, f).Some? && NewestReal(log, id, f).value.before == original)
    && (original == proposed ==> NewestReal(log, id, f).None? && Newest(log, id, f).value.before == original)
  }

  lemma ApprovalRemembers(db: Db, id: string, d: Decision, f: string, original: Value)
    requires ValidDb(db) && id in db.proposals && f in db.proposals[id].changes.keys
    requires var p := db.proposals[id];
      var live := db.companies[p.companyId].columns[f];
      || (live == original && Newest(db.revisions, id, f).None? && NewestReal(db.revisions, id, f).None?)
      || (live == p.changes.values[f] && Remembers(db.revisions, id, f, original, p.changes.values[f]))
    ensures Remembers(Approved(db, id, d).revisions, id, f, original, db.proposals[id].changes.values[f])
  {
    var p := db.proposals[id];
    var rs := UpdateRevisions(p, id, db.companies[p.companyId].columns, d.reviewedById);
    NewestInBatch(db.revisions, rs, |rs|, id, f);
    assert rs[..|rs|] == rs;
    var i :| 0 <= i < |p.changes.keys| && p.changes.keys[i] == f;
    assert rs[i].field == f;
  }

  /** Where `n` approvals in a row leave the tables, told from the state before the first. */
  ghost predicate Standing(db: Db, id: string, n: nat, now: Db)
    requires ValidDb(db) && id in db.proposals && ValidDb(now)
  {
    var p := db.proposals[id];
    var row := db.companies[p.companyId];
    var keys := p.changes.keys;
    && now.companies == db.companies[p.companyId := row.(
         columns := row.columns + p.changes.values, partnerFields := Drop(row.partnerFields, keys))]
    && id in now.proposals && SameProposal(p, now.proposals[id]) && now.proposals[id].status == APPROVED
    && now.proposals[id].clearedPartnerFields == Some(if n == 1 then Keep(row.partnerFields, keys) else [])
    && forall f :: f in keys ==> Remembers(now.revisions, id, f, row.columns[f], p.changes.values[f])
  }

  lemma {:induction false} AfterApprovals(db: Db, id: string, ds: seq<Decision>)
    requires ValidDb(db) && id in db.proposals && NeverApproved(db.revisions, id) && |ds| >= 1
    ensures Standing(db, id, |ds|, Run(db, Approvals(id, ds)))
  {
    var p := db.proposals[id];
    var row := db.companies[p.companyId];
    var n := |ds|;
    assert Approvals(id, ds)[..n - 1] == Approvals(id, ds[..n - 1]);
    var mid := Run(db, Approvals(id, ds[..n - 1]));
    assert Run(db, Approvals(id, ds)) == Approved(mid, id, ds[n - 1]);
    if n == 1 {
      assert mid == db;
      forall f | f in p.changes.keys
        ensures Remembers(Approved(mid, id, ds[0]).revisions, id, f, row.columns[f], p.changes.values[f])
      {
        NothingOfMine(db.revisions, id, f);
        ApprovalRemembers(db, id, ds[0], f, row.columns[f]);
      }
    } else {
      AfterApprovals(db, id, ds[..n - 1]);
      ApprovedAgain(db, id, n - 1, mid, ds[n - 1]);
    }
  }

  lemma ApprovedAgain(db: Db, id: string, n: nat, mid: Db, d: Decision)
    requires ValidDb(db) && id in db.proposals && n >= 1 && ValidDb(mid) && Standing(db, id, n, mid)
    ensures ValidDb(Approved(mid, id, d)) && Standing(db, id, n + 1, Approved(mid, id, d))
  {
    var p := db.proposals[id];
    var row := db.companies[p.companyId];
    var now := Approved(mid, id, d);
    ModeratedValid(mid, Approve(id, d));
    forall f | f in p.changes.keys
      ensures Remembers(now.revisions, id, f, row.columns[f], p.changes.values[f])
    {
      ApprovalRemembers(mid, id, d, f, row.columns[f]);
    }
    DropTwice(row.partnerFields, p.changes.keys);
    var cleared := Keep(Drop(row.partnerFields, p.changes.keys), p.changes.keys);
    EmptyOrHasMember(cleared);
    assert row.columns + p.changes.values + p.changes.values == row.columns + p.changes.values;
    assert now.companies == mid.companies;
  }

  /** `now` shows the proposal's values over the rows of `db`, and its log tells which those were. */
  ghost predicate Edited(db: Db, id: string, now: Db)
    requires ValidDb(db) && id in db.proposals && ValidDb(now)
  {
    var p := db.proposals[id];
    var columns := db.companies[p.companyId].columns;
    && Live(now) == Live(db)[p.companyId := columns + p.changes.values]
    && id in now.proposals && SameProposal(p, now.proposals[id]) && now.proposals[id].status == APPROVED
    && forall f :: f in p.changes.keys ==> Remembers(now.revisions, id, f, columns[f], p.changes.values[f])
  }

  lemma StandingEdited(db: Db, id: string, n: nat, now: Db)
    requires ValidDb(db) && id in db.proposals && ValidDb(now) && Standing(db, id, n, now)
    ensures Edited(db, id, now)
  {
  }

  /** What a retraction judges when it finds the proposal's values. */
  lemma VerdictsEdited(db: Db, id: string, now: Db)
    requires ValidDb(db) && id in db.proposals && ValidDb(now) && Edited(db, id, now)
    ensures var p := db.proposals[id];
      var original := db.companies[p.companyId].columns;
      var s := Reverted(now, id);
      && s.skipped == []
      && s.restored.Valid()
      && (forall f :: f in s.restored.keys <==> f in p.changes.keys && original[f] != p.changes.values[f])
      && (forall f :: f in s.restored.keys ==> s.restored.values[f] == original[f])
  {
    hide Swept;
    var p := db.proposals[id];
    var live := now.companies[p.companyId].columns;
    assert live == Live(now)[p.companyId];
    SweptExactly(now.revisions, id, live, p.changes, |p.changes.keys|);
    assert p.changes.keys[..|p.changes.keys|] == p.changes.keys;
    forall f | f in p.changes.keys
      ensures live[f] == p.changes.values[f]
      ensures Remembers(now.revisions, id, f, db.companies[p.companyId].columns[f], p.changes.values[f])
    {
      assert f in p.changes.values;
    }
    var s := Reverted(now, id);
    EmptyOrHasMember(s.skipped);
  }

  lemma UndoneFromEdited(db: Db, id: string, now: Db, d: Decision)
    requires ValidDb(db) && id in db.proposals && ValidDb(now) && Edited(db, id, now)
    ensures Live(Retracted(now, id, d)) == Live(db)
  {
    hide Reverted, MarksToRestore, Remembers;
    VerdictsEdited(db, id, now);
    var p := db.proposals[id];
    var row := db.companies[p.companyId];
    var restored := Reverted(now, id).restored;
    assert row.columns + p.changes.values + restored.values == row.columns;
    assert now.companies[p.companyId].columns == Live(now)[p.companyId];
    assert Retracted(now, id, d).companies[p.companyId].columns == row.columns;
    RetractedLive(now, id, d);
  }

  lemma RetractedLive(db: Db, id: string, d: Decision)
    requires ValidDb(db) && id in db.proposals
    ensures var c := db.proposals[id].companyId;
      c in Retracted(db, id, d).companies
      && Live(Retracted(db, id, d)) == Live(db)[c := Retracted(db, id, d).companies[c].columns]
  {
    hide Reverted, MarksToRestore;
  }

  lemma RunRejected(db: Db, es: seq<Event>, id: string, d: Decision)
    requires ValidDb(db) && id in Run(db, es).proposals && Run(db, es).proposals[id].status == APPROVED
    ensures Run(db, es + [Reject(id, d)]) == Retracted(Run(db, es), id, d)
  {
    hide Approved, Retracted;
    assert (es + [Reject(id, d)])[..|es|] == es;
  }

  /** Approve any number of times with no other write, then reject: every column of every
      company is back at its value before the first approval, and nothing is reported skipped. */
  lemma {:induction false} ApprovalsUndone(db: Db, id: string, ds: seq<Decision>, d: Decision)
    requires ValidDb(db) && id in db.proposals && NeverApproved(db.revisions, id) && |ds| >= 1
    ensures Live(Run(db, Approvals(id, ds) + [Reject(id, d)])) == Live(db)
    ensures Reverted(Run(db, Approvals(id, ds)), id).skipped == []
  {
    var now := Run(db, Approvals(id, ds));
    AfterApprovals(db, id, ds);
    RunRejected(db, Approvals(id, ds), id, d);
    StandingEdited(db, id, |ds|, now);
    VerdictsEdited(db, id, now);
    UndoneFromEdited(db, id, now, d);
  }

  lemma MarksFromStanding(db: Db, id: string, n: nat, now: Db, d: Decision, f: string)
    requires ValidDb(db) && id in db.proposals && ValidDb(now) && Standing(db, id, n, now)
    ensures var p := db.proposals[id];
      var row := db.companies[p.companyId];
      f in Retracted(now, id, d).companies[p.companyId].partnerFields <==>
        f in row.partnerFields && (f in p.changes.keys ==> n == 1 && row.columns[f] != p.changes.values[f])
  {
    StandingEdited(db, id, n, now);
    VerdictsEdited(db, id, now);
    var p := db.proposals[id];
    var row := now.companies[p.companyId];
    var restored := Reverted(now, id).restored;
    var marks := MarksToRestore(TouchedByPartner(row), now.proposals[id].clearedPartnerFields, restored);
    assert Retracted(now, id, d).companies[p.companyId].partnerFields
        == row.partnerFields + Drop(marks, row.partnerFields);
  }

  /**
   * The partner marks come back if and only if the approval cleared none, or it happened once
   * and really changed every column whose mark it cleared: a second approval overwrites the
   * record of the cleared marks with an empty one.
   */
  lemma {:induction false} MarksReturnExactlyWhen(db: Db, id: string, ds: seq<Decision>, d: Decision)
    requires ValidDb(db) && id in db.proposals && NeverApproved(db.revisions, id) && |ds| >= 1
    ensures var p := db.proposals[id];
      var row := db.companies[p.companyId];
      var after := Run(db, Approvals(id, ds) + [Reject(id, d)]).companies[p.companyId];
      Elements(after.partnerFields) == Elements(row.partnerFields) <==>
        forall f :: f in row.partnerFields && f in p.changes.keys ==>
          |ds| == 1 && row.columns[f] != p.changes.values[f]
  {
    var now := Run(db, Approvals(id, ds));
    AfterApprovals(db, id, ds);
    RunRejected(db, Approvals(id, ds), id, d);
    var c := db.proposals[id].companyId;
    var after := Retracted(now, id, d).companies[c].partnerFields;
    forall f { MarksFromStanding(db, id, |ds|, now, d, f); }
    SameElements(after, db.companies[c].partnerFields);
  }

  /** No record of cleared marks, as on proposals older than that record: a restored field is then marked
      just when the partner touched the row and the field holds a value again, or it was marked anyhow. */
  lemma UnrecordedMarksFailClosed(db: Db, id: string, d: Decision, f: string)
    requires ValidDb(db) && id in db.proposals && db.proposals[id].clearedPartnerFields.None?
    requires f in Reverted(db, id).restored.keys
    ensures var c := db.proposals[id].companyId;
      var row := db.companies[c];
      var after := Retracted(db, id, d).companies[c];
      f in after.columns && (f in after.partnerFields <==>
        f in row.partnerFields || ((row.partnerOnly || row.partnerIdentifiers > 0) && after.columns[f] != Null))
  {
    var p := db.proposals[id];
    var row := db.companies[p.companyId];
    var restored := Reverted(db, id).restored;
    SweptExactly(db.revisions, id, row.columns, p.changes, |p.changes.keys|);
    assert restored.keys[..|restored.keys|] == restored.keys;
    assert f in restored.values;
  }
}
