/** An approval and its retraction, seen through the read gate. */
module MaskingUndone {
  import opened Basics
  import opened FieldGate
  import opened Proposals
  import opened ProposalRuns
  import opened ProposalUndo

  /** A company row as the read gate gets it. */
  function Shown(c: Company): Record {
    Record(c.columns, None, None)
  }

  /**
   * After an approval and its retraction, with no other write between, every viewer sees the
   * company as before: the same values, the same ones withheld, the same ways to unlock them. It
   * takes an approval that really changed each partner-marked column it touched.
   */
  lemma RetractionRestoresMasking(
    db: Db, id: string, approved: Decision, rejected: Decision, p: Policy, blanks: map<string, Value>
  )
    requires ValidDb(db) && id in db.proposals && NeverApproved(db.revisions, id)
    requires var row := db.companies[db.proposals[id].companyId];
      forall f :: f in row.partnerFields && f in db.proposals[id].changes.keys ==>
        row.columns[f] != db.proposals[id].changes.values[f]
    ensures var c := db.proposals[id].companyId;
      var before := db.companies[c];
      var after := Run(db, Approvals(id, [approved]) + [Reject(id, rejected)]).companies[c];
      SameView(
        Gated(p, Shown(after), after.partnerFields, blanks),
        Gated(p, Shown(before), before.partnerFields, blanks))
  {
    var c := db.proposals[id].companyId;
    var end := Run(db, Approvals(id, [approved]) + [Reject(id, rejected)]);
    ApprovalsUndone(db, id, [approved], rejected);
    MarksReturnExactlyWhen(db, id, [approved], rejected);
    assert Live(end)[c] == Live(db)[c];
    MarksAsASet(p, Shown(db.companies[c]), end.companies[c].partnerFields, db.companies[c].partnerFields, blanks);
  }
}
