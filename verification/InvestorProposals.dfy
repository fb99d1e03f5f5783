/**
 * Investor edit proposals: the twin of `Proposals` without a revision log. The values an
 * approval replaced are kept on the proposal itself, so approving twice forgets them.
 */
module InvestorProposals {
  import opened Basics
  import opened Proposals

  datatype Investor = Investor(
    columns: map<string, Value>,
    partnerFields: seq<string>,
    partnerOnly: bool,
    partnerIdentifiers: nat
  )

  datatype FirmProposal = FirmProposal(
    investorId: string,
    changes: Diff,
    status: ReviewStatus,
    review: Option<Decision>,
    previous: Option<map<string, Value>>,
    clearedPartnerFields: Option<seq<string>>
  )

  datatype Firms = Firms(investors: map<string, Investor>, proposals: map<string, FirmProposal>)

  ghost predicate ValidFirmProposal(p: FirmProposal, investors: map<string, Investor>) {
    && p.investorId in investors
    && p.changes.Valid()
    && (forall f :: f in p.changes.keys ==> f in investors[p.investorId].columns)
  }

  ghost predicate ValidFirms(db: Firms) {
    forall id :: id in db.proposals ==> ValidFirmProposal(db.proposals[id], db.investors)
  }

  /** `pickInvestorFields`: the firm's values for the keys the diff touches. */
  function Picked(columns: map<string, Value>, changes: Diff): map<string, Value> {
    map f | f in changes.keys && f in columns :: columns[f]
  }

  function FirmApproved(db: Firms, id: string, d: Decision): Firms
    requires id in db.proposals && ValidFirmProposal(db.proposals[id], db.investors)
  {
    var p := db.proposals[id];
    var row := db.investors[p.investorId];
    Firms(
      db.investors[p.investorId := row.(
        columns := row.columns + p.changes.values,
        partnerFields := Drop(row.partnerFields, p.changes.keys))],
      db.proposals[id := p.(
        status := APPROVED,
        review := Some(d),
        previous := Some(Picked(row.columns, p.changes)),
        clearedPartnerFields := Some(Keep(row.partnerFields, p.changes.keys)))])
  }

  /** `previous` keeps, for each field of the diff, the value it is about to replace. */
  ghost predicate Remembered(diff: Diff, before: map<string, Value>, previous: Option<map<string, Value>>) {
    && previous.Some? && (forall f :: f in previous.value <==> f in diff.keys)
    && forall f :: f in diff.keys ==> f in before && previous.value[f] == before[f]
  }

  /** What approving a firm edit does, table by table. */
  ghost predicate FirmApplies(db: Firms, id: string, d: Decision, db': Firms)
    requires id in db.proposals && ValidFirmProposal(db.proposals[id], db.investors)
  {
    var p := db.proposals[id];
    var firm := p.investorId;
    && firm in db'.investors && id in db'.proposals
    && (forall o :: o != firm ==> (o in db'.investors <==> o in db.investors))
    && (forall o :: o in db.investors && o != firm ==> db'.investors[o] == db.investors[o])
    && (forall o :: o != id ==> (o in db'.proposals <==> o in db.proposals))
    && (forall o :: o in db.proposals && o != id ==> db'.proposals[o] == db.proposals[o])
    && Overwrites(p.changes, db.investors[firm].columns, db'.investors[firm].columns)
    && Unmarks(p.changes.keys, db.investors[firm].partnerFields, db'.investors[firm].partnerFields,
         db'.proposals[id].clearedPartnerFields)
    && db'.investors[firm].partnerOnly == db.investors[firm].partnerOnly
    && db'.investors[firm].partnerIdentifiers == db.investors[firm].partnerIdentifiers
    && Remembered(p.changes, db.investors[firm].columns, db'.proposals[id].previous)
    && db'.proposals[id].status == APPROVED && db'.proposals[id].review == Some(d)
    && db'.proposals[id].changes == p.changes && db'.proposals[id].investorId == firm
  }

  lemma FirmApprovalApplies(db: Firms, id: string, d: Decision)
    requires id in db.proposals && ValidFirmProposal(db.proposals[id], db.investors)
    ensures FirmApplies(db, id, d, FirmApproved(db, id, d))
  {
  }

  function Kept(p: FirmProposal): map<string, Value> {
    if p.previous.Some? then p.previous.value else map[]
  }

  function FirmJudge(previous: map<string, Value>, f: string, live: Value, proposed: Value): Verdict {
    if f !in previous || live != proposed then Skip
    else if previous[f] != proposed then Restore(previous[f])
    else Stay
  }

  function FirmSwept(previous: map<string, Value>, live: map<string, Value>, changes: Diff, n: nat): (s: Sweep)
    requires changes.Valid() && n <= |changes.keys|
    requires forall f :: f in changes.keys ==> f in live
  {
    if n == 0 then Sweep(EMPTY_DIFF, [])
    else
      var s := FirmSwept(previous, live, changes, n - 1);
      var f := changes.keys[n - 1];
      match FirmJudge(previous, f, live[f], changes.values[f])
      case Skip => s.(skipped := s.skipped + [f])
      case Stay => s
      case Restore(v) => s.(restored := Diff(s.restored.keys + [f], s.restored.values[f := v]))
  }

  lemma {:induction false} FirmSweptExactly(
    previous: map<string, Value>, live: map<string, Value>, changes: Diff, n: nat
  )
    requires changes.Valid() && n <= |changes.keys|
    requires forall f :: f in changes.keys ==> f in live
    ensures var s := FirmSwept(previous, live, changes, n);
      && s.restored.Valid()
      && Distinct(s.skipped)
      && (forall f :: f in s.skipped <==>
           f in changes.keys[..n] && FirmJudge(previous, f, live[f], changes.values[f]).Skip?)
      && (forall f :: f in s.restored.keys <==>
           f in changes.keys[..n] && FirmJudge(previous, f, live[f], changes.values[f]).Restore?)
      && (forall f :: f in s.restored.keys ==>
           s.restored.values[f] == FirmJudge(previous, f, live[f], changes.values[f]).before)
  {
    hide FirmJudge;
    if n > 0 {
      FirmSweptExactly(previous, live, changes, n - 1);
      KeysPush(changes.keys, n);
      var f := changes.keys[n - 1];
      assert f in changes.keys;
      match FirmJudge(previous, f, live[f], changes.values[f])
      case Skip =>
      case Stay =>
      case Restore(v) =>
    }
  }

  function FirmReverted(db: Firms, id: string): Sweep
    requires id in db.proposals && ValidFirmProposal(db.proposals[id], db.investors)
  {
    var p := db.proposals[id];
    FirmSwept(Kept(p), db.investors[p.investorId].columns, p.changes, |p.changes.keys|)
  }

  predicate FirmTouchedByPartner(row: Investor) {
    row.partnerOnly || row.partnerIdentifiers > 0
  }

  function FirmRetracted(db: Firms, id: string, d: Decision): Firms
    requires id in db.proposals && ValidFirmProposal(db.proposals[id], db.investors)
  {
    var p := db.proposals[id];
    var row := db.investors[p.investorId];
    var restored := FirmReverted(db, id).restored;
    FirmSweptExactly(Kept(p), row.columns, p.changes, |p.changes.keys|);
    var marks := MarksToRestore(FirmTouchedByPartner(row), p.clearedPartnerFields, restored);
    Firms(
      db.investors[p.investorId := row.(
        columns := row.columns + restored.values,
        partnerFields := row.partnerFields + Drop(marks, row.partnerFields))],
      db.proposals[id := p.(status := REJECTED, review := Some(d))])
  }

  /** The firm still shows the proposal's value, and the proposal holds another one that it replaced. */
  predicate FirmTakenBack(db: Firms, id: string, f: string)
    requires id in db.proposals && db.proposals[id].investorId in db.investors
  {
    var p := db.proposals[id];
    var row := db.investors[p.investorId];
    && f in p.changes.keys && f in p.changes.values && f in row.columns && row.columns[f] == p.changes.values[f]
    && p.previous.Some? && f in p.previous.value && p.previous.value[f] != p.changes.values[f]
  }

  /** The firm has moved on, or the proposal holds nothing the field could return to. */
  predicate FirmLeftAlone(db: Firms, id: string, f: string)
    requires id in db.proposals && db.proposals[id].investorId in db.investors
  {
    var p := db.proposals[id];
    var row := db.investors[p.investorId];
    && f in p.changes.keys && f in p.changes.values && f in row.columns
    && (row.columns[f] != p.changes.values[f] || p.previous.None? || f !in p.previous.value)
  }

  /** What rejecting an approved firm edit does, table by table. */
  ghost predicate FirmTakesBack(db: Firms, id: string, d: Decision, db': Firms)
    requires id in db.proposals && ValidFirmProposal(db.proposals[id], db.investors)
  {
    var p := db.proposals[id];
    var firm := p.investorId;
    var row := db.investors[firm];
    && firm in db'.investors && id in db'.proposals
    && (forall o :: o in db'.investors <==> o in db.investors)
    && (forall o :: o in db.investors && o != firm ==> db'.investors[o] == db.investors[o])
    && (forall o :: o in db'.proposals <==> o in db.proposals)
    && (forall o :: o in db.proposals && o != id ==> db'.proposals[o] == db.proposals[o])
    && db'.proposals[id] == p.(status := REJECTED, review := Some(d))
    && var row' := db'.investors[firm];
       && row'.columns.Keys == row.columns.Keys
       && (forall f :: f in row.columns ==>
            row'.columns[f] == if FirmTakenBack(db, id, f) then p.previous.value[f] else row.columns[f])
       && (forall f :: f in row'.partnerFields <==>
            || f in row.partnerFields
            || (FirmTakenBack(db, id, f) &&
                 if p.clearedPartnerFields.Some? then f in p.clearedPartnerFields.value
                 else (row.partnerOnly || row.partnerIdentifiers > 0) && p.previous.value[f] != Null))
       && row'.partnerOnly == row.partnerOnly && row'.partnerIdentifiers == row.partnerIdentifiers
  }

  lemma FirmRevertedMeans(db: Firms, id: string)
    requires id in db.proposals && ValidFirmProposal(db.proposals[id], db.investors)
    ensures var s := FirmReverted(db, id);
      && s.restored.Valid()
      && (forall f :: f in s.skipped <==> FirmLeftAlone(db, id, f))
      && (forall f :: f in s.restored.keys <==> FirmTakenBack(db, id, f))
      && (forall f :: f in s.restored.keys ==> s.restored.values[f] == db.proposals[id].previous.value[f])
  {
    hide FirmSwept;
    var p := db.proposals[id];
    FirmSweptExactly(Kept(p), db.investors[p.investorId].columns, p.changes, |p.changes.keys|);
    assert p.changes.keys[..|p.changes.keys|] == p.changes.keys;
  }

  lemma FirmRetractionMeans(db: Firms, id: string, d: Decision)
    requires id in db.proposals && ValidFirmProposal(db.proposals[id], db.investors)
    ensures FirmTakesBack(db, id, d, FirmRetracted(db, id, d))
  {
    hide FirmReverted;
    FirmRevertedMeans(db, id);
    var restored := FirmReverted(db, id).restored;
    assert restored.keys[..|restored.keys|] == restored.keys;
  }

  /** What any decision on a firm edit does: approved, taken back, or rejected before it was ever applied. */
  ghost predicate FirmDecides(db: Firms, e: Event, db': Firms)
    requires e.id in db.proposals && ValidFirmProposal(db.proposals[e.id], db.investors)
  {
    && (e.Approve? ==> FirmApplies(db, e.id, e.decision, db'))
    && (e.Reject? && db.proposals[e.id].status == APPROVED ==> FirmTakesBack(db, e.id, e.decision, db'))
    && (e.Reject? && db.proposals[e.id].status != APPROVED ==>
         && db'.investors == db.investors
         && db'.proposals == db.proposals[e.id := db.proposals[e.id].(status := REJECTED, review := Some(e.decision))])
  }

  lemma NoMarks(touched: bool, cleared: Option<seq<string>>, restored: Diff)
    requires restored.Valid() && restored.keys == []
    ensures restored.values == map[] && MarksToRestore(touched, cleared, restored) == []
    ensures forall fields: seq<string> :: Drop([], fields) == []
  {
    assert forall f :: f !in restored.values;
  }

  class InvestorModeration {
    var investors: map<string, Investor>
    var proposals: map<string, FirmProposal>

    ghost function Snapshot(): Firms
      reads this
    {
      Firms(investors, proposals)
    }

    constructor (db: Firms)
      ensures Snapshot() == db
    {
      investors, proposals := db.investors, db.proposals;
    }

    /** Fails exactly on an unknown proposal; what was taken back, and what was left, only of an approved one. */
    method Moderate(e: Event) returns (known: bool, revertedFields: seq<string>, skippedFields: seq<string>)
      requires ValidFirms(Snapshot())
      modifies this
      ensures known <==> e.id in old(proposals)
      ensures !known ==> Snapshot() == old(Snapshot())
      ensures known ==> FirmDecides(old(Snapshot()), e, Snapshot())
      ensures known && e.Reject? && old(proposals)[e.id].status == APPROVED ==>
        && (forall f :: f in revertedFields <==> FirmTakenBack(old(Snapshot()), e.id, f))
        && (forall f :: f in skippedFields <==> FirmLeftAlone(old(Snapshot()), e.id, f))
      ensures known && (e.Approve? || old(proposals)[e.id].status != APPROVED) ==>
        revertedFields == [] && skippedFields == []
    {
      hide FirmApplies, FirmTakesBack, FirmTakenBack, FirmLeftAlone, FirmApproved, FirmRetracted, FirmReverted;
      known, revertedFields, skippedFields := e.id in proposals, [], [];
      if !known {
        return;
      }
      if e.Approve? {
        ApplyInvestorProposal(e.id, e.decision);
      } else if proposals[e.id].status == APPROVED {
        revertedFields, skippedFields := RevertInvestorProposal(e.id, e.decision);
      } else {
        proposals := proposals[e.id := proposals[e.id].(status := REJECTED, review := Some(e.decision))];
      }
    }

    method ApplyInvestorProposal(id: string, decision: Decision)
      requires id in proposals && ValidFirms(Snapshot())
      modifies this
      ensures Snapshot() == FirmApproved(old(Snapshot()), id, decision)
      ensures FirmApplies(old(Snapshot()), id, decision, Snapshot())
    {
      hide FirmApplies;
      FirmApprovalApplies(Snapshot(), id, decision);
      var proposal := proposals[id];
      var investor := investors[proposal.investorId];
      var fields := proposal.changes.keys;
      // Read now, since nothing else keeps the old values.
      var previous := Picked(investor.columns, proposal.changes);
      investors := investors[proposal.investorId := investor.(
        columns := investor.columns + proposal.changes.values,
        partnerFields := Drop(investor.partnerFields, fields))];
      proposals := proposals[id := proposal.(
        status := APPROVED,
        review := Some(decision),
        previous := Some(previous),
        clearedPartnerFields := Some(Keep(investor.partnerFields, fields)))];
    }

    /** Compare each proposed field with the firm and the kept values: what to put back, what to skip. */
    method CompareWithPrevious(id: string) returns (restored: Diff, skippedFields: seq<string>)
      requires id in proposals && ValidFirms(Snapshot())
      ensures Sweep(restored, skippedFields) == FirmReverted(Snapshot(), id)
    {
      var changes := proposals[id].changes;
      var current := investors[proposals[id].investorId].columns;
      var previous := Kept(proposals[id]);
      restored, skippedFields := EMPTY_DIFF, [];
      for i := 0 to |changes.keys|
        invariant Sweep(restored, skippedFields) == FirmSwept(previous, current, changes, i)
      {
        var field := changes.keys[i];
        var value := changes.values[field];
        if field !in previous || current[field] != value {
          skippedFields := skippedFields + [field];
        } else if previous[field] != value {
          restored := Diff(restored.keys + [field], restored.values[field := previous[field]]);
        }
      }
    }

    method RevertInvestorProposal(id: string, decision: Decision)
      returns (revertedFields: seq<string>, skippedFields: seq<string>)
      requires id in proposals && ValidFirms(Snapshot())
      modifies this
      ensures Snapshot() == FirmRetracted(old(Snapshot()), id, decision)
      ensures var s := FirmReverted(old(Snapshot()), id);
        revertedFields == s.restored.keys && skippedFields == s.skipped
      ensures FirmTakesBack(old(Snapshot()), id, decision, Snapshot())
      ensures forall f :: f in revertedFields <==> FirmTakenBack(old(Snapshot()), id, f)
      ensures forall f :: f in skippedFields <==> FirmLeftAlone(old(Snapshot()), id, f)
    {
      hide MarksToRestore, Drop, FirmTouchedByPartner, FirmSwept, FirmTakesBack, FirmTakenBack, FirmLeftAlone;
      FirmRetractionMeans(Snapshot(), id, decision);
      FirmRevertedMeans(Snapshot(), id);
      var proposal := proposals[id];
      var investor := investors[proposal.investorId];
      var restored;
      restored, skippedFields := CompareWithPrevious(id);
      FirmSweptExactly(Kept(proposal), investor.columns, proposal.changes, |proposal.changes.keys|);
      revertedFields := restored.keys;
      var marks := MarksToRestore(FirmTouchedByPartner(investor), proposal.clearedPartnerFields, restored);
      if |revertedFields| > 0 {
        investors := investors[proposal.investorId := investor.(
          columns := investor.columns + restored.values,
          partnerFields := investor.partnerFields + Drop(marks, investor.partnerFields))];
      } else {
        NoMarks(FirmTouchedByPartner(investor), proposal.clearedPartnerFields, restored);
        assert investor.columns + restored.values == investor.columns;
        assert investor.partnerFields + Drop(marks, investor.partnerFields) == investor.partnerFields;
      }
      proposals := proposals[id := proposal.(status := REJECTED, review := Some(decision))];
    }
  }

  // ----- approving any number of times, then rejecting --------------------------------

  function ApprovedTimes(db: Firms, id: string, ds: seq<Decision>): (r: Firms)
    requires id in db.proposals && ValidFirms(db)
    ensures id in r.proposals && ValidFirms(r)
  {
    if ds == [] then db
    else
      var before := ApprovedTimes(db, id, ds[..|ds| - 1]);
      var r := FirmApproved(before, id, ds[|ds| - 1]);
      assert forall o :: o in r.proposals ==> ValidFirmProposal(before.proposals[o], before.investors);
      r
  }

  /** Where `n` approvals in a row leave the firm, told from the state before the first. */
  ghost predicate FirmStanding(db: Firms, id: string, n: nat, now: Firms)
    requires id in db.proposals && ValidFirms(db)
  {
    var p := db.proposals[id];
    var row := db.investors[p.investorId];
    && now.investors == db.investors[p.investorId := row.(
         columns := row.columns + p.changes.values,
         partnerFields := Drop(row.partnerFields, p.changes.keys))]
    && id in now.proposals
    && now.proposals[id].investorId == p.investorId && now.proposals[id].changes == p.changes
    && now.proposals[id].previous == Some(if n == 1 then Picked(row.columns, p.changes) else p.changes.values)
    && now.proposals[id].clearedPartnerFields == Some(if n == 1 then Keep(row.partnerFields, p.changes.keys) else [])
  }

  lemma {:induction false} AfterFirmApprovals(db: Firms, id: string, ds: seq<Decision>)
    requires id in db.proposals && ValidFirms(db) && |ds| >= 1
    ensures FirmStanding(db, id, |ds|, ApprovedTimes(db, id, ds))
  {
    var n := |ds|;
    var mid := ApprovedTimes(db, id, ds[..n - 1]);
    if n > 1 {
      AfterFirmApprovals(db, id, ds[..n - 1]);
      FirmApprovedAgain(db, id, n - 1, mid, ds[n - 1]);
    }
  }

  lemma FirmApprovedAgain(db: Firms, id: string, n: nat, mid: Firms, d: Decision)
    requires id in db.proposals && ValidFirms(db) && n >= 1 && FirmStanding(db, id, n, mid) && ValidFirms(mid)
    ensures FirmStanding(db, id, n + 1, FirmApproved(mid, id, d))
  {
    var p := db.proposals[id];
    var row := db.investors[p.investorId];
    var live := row.columns + p.changes.values;
    assert live + p.changes.values == live;
    assert Picked(live, p.changes) == p.changes.values;
    DropTwice(row.partnerFields, p.changes.keys);
    EmptyOrHasMember(Keep(Drop(row.partnerFields, p.changes.keys), p.changes.keys));
  }

  /** What a retraction judges from where the approvals left the firm. */
  lemma FirmVerdicts(db: Firms, id: string, n: nat, now: Firms)
    requires id in db.proposals && ValidFirms(db) && ValidFirms(now) && FirmStanding(db, id, n, now)
    ensures var p := db.proposals[id];
      var original := db.investors[p.investorId].columns;
      var restored := FirmReverted(now, id).restored;
      && restored.Valid() && FirmReverted(now, id).skipped == []
      && (forall f :: f in restored.keys <==> n == 1 && f in p.changes.keys && original[f] != p.changes.values[f])
      && (forall f :: f in restored.keys ==> restored.values[f] == original[f])
  {
    hide FirmSwept;
    var p := now.proposals[id];
    var live := now.investors[p.investorId].columns;
    assert forall f :: f in p.changes.keys ==> f in p.changes.values && live[f] == p.changes.values[f];
    FirmSweptExactly(Kept(p), live, p.changes, |p.changes.keys|);
    assert p.changes.keys[..|p.changes.keys|] == p.changes.keys;
    EmptyOrHasMember(FirmReverted(now, id).skipped);
  }

  lemma FirmColumnsBack(db: Firms, id: string, n: nat, now: Firms, d: Decision)
    requires id in db.proposals && ValidFirms(db) && ValidFirms(now) && FirmStanding(db, id, n, now)
    ensures var p := db.proposals[id];
      var original := db.investors[p.investorId].columns;
      p.investorId in FirmRetracted(now, id, d).investors &&
      FirmRetracted(now, id, d).investors[p.investorId].columns ==
        if n == 1 then original else original + p.changes.values
  {
    FirmVerdicts(db, id, n, now);
    var p := db.proposals[id];
    var original := db.investors[p.investorId].columns;
    var restored := FirmReverted(now, id).restored;
    assert original + p.changes.values + restored.values == if n == 1 then original else original + p.changes.values;
  }

  lemma FirmMarksBack(db: Firms, id: string, n: nat, now: Firms, d: Decision, f: string)
    requires id in db.proposals && ValidFirms(db) && ValidFirms(now) && FirmStanding(db, id, n, now)
    ensures var p := db.proposals[id];
      var row := db.investors[p.investorId];
      f in FirmRetracted(now, id, d).investors[p.investorId].partnerFields <==>
        f in row.partnerFields && (f in p.changes.keys ==> n == 1 && row.columns[f] != p.changes.values[f])
  {
    FirmVerdicts(db, id, n, now);
    var p := db.proposals[id];
    var row := now.investors[p.investorId];
    var restored := FirmReverted(now, id).restored;
    var marks := MarksToRestore(FirmTouchedByPartner(row), now.proposals[id].clearedPartnerFields, restored);
    assert FirmRetracted(now, id, d).investors[p.investorId].partnerFields
        == row.partnerFields + Drop(marks, row.partnerFields);
  }

  /**
   * Approving a firm edit any number of times and rejecting it brings the columns back if and
   * only if it was approved once or changed nothing: a second approval overwrites the values
   * it would go back to.
   */
  lemma FirmColumnsReturnExactlyWhen(db: Firms, id: string, ds: seq<Decision>, d: Decision)
    requires id in db.proposals && ValidFirms(db) && |ds| >= 1
    ensures var p := db.proposals[id];
      var row := db.investors[p.investorId];
      var after := FirmRetracted(ApprovedTimes(db, id, ds), id, d);
      && p.investorId in after.investors
      && (after.investors[p.investorId].columns == row.columns <==>
           |ds| == 1 || forall f :: f in p.changes.keys ==> row.columns[f] == p.changes.values[f])
  {
    hide FirmRetracted, ApprovedTimes, FirmStanding;
    AfterFirmApprovals(db, id, ds);
    FirmColumnsBack(db, id, |ds|, ApprovedTimes(db, id, ds), d);
    var p := db.proposals[id];
    var original := db.investors[p.investorId].columns;
    if forall f :: f in p.changes.keys ==> original[f] == p.changes.values[f] {
      assert original + p.changes.values == original;
    } else {
      var f :| f in p.changes.keys && original[f] != p.changes.values[f];
      assert (original + p.changes.values)[f] == p.changes.values[f];
    }
  }

  /** The partner marks of a firm come back under the same condition as a company's. */
  lemma FirmMarksReturnExactlyWhen(db: Firms, id: string, ds: seq<Decision>, d: Decision)
    requires id in db.proposals && ValidFirms(db) && |ds| >= 1
    ensures var p := db.proposals[id];
      var row := db.investors[p.investorId];
      var after := FirmRetracted(ApprovedTimes(db, id, ds), id, d);
      && p.investorId in after.investors
      && (Elements(after.investors[p.investorId].partnerFields) == Elements(row.partnerFields) <==>
           forall f :: f in row.partnerFields && f in p.changes.keys ==>
             |ds| == 1 && row.columns[f] != p.changes.values[f])
  {
    var now := ApprovedTimes(db, id, ds);
    AfterFirmApprovals(db, id, ds);
    var firm := db.proposals[id].investorId;
    forall f { FirmMarksBack(db, id, |ds|, now, d, f); }
    SameElements(FirmRetracted(now, id, d).investors[firm].partnerFields, db.investors[firm].partnerFields);
  }
}
