/** When a company still shows only what was there first or what is approved now. */
module ProposalBacking {
  import opened Basics
  import opened Proposals
  import opened ProposalRuns

  /** A value that was there first, or that an approved proposal other than `except` proposes. */
  predicate Stands(first: Rows, db: Db, except: Option<string>, c: string, f: string, value: Value) {
    || (c in first && f in first[c] && value == first[c][f])
    || exists o :: o in db.proposals && Some(o) != except && Proposes(db.proposals[o], c, f, value)
  }

  predicate Proposes(p: Proposal, c: string, f: string, value: Value) {
    p.status == APPROVED && p.companyId == c && f in p.changes.values && value == p.changes.values[f]
  }

  predicate Backed(first: Rows, db: Db, c: string, f: string)
    requires c in db.companies && f in db.companies[c].columns
  {
    Stands(first, db, None, c, f, db.companies[c].columns[f])
  }

  /** Every value shown is a first one, or one that is approved now. */
  ghost predicate AllBacked(first: Rows, db: Db) {
    forall c, f :: c in db.companies && f in db.companies[c].columns ==> Backed(first, db, c, f)
  }

  /** The value a retraction that finds its own leaves in the field. */
  function GoneBackTo(db: Db, id: string, f: string): Value
    requires ValidDb(db) && id in db.proposals && f in db.proposals[id].changes.keys
  {
    var p := db.proposals[id];
    var live := db.companies[p.companyId].columns[f];
    var verdict := Judge(db.revisions, id, f, live, p.changes.values[f]);
    if verdict.Restore? then verdict.before else live
  }

  /**
   * The decision goes back to values that stand: if it retracts, then each field still showing the
   * proposal's value returns to a first value, or to one another approved proposal proposes.
   */
  ghost predicate GoesBackWell(first: Rows, db: Db, e: Event)
    requires ValidDb(db)
  {
    e.Reject? && e.id in db.proposals && db.proposals[e.id].status == APPROVED ==>
      var p := db.proposals[e.id];
      var live := db.companies[p.companyId].columns;
      forall f :: f in p.changes.keys && live[f] == p.changes.values[f] ==>
        Stands(first, db, Some(e.id), p.companyId, f, GoneBackTo(db, e.id, f))
  }

  /** What a retraction leaves in a field of its own company. */
  lemma RetractedShows(db: Db, id: string, d: Decision, f: string)
    requires ValidDb(db) && id in db.proposals && f in db.companies[db.proposals[id].companyId].columns
    ensures var p := db.proposals[id];
      var live := db.companies[p.companyId].columns[f];
      var after := Retracted(db, id, d);
      && p.companyId in after.companies && f in after.companies[p.companyId].columns
      && after.companies[p.companyId].columns[f] ==
           if f in p.changes.keys && Judge(db.revisions, id, f, live, p.changes.values[f]).Restore?
           then Judge(db.revisions, id, f, live, p.changes.values[f]).before else live
  {
    hide Judge;
    var p := db.proposals[id];
    SweptExactly(db.revisions, id, db.companies[p.companyId].columns, p.changes, |p.changes.keys|);
    assert p.changes.keys[..|p.changes.keys|] == p.changes.keys;
  }

  lemma StandsAfterRetraction(first: Rows, db: Db, id: string, d: Decision, c: string, f: string, value: Value)
    requires ValidDb(db) && id in db.proposals
    ensures Stands(first, Retracted(db, id, d), None, c, f, value) <==> Stands(first, db, Some(id), c, f, value)
  {
    hide Reverted, MarksToRestore;
    var after := Retracted(db, id, d);
    forall o | o in db.proposals && o != id
      ensures o in after.proposals && after.proposals[o] == db.proposals[o]
    {
    }
    assert after.proposals[id].status == REJECTED;
  }

  lemma StandsWithout(first: Rows, db: Db, id: string, c: string, f: string, value: Value)
    requires id in db.proposals && !Proposes(db.proposals[id], c, f, value)
    ensures Stands(first, db, None, c, f, value) <==> Stands(first, db, Some(id), c, f, value)
  {
  }

  /** Fields a retraction does not find its value in are backed after it as before. */
  lemma UntouchedBacked(first: Rows, db: Db, id: string, d: Decision, c: string, f: string)
    requires ValidDb(db) && id in db.proposals && c in db.companies && f in db.companies[c].columns
    requires Backed(first, db, c, f)
    requires var p := db.proposals[id];
      !(c == p.companyId && f in p.changes.keys && db.companies[c].columns[f] == p.changes.values[f])
    ensures var after := Retracted(db, id, d);
      c in after.companies && f in after.companies[c].columns && Backed(first, after, c, f)
  {
    hide Stands, Retracted, Judge;
    var p := db.proposals[id];
    RetractedCompanies(db, id, d);
    if c == p.companyId {
      RetractedShows(db, id, d, f);
      JudgedUntouched(db, id, f);
    }
    StandsWithout(first, db, id, c, f, db.companies[c].columns[f]);
    StandsAfterRetraction(first, db, id, d, c, f, db.companies[c].columns[f]);
  }

  lemma JudgedUntouched(db: Db, id: string, f: string)
    requires ValidDb(db) && id in db.proposals && f in db.companies[db.proposals[id].companyId].columns
    ensures var p := db.proposals[id];
      var live := db.companies[p.companyId].columns[f];
      f in p.changes.keys && live != p.changes.values[f] ==>
        Judge(db.revisions, id, f, live, p.changes.values[f]).Skip?
  {
  }

  lemma RetractedCompanies(db: Db, id: string, d: Decision)
    requires ValidDb(db) && id in db.proposals
    ensures var c, after := db.proposals[id].companyId, Retracted(db, id, d);
      && after.companies.Keys == db.companies.Keys
      && (forall o :: o in db.companies && o != c ==> after.companies[o] == db.companies[o])
      && c in db.companies && after.companies[c].columns.Keys == db.companies[c].columns.Keys
  {
    hide Judge;
    var p := db.proposals[id];
    SweptExactly(db.revisions, id, db.companies[p.companyId].columns, p.changes, |p.changes.keys|);
    assert p.changes.keys[..|p.changes.keys|] == p.changes.keys;
  }

  lemma RetractionBacked(first: Rows, db: Db, id: string, d: Decision)
    requires ValidDb(db) && id in db.proposals && db.proposals[id].status == APPROVED && AllBacked(first, db)
    ensures AllBacked(first, Retracted(db, id, d)) <==> GoesBackWell(first, db, Reject(id, d))
  {
    hide Stands, Retracted, Judge;
    var p, after := db.proposals[id], Retracted(db, id, d);
    var c := p.companyId;
    RetractedCompanies(db, id, d);
    forall f | f in p.changes.keys && db.companies[c].columns[f] == p.changes.values[f]
      ensures f in after.companies[c].columns
      ensures Backed(first, after, c, f) <==> Stands(first, db, Some(id), c, f, GoneBackTo(db, id, f))
    {
      RetractedShows(db, id, d, f);
      StandsAfterRetraction(first, db, id, d, c, f, GoneBackTo(db, id, f));
    }
    forall o, f | o in db.companies && f in db.companies[o].columns
        && !(o == c && f in p.changes.keys && db.companies[o].columns[f] == p.changes.values[f])
      ensures f in after.companies[o].columns && Backed(first, after, o, f)
    {
      assert Backed(first, db, o, f);
      UntouchedBacked(first, db, id, d, o, f);
    }
  }

  lemma ApprovalBacked(first: Rows, db: Db, id: string, d: Decision)
    requires ValidDb(db) && id in db.proposals && AllBacked(first, db)
    ensures AllBacked(first, Approved(db, id, d))
  {
    var p, after := db.proposals[id], Approved(db, id, d);
    forall c, f | c in after.companies && f in after.companies[c].columns
      ensures Backed(first, after, c, f)
    {
      if c == p.companyId && f in p.changes.values {
        assert Proposes(after.proposals[id], c, f, after.companies[c].columns[f]);
      } else {
        assert Backed(first, db, c, f);
        StandsAfterApproval(first, db, id, d, c, f, after.companies[c].columns[f]);
      }
    }
  }

  lemma StandsAfterApproval(first: Rows, db: Db, id: string, d: Decision, c: string, f: string, value: Value)
    requires ValidDb(db) && id in db.proposals && Stands(first, db, None, c, f, value)
    ensures Stands(first, Approved(db, id, d), None, c, f, value)
  {
    var after := Approved(db, id, d);
    if o :| o in db.proposals && Proposes(db.proposals[o], c, f, value) {
      assert o in after.proposals && Proposes(after.proposals[o], c, f, value);
    }
  }

  lemma FlipBacked(first: Rows, db: Db, id: string, p: Proposal)
    requires id in db.proposals && db.proposals[id].status != APPROVED && AllBacked(first, db)
    ensures AllBacked(first, db.(proposals := db.proposals[id := p]))
  {
    var after := db.(proposals := db.proposals[id := p]);
    forall c, f | c in after.companies && f in after.companies[c].columns
      ensures Backed(first, after, c, f)
    {
      assert Backed(first, db, c, f);
      var value := db.companies[c].columns[f];
      if o :| o in db.proposals && Proposes(db.proposals[o], c, f, value) {
        assert o in after.proposals && Proposes(after.proposals[o], c, f, value);
      }
    }
  }

  /** One decision keeps every value backed exactly when it goes back well. */
  lemma StepBackedExactlyWhen(first: Rows, db: Db, e: Event)
    requires ValidDb(db) && AllBacked(first, db)
    ensures AllBacked(first, Moderated(db, e)) <==> GoesBackWell(first, db, e)
  {
    hide AllBacked, Approved, Retracted;
    if e.id in db.proposals {
      if e.Approve? {
        ApprovalBacked(first, db, e.id, e.decision);
      } else if db.proposals[e.id].status == APPROVED {
        RetractionBacked(first, db, e.id, e.decision);
      } else {
        FlipBacked(first, db, e.id, db.proposals[e.id].(status := REJECTED, review := Some(e.decision)));
      }
    }
  }

  ghost predicate BackedAt(db: Db, es: seq<Event>, k: nat)
    requires ValidDb(db) && k <= |es|
  {
    AllBacked(Live(db), Run(db, es[..k]))
  }

  ghost predicate GoesBackWellAt(db: Db, es: seq<Event>, k: nat)
    requires ValidDb(db) && k < |es|
  {
    GoesBackWell(Live(db), Run(db, es[..k]), es[k])
  }

  ghost predicate BackedThroughout(db: Db, es: seq<Event>)
    requires ValidDb(db)
  {
    forall k: nat :: k <= |es| ==> BackedAt(db, es, k)
  }

  ghost predicate AlwaysGoesBackWell(db: Db, es: seq<Event>)
    requires ValidDb(db)
  {
    forall k: nat :: k < |es| ==> GoesBackWellAt(db, es, k)
  }

  /**
   * Over a run, whatever companies show is always a first value or an approved one if and only if
   * every retraction in it goes back to values that stand when it is made.
   */
  lemma {:induction false} RunBackedExactlyWhen(db: Db, es: seq<Event>)
    requires ValidDb(db)
    ensures BackedThroughout(db, es) <==> AlwaysGoesBackWell(db, es)
  {
    hide BackedAt, GoesBackWellAt;
    if es == [] {
      FirstBacked(db);
      NothingYet(db);
    } else {
      var n := |es| - 1;
      var shorter := es[..n];
      RunBackedExactlyWhen(db, shorter);
      forall k: nat | k <= n ensures BackedAt(db, shorter, k) <==> BackedAt(db, es, k) {
        ShorterAlike(db, es, k);
      }
      forall k: nat | k < n ensures GoesBackWellAt(db, shorter, k) <==> GoesBackWellAt(db, es, k) {
        ShorterAlike(db, es, k);
      }
      if BackedAt(db, es, n) {
        LastBacked(db, es);
      }
    }
  }

  lemma NothingYet(db: Db)
    requires ValidDb(db)
    ensures BackedAt(db, [], 0) <==> AllBacked(Live(db), db)
  {
    hide AllBacked, Live;
  }

  lemma ShorterAlike(db: Db, es: seq<Event>, k: nat)
    requires ValidDb(db) && k < |es|
    ensures BackedAt(db, es[..|es| - 1], k) <==> BackedAt(db, es, k)
    ensures k < |es| - 1 ==> (GoesBackWellAt(db, es[..|es| - 1], k) <==> GoesBackWellAt(db, es, k))
  {
    hide AllBacked, GoesBackWell, Run, Live;
    assert es[..|es| - 1][..k] == es[..k];
  }

  lemma LastBacked(db: Db, es: seq<Event>)
    requires ValidDb(db) && es != [] && BackedAt(db, es, |es| - 1)
    ensures BackedAt(db, es, |es|) <==> GoesBackWellAt(db, es, |es| - 1)
  {
    hide AllBacked, GoesBackWell, Moderated, Live;
    assert es[..|es|] == es;
    StepBackedExactlyWhen(Live(db), Run(db, es[..|es| - 1]), es[|es| - 1]);
  }

  lemma FirstBacked(db: Db)
    ensures AllBacked(Live(db), db)
  {
    forall c, f | c in db.companies && f in db.companies[c].columns ensures Backed(Live(db), db, c, f) {
    }
  }
}
