/** Several edits undone: in the reverse of the order they were approved, and in the same order. */
module ProposalNesting {
  import opened Basics
  import opened Proposals
  import opened ProposalRuns
  import opened ProposalUndo

  /** A proposal approved, later rejected, and everything decided in between. */
  datatype Round = Round(id: string, approved: Decision, rejected: Decision, inner: seq<Round>)

  /** Well-nested decisions: each proposal is rejected before any approved earlier. */
  function Decisions(rounds: seq<Round>): seq<Event> {
    if rounds == [] then []
    else
      var r := rounds[0];
      [Approve(r.id, r.approved)] + Decisions(r.inner) + [Reject(r.id, r.rejected)] + Decisions(rounds[1..])
  }

  function Ids(rounds: seq<Round>): seq<string> {
    if rounds == [] then [] else [rounds[0].id] + Ids(rounds[0].inner) + Ids(rounds[1..])
  }

  /** Proposals of the database that were never approved, each decided once. */
  ghost predicate Fresh(db: Db, ids: seq<string>) {
    Distinct(ids) && forall id :: id in ids ==> id in db.proposals && NeverApproved(db.revisions, id)
  }

  // ----- runs, cut and put together -----------------------------------------------------------------

  lemma {:induction false} RunConcat(db: Db, a: seq<Event>, b: seq<Event>)
    requires ValidDb(db)
    ensures Run(db, a + b) == Run(Run(db, a), b)
  {
    hide Moderated;
    if b == [] {
      assert a + b == a;
    } else {
      assert (a + b)[..|a + b| - 1] == a + b[..|b| - 1];
      RunConcat(db, a, b[..|b| - 1]);
    }
  }

  lemma RunOne(db: Db, e: Event)
    requires ValidDb(db)
    ensures Run(db, [e]) == Moderated(db, e)
  {
    hide Moderated;
    assert [e][..0] == [];
  }

  ghost predicate DecidesOnly(es: seq<Event>, ids: seq<string>) {
    forall e :: e in es ==> e.id in ids
  }

  lemma {:induction false} DecisionsOnly(rounds: seq<Round>)
    ensures DecidesOnly(Decisions(rounds), Ids(rounds))
  {
    if rounds != [] {
      DecisionsOnly(rounds[0].inner);
      DecisionsOnly(rounds[1..]);
    }
  }

  ghost predicate LoggedBy(log: seq<Revision>, ids: seq<string>) {
    forall i :: 0 <= i < |log| ==> log[i].proposalId in ids
  }

  /** Decisions on some proposals leave the others, and log nothing under them. */
  ghost predicate Apart(db: Db, db': Db, added: seq<Revision>, ids: seq<string>) {
    && db'.revisions == db.revisions + added && LoggedBy(added, ids)
    && forall o :: o in db.proposals && o !in ids ==> o in db'.proposals && db'.proposals[o] == db.proposals[o]
  }

  lemma StepApart(db: Db, e: Event, ids: seq<string>) returns (added: seq<Revision>)
    requires ValidDb(db) && e.id in ids
    ensures Apart(db, Moderated(db, e), added, ids)
  {
    var db' := Moderated(db, e);
    added := db'.revisions[|db.revisions|..];
    assert db.revisions + added == db'.revisions;
  }

  lemma {:induction false} RunApart(db: Db, es: seq<Event>, ids: seq<string>) returns (added: seq<Revision>)
    requires ValidDb(db) && DecidesOnly(es, ids)
    ensures Apart(db, Run(db, es), added, ids)
  {
    hide Moderated;
    if es == [] {
      added := [];
      assert db.revisions + added == db.revisions;
    } else {
      var earlier := RunApart(db, es[..|es| - 1], ids);
      var last := StepApart(Run(db, es[..|es| - 1]), es[|es| - 1], ids);
      added := earlier + last;
      assert db.revisions + earlier + last == db.revisions + added;
    }
  }

  /** Entries that are not of this proposal and field, or are no UPDATE, are passed over. */
  lemma {:induction false} NewestThrough(log: seq<Revision>, added: seq<Revision>, id: string, f: string)
    requires forall i :: 0 <= i < |added| ==> !Mine(added[i], id, f)
    ensures Newest(log + added, id, f) == Newest(log, id, f) && NewestReal(log + added, id, f) == NewestReal(log, id, f)
  {
    if added == [] {
      assert log + added == log;
    } else {
      assert (log + added)[..|log + added| - 1] == log + added[..|added| - 1];
      NewestThrough(log, added[..|added| - 1], id, f);
    }
  }

  lemma FreshApart(db: Db, db': Db, added: seq<Revision>, ids: seq<string>, others: seq<string>)
    requires Fresh(db, others) && Apart(db, db', added, ids) && forall id :: id in others ==> id !in ids
    ensures Fresh(db', others)
  {
    forall id | id in others ensures id in db'.proposals && NeverApproved(db'.revisions, id) {
      assert forall i :: 0 <= i < |db'.revisions| ==>
        db'.revisions[i] == if i < |db.revisions| then db.revisions[i] else added[i - |db.revisions|];
    }
  }

  // ----- undone in reverse ---------------------------------------------------------------------------

  lemma EditedAfterOne(db: Db, id: string, d: Decision)
    requires ValidDb(db) && id in db.proposals && NeverApproved(db.revisions, id)
    ensures ValidDb(Moderated(db, Approve(id, d))) && Edited(db, id, Moderated(db, Approve(id, d)))
  {
    hide Moderated, Standing, Edited;
    ModeratedValid(db, Approve(id, d));
    AfterApprovals(db, id, [d]);
    assert Approvals(id, [d]) == [Approve(id, d)];
    RunOne(db, Approve(id, d));
    StandingEdited(db, id, 1, Moderated(db, Approve(id, d)));
  }

  /** Whatever others did and took back meanwhile, the proposal's values stand as it left them. */
  lemma EditedThrough(db: Db, id: string, mid: Db, now: Db, added: seq<Revision>, ids: seq<string>)
    requires ValidDb(db) && id in db.proposals && ValidDb(mid) && ValidDb(now) && Edited(db, id, mid)
    requires Apart(mid, now, added, ids) && id !in ids && Live(now) == Live(mid)
    ensures Edited(db, id, now)
  {
    hide Live;
    var p := db.proposals[id];
    forall f | f in p.changes.keys
      ensures Remembers(now.revisions, id, f, db.companies[p.companyId].columns[f], p.changes.values[f])
    {
      NewestThrough(mid.revisions, added, id, f);
    }
  }

  lemma DistinctParts(head: string, inner: seq<string>, rest: seq<string>)
    requires Distinct([head] + inner + rest)
    ensures Distinct(inner) && Distinct(rest)
    ensures head !in inner && head !in rest
    ensures forall x :: x in rest ==> x !in [head] + inner
  {
    var all := [head] + inner + rest;
    assert all[0] == head;
    assert forall i :: 0 <= i < |inner| ==> all[1 + i] == inner[i];
    assert forall i :: 0 <= i < |rest| ==> all[1 + |inner| + i] == rest[i];
  }

  lemma FreshParts(db: Db, rounds: seq<Round>)
    requires rounds != [] && Fresh(db, Ids(rounds))
    ensures var r := rounds[0];
      && r.id in db.proposals && NeverApproved(db.revisions, r.id) && r.id !in Ids(r.inner)
      && Fresh(db, Ids(r.inner)) && Fresh(db, Ids(rounds[1..]))
      && forall id :: id in Ids(rounds[1..]) ==> id !in [r.id] + Ids(r.inner)
    ensures forall id :: id in Ids(rounds[0].inner) ==> id !in [rounds[0].id]
  {
    DistinctParts(rounds[0].id, Ids(rounds[0].inner), Ids(rounds[1..]));
  }

  /** One round: approve, decide whatever nests inside, reject. */
  lemma RoundUndone(db: Db, r: Round, inside: seq<Event>)
    requires ValidDb(db) && r.id in db.proposals && NeverApproved(db.revisions, r.id)
    requires DecidesOnly(inside, Ids(r.inner)) && r.id !in Ids(r.inner)
    requires var mid := Moderated(db, Approve(r.id, r.approved));
      ValidDb(mid) && Live(Run(mid, inside)) == Live(mid)
    ensures var es := [Approve(r.id, r.approved)] + inside + [Reject(r.id, r.rejected)];
      Live(Run(db, es)) == Live(db)
  {
    hide Moderated, Edited, Apart, Live, NeverApproved;
    var one, last := [Approve(r.id, r.approved)], [Reject(r.id, r.rejected)];
    var mid := Moderated(db, one[0]);
    var now := Run(mid, inside);
    EditedAfterOne(db, r.id, r.approved);
    RunOne(db, one[0]);
    RunConcat(db, one, inside);
    var added := RunApart(mid, inside, Ids(r.inner));
    EditedThrough(db, r.id, mid, now, added, Ids(r.inner));
    EditedApproved(db, r.id, now);
    RunRejected(db, one + inside, r.id, r.rejected);
    UndoneFromEdited(db, r.id, now, r.rejected);
  }

  lemma EditedApproved(db: Db, id: string, now: Db)
    requires ValidDb(db) && id in db.proposals && ValidDb(now) && Edited(db, id, now)
    ensures id in now.proposals && now.proposals[id].status == APPROVED
  {
  }

  /**
   * Proposals never approved before, on any companies, approved and rejected in any well-nested
   * order with no other write between: every column of every company is back.
   */
  lemma {:induction false} NestedEditsUndone(db: Db, rounds: seq<Round>)
    requires ValidDb(db) && Fresh(db, Ids(rounds))
    ensures Live(Run(db, Decisions(rounds))) == Live(db)
    decreases rounds
  {
    hide Moderated, Live, Apart, Fresh, NeverApproved, DecidesOnly;
    if rounds != [] {
      var r, rest := rounds[0], rounds[1..];
      var inside := Decisions(r.inner);
      var first := [Approve(r.id, r.approved)] + inside + [Reject(r.id, r.rejected)];
      FreshParts(db, rounds);
      ModeratedValid(db, Approve(r.id, r.approved));
      var mid := Moderated(db, Approve(r.id, r.approved));
      var logged := StepApart(db, Approve(r.id, r.approved), [r.id]);
      FreshApart(db, mid, logged, [r.id], Ids(r.inner));
      NestedEditsUndone(mid, r.inner);
      DecisionsOnly(r.inner);
      RoundUndone(db, r, inside);
      FirstOnly(r);
      var added := RunApart(db, first, [r.id] + Ids(r.inner));
      FreshApart(db, Run(db, first), added, [r.id] + Ids(r.inner), Ids(rest));
      NestedEditsUndone(Run(db, first), rest);
      RunConcat(db, first, Decisions(rest));
    }
  }

  lemma FirstOnly(r: Round)
    ensures DecidesOnly(
      [Approve(r.id, r.approved)] + Decisions(r.inner) + [Reject(r.id, r.rejected)],
      [r.id] + Ids(r.inner))
  {
    DecisionsOnly(r.inner);
  }
}
