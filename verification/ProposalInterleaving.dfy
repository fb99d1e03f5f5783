/**
 * Any number of proposals approved and rejected in any order: what the companies show, told from the
 * order of the decisions alone.
 */
module ProposalInterleaving {
  import opened Basics
  import opened DecisionOrder
  import opened Proposals
  import opened ProposalBacking
  import opened ProposalRuns
  import opened ProposalUndo
  import opened ProposalNesting
  import opened ProposalOrder

  /** Proposals nobody has approved yet. */
  ghost predicate Undecided(db: Db, ids: set<string>) {
    forall id :: id in ids ==>
      id in db.proposals && NeverApproved(db.revisions, id) && db.proposals[id].status != APPROVED
  }

  /** Decisions on those only, approving none of them twice. */
  ghost predicate DecidesEach(es: seq<Event>, ids: set<string>) {
    Once(es) && forall e :: e in es ==> e.id in ids
  }

  function ValueOf(db: Db, id: string, f: string): Value {
    if id in db.proposals && f in db.proposals[id].changes.values then db.proposals[id].changes.values[f] else Null
  }

  predicate Edits(db: Db, id: string, c: string, f: string) {
    id in db.proposals && db.proposals[id].companyId == c && f in db.proposals[id].changes.keys
  }

  /** Where two of them share a field, the values proposed differ from the first value and from each other. */
  ghost predicate Differ(db: Db, ids: set<string>) {
    forall id, o, c, f ::
      (id in ids && o in ids && o != id && Edits(db, id, c, f) && Edits(db, o, c, f)
        && c in db.companies && f in db.companies[c].columns) ==>
        ValueOf(db, id, f) != db.companies[c].columns[f] && ValueOf(db, id, f) != ValueOf(db, o, f)
  }

  function EditsOf(db: Db, ids: set<string>, c: string, f: string): set<string> {
    set id | id in ids && Edits(db, id, c, f)
  }

  // ----- the proposals ------------------------------------------------------------------------------------

  /** Which proposals are approved now, and what the log holds of the others. */
  ghost predicate Follows(db: Db, ids: set<string>, es: seq<Event>, now: Db) {
    && (forall id :: id in ids && id in db.proposals ==>
         && id in now.proposals && SameProposal(db.proposals[id], now.proposals[id])
         && (now.proposals[id].status == APPROVED <==> Open(es, id))
         && (!Approves(es, id) ==> NeverApproved(now.revisions, id)))
    && (forall o :: o in db.proposals && o !in ids ==> o in now.proposals && now.proposals[o] == db.proposals[o])
    && (forall o :: o in now.proposals ==> o in db.proposals)
  }

  lemma DecisionShows(db: Db, e: Event)
    requires ValidDb(db) && e.id in db.proposals
    ensures var now := Moderated(db, e);
      && now.proposals.Keys == db.proposals.Keys && SameProposal(db.proposals[e.id], now.proposals[e.id])
      && (now.proposals[e.id].status == APPROVED <==> e.Approve?)
      && (e.Reject? && db.proposals[e.id].status != APPROVED ==>
           now.revisions == db.revisions && now.companies == db.companies)
  {
  }

  lemma StepFollows(db: Db, ids: set<string>, es: seq<Event>, e: Event, mid: Db)
    requires ValidDb(mid) && Undecided(db, ids) && e.id in ids && Follows(db, ids, es, mid)
    ensures Follows(db, ids, es + [e], Moderated(mid, e))
  {
    hide Open, Approves, Moderated, NeverApproved;
    var now := Moderated(mid, e);
    DecisionShows(mid, e);
    var added := StepApart(mid, e, [e.id]);
    forall id | id in ids
      ensures now.proposals[id].status == APPROVED <==> Open(es + [e], id)
      ensures !Approves(es + [e], id) ==> NeverApproved(now.revisions, id)
    {
      OpenPush(es, e, id);
      ApprovesPush(es, e, id);
      OpenApproves(es, id);
      if id != e.id {
        StillNever(mid, now, added, [e.id], id);
      }
    }
  }

  lemma StillNever(db: Db, db': Db, added: seq<Revision>, ids: seq<string>, id: string)
    requires Apart(db, db', added, ids) && id !in ids
    ensures NeverApproved(db.revisions, id) ==> NeverApproved(db'.revisions, id)
  {
    assert forall i :: 0 <= i < |db'.revisions| ==>
      db'.revisions[i] == if i < |db.revisions| then db.revisions[i] else added[i - |db.revisions|];
  }

  lemma {:induction false} RunFollows(db: Db, ids: set<string>, es: seq<Event>)
    requires ValidDb(db) && Undecided(db, ids) && DecidesEach(es, ids)
    ensures Follows(db, ids, es, Run(db, es))
  {
    hide Moderated, Follows, Once;
    if es == [] {
      NothingDecided(db, ids);
    } else {
      var before, e := es[..|es| - 1], es[|es| - 1];
      assert es == before + [e];
      OncePush(before, e);
      RunFollows(db, ids, before);
      StepFollows(db, ids, before, e, Run(db, before));
    }
  }

  lemma NothingDecided(db: Db, ids: set<string>)
    requires Undecided(db, ids)
    ensures Follows(db, ids, [], db)
  {
  }

  // ----- one field -------------------------------------------------------------------------------------------

  /** The value under position `k` of the pile: the first one, or that of the edit below. */
  function Under(db: Db, c: string, f: string, pile: seq<string>, k: nat): Value
    requires c in db.companies && f in db.companies[c].columns && k <= |pile|
  {
    if k == 0 then db.companies[c].columns[f] else ValueOf(db, pile[k - 1], f)
  }

  /** The field shows the top of the pile, and the log tells of each edit that stands what lies under it. */
  ghost predicate ShowsTop(db: Db, c: string, f: string, es: seq<Event>, pile: seq<string>, now: Db)
    requires c in db.companies && f in db.companies[c].columns
  {
    && c in now.companies && f in now.companies[c].columns
    && now.companies[c].columns[f] == Under(db, c, f, pile, |pile|)
    && forall k :: 0 <= k < |pile| && Open(es, pile[k]) ==>
         Remembers(now.revisions, pile[k], f, Under(db, c, f, pile, k), ValueOf(db, pile[k], f))
  }

  lemma RemembersThrough(mid: Db, e: Event, id: string, f: string, original: Value, proposed: Value)
    requires ValidDb(mid) && id != e.id && Remembers(mid.revisions, id, f, original, proposed)
    ensures Remembers(Moderated(mid, e).revisions, id, f, original, proposed)
  {
    hide Moderated, Remembers;
    var added := StepApart(mid, e, [e.id]);
    NewestThrough(mid.revisions, added, id, f);
    SameNewest(mid.revisions, Moderated(mid, e).revisions, id, f, original, proposed);
  }

  /** What is remembered of the edits a decision is not about. */
  lemma OthersRemembered(
    db: Db, c: string, f: string, es: seq<Event>, e: Event, pile: seq<string>, shorter: seq<string>, mid: Db
  )
    requires ValidDb(mid) && c in db.companies && f in db.companies[c].columns
    requires ShowsTop(db, c, f, es, pile, mid) && shorter <= pile
    ensures forall k :: 0 <= k < |shorter| && shorter[k] != e.id && Open(es + [e], shorter[k]) ==>
      Remembers(Moderated(mid, e).revisions, shorter[k], f, Under(db, c, f, shorter, k), ValueOf(db, shorter[k], f))
  {
    hide Moderated, Remembers, Open;
    forall k | 0 <= k < |shorter| && shorter[k] != e.id && Open(es + [e], shorter[k])
      ensures Remembers(
        Moderated(mid, e).revisions, shorter[k], f, Under(db, c, f, shorter, k), ValueOf(db, shorter[k], f))
    {
      assert shorter[k] == pile[k] && Under(db, c, f, shorter, k) == Under(db, c, f, pile, k);
      OpenPush(es, e, shorter[k]);
      RemembersThrough(mid, e, pile[k], f, Under(db, c, f, pile, k), ValueOf(db, pile[k], f));
    }
  }

  /** A decision about another field, or one that is no retraction, leaves the field. */
  lemma FieldLeft(mid: Db, e: Event, c: string, f: string)
    requires ValidDb(mid) && e.id in mid.proposals && c in mid.companies && f in mid.companies[c].columns
    requires !Edits(mid, e.id, c, f) || (e.Reject? && mid.proposals[e.id].status != APPROVED)
    ensures var now := Moderated(mid, e);
      c in now.companies && f in now.companies[c].columns && now.companies[c].columns[f] == mid.companies[c].columns[f]
  {
    hide Reverted, MarksToRestore;
    LiveColumns(mid);
    LiveColumns(Moderated(mid, e));
    if e.Approve? {
      ApprovalOverlays(mid, e.id, e.decision);
    } else if mid.proposals[e.id].status == APPROVED {
      OtherFieldsStay(mid, e.id, e.decision);
    }
  }

  lemma FieldKept(db: Db, c: string, f: string, es: seq<Event>, e: Event, pile: seq<string>, mid: Db)
    requires ValidDb(mid) && e.id in mid.proposals && c in db.companies && f in db.companies[c].columns
    requires ShowsTop(db, c, f, es, pile, mid) && (e.id in pile ==> e.Reject?)
    requires !Edits(mid, e.id, c, f) || (e.Reject? && mid.proposals[e.id].status != APPROVED)
    ensures ShowsTop(db, c, f, es + [e], pile, Moderated(mid, e))
  {
    hide Moderated, Remembers, Open, Edits;
    FieldLeft(mid, e, c, f);
    OthersRemembered(db, c, f, es, e, pile, pile, mid);
    OpenPush(es, e, e.id);
  }

  lemma FieldApproved(db: Db, c: string, f: string, es: seq<Event>, e: Event, pile: seq<string>, mid: Db)
    requires ValidDb(mid) && e.Approve? && c in db.companies && f in db.companies[c].columns
    requires ShowsTop(db, c, f, es, pile, mid) && Edits(mid, e.id, c, f)
    requires ValueOf(mid, e.id, f) == ValueOf(db, e.id, f) && NeverApproved(mid.revisions, e.id) && e.id !in pile
    ensures ShowsTop(db, c, f, es + [e], pile + [e.id], Moderated(mid, e))
  {
    hide Moderated, Remembers, Open, NeverApproved;
    var pile', n := pile + [e.id], |pile|;
    var now := Moderated(mid, e);
    ApprovalOverlays(mid, e.id, e.decision);
    OthersRemembered(db, c, f, es, e, pile, pile, mid);
    RemembersLive(mid, e.id, e.decision, f);
    forall k | 0 <= k < |pile'| && Open(es + [e], pile'[k])
      ensures Remembers(now.revisions, pile'[k], f, Under(db, c, f, pile', k), ValueOf(db, pile'[k], f))
    {
      assert Under(db, c, f, pile', k) == Under(db, c, f, pile, k);
      assert k < n ==> pile'[k] == pile[k];
    }
  }

  lemma RemembersLive(mid: Db, id: string, d: Decision, f: string)
    requires ValidDb(mid) && id in mid.proposals && NeverApproved(mid.revisions, id)
    requires f in mid.proposals[id].changes.keys
    ensures var p := mid.proposals[id];
      f in p.changes.values && Remembers(
        Moderated(mid, Approve(id, d)).revisions, id, f, mid.companies[p.companyId].columns[f], p.changes.values[f])
  {
    NothingOfMine(mid.revisions, id, f);
    ApprovalRemembers(mid, id, d, f, mid.companies[mid.proposals[id].companyId].columns[f]);
  }

  /** The field after a retraction of an edit that lies at position `k`. */
  lemma FieldRetracted(db: Db, c: string, f: string, es: seq<Event>, e: Event, pile: seq<string>, mid: Db, k: nat)
    requires ValidDb(mid) && e.Reject? && c in db.companies && f in db.companies[c].columns
    requires ShowsTop(db, c, f, es, pile, mid) && Edits(mid, e.id, c, f) && mid.proposals[e.id].status == APPROVED
    requires ValueOf(mid, e.id, f) == ValueOf(db, e.id, f) && k < |pile| && pile[k] == e.id && Open(es, e.id)
    ensures var now := Moderated(mid, e);
      && c in now.companies && f in now.companies[c].columns
      && now.companies[c].columns[f] ==
           AfterRejection(Under(db, c, f, pile, k), mid.companies[c].columns[f], ValueOf(db, e.id, f))
  {
    hide Remembers, Open, Retracted;
    RejectedField(mid, e.id, e.decision, f, Under(db, c, f, pile, k));
    LiveColumns(Retracted(mid, e.id, e.decision));
  }

  lemma FieldLifted(db: Db, c: string, f: string, es: seq<Event>, e: Event, pile: seq<string>, mid: Db)
    requires ValidDb(mid) && e.Reject? && c in db.companies && f in db.companies[c].columns
    requires ShowsTop(db, c, f, es, pile, mid) && Edits(mid, e.id, c, f) && mid.proposals[e.id].status == APPROVED
    requires ValueOf(mid, e.id, f) == ValueOf(db, e.id, f) && Open(es, e.id)
    requires pile != [] && pile[|pile| - 1] == e.id && e.id !in pile[..|pile| - 1]
    ensures ShowsTop(db, c, f, es + [e], pile[..|pile| - 1], Moderated(mid, e))
  {
    hide Moderated, Remembers, Open, Edits;
    var n := |pile| - 1;
    FieldRetracted(db, c, f, es, e, pile, mid, n);
    OthersRemembered(db, c, f, es, e, pile, pile[..n], mid);
    assert forall k :: 0 <= k < n ==> pile[..n][k] in pile[..n];
  }

  lemma FieldStuck(db: Db, c: string, f: string, es: seq<Event>, e: Event, pile: seq<string>, mid: Db, k: nat)
    requires ValidDb(mid) && e.Reject? && c in db.companies && f in db.companies[c].columns
    requires ShowsTop(db, c, f, es, pile, mid) && Edits(mid, e.id, c, f) && mid.proposals[e.id].status == APPROVED
    requires ValueOf(mid, e.id, f) == ValueOf(db, e.id, f) && Open(es, e.id)
    requires k < |pile| && pile[k] == e.id && Under(db, c, f, pile, |pile|) != ValueOf(db, e.id, f)
    ensures ShowsTop(db, c, f, es + [e], pile, Moderated(mid, e))
  {
    hide Moderated, Remembers, Open, Edits;
    FieldRetracted(db, c, f, es, e, pile, mid, k);
    OthersRemembered(db, c, f, es, e, pile, pile, mid);
    OpenPush(es, e, e.id);
  }

  /** Values on a pile tell its edits apart. */
  lemma TopDiffers(db: Db, ids: set<string>, c: string, f: string, pile: seq<string>, id: string)
    requires Differ(db, ids) && c in db.companies && f in db.companies[c].columns
    requires pile != [] && (forall x :: x in pile ==> x in EditsOf(db, ids, c, f)) && id in EditsOf(db, ids, c, f)
    ensures Under(db, c, f, pile, |pile|) == ValueOf(db, id, f) <==> pile[|pile| - 1] == id
    ensures pile[|pile| - 1] != id ==> Under(db, c, f, pile, |pile|) != db.companies[c].columns[f]
  {
    assert pile[|pile| - 1] in pile;
  }

  lemma SameEdits(db: Db, ids: set<string>, es: seq<Event>, mid: Db, id: string, c: string, f: string)
    requires Follows(db, ids, es, mid) && id in ids && id in db.proposals
    ensures Edits(mid, id, c, f) <==> Edits(db, id, c, f)
    ensures ValueOf(mid, id, f) == ValueOf(db, id, f)
    ensures id in mid.proposals && (mid.proposals[id].status == APPROVED <==> Open(es, id))
    ensures !Approves(es, id) ==> NeverApproved(mid.revisions, id)
  {
    hide Open, Approves, NeverApproved;
  }

  lemma PileFacts(es: seq<Event>, touching: set<string>)
    requires Once(es)
    ensures var pile := Pile(es, touching);
      && (forall x :: x in pile ==> x in touching && Approves(es, x))
      && (forall x :: x in touching && Open(es, x) ==> x in pile)
      && (forall k, l :: 0 <= k < |pile| && 0 <= l < |pile| && pile[k] == pile[l] ==> k == l)
  {
    hide Open, Approves, Once;
    PileIsPiled(es, touching);
    PileDistinct(es, Pile(es, touching));
  }

  lemma StepShowsTop(
    db: Db, ids: set<string>, c: string, f: string, es: seq<Event>, e: Event, mid: Db
  )
    requires ValidDb(db) && ValidDb(mid) && Undecided(db, ids) && Differ(db, ids) && e.id in ids
    requires Once(es + [e]) && Follows(db, ids, es, mid) && c in db.companies && f in db.companies[c].columns
    requires ShowsTop(db, c, f, es, Pile(es, EditsOf(db, ids, c, f)), mid)
    ensures ShowsTop(db, c, f, es + [e], Pile(es + [e], EditsOf(db, ids, c, f)), Moderated(mid, e))
  {
    hide Moderated, Open, Approves, Once, Differ, Follows, ShowsTop, NeverApproved, Edits, Pile;
    var touching := EditsOf(db, ids, c, f);
    var pile := Pile(es, touching);
    OncePush(es, e);
    PilePush(es, e, touching);
    PileFacts(es, touching);
    SameEdits(db, ids, es, mid, e.id, c, f);
    assert e.id in touching <==> Edits(db, e.id, c, f);
    if e.id !in touching {
      FieldKept(db, c, f, es, e, pile, mid);
    } else if e.Approve? {
      FieldApproved(db, c, f, es, e, pile, mid);
    } else if !Open(es, e.id) {
      FieldKept(db, c, f, es, e, pile, mid);
    } else {
      var k :| 0 <= k < |pile| && pile[k] == e.id;
      TopDiffers(db, ids, c, f, pile, e.id);
      if pile[|pile| - 1] == e.id {
        FieldLifted(db, c, f, es, e, pile, mid);
      } else {
        FieldStuck(db, c, f, es, e, pile, mid, k);
      }
    }
  }

  /** After any decisions, each field shows the edit on top of its pile. */
  lemma {:induction false} RunShowsTop(db: Db, ids: set<string>, es: seq<Event>, c: string, f: string)
    requires ValidDb(db) && Undecided(db, ids) && DecidesEach(es, ids) && Differ(db, ids)
    requires c in db.companies && f in db.companies[c].columns
    ensures ShowsTop(db, c, f, es, Pile(es, EditsOf(db, ids, c, f)), Run(db, es))
  {
    hide Moderated, Once, Differ, Follows, ShowsTop, Undecided;
    if es == [] {
      NothingShown(db, c, f);
    } else {
      var before, e := es[..|es| - 1], es[|es| - 1];
      assert es == before + [e];
      OncePush(before, e);
      RunShowsTop(db, ids, before, c, f);
      RunFollows(db, ids, before);
      StepShowsTop(db, ids, c, f, before, e, Run(db, before));
    }
  }

  lemma NothingShown(db: Db, c: string, f: string)
    requires c in db.companies && f in db.companies[c].columns
    ensures ShowsTop(db, c, f, [], [], db)
  {
  }

  // ----- all fields ---------------------------------------------------------------------------------------------

  predicate Share(db: Db, one: string, two: string) {
    && one in db.proposals && two in db.proposals && db.proposals[one].companyId == db.proposals[two].companyId
    && exists f :: f in db.proposals[one].changes.keys && f in db.proposals[two].changes.keys
  }

  /** The proposal proposes for the field what was there first. */
  predicate Idle(db: Db, id: string, c: string, f: string)
    requires c in db.companies && f in db.companies[c].columns
  {
    ValueOf(db, id, f) == db.companies[c].columns[f]
  }

  predicate ChangesNothing(db: Db, id: string) {
    forall c, f :: c in db.companies && f in db.companies[c].columns && Edits(db, id, c, f) ==> Idle(db, id, c, f)
  }

  /** Everything approved was rejected, but for proposals that change nothing. */
  ghost predicate AllTakenBack(db: Db, ids: set<string>, es: seq<Event>) {
    forall id :: id in ids && Open(es, id) ==> ChangesNothing(db, id)
  }

  /** Wherever two share a field, the one approved later was taken back first. */
  ghost predicate NoneOvertaken(db: Db, ids: set<string>, es: seq<Event>) {
    forall one, two :: one in ids && two in ids && Share(db, one, two) ==> !Overtaken(es, one, two)
  }

  lemma OvertakenByOther(es: seq<Event>, touching: set<string>, one: string)
    requires Once(es)
    ensures OvertakenIn(es, touching, one) ==> exists two :: two in touching && two != one
  {
    hide Overtaken;
    NotByItself(es, one);
  }

  /** What a lone edit of a field shows, and what one of several shows. */
  lemma PileReturns(db: Db, ids: set<string>, es: seq<Event>, c: string, f: string, pile: seq<string>)
    requires Once(es) && Differ(db, ids) && c in db.companies && f in db.companies[c].columns
    requires pile != [] && forall x :: x in pile ==> x in EditsOf(db, ids, c, f)
    requires forall x :: x in EditsOf(db, ids, c, f) && Open(es, x) ==> x in pile
    requires exists one ::
      one in EditsOf(db, ids, c, f) && (Open(es, one) || OvertakenIn(es, EditsOf(db, ids, c, f), one))
    ensures Under(db, c, f, pile, |pile|) == db.companies[c].columns[f] <==>
      forall one :: one in EditsOf(db, ids, c, f) ==>
        (Open(es, one) ==> Idle(db, one, c, f)) && !OvertakenIn(es, EditsOf(db, ids, c, f), one)
  {
    hide Open, OvertakenIn, Once, Edits;
    var touching, top := EditsOf(db, ids, c, f), pile[|pile| - 1];
    assert top in pile;
    var one :| one in touching && (Open(es, one) || OvertakenIn(es, touching, one));
    OvertakenByOther(es, touching, one);
    if two :| two in touching && two != top {
      TopDiffers(db, ids, c, f, pile, two);
      assert Edits(db, top, c, f) && Edits(db, two, c, f);
      assert forall x :: x in touching ==> Edits(db, x, c, f) && !Idle(db, x, c, f);
    } else {
      assert forall x :: x in touching ==> x == top;
      OvertakenByOther(es, touching, top);
    }
  }

  lemma FieldReturns(db: Db, ids: set<string>, es: seq<Event>, c: string, f: string)
    requires ValidDb(db) && Undecided(db, ids) && DecidesEach(es, ids) && Differ(db, ids)
    requires c in db.companies && f in db.companies[c].columns
    ensures var now, touching := Run(db, es), EditsOf(db, ids, c, f);
      && c in now.companies && f in now.companies[c].columns
      && (now.companies[c].columns[f] == db.companies[c].columns[f] <==>
           forall one :: one in touching ==>
             (Open(es, one) ==> Idle(db, one, c, f)) && !OvertakenIn(es, touching, one))
  {
    hide Open, OvertakenIn, Once, Differ, Run, Edits, Idle;
    var touching := EditsOf(db, ids, c, f);
    var pile := Pile(es, touching);
    RunShowsTop(db, ids, es, c, f);
    PileFacts(es, touching);
    PileEmptyExactlyWhen(es, touching);
    if pile != [] {
      PileReturns(db, ids, es, c, f, pile);
    }
  }

  lemma OvertakenBy(es: seq<Event>, touching: set<string>, one: string, two: string)
    requires two in touching && Overtaken(es, one, two)
    ensures OvertakenIn(es, touching, one)
  {
  }

  /**
   * Any number of proposals, never approved before, each approved at most once and rejected whenever,
   * their values all different where they share a field: the companies show again what they showed at
   * first if and only if every edit was taken back and, of any two that share a field, never the one
   * approved earlier while the later one stood.
   */
  lemma {:induction false} EditsReturnExactlyWhen(db: Db, ids: set<string>, es: seq<Event>)
    requires ValidDb(db) && Undecided(db, ids) && DecidesEach(es, ids) && Differ(db, ids)
    ensures Live(Run(db, es)) == Live(db) <==> AllTakenBack(db, ids, es) && NoneOvertaken(db, ids, es)
  {
    hide Run, Live, Open, Overtaken, Once, Differ, Undecided;
    var now := Run(db, es);
    LiveColumns(db);
    LiveColumns(now);
    RunKeepsColumns(db, es);
    SameRows(Live(now), Live(db));
    if Live(now) == Live(db) {
      forall id | id in ids && Open(es, id) ensures ChangesNothing(db, id) {
        OpenEditShows(db, ids, es, id);
      }
      forall one, two | one in ids && two in ids && Share(db, one, two) ensures !Overtaken(es, one, two) {
        OvertakenShows(db, ids, es, one, two);
      }
    }
    if AllTakenBack(db, ids, es) && NoneOvertaken(db, ids, es) {
      forall c, f | c in Live(db) && f in Live(db)[c] ensures Live(now)[c][f] == Live(db)[c][f] {
        TakenBackReturns(db, ids, es, c, f);
      }
    }
  }

  lemma OpenEditShows(db: Db, ids: set<string>, es: seq<Event>, id: string)
    requires ValidDb(db) && Undecided(db, ids) && DecidesEach(es, ids) && Differ(db, ids)
    requires id in ids && Open(es, id) && Live(Run(db, es)) == Live(db)
    ensures ChangesNothing(db, id)
  {
    hide Run, Open, Once, Differ, Undecided, Idle, Edits, OvertakenIn;
    LiveColumns(db);
    LiveColumns(Run(db, es));
    forall c, f | c in db.companies && f in db.companies[c].columns && Edits(db, id, c, f) ensures Idle(db, id, c, f) {
      FieldReturns(db, ids, es, c, f);
      assert id in EditsOf(db, ids, c, f);
    }
  }

  lemma OvertakenShows(db: Db, ids: set<string>, es: seq<Event>, one: string, two: string)
    requires ValidDb(db) && Undecided(db, ids) && DecidesEach(es, ids) && Differ(db, ids)
    requires one in ids && two in ids && Share(db, one, two)
    ensures Overtaken(es, one, two) ==> Live(Run(db, es)) != Live(db)
  {
    hide Run, Open, Once, Differ, Undecided, Overtaken;
    if Overtaken(es, one, two) {
      var p := db.proposals[one];
      var c, f :| c == p.companyId && f in p.changes.keys && f in db.proposals[two].changes.keys;
      assert ValidProposal(p, db.companies);
      FieldReturns(db, ids, es, c, f);
      assert one in EditsOf(db, ids, c, f) && two in EditsOf(db, ids, c, f);
      OvertakenBy(es, EditsOf(db, ids, c, f), one, two);
      assert Run(db, es).companies[c].columns == Live(Run(db, es))[c] && db.companies[c].columns == Live(db)[c];
    }
  }

  lemma TakenBackReturns(db: Db, ids: set<string>, es: seq<Event>, c: string, f: string)
    requires ValidDb(db) && Undecided(db, ids) && DecidesEach(es, ids) && Differ(db, ids)
    requires AllTakenBack(db, ids, es) && NoneOvertaken(db, ids, es)
    requires c in db.companies && f in db.companies[c].columns
    ensures var now := Run(db, es);
      c in now.companies && f in now.companies[c].columns && now.companies[c].columns[f] == db.companies[c].columns[f]
  {
    hide Run, Open, Once, Differ, Undecided, Overtaken;
    var touching := EditsOf(db, ids, c, f);
    FieldReturns(db, ids, es, c, f);
    forall one | one in touching
      ensures (Open(es, one) ==> Idle(db, one, c, f)) && !OvertakenIn(es, touching, one)
    {
      forall two | two in touching ensures !Overtaken(es, one, two) {
        assert Share(db, one, two);
      }
    }
  }

  /** The proposal is approved at one moment and rejected at one later moment, and at no other. */
  ghost predicate DecidedAt(es: seq<Event>, id: string, i: nat, r: nat) {
    && i < r && ApprovesAt(es, id, i) && RejectsAt(es, id, r)
    && forall k: nat :: RejectsAt(es, id, k) ==> k == r
  }

  ghost predicate DecidedTwice(es: seq<Event>, ids: set<string>) {
    forall id :: id in ids ==> exists i: nat, r: nat :: DecidedAt(es, id, i, r)
  }

  /** Approved one after the other, then rejected in that same order. */
  ghost predicate Crossed(es: seq<Event>, one: string, two: string) {
    exists i: nat, j: nat, r: nat, s: nat :: i < j < r < s
      && ApprovesAt(es, one, i) && ApprovesAt(es, two, j) && RejectsAt(es, one, r) && RejectsAt(es, two, s)
  }

  lemma PrefixAt(es: seq<Event>, n: nat)
    requires n <= |es|
    ensures forall id, k: nat :: ApprovesAt(es[..n], id, k) <==> k < n && ApprovesAt(es, id, k)
    ensures forall id, k: nat :: RejectsAt(es[..n], id, k) <==> k < n && RejectsAt(es, id, k)
  {
  }

  lemma OpenBetween(es: seq<Event>, id: string, i: nat, r: nat, n: nat)
    requires Once(es) && DecidedAt(es, id, i, r) && n <= |es|
    ensures Open(es[..n], id) <==> i < n <= r
  {
    PrefixAt(es, n);
    if i < n <= r {
      assert ApprovesAt(es[..n], id, i) && forall k: nat :: i < k ==> !RejectsAt(es[..n], id, k);
    } else if r < n {
      assert RejectsAt(es[..n], id, r);
    }
  }

  lemma LaterBetween(es: seq<Event>, one: string, two: string, i: nat, j: nat, n: nat)
    requires Once(es) && ApprovesAt(es, one, i) && ApprovesAt(es, two, j) && i < n && j < n <= |es|
    ensures Later(es[..n], one, two) <==> i < j
  {
    PrefixAt(es, n);
    assert ApprovesAt(es[..n], one, i) && ApprovesAt(es[..n], two, j);
  }

  lemma OvertakenIsCrossed(es: seq<Event>, one: string, two: string, i: nat, r: nat, j: nat, s: nat)
    requires Once(es) && one != two && DecidedAt(es, one, i, r) && DecidedAt(es, two, j, s)
    ensures Overtaken(es, one, two) <==> Crossed(es, one, two)
  {
    hide Open, Later;
    OpenBetween(es, one, i, r, r);
    OpenBetween(es, two, j, s, r);
    if j < r {
      LaterBetween(es, one, two, i, j, r);
    }
    assert OvertakesAt(es, one, two, r) <==> i < j < r <= s;
    assert r != s;
    if Crossed(es, one, two) {
      assert OvertakesAt(es, one, two, r);
    }
    if k: nat :| OvertakesAt(es, one, two, k) {
      assert k == r && i < j < r < s;
    }
  }

  /**
   * Each proposal approved once and rejected once, in any interleaving: the companies show again what
   * they showed at first if and only if no two that share a field cross, the second approved while the
   * first stands and rejected after it.
   */
  lemma {:induction false} CompleteEditsReturnExactlyWhen(db: Db, ids: set<string>, es: seq<Event>)
    requires ValidDb(db) && Undecided(db, ids) && DecidesEach(es, ids) && Differ(db, ids) && DecidedTwice(es, ids)
    ensures Live(Run(db, es)) == Live(db) <==>
      forall one, two :: one in ids && two in ids && one != two && Share(db, one, two) ==> !Crossed(es, one, two)
  {
    hide Run, Live, Open, Overtaken, Crossed, Once, Differ, Undecided, Share;
    EditsReturnExactlyWhen(db, ids, es);
    forall id | id in ids ensures !Open(es, id) {
      var i: nat, r: nat :| DecidedAt(es, id, i, r);
      OpenBetween(es, id, i, r, |es|);
      assert es[..|es|] == es;
    }
    forall one, two | one in ids && two in ids
      ensures Overtaken(es, one, two) <==> one != two && Crossed(es, one, two)
    {
      if one == two {
        NotByItself(es, one);
      } else {
        var i: nat, r: nat :| DecidedAt(es, one, i, r);
        var j: nat, s: nat :| DecidedAt(es, two, j, s);
        OvertakenIsCrossed(es, one, two, i, r, j, s);
      }
    }
  }

  lemma NotByItself(es: seq<Event>, id: string)
    requires Once(es)
    ensures !Overtaken(es, id, id)
  {
    forall k: nat | k <= |es| ensures !Later(es[..k], id, id) {
      PrefixAt(es, k);
    }
  }

  // ----- values that stand for something ----------------------------------------------------------------------

  /** No other proposal that is approved proposes one of these values for the same field. */
  ghost predicate Unmatched(db: Db, ids: set<string>) {
    forall id, o, c, f ::
      (id in ids && o in db.proposals && o !in ids && db.proposals[o].status == APPROVED
        && Edits(db, id, c, f) && Edits(db, o, c, f)) ==>
        ValueOf(db, o, f) != ValueOf(db, id, f)
  }

  /** On no field has an overtaken edit come to light again. */
  ghost predicate NoneUncovered(db: Db, ids: set<string>, es: seq<Event>) {
    forall c, f, one :: c in db.companies && f in db.companies[c].columns ==>
      !Uncovered(es, EditsOf(db, ids, c, f), one)
  }

  lemma OpenTopStands(db: Db, ids: set<string>, es: seq<Event>, now: Db, top: string, c: string, f: string)
    requires Follows(db, ids, es, now) && top in ids && Edits(db, top, c, f) && Open(es, top)
    requires ValidDb(db)
    ensures Stands(Live(db), now, None, c, f, ValueOf(db, top, f))
  {
    hide Open, Live, Approves;
    assert ValidProposal(db.proposals[top], db.companies);
    assert top in now.proposals && Proposes(now.proposals[top], c, f, ValueOf(db, top, f));
  }

  lemma BuriedTopStandsForNothing(
    db: Db, ids: set<string>, es: seq<Event>, now: Db, pile: seq<string>, c: string, f: string
  )
    requires ValidDb(db) && Follows(db, ids, es, now) && Differ(db, ids) && Unmatched(db, ids)
    requires c in db.companies && f in db.companies[c].columns
    requires pile != [] && (forall x :: x in pile ==> x in EditsOf(db, ids, c, f)) && !Open(es, pile[|pile| - 1])
    requires exists o :: o in EditsOf(db, ids, c, f) && o != pile[|pile| - 1]
    ensures !Stands(Live(db), now, None, c, f, Under(db, c, f, pile, |pile|))
  {
    hide Open, Approves, Differ;
    var top := pile[|pile| - 1];
    var value := Under(db, c, f, pile, |pile|);
    assert top in pile;
    var other :| other in EditsOf(db, ids, c, f) && other != top;
    TopDiffers(db, ids, c, f, pile, other);
    forall o | o in now.proposals ensures !Proposes(now.proposals[o], c, f, value) {
      if Proposes(now.proposals[o], c, f, value) {
        assert ValidProposal(db.proposals[o], db.companies);
        assert Edits(db, o, c, f) && ValueOf(db, o, f) == value;
        if o in ids {
          TopDiffers(db, ids, c, f, pile, o);
        }
      }
    }
  }

  lemma FieldBacked(db: Db, ids: set<string>, es: seq<Event>, c: string, f: string)
    requires ValidDb(db) && Undecided(db, ids) && DecidesEach(es, ids) && Differ(db, ids) && Unmatched(db, ids)
    requires c in db.companies && f in db.companies[c].columns
    ensures var now := Run(db, es);
      && c in now.companies && f in now.companies[c].columns
      && (Backed(Live(db), now, c, f) <==> !exists one :: Uncovered(es, EditsOf(db, ids, c, f), one))
  {
    hide Open, Once, Differ, Run, Edits, Follows, Unmatched, Uncovered, Stands;
    var touching, now := EditsOf(db, ids, c, f), Run(db, es);
    var pile := Pile(es, touching);
    RunShowsTop(db, ids, es, c, f);
    RunFollows(db, ids, es);
    PileFacts(es, touching);
    TopBuriedExactlyWhen(es, touching);
    if pile == [] {
      FirstStands(db, now, c, f);
    } else {
      var top := pile[|pile| - 1];
      assert top in pile;
      if Open(es, top) {
        OpenTopStands(db, ids, es, now, top, c, f);
      } else {
        var one :| Uncovered(es, touching, one);
        UncoveredByOther(es, touching, one);
        BuriedTopStandsForNothing(db, ids, es, now, pile, c, f);
      }
    }
  }

  lemma UncoveredByOther(es: seq<Event>, touching: set<string>, one: string)
    requires Once(es)
    ensures Uncovered(es, touching, one) ==> one in touching && exists two :: two in touching && two != one
  {
    hide OvertakenIn, Open, Later;
    OvertakenByOther(es, touching, one);
  }

  lemma FirstStands(db: Db, now: Db, c: string, f: string)
    requires c in db.companies && f in db.companies[c].columns
    ensures Stands(Live(db), now, None, c, f, db.companies[c].columns[f])
  {
  }

  /**
   * At the end of any such decisions every value shown is a first one or an approved one if and only if
   * no overtaken edit has come to light again: one rejected while an edit approved after it stood,
   * with every edit of the field approved after it rejected by now.
   */
  lemma {:induction false} BackedExactlyWhen(db: Db, ids: set<string>, es: seq<Event>)
    requires ValidDb(db) && Undecided(db, ids) && DecidesEach(es, ids) && Differ(db, ids) && Unmatched(db, ids)
    ensures AllBacked(Live(db), Run(db, es)) <==> NoneUncovered(db, ids, es)
  {
    hide Run, Once, Differ, Undecided, Unmatched, Uncovered, Stands, EditsOf;
    var now := Run(db, es);
    LiveColumns(db);
    LiveColumns(now);
    RunKeepsColumns(db, es);
    forall c, f | c in db.companies && f in db.companies[c].columns
      ensures c in now.companies && f in now.companies[c].columns
      ensures Backed(Live(db), now, c, f) <==> !exists one :: Uncovered(es, EditsOf(db, ids, c, f), one)
    {
      FieldBacked(db, ids, es, c, f);
    }
  }

  lemma DecidesPrefix(es: seq<Event>, ids: set<string>, k: nat)
    requires DecidesEach(es, ids) && k <= |es|
    ensures DecidesEach(es[..k], ids)
  {
    assert forall id, j: nat :: ApprovesAt(es[..k], id, j) ==> ApprovesAt(es, id, j);
  }

  /** And so at every moment of a run exactly when none comes to light at any. */
  lemma {:induction false} BackedThroughoutExactlyWhen(db: Db, ids: set<string>, es: seq<Event>)
    requires ValidDb(db) && Undecided(db, ids) && DecidesEach(es, ids) && Differ(db, ids) && Unmatched(db, ids)
    ensures BackedThroughout(db, es) <==> forall k: nat :: k <= |es| ==> NoneUncovered(db, ids, es[..k])
  {
    hide Run, DecidesEach, Differ, Undecided, Unmatched, NoneUncovered, AllBacked, Live;
    forall k: nat | k <= |es| ensures BackedAt(db, es, k) <==> NoneUncovered(db, ids, es[..k]) {
      DecidesPrefix(es, ids, k);
      BackedExactlyWhen(db, ids, es[..k]);
    }
  }
}
