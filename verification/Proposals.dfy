/**
 * Company edit proposals under moderation: approving one overwrites company
 * columns, strips partner marks, logs revisions and mints citations; rejecting
 * an approved one compares field by field and puts back what it replaced.
 *
 * The tables are values of `Db`. `Approved` and `Retracted` say what one decision
 * does to them; class `AdminService` is the code, proved to do exactly that.
 */
module Proposals {
  import opened Basics

  /** A column value as the JSON of a revision stores it. */
  datatype Value = Null | Num(n: int) | Text(s: string) | Texts(ss: seq<string>)

  datatype Decision = Decision(reviewedAt: int, reviewedById: string)

  /** A JSON object: its keys in order, and the value of each. */
  datatype Diff = Diff(keys: seq<string>, values: map<string, Value>) {
    ghost predicate Valid() {
      && Distinct(keys)
      && (forall k :: k in keys <==> k in values)
    }
  }

  const EMPTY_DIFF := Diff([], map[])

  /** A company row: its editable columns, and what says which of them are the partner's. */
  datatype Company = Company(
    columns: map<string, Value>,
    partnerFields: seq<string>,
    partnerOnly: bool,
    partnerIdentifiers: nat
  )

  datatype Proposal = Proposal(
    companyId: string,
    changes: Diff,
    sourceUrl: Option<string>,
    submittedById: Option<string>,
    status: ReviewStatus,
    review: Option<Decision>,
    clearedPartnerFields: Option<seq<string>>
  )

  datatype Action = UPDATE | RETRACT

  datatype Revision = Revision(
    companyId: string,
    field: string,
    before: Value,
    after: Value,
    action: Action,
    actorUserId: string,
    proposalId: string
  )

  /** The unique key of a citation. `Source.url` is unique, so the URL names the source. */
  datatype CitationKey = CitationKey(url: string, companyId: string, field: string)

  /** `citations` maps each key to the user it was minted under. */
  datatype Db = Db(
    companies: map<string, Company>,
    proposals: map<string, Proposal>,
    revisions: seq<Revision>,
    sources: set<string>,
    citations: map<CitationKey, Option<string>>
  )

  /** Foreign keys hold, and a diff names only columns the company has (the DTO's whitelist). */
  ghost predicate ValidDb(db: Db) {
    && (forall id :: id in db.proposals ==> ValidProposal(db.proposals[id], db.companies))
    && (forall key :: key in db.citations ==> key.url in db.sources)
  }

  ghost predicate ValidProposal(p: Proposal, companies: map<string, Company>) {
    && p.companyId in companies
    && p.changes.Valid()
    && (forall f :: f in p.changes.keys ==> f in companies[p.companyId].columns)
  }

  // ----- approving ---------------------------------------------------------------

  /** `if (proposal.sourceUrl)`: neither null nor the empty string. */
  predicate Cites(p: Proposal) {
    p.sourceUrl.Some? && p.sourceUrl.value != ""
  }

  function UpdateRevisions(p: Proposal, id: string, before: map<string, Value>, admin: string): (rs: seq<Revision>)
    requires p.changes.Valid() && forall f :: f in p.changes.keys ==> f in before
  {
    seq(|p.changes.keys|, i requires 0 <= i < |p.changes.keys| =>
      var f := p.changes.keys[i];
      Revision(p.companyId, f, before[f], p.changes.values[f], UPDATE, admin, id))
  }

  /** One citation per changed field; `skipDuplicates` keeps the row that is there. */
  function Minted(p: Proposal, citations: map<CitationKey, Option<string>>): map<CitationKey, Option<string>>
    requires Cites(p)
  {
    (map f | f in p.changes.keys :: CitationKey(p.sourceUrl.value, p.companyId, f) := p.submittedById) + citations
  }

  function Approved(db: Db, id: string, d: Decision): Db
    requires id in db.proposals && ValidProposal(db.proposals[id], db.companies)
  {
    var p := db.proposals[id];
    var row := db.companies[p.companyId];
    Db(
      db.companies[p.companyId := row.(
        columns := row.columns + p.changes.values,
        partnerFields := Drop(row.partnerFields, p.changes.keys))],
      db.proposals[id := p.(
        status := APPROVED,
        review := Some(d),
        clearedPartnerFields := Some(Keep(row.partnerFields, p.changes.keys)))],
      db.revisions + UpdateRevisions(p, id, row.columns, d.reviewedById),
      if Cites(p) then db.sources + {p.sourceUrl.value} else db.sources,
      if Cites(p) then Minted(p, db.citations) else db.citations)
  }

  /** `diff` written over a row's columns: its fields take its values and no other column moves. */
  ghost predicate Overwrites(diff: Diff, before: map<string, Value>, after: map<string, Value>) {
    && after.Keys == before.Keys
    && forall f :: f in before ==>
         || (f in diff.keys && f in diff.values && after[f] == diff.values[f])
         || (f !in diff.keys && after[f] == before[f])
  }

  /** The marks of the written fields go; `cleared`, if any, lists exactly those that went. */
  ghost predicate Unmarks(fields: seq<string>, before: seq<string>, after: seq<string>, cleared: Option<seq<string>>) {
    && (forall f :: f in after <==> f in before && f !in fields)
    && cleared.Some? && forall f :: f in cleared.value <==> f in before && f in fields
  }

  /** One new UPDATE entry per field, in the diff's order, from the value the row had. */
  ghost predicate Logs(db: Db, id: string, admin: string, log: seq<Revision>)
    requires id in db.proposals && ValidProposal(db.proposals[id], db.companies)
  {
    var p := db.proposals[id];
    var n := |db.revisions|;
    && db.revisions <= log && |log| == n + |p.changes.keys|
    && forall i :: n <= i < |log| ==>
         var f := p.changes.keys[i - n];
         && log[i].companyId == p.companyId && log[i].field == f && log[i].proposalId == id
         && log[i].action == UPDATE && log[i].actorUserId == admin
         && log[i].before == db.companies[p.companyId].columns[f] && log[i].after == p.changes.values[f]
  }

  /** Every citation that was there stays as it was; a field without one gets it under the submitter. */
  ghost predicate CitesFields(
    p: Proposal, before: map<CitationKey, Option<string>>, after: map<CitationKey, Option<string>>
  ) {
    forall key: CitationKey ::
      && (key in before ==> key in after && after[key] == before[key])
      && (key !in before ==>
           (key in after <==>
             && p.sourceUrl == Some(key.url) && key.url != ""
             && key.companyId == p.companyId && key.field in p.changes.keys))
      && (key !in before && key in after ==> after[key] == p.submittedById)
  }

  /** What approving a proposal does, table by table. */
  ghost predicate Applies(db: Db, id: string, d: Decision, db': Db)
    requires id in db.proposals && ValidProposal(db.proposals[id], db.companies)
  {
    var p := db.proposals[id];
    var c := p.companyId;
    && c in db'.companies && id in db'.proposals
    && (forall o :: o != c ==> (o in db'.companies <==> o in db.companies))
    && (forall o :: o in db.companies && o != c ==> db'.companies[o] == db.companies[o])
    && (forall o :: o != id ==> (o in db'.proposals <==> o in db.proposals))
    && (forall o :: o in db.proposals && o != id ==> db'.proposals[o] == db.proposals[o])
    && Overwrites(p.changes, db.companies[c].columns, db'.companies[c].columns)
    && Unmarks(p.changes.keys, db.companies[c].partnerFields, db'.companies[c].partnerFields,
         db'.proposals[id].clearedPartnerFields)
    && db'.companies[c].partnerOnly == db.companies[c].partnerOnly
    && db'.companies[c].partnerIdentifiers == db.companies[c].partnerIdentifiers
    && db'.proposals[id].status == APPROVED && db'.proposals[id].review == Some(d)
    && db'.proposals[id].changes == p.changes && db'.proposals[id].companyId == c
    && Logs(db, id, d.reviewedById, db'.revisions)
    && CitesFields(p, db.citations, db'.citations)
  }

  lemma ApprovalApplies(db: Db, id: string, d: Decision)
    requires id in db.proposals && ValidProposal(db.proposals[id], db.companies)
    ensures Applies(db, id, d, Approved(db, id, d))
  {
    var p := db.proposals[id];
    MintedCites(p, db.citations);
  }

  lemma MintedCites(p: Proposal, citations: map<CitationKey, Option<string>>)
    ensures CitesFields(p, citations, if Cites(p) then Minted(p, citations) else citations)
  {
    if Cites(p) {
      forall key: CitationKey | key !in citations
        ensures key in Minted(p, citations) <==>
          p.sourceUrl == Some(key.url) && key.companyId == p.companyId && key.field in p.changes.keys
      {
        if p.sourceUrl == Some(key.url) && key.companyId == p.companyId && key.field in p.changes.keys {
          assert key == CitationKey(p.sourceUrl.value, p.companyId, key.field);
        }
      }
    }
  }

  // ----- retracting --------------------------------------------------------------

  predicate Mine(r: Revision, id: string, field: string) {
    r.proposalId == id && r.action == UPDATE && r.field == field
  }

  /** The newest UPDATE entry of the proposal on this field. */
  function Newest(log: seq<Revision>, id: string, field: string): Option<Revision> {
    if log == [] then None
    else if Mine(log[|log| - 1], id, field) then Some(log[|log| - 1])
    else Newest(log[..|log| - 1], id, field)
  }

  /** The newest UPDATE entry of the proposal on this field that changed something. */
  function NewestReal(log: seq<Revision>, id: string, field: string): Option<Revision> {
    if log == [] then None
    else if Mine(log[|log| - 1], id, field) && log[|log| - 1].before != log[|log| - 1].after then
      Some(log[|log| - 1])
    else NewestReal(log[..|log| - 1], id, field)
  }

  function Replaced(log: seq<Revision>, id: string, field: string): Option<Revision> {
    var changing := NewestReal(log, id, field);
    if changing.Some? then changing else Newest(log, id, field)
  }

  /** What a retraction does to one field: report it skipped, leave it, or put a value back. */
  datatype Verdict = Skip | Stay | Restore(before: Value)

  function Judge(log: seq<Revision>, id: string, field: string, live: Value, proposed: Value): Verdict {
    var replaced := Replaced(log, id, field);
    if replaced.None? || live != proposed then Skip
    else if replaced.value.before != proposed then Restore(replaced.value.before)
    else Stay
  }

  datatype Sweep = Sweep(restored: Diff, skipped: seq<string>)

  /** The verdicts on the first `n` fields of the diff, collected in order. */
  function Swept(log: seq<Revision>, id: string, live: map<string, Value>, changes: Diff, n: nat): (s: Sweep)
    requires changes.Valid() && n <= |changes.keys|
    requires forall f :: f in changes.keys ==> f in live
  {
    if n == 0 then Sweep(EMPTY_DIFF, [])
    else
      var s := Swept(log, id, live, changes, n - 1);
      var f := changes.keys[n - 1];
      match Judge(log, id, f, live[f], changes.values[f])
      case Skip => s.(skipped := s.skipped + [f])
      case Stay => s
      case Restore(v) => s.(restored := Diff(s.restored.keys + [f], s.restored.values[f := v]))
  }

  lemma KeysPush(keys: seq<string>, n: nat)
    requires Distinct(keys) && 0 < n <= |keys|
    ensures forall f :: f in keys[..n] <==> f in keys[..n - 1] || f == keys[n - 1]
    ensures keys[n - 1] !in keys[..n - 1]
  {
    assert keys[..n] == keys[..n - 1] + [keys[n - 1]];
  }

  /** Each verdict lands in the list it belongs to, and nothing else does. */
  lemma {:induction false} SweptExactly(log: seq<Revision>, id: string, live: map<string, Value>, changes: Diff, n: nat)
    requires changes.Valid() && n <= |changes.keys|
    requires forall f :: f in changes.keys ==> f in live
    ensures var s := Swept(log, id, live, changes, n);
      && s.restored.Valid()
      && Distinct(s.skipped)
      && (forall f :: f in s.skipped <==>
           f in changes.keys[..n] && Judge(log, id, f, live[f], changes.values[f]).Skip?)
      && (forall f :: f in s.restored.keys <==>
           f in changes.keys[..n] && Judge(log, id, f, live[f], changes.values[f]).Restore?)
      && (forall f :: f in s.restored.keys ==>
           s.restored.values[f] == Judge(log, id, f, live[f], changes.values[f]).before)
  {
    hide Judge;
    if n > 0 {
      SweptExactly(log, id, live, changes, n - 1);
      KeysPush(changes.keys, n);
    }
  }

  /** The fields whose restored value is not null, in order. */
  function NonNull(restored: Diff, n: nat): (r: seq<string>)
    requires n <= |restored.keys| && forall k :: k in restored.keys ==> k in restored.values
    ensures forall f :: f in r <==> f in restored.keys[..n] && restored.values[f] != Null
  {
    if n == 0 then []
    else
      assert restored.keys[..n] == restored.keys[..n - 1] + [restored.keys[n - 1]];
      var f := restored.keys[n - 1];
      NonNull(restored, n - 1) + if restored.values[f] != Null then [f] else []
  }

  /** Signs that the partner may have written to the row. */
  predicate TouchedByPartner(row: Company) {
    row.partnerOnly || row.partnerIdentifiers > 0
  }

  /** The marks a retraction adds: the recorded ones among the fields it restores, or, where none were
      recorded, every field restored to a non-null value if the partner touched the row at all. */
  function MarksToRestore(touched: bool, cleared: Option<seq<string>>, restored: Diff): seq<string>
    requires restored.Valid()
  {
    match cleared
    case Some(marks) => Keep(restored.keys, marks)
    case None =>
      if touched then NonNull(restored, |restored.keys|) else []
  }

  function RetractRevisions(
    p: Proposal, id: string, live: map<string, Value>, restored: Diff, admin: string
  ): (rs: seq<Revision>)
    requires restored.Valid() && forall f :: f in restored.keys ==> f in live
  {
    seq(|restored.keys|, i requires 0 <= i < |restored.keys| =>
      var f := restored.keys[i];
      Revision(p.companyId, f, live[f], restored.values[f], RETRACT, admin, id))
  }

  /** Some other edit that is approved now rests on the same source in this field. */
  predicate StillCited(proposals: map<string, Proposal>, id: string, p: Proposal, field: string) {
    exists o :: o in proposals && o != id
      && proposals[o].companyId == p.companyId && proposals[o].sourceUrl == p.sourceUrl
      && proposals[o].status == APPROVED && field in proposals[o].changes.keys
  }

  /** The citations a retraction of `fields` deletes. */
  predicate Unminted(
    proposals: map<string, Proposal>, citations: map<CitationKey, Option<string>>,
    id: string, p: Proposal, fields: seq<string>, key: CitationKey)
  {
    && Cites(p)
    && key in citations
    && key.url == p.sourceUrl.value && key.companyId == p.companyId
    && key.field in fields && !StillCited(proposals, id, p, key.field)
    && citations[key] == p.submittedById
  }

  function Reverted(db: Db, id: string): Sweep
    requires id in db.proposals && ValidProposal(db.proposals[id], db.companies)
  {
    var p := db.proposals[id];
    Swept(db.revisions, id, db.companies[p.companyId].columns, p.changes, |p.changes.keys|)
  }

  function Retracted(db: Db, id: string, d: Decision): Db
    requires id in db.proposals && ValidProposal(db.proposals[id], db.companies)
  {
    var p := db.proposals[id];
    var row := db.companies[p.companyId];
    var restored := Reverted(db, id).restored;
    SweptExactly(db.revisions, id, row.columns, p.changes, |p.changes.keys|);
    var marks := MarksToRestore(TouchedByPartner(row), p.clearedPartnerFields, restored);
    Db(
      db.companies[p.companyId := row.(
        columns := row.columns + restored.values,
        partnerFields := row.partnerFields + Drop(marks, row.partnerFields))],
      db.proposals[id := p.(status := REJECTED, review := Some(d))],
      db.revisions + RetractRevisions(p, id, row.columns, restored, d.reviewedById),
      db.sources,
      map key | key in db.citations && !Unminted(db.proposals, db.citations, id, p, restored.keys, key) ::
        db.citations[key])
  }

  // ----- one moderation decision --------------------------------------------------

  /** `moderate` on a proposal: an approval, a retraction, or a plain rejection. */
  datatype Event = Approve(id: string, decision: Decision) | Reject(id: string, decision: Decision)

  function Moderated(db: Db, e: Event): Db
    requires ValidDb(db)
  {
    if e.id !in db.proposals then db
    else if e.Approve? then Approved(db, e.id, e.decision)
    else if db.proposals[e.id].status == APPROVED then Retracted(db, e.id, e.decision)
    else db.(proposals := db.proposals[e.id := db.proposals[e.id].(status := REJECTED, review := Some(e.decision))])
  }

  lemma ModeratedValid(db: Db, e: Event)
    requires ValidDb(db)
    ensures ValidDb(Moderated(db, e))
    ensures Moderated(db, e).companies.Keys == db.companies.Keys
    ensures Moderated(db, e).proposals.Keys == db.proposals.Keys
  {
    if e.id in db.proposals {
      var p := db.proposals[e.id];
      var db' := Moderated(db, e);
      forall o | o in db'.proposals
        ensures ValidProposal(db'.proposals[o], db'.companies)
      {
        assert ValidProposal(db.proposals[o], db.companies);
      }
    }
  }
}
