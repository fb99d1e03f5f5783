/**
 * What holds over whole runs of moderation decisions on any number of proposals:
 * the revision log explains the live rows, a retraction goes back to what an
 * approval replaced, and every published field keeps its citation.
 */
module ProposalRuns {
  import opened Basics
  import opened Proposals

  type Rows = map<string, map<string, Value>>

  /** The editable columns every company shows now. */
  function Live(db: Db): Rows {
    map c | c in db.companies :: db.companies[c].columns
  }

  function Run(db: Db, es: seq<Event>): (r: Db)
    requires ValidDb(db)
    ensures ValidDb(r) && r.companies.Keys == db.companies.Keys && r.proposals.Keys == db.proposals.Keys
  {
    if es == [] then db
    else
      var before := Run(db, es[..|es| - 1]);
      ModeratedValid(before, es[|es| - 1]);
      Moderated(before, es[|es| - 1])
  }

  // ----- the log replays to the live rows ------------------------------------------

  function Replay(rows: Rows, log: seq<Revision>): Rows {
    if log == [] then rows
    else
      var before := Replay(rows, log[..|log| - 1]);
      var r := log[|log| - 1];
      if r.companyId in before then before[r.companyId := before[r.companyId][r.field := r.after]] else before
  }

  /** Each entry's `before` is what the rows showed at that point of the log. */
  ghost predicate Chained(rows: Rows, log: seq<Revision>) {
    forall i :: 0 <= i < |log| ==> Follows(Replay(rows, log[..i]), log[i])
  }

  predicate Follows(rows: Rows, r: Revision) {
    r.companyId in rows && r.field in rows[r.companyId] && rows[r.companyId][r.field] == r.before
  }

  lemma {:induction false} ReplayConcat(rows: Rows, a: seq<Revision>, b: seq<Revision>)
    ensures Replay(rows, a + b) == Replay(Replay(rows, a), b)
  {
    if b == [] {
      assert a + b == a;
    } else {
      assert (a + b)[..|a + b| - 1] == a + b[..|b| - 1];
      ReplayConcat(rows, a, b[..|b| - 1]);
    }
  }

  lemma ChainedConcat(rows: Rows, a: seq<Revision>, b: seq<Revision>)
    requires Chained(rows, a) && Chained(Replay(rows, a), b)
    ensures Chained(rows, a + b)
  {
    forall i | 0 <= i < |a + b|
      ensures Follows(Replay(rows, (a + b)[..i]), (a + b)[i])
    {
      if i < |a| {
        assert (a + b)[..i] == a[..i];
      } else {
        assert (a + b)[..i] == a + b[..i - |a|];
        ReplayConcat(rows, a, b[..i - |a|]);
        assert Follows(Replay(Replay(rows, a), b[..i - |a|]), b[i - |a|]);
      }
    }
  }

  function First(diff: Diff, n: nat): map<string, Value>
    requires n <= |diff.keys| && forall k :: k in diff.keys ==> k in diff.values
  {
    map f | f in diff.keys[..n] :: diff.values[f]
  }

  /** The entries of one decision: one per key of the diff, from the row's value to the new one. */
  ghost predicate Batch(rows: Rows, c: string, diff: Diff, log: seq<Revision>) {
    && c in rows && diff.Valid() && |log| == |diff.keys|
    && forall i :: 0 <= i < |log| ==> Moves(rows[c], c, diff.keys[i], diff.values[diff.keys[i]], log[i])
  }

  predicate Moves(row: map<string, Value>, c: string, f: string, to: Value, r: Revision) {
    f in row && r.companyId == c && r.field == f && r.before == row[f] && r.after == to
  }

  lemma ChainedPush(rows: Rows, log: seq<Revision>, n: nat)
    requires 0 < n <= |log|
    requires Chained(rows, log[..n - 1]) && Follows(Replay(rows, log[..n - 1]), log[n - 1])
    ensures Chained(rows, log[..n])
  {
    forall i | 0 <= i < n
      ensures Follows(Replay(rows, log[..n][..i]), log[..n][i])
    {
      assert log[..n][..i] == log[..i];
      if i < n - 1 {
        assert log[..n - 1][..i] == log[..i];
        assert Follows(Replay(rows, log[..n - 1][..i]), log[..n - 1][i]);
      }
    }
  }

  lemma {:induction false} ReplayBatch(rows: Rows, c: string, diff: Diff, log: seq<Revision>, n: nat)
    requires Batch(rows, c, diff, log) && n <= |log|
    ensures Replay(rows, log[..n]) == rows[c := rows[c] + First(diff, n)]
    ensures Chained(rows, log[..n])
  {
    if n == 0 {
      assert rows[c] + First(diff, 0) == rows[c];
      assert rows[c := rows[c]] == rows;
    } else {
      ReplayBatch(rows, c, diff, log, n - 1);
      BatchPush(rows, c, diff, log, n, Replay(rows, log[..n - 1]));
      ChainedPush(rows, log, n);
      assert log[..n][..n - 1] == log[..n - 1];
    }
  }

  lemma BatchPush(rows: Rows, c: string, diff: Diff, log: seq<Revision>, n: nat, mid: Rows)
    requires Batch(rows, c, diff, log) && 0 < n <= |log|
    requires mid == rows[c := rows[c] + First(diff, n - 1)]
    ensures Follows(mid, log[n - 1])
    ensures mid[c := mid[c][log[n - 1].field := log[n - 1].after]] == rows[c := rows[c] + First(diff, n)]
  {
    hide First;
    var f := diff.keys[n - 1];
    assert Moves(rows[c], c, f, diff.values[f], log[n - 1]);
    FirstPush(diff, n);
    assert rows[c] + First(diff, n) == (rows[c] + First(diff, n - 1))[f := diff.values[f]];
  }

  lemma FirstPush(diff: Diff, n: nat)
    requires diff.Valid() && 0 < n <= |diff.keys|
    ensures First(diff, n) == First(diff, n - 1)[diff.keys[n - 1] := diff.values[diff.keys[n - 1]]]
    ensures diff.keys[n - 1] !in First(diff, n - 1)
  {
    assert diff.keys[..n] == diff.keys[..n - 1] + [diff.keys[n - 1]];
  }

  /** `added` is what was logged between two states, and it accounts for every column. */
  ghost predicate Explains(db: Db, added: seq<Revision>, db': Db) {
    && db'.revisions == db.revisions + added
    && Chained(Live(db), added)
    && Replay(Live(db), added) == Live(db')
  }

  lemma ExplainsTransitive(a: Db, one: seq<Revision>, b: Db, two: seq<Revision>, c: Db)
    requires Explains(a, one, b) && Explains(b, two, c)
    ensures Explains(a, one + two, c)
  {
    ReplayConcat(Live(a), one, two);
    ChainedConcat(Live(a), one, two);
    assert a.revisions + one + two == a.revisions + (one + two);
  }

  lemma FirstAll(diff: Diff)
    requires diff.Valid()
    ensures First(diff, |diff.keys|) == diff.values
  {
    assert diff.keys[..|diff.keys|] == diff.keys;
  }

  lemma BatchExplains(db: Db, c: string, diff: Diff, added: seq<Revision>, row: Company, db': Db)
    requires Batch(Live(db), c, diff, added) && db'.revisions == db.revisions + added
    requires db'.companies == db.companies[c := row]
    requires row.columns == Live(db)[c] + diff.values
    ensures Explains(db, added, db')
  {
    assert Live(db') == Live(db)[c := row.columns];
    FirstAll(diff);
    BatchReplays(Live(db), c, diff, added);
  }

  lemma BatchReplays(rows: Rows, c: string, diff: Diff, log: seq<Revision>)
    requires Batch(rows, c, diff, log)
    ensures Replay(rows, log) == rows[c := rows[c] + First(diff, |diff.keys|)]
    ensures Chained(rows, log)
  {
    ReplayBatch(rows, c, diff, log, |log|);
    assert log[..|log|] == log;
  }

  /** One decision appends entries that chain on the live rows and lead to the new ones. */
  lemma StepExplained(db: Db, e: Event) returns (added: seq<Revision>)
    requires ValidDb(db)
    ensures Explains(db, added, Moderated(db, e))
  {
    added := [];
    if e.id in db.proposals && (e.Approve? || db.proposals[e.id].status == APPROVED) {
      if e.Approve? {
        added := ApprovalExplained(db, e.id, e.decision);
      } else {
        added := RetractionExplained(db, e.id, e.decision);
      }
    } else {
      assert Live(Moderated(db, e)) == Live(db);
    }
  }

  lemma ApprovalExplained(db: Db, id: string, d: Decision) returns (added: seq<Revision>)
    requires ValidDb(db) && id in db.proposals
    ensures Explains(db, added, Approved(db, id, d))
    ensures added == UpdateRevisions(db.proposals[id], id, Live(db)[db.proposals[id].companyId], d.reviewedById)
  {
    var p := db.proposals[id];
    added := UpdateRevisions(p, id, db.companies[p.companyId].columns, d.reviewedById);
    var db' := Approved(db, id, d);
    BatchExplains(db, p.companyId, p.changes, added, db'.companies[p.companyId], db');
  }

  lemma RetractionExplained(db: Db, id: string, d: Decision) returns (added: seq<Revision>)
    requires ValidDb(db) && id in db.proposals
    ensures Explains(db, added, Retracted(db, id, d))
  {
    var p := db.proposals[id];
    var columns := db.companies[p.companyId].columns;
    var restored := Reverted(db, id).restored;
    SweptExactly(db.revisions, id, columns, p.changes, |p.changes.keys|);
    added := RetractRevisions(p, id, columns, restored, d.reviewedById);
    var db' := Retracted(db, id, d);
    BatchExplains(db, p.companyId, restored, added, db'.companies[p.companyId], db');
  }

  /** Over any run, the entries it logged chain from the first row to the live one. */
  lemma {:induction false} LogExplainsRows(db: Db, es: seq<Event>) returns (added: seq<Revision>)
    requires ValidDb(db)
    ensures Explains(db, added, Run(db, es))
  {
    if es == [] {
      added := [];
    } else {
      var mid := Run(db, es[..|es| - 1]);
      var earlier := LogExplainsRows(db, es[..|es| - 1]);
      var last := StepExplained(mid, es[|es| - 1]);
      ExplainsTransitive(db, earlier, mid, last, Moderated(mid, es[|es| - 1]));
      added := earlier + last;
    }
  }

  predicate SameField(r: Revision, s: Revision) {
    r.companyId == s.companyId && r.field == s.field
  }

  /** In a chained log, each entry of a field starts from where the previous one left it. */
  lemma {:induction false} EntriesLink(rows: Rows, log: seq<Revision>, i: nat, j: nat)
    requires Chained(rows, log) && i < j < |log| && SameField(log[i], log[j])
    requires forall k :: i < k < j ==> !SameField(log[i], log[k])
    ensures log[i].after == log[j].before
  {
    assert Follows(Replay(rows, log[..i]), log[i]);
    assert Follows(Replay(rows, log[..j]), log[j]);
    ShownAfter(rows, log, i, j);
  }

  lemma {:induction false} ShownAfter(rows: Rows, log: seq<Revision>, i: nat, j: nat)
    requires i < j <= |log| && log[i].companyId in Replay(rows, log[..i])
    requires forall k :: i < k < j ==> !SameField(log[i], log[k])
    ensures var shown := Replay(rows, log[..j]);
      log[i].companyId in shown && log[i].field in shown[log[i].companyId]
      && shown[log[i].companyId][log[i].field] == log[i].after
  {
    assert log[..j][..j - 1] == log[..j - 1];
    if j > i + 1 {
      ShownAfter(rows, log, i, j - 1);
      assert !SameField(log[i], log[j - 1]);
    }
  }
}
