/**
 * One table of the snapshot: rows are batched into an index keyed by the row's key, which
 * detects duplicates and sorts. The outcome is a matter of the set of rows alone.
 */
module SnapshotTable {
  import opened Basics
  import opened CopyText
  import CopyReader
  import opened StringOrder

  /** What separates the parts of a key in the index. */
  const UNIT_SEPARATOR: byte := 31

  type Fields = seq<Option<bytes>>

  /** A wanted table: its expected columns, where its key parts are, and how a row is converted
      and rendered (`None`: a value no converter accepts). */
  datatype Stage = Stage(columns: seq<bytes>, keys: seq<nat>, render: Fields -> Option<string>)

  predicate ValidStage(stage: Stage) {
    stage.keys != [] && forall i :: 0 <= i < |stage.keys| ==> stage.keys[i] < |stage.columns|
  }

  datatype Entry = Entry(key: string, line: string)

  datatype ExtractError = RowWithoutKey | UnexpectedValue | ConflictingKey(key: string)

  // ----- one row ------------------------------------------------------------------------------

  function KeyParts(stage: Stage, row: Fields): (parts: Fields)
    requires ValidStage(stage) && |row| == |stage.columns|
    ensures |parts| == |stage.keys|
  {
    seq(|stage.keys|, i requires 0 <= i < |stage.keys| => row[stage.keys[i]])
  }

  predicate Keyed(parts: Fields) {
    forall i :: 0 <= i < |parts| ==> parts[i].Some? && parts[i].value != []
  }

  function Values(parts: Fields): seq<bytes>
    requires Keyed(parts)
  {
    seq(|parts|, i requires 0 <= i < |parts| => parts[i].value)
  }

  /** A byte string as text, one character a byte: ordered as the index orders it. */
  function AsText(s: bytes): (t: string)
    ensures |t| == |s|
  {
    seq(|s|, i requires 0 <= i < |s| => s[i] as char)
  }

  function KeyOf(parts: Fields): string
    requires Keyed(parts) && parts != []
  {
    AsText(CopyReader.Join(Values(parts), UNIT_SEPARATOR))
  }

  function EntryOf(stage: Stage, row: Fields): Result<Entry, ExtractError>
    requires ValidStage(stage) && |row| == |stage.columns|
  {
    var parts := KeyParts(stage, row);
    if !Keyed(parts) then Err(RowWithoutKey)
    else if stage.render(row).None? then Err(UnexpectedValue)
    else Ok(Entry(KeyOf(parts), stage.render(row).value))
  }

  // ----- what a table's extraction is -----------------------------------------------------------

  ghost predicate Shaped(stage: Stage, rows: seq<Fields>) {
    ValidStage(stage) && forall r :: r in rows ==> |r| == |stage.columns|
  }

  /** Every row makes an entry, and two rows share a key only if they render alike. */
  ghost predicate Clean(stage: Stage, rows: seq<Fields>)
    requires Shaped(stage, rows)
  {
    && (forall r :: r in rows ==> EntryOf(stage, r).Ok?)
    && forall r, s :: r in rows && s in rows && EntryOf(stage, r).value.key == EntryOf(stage, s).value.key ==>
         EntryOf(stage, r).value.line == EntryOf(stage, s).value.line
  }

  ghost predicate Sorted(entries: seq<Entry>) {
    forall i, j :: 0 <= i < j < |entries| ==> Less(entries[i].key, entries[j].key)
  }

  datatype Extracted = Extracted(entries: seq<Entry>, inputRows: nat, duplicates: nat)

  /** The key-sorted distinct entries of the rows, and how many rows were repeats. */
  ghost predicate IsExtraction(stage: Stage, rows: seq<Fields>, out: Extracted)
    requires Shaped(stage, rows)
  {
    && Sorted(out.entries)
    && (forall e :: e in out.entries <==> exists r :: r in rows && EntryOf(stage, r) == Ok(e))
    && out.inputRows == |rows| == |out.entries| + out.duplicates
  }

  // ----- the index ----------------------------------------------------------------------------

  /** The temporary table of one stage: lines by key, kept in key order. */
  class Index {
    var rows: seq<Entry>

    constructor ()
      ensures rows == []
    {
      rows := [];
    }

    /** Where a key is, or where it belongs. */
    method Find(key: string) returns (at: nat)
      requires Sorted(rows)
      ensures at <= |rows|
      ensures forall i :: 0 <= i < at ==> Less(rows[i].key, key)
      ensures forall i :: at < i < |rows| ==> Less(key, rows[i].key)
      ensures at < |rows| ==> rows[at].key == key || Less(key, rows[at].key)
    {
      at := 0;
      while at < |rows| && Less(rows[at].key, key)
        invariant at <= |rows|
        invariant forall i :: 0 <= i < at ==> Less(rows[i].key, key)
      {
        at := at + 1;
      }
      if at < |rows| {
        LessTotal(rows[at].key, key);
        forall i | at < i < |rows| ensures Less(key, rows[i].key) {
          if key != rows[at].key {
            LessTransitive(key, rows[at].key, rows[i].key);
          }
        }
      }
    }

    /** INSERT, and on a key that is held already, the comparison with the held line. */
    method Insert(e: Entry) returns (r: Result<bool, ExtractError>)
      requires Sorted(rows)
      modifies this
      ensures Sorted(rows)
      ensures r.Err? <==> exists x :: x in old(rows) && x.key == e.key && x.line != e.line
      ensures r == Ok(true) <==> e in old(rows)
      ensures r == Ok(false) ==> |rows| == |old(rows)| + 1 && forall x :: x in rows <==> x in old(rows) || x == e
      ensures r != Ok(false) ==> rows == old(rows)
    {
      var at := Find(e.key);
      KeyOnlyAt(rows, e.key, at);
      if at < |rows| && rows[at].key == e.key {
        assert rows[at] in rows;
        return if rows[at].line != e.line then Err(ConflictingKey(e.key)) else Ok(true);
      }
      PutBetween(rows, e, at);
      rows := rows[..at] + [e] + rows[at..];
      return Ok(false);
    }
  }

  lemma KeyOnlyAt(rows: seq<Entry>, key: string, at: nat)
    requires at <= |rows|
    requires forall i :: 0 <= i < at ==> Less(rows[i].key, key)
    requires forall i :: at < i < |rows| ==> Less(key, rows[i].key)
    ensures forall i :: 0 <= i < |rows| && rows[i].key == key ==> i == at
  {
    LessIrreflexive(key);
  }

  lemma PutBetween(rows: seq<Entry>, e: Entry, at: nat)
    requires Sorted(rows) && at <= |rows|
    requires forall i :: 0 <= i < at ==> Less(rows[i].key, e.key)
    requires forall i :: at <= i < |rows| ==> Less(e.key, rows[i].key)
    ensures Sorted(rows[..at] + [e] + rows[at..])
    ensures forall x :: x in rows[..at] + [e] + rows[at..] <==> x in rows || x == e
  {
    assert rows == rows[..at] + rows[at..];
  }

  // ----- filling it, a batch at a time ------------------------------------------------------------

  predicate Conflict(a: Entry, b: Entry) {
    a.key == b.key && a.line != b.line
  }

  method Flush(index: Index, batch: seq<Entry>) returns (r: Result<nat, ExtractError>)
    requires Sorted(index.rows)
    modifies index
    ensures Sorted(index.rows)
    ensures r.Ok? ==> forall x :: x in index.rows <==> x in old(index.rows) || x in batch
    ensures r.Ok? ==> |index.rows| + r.value == |old(index.rows)| + |batch|
    ensures r.Err? ==> exists a, b :: (a in old(index.rows) || a in batch) && b in batch && Conflict(a, b)
  {
    var dups := 0;
    var i := 0;
    while i < |batch|
      invariant 0 <= i <= |batch| && Sorted(index.rows)
      invariant forall x :: x in index.rows <==> x in old(index.rows) || x in batch[..i]
      invariant |index.rows| + dups == |old(index.rows)| + i
    {
      ghost var held := index.rows;
      var inserted := index.Insert(batch[i]);
      if inserted.Err? {
        ghost var a :| a in held && a.key == batch[i].key && a.line != batch[i].line;
        assert Conflict(a, batch[i]);
        return Err(inserted.error);
      }
      assert batch[..i + 1] == batch[..i] + [batch[i]];
      if inserted.value {
        dups := dups + 1;
      }
      i := i + 1;
    }
    assert batch[..i] == batch;
    return Ok(dups);
  }

  /** The rows read so far are in the index or still in the batch, repeats counted apart. */
  ghost predicate Holds(stage: Stage, rows: seq<Fields>, index: seq<Entry>, batch: seq<Entry>, count: nat, dup: nat)
    requires Shaped(stage, rows)
  {
    && Sorted(index)
    && (forall r :: r in rows ==> EntryOf(stage, r).Ok?)
    && (forall e :: e in index || e in batch <==> exists r :: r in rows && EntryOf(stage, r) == Ok(e))
    && count == |rows| == |index| + |batch| + dup
  }

  method ExtractTable(stage: Stage, rows: seq<Fields>, batchSize: nat) returns (r: Result<Extracted, ExtractError>)
    requires Shaped(stage, rows)
    ensures r.Ok? <==> Clean(stage, rows)
    ensures r.Ok? ==> IsExtraction(stage, rows, r.value)
  {
    var index := new Index();
    var count, dup := 0, 0;
    var batch: seq<Entry> := [];
    var i := 0;
    while i < |rows|
      invariant 0 <= i <= |rows| && fresh(index)
      invariant Shaped(stage, rows[..i]) && Holds(stage, rows[..i], index.rows, batch, count, dup)
    {
      var entry := EntryOf(stage, rows[i]);
      if entry.Err? {
        assert rows[i] in rows;
        return Err(entry.error);
      }
      ReadOne(stage, rows, i, index.rows, batch, count, dup);
      batch := batch + [entry.value];
      count := count + 1;
      i := i + 1;
      if |batch| >= batchSize {
        ghost var held := index.rows;
        var flushed := Flush(index, batch);
        if flushed.Err? {
          ConflictIsDirty(stage, rows, i, held, batch, count, dup);
          return Err(flushed.error);
        }
        dup := dup + flushed.value;
        batch := [];
      }
    }
    assert rows[..i] == rows;
    ghost var held := index.rows;
    var flushed := Flush(index, batch);
    if flushed.Err? {
      ConflictIsDirty(stage, rows, i, held, batch, count, dup);
      return Err(flushed.error);
    }
    HeldIsClean(stage, rows, index.rows, count, dup + flushed.value);
    return Ok(Extracted(index.rows, count, dup + flushed.value));
  }

  lemma ReadOne(stage: Stage, rows: seq<Fields>, i: nat, index: seq<Entry>, batch: seq<Entry>, count: nat, dup: nat)
    requires Shaped(stage, rows) && i < |rows| && EntryOf(stage, rows[i]).Ok?
    requires Shaped(stage, rows[..i]) && Holds(stage, rows[..i], index, batch, count, dup)
    ensures Shaped(stage, rows[..i + 1])
    ensures Holds(stage, rows[..i + 1], index, batch + [EntryOf(stage, rows[i]).value], count + 1, dup)
  {
    hide EntryOf;
    assert rows[..i + 1] == rows[..i] + [rows[i]];
    var e := EntryOf(stage, rows[i]).value;
    forall x
      ensures x in index || x in batch + [e] <==> exists r :: r in rows[..i + 1] && EntryOf(stage, r) == Ok(x)
    {
      if x == e {
        assert rows[i] in rows[..i + 1];
      }
      if r :| r in rows[..i] && EntryOf(stage, r) == Ok(x) {
        assert r in rows[..i + 1];
      }
    }
  }

  lemma ConflictIsDirty(
    stage: Stage, rows: seq<Fields>, i: nat, index: seq<Entry>, batch: seq<Entry>, count: nat, dup: nat
  )
    requires Shaped(stage, rows) && i <= |rows| && Shaped(stage, rows[..i])
    requires Holds(stage, rows[..i], index, batch, count, dup)
    requires exists a, b :: (a in index || a in batch) && b in batch && Conflict(a, b)
    ensures !Clean(stage, rows)
  {
    var a, b :| (a in index || a in batch) && b in batch && Conflict(a, b);
    var r :| r in rows[..i] && EntryOf(stage, r) == Ok(a);
    var s :| s in rows[..i] && EntryOf(stage, s) == Ok(b);
    assert r in rows && s in rows;
  }

  lemma UniqueKeys(entries: seq<Entry>)
    requires Sorted(entries)
    ensures forall a, b :: a in entries && b in entries && a.key == b.key ==> a == b
  {
    forall a, b | a in entries && b in entries && a.key == b.key
      ensures a == b
    {
      LessIrreflexive(a.key);
    }
  }

  lemma HeldIsClean(stage: Stage, rows: seq<Fields>, index: seq<Entry>, count: nat, dup: nat)
    requires Shaped(stage, rows) && Holds(stage, rows, index, [], count, dup)
    ensures Clean(stage, rows) && IsExtraction(stage, rows, Extracted(index, count, dup))
  {
    UniqueKeys(index);
    forall r, s | r in rows && s in rows && EntryOf(stage, r).value.key == EntryOf(stage, s).value.key
      ensures EntryOf(stage, r).value.line == EntryOf(stage, s).value.line
    {
      assert EntryOf(stage, r).value in index && EntryOf(stage, s).value in index;
    }
  }

  // ----- what the outcome depends on -----------------------------------------------------------

  lemma {:induction false} SortedUnique(a: seq<Entry>, b: seq<Entry>)
    requires Sorted(a) && Sorted(b) && forall e :: e in a <==> e in b
    ensures a == b
  {
    if a == [] {
      EmptyOrHasMember(b);
    } else {
      EmptyOrHasMember(a);
      EmptyOrHasMember(b);
      SameLeast(a, b);
      TailLacksHead(a);
      TailLacksHead(b);
      assert a == [a[0]] + a[1..] && b == [b[0]] + b[1..];
      SortedUnique(a[1..], b[1..]);
    }
  }

  lemma SameLeast(a: seq<Entry>, b: seq<Entry>)
    requires Sorted(a) && Sorted(b) && a != [] && b != [] && a[0] in b && b[0] in a
    ensures a[0] == b[0]
  {
    if a[0] != b[0] {
      LessAsymmetricHere(a[0].key, b[0].key);
    }
  }

  lemma LessAsymmetricHere(a: string, b: string)
    ensures !(Less(a, b) && Less(b, a))
  {
    if Less(a, b) {
      LessAsymmetric(a, b);
    }
  }

  lemma TailLacksHead(a: seq<Entry>)
    requires Sorted(a) && a != []
    ensures forall e :: e in a[1..] <==> e in a && e != a[0]
  {
    LessIrreflexive(a[0].key);
    assert a == [a[0]] + a[1..];
  }

  /**
   * Extraction depends on a table's rows only as a collection: neither their order nor the
   * batch size matters. It fails for both orders or for neither, and otherwise gives the same
   * entries and the same counts.
   */
  lemma ExtractionIgnoresOrder(stage: Stage, rows: seq<Fields>, shuffled: seq<Fields>, a: Extracted, b: Extracted)
    requires Shaped(stage, rows) && multiset(rows) == multiset(shuffled)
    ensures Shaped(stage, shuffled) && (Clean(stage, rows) <==> Clean(stage, shuffled))
    ensures IsExtraction(stage, rows, a) && IsExtraction(stage, shuffled, b) ==> a == b
  {
    forall r ensures r in rows <==> r in shuffled {
      assert r in rows <==> r in multiset(rows);
      assert r in shuffled <==> r in multiset(shuffled);
    }
    if IsExtraction(stage, rows, a) && IsExtraction(stage, shuffled, b) {
      assert |rows| == |multiset(rows)| == |shuffled|;
      SortedUnique(a.entries, b.entries);
    }
  }
}
