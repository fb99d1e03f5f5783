/** What a complete dump is and what its snapshot holds, told from the printed names and the rows. */
module SnapshotContents {
  import opened Basics
  import opened CopyText
  import opened CopyReader
  import opened SnapshotTable
  import opened SnapshotExtract
  import opened StringOrder

  /** The block's table is printed `schema.name`, and the name holds no dot. */
  predicate PrintedAs(plan: Plan, b: Block, name: bytes) {
    b.table == plan.schema + [46] + name && 46 !in name
  }

  lemma DotAt(s: bytes, a: bytes, b: bytes)
    requires s == a + [46] + b && 46 !in b
    ensures LastIndexOf(s, DOT) == |a| && s[..|a|] == a && s[|a| + 1..] == b
  {
    assert s[|a|] == 46;
    assert forall j :: |a| < j < |s| ==> s[j] == b[j - |a| - 1];
  }

  /** A table is wanted under the one name it is printed with in the wanted schema. */
  lemma WantsExactly(plan: Plan, b: Block)
    ensures plan.Wants(b) <==> exists n :: n in plan.stages && PrintedAs(plan, b, n)
    ensures forall n :: n in plan.stages && PrintedAs(plan, b, n) ==> plan.Wants(b) && plan.Name(b) == n
  {
    forall n | n in plan.stages && PrintedAs(plan, b, n)
      ensures plan.Wants(b) && plan.Name(b) == n
    {
      DotAt(b.table, plan.schema, n);
    }
    if plan.Wants(b) {
      var i, n := LastIndexOf(b.table, DOT), plan.Name(b);
      assert forall j :: 0 <= j < |n| ==> n[j] == b.table[i + 1 + j];
      assert b.table == b.table[..i] + [46] + b.table[i + 1..];
      assert PrintedAs(plan, b, n);
    }
  }

  // ----- the rows of a table -------------------------------------------------------------------------

  ghost predicate HasKey(stage: Stage, row: Fields)
    requires ValidStage(stage) && |row| == |stage.columns|
  {
    forall k :: 0 <= k < |stage.keys| ==> row[stage.keys[k]].Some? && row[stage.keys[k]].value != []
  }

  /** The key columns from the `k`th on, with byte 31 between them. */
  function KeyFrom(stage: Stage, row: Fields, k: nat): bytes
    requires ValidStage(stage) && |row| == |stage.columns| && HasKey(stage, row) && k < |stage.keys|
    decreases |stage.keys| - k
  {
    var part := row[stage.keys[k]].value;
    if k + 1 == |stage.keys| then part else part + [31] + KeyFrom(stage, row, k + 1)
  }

  /** Every row has its key and renders, and rows with one key render to one line. */
  ghost predicate Consistent(stage: Stage, rows: seq<Fields>)
    requires Shaped(stage, rows)
  {
    && (forall r :: r in rows ==> HasKey(stage, r) && stage.render(r).Some?)
    && forall r, s :: r in rows && s in rows && KeyFrom(stage, r, 0) == KeyFrom(stage, s, 0) ==>
         stage.render(r) == stage.render(s)
  }

  lemma {:induction false} JoinedFrom(stage: Stage, row: Fields, k: nat)
    requires ValidStage(stage) && |row| == |stage.columns| && HasKey(stage, row) && k < |stage.keys|
    ensures Join(Values(KeyParts(stage, row))[k..], UNIT_SEPARATOR) == KeyFrom(stage, row, k)
    decreases |stage.keys| - k
  {
    var parts := Values(KeyParts(stage, row))[k..];
    assert parts[0] == row[stage.keys[k]].value;
    if k + 1 < |stage.keys| {
      assert parts[1..] == Values(KeyParts(stage, row))[k + 1..];
      JoinedFrom(stage, row, k + 1);
    }
  }

  /** The entry of a row: its key as text, and its rendering. */
  lemma EntryExactly(stage: Stage, row: Fields)
    requires ValidStage(stage) && |row| == |stage.columns|
    ensures EntryOf(stage, row).Ok? <==> HasKey(stage, row) && stage.render(row).Some?
    ensures HasKey(stage, row) && stage.render(row).Some? ==>
      EntryOf(stage, row) == Ok(Entry(AsText(KeyFrom(stage, row, 0)), stage.render(row).value))
    ensures !HasKey(stage, row) ==> EntryOf(stage, row) == Err(RowWithoutKey)
  {
    var parts := KeyParts(stage, row);
    if HasKey(stage, row) {
      JoinedFrom(stage, row, 0);
      assert Values(parts)[0..] == Values(parts);
    } else {
      var k :| 0 <= k < |stage.keys| && !(row[stage.keys[k]].Some? && row[stage.keys[k]].value != []);
      assert parts[k] == row[stage.keys[k]];
    }
  }

  lemma TextTellsBytes(a: bytes, b: bytes)
    ensures AsText(a) == AsText(b) <==> a == b
  {
    if AsText(a) == AsText(b) {
      forall i | 0 <= i < |a| ensures a[i] == b[i] {
        assert AsText(a)[i] == AsText(b)[i];
      }
    }
  }

  lemma CleanExactly(stage: Stage, rows: seq<Fields>)
    requires Shaped(stage, rows)
    ensures Clean(stage, rows) <==> Consistent(stage, rows)
  {
    hide EntryOf, KeyFrom, HasKey;
    forall r | r in rows
      ensures EntryOf(stage, r).Ok? <==> HasKey(stage, r) && stage.render(r).Some?
      ensures EntryOf(stage, r).Ok? ==>
        EntryOf(stage, r) == Ok(Entry(AsText(KeyFrom(stage, r, 0)), stage.render(r).value))
    {
      EntryExactly(stage, r);
    }
    forall a, b ensures AsText(a) == AsText(b) <==> a == b {
      TextTellsBytes(a, b);
    }
  }

  ghost function LineOf(stage: Stage, row: Fields): Entry
    requires ValidStage(stage) && |row| == |stage.columns| && HasKey(stage, row) && stage.render(row).Some?
  {
    Entry(AsText(KeyFrom(stage, row, 0)), stage.render(row).value)
  }

  ghost predicate InByteOrder(entries: seq<Entry>) {
    forall i, j :: 0 <= i < j < |entries| ==> Parts(entries[i].key, entries[j].key)
  }

  ghost predicate Parts(a: string, b: string) {
    exists k: nat :: PartAt(a, b, k)
  }

  /** A key and a line, for each key the rows have, in the byte order of the keys; repeats are counted. */
  ghost predicate Lists(stage: Stage, rows: seq<Fields>, out: Extracted)
    requires Shaped(stage, rows) && Consistent(stage, rows)
  {
    && (forall r :: r in rows ==> LineOf(stage, r) in out.entries)
    && (forall e :: e in out.entries ==> exists r :: r in rows && LineOf(stage, r) == e)
    && InByteOrder(out.entries)
    && out.inputRows == |rows| && out.duplicates == |rows| - |out.entries|
  }

  lemma SortedInByteOrder(entries: seq<Entry>)
    requires Sorted(entries)
    ensures InByteOrder(entries)
  {
    forall i, j | 0 <= i < j < |entries|
      ensures Parts(entries[i].key, entries[j].key)
    {
      LessMeans(entries[i].key, entries[j].key);
    }
  }

  lemma ExtractionLists(stage: Stage, rows: seq<Fields>, out: Extracted)
    requires Shaped(stage, rows) && Consistent(stage, rows) && IsExtraction(stage, rows, out)
    ensures Lists(stage, rows, out)
  {
    hide EntryOf, KeyFrom, HasKey, Sorted, InByteOrder;
    forall r | r in rows ensures EntryOf(stage, r) == Ok(LineOf(stage, r)) {
      EntryExactly(stage, r);
    }
    SortedInByteOrder(out.entries);
  }

  // ----- the dump ------------------------------------------------------------------------------------------

  /** Each wanted name has one block in the dump, laid out as expected, its rows consistent. */
  ghost predicate HasEachOnce(plan: Plan, blocks: seq<Block>)
    requires plan.Valid() && forall b :: b in blocks ==> Rectangular(b)
  {
    && (forall n :: n in plan.stages ==> exists i :: 0 <= i < |blocks| && PrintedAs(plan, blocks[i], n))
    && (forall n, i, j :: n in plan.stages && 0 <= i < j < |blocks| ==>
         !PrintedAs(plan, blocks[i], n) || !PrintedAs(plan, blocks[j], n))
    && forall n, i :: n in plan.stages && 0 <= i < |blocks| && PrintedAs(plan, blocks[i], n) ==>
         AsExpected(plan.stages[n], blocks[i])
  }

  ghost predicate AsExpected(stage: Stage, b: Block)
    requires ValidStage(stage) && Rectangular(b)
  {
    b.columns == stage.columns && Consistent(stage, b.rows)
  }

  lemma BlockAsExpected(plan: Plan, b: Block, n: bytes)
    requires plan.Valid() && Rectangular(b) && n in plan.stages && PrintedAs(plan, b, n)
    ensures plan.Wants(b) && plan.Name(b) == n
    ensures GoodBlock(plan, b) <==> AsExpected(plan.stages[n], b)
  {
    hide PrintedAs, StageName, Clean, Consistent;
    WantsExactly(plan, b);
    if b.columns == plan.stages[n].columns {
      CleanExactly(plan.stages[n], b.rows);
    }
  }

  /** That is what it takes for the extraction to succeed. */
  lemma CompleteExactly(plan: Plan, blocks: seq<Block>)
    requires plan.Valid() && forall b :: b in blocks ==> Rectangular(b)
    ensures Complete(plan, blocks) <==> HasEachOnce(plan, blocks)
  {
    hide PrintedAs, StageName, GoodBlock, AsExpected, Names;
    forall i | 0 <= i < |blocks|
      ensures Rectangular(blocks[i])
      ensures !plan.Wants(blocks[i]) ==> GoodBlock(plan, blocks[i])
      ensures plan.Wants(blocks[i]) ==> PrintedAs(plan, blocks[i], plan.Name(blocks[i]))
      ensures forall n :: n in plan.stages && PrintedAs(plan, blocks[i], n) ==>
        && plan.Wants(blocks[i]) && plan.Name(blocks[i]) == n
        && (GoodBlock(plan, blocks[i]) <==> AsExpected(plan.stages[n], blocks[i]))
    {
      BlockExactly(plan, blocks[i]);
    }
    NamesExactly(plan, blocks);
  }

  lemma BlockExactly(plan: Plan, b: Block)
    requires plan.Valid() && Rectangular(b)
    ensures !plan.Wants(b) ==> GoodBlock(plan, b)
    ensures plan.Wants(b) ==> PrintedAs(plan, b, plan.Name(b))
    ensures forall n :: n in plan.stages && PrintedAs(plan, b, n) ==>
      plan.Wants(b) && plan.Name(b) == n && (GoodBlock(plan, b) <==> AsExpected(plan.stages[n], b))
  {
    hide PrintedAs, StageName, AsExpected;
    WantsExactly(plan, b);
    forall n | n in plan.stages && PrintedAs(plan, b, n)
      ensures plan.Wants(b) && plan.Name(b) == n && (GoodBlock(plan, b) <==> AsExpected(plan.stages[n], b))
    {
      BlockAsExpected(plan, b, n);
    }
  }

  lemma NamesExactly(plan: Plan, blocks: seq<Block>)
    ensures Names(plan, blocks) == plan.stages.Keys <==>
      forall n :: n in plan.stages ==> exists i :: 0 <= i < |blocks| && PrintedAs(plan, blocks[i], n)
  {
    hide PrintedAs, StageName;
    NamesWanted(plan, blocks);
    forall n | n in plan.stages
      ensures n in Names(plan, blocks) <==> exists i :: 0 <= i < |blocks| && PrintedAs(plan, blocks[i], n)
    {
      if n in Names(plan, blocks) {
        NamedBlock(plan, blocks, n);
        var i :| 0 <= i < |blocks| && plan.Wants(blocks[i]) && plan.Name(blocks[i]) == n;
        WantsExactly(plan, blocks[i]);
      }
      if i :| 0 <= i < |blocks| && PrintedAs(plan, blocks[i], n) {
        WantsExactly(plan, blocks[i]);
        assert blocks[i] in blocks;
      }
    }
  }

  /** And then the snapshot has each wanted table under its name, with its rows. */
  lemma SnapshotHolds(plan: Plan, blocks: seq<Block>, out: map<bytes, Extracted>, n: bytes, i: nat)
    requires plan.Valid() && forall b :: b in blocks ==> Rectangular(b)
    requires Complete(plan, blocks) && IsSnapshot(plan, blocks, out)
    requires n in plan.stages && i < |blocks| && PrintedAs(plan, blocks[i], n)
    ensures out.Keys == plan.stages.Keys
    ensures Shaped(plan.stages[n], blocks[i].rows) && Consistent(plan.stages[n], blocks[i].rows)
    ensures Lists(plan.stages[n], blocks[i].rows, out[n])
  {
    hide PrintedAs, StageName, Clean, Consistent, IsExtraction, Lists;
    WantsExactly(plan, blocks[i]);
    assert GoodBlock(plan, blocks[i]) && BlockExtracted(plan, blocks[i], out);
    assert Rectangular(blocks[i]);
    CleanExactly(plan.stages[n], blocks[i].rows);
    ExtractionLists(plan.stages[n], blocks[i].rows, out[n]);
  }
}
