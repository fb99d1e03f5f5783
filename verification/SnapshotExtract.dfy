/** The whole extraction: the wanted tables of a dump, each once, in the expected layout. */
module SnapshotExtract {
  import opened Basics
  import opened CopyText
  import opened CopyReader
  import opened SnapshotTable

  const DOT: byte := 46

  datatype Failure =
    | BadInput(error: SnapshotError)
    | BadTable(table: ExtractError)
    | AppearsTwice(name: bytes)
    | UnexpectedLayout(name: bytes)
    | NoBlockFor(names: set<bytes>)

  function LastIndexOf(s: bytes, c: byte): (i: int)
    ensures -1 <= i < |s| && (i >= 0 ==> s[i] == c) && forall j :: i < j < |s| ==> s[j] != c
  {
    if s == [] then -1 else if s[|s| - 1] == c then |s| - 1 else LastIndexOf(s[..|s| - 1], c)
  }

  /** `table.rpartition(".")`, when what is before the dot is the schema. */
  function StageName(schema: bytes, table: bytes): Option<bytes> {
    var i := LastIndexOf(table, DOT);
    if i >= 0 && table[..i] == schema then Some(table[i + 1..]) else None
  }

  datatype Plan = Plan(schema: bytes, stages: map<bytes, Stage>) {
    predicate Wants(b: Block) {
      StageName(schema, b.table).Some? && StageName(schema, b.table).value in stages
    }

    function Name(b: Block): bytes
      requires Wants(b)
    {
      StageName(schema, b.table).value
    }

    predicate Valid() {
      schema != [] && forall n :: n in stages ==> ValidStage(stages[n])
    }
  }

  // ----- what the reader promises of its rows ------------------------------------------------------

  ghost predicate Rectangular(b: Block) {
    forall r :: r in b.rows ==> |r| == |b.columns|
  }

  lemma {:induction false} RowsRectangular(header: Header, lines: seq<bytes>)
    ensures var body := ReadRows(header, lines);
      body.Ok? ==> forall r :: r in body.value.rows ==> |r| == |header.columns|
  {
    hide ReadRow, IsEnd;
    if lines != [] {
      RowsRectangular(header, lines[1..]);
      RowLength(header, lines[0]);
    }
  }

  lemma RowLength(header: Header, line: bytes)
    ensures ReadRow(header, line).Ok? ==> |ReadRow(header, line).value| == |header.columns|
  {
  }

  lemma {:induction false} BlocksRectangular(lines: seq<bytes>)
    ensures var r := ReadBlocks(lines);
      r.Ok? ==> forall b :: b in r.value ==> Rectangular(b)
    decreases |lines|
  {
    hide ParseHeader, ReadRows;
    if lines != [] {
      AtLine(lines, 0);
      assert lines[0..] == lines;
      var header := ParseHeader(lines[0]);
      if header.None? {
        BlocksRectangular(lines[1..]);
      } else {
        RowsRectangular(header.value, lines[1..]);
        var body := ReadRows(header.value, lines[1..]);
        if body.Ok? {
          BlocksRectangular(lines[1 + body.value.lines..]);
        }
      }
    }
  }

  // ----- what a snapshot is --------------------------------------------------------------------------

  ghost predicate GoodBlock(plan: Plan, b: Block)
    requires plan.Valid() && Rectangular(b)
  {
    plan.Wants(b) ==>
      && b.columns == plan.stages[plan.Name(b)].columns
      && Clean(plan.stages[plan.Name(b)], b.rows)
  }

  /** The first `n` blocks raise no error of their own. */
  ghost predicate Good(plan: Plan, blocks: seq<Block>, n: nat)
    requires plan.Valid() && n <= |blocks| && forall b :: b in blocks ==> Rectangular(b)
  {
    && (forall i :: 0 <= i < n ==> GoodBlock(plan, blocks[i]))
    && forall i, j :: 0 <= i < j < n && plan.Wants(blocks[i]) && plan.Wants(blocks[j]) ==>
         plan.Name(blocks[i]) != plan.Name(blocks[j])
  }

  function Names(plan: Plan, blocks: seq<Block>): set<bytes> {
    set b | b in blocks && plan.Wants(b) :: plan.Name(b)
  }

  /** Every wanted table appears once, as expected, and is clean. */
  ghost predicate Complete(plan: Plan, blocks: seq<Block>)
    requires plan.Valid() && forall b :: b in blocks ==> Rectangular(b)
  {
    Good(plan, blocks, |blocks|) && Names(plan, blocks) == plan.stages.Keys
  }

  ghost predicate BlockExtracted(plan: Plan, b: Block, out: map<bytes, Extracted>)
    requires plan.Valid() && Rectangular(b)
  {
    plan.Wants(b) && b.columns == plan.stages[plan.Name(b)].columns ==>
      plan.Name(b) in out && IsExtraction(plan.stages[plan.Name(b)], b.rows, out[plan.Name(b)])
  }

  ghost predicate IsSnapshot(plan: Plan, blocks: seq<Block>, out: map<bytes, Extracted>)
    requires plan.Valid() && forall b :: b in blocks ==> Rectangular(b)
  {
    out.Keys == Names(plan, blocks) && forall i :: 0 <= i < |blocks| ==> BlockExtracted(plan, blocks[i], out)
  }

  /** One more block, of a table not asked for or not seen yet. */
  lemma GoodOn(plan: Plan, blocks: seq<Block>, n: nat)
    requires plan.Valid() && n < |blocks| && forall b :: b in blocks ==> Rectangular(b)
    requires Good(plan, blocks, n)
    ensures Good(plan, blocks, n + 1) <==>
      GoodBlock(plan, blocks[n]) && (plan.Wants(blocks[n]) ==> plan.Name(blocks[n]) !in Names(plan, blocks[..n]))
    ensures Names(plan, blocks[..n + 1]) ==
      Names(plan, blocks[..n]) + if plan.Wants(blocks[n]) then {plan.Name(blocks[n])} else {}
  {
    hide GoodBlock, StageName;
    assert blocks[..n + 1] == blocks[..n] + [blocks[n]];
    forall i | 0 <= i < n && plan.Wants(blocks[i])
      ensures plan.Name(blocks[i]) in Names(plan, blocks[..n])
    {
      assert blocks[..n][i] == blocks[i];
    }
    if plan.Wants(blocks[n]) && plan.Name(blocks[n]) in Names(plan, blocks[..n]) {
      NamedBlock(plan, blocks[..n], plan.Name(blocks[n]));
    }
  }

  lemma BadBlockStays(plan: Plan, blocks: seq<Block>, n: nat)
    requires plan.Valid() && n < |blocks| && forall b :: b in blocks ==> Rectangular(b)
    requires !Good(plan, blocks, n + 1)
    ensures !Complete(plan, blocks)
  {
    hide GoodBlock, StageName;
  }

  method ExtractBlocks(
    plan: Plan, blocks: seq<Block>, batchSize: nat
  ) returns (r: Result<map<bytes, Extracted>, Failure>)
    requires plan.Valid() && forall b :: b in blocks ==> Rectangular(b)
    ensures r.Ok? <==> Complete(plan, blocks)
    ensures r.Ok? ==> IsSnapshot(plan, blocks, r.value)
  {
    hide IsExtraction, Clean, Names, StageName, Good;
    var seen: map<bytes, Extracted> := map[];
    var i := 0;
    GoodNone(plan, blocks);
    while i < |blocks|
      invariant 0 <= i <= |blocks|
      invariant Good(plan, blocks, i)
      invariant seen.Keys == Names(plan, blocks[..i])
      invariant forall j :: 0 <= j < i ==> BlockExtracted(plan, blocks[j], seen)
    {
      var b := blocks[i];
      GoodOn(plan, blocks, i);
      if plan.Wants(b) {
        var name := plan.Name(b);
        if name in seen {
          BadBlockStays(plan, blocks, i);
          return Err(AppearsTwice(name));
        }
        if b.columns != plan.stages[name].columns {
          BadBlockStays(plan, blocks, i);
          return Err(UnexpectedLayout(name));
        }
        assert Rectangular(b);
        var out := ExtractTable(plan.stages[name], b.rows, batchSize);
        if out.Err? {
          BadBlockStays(plan, blocks, i);
          return Err(BadTable(out.error));
        }
        StillExtracted(plan, blocks, i, seen, name, out.value);
        seen := seen[name := out.value];
      }
      i := i + 1;
    }
    assert blocks[..i] == blocks;
    NamesWanted(plan, blocks);
    var missing := plan.stages.Keys - seen.Keys;
    NoneMissing(seen.Keys, plan.stages.Keys);
    if missing != {} {
      return Err(NoBlockFor(missing));
    }
    return Ok(seen);
  }

  lemma NoneMissing(seen: set<bytes>, wanted: set<bytes>)
    requires seen <= wanted
    ensures wanted - seen == {} <==> seen == wanted
  {
    assert wanted == seen + (wanted - seen);
  }

  lemma GoodNone(plan: Plan, blocks: seq<Block>)
    requires plan.Valid() && forall b :: b in blocks ==> Rectangular(b)
    ensures Good(plan, blocks, 0) && Names(plan, blocks[..0]) == {}
  {
  }

  lemma NamesWanted(plan: Plan, blocks: seq<Block>)
    ensures Names(plan, blocks) <= plan.stages.Keys
  {
  }

  lemma StillExtracted(plan: Plan, blocks: seq<Block>, n: nat, seen: map<bytes, Extracted>, name: bytes, out: Extracted)
    requires plan.Valid() && n <= |blocks| && forall b :: b in blocks ==> Rectangular(b)
    requires forall j :: 0 <= j < n ==> BlockExtracted(plan, blocks[j], seen)
    requires seen.Keys == Names(plan, blocks[..n]) && name !in seen
    ensures forall j :: 0 <= j < n ==> BlockExtracted(plan, blocks[j], seen[name := out])
  {
    hide IsExtraction, StageName;
    forall j | 0 <= j < n
      ensures BlockExtracted(plan, blocks[j], seen[name := out])
    {
      assert blocks[..n][j] == blocks[j];
      assert BlockExtracted(plan, blocks[j], seen);
    }
  }

  /** Succeeds exactly on a readable dump that is complete, and then gives its snapshot. */
  method Extract(plan: Plan, lines: seq<bytes>, batchSize: nat) returns (r: Result<map<bytes, Extracted>, Failure>)
    requires plan.Valid()
    ensures ReadBlocks(lines).Ok? ==> forall b :: b in ReadBlocks(lines).value ==> Rectangular(b)
    ensures r.Ok? <==> ReadBlocks(lines).Ok? && Complete(plan, ReadBlocks(lines).value)
    ensures r.Ok? ==> IsSnapshot(plan, ReadBlocks(lines).value, r.value)
  {
    hide ReadBlocks, Complete, IsSnapshot;
    BlocksRectangular(lines);
    var blocks := CopyBlocks(lines);
    if blocks.Err? {
      return Err(BadInput(blocks.error));
    }
    r := ExtractBlocks(plan, blocks.value, batchSize);
  }

  // ----- what the snapshot depends on ------------------------------------------------------------------

  /** The same table, its rows in any order. */
  ghost predicate Reordered(a: Block, b: Block) {
    a.table == b.table && a.columns == b.columns && multiset(a.rows) == multiset(b.rows)
  }

  lemma ReorderedBlock(plan: Plan, a: Block, b: Block)
    requires plan.Valid() && Rectangular(a) && Rectangular(b) && Reordered(a, b)
    ensures GoodBlock(plan, a) <==> GoodBlock(plan, b)
  {
    hide IsExtraction, Clean;
    if plan.Wants(a) && a.columns == plan.stages[plan.Name(a)].columns {
      ReorderedRows(plan.stages[plan.Name(a)], a.rows, b.rows);
    }
  }

  lemma ReorderedRows(stage: Stage, rows: seq<Fields>, shuffled: seq<Fields>)
    requires Shaped(stage, rows) && Shaped(stage, shuffled) && multiset(rows) == multiset(shuffled)
    ensures Clean(stage, rows) <==> Clean(stage, shuffled)
    ensures forall a, b :: IsExtraction(stage, rows, a) && IsExtraction(stage, shuffled, b) ==> a == b
  {
    hide IsExtraction, Clean;
    forall a, b | IsExtraction(stage, rows, a) && IsExtraction(stage, shuffled, b)
      ensures a == b
    {
      ExtractionIgnoresOrder(stage, rows, shuffled, a, b);
    }
    ExtractionIgnoresOrder(stage, rows, shuffled, Extracted([], 0, 0), Extracted([], 0, 0));
  }

  /** Reordering rows inside the tables of a dump changes neither whether the snapshot succeeds
      nor a byte of what it holds. */
  lemma SnapshotIgnoresRowOrder(
    plan: Plan, blocks: seq<Block>, shuffled: seq<Block>, a: map<bytes, Extracted>, b: map<bytes, Extracted>
  )
    requires plan.Valid() && |blocks| == |shuffled|
    requires (forall x :: x in blocks ==> Rectangular(x)) && (forall x :: x in shuffled ==> Rectangular(x))
    requires forall i :: 0 <= i < |blocks| ==> Reordered(blocks[i], shuffled[i])
    ensures Complete(plan, blocks) <==> Complete(plan, shuffled)
    ensures Complete(plan, blocks) && IsSnapshot(plan, blocks, a) && IsSnapshot(plan, shuffled, b) ==> a == b
  {
    hide GoodBlock, BlockExtracted, Names, StageName;
    forall i | 0 <= i < |blocks|
      ensures GoodBlock(plan, blocks[i]) <==> GoodBlock(plan, shuffled[i])
    {
      assert Rectangular(blocks[i]) && Rectangular(shuffled[i]);
      ReorderedBlock(plan, blocks[i], shuffled[i]);
    }
    SameNames(plan, blocks, shuffled);
    if Complete(plan, blocks) && IsSnapshot(plan, blocks, a) && IsSnapshot(plan, shuffled, b) {
      forall n | n in a
        ensures n in b && a[n] == b[n]
      {
        NamedBlock(plan, blocks, n);
        var i :| 0 <= i < |blocks| && plan.Wants(blocks[i]) && plan.Name(blocks[i]) == n;
        SameEntry(plan, blocks[i], shuffled[i], a, b);
      }
    }
  }

  lemma NamedBlock(plan: Plan, blocks: seq<Block>, n: bytes)
    requires n in Names(plan, blocks)
    ensures exists i :: 0 <= i < |blocks| && plan.Wants(blocks[i]) && plan.Name(blocks[i]) == n
  {
    var x :| x in blocks && plan.Wants(x) && plan.Name(x) == n;
    var i :| 0 <= i < |blocks| && blocks[i] == x;
    assert plan.Wants(blocks[i]);
  }

  lemma SameEntry(plan: Plan, x: Block, y: Block, a: map<bytes, Extracted>, b: map<bytes, Extracted>)
    requires plan.Valid() && Rectangular(x) && Rectangular(y) && Reordered(x, y)
    requires plan.Wants(x) && GoodBlock(plan, x) && BlockExtracted(plan, x, a) && BlockExtracted(plan, y, b)
    ensures plan.Name(x) in a && plan.Name(x) in b && a[plan.Name(x)] == b[plan.Name(x)]
  {
    ReorderedRows(plan.stages[plan.Name(x)], x.rows, y.rows);
  }

  lemma SameNames(plan: Plan, blocks: seq<Block>, shuffled: seq<Block>)
    requires |blocks| == |shuffled| && forall i :: 0 <= i < |blocks| ==> blocks[i].table == shuffled[i].table
    ensures Names(plan, blocks) == Names(plan, shuffled)
  {
    forall n
      ensures n in Names(plan, blocks) <==> n in Names(plan, shuffled)
    {
      if x :| x in blocks && plan.Wants(x) && plan.Name(x) == n {
        var i :| 0 <= i < |blocks| && blocks[i] == x;
        assert shuffled[i] in shuffled;
      }
      if x :| x in shuffled && plan.Wants(x) && plan.Name(x) == n {
        var i :| 0 <= i < |shuffled| && shuffled[i] == x;
        assert blocks[i] in blocks;
      }
    }
  }
}
