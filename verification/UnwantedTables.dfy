/**
 * Tables of a dump that the snapshot does not want: their rows are read all the same, so a bad one
 * fails the run, but what they hold reaches nothing.
 */
module UnwantedTables {
  import opened Basics
  import opened CopyText
  import opened CopyReader
  import opened CopyDump
  import opened SnapshotTable
  import opened SnapshotExtract

  // ----- when a body fails ------------------------------------------------------------------------

  ghost predicate Unending(lines: seq<bytes>) {
    forall j :: 0 <= j < |lines| ==> !IsEnd(lines[j])
  }

  /** Line `k` is no row of the table, and stands before the table's end. */
  ghost predicate BadRowAt(header: Header, lines: seq<bytes>, k: nat) {
    k < |lines| && ReadRow(header, lines[k]).Err? && Unending(lines[..k + 1])
  }

  /** A table's body fails exactly when it has no end line, or a line before the end is no row. */
  lemma {:induction false} BodyFailsExactlyWhen(header: Header, lines: seq<bytes>)
    ensures ReadRows(header, lines).Err? <==> Unending(lines) || exists k: nat :: BadRowAt(header, lines, k)
  {
    hide IsEnd, ReadRow;
    if lines != [] {
      var tail := lines[1..];
      BodyFailsExactlyWhen(header, tail);
      assert lines == [lines[0]] + tail;
      if IsEnd(lines[0]) {
        forall k: nat | k < |lines| ensures !BadRowAt(header, lines, k) {
          assert lines[..k + 1][0] == lines[0];
        }
      } else {
        assert Unending(lines) <==> Unending(tail);
        forall k: nat | k < |tail|
          ensures BadRowAt(header, lines, k + 1) <==> BadRowAt(header, tail, k)
        {
          assert lines[..k + 2] == [lines[0]] + tail[..k + 1];
        }
        assert BadRowAt(header, lines, 0) <==> ReadRow(header, lines[0]).Err?;
        if k: nat :| BadRowAt(header, lines, k) {
          if k > 0 {
            assert BadRowAt(header, tail, k - 1);
          }
        }
        if k: nat :| BadRowAt(header, tail, k) {
          assert BadRowAt(header, lines, k + 1);
        }
      }
    }
  }

  /** Read up to its end line, a body takes those lines and no more. */
  lemma {:induction false} BodyThen(header: Header, data: seq<bytes>, end: bytes, rest: seq<bytes>)
    requires Unending(data) && IsEnd(end)
    ensures var body := ReadRows(header, data + [end] + rest);
      && (body.Ok? <==> forall i :: 0 <= i < |data| ==> ReadRow(header, data[i]).Ok?)
      && (body.Ok? ==> body.value.lines == |data| + 1 && |body.value.rows| == |data|)
  {
    hide IsEnd, ReadRow;
    var lines := data + [end] + rest;
    if data != [] {
      assert lines[1..] == data[1..] + [end] + rest;
      BodyThen(header, data[1..], end, rest);
      assert data == [data[0]] + data[1..];
    }
  }

  // ----- a block nobody wants ------------------------------------------------------------------------

  ghost predicate AllRectangular(blocks: seq<Block>) {
    forall b :: b in blocks ==> Rectangular(b)
  }

  lemma NamesWithout(plan: Plan, x: seq<Block>, b: Block, y: seq<Block>)
    requires !plan.Wants(b)
    ensures Names(plan, x + [b] + y) == Names(plan, x + y)
  {
    assert forall c :: c in x + [b] + y <==> c in x + y || c == b;
  }

  lemma GoodWithout(plan: Plan, x: seq<Block>, b: Block, y: seq<Block>)
    requires plan.Valid() && AllRectangular(x + [b] + y) && AllRectangular(x + y) && !plan.Wants(b)
    ensures Good(plan, x + [b] + y, |x + [b] + y|) <==> Good(plan, x + y, |x + y|)
  {
    hide StageName, Clean;
    var more, less := x + [b] + y, x + y;
    assert forall i :: 0 <= i < |x| ==> more[i] == less[i];
    assert forall i :: |x| <= i < |less| ==> more[i + 1] == less[i];
    assert more[|x|] == b;
    if Good(plan, less, |less|) {
      forall i | 0 <= i < |more| ensures GoodBlock(plan, more[i]) {
        assert i != |x| ==> more[i] == less[if i < |x| then i else i - 1];
      }
      forall i, j | 0 <= i < j < |more| && plan.Wants(more[i]) && plan.Wants(more[j])
        ensures plan.Name(more[i]) != plan.Name(more[j])
      {
        assert more[i] == less[if i < |x| then i else i - 1] && more[j] == less[if j < |x| then j else j - 1];
      }
    }
    if Good(plan, more, |more|) {
      forall i | 0 <= i < |less| ensures GoodBlock(plan, less[i]) {
        assert less[i] == more[if i < |x| then i else i + 1];
      }
      forall i, j | 0 <= i < j < |less| && plan.Wants(less[i]) && plan.Wants(less[j])
        ensures plan.Name(less[i]) != plan.Name(less[j])
      {
        assert less[i] == more[if i < |x| then i else i + 1] && less[j] == more[if j < |x| then j else j + 1];
      }
    }
  }

  lemma ExtractedWithout(plan: Plan, x: seq<Block>, b: Block, y: seq<Block>, out: map<bytes, Extracted>)
    requires plan.Valid() && AllRectangular(x + [b] + y) && AllRectangular(x + y) && !plan.Wants(b)
    ensures IsSnapshot(plan, x + [b] + y, out) <==> IsSnapshot(plan, x + y, out)
  {
    hide StageName, IsExtraction, Names;
    NamesWithout(plan, x, b, y);
    var more, less := x + [b] + y, x + y;
    forall i | 0 <= i < |less| ensures less[i] == more[if i < |x| then i else i + 1] {
    }
    assert more[|x|] == b && BlockExtracted(plan, b, out);
    forall i | 0 <= i < |more| && i != |x| ensures more[i] == less[if i < |x| then i else i - 1] {
    }
  }

  /** Whatever rows an unwanted table holds, the snapshot is the one of the dump without it. */
  lemma UnwantedBlockIgnored(plan: Plan, x: seq<Block>, b: Block, y: seq<Block>, out: map<bytes, Extracted>)
    requires plan.Valid() && AllRectangular(x + [b] + y) && !plan.Wants(b)
    ensures AllRectangular(x + y)
    ensures Complete(plan, x + [b] + y) <==> Complete(plan, x + y)
    ensures IsSnapshot(plan, x + [b] + y, out) <==> IsSnapshot(plan, x + y, out)
  {
    hide Good, Names, IsSnapshot;
    assert forall c :: c in x + y ==> c in x + [b] + y;
    GoodWithout(plan, x, b, y);
    NamesWithout(plan, x, b, y);
    ExtractedWithout(plan, x, b, y, out);
  }

  // ----- dumps that hold one ----------------------------------------------------------------------------

  /** What `Extract` requires of a dump to succeed. */
  ghost predicate Succeeds(plan: Plan, lines: seq<bytes>)
    requires plan.Valid()
  {
    BlocksRectangular(lines);
    ReadBlocks(lines).Ok? && Complete(plan, ReadBlocks(lines).value)
  }

  lemma {:induction false} DumpThen(cs: seq<Chunk>, rest: seq<bytes>)
    requires forall c :: c in cs ==> ValidChunk(c)
    ensures ReadBlocks(PrintDump(cs) + rest) == Extend(BlocksOf(cs), ReadBlocks(rest))
  {
    hide ReadBlocks, ValidChunk, PrintChunk;
    if cs == [] {
      assert PrintDump(cs) + rest == rest;
      ExtendNothing(ReadBlocks(rest));
    } else {
      assert PrintDump(cs) + rest == PrintChunk(cs[0]) + (PrintDump(cs[1..]) + rest);
      DumpThen(cs[1..], rest);
      ChunkReads(cs[0], PrintDump(cs[1..]) + rest);
      BlocksFirst(cs);
      ExtendTwice(BlocksOf([cs[0]]), BlocksOf(cs[1..]), ReadBlocks(rest));
    }
  }

  lemma ExtendTwice(a: seq<Block>, b: seq<Block>, rest: Result<seq<Block>, SnapshotError>)
    ensures Extend(a, Extend(b, rest)) == Extend(a + b, rest)
  {
    if rest.Ok? {
      assert a + (b + rest.value) == a + b + rest.value;
    }
  }

  /** The header line of a table the plan does not want. */
  predicate UnwantedHeader(plan: Plan, line: bytes) {
    ParseHeader(line).Some? && !plan.Wants(Block(ParseHeader(line).value.table, [], []))
  }

  ghost predicate AllRows(header: Header, data: seq<bytes>) {
    forall i :: 0 <= i < |data| ==> ReadRow(header, data[i]).Ok?
  }

  /** What is read off a header line, its data, its end line and a printed dump. */
  lemma TableAt(line: bytes, data: seq<bytes>, end: bytes, after: seq<Chunk>)
    requires ParseHeader(line).Some? && Unending(data) && IsEnd(end) && forall c :: c in after ==> ValidChunk(c)
    ensures var header := ParseHeader(line).value;
      var r := ReadBlocks([line] + data + [end] + PrintDump(after));
      && (r.Ok? <==> AllRows(header, data))
      && (r.Ok? ==> exists rows :: r.value == [Block(header.table, header.columns, rows)] + BlocksOf(after))
  {
    hide ParseHeader, IsEnd, ReadRow, ValidChunk, ReadRows, Unending;
    var header := ParseHeader(line).value;
    var rest := PrintDump(after);
    var lines := [line] + data + [end] + rest;
    assert lines[0..] == lines && lines[1..] == data + [end] + rest;
    AtLine(lines, 0);
    BodyThen(header, data, end, rest);
    var body := ReadRows(header, data + [end] + rest);
    if body.Ok? {
      assert lines[1 + body.value.lines..] == rest;
      DumpRoundTrip(after);
      assert ReadBlocks(lines).value == [Block(header.table, header.columns, body.value.rows)] + BlocksOf(after);
    }
  }

  /**
   * A table nobody wants, between any other tables of a dump: the run succeeds exactly when every
   * line of its data is a row of it and the rest of the dump is complete without it.
   */
  lemma UnwantedTableDecides(
    plan: Plan, before: seq<Chunk>, line: bytes, data: seq<bytes>, end: bytes, after: seq<Chunk>
  )
    requires plan.Valid() && UnwantedHeader(plan, line) && Unending(data) && IsEnd(end)
    requires (forall c :: c in before ==> ValidChunk(c)) && forall c :: c in after ==> ValidChunk(c)
    ensures AllRectangular(BlocksOf(before) + BlocksOf(after))
    ensures Succeeds(plan, PrintDump(before) + ([line] + data + [end] + PrintDump(after))) <==>
      AllRows(ParseHeader(line).value, data) && Complete(plan, BlocksOf(before) + BlocksOf(after))
  {
    hide ParseHeader, IsEnd, ReadRow, ValidChunk, ReadBlocks, Complete, Unending, AllRows, StageName, BlocksOf;
    var table := [line] + data + [end] + PrintDump(after);
    var lines := PrintDump(before) + table;
    PrintedRectangular(before);
    PrintedRectangular(after);
    DumpThen(before, table);
    TableAt(line, data, end, after);
    if ReadBlocks(table).Ok? {
      BlocksRectangular(lines);
      var header := ParseHeader(line).value;
      var rows :| ReadBlocks(table).value == [Block(header.table, header.columns, rows)] + BlocksOf(after);
      var b := Block(header.table, header.columns, rows);
      assert ReadBlocks(lines).value == BlocksOf(before) + [b] + BlocksOf(after);
      UnwantedBlockIgnored(plan, BlocksOf(before), b, BlocksOf(after), map[]);
    }
  }

  lemma PrintedRectangular(cs: seq<Chunk>)
    requires forall c :: c in cs ==> ValidChunk(c)
    ensures AllRectangular(BlocksOf(cs))
  {
    hide ReadBlocks, ValidChunk, BlocksOf;
    DumpRoundTrip(cs);
    BlocksRectangular(PrintDump(cs));
  }

  /** And when its data never ends, the run fails whatever the rest would have been. */
  lemma UnendedTableFails(plan: Plan, before: seq<Chunk>, line: bytes, data: seq<bytes>)
    requires plan.Valid() && ParseHeader(line).Some? && Unending(data)
    requires forall c :: c in before ==> ValidChunk(c)
    ensures !Succeeds(plan, PrintDump(before) + ([line] + data))
  {
    hide ParseHeader, IsEnd, ReadRow, ValidChunk, ReadBlocks, Complete, ReadRows, Unending;
    var table := [line] + data;
    DumpThen(before, table);
    assert table[0..] == table && table[1..] == data;
    AtLine(table, 0);
    BodyFailsExactlyWhen(ParseHeader(line).value, data);
  }
}
