/** A printed dump reads back as its tables, and a cut dump never reads as a short table. */
module CopyDump {
  import opened Basics
  import opened CopyText
  import opened CopyReader

  /** A column as the server prints it: bare, or in double quotes. */
  datatype Column = Column(name: bytes, quoted: bool)

  /** `token` is the table's name as printed, quotes and dots included. */
  datatype Table = Table(token: bytes, columns: seq<Column>, rows: seq<seq<Option<bytes>>>)

  /** A dump: COPY data, and the other lines of the script around it. */
  datatype Chunk = Text(line: bytes) | Data(table: Table)

  predicate PlainByte(b: byte) {
    33 <= b <= 126 && b != QUOTE && b != COMMA && b != CLOSE
  }

  predicate Plain(s: bytes) {
    forall i :: 0 <= i < |s| ==> PlainByte(s[i])
  }

  predicate OneLine(line: bytes) {
    line != [] && line[|line| - 1] == NEWLINE && NEWLINE !in line[..|line| - 1]
  }

  ghost predicate ValidTable(t: Table) {
    && t.token != [] && (forall i :: 0 <= i < |t.token| ==> NameByte(t.token[i]))
    && t.columns != [] && (forall i :: 0 <= i < |t.columns| ==> t.columns[i].name != [] && Plain(t.columns[i].name))
    && forall i :: 0 <= i < |t.rows| ==> |t.rows[i]| == |t.columns|
  }

  ghost predicate ValidChunk(c: Chunk) {
    match c
    case Text(line) => OneLine(line) && ParseHeader(line).None?
    case Data(t) => ValidTable(t)
  }

  // ----- printing ------------------------------------------------------------------------------

  function Token(columns: seq<Column>, i: nat): bytes
    requires i < |columns|
  {
    (if i == 0 then [] else [SPACE]) +
    (if columns[i].quoted then [QUOTE] + columns[i].name + [QUOTE] else columns[i].name)
  }

  function Tokens(columns: seq<Column>): seq<bytes> {
    seq(|columns|, i requires 0 <= i < |columns| => Token(columns, i))
  }

  function PrintHeader(t: Table): bytes
    requires t.columns != []
  {
    COPY + t.token + OPEN + Join(Tokens(t.columns), COMMA) + FROM_STDIN + [NEWLINE]
  }

  function EncodeRow(row: seq<Option<bytes>>): seq<bytes> {
    seq(|row|, i requires 0 <= i < |row| => EncodeField(row[i]))
  }

  function PrintRow(row: seq<Option<bytes>>): bytes
    requires row != []
  {
    Join(EncodeRow(row), TAB) + [NEWLINE]
  }

  function PrintRows(rows: seq<seq<Option<bytes>>>): (r: seq<bytes>)
    requires forall i :: 0 <= i < |rows| ==> rows[i] != []
    ensures |r| == |rows|
  {
    if rows == [] then [] else [PrintRow(rows[0])] + PrintRows(rows[1..])
  }

  const END_LINE: bytes := END_OF_DATA + [NEWLINE]

  function PrintTable(t: Table): seq<bytes>
    requires ValidTable(t)
  {
    [PrintHeader(t)] + PrintRows(t.rows) + [END_LINE]
  }

  function PrintChunk(c: Chunk): seq<bytes>
    requires ValidChunk(c)
  {
    match c
    case Text(line) => [line]
    case Data(t) => PrintTable(t)
  }

  function PrintDump(cs: seq<Chunk>): seq<bytes>
    requires forall c :: c in cs ==> ValidChunk(c)
  {
    if cs == [] then [] else PrintChunk(cs[0]) + PrintDump(cs[1..])
  }

  function ColumnNames(columns: seq<Column>): seq<bytes> {
    seq(|columns|, i requires 0 <= i < |columns| => columns[i].name)
  }

  function BlockOf(t: Table): Block {
    Block(Without(t.token, QUOTE), ColumnNames(t.columns), t.rows)
  }

  function BlocksOf(cs: seq<Chunk>): seq<Block> {
    if cs == [] then []
    else (if cs[0].Data? then [BlockOf(cs[0].table)] else []) + BlocksOf(cs[1..])
  }

  // ----- the header line -------------------------------------------------------------------------

  lemma {:induction false} StripsTo(pre: bytes, s: bytes, post: bytes, drop: byte -> bool)
    requires forall i :: 0 <= i < |pre| ==> drop(pre[i])
    requires forall i :: 0 <= i < |s| ==> !drop(s[i])
    requires forall i :: 0 <= i < |post| ==> drop(post[i])
    requires s == [] ==> pre == []
    ensures Strip(pre + s + post, drop) == s
    decreases |pre| + |post|
  {
    if pre != [] {
      assert (pre + s + post)[1..] == pre[1..] + s + post;
      StripsTo(pre[1..], s, post, drop);
    } else if s == [] {
      StripAll(post, drop);
      assert pre + s + post == post;
    } else {
      assert pre + s + post == s + post;
      assert StripLeft(s + post, drop) == s + post;
      StripTail(s, post, drop);
    }
  }

  lemma {:induction false} StripTail(s: bytes, post: bytes, drop: byte -> bool)
    requires forall i :: 0 <= i < |s| ==> !drop(s[i])
    requires forall i :: 0 <= i < |post| ==> drop(post[i])
    ensures StripRight(s + post, drop) == s
  {
    if post == [] {
      assert s + post == s;
    } else {
      assert (s + post)[..|s + post| - 1] == s + post[..|post| - 1];
      StripTail(s, post[..|post| - 1], drop);
    }
  }

  lemma {:induction false} StripAll(post: bytes, drop: byte -> bool)
    requires forall i :: 0 <= i < |post| ==> drop(post[i])
    ensures StripLeft(post, drop) == []
  {
    if post != [] {
      StripAll(post[1..], drop);
    }
  }

  lemma TokenNames(columns: seq<Column>, i: nat)
    requires i < |columns| && columns[i].name != [] && Plain(columns[i].name)
    ensures Strip(Strip(Token(columns, i), IsSpace()), IsQuote()) == columns[i].name
    ensures COMMA !in Token(columns, i) && CLOSE !in Token(columns, i)
  {
    hide Strip;
    var name := columns[i].name;
    var inner := if columns[i].quoted then [QUOTE] + name + [QUOTE] else name;
    var pre := if i == 0 then [] else [SPACE];
    assert Token(columns, i) == pre + inner + [];
    StripsTo(pre, inner, [], IsSpace());
    if columns[i].quoted {
      StripsTo([QUOTE], name, [QUOTE], IsQuote());
    } else {
      StripsTo([], name, [], IsQuote());
      assert [] + name + [] == name;
    }
  }

  lemma ListedColumns(t: Table)
    requires ValidTable(t)
    ensures var listed := Join(Tokens(t.columns), COMMA);
      CLOSE !in listed && Columns(Split(listed, COMMA)) == ColumnNames(t.columns)
  {
    var tokens := Tokens(t.columns);
    forall i | 0 <= i < |tokens|
      ensures Strip(Strip(tokens[i], IsSpace()), IsQuote()) == t.columns[i].name
      ensures COMMA !in tokens[i] && CLOSE !in tokens[i]
    {
      TokenNames(t.columns, i);
    }
    SplitJoin(tokens, COMMA);
    JoinLacks(tokens, COMMA, CLOSE);
  }

  lemma StartsWithFront(front: bytes, rest: bytes)
    ensures StartsWith(front + rest, front) && (front + rest)[|front|..] == rest
  {
  }

  lemma NameRunIs(token: bytes, rest: bytes)
    requires forall i :: 0 <= i < |token| ==> NameByte(token[i])
    requires rest != [] && !NameByte(rest[0])
    ensures NameRun(token + rest) == |token|
    ensures (token + rest)[..|token|] == token && (token + rest)[|token|..] == rest
  {
    var s := token + rest;
    assert s[|token|] == rest[0];
    assert forall i :: 0 <= i < |token| ==> s[i] == token[i];
  }

  lemma HeaderParses(t: Table)
    requires ValidTable(t)
    ensures ParseHeader(PrintHeader(t)) == Some(Header(Without(t.token, QUOTE), ColumnNames(t.columns)))
  {
    hide Join, Split, Columns, ColumnNames, Without, NameRun, IndexOf;
    var listed := Join(Tokens(t.columns), COMMA);
    var ending := FROM_STDIN + [NEWLINE];
    var named := t.token + (OPEN + (listed + ending));
    assert PrintHeader(t) == COPY + named;
    StartsWithFront(COPY, named);
    NameRunIs(t.token, OPEN + (listed + ending));
    StartsWithFront(OPEN, listed + ending);
    assert named[|t.token| + |OPEN|..] == (OPEN + (listed + ending))[|OPEN|..];
    ListedColumns(t);
    CloseIs(listed, ending);
    StartsWithFront(FROM_STDIN, [NEWLINE]);
    assert (listed + ending)[|listed| + |FROM_STDIN|..] == [NEWLINE];
  }

  lemma CloseIs(listed: bytes, ending: bytes)
    requires CLOSE !in listed && ending != [] && ending[0] == CLOSE
    ensures IndexOf(listed + ending, CLOSE) == |listed|
    ensures (listed + ending)[..|listed|] == listed && (listed + ending)[|listed|..] == ending
  {
    IndexOfFirst(listed, CLOSE, ending[1..]);
    assert listed + [CLOSE] + ending[1..] == listed + ending;
  }

  // ----- rows ------------------------------------------------------------------------------------

  lemma {:induction false} DecodeEncoded(row: seq<Option<bytes>>)
    ensures DecodeAll(EncodeRow(row)) == Ok(row)
  {
    if row != [] {
      DecodeEncoded(row[1..]);
      FieldRoundTrip(row[0]);
      assert EncodeRow(row)[1..] == EncodeRow(row[1..]);
      assert row == [row[0]] + row[1..];
    }
  }

  lemma EncodedRowQuiet(row: seq<Option<bytes>>)
    requires row != []
    ensures forall f :: f in EncodeRow(row) ==> TAB !in f && NEWLINE !in f
    ensures NEWLINE !in Join(EncodeRow(row), TAB)
    ensures var line := Join(EncodeRow(row), TAB);
      |line| >= 2 && line[0] == BACKSLASH ==> line[1] != 46
  {
    var fields := EncodeRow(row);
    forall i | 0 <= i < |fields| ensures TAB !in fields[i] && NEWLINE !in fields[i] {
      FieldIsQuiet(row[i]);
    }
    JoinLacks(fields, TAB, NEWLINE);
    FieldIsQuiet(row[0]);
    assert fields[0] == EncodeField(row[0]);
  }

  /** A printed row reads back as itself, and is never taken for the end of the data. */
  lemma RowRoundTrip(header: Header, row: seq<Option<bytes>>)
    requires row != [] && |row| == |header.columns|
    ensures ReadRow(header, PrintRow(row)) == Ok(row)
    ensures !IsEnd(PrintRow(row)) && OneLine(PrintRow(row))
  {
    var line := Join(EncodeRow(row), TAB);
    EncodedRowQuiet(row);
    assert PrintRow(row)[..|line|] == line;
    assert Chomp(PrintRow(row)) == line;
    SplitJoin(EncodeRow(row), TAB);
    DecodeEncoded(row);
  }

  /** Printed rows, then whatever lines follow them. */
  lemma {:induction false} RowsThen(header: Header, rows: seq<seq<Option<bytes>>>, rest: seq<bytes>)
    requires header.columns != [] && forall i :: 0 <= i < |rows| ==> |rows[i]| == |header.columns|
    ensures ReadRows(header, PrintRows(rows) + rest) == After(rows, |rows|, ReadRows(header, rest))
  {
    hide ReadRow, ReadRows, After, PrintRow, IsEnd;
    var lines := PrintRows(rows) + rest;
    if rows == [] {
      assert lines == rest;
      AfterNothing(ReadRows(header, rest));
    } else {
      RowsThen(header, rows[1..], rest);
      RowRoundTrip(header, rows[0]);
      assert lines[0] == PrintRow(rows[0]);
      assert lines[1..] == PrintRows(rows[1..]) + rest;
      AtRow(header, lines, 0);
      assert lines[0..] == lines;
      RowThenRows(header, rows, rest);
    }
  }

  lemma RowThenRows(header: Header, rows: seq<seq<Option<bytes>>>, rest: seq<bytes>)
    requires rows != []
    ensures After([rows[0]], 1, After(rows[1..], |rows| - 1, ReadRows(header, rest))) ==
      After(rows, |rows|, ReadRows(header, rest))
  {
    var r := ReadRows(header, rest);
    if r.Ok? {
      assert [rows[0]] + (rows[1..] + r.value.rows) == rows + r.value.rows;
    }
  }

  // ----- whole dumps -----------------------------------------------------------------------------

  function HeaderOf(t: Table): Header {
    Header(Without(t.token, QUOTE), ColumnNames(t.columns))
  }

  /** A header line, the first `k` rows, then any lines: read as far as the rows go, then on. */
  lemma TableThen(t: Table, k: nat, rest: seq<bytes>)
    requires ValidTable(t) && k <= |t.rows|
    ensures ReadBlocks([PrintHeader(t)] + PrintRows(t.rows[..k]) + rest) ==
      var body := After(t.rows[..k], k, ReadRows(HeaderOf(t), rest));
      if body.Err? then Err(body.error)
      else Extend(
        [Block(HeaderOf(t).table, HeaderOf(t).columns, body.value.rows)],
        ReadBlocks(rest[body.value.lines - k..]))
  {
    hide ParseHeader, ReadRow, ReadRows, ReadBlocks, Extend, PrintRow, PrintHeader, PrintRows, Without, ColumnNames;
    var lines := [PrintHeader(t)] + PrintRows(t.rows[..k]) + rest;
    var after := PrintRows(t.rows[..k]) + rest;
    HeaderParses(t);
    assert lines[0] == PrintHeader(t) && lines[1..] == after && lines[0..] == lines;
    AtLine(lines, 0);
    ManyColumns(t);
    RowsThen(HeaderOf(t), t.rows[..k], rest);
    var body := ReadRows(HeaderOf(t), after);
    if body.Ok? {
      assert lines[1 + body.value.lines..] == rest[body.value.lines - k..];
    }
  }

  lemma ManyColumns(t: Table)
    requires ValidTable(t)
    ensures HeaderOf(t).columns != [] && |HeaderOf(t).columns| == |t.columns|
  {
  }

  lemma EndReads(header: Header, rest: seq<bytes>)
    ensures ReadRows(header, [END_LINE] + rest) == Ok(Body([], 1))
    ensures ReadRows(header, [END_OF_DATA] + rest) == Ok(Body([], 1))
  {
  }

  lemma TableReads(t: Table, rest: seq<bytes>)
    requires ValidTable(t)
    ensures ReadBlocks(PrintTable(t) + rest) == Extend([BlockOf(t)], ReadBlocks(rest))
  {
    hide ReadBlocks, PrintRow, PrintHeader, PrintRows, Without, ColumnNames;
    assert t.rows[..|t.rows|] == t.rows && t.rows + [] == t.rows;
    TableThen(t, |t.rows|, [END_LINE] + rest);
    EndReads(HeaderOf(t), rest);
    assert PrintTable(t) + rest == [PrintHeader(t)] + PrintRows(t.rows) + ([END_LINE] + rest);
    assert ([END_LINE] + rest)[1..] == rest;
  }

  lemma ChunkReads(c: Chunk, rest: seq<bytes>)
    requires ValidChunk(c)
    ensures ReadBlocks(PrintChunk(c) + rest) == Extend(BlocksOf([c]), ReadBlocks(rest))
  {
    hide ParseHeader, ReadRows;
    if c.Data? {
      TableReads(c.table, rest);
      assert BlocksOf([c]) == [BlockOf(c.table)];
    } else {
      assert BlocksOf([c]) == [];
      AtLine([c.line] + rest, 0);
      assert ([c.line] + rest)[1..] == rest && ([c.line] + rest)[0..] == [c.line] + rest;
      ExtendNothing(ReadBlocks(rest));
    }
  }

  lemma BlocksFirst(cs: seq<Chunk>)
    requires cs != []
    ensures BlocksOf(cs) == BlocksOf([cs[0]]) + BlocksOf(cs[1..])
  {
  }

  /** Whatever tables are printed, and whatever other lines surround them, the reader returns
      exactly those tables: names, columns, rows, and which fields are null. */
  lemma {:induction false} DumpRoundTrip(cs: seq<Chunk>)
    requires forall c :: c in cs ==> ValidChunk(c)
    ensures ReadBlocks(PrintDump(cs)) == Ok(BlocksOf(cs))
  {
    if cs != [] {
      DumpRoundTrip(cs[1..]);
      ChunkReads(cs[0], PrintDump(cs[1..]));
      BlocksFirst(cs);
    }
  }

  // ----- cut dumps --------------------------------------------------------------------------------

  function Flatten(lines: seq<bytes>): bytes {
    if lines == [] then [] else lines[0] + Flatten(lines[1..])
  }

  /** How a binary file iterates: line by line, the last one possibly without its newline. */
  function FileLines(file: bytes): seq<bytes> {
    if file == [] then []
    else
      var i := IndexOf(file, NEWLINE);
      if i == |file| then [file] else [file[..i + 1]] + FileLines(file[i + 1..])
  }

  /** Some of the lines, then possibly part of the next one. */
  ghost predicate CutOf(lines: seq<bytes>, m: nat, tail: seq<bytes>) {
    && m <= |lines|
    && (tail == [] || (m < |lines| && |tail| == 1 && 0 < |tail[0]| < |lines[m]| && tail[0] == lines[m][..|tail[0]|]))
  }

  lemma FirstLine(line: bytes, rest: bytes)
    requires OneLine(line)
    ensures FileLines(line + rest) == [line] + FileLines(rest)
  {
    var file := line + rest;
    var body := line[..|line| - 1];
    IndexOfFirst(body, NEWLINE, rest);
    assert file == body + [NEWLINE] + rest;
    assert file[..|line|] == line && file[|line|..] == rest;
  }

  lemma PartLine(part: bytes)
    requires NEWLINE !in part
    ensures FileLines(part) == if part == [] then [] else [part]
  {
  }

  lemma {:induction false} CutFile(lines: seq<bytes>, n: nat) returns (m: nat, tail: seq<bytes>)
    requires n <= |Flatten(lines)| && forall l :: l in lines ==> OneLine(l)
    ensures CutOf(lines, m, tail) && FileLines(Flatten(lines)[..n]) == lines[..m] + tail
    ensures n == |Flatten(lines)| ==> m == |lines| && tail == []
  {
    if lines == [] {
      m, tail := 0, [];
    } else {
      var first, rest := lines[0], lines[1..];
      assert OneLine(first);
      if n < |first| {
        m, tail := 0, if n == 0 then [] else [first[..n]];
        CutInFirst(first, Flatten(rest), n);
      } else {
        m, tail := CutFile(rest, n - |first|);
        CutAfterFirst(first, Flatten(rest), n);
        assert lines[..m + 1] == [first] + rest[..m];
        m := m + 1;
      }
    }
  }

  lemma CutInFirst(first: bytes, rest: bytes, n: nat)
    requires OneLine(first) && n < |first|
    ensures FileLines((first + rest)[..n]) == if n == 0 then [] else [first[..n]]
  {
    assert (first + rest)[..n] == first[..|first| - 1][..n];
    PartLine(first[..n]);
    assert first[..n] == first[..|first| - 1][..n];
  }

  lemma CutAfterFirst(first: bytes, rest: bytes, n: nat)
    requires OneLine(first) && |first| <= n <= |first + rest|
    ensures FileLines((first + rest)[..n]) == [first] + FileLines(rest[..n - |first|])
  {
    assert (first + rest)[..n] == first + rest[..n - |first|];
    FirstLine(first, rest[..n - |first|]);
  }

  /** Lines that read either as an error or as the first of `blocks`. */
  ghost predicate ErrorOrWhole(lines: seq<bytes>, blocks: seq<Block>) {
    var r := ReadBlocks(lines);
    r.Err? || r.value <= blocks
  }

  lemma LoneLine(tail: seq<bytes>, blocks: seq<Block>)
    requires |tail| <= 1
    ensures ErrorOrWhole(tail, blocks)
  {
    hide ParseHeader;
    if tail != [] {
      AtLine(tail, 0);
      assert tail[0..] == tail && tail[1..] == [];
      var header := ParseHeader(tail[0]);
      if header.Some? {
        NoLinesLeft(header.value);
      }
    }
  }

  lemma LoneRow(header: Header, line: bytes)
    requires !IsEnd(line)
    ensures ReadRows(header, [line]).Err?
  {
    hide ReadRow, IsEnd;
    AtRow(header, [line], 0);
    NoLinesLeft(header);
    assert [line][0..] == [line] && [line][1..] == [];
  }

  /** A table cut somewhere after its header line is an error, unless all but its last newline is there. */
  lemma CutTable(t: Table, k: nat, tail: seq<bytes>, blocks: seq<Block>)
    requires ValidTable(t) && k <= |t.rows| && CutOf(PrintRows(t.rows) + [END_LINE], k, tail)
    requires blocks != [] && blocks[0] == BlockOf(t)
    ensures ErrorOrWhole([PrintHeader(t)] + PrintRows(t.rows[..k]) + tail, blocks)
  {
    var header := HeaderOf(t);
    TableThen(t, k, tail);
    if tail == [] {
      NoLinesLeft(header);
    } else if IsEnd(tail[0]) {
      NotARow(t, k, tail[0]);
      EndReads(header, []);
      assert t.rows[..k] == t.rows && t.rows + [] == t.rows;
      assert tail == [END_OF_DATA] + [];
      assert tail[1..] == [];
    } else {
      LoneRow(header, tail[0]);
    }
  }

  lemma {:induction false} RowLine(rows: seq<seq<Option<bytes>>>, k: nat)
    requires k < |rows| && forall i :: 0 <= i < |rows| ==> rows[i] != []
    ensures PrintRows(rows)[k] == PrintRow(rows[k])
  {
    if k > 0 {
      RowLine(rows[1..], k - 1);
    }
  }

  /** Part of a printed row never reads as the end of the data. */
  lemma RowPartIsNoEnd(row: seq<Option<bytes>>, n: nat)
    requires row != [] && n < |PrintRow(row)|
    ensures !IsEnd(PrintRow(row)[..n])
  {
    EncodedRowQuiet(row);
    EndStart(PrintRow(row)[..n]);
    var line := Join(EncodeRow(row), TAB);
    assert n >= 2 ==> PrintRow(row)[0] == line[0] && PrintRow(row)[1] == line[1];
  }

  lemma EndStart(line: bytes)
    ensures IsEnd(line) ==> |line| >= 2 && line[0] == BACKSLASH && line[1] == 46
  {
  }

  /** So part of a line that does is part of the end line. */
  lemma NotARow(t: Table, k: nat, part: bytes)
    requires ValidTable(t) && k <= |t.rows| && CutOf(PrintRows(t.rows) + [END_LINE], k, [part]) && IsEnd(part)
    ensures k == |t.rows| && part == END_OF_DATA
  {
    if k < |t.rows| {
      RowLine(t.rows, k);
      RowPartIsNoEnd(t.rows[k], |part|);
    }
  }

  lemma CutChunk(c: Chunk, m: nat, tail: seq<bytes>, blocks: seq<Block>)
    requires ValidChunk(c) && m < |PrintChunk(c)| && CutOf(PrintChunk(c), m, tail)
    requires BlocksOf([c]) <= blocks
    ensures ErrorOrWhole(PrintChunk(c)[..m] + tail, blocks)
  {
    var lines := PrintChunk(c);
    if m == 0 {
      assert lines[..0] + tail == tail;
      LoneLine(tail, blocks);
    } else {
      var t := c.table;
      assert BlocksOf([c]) == [BlockOf(t)];
      assert blocks[0] == BlocksOf([c])[0];
      PrintedPrefix(t.rows, m - 1);
      assert lines == [PrintHeader(t)] + (PrintRows(t.rows) + [END_LINE]);
      assert lines[..m] == [PrintHeader(t)] + PrintRows(t.rows)[..m - 1];
      assert m < |lines| ==> lines[m] == (PrintRows(t.rows) + [END_LINE])[m - 1];
      CutTable(t, m - 1, tail, blocks);
    }
  }

  lemma {:induction false} PrintedPrefix(rows: seq<seq<Option<bytes>>>, k: nat)
    requires k <= |rows| && forall i :: 0 <= i < |rows| ==> rows[i] != []
    ensures PrintRows(rows[..k]) == PrintRows(rows)[..k]
  {
    if k > 0 {
      PrintedPrefix(rows[1..], k - 1);
      assert rows[..k][1..] == rows[1..][..k - 1];
    }
  }

  lemma {:induction false} CutLines(cs: seq<Chunk>, m: nat, tail: seq<bytes>)
    requires (forall c :: c in cs ==> ValidChunk(c)) && CutOf(PrintDump(cs), m, tail)
    ensures ErrorOrWhole(PrintDump(cs)[..m] + tail, BlocksOf(cs))
  {
    hide ReadBlocks, PrintChunk, BlocksOf, Extend;
    if cs == [] {
      LoneLine(tail, BlocksOf(cs));
      assert PrintDump(cs)[..m] + tail == tail;
    } else {
      var first, rest := PrintChunk(cs[0]), PrintDump(cs[1..]);
      BlocksFirst(cs);
      if m < |first| {
        assert (first + rest)[..m] == first[..m];
        CutChunk(cs[0], m, tail, BlocksOf(cs));
      } else {
        var n := m - |first|;
        assert (first + rest)[..m] + tail == first + (rest[..n] + tail);
        CutLines(cs[1..], n, tail);
        ChunkReads(cs[0], rest[..n] + tail);
        ExtendWhole(BlocksOf([cs[0]]), ReadBlocks(rest[..n] + tail), BlocksOf(cs[1..]));
      }
    }
  }

  lemma ExtendWhole(first: seq<Block>, r: Result<seq<Block>, SnapshotError>, blocks: seq<Block>)
    requires r.Err? || r.value <= blocks
    ensures Extend(first, r).Err? || Extend(first, r).value <= first + blocks
  {
  }

  lemma {:induction false} DumpLinesWhole(cs: seq<Chunk>)
    requires forall c :: c in cs ==> ValidChunk(c)
    ensures forall l :: l in PrintDump(cs) ==> OneLine(l)
  {
    if cs != [] {
      DumpLinesWhole(cs[1..]);
      assert ValidChunk(cs[0]);
      if cs[0].Data? {
        TableLinesWhole(cs[0].table);
      }
    }
  }

  lemma TableLinesWhole(t: Table)
    requires ValidTable(t)
    ensures forall l :: l in PrintTable(t) ==> OneLine(l)
  {
    HeaderIsOneLine(t);
    forall k | 0 <= k < |t.rows|
      ensures OneLine(PrintRows(t.rows)[k])
    {
      RowLine(t.rows, k);
      RowRoundTrip(HeaderOf(t), t.rows[k]);
    }
  }

  lemma HeaderIsOneLine(t: Table)
    requires ValidTable(t)
    ensures OneLine(PrintHeader(t))
  {
    var tokens := Tokens(t.columns);
    forall i | 0 <= i < |tokens| ensures NEWLINE !in tokens[i] {
      assert Plain(t.columns[i].name);
    }
    JoinLacks(tokens, COMMA, NEWLINE);
    var line := COPY + t.token + OPEN + Join(tokens, COMMA) + FROM_STDIN;
    assert PrintHeader(t)[..|line|] == line;
  }

  /**
   * A dump file cut after any byte reads either as an error or as the first of its tables,
   * each of them whole: never as a table with rows missing. Uncut, it reads as all of them.
   */
  lemma CutDumpNeverShort(cs: seq<Chunk>, n: nat)
    requires (forall c :: c in cs ==> ValidChunk(c)) && n <= |Flatten(PrintDump(cs))|
    ensures ErrorOrWhole(FileLines(Flatten(PrintDump(cs))[..n]), BlocksOf(cs))
    ensures n == |Flatten(PrintDump(cs))| ==>
      ReadBlocks(FileLines(Flatten(PrintDump(cs))[..n])) == Ok(BlocksOf(cs))
  {
    DumpLinesWhole(cs);
    var m, tail := CutFile(PrintDump(cs), n);
    CutLines(cs, m, tail);
    DumpRoundTrip(cs);
    assert n == |Flatten(PrintDump(cs))| ==> PrintDump(cs)[..m] + tail == PrintDump(cs);
  }
}
