/**
 * The COPY blocks of a dump: the snapshot script's reader over a stream of lines, and the
 * printer whose output it reads.
 */
module CopyReader {
  import opened Basics
  import opened CopyText

  const COPY: bytes := [67, 79, 80, 89, 32]                                        // "COPY "
  const OPEN: bytes := [32, 40]                                                    // " ("
  const FROM_STDIN: bytes := [41, 32, 70, 82, 79, 77, 32, 115, 116, 100, 105, 110, 59]  // ") FROM stdin;"
  const SPACE: byte := 32
  const COMMA: byte := 44
  const CLOSE: byte := 41
  const QUOTE: byte := 34
  /** `\.`, the end of a block's data. */
  const END_OF_DATA: bytes := [92, 46]

  datatype Block = Block(table: bytes, columns: seq<bytes>, rows: seq<seq<Option<bytes>>>)

  datatype Header = Header(table: bytes, columns: seq<bytes>)

  // ----- splitting and stripping ----------------------------------------------------------

  function IndexOf(s: bytes, c: byte): (i: nat)
    ensures i <= |s| && (i < |s| ==> s[i] == c) && forall j :: 0 <= j < i ==> s[j] != c
  {
    if s == [] || s[0] == c then 0 else 1 + IndexOf(s[1..], c)
  }

  /** `s.split(c)` */
  function Split(s: bytes, c: byte): (r: seq<bytes>)
    ensures r != []
  {
    var i := IndexOf(s, c);
    if i == |s| then [s] else [s[..i]] + Split(s[i + 1..], c)
  }

  function Join(parts: seq<bytes>, c: byte): bytes
    requires parts != []
  {
    if |parts| == 1 then parts[0] else parts[0] + [c] + Join(parts[1..], c)
  }

  lemma IndexOfFirst(a: bytes, c: byte, b: bytes)
    requires c !in a
    ensures IndexOf(a + [c] + b, c) == |a|
  {
    var s := a + [c] + b;
    var i := IndexOf(s, c);
    assert s[|a|] == c;
    assert forall j :: 0 <= j < |a| ==> s[j] == a[j];
  }

  lemma SplitFirst(a: bytes, c: byte, b: bytes)
    requires c !in a
    ensures Split(a + [c] + b, c) == [a] + Split(b, c)
  {
    var s := a + [c] + b;
    IndexOfFirst(a, c, b);
    assert s[..|a|] == a && s[|a| + 1..] == b;
  }

  lemma SplitNone(a: bytes, c: byte)
    requires c !in a
    ensures Split(a, c) == [a]
  {
  }

  lemma {:induction false} SplitJoin(parts: seq<bytes>, c: byte)
    requires parts != [] && forall p :: p in parts ==> c !in p
    ensures Split(Join(parts, c), c) == parts
  {
    assert c !in parts[0];
    if |parts| > 1 {
      SplitJoin(parts[1..], c);
      SplitFirst(parts[0], c, Join(parts[1..], c));
    } else {
      SplitNone(parts[0], c);
    }
    assert parts == [parts[0]] + parts[1..];
  }

  lemma {:induction false} JoinLacks(parts: seq<bytes>, c: byte, x: byte)
    requires parts != [] && x != c && forall p :: p in parts ==> x !in p
    ensures x !in Join(parts, c)
  {
    if |parts| > 1 {
      JoinLacks(parts[1..], c, x);
    }
  }

  predicate Whitespace(b: byte) {
    9 <= b <= 13 || b == 32
  }

  function StripLeft(s: bytes, drop: byte -> bool): bytes {
    if s != [] && drop(s[0]) then StripLeft(s[1..], drop) else s
  }

  function StripRight(s: bytes, drop: byte -> bool): bytes {
    if s != [] && drop(s[|s| - 1]) then StripRight(s[..|s| - 1], drop) else s
  }

  function Strip(s: bytes, drop: byte -> bool): bytes {
    StripRight(StripLeft(s, drop), drop)
  }

  function Without(s: bytes, c: byte): (r: bytes)
    ensures c !in s ==> r == s
  {
    if s == [] then []
    else
      assert s == [s[0]] + s[1..];
      if s[0] == c then Without(s[1..], c) else [s[0]] + Without(s[1..], c)
  }

  // ----- the header line ---------------------------------------------------------------------

  /** `[A-Za-z0-9_."]` */
  predicate NameByte(b: byte) {
    65 <= b <= 90 || 97 <= b <= 122 || 48 <= b <= 57 || b == 95 || b == 46 || b == 34
  }

  function NameRun(s: bytes): (n: nat)
    ensures n <= |s| && (forall j :: 0 <= j < n ==> NameByte(s[j])) && (n < |s| ==> !NameByte(s[n]))
  {
    if s == [] || !NameByte(s[0]) then 0 else 1 + NameRun(s[1..])
  }

  predicate StartsWith(s: bytes, prefix: bytes) {
    |prefix| <= |s| && s[..|prefix|] == prefix
  }

  predicate AllWhitespace(s: bytes) {
    forall i :: 0 <= i < |s| ==> Whitespace(s[i])
  }

  function IsSpace(): byte -> bool {
    (b: byte) => Whitespace(b)
  }

  function IsQuote(): byte -> bool {
    (b: byte) => b == QUOTE
  }

  /** `COPY_RE`, and what is made of its two groups. */
  function ParseHeader(line: bytes): Option<Header> {
    if !StartsWith(line, COPY) then None
    else
      var named := line[|COPY|..];
      var n := NameRun(named);
      if n == 0 || !StartsWith(named[n..], OPEN) then None
      else
        var listed := named[n + |OPEN|..];
        var m := IndexOf(listed, CLOSE);
        if !StartsWith(listed[m..], FROM_STDIN) || !AllWhitespace(listed[m + |FROM_STDIN|..]) then None
        else Some(Header(Without(named[..n], QUOTE), Columns(Split(listed[..m], COMMA))))
  }

  function Columns(tokens: seq<bytes>): seq<bytes> {
    seq(|tokens|, i requires 0 <= i < |tokens| => Strip(Strip(tokens[i], IsSpace()), IsQuote()))
  }

  // ----- reading ---------------------------------------------------------------------------

  predicate IsEnd(line: bytes) {
    line == END_OF_DATA + [NEWLINE] || line == END_OF_DATA
  }

  function Chomp(line: bytes): bytes {
    if line != [] && line[|line| - 1] == NEWLINE then line[..|line| - 1] else line
  }

  function DecodeAll(fields: seq<bytes>): (r: Result<seq<Option<bytes>>, SnapshotError>)
    ensures r.Ok? ==> |r.value| == |fields|
  {
    if fields == [] then Ok([])
    else
      var first := Decode(fields[0]);
      if first.Err? then Err(first.error)
      else
        Extend([first.value], DecodeAll(fields[1..]))
  }

  function ReadRow(header: Header, line: bytes): Result<seq<Option<bytes>>, SnapshotError> {
    var fields := Split(Chomp(line), TAB);
    if |fields| != |header.columns| then Err(WrongFieldCount(header.table)) else DecodeAll(fields)
  }

  /** A block's rows, and how many lines it took with its end line. */
  datatype Body = Body(rows: seq<seq<Option<bytes>>>, lines: nat)

  function ReadRows(header: Header, lines: seq<bytes>): (r: Result<Body, SnapshotError>)
    ensures r.Ok? ==> 1 <= r.value.lines <= |lines|
  {
    if lines == [] then Err(NotTerminated(header.table))
    else if IsEnd(lines[0]) then Ok(Body([], 1))
    else
      var row := ReadRow(header, lines[0]);
      if row.Err? then Err(row.error)
      else
        After([row.value], 1, ReadRows(header, lines[1..]))
  }

  /** `rows` read off `taken` lines, then the rest of the body. */
  function After(
    rows: seq<seq<Option<bytes>>>, taken: nat, rest: Result<Body, SnapshotError>
  ): Result<Body, SnapshotError> {
    match rest
    case Ok(body) => Ok(Body(rows + body.rows, taken + body.lines))
    case Err(e) => Err(e)
  }

  lemma AfterPush(rows: seq<seq<Option<bytes>>>, taken: nat, row: seq<Option<bytes>>, rest: Result<Body, SnapshotError>)
    ensures After(rows, taken, After([row], 1, rest)) == After(rows + [row], taken + 1, rest)
  {
    if rest.Ok? {
      assert rows + ([row] + rest.value.rows) == rows + [row] + rest.value.rows;
    }
  }

  lemma AfterNothing(rest: Result<Body, SnapshotError>)
    ensures After([], 0, rest) == rest
  {
    if rest.Ok? {
      assert [] + rest.value.rows == rest.value.rows;
    }
  }

  /** The dump's blocks in order. Every block is read to its end, wanted or not. */
  function ReadBlocks(lines: seq<bytes>): Result<seq<Block>, SnapshotError> {
    if lines == [] then Ok([])
    else
      var header := ParseHeader(lines[0]);
      if header.None? then ReadBlocks(lines[1..])
      else
        var body := ReadRows(header.value, lines[1..]);
        if body.Err? then Err(body.error)
        else
          var block := Block(header.value.table, header.value.columns, body.value.rows);
          Extend([block], ReadBlocks(lines[1 + body.value.lines..]))
  }

  // ----- the script's reader ------------------------------------------------------------------

  method ReadFields(header: Header, line: bytes) returns (r: Result<seq<Option<bytes>>, SnapshotError>)
    ensures r == ReadRow(header, line)
  {
    var fields := Split(Chomp(line), TAB);
    if |fields| != |header.columns| {
      return Err(WrongFieldCount(header.table));
    }
    var row: seq<Option<bytes>> := [];
    var i := 0;
    assert fields[0..] == fields;
    ExtendNothing(DecodeAll(fields));
    while i < |fields|
      invariant 0 <= i <= |fields|
      invariant DecodeAll(fields) == Extend(row, DecodeAll(fields[i..]))
    {
      var field := DecodeField(fields[i]);
      if field.Err? {
        return Err(field.error);
      }
      assert fields[i..][1..] == fields[i + 1..];
      ExtendPush(row, field.value, DecodeAll(fields[i + 1..]));
      row := row + [field.value];
      i := i + 1;
    }
    ExtendEnd<Option<bytes>, SnapshotError>(row);
    return Ok(row);
  }

  /** What `ReadRows` makes of the line it stands at. */
  lemma AtRow(header: Header, lines: seq<bytes>, i: nat)
    requires i < |lines|
    ensures var row := ReadRow(header, lines[i]);
      ReadRows(header, lines[i..]) ==
        if IsEnd(lines[i]) then Ok(Body([], 1))
        else if row.Err? then Err(row.error)
        else After([row.value], 1, ReadRows(header, lines[i + 1..]))
  {
    assert lines[i..][1..] == lines[i + 1..];
  }

  method ReadBody(header: Header, lines: seq<bytes>, start: nat) returns (r: Result<Body, SnapshotError>)
    requires start <= |lines|
    ensures r == ReadRows(header, lines[start..])
  {
    hide ReadRow, ReadRows;
    var rows: seq<seq<Option<bytes>>> := [];
    var i := start;
    AfterNothing(ReadRows(header, lines[start..]));
    while i < |lines|
      invariant start <= i <= |lines|
      invariant ReadRows(header, lines[start..]) == After(rows, i - start, ReadRows(header, lines[i..]))
    {
      AtRow(header, lines, i);
      if IsEnd(lines[i]) {
        assert rows + [] == rows;
        return Ok(Body(rows, i + 1 - start));
      }
      var row := ReadFields(header, lines[i]);
      if row.Err? {
        return Err(row.error);
      }
      AfterPush(rows, i - start, row.value, ReadRows(header, lines[i + 1..]));
      rows := rows + [row.value];
      i := i + 1;
    }
    assert lines[i..] == [];
    NoLinesLeft(header);
    return Err(NotTerminated(header.table));
  }

  lemma NoLinesLeft(header: Header)
    ensures ReadRows(header, []) == Err(NotTerminated(header.table))
  {
  }

  /** What `ReadBlocks` makes of the line it stands at. */
  lemma AtLine(lines: seq<bytes>, i: nat)
    requires i < |lines|
    ensures var header := ParseHeader(lines[i]);
      if header.None? then ReadBlocks(lines[i..]) == ReadBlocks(lines[i + 1..])
      else
        var body := ReadRows(header.value, lines[i + 1..]);
        ReadBlocks(lines[i..]) ==
          if body.Err? then Err(body.error)
          else Extend(
            [Block(header.value.table, header.value.columns, body.value.rows)],
            ReadBlocks(lines[i + 1 + body.value.lines..]))
  {
    hide ParseHeader, ReadRow, ReadRows;
    assert lines[i..][1..] == lines[i + 1..];
    var header := ParseHeader(lines[i]);
    if header.Some? {
      var body := ReadRows(header.value, lines[i + 1..]);
      if body.Ok? {
        assert lines[i..][1 + body.value.lines..] == lines[i + 1 + body.value.lines..];
      }
    }
  }

  /** One stream of lines, consumed in place: a block's rows are read off it before the next header. */
  method CopyBlocks(lines: seq<bytes>) returns (r: Result<seq<Block>, SnapshotError>)
    ensures r == ReadBlocks(lines)
  {
    hide ParseHeader, ReadRows;
    var blocks: seq<Block> := [];
    var i := 0;
    assert lines[0..] == lines;
    ExtendNothing(ReadBlocks(lines));
    while i < |lines|
      invariant 0 <= i <= |lines|
      invariant ReadBlocks(lines) == Extend(blocks, ReadBlocks(lines[i..]))
    {
      AtLine(lines, i);
      var header := ParseHeader(lines[i]);
      i := i + 1;
      if header.Some? {
        var body := ReadBody(header.value, lines, i);
        if body.Err? {
          return Err(body.error);
        }
        var block := Block(header.value.table, header.value.columns, body.value.rows);
        i := i + body.value.lines;
        ExtendPush(blocks, block, ReadBlocks(lines[i..]));
        blocks := blocks + [block];
      }
    }
    ExtendEnd<Block, SnapshotError>(blocks);
    return Ok(blocks);
  }
}
