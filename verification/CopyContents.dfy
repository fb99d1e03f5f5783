/** What the reader of COPY text takes each line and each escape for, told from their bytes. */
module CopyContents {
  import opened Basics
  import opened CopyText
  import opened CopyReader

  // ----- escapes -------------------------------------------------------------------------------------

  /** `b` is the octal digit of value `v`. */
  predicate OctalDigit(b: byte, v: int) {
    b == 48 + v && 0 <= v < 8
  }

  /** `b` is a hexadecimal digit, of either case, of value `v`. */
  predicate HexDigit(b: byte, v: int) {
    (b == 48 + v && 0 <= v < 10) || ((b == 97 + v - 10 || b == 65 + v - 10) && 10 <= v < 16)
  }

  predicate NoOctal(s: bytes, i: nat) {
    i < |s| ==> !(48 <= s[i] < 56)
  }

  predicate NoHex(s: bytes, i: nat) {
    i < |s| ==> !(48 <= s[i] < 58 || 97 <= s[i] < 103 || 65 <= s[i] < 71)
  }

  /** One to three octal digits, as many as there are, stand for their value, of which a byte is kept. */
  lemma OctalEscape(s: bytes, a: int, b: int, c: int)
    requires s != [] && OctalDigit(s[0], a)
    ensures NoOctal(s, 1) ==> Escape(s) == (a, 1)
    ensures |s| > 1 && OctalDigit(s[1], b) && NoOctal(s, 2) ==> Escape(s) == (a * 8 + b, 2)
    ensures |s| > 2 && OctalDigit(s[1], b) && OctalDigit(s[2], c) ==>
      Escape(s) == ((a * 64 + b * 8 + c) % 256, 3)
  {
    assert OctalRun(s, 3, 0) == (OctalRun(s[1..], 2, a).0, OctalRun(s[1..], 2, a).1 + 1);
    if |s| > 1 && OctalDigit(s[1], b) {
      var t, v := s[1..], a * 8 + b;
      assert t[1..] == s[2..];
      assert OctalRun(t, 2, a) == (OctalRun(s[2..], 1, v).0, OctalRun(s[2..], 1, v).1 + 1);
      if |s| > 2 && OctalDigit(s[2], c) {
        assert OctalRun(s[2..], 1, v) == (v * 8 + c, 1);
      }
    }
  }

  /** An `x` before one or two hexadecimal digits, as many as there are, stands for their value. */
  lemma HexEscape(s: bytes, a: int, b: int)
    requires |s| > 1 && s[0] == 120 && HexDigit(s[1], a)
    ensures NoHex(s, 2) ==> Escape(s) == (a, 2)
    ensures |s| > 2 && HexDigit(s[2], b) ==> Escape(s) == (a * 16 + b, 3)
  {
    var t := s[1..];
    assert t[1..] == s[2..];
    assert HexRun(t, 2, 0) == (HexRun(s[2..], 1, a).0, HexRun(s[2..], 1, a).1 + 1);
    if |s| > 2 && HexDigit(s[2], b) {
      assert HexRun(s[2..], 1, a) == (a * 16 + b, 1);
    }
  }

  /** The six letters, and any other byte, an `x` with no digit included, for itself. */
  lemma LetterEscape(s: bytes)
    requires s != [] && !(48 <= s[0] < 56) && (s[0] != 120 || |s| == 1 || NoHex(s, 1))
    ensures Escape(s).1 == 1
    ensures
      match s[0]
      case 98 => Escape(s).0 == 8
      case 102 => Escape(s).0 == 12
      case 110 => Escape(s).0 == 10
      case 114 => Escape(s).0 == 13
      case 116 => Escape(s).0 == 9
      case 118 => Escape(s).0 == 11
      case other => Escape(s).0 == other
  {
  }

  /** Two letters at the front of a field and at no other length are null; nothing else is. */
  lemma NullExactly(raw: bytes)
    ensures Decode(raw) == Ok(None) <==> raw == [92, 78]
    ensures raw != [92, 78] && 92 !in raw ==> Decode(raw) == Ok(Some(raw))
  {
    if 92 !in raw {
      PlainUnescape(raw);
    }
  }

  // ----- fields that cannot be read ------------------------------------------------------------------

  /** How many backslashes a field ends in. */
  function TrailingRun(s: bytes): (n: nat)
    ensures n <= |s| && forall i :: |s| - n <= i < |s| ==> s[i] == 92
    ensures n < |s| ==> s[|s| - n - 1] != 92
  {
    if s == [] || s[|s| - 1] != 92 then 0 else 1 + TrailingRun(s[..|s| - 1])
  }

  lemma RunOfTail(s: bytes, k: nat)
    requires k <= |s|
    ensures TrailingRun(s[k..]) < |s| - k ==> TrailingRun(s) == TrailingRun(s[k..])
    ensures TrailingRun(s[k..]) == |s| - k ==> TrailingRun(s) >= |s| - k
    ensures TrailingRun(s[k..]) == |s| - k && k > 0 && s[k - 1] != 92 ==> TrailingRun(s) == |s| - k
  {
    var t := s[k..];
    assert forall j :: k <= j < |s| ==> s[j] == t[j - k];
  }

  /** No escape but that of a backslash takes a backslash with it. */
  lemma EscapeTakesNoOther(s: bytes)
    requires s != [] && s[0] != 92
    ensures s[Escape(s).1 - 1] != 92
  {
    if 48 <= s[0] < 56 {
      OctalRunTakes(s, 3, 0);
    } else if s[0] == 120 && |s| > 1 && Hex(s[1]) {
      HexRunTakes(s[1..], 2, 0);
    }
  }

  lemma {:induction false} OctalRunTakes(s: bytes, n: nat, v: nat)
    ensures var k := OctalRun(s, n, v).1; k <= |s| && forall i :: 0 <= i < k ==> s[i] != 92
  {
    if !(s == [] || n == 0 || !Octal(s[0])) {
      OctalRunTakes(s[1..], n - 1, v * 8 + (s[0] - 48));
    }
  }

  lemma {:induction false} HexRunTakes(s: bytes, n: nat, v: nat)
    ensures var k := HexRun(s, n, v).1; k <= |s| && forall i :: 0 <= i < k ==> s[i] != 92
  {
    if !(s == [] || n == 0 || !Hex(s[0])) {
      HexRunTakes(s[1..], n - 1, v * 16 + HexValue(s[0]));
    }
  }

  /** A field cannot be read exactly when it ends in an odd number of backslashes. */
  lemma {:induction false} DanglingExactly(raw: bytes)
    ensures Decode(raw).Err? <==> TrailingRun(raw) % 2 == 1
    decreases |raw|
  {
    UnescapeFails(raw);
  }

  lemma {:induction false} UnescapeFails(raw: bytes)
    ensures Unescape(raw).Err? <==> TrailingRun(raw) % 2 == 1
    decreases |raw|
  {
    hide Escape, TrailingRun;
    if raw != [] {
      if raw[0] != 92 {
        UnescapeFails(raw[1..]);
        RunOfTail(raw, 1);
      } else if |raw| > 1 {
        UnescapeFails(raw[1 + Escape(raw[1..]).1..]);
        EscapeKeepsParity(raw);
      }
    }
  }

  /** An escape takes both backslashes of two, and of one it leaves none in the run it ends. */
  lemma EscapeKeepsParity(raw: bytes)
    requires |raw| > 1 && raw[0] == 92
    ensures var n := Escape(raw[1..]).1;
      1 + n <= |raw| && TrailingRun(raw) % 2 == TrailingRun(raw[1 + n..]) % 2
  {
    hide Escape, TrailingRun;
    var rest := raw[1..];
    if rest[0] == 92 {
      LetterEscape(rest);
      assert Escape(rest).1 == 1;
      TwoOff(raw);
    } else {
      EscapeTakesNoOther(rest);
      AfterOther(raw, 1 + Escape(rest).1);
    }
  }

  lemma AfterOther(s: bytes, k: nat)
    requires 0 < k <= |s| && s[k - 1] != 92
    ensures TrailingRun(s) == TrailingRun(s[k..])
  {
    hide TrailingRun;
    RunOfTail(s, k);
  }

  lemma TwoOff(raw: bytes)
    requires |raw| > 1 && raw[0] == 92 && raw[1] == 92
    ensures TrailingRun(raw) % 2 == TrailingRun(raw[2..]) % 2
  {
    hide TrailingRun;
    TwoMore(raw);
    SameParity(TrailingRun(raw), TrailingRun(raw[2..]));
  }

  lemma TwoMore(raw: bytes)
    requires |raw| > 1 && raw[0] == 92 && raw[1] == 92
    ensures TrailingRun(raw) == TrailingRun(raw[2..]) || TrailingRun(raw) == TrailingRun(raw[2..]) + 2
  {
    hide TrailingRun;
    RunOfTail(raw, 2);
  }

  lemma SameParity(a: nat, b: nat)
    requires a == b || a == b + 2
    ensures a % 2 == b % 2
  {
  }

  // ----- lines --------------------------------------------------------------------------------------------

  /** A backslash and a dot, with or without the newline, end a table's data; no other line does. */
  lemma EndExactly(line: bytes)
    ensures IsEnd(line) <==> line == [92, 46] || line == [92, 46, 10]
  {
  }

  /** Splitting keeps every byte but the separators, and takes every separator. */
  lemma {:induction false} SplitExactly(s: bytes, c: byte)
    ensures Join(Split(s, c), c) == s && forall part :: part in Split(s, c) ==> c !in part
    decreases |s|
  {
    var i := IndexOf(s, c);
    if i < |s| {
      SplitExactly(s[i + 1..], c);
      assert s == s[..i] + [c] + s[i + 1..];
      assert Split(s, c)[1..] == Split(s[i + 1..], c);
    }
  }

  /** A row is a line without its newline, split at tabs into as many readable fields as the table has columns. */
  lemma {:induction false} RowExactly(header: Header, line: bytes)
    ensures var data := if line != [] && line[|line| - 1] == 10 then line[..|line| - 1] else line;
      var fields := Split(data, 9);
      && (ReadRow(header, line).Ok? <==>
           |fields| == |header.columns| && forall i :: 0 <= i < |fields| ==> TrailingRun(fields[i]) % 2 == 0)
      && (ReadRow(header, line).Ok? ==> forall i :: 0 <= i < |fields| ==>
           Decode(fields[i]) == Ok(ReadRow(header, line).value[i]))
  {
    DecodesAll(Split(Chomp(line), TAB));
  }

  lemma {:induction false} DecodesAll(fields: seq<bytes>)
    ensures DecodeAll(fields).Ok? <==> forall i :: 0 <= i < |fields| ==> TrailingRun(fields[i]) % 2 == 0
    ensures DecodeAll(fields).Ok? ==>
      forall i :: 0 <= i < |fields| ==> Decode(fields[i]) == Ok(DecodeAll(fields).value[i])
  {
    hide Decode, TrailingRun;
    if fields != [] {
      DecodesAll(fields[1..]);
      DanglingExactly(fields[0]);
      assert forall i :: 1 <= i < |fields| ==> fields[i] == fields[1..][i - 1];
    }
  }

  // ----- the header line ------------------------------------------------------------------------------------

  /** A letter, a digit, an underscore, a dot or a quote. */
  predicate InName(b: byte) {
    65 <= b < 91 || 97 <= b < 123 || 48 <= b < 58 || b == 95 || b == 46 || b == 34
  }

  predicate Blank(b: byte) {
    b == 32 || b == 9 || b == 10 || b == 11 || b == 12 || b == 13
  }

  /** `COPY token (list) FROM stdin;`, and blanks. */
  ghost predicate HeaderOf(line: bytes, token: bytes, list: bytes, tail: bytes) {
    && line == [67, 79, 80, 89, 32] + (token + ([32, 40] + (list
         + ([41, 32, 70, 82, 79, 77, 32, 115, 116, 100, 105, 110, 59] + tail))))
    && token != [] && (forall i :: 0 <= i < |token| ==> InName(token[i]))
    && 41 !in list && forall i :: 0 <= i < |tail| ==> Blank(tail[i])
  }

  /** A line opens a table exactly when it has that form, which it can have in one way only. */
  lemma HeaderExactly(line: bytes)
    ensures ParseHeader(line).Some? <==> exists token, list, tail :: HeaderOf(line, token, list, tail)
    ensures forall token, list, tail :: HeaderOf(line, token, list, tail) ==>
      ParseHeader(line) == Some(Header(Without(token, 34), Columns(Split(list, 44))))
  {
    forall token, list, tail | HeaderOf(line, token, list, tail)
      ensures ParseHeader(line) == Some(Header(Without(token, 34), Columns(Split(list, 44))))
    {
      HeaderRead(line, token, list, tail);
    }
    if ParseHeader(line).Some? {
      HeaderFound(line);
    }
  }

  lemma Peel(a: bytes, b: bytes)
    ensures |a + b| == |a| + |b| && (a + b)[..|a|] == a && (a + b)[|a|..] == b
  {
  }

  lemma Front(s: bytes, a: bytes)
    requires StartsWith(s, a)
    ensures |a| <= |s| && s == a + s[|a|..]
  {
  }

  lemma Cut(s: bytes, n: nat)
    requires n <= |s|
    ensures s == s[..n] + s[n..]
  {
  }

  lemma HeaderParts(line: bytes) returns (named: bytes, n: nat, listed: bytes, m: nat)
    requires ParseHeader(line).Some?
    ensures StartsWith(line, COPY) && named == line[5..]
    ensures 0 < n <= |named| && (forall i :: 0 <= i < n ==> NameByte(named[i]))
    ensures StartsWith(named[n..], OPEN) && listed == named[n..][2..]
    ensures m <= |listed| && (forall i :: 0 <= i < m ==> listed[i] != CLOSE)
    ensures StartsWith(listed[m..], FROM_STDIN) && AllWhitespace(listed[m..][13..])
  {
    hide Without, Columns, NameRun, IndexOf, Split, AllWhitespace, NameByte;
    named := line[5..];
    n := NameRun(named);
    listed := named[n + 2..];
    assert listed == named[n..][2..];
    m := IndexOf(listed, CLOSE);
    assert listed[m..][13..] == listed[m + 13..];
  }

  lemma HeaderFound(line: bytes)
    requires ParseHeader(line).Some?
    ensures exists token, list, tail :: HeaderOf(line, token, list, tail)
  {
    hide ParseHeader, StartsWith, HeaderOf, AllWhitespace, NameByte;
    var named, n, listed, m := HeaderParts(line);
    Front(line, COPY);
    Cut(named, n);
    Front(named[n..], OPEN);
    Cut(listed, m);
    Front(listed[m..], FROM_STDIN);
    FormOf(line, named[..n], listed[..m], listed[m..][13..]);
  }

  lemma FormOf(line: bytes, token: bytes, list: bytes, tail: bytes)
    requires line == COPY + (token + (OPEN + (list + (FROM_STDIN + tail))))
    requires token != [] && (forall i :: 0 <= i < |token| ==> NameByte(token[i]))
    requires (forall i :: 0 <= i < |list| ==> list[i] != CLOSE) && AllWhitespace(tail)
    ensures HeaderOf(line, token, list, tail)
  {
  }

  lemma HeaderRead(line: bytes, token: bytes, list: bytes, tail: bytes)
    requires HeaderOf(line, token, list, tail)
    ensures ParseHeader(line) == Some(Header(Without(token, 34), Columns(Split(list, 44))))
  {
    hide Without, Columns, NameRun, IndexOf, Split;
    var closing := FROM_STDIN + tail;
    var listed := list + closing;
    var opening := OPEN + listed;
    var named := token + opening;
    Peel(COPY, named);
    Peel(token, opening);
    Peel(OPEN, listed);
    Peel(list, closing);
    Peel(FROM_STDIN, tail);
    NameEnds(named, token, opening);
    assert named[|token| + 2..] == opening[2..];
    FirstClose(list, closing);
    assert listed[|list| + 13..] == closing[13..];
  }

  lemma FirstClose(list: bytes, closed: bytes)
    requires 41 !in list && closed != [] && closed[0] == 41
    ensures IndexOf(list + closed, CLOSE) == |list|
  {
    assert list + closed == list + [CLOSE] + closed[1..];
    IndexOfFirst(list, CLOSE, closed[1..]);
  }

  lemma NameEnds(s: bytes, token: bytes, rest: bytes)
    requires s == token + rest && rest != [] && !NameByte(rest[0])
    requires forall i :: 0 <= i < |token| ==> InName(token[i])
    ensures NameRun(s) == |token|
  {
    var n := NameRun(s);
    assert s[|token|] == rest[0];
    assert forall i :: 0 <= i < |token| ==> s[i] == token[i];
  }

  /** The table's name is the token without its quotes. */
  lemma {:induction false} QuotesDropped(token: bytes)
    ensures var name := Without(token, 34);
      34 !in name && forall b :: b != 34 ==> multiset(name)[b] == multiset(token)[b]
  {
    if token != [] {
      QuotesDropped(token[1..]);
      assert token == [token[0]] + token[1..];
    }
  }

  /** A column's name is its entry of the list without the blanks at its ends, and then without the quotes there. */
  ghost predicate NamedIn(entry: bytes, bare: bytes, name: bytes) {
    && (exists i: nat, j: nat :: Trimmed(entry, bare, i, j)
         && (forall k :: 0 <= k < |entry| && !(i <= k < j) ==> Blank(entry[k])))
    && (bare != [] ==> !Blank(bare[0]) && !Blank(bare[|bare| - 1]))
    && (exists i: nat, j: nat :: Trimmed(bare, name, i, j)
         && (forall k :: 0 <= k < |bare| && !(i <= k < j) ==> bare[k] == 34))
    && (name != [] ==> name[0] != 34 && name[|name| - 1] != 34)
  }

  predicate Trimmed(s: bytes, part: bytes, i: nat, j: nat) {
    i <= j <= |s| && part == s[i..j]
  }

  lemma {:induction false} LeftStripped(s: bytes, drop: byte -> bool) returns (i: nat)
    ensures i <= |s| && StripLeft(s, drop) == s[i..] && forall k :: 0 <= k < i ==> drop(s[k])
    ensures i < |s| ==> !drop(s[i])
  {
    if s != [] && drop(s[0]) {
      i := LeftStripped(s[1..], drop);
      assert s[1..][i..] == s[i + 1..];
      i := i + 1;
    } else {
      i := 0;
    }
  }

  lemma {:induction false} RightStripped(s: bytes, drop: byte -> bool) returns (j: nat)
    ensures j <= |s| && StripRight(s, drop) == s[..j] && forall k :: j <= k < |s| ==> drop(s[k])
    ensures j > 0 ==> !drop(s[j - 1])
  {
    if s != [] && drop(s[|s| - 1]) {
      j := RightStripped(s[..|s| - 1], drop);
      assert s[..|s| - 1][..j] == s[..j];
    } else {
      j := |s|;
      assert s[..j] == s;
    }
  }

  lemma StripsExactly(s: bytes, drop: byte -> bool) returns (i: nat, j: nat)
    ensures Trimmed(s, Strip(s, drop), i, j)
    ensures forall k :: 0 <= k < |s| && !(i <= k < j) ==> drop(s[k])
    ensures var part := Strip(s, drop); part != [] ==> !drop(part[0]) && !drop(part[|part| - 1])
  {
    i := LeftStripped(s, drop);
    var n := RightStripped(s[i..], drop);
    j := i + n;
    assert s[i..][..n] == s[i..j];
    assert forall k :: j <= k < |s| ==> s[k] == s[i..][k - i];
  }

  lemma ColumnsExactly(list: bytes, k: nat)
    requires k < |Split(list, 44)|
    ensures |Columns(Split(list, 44))| == |Split(list, 44)|
    ensures var entry := Split(list, 44)[k];
      NamedIn(entry, Strip(entry, IsSpace()), Columns(Split(list, 44))[k])
  {
    var entry := Split(list, 44)[k];
    var i, j := StripsExactly(entry, IsSpace());
    var i', j' := StripsExactly(Strip(entry, IsSpace()), IsQuote());
  }
}
