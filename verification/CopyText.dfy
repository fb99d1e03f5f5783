/**
 * Fields of PostgreSQL's COPY text format: the snapshot script's decoder, and the server's
 * own printer ("Text Format" under "File Formats" on the COPY reference page) as its partner.
 */
module CopyText {
  import opened Basics

  type byte = b: int | 0 <= b < 256
  type bytes = seq<byte>

  const BACKSLASH: byte := 92
  const TAB: byte := 9
  const NEWLINE: byte := 10

  /** `\N` */
  const NULL: bytes := [92, 78]

  datatype SnapshotError =
    | DanglingBackslash
    | WrongFieldCount(table: bytes)
    | NotTerminated(table: bytes)

  // ----- decoding --------------------------------------------------------------------

  predicate Octal(b: byte) {
    48 <= b <= 55
  }

  predicate Hex(b: byte) {
    48 <= b <= 57 || 97 <= b <= 102 || 65 <= b <= 70
  }

  function HexValue(b: byte): (v: nat)
    requires Hex(b)
    ensures v < 16
  {
    if b <= 57 then b - 48 else if b >= 97 then b - 87 else b - 55
  }

  /** `\b \f \n \r \t \v`; any other escaped byte stands for itself. */
  function Simple(b: byte): byte {
    if b == 98 then 8
    else if b == 102 then 12
    else if b == 110 then 10
    else if b == 114 then 13
    else if b == 116 then 9
    else if b == 118 then 11
    else b
  }

  /** The value of the octal digits at the front of `s`, at most `n` of them, and how many. */
  function OctalRun(s: bytes, n: nat, v: nat): (nat, nat) {
    if s == [] || n == 0 || !Octal(s[0]) then (v, 0)
    else
      var (w, k) := OctalRun(s[1..], n - 1, v * 8 + (s[0] - 48));
      (w, k + 1)
  }

  function HexRun(s: bytes, n: nat, v: nat): (nat, nat) {
    if s == [] || n == 0 || !Hex(s[0]) then (v, 0)
    else
      var (w, k) := HexRun(s[1..], n - 1, v * 16 + HexValue(s[0]));
      (w, k + 1)
  }

  lemma {:induction false} OctalRunBound(s: bytes, n: nat, v: nat)
    ensures OctalRun(s, n, v).1 <= |s| && OctalRun(s, n, v).1 <= n
  {
    if !(s == [] || n == 0 || !Octal(s[0])) {
      OctalRunBound(s[1..], n - 1, v * 8 + (s[0] - 48));
    }
  }

  /** Two hex digits make a byte. */
  lemma HexPair(s: bytes)
    ensures var (v, k) := HexRun(s, 2, 0); v < 256 && k <= |s|
  {
    if s != [] && Hex(s[0]) {
      var v := HexValue(s[0]);
      assert HexRun(s, 2, 0) == (HexRun(s[1..], 1, v).0, HexRun(s[1..], 1, v).1 + 1);
      if |s| > 1 && Hex(s[1]) {
        assert HexRun(s[1..], 1, v) == (v * 16 + HexValue(s[1]), 1);
      }
    }
  }

  /** What follows a backslash: the byte it stands for, and how many bytes it takes. */
  function Escape(s: bytes): (r: (byte, nat))
    requires s != []
    ensures 1 <= r.1 <= |s|
  {
    if Octal(s[0]) then
      OctalRunBound(s[1..], 2, s[0] - 48);
      var (v, k) := OctalRun(s, 3, 0);
      (v % 256, k)
    else if s[0] == 120 && |s| > 1 && Hex(s[1]) then
      HexPair(s[1..]);
      var (v, k) := HexRun(s[1..], 2, 0);
      (v, k + 1)
    else (Simple(s[0]), 1)
  }

  function Unescape(raw: bytes): Result<bytes, SnapshotError> {
    if raw == [] then Ok([])
    else if raw[0] != BACKSLASH then Extend([raw[0]], Unescape(raw[1..]))
    else if |raw| == 1 then Err(DanglingBackslash)
    else
      var (b, n) := Escape(raw[1..]);
      Extend([b], Unescape(raw[1 + n..]))
  }

  /** One field: null, or its bytes. */
  function Decode(raw: bytes): Result<Option<bytes>, SnapshotError> {
    if raw == NULL then Ok(None)
    else match Unescape(raw)
      case Ok(value) => Ok(Some(value))
      case Err(e) => Err(e)
  }

  // ----- the script's decoder ------------------------------------------------------------

  lemma UnescapeAt(raw: bytes, i: nat)
    requires i + 1 < |raw| && raw[i] == BACKSLASH
    ensures var (b, n) := Escape(raw[i + 1..]); Unescape(raw[i..]) == Extend([b], Unescape(raw[i + 1 + n..]))
  {
    hide Escape;
    var (b, n) := Escape(raw[i + 1..]);
    assert raw[i..][1..] == raw[i + 1..];
    assert raw[i..][1 + n..] == raw[i + 1 + n..];
  }

  /** The escape after the backslash: the byte it stands for, and where the field goes on. */
  method ReadEscape(raw: bytes, i: nat) returns (b: byte, j: nat)
    requires i < |raw|
    ensures i < j <= |raw| && Escape(raw[i..]) == (b, j - i)
  {
    hide Unescape;
    var c := raw[i];
    var v: nat;
    if Octal(c) {
      j, v := OctalDigits(raw, i, i + 3, 0);
      b := v % 256;
    } else if c == 120 && i + 1 < |raw| && Hex(raw[i + 1]) {
      assert raw[i..][1..] == raw[i + 1..];
      j, v := HexDigits(raw, i + 1, i + 3, 0);
      HexPair(raw[i + 1..]);
      b := v;
    } else {
      b, j := Simple(c), i + 1;
    }
  }

  method DecodeField(raw: bytes) returns (r: Result<Option<bytes>, SnapshotError>)
    ensures r == Decode(raw)
  {
    if raw == NULL {
      return Ok(None);
    }
    if BACKSLASH !in raw {
      PlainUnescape(raw);
      return Ok(Some(raw));
    }
    hide Escape;
    var out: bytes := [];
    var i, n := 0, |raw|;
    assert raw[0..] == raw;
    ExtendNothing(Unescape(raw));
    while i < n
      invariant 0 <= i <= n
      invariant Unescape(raw) == Extend(out, Unescape(raw[i..]))
    {
      var c := raw[i];
      if c != BACKSLASH {
        assert raw[i..][1..] == raw[i + 1..];
        ExtendPush(out, c, Unescape(raw[i + 1..]));
        out := out + [c];
        i := i + 1;
        continue;
      }
      i := i + 1;
      if i >= n {
        return Err(DanglingBackslash);
      }
      UnescapeAt(raw, i - 1);
      var b, j := ReadEscape(raw, i);
      ExtendPush(out, b, Unescape(raw[j..]));
      out := out + [b];
      i := j;
    }
    assert raw[n..] == [] && out + [] == out;
    return Ok(Some(out));
  }

  /** Read octal digits from `i`, stopping at `end`, the field's end or another byte. */
  method OctalDigits(raw: bytes, i: nat, end: nat, start: nat) returns (j: nat, v: nat)
    requires i <= |raw| && i <= end
    ensures i <= j <= |raw| && (v, j - i) == OctalRun(raw[i..], end - i, start)
  {
    j, v := i, start;
    while j < |raw| && j < end && Octal(raw[j])
      invariant i <= j <= |raw| && j <= end
      invariant var (w, k) := OctalRun(raw[j..], end - j, v);
        OctalRun(raw[i..], end - i, start) == (w, k + (j - i))
    {
      assert raw[j..][1..] == raw[j + 1..];
      v := v * 8 + (raw[j] - 48);
      j := j + 1;
    }
  }

  method HexDigits(raw: bytes, i: nat, end: nat, start: nat) returns (j: nat, v: nat)
    requires i <= |raw| && i <= end
    ensures i <= j <= |raw| && (v, j - i) == HexRun(raw[i..], end - i, start)
  {
    j, v := i, start;
    while j < |raw| && j < end && Hex(raw[j])
      invariant i <= j <= |raw| && j <= end
      invariant var (w, k) := HexRun(raw[j..], end - j, v);
        HexRun(raw[i..], end - i, start) == (w, k + (j - i))
    {
      assert raw[j..][1..] == raw[j + 1..];
      v := v * 16 + HexValue(raw[j]);
      j := j + 1;
    }
  }

  lemma {:induction false} PlainUnescape(raw: bytes)
    requires BACKSLASH !in raw
    ensures Unescape(raw) == Ok(raw)
  {
    if raw != [] {
      PlainUnescape(raw[1..]);
      assert raw == [raw[0]] + raw[1..];
    }
  }

  // ----- the server's printer, and the round trip ---------------------------------------------

  function EncodeByte(b: byte): bytes {
    if b == 8 then [92, 98]
    else if b == 9 then [92, 116]
    else if b == 10 then [92, 110]
    else if b == 11 then [92, 118]
    else if b == 12 then [92, 102]
    else if b == 13 then [92, 114]
    else if b == 92 then [92, 92]
    else [b]
  }

  function EncodeBytes(value: bytes): bytes {
    if value == [] then [] else EncodeByte(value[0]) + EncodeBytes(value[1..])
  }

  function EncodeField(field: Option<bytes>): bytes {
    match field
    case None => NULL
    case Some(value) => EncodeBytes(value)
  }

  lemma UnescapeFront(b: byte, rest: bytes)
    ensures Unescape(EncodeByte(b) + rest) == Extend([b], Unescape(rest))
  {
    var front := EncodeByte(b);
    var raw := front + rest;
    if |front| == 1 {
      assert raw[1..] == rest;
    } else {
      assert raw[0] == BACKSLASH && |raw| > 1;
      assert raw[1..] == [front[1]] + rest;
      assert Escape(raw[1..]) == (b, 1);
      assert raw[2..] == rest;
    }
  }

  lemma {:induction false} UnescapeEncoded(value: bytes)
    ensures Unescape(EncodeBytes(value)) == Ok(value)
  {
    if value != [] {
      UnescapeEncoded(value[1..]);
      UnescapeFront(value[0], EncodeBytes(value[1..]));
      assert value == [value[0]] + value[1..];
    }
  }

  lemma {:induction false} EncodedShape(value: bytes)
    ensures TAB !in EncodeBytes(value) && NEWLINE !in EncodeBytes(value)
    ensures var raw := EncodeBytes(value);
      |raw| >= 2 && raw[0] == BACKSLASH ==> raw[1] in {92, 98, 102, 110, 114, 116, 118}
    ensures EncodeBytes(value) != [BACKSLASH]
  {
    if value != [] {
      EncodedShape(value[1..]);
    }
  }

  /** Whatever the server prints for a field reads back as that field, null included. */
  lemma FieldRoundTrip(field: Option<bytes>)
    ensures Decode(EncodeField(field)) == Ok(field)
  {
    if field.Some? {
      UnescapeEncoded(field.value);
      EncodedShape(field.value);
    }
  }

  /** No printed field holds a tab or a newline, none but null reads as null, and none starts
      like the end-of-data line. */
  lemma FieldIsQuiet(field: Option<bytes>)
    ensures var raw := EncodeField(field);
      && TAB !in raw && NEWLINE !in raw
      && (raw == NULL <==> field == None)
      && (|raw| >= 2 && raw[0] == BACKSLASH ==> raw[1] != 46)
      && raw != [BACKSLASH]
  {
    if field.Some? {
      EncodedShape(field.value);
    }
  }
}
