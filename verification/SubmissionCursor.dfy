/** The opaque cursor of the moderation queue: `<sort-key ISO>_<type>_<id>`, printed and parsed. */
module SubmissionCursor {
  import opened Basics
  import opened SubmissionOrder

  datatype BadRequest = InvalidCursor(raw: string)

  predicate Digit(c: char) {
    '0' <= c <= '9'
  }

  /** `YYYY-MM-DDTHH:MM:SS.mmmZ`, what `toISOString` prints. */
  predicate IsIso(s: string) {
    && |s| == 24
    && s[4] == '-' && s[7] == '-' && s[10] == 'T' && s[13] == ':' && s[16] == ':' && s[19] == '.' && s[23] == 'Z'
    && forall i :: 0 <= i < 24 && i !in {4, 7, 10, 13, 16, 19, 23} ==> Digit(s[i])
  }

  /** The reviewable types a cursor may name: distinct, and without the separator. */
  ghost predicate ValidKinds(kinds: seq<string>) {
    Distinct(kinds) && forall k :: k in kinds ==> '_' !in k
  }

  ghost predicate ValidItem(kinds: seq<string>, item: Item) {
    IsIso(item.at) && item.kind in kinds && item.id != ""
  }

  function Print(item: Item): string {
    item.at + "_" + item.kind + "_" + item.id
  }

  /** `s.indexOf(c, from)` */
  function IndexOf(s: string, c: char, from: nat): (i: int)
    ensures i == -1 || from <= i < |s|
    ensures i >= 0 ==> s[i] == c && forall j :: from <= j < i ==> s[j] != c
    ensures i == -1 ==> forall j :: from <= j < |s| ==> s[j] != c
    decreases |s| - from
  {
    if from >= |s| then -1 else if s[from] == c then from else IndexOf(s, c, from + 1)
  }

  function Parse(kinds: seq<string>, raw: string): Result<Item, BadRequest> {
    var first := IndexOf(raw, '_', 0);
    if first < 0 then Err(InvalidCursor(raw))
    else
      var second := IndexOf(raw, '_', first + 1);
      if second < 0 then Err(InvalidCursor(raw))
      else
        var item := Item(raw[..first], raw[first + 1..second], raw[second + 1..]);
        if !IsIso(item.at) || item.id == "" || item.kind !in kinds then Err(InvalidCursor(raw))
        else Ok(item)
  }

  lemma NoUnderscore(s: string)
    requires IsIso(s)
    ensures '_' !in s
  {
  }

  /** A printed cursor parses back to the item it names, and only what parses is printed so:
      two items never share a cursor, even where an id contains underscores. */
  lemma CursorRoundTrip(kinds: seq<string>, item: Item, raw: string)
    requires ValidKinds(kinds) && ValidItem(kinds, item)
    ensures Parse(kinds, raw) == Ok(item) <==> raw == Print(item)
  {
    var p := Print(item);
    NoUnderscore(item.at);
    var m := |item.at|;
    var n := m + 1 + |item.kind|;
    assert p[..m] == item.at && p[m] == '_';
    assert forall j :: 0 <= j < m ==> p[j] == item.at[j];
    assert p[m + 1..n] == item.kind && p[n] == '_';
    assert forall j :: m + 1 <= j < n ==> p[j] == item.kind[j - (m + 1)];
    assert p[n + 1..] == item.id;
    assert IndexOf(p, '_', 0) == m;
    assert IndexOf(p, '_', m + 1) == n;
    if Parse(kinds, raw) == Ok(item) {
      var first := IndexOf(raw, '_', 0);
      var second := IndexOf(raw, '_', first + 1);
      assert raw == raw[..first] + "_" + raw[first + 1..second] + "_" + raw[second + 1..];
    }
  }
}
