/**
 * The header search: LIKE patterns built from escaped text, under LIKE as PostgreSQL defines it
 * (section 9.7.1 of its documentation, with backslash as the escape character).
 */
module NameSearch {
  import opened CaseFold

  /** `text LIKE pattern` */
  predicate Like(text: string, pattern: string)
    decreases |pattern|, |text|
  {
    if pattern == "" then text == ""
    else if pattern[0] == '%' then
      Like(text, pattern[1..]) || (text != "" && Like(text[1..], pattern))
    else if pattern[0] == '_' then
      text != "" && Like(text[1..], pattern[1..])
    else if pattern[0] == '\\' then
      |pattern| > 1 && text != "" && text[0] == pattern[1] && Like(text[1..], pattern[2..])
    else
      text != "" && text[0] == pattern[0] && Like(text[1..], pattern[1..])
  }

  /** A backslash before each backslash, percent sign and underscore. */
  function EscapeLike(q: string): string {
    if q == "" then ""
    else EscapeChar(q[0]) + EscapeLike(q[1..])
  }

  function EscapeChar(c: char): string {
    if c == '\\' || c == '%' || c == '_' then ['\\', c] else [c]
  }

  // ----- the four patterns --------------------------------------------------------------------

  /** Escaped text at the front of a pattern matches itself and nothing else. */
  lemma {:induction false} LikeFront(text: string, q: string, rest: string)
    ensures Like(text, EscapeLike(q) + rest) <==> q <= text && Like(text[|q|..], rest)
  {
    if q == "" {
      assert EscapeLike(q) + rest == rest && text[0..] == text;
    } else {
      var front, back := EscapeChar(q[0]), EscapeLike(q[1..]) + rest;
      var pattern := front + back;
      assert EscapeLike(q) + rest == pattern;
      assert pattern[|front|..] == back;
      if text != "" {
        LikeFront(text[1..], q[1..], rest);
        assert |q| <= |text| ==> text[1..][|q[1..]|..] == text[|q|..];
        assert q <= text <==> q[0] == text[0] && q[1..] <= text[1..];
      }
    }
  }

  lemma {:induction false} LikeAnything(text: string)
    ensures Like(text, "%")
  {
    if text != "" {
      LikeAnything(text[1..]);
    }
  }

  lemma {:induction false} LikeAnywhere(text: string, rest: string)
    ensures Like(text, "%" + rest) <==> exists i: nat :: i <= |text| && Like(text[i..], rest)
  {
    var pattern := "%" + rest;
    assert pattern[1..] == rest;
    assert text[0..] == text;
    if text != "" {
      LikeAnywhere(text[1..], rest);
      forall i: nat | i < |text| ensures text[1..][i..] == text[i + 1..] {
      }
      if i: nat :| i <= |text| && Like(text[i..], rest) {
        if i > 0 {
          assert text[1..][i - 1..] == text[i..];
        }
      }
    }
  }

  lemma PrefixPattern(text: string, q: string)
    ensures Like(text, EscapeLike(q) + "%") <==> q <= text
  {
    LikeFront(text, q, "%");
    if q <= text {
      LikeAnything(text[|q|..]);
    }
  }

  lemma ContainsPattern(text: string, q: string)
    ensures Like(text, "%" + EscapeLike(q) + "%") <==> Contains(text, q)
  {
    LikeAnywhere(text, EscapeLike(q) + "%");
    assert "%" + EscapeLike(q) + "%" == "%" + (EscapeLike(q) + "%");
    forall i: nat | i <= |text|
      ensures Like(text[i..], EscapeLike(q) + "%") <==> OccursAt(text, q, i)
    {
      PrefixPattern(text[i..], q);
      assert i + |q| <= |text| ==> text[i..][..|q|] == text[i..i + |q|];
    }
  }

  lemma {:induction false} PlainStart(q: string)
    ensures EscapeLike(" " + q) == " " + EscapeLike(q)
  {
    assert (" " + q)[1..] == q;
  }

  lemma WordStartPattern(text: string, q: string)
    ensures Like(text, "% " + EscapeLike(q) + "%") <==> Contains(text, " " + q)
  {
    ContainsPattern(text, " " + q);
    PlainStart(q);
    assert "%" + EscapeLike(" " + q) + "%" == "% " + EscapeLike(q) + "%";
  }

  // ----- ranking ---------------------------------------------------------------------------------

  /** `name ILIKE contains`, the pattern being lower-case already. */
  predicate Hit(name: string, raw: string) {
    Like(Lower(name), "%" + EscapeLike(Lower(raw)) + "%")
  }

  /** The `ORDER BY CASE`. */
  function Tier(name: string, raw: string): nat {
    var esc := EscapeLike(Lower(raw));
    if Lower(name) == Lower(raw) then 0
    else if Like(Lower(name), esc + "%") then 1
    else if Like(Lower(name), "% " + esc + "%") then 2
    else 3
  }

  /**
   * Whatever is typed, wildcards and backslashes included: the names found are those that contain
   * it, ignoring case, and a hit ranks as equal to it, else as starting with it, else as having a
   * word start with it, else as merely containing it.
   */
  lemma SearchIsLiteral(name: string, raw: string)
    ensures Hit(name, raw) <==> exists i: nat :: AlikeAt(name, raw, i)
    ensures
      Tier(name, raw) ==
        if |name| == |raw| && AlikeAt(name, raw, 0) then 0
        else if AlikeAt(name, raw, 0) then 1
        else if exists i: nat :: AlikeAt(name, " " + raw, i) then 2
        else 3
    ensures Tier(name, raw) < 3 ==> Hit(name, raw)
  {
    RanksByFolding(name, raw);
    ContainsAlike(name, raw);
    ContainsAlike(name, " " + raw);
    OccursAlike(name, raw, 0);
    var n, q := Lower(name), Lower(raw);
    assert Lower(" " + raw) == " " + q;
    assert n == q <==> |n| == |q| && OccursAt(n, q, 0);
    assert q <= n <==> OccursAt(n, q, 0);
  }

  lemma RanksByFolding(name: string, raw: string)
    ensures Hit(name, raw) <==> ContainsInsensitive(name, raw)
    ensures var n, q := Lower(name), Lower(raw);
      Tier(name, raw) ==
        if n == q then 0
        else if q <= n then 1
        else if Contains(n, " " + q) then 2
        else 3
    ensures Tier(name, raw) < 3 ==> Hit(name, raw)
  {
    var n, q := Lower(name), Lower(raw);
    ContainsPattern(n, q);
    PrefixPattern(n, q);
    WordStartPattern(n, q);
    if q <= n {
      assert OccursAt(n, q, 0);
    }
    if Contains(n, " " + q) {
      var i: nat :| i <= |n| && OccursAt(n, " " + q, i);
      assert n[i..i + |" " + q|][1..] == n[i + 1..i + 1 + |q|];
      assert OccursAt(n, q, i + 1);
    }
  }
}
