/** Case-insensitive comparison, for ASCII letters. */
module CaseFold {

  function LowerChar(c: char): char {
    if 'A' <= c <= 'Z' then c - 'A' + 'a' else c
  }

  function Lower(s: string): (r: string)
    ensures |r| == |s|
    ensures forall i :: 0 <= i < |s| ==> r[i] == LowerChar(s[i])
  {
    seq(|s|, i requires 0 <= i < |s| => LowerChar(s[i]))
  }

  predicate OccursAt(s: string, part: string, i: nat) {
    i + |part| <= |s| && s[i..i + |part|] == part
  }

  predicate Contains(s: string, part: string) {
    exists i: nat :: i <= |s| && OccursAt(s, part, i)
  }

  /** `{ contains: part, mode: 'insensitive' }` */
  predicate ContainsInsensitive(s: string, part: string) {
    Contains(Lower(s), Lower(part))
  }

  // ----- what folding comes to -------------------------------------------------------------------

  const CAPITALS := "ABCDEFGHIJKLMNOPQRSTUVWXYZ"
  const SMALL := "abcdefghijklmnopqrstuvwxyz"

  /** The same character, or the two cases of one letter. */
  ghost predicate Alike(c: char, d: char) {
    c == d || exists i :: 0 <= i < 26 && Pair(i, c, d)
  }

  ghost predicate Pair(i: int, c: char, d: char)
    requires 0 <= i < 26
  {
    (c == CAPITALS[i] && d == SMALL[i]) || (c == SMALL[i] && d == CAPITALS[i])
  }

  /** `part` stands in `s` from `i` on, but for the case of letters. */
  ghost predicate AlikeAt(s: string, part: string, i: nat) {
    i + |part| <= |s| && forall k :: 0 <= k < |part| ==> Alike(s[i + k], part[k])
  }

  lemma Alphabet(i: int)
    requires 0 <= i < 26
    ensures CAPITALS[i] == 'A' + i as char && SMALL[i] == 'a' + i as char
  {
  }

  /** Two characters fold to one exactly when they differ at most in case. */
  lemma FoldsAlikeExactly(c: char, d: char)
    ensures LowerChar(c) == LowerChar(d) <==> Alike(c, d)
  {
    forall i | 0 <= i < 26 ensures CAPITALS[i] == 'A' + i as char && SMALL[i] == 'a' + i as char {
      Alphabet(i);
    }
    if LowerChar(c) == LowerChar(d) && c != d {
      var i := LowerChar(c) as int - 'a' as int;
      assert Pair(i, c, d);
    }
  }

  lemma OccursAlike(s: string, part: string, i: nat)
    ensures OccursAt(Lower(s), Lower(part), i) <==> AlikeAt(s, part, i)
  {
    forall k | 0 <= k < |part| && i + |part| <= |s|
      ensures Lower(s)[i..i + |part|][k] == Lower(part)[k] <==> Alike(s[i + k], part[k])
    {
      FoldsAlikeExactly(s[i + k], part[k]);
    }
  }

  /** So a text is found exactly where it stands but for the case of letters. */
  lemma ContainsAlike(s: string, part: string)
    ensures ContainsInsensitive(s, part) <==> exists i: nat :: AlikeAt(s, part, i)
  {
    forall i: nat ensures OccursAt(Lower(s), Lower(part), i) <==> AlikeAt(s, part, i) {
      OccursAlike(s, part, i);
    }
  }
}
