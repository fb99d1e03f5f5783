/** Index keys joined from several parts: exactly which of them can stand for two different rows. */
module SnapshotKeys {
  import opened Basics
  import opened CopyText
  import opened CopyReader
  import opened SnapshotTable

  const SEP := UNIT_SEPARATOR

  ghost predicate NonEmpty(parts: seq<bytes>) {
    parts != [] && forall i :: 0 <= i < |parts| ==> parts[i] != []
  }

  /** No part holds a separator where the boundary before it could have been instead. */
  predicate TightLeft(part: bytes) {
    part != [] ==> SEP !in part[..|part| - 1]
  }

  /** Nor where the boundary after it could have been. */
  predicate TightRight(part: bytes) {
    part != [] ==> SEP !in part[1..]
  }

  /** Separators only at the outer ends of a key, or as an inner part of its own. */
  ghost predicate OneReading(parts: seq<bytes>) {
    && (forall i :: 0 < i < |parts| ==> TightLeft(parts[i]))
    && (forall i :: 0 <= i < |parts| - 1 ==> TightRight(parts[i]))
  }

  lemma SeparatorAt(part: bytes, j: nat)
    requires j < |part| && part[j] == SEP
    ensures j < |part| - 1 ==> !TightLeft(part)
    ensures j > 0 ==> !TightRight(part)
  {
    if j < |part| - 1 {
      assert part[..|part| - 1][j] == SEP;
    }
    if j > 0 {
      assert part[1..][j - 1] == SEP;
    }
  }

  lemma CutInside(x: bytes, t: bytes, rest: bytes)
    ensures x == t + [SEP] + rest && rest != [] ==> !TightLeft(x)
  {
    if x == t + [SEP] + rest && rest != [] {
      SeparatorAt(x, |t|);
    }
  }

  /** Two ways to cut the same bytes at a separator, the second before the first. */
  lemma EarlierCut(x: bytes, rest: bytes, y: bytes, rest': bytes)
    requires x + [SEP] + rest == y + [SEP] + rest' && |y| < |x|
    ensures x[|y|] == SEP && rest' == x[|y| + 1..] + [SEP] + rest
  {
    var key := x + [SEP] + rest;
    assert x[|y|] == key[|y|];
    assert rest' == key[|y| + 1..];
  }

  lemma SameCut(x: bytes, rest: bytes, y: bytes, rest': bytes)
    requires x + [SEP] + rest == y + [SEP] + rest' && |y| == |x|
    ensures x == y && rest == rest'
  {
    var key := x + [SEP] + rest;
    assert x == key[..|x|] && y == key[..|x|];
    assert rest == key[|x| + 1..] && rest' == key[|x| + 1..];
  }

  // ----- one reading ----------------------------------------------------------------------------

  /** Once a boundary is spent on a stump `t`, what is left of a tight tail makes fewer parts. */
  lemma {:induction false} FewerParts(a: seq<bytes>, t: bytes, b: seq<bytes>)
    requires NonEmpty(a) && NonEmpty(b) && OneReading(a) && TightLeft(a[0])
    requires Join(a, SEP) == t + [SEP] + Join(b, SEP)
    ensures |b| < |a|
    decreases |a|
  {
    var x, rest := a[0], Join(b, SEP);
    if |a| == 1 {
      JoinNonEmpty(b);
      CutInside(x, t, rest);
    } else {
      var tail := Join(a[1..], SEP);
      if |t| < |x| {
        EarlierCut(x, tail, t, rest);
        SeparatorAt(x, |t|);
        assert x[|t| + 1..] == [];
        if |b| > 1 {
          LoneSeparator(tail, b);
          FewerParts(a[1..], b[0][1..], b[1..]);
        }
      } else if |t| == |x| {
        SameCut(x, tail, t, rest);
        if |b| > 1 {
          FewerParts(a[1..], b[0], b[1..]);
        }
      } else {
        EarlierCut(t, rest, x, tail);
        FewerParts(a[1..], t[|x| + 1..], b);
      }
    }
  }

  lemma JoinNonEmpty(parts: seq<bytes>)
    requires NonEmpty(parts)
    ensures Join(parts, SEP) != []
  {
  }

  lemma LoneSeparator(tail: bytes, b: seq<bytes>)
    requires NonEmpty(b) && |b| > 1 && Join(b, SEP) == [] + [SEP] + tail
    ensures tail == b[0][1..] + [SEP] + Join(b[1..], SEP)
  {
    EarlierCut(b[0], Join(b[1..], SEP), [], tail);
  }

  lemma {:induction false} SameReading(a: seq<bytes>, b: seq<bytes>)
    requires NonEmpty(a) && NonEmpty(b) && |a| == |b| && OneReading(a)
    requires Join(a, SEP) == Join(b, SEP)
    ensures a == b
  {
    var x, y := a[0], b[0];
    if |a| == 1 {
      assert a == [x] && b == [y];
    } else {
      var ra, rb := Join(a[1..], SEP), Join(b[1..], SEP);
      if |y| < |x| {
        EarlierCut(x, ra, y, rb);
        SeparatorAt(x, |y|);
      } else if |x| < |y| {
        EarlierCut(y, rb, x, ra);
        FewerParts(a[1..], y[|x| + 1..], b[1..]);
      } else {
        SameCut(x, ra, y, rb);
        SameReading(a[1..], b[1..]);
        assert a == [x] + a[1..] && b == [y] + b[1..];
      }
    }
  }

  // ----- another reading -----------------------------------------------------------------------

  lemma JoinTwo(x: bytes, y: bytes, more: seq<bytes>)
    ensures Join([x, y] + more, SEP) == x + [SEP] + y + if more == [] then [] else [SEP] + Join(more, SEP)
  {
    assert ([x, y] + more)[1..] == [y] + more;
    assert ([y] + more)[1..] == more;
  }

  /** The first two parts read otherwise. */
  lemma Respell(x: bytes, y: bytes, u: bytes, v: bytes, more: seq<bytes>)
    requires x + [SEP] + y == u + [SEP] + v && |u| != |x|
    ensures Join([u, v] + more, SEP) == Join([x, y] + more, SEP) && [u, v] + more != [x, y] + more
  {
    JoinTwo(x, y, more);
    JoinTwo(u, v, more);
    assert ([u, v] + more)[0] == u && ([x, y] + more)[0] == x;
  }

  lemma MoveBoundary(x: bytes, y: bytes) returns (u: bytes, v: bytes)
    requires x != [] && y != [] && !(TightRight(x) && TightLeft(y))
    ensures u != [] && v != [] && |u| != |x| && x + [SEP] + y == u + [SEP] + v
  {
    if !TightRight(x) {
      var j :| 0 < j < |x| && x[j] == SEP;
      u, v := x[..j], x[j + 1..] + [SEP] + y;
      assert x == u + [SEP] + x[j + 1..];
    } else {
      var j :| 0 <= j < |y| - 1 && y[j] == SEP;
      u, v := x + [SEP] + y[..j], y[j + 1..];
      assert y == y[..j] + [SEP] + v;
    }
  }

  /** Where a boundary can move, another key has the same bytes. */
  lemma {:induction false} OtherReading(a: seq<bytes>) returns (b: seq<bytes>)
    requires NonEmpty(a) && !OneReading(a)
    ensures NonEmpty(b) && |b| == |a| && b != a && Join(b, SEP) == Join(a, SEP)
  {
    assert |a| > 1;
    hide OneReading, TightLeft, TightRight;
    var x, y, more := a[0], a[1], a[2..];
    assert a == [x, y] + more;
    if TightRight(x) && TightLeft(y) {
      LaterReading(a);
      var rest := OtherReading(a[1..]);
      b := [x] + rest;
      assert b[1..] == rest;
    } else {
      var u, v := MoveBoundary(x, y);
      b := [u, v] + more;
      Respell(x, y, u, v, more);
    }
  }

  lemma LaterReading(a: seq<bytes>)
    requires NonEmpty(a) && |a| > 1
    ensures OneReading(a) <==> TightRight(a[0]) && TightLeft(a[1]) && OneReading(a[1..])
  {
    assert forall i :: 0 < i < |a| ==> a[i] == a[1..][i - 1];
    if OneReading(a) {
      assert forall i :: 0 <= i < |a| - 1 ==> a[1..][i] == a[i + 1];
    }
  }

  // ----- keys of rows --------------------------------------------------------------------------

  lemma AsTextInjective(s: bytes, t: bytes)
    requires AsText(s) == AsText(t)
    ensures s == t
  {
    forall i | 0 <= i < |s| ensures s[i] == t[i] {
      assert AsText(s)[i] == AsText(t)[i];
    }
  }

  function Parts(values: seq<bytes>): (parts: Fields)
    ensures |parts| == |values| && forall i :: 0 <= i < |values| ==> parts[i] == Some(values[i])
  {
    seq(|values|, i requires 0 <= i < |values| => Some(values[i]))
  }

  lemma SameKeySameBytes(a: Fields, b: Fields)
    requires Keyed(a) && Keyed(b) && a != [] && b != []
    ensures KeyOf(a) == KeyOf(b) <==> Join(Values(a), SEP) == Join(Values(b), SEP)
    ensures Values(a) == Values(b) <==> a == b
  {
    if KeyOf(a) == KeyOf(b) {
      AsTextInjective(Join(Values(a), SEP), Join(Values(b), SEP));
    }
    if Values(a) == Values(b) {
      assert forall i :: 0 <= i < |a| ==> a[i] == Some(Values(a)[i]) && b[i] == Some(Values(b)[i]);
    }
  }

  /** No other key of as many parts is spelled the same. */
  ghost predicate Unshared(a: Fields)
    requires Keyed(a) && a != []
  {
    forall b: Fields :: Keyed(b) && |b| == |a| && KeyOf(b) == KeyOf(a) ==> b == a
  }

  /** Two keys of as many parts, one of which reads one way only, are equal just when the parts are. */
  lemma OneReadingDistinguishes(a: Fields, b: Fields)
    requires Keyed(a) && Keyed(b) && a != [] && |a| == |b|
    requires OneReading(Values(a))
    ensures KeyOf(a) == KeyOf(b) <==> a == b
  {
    SameKeySameBytes(a, b);
    if KeyOf(a) == KeyOf(b) {
      SameReading(Values(a), Values(b));
    }
  }

  /** And that is exact: any other key is shared with a different one of as many parts. */
  lemma KeyUnsharedExactlyWhen(a: Fields)
    requires Keyed(a) && a != []
    ensures Unshared(a) <==> OneReading(Values(a))
  {
    if OneReading(Values(a)) {
      forall b: Fields | Keyed(b) && |b| == |a| && KeyOf(b) == KeyOf(a) ensures b == a {
        OneReadingDistinguishes(a, b);
      }
    } else {
      var other := OtherReading(Values(a));
      var b := Parts(other);
      assert Values(b) == other;
      SameKeySameBytes(a, b);
    }
  }

  /** Tables keyed by one column: different keys always differ, whatever bytes they hold. */
  lemma OnePartKeysDistinguish(a: Fields, b: Fields)
    requires Keyed(a) && Keyed(b) && |a| == |b| == 1
    ensures KeyOf(a) == KeyOf(b) <==> a == b
  {
    OneReadingDistinguishes(a, b);
  }

  /** `deal_investor`: a pair of ids shares its key with another pair exactly when the first holds the
      separator past its first byte, or the second before its last. */
  lemma PairKeySharedExactlyWhen(deal: bytes, firm: bytes)
    requires deal != [] && firm != []
    ensures (exists b: Fields :: Keyed(b) && |b| == 2 && b != [Some(deal), Some(firm)]
              && KeyOf(b) == KeyOf([Some(deal), Some(firm)]))
      <==> SEP in deal[1..] || SEP in firm[..|firm| - 1]
  {
    var a: Fields := [Some(deal), Some(firm)];
    assert Values(a) == [deal, firm];
    KeyUnsharedExactlyWhen(a);
    assert Values(a)[0] == deal && Values(a)[1] == firm;
    LaterReading(Values(a));
    assert OneReading(Values(a)[1..]);
  }

  predicate Separable(parts: Fields) {
    forall i :: 0 <= i < |parts| ==> parts[i].Some? && SEP !in parts[i].value
  }

  /** Without any separator in their parts, even keys of different numbers of parts differ. */
  lemma JoinedKeysDistinguish(a: Fields, b: Fields)
    requires Keyed(a) && Keyed(b) && a != [] && b != []
    requires Separable(a) && Separable(b)
    ensures KeyOf(a) == KeyOf(b) <==> a == b
  {
    SameKeySameBytes(a, b);
    if KeyOf(a) == KeyOf(b) {
      SplitJoin(Values(a), SEP);
      SplitJoin(Values(b), SEP);
    }
  }
}
