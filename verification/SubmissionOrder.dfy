/** The moderation queue's total order, and sorted lists of queue items. */
module SubmissionOrder {
  import opened Basics
  import opened StringOrder

  /** A queue item: the sort key as an ISO timestamp, the reviewable type, and the row id. */
  datatype Item = Item(at: string, kind: string, id: string)

  /** `bySubmissionOrder`: newest first, ties broken by type, then by descending id. */
  predicate Before(a: Item, b: Item) {
    || Less(b.at, a.at)
    || (a.at == b.at && (Less(a.kind, b.kind) || (a.kind == b.kind && Less(b.id, a.id))))
  }

  lemma BeforeStrict(a: Item, b: Item)
    ensures !Before(a, a)
    ensures Before(a, b) ==> !Before(b, a)
    ensures Before(a, b) || a == b || Before(b, a)
  {
    LessIrreflexive(a.at);
    LessIrreflexive(a.kind);
    LessIrreflexive(a.id);
    LessTotal(a.at, b.at);
    LessTotal(a.kind, b.kind);
    LessTotal(a.id, b.id);
    if Less(a.at, b.at) { LessAsymmetric(a.at, b.at); }
    if Less(b.at, a.at) { LessAsymmetric(b.at, a.at); }
    if Less(a.kind, b.kind) { LessAsymmetric(a.kind, b.kind); }
    if Less(b.kind, a.kind) { LessAsymmetric(b.kind, a.kind); }
    if Less(a.id, b.id) { LessAsymmetric(a.id, b.id); }
    if Less(b.id, a.id) { LessAsymmetric(b.id, a.id); }
  }

  lemma BeforeTransitive(a: Item, b: Item, c: Item)
    requires Before(a, b) && Before(b, c)
    ensures Before(a, c)
  {
    if Less(b.at, a.at) && Less(c.at, b.at) {
      LessTransitive(c.at, b.at, a.at);
    } else if a.at == b.at == c.at {
      if Less(a.kind, b.kind) && Less(b.kind, c.kind) {
        LessTransitive(a.kind, b.kind, c.kind);
      } else if a.kind == b.kind == c.kind {
        LessTransitive(c.id, b.id, a.id);
      }
    }
  }

  ghost predicate Ordered(s: seq<Item>) {
    forall i, j :: 0 <= i < j < |s| ==> Before(s[i], s[j])
  }

  ghost predicate First(x: Item, s: set<Item>) {
    x in s && forall y :: y in s && y != x ==> Before(x, y)
  }

  lemma {:induction false} FirstExists(s: set<Item>)
    requires s != {}
    ensures exists x :: First(x, s)
  {
    var x :| x in s;
    var rest := s - {x};
    assert forall y :: y in s && y != x ==> y in rest;
    if rest == {} {
      assert First(x, s);
    } else {
      FirstExists(rest);
      var y :| First(y, rest);
      BeforeStrict(x, y);
      if Before(x, y) {
        forall z | z in s && z != x ensures Before(x, z) {
          if z != y { BeforeTransitive(x, y, z); }
        }
        assert First(x, s);
      } else {
        assert First(y, s);
      }
    }
  }

  lemma OrderedInjective(s: seq<Item>, i: nat, j: nat)
    requires Ordered(s) && i < |s| && j < |s| && s[i] == s[j]
    ensures i == j
  {
    BeforeStrict(s[i], s[j]);
  }

  lemma PrefixMembers(s: seq<Item>, i: nat)
    requires i <= |s|
    ensures forall j :: 0 <= j < i ==> s[j] in s[..i]
  {
    forall j | 0 <= j < i ensures s[j] in s[..i] {
      assert s[..i][j] == s[j];
    }
  }

  lemma NotInPrefix(s: seq<Item>, i: nat)
    requires Ordered(s) && i < |s|
    ensures s[i] !in s[..i]
  {
    BeforeStrict(s[i], s[i]);
  }

  lemma ElementsPush(s: seq<Item>, x: Item)
    ensures Elements(s + [x]) == Elements(s) + {x}
  {
  }

  lemma {:induction false} CountPrefix(s: seq<Item>, i: nat)
    requires Ordered(s) && i <= |s|
    ensures |Elements(s[..i])| == i
  {
    if i > 0 {
      CountPrefix(s, i - 1);
      NotInPrefix(s, i - 1);
      assert s[..i] == s[..i - 1] + [s[i - 1]];
      ElementsPush(s[..i - 1], s[i - 1]);
    } else {
      assert Elements(s[..0]) == {};
    }
  }

  lemma CountAll(s: seq<Item>)
    requires Ordered(s)
    ensures |Elements(s)| == |s|
  {
    CountPrefix(s, |s|);
    assert s[..|s|] == s;
  }

  lemma PrependFirst(x: Item, rest: seq<Item>, s: set<Item>)
    requires First(x, s) && Ordered(rest) && Elements(rest) == s - {x}
    ensures Ordered([x] + rest) && Elements([x] + rest) == s
  {
    forall i | 0 <= i < |rest|
      ensures Before(x, rest[i])
    {
      assert rest[i] in Elements(rest);
    }
    forall y
      ensures y in [x] + rest <==> y in s
    {
      assert y in rest <==> y in Elements(rest);
    }
  }

  lemma {:induction false} SortedExists(s: set<Item>)
    ensures exists r :: Ordered(r) && Elements(r) == s
  {
    if s == {} {
      assert Ordered([]) && Elements<Item>([]) == s;
    } else {
      FirstExists(s);
      var x :| First(x, s);
      SortedExists(s - {x});
      var rest :| Ordered(rest) && Elements(rest) == s - {x};
      PrependFirst(x, rest, s);
    }
  }

  /** The set as a list in queue order: what `ORDER BY key DESC, id DESC` returns, over any tables. */
  ghost function Sorted(s: set<Item>): (r: seq<Item>)
    ensures Ordered(r) && Elements(r) == s && |r| == |s|
  {
    SortedExists(s);
    var r :| Ordered(r) && Elements(r) == s;
    CountAll(r);
    r
  }

  lemma OrderedSlice(s: seq<Item>, lo: nat, hi: nat)
    requires Ordered(s) && lo <= hi <= |s|
    ensures Ordered(s[lo..hi])
  {
  }

  /** A set has only one ordered list. */
  lemma {:induction false} OrderedUnique(a: seq<Item>, b: seq<Item>)
    requires Ordered(a) && Ordered(b) && Elements(a) == Elements(b)
    ensures a == b
  {
    SameElements(a, b);
    EmptyOrHasMember(a);
    EmptyOrHasMember(b);
    if a != [] {
      SameHead(a, b);
      forall x
        ensures x in a[1..] <==> x in b[1..]
      {
        TailElements(a, x);
        TailElements(b, x);
      }
      SameElements(a[1..], b[1..]);
      OrderedUnique(a[1..], b[1..]);
      assert a == [a[0]] + a[1..] && b == [b[0]] + b[1..];
    }
  }

  lemma SameHead(a: seq<Item>, b: seq<Item>)
    requires Ordered(a) && Ordered(b) && a != [] && b != []
    requires a[0] in b && b[0] in a
    ensures a[0] == b[0]
  {
    BeforeStrict(a[0], b[0]);
  }

  lemma TailElements(s: seq<Item>, x: Item)
    requires Ordered(s) && s != []
    ensures x in s[1..] <==> x in s && x != s[0]
  {
    if x in s[1..] {
      var i :| 0 <= i < |s[1..]| && s[1..][i] == x;
      BeforeStrict(s[0], s[i + 1]);
    }
    assert s == [s[0]] + s[1..];
  }

  // ----- top-n prefixes ----------------------------------------------------------------

  /** `ORDER BY … LIMIT n` */
  ghost function Top(s: set<Item>, n: nat): (r: seq<Item>)
    ensures |r| == (if |s| < n then |s| else n) && r == Sorted(s)[..|r|]
  {
    Sorted(s)[..if |s| < n then |s| else n]
  }

  /** The members of `s` that come before `x`. */
  ghost function Ahead(s: set<Item>, x: Item): set<Item> {
    set y | y in s && Before(y, x)
  }

  lemma PrefixElements(s: seq<Item>, i: nat)
    requires Ordered(s) && i < |s|
    ensures Ahead(Elements(s), s[i]) == Elements(s[..i])
  {
    PrefixMembers(s, i);
    forall y
      ensures y in Ahead(Elements(s), s[i]) <==> y in s[..i]
    {
      if y in s {
        BeforeStrict(y, s[i]);
      }
    }
  }

  /** An item is in the top `n` exactly when fewer than `n` items are ahead of it. */
  lemma TopIffFewAhead(s: set<Item>, n: nat, x: Item)
    requires x in s
    ensures x in Top(s, n) <==> |Ahead(s, x)| < n
  {
    var list := Sorted(s);
    assert x in Elements(list);
    var i :| 0 <= i < |list| && list[i] == x;
    PrefixElements(list, i);
    CountPrefix(list, i);
    if i < n { assert Top(s, n)[i] == x; }
    if x in Top(s, n) {
      var j :| 0 <= j < |Top(s, n)| && Top(s, n)[j] == x;
      OrderedInjective(list, i, j);
    }
  }

  lemma FewerAhead(t: set<Item>, s: set<Item>, x: Item)
    requires t <= s
    ensures |Ahead(t, x)| <= |Ahead(s, x)|
  {
    SubsetSize(Ahead(t, x), Ahead(s, x));
  }

  lemma {:induction false} SubsetSize(a: set<Item>, b: set<Item>)
    requires a <= b
    ensures |a| <= |b|
  {
    assert b == a + (b - a);
  }

  /** A part of a set that holds its top `n` has the same top `n`. */
  lemma TopOfPart(t: set<Item>, s: set<Item>, n: nat)
    requires t <= s && forall x :: x in Top(s, n) ==> x in t
    ensures Top(t, n) == Top(s, n)
  {
    var a, b := Top(t, n), Top(s, n);
    OrderedSlice(Sorted(t), 0, |a|);
    OrderedSlice(Sorted(s), 0, |b|);
    SubsetSize(t, s);
    forall x | x in b
      ensures x in a
    {
      TopIffFewAhead(s, n, x);
      FewerAhead(t, s, x);
      TopIffFewAhead(t, n, x);
    }
    CountPrefix(a, |a|);
    CountPrefix(b, |b|);
    assert a[..|a|] == a && b[..|b|] == b;
    assert Elements(b) <= Elements(a);
    SubsetSize(Elements(b), Elements(a));
    SubsetEqual(Elements(b), Elements(a));
    OrderedUnique(a, b);
  }

  lemma SubsetEqual(a: set<Item>, b: set<Item>)
    requires a <= b && |a| >= |b|
    ensures a == b
  {
    assert b == a + (b - a);
    assert |b| == |a| + |b - a|;
  }
}
