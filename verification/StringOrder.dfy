/** Strings compared code unit by code unit: the order of `<` in JavaScript and of a byte-wise `ORDER BY`. */
module StringOrder {

  predicate Less(a: string, b: string) {
    b != "" && (a == "" || a[0] < b[0] || (a[0] == b[0] && Less(a[1..], b[1..])))
  }

  lemma {:induction false} LessIrreflexive(a: string)
    ensures !Less(a, a)
  {
    if a != "" {
      LessIrreflexive(a[1..]);
    }
  }

  lemma {:induction false} LessTotal(a: string, b: string)
    ensures Less(a, b) || a == b || Less(b, a)
  {
    if a != "" && b != "" && a[0] == b[0] {
      LessTotal(a[1..], b[1..]);
      assert a == [a[0]] + a[1..] && b == [b[0]] + b[1..];
    }
  }

  lemma {:induction false} LessTransitive(a: string, b: string, c: string)
    requires Less(a, b) && Less(b, c)
    ensures Less(a, c)
  {
    if a != "" && a[0] == b[0] == c[0] {
      LessTransitive(a[1..], b[1..], c[1..]);
    }
  }

  lemma LessAsymmetric(a: string, b: string)
    requires Less(a, b)
    ensures !Less(b, a)
  {
    if Less(b, a) {
      LessTransitive(a, b, a);
      LessIrreflexive(a);
    }
  }

  /** The first place where two strings part. */
  predicate PartAt(a: string, b: string, k: nat) {
    k <= |a| && k < |b| && a[..k] == b[..k] && (k < |a| ==> a[k] < b[k])
  }

  lemma {:induction false} LessMeans(a: string, b: string)
    ensures Less(a, b) <==> exists k: nat :: PartAt(a, b, k)
  {
    if a == "" {
      assert b != "" ==> PartAt(a, b, 0);
    } else if b != "" {
      assert a[0] < b[0] ==> PartAt(a, b, 0);
      LessMeans(a[1..], b[1..]);
      if a[0] == b[0] {
        if k: nat :| PartAt(a[1..], b[1..], k) {
          assert a[..k + 1] == [a[0]] + a[1..][..k] && b[..k + 1] == [b[0]] + b[1..][..k];
          assert PartAt(a, b, k + 1);
        }
      }
      if k: nat :| PartAt(a, b, k) {
        if k > 0 {
          assert a[..k][0] == b[..k][0];
          assert a[1..][..k - 1] == a[..k][1..] && b[1..][..k - 1] == b[..k][1..];
          assert PartAt(a[1..], b[1..], k - 1);
        }
      }
    }
  }
}
