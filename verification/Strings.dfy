/** The order that identifiers are sorted by: lexicographic, character by character. */
module Strings {
  predicate Before(a: string, b: string) {
    b != [] && (a == [] || a[0] < b[0] || (a[0] == b[0] && Before(a[1..], b[1..])))
  }

  predicate AtMost(a: string, b: string) { a == b || Before(a, b) }

  lemma {:induction false} BeforeIrreflexive(a: string)
    ensures !Before(a, a)
  {
    if a != [] { BeforeIrreflexive(a[1..]); }
  }

  lemma {:induction false} BeforeTransitive(a: string, b: string, c: string)
    requires Before(a, b) && Before(b, c)
    ensures Before(a, c)
  {
    if a != [] && a[0] == b[0] == c[0] { BeforeTransitive(a[1..], b[1..], c[1..]); }
  }

  lemma {:induction false} BeforeTotal(a: string, b: string)
    ensures a == b || Before(a, b) || Before(b, a)
  {
    if a != [] && b != [] && a[0] == b[0] {
      BeforeTotal(a[1..], b[1..]);
      assert a == [a[0]] + a[1..] && b == [b[0]] + b[1..];
    }
  }

  ghost predicate FirstDifference(a: string, b: string, k: nat) {
    k <= |a| && k < |b| && a[..k] == b[..k] && (k == |a| || a[k] < b[k])
  }

  /** The first difference decides, and a text comes before whatever continues it. */
  lemma {:induction false} BeforeIff(a: string, b: string)
    ensures Before(a, b) <==>
              exists k: nat :: FirstDifference(a, b, k)
    decreases |a|
  {
    if Before(a, b) {
      if a == [] || a[0] < b[0] {
        assert FirstDifference(a, b, 0);
      } else {
        BeforeIff(a[1..], b[1..]);
        var k: nat :| FirstDifference(a[1..], b[1..], k);
        assert FirstDifference(a, b, k + 1);
      }
    }
    forall k: nat | FirstDifference(a, b, k) ensures Before(a, b) {
      if k > 0 {
        assert a[1..][..k - 1] == a[..k][1..] && b[1..][..k - 1] == b[..k][1..];
        assert a[0] == a[..k][0] && b[0] == b[..k][0];
        assert FirstDifference(a[1..], b[1..], k - 1);
        BeforeIff(a[1..], b[1..]);
      }
    }
  }
}
