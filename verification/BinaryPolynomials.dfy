/**
 Polynomials over GF(2). A natural number stands for the polynomial whose coefficients are its bits,
 so `Xor` is addition and `CarryLess` is multiplication. The laws below make them a commutative ring.
 */
module BinaryPolynomials {
  function Pow2(k: nat): (r: nat)
    ensures r > 0
  {
    if k == 0 then 1 else 2 * Pow2(k - 1)
  }

  function XorBit(p: nat, q: nat): nat { if p == q then 0 else 1 }

  /** Bitwise exclusive or. */
  function Xor(a: nat, b: nat): nat {
    if a == 0 then b else if b == 0 then a else 2 * Xor(a / 2, b / 2) + XorBit(a % 2, b % 2)
  }

  /** The carry-less product: the exclusive or of the shifted copies of `a` selected by the bits of `b`. */
  function CarryLess(a: nat, b: nat): nat {
    if b == 0 then 0 else Xor(if b % 2 == 1 then a else 0, 2 * CarryLess(a, b / 2))
  }

  // ----- exclusive or -----

  lemma XorZero(a: nat)
    ensures Xor(0, a) == a && Xor(a, 0) == a
  {
  }

  /** `Xor` works on the last bit and on the rest separately. */
  lemma XorCons(h: nat, b: nat, h': nat, b': nat)
    requires b < 2 && b' < 2
    ensures Xor(2 * h + b, 2 * h' + b') == 2 * Xor(h, h') + XorBit(b, b')
  {
    var x, y := 2 * h + b, 2 * h' + b';
    assert x / 2 == h && x % 2 == b && y / 2 == h' && y % 2 == b';
  }

  lemma {:induction false} XorSelf(a: nat)
    ensures Xor(a, a) == 0
  {
    if a != 0 { XorSelf(a / 2); }
  }

  lemma {:induction false} XorCommutes(a: nat, b: nat)
    ensures Xor(a, b) == Xor(b, a)
  {
    if a != 0 && b != 0 { XorCommutes(a / 2, b / 2); }
  }

  lemma {:induction false} XorAssociatesCons(a: nat, p: nat, b: nat, q: nat, c: nat, r: nat)
    requires p < 2 && q < 2 && r < 2
    requires a + b + c < 2 * a + p + 2 * b + q + 2 * c + r
    ensures Xor(Xor(2 * a + p, 2 * b + q), 2 * c + r) == Xor(2 * a + p, Xor(2 * b + q, 2 * c + r))
    decreases 2 * a + p + 2 * b + q + 2 * c + r, 0
  {
    hide Xor;
    XorAssociates(a, b, c);
    XorCons(a, p, b, q);
    XorCons(b, q, c, r);
    XorCons(Xor(a, b), XorBit(p, q), c, r);
    XorCons(a, p, Xor(b, c), XorBit(q, r));
  }

  lemma {:induction false} XorAssociates(a: nat, b: nat, c: nat)
    ensures Xor(Xor(a, b), c) == Xor(a, Xor(b, c))
    decreases a + b + c
  {
    if a != 0 && b != 0 && c != 0 {
      XorAssociatesCons(a / 2, a % 2, b / 2, b % 2, c / 2, c % 2);
    }
  }

  lemma XorCancels(a: nat, b: nat)
    ensures Xor(a, Xor(a, b)) == b
    ensures Xor(Xor(b, a), a) == b
  {
    hide Xor;
    XorAssociates(a, a, b);
    XorAssociates(b, a, a);
    XorSelf(a);
    XorZero(b);
  }

  lemma XorInterchange(a: nat, b: nat, c: nat, d: nat)
    ensures Xor(Xor(a, b), Xor(c, d)) == Xor(Xor(a, c), Xor(b, d))
  {
    hide Xor;
    XorAssociates(a, b, Xor(c, d));
    XorAssociates(b, c, d);
    XorCommutes(b, c);
    XorAssociates(c, b, d);
    XorAssociates(a, c, Xor(b, d));
  }

  lemma {:induction false} XorBelow(a: nat, b: nat, k: nat)
    requires a < Pow2(k) && b < Pow2(k)
    ensures Xor(a, b) < Pow2(k)
  {
    if k != 0 && a != 0 && b != 0 { XorBelow(a / 2, b / 2, k - 1); }
  }

  lemma {:induction false} XorLeadingBit(a: nat, k: nat)
    requires a < Pow2(k)
    ensures Xor(Pow2(k), a) == Pow2(k) + a
  {
    if k != 0 {
      XorLeadingBit(a / 2, k - 1);
      XorCons(Pow2(k - 1), 0, a / 2, a % 2);
    }
  }

  /** A leading bit above both operands passes through. */
  lemma XorHigh(a: nat, b: nat, k: nat)
    requires a < Pow2(k) && b < Pow2(k)
    ensures Xor(Pow2(k) + a, b) == Pow2(k) + Xor(a, b)
  {
    hide Xor;
    XorBelow(a, b, k);
    XorLeadingBit(a, k);
    XorLeadingBit(Xor(a, b), k);
    XorAssociates(Pow2(k), a, b);
  }

  lemma XorHighBoth(a: nat, b: nat, k: nat)
    requires a < Pow2(k) && b < Pow2(k)
    ensures Xor(Pow2(k) + a, Pow2(k) + b) == Xor(a, b)
  {
    hide Xor;
    XorLeadingBit(a, k);
    XorLeadingBit(b, k);
    XorInterchange(Pow2(k), a, Pow2(k), b);
    XorSelf(Pow2(k));
    XorZero(Xor(a, b));
  }

  // ----- carry-less product -----

  lemma CarryLessCons(a: nat, h: nat, b: nat)
    requires b < 2
    ensures CarryLess(a, 2 * h + b) == Xor(if b == 1 then a else 0, 2 * CarryLess(a, h))
  {
    assert (2 * h + b) / 2 == h && (2 * h + b) % 2 == b;
  }

  lemma {:induction false} CarryLessDouble(a: nat, b: nat)
    ensures CarryLess(2 * a, b) == 2 * CarryLess(a, b)
  {
    if b != 0 {
      CarryLessDouble(a, b / 2);
      XorCons(if b % 2 == 1 then a else 0, 0, 2 * CarryLess(a, b / 2), 0);
    }
  }

  lemma {:induction false} CarryLessXor(a: nat, b: nat, c: nat)
    ensures CarryLess(Xor(a, b), c) == Xor(CarryLess(a, c), CarryLess(b, c))
  {
    hide Xor;
    XorZero(0);
    if c != 0 {
      var p, q := CarryLess(a, c / 2), CarryLess(b, c / 2);
      CarryLessXor(a, b, c / 2);
      XorCons(p, 0, q, 0);
      XorInterchange(if c % 2 == 1 then a else 0, 2 * p, if c % 2 == 1 then b else 0, 2 * q);
    }
  }

  lemma {:induction false} CarryLessUnit(b: nat)
    ensures CarryLess(0, b) == 0
    ensures CarryLess(1, b) == b
  {
    if b != 0 {
      CarryLessUnit(b / 2);
      XorCons(0, b % 2, b / 2, 0);
    }
  }

  lemma {:induction false} CarryLessCommutes(a: nat, b: nat)
    ensures CarryLess(a, b) == CarryLess(b, a)
  {
    hide Xor;
    if b == 0 {
      CarryLessUnit(a);
    } else {
      var h, d := b / 2, b % 2;
      CarryLessCommutes(a, h);
      XorZero(h);
      XorZero(d);
      XorZero(2 * CarryLess(h, a));
      CarryLessUnit(a);
      CarryLessDouble(h, a);
      XorCons(0, d, h, 0);
      CarryLessXor(d, 2 * h, a);
    }
  }

  lemma CarryLessXorRight(a: nat, b: nat, c: nat)
    ensures CarryLess(a, Xor(b, c)) == Xor(CarryLess(a, b), CarryLess(a, c))
  {
    hide Xor;
    CarryLessCommutes(a, Xor(b, c));
    CarryLessCommutes(a, b);
    CarryLessCommutes(a, c);
    CarryLessXor(b, c, a);
  }

  lemma {:induction false} CarryLessAssociates(a: nat, b: nat, c: nat)
    ensures CarryLess(CarryLess(a, b), c) == CarryLess(a, CarryLess(b, c))
    decreases c
  {
    hide Xor;
    if c != 0 {
      var h, d := c / 2, c % 2;
      var s := if d == 1 then b else 0;
      CarryLessAssociates(a, b, h);
      CarryLessXorRight(a, s, 2 * CarryLess(b, h));
      CarryLessCons(a, CarryLess(b, h), 0);
      XorZero(2 * CarryLess(a, CarryLess(b, h)));
    }
  }

  ghost predicate HasDegree(p: nat, d: nat) { Pow2(d) <= p < Pow2(d + 1) }

  lemma {:induction false} Pow2Monotone(i: nat, j: nat)
    requires i <= j
    ensures Pow2(i) <= Pow2(j)
    decreases j
  {
    if i < j { Pow2Monotone(i, j - 1); }
  }

  lemma DegreeDominates(p: nat, d: nat, s: nat)
    requires HasDegree(p, d) && s < Pow2(d)
    ensures HasDegree(Xor(s, p), d)
  {
    hide Xor;
    var low := p - Pow2(d);
    XorHigh(low, s, d);
    XorBelow(low, s, d);
    XorCommutes(s, p);
  }

  /** A non-zero multiple of a polynomial of degree `k` has degree at least `k`. */
  lemma {:induction false} CarryLessDegree(m: nat, k: nat, b: nat) returns (d: nat)
    requires HasDegree(m, k) && b != 0
    ensures d >= k && HasDegree(CarryLess(m, b), d)
  {
    if b == 1 {
      d := k;
      assert CarryLess(m, b / 2) == 0;
    } else {
      d := CarryLessDegree(m, k, b / 2);
      Pow2Monotone(k + 1, d + 1);
      var p := 2 * CarryLess(m, b / 2);
      d := d + 1;
      assert HasDegree(p, d);
      DegreeDominates(p, d, if b % 2 == 1 then m else 0);
    }
  }
}
