/**
 The field GF(2^8) with the reduction polynomial x^8 + x^4 + x^3 + x + 1 and its generator 3.
 `Times` is defined from the polynomial product and its remainder, with no table; the tables that
 the program builds are proved against it in `FieldTables`.
 */
module Gf256 {
  import opened BinaryPolynomials

  type Byte = x: nat | x < 256

  const MODULUS: nat := 0x11b

  function Add(a: Byte, b: Byte): Byte {
    XorBelow(a, b, 8);
    Xor(a, b)
  }

  /** The multiple of the modulus that a left shift has to remove. */
  function Fold(x: Byte): nat { if x >= 128 then MODULUS else 0 }

  lemma DoubleFits(x: Byte)
    ensures Xor(2 * x, Fold(x)) < 256
    ensures x >= 128 ==> Xor(2 * x, MODULUS) == Xor(2 * x - 256, 0x1b)
  {
    if x >= 128 {
      XorHighBoth(2 * x - 256, 0x1b, 8);
      XorBelow(2 * x - 256, 0x1b, 8);
    }
  }

  /** One left shift, reduced: multiplication by the polynomial x. */
  function Double(x: Byte): Byte {
    DoubleFits(x);
    Xor(2 * x, Fold(x))
  }

  function Triple(x: Byte): Byte { Add(Double(x), x) }

  /** The remainder modulo `MODULUS`, one bit of the dividend at a time. */
  function Reduce(p: nat): Byte {
    if p < 256 then p else Add(Double(Reduce(p / 2)), p % 2)
  }

  function Times(a: Byte, b: Byte): Byte { Reduce(CarryLess(a, b)) }

  /** Powers of the generator 3. */
  function Power(n: nat): Byte { if n == 0 then 1 else Triple(Power(n - 1)) }

  // ----- reduction -----

  /** Exactly one leading bit survives an addition of two bytes that differ in it. */
  lemma LeadingBitAdd(a: Byte, b: Byte)
    ensures Add(a, b) >= 128 <==> (a >= 128) != (b >= 128)
  {
    var p, q := if a >= 128 then a - 128 else a, if b >= 128 then b - 128 else b;
    assert Pow2(7) == 128;
    XorBelow(p, q, 7);
    if a >= 128 {
      if b >= 128 { XorHighBoth(p, q, 7); } else { XorHigh(p, q, 7); }
    } else if b >= 128 {
      XorCommutes(a, b);
      XorBelow(q, p, 7);
      XorHigh(q, p, 7);
    }
  }

  lemma FoldAdd(a: Byte, b: Byte)
    ensures Fold(Add(a, b)) == Xor(Fold(a), Fold(b))
  {
    hide Xor;
    LeadingBitAdd(a, b);
    XorSelf(MODULUS);
    XorZero(MODULUS);
    XorZero(0);
  }

  lemma DoubleAdd(a: Byte, b: Byte)
    ensures Double(Add(a, b)) == Add(Double(a), Double(b))
  {
    hide Xor;
    FoldAdd(a, b);
    XorCons(a, 0, b, 0);
    XorInterchange(2 * a, Fold(a), 2 * b, Fold(b));
  }

  lemma ReduceCons(p: nat, d: nat)
    requires d < 2
    ensures Reduce(2 * p + d) == Add(Double(Reduce(p)), d)
  {
    if 2 * p + d < 256 {
      XorCons(p, 0, 0, d);
    } else {
      assert (2 * p + d) / 2 == p && (2 * p + d) % 2 == d;
    }
  }

  lemma ReduceXorCons(p: nat, d: nat, q: nat, e: nat)
    requires d < 2 && e < 2
    requires Reduce(Xor(p, q)) == Add(Reduce(p), Reduce(q))
    ensures Reduce(Xor(2 * p + d, 2 * q + e)) == Add(Reduce(2 * p + d), Reduce(2 * q + e))
  {
    hide Xor;
    var x, y := Double(Reduce(p)), Double(Reduce(q));
    calc {
      Reduce(Xor(2 * p + d, 2 * q + e));
    ==  { XorCons(p, d, q, e); }
      Reduce(2 * Xor(p, q) + XorBit(d, e));
    ==  { ReduceCons(Xor(p, q), XorBit(d, e)); }
      Add(Double(Add(Reduce(p), Reduce(q))), XorBit(d, e));
    ==  { DoubleAdd(Reduce(p), Reduce(q)); XorCons(0, d, 0, e); XorZero(0); }
      Xor(Xor(x, y), Xor(d, e));
    ==  { XorInterchange(x, y, d, e); }
      Xor(Xor(x, d), Xor(y, e));
    ==  { ReduceCons(p, d); ReduceCons(q, e); }
      Add(Reduce(2 * p + d), Reduce(2 * q + e));
    }
  }

  lemma {:induction false} ReduceXor(p: nat, q: nat)
    ensures Reduce(Xor(p, q)) == Add(Reduce(p), Reduce(q))
  {
    if p != 0 && q != 0 {
      ReduceXor(p / 2, q / 2);
      ReduceXorCons(p / 2, p % 2, q / 2, q % 2);
    }
  }

  lemma SharedBit(u: nat, v: nat, f: nat, d: nat)
    ensures Xor(Xor(u, d), Xor(Xor(v, f), d)) == Xor(f, Xor(u, v))
  {
    hide Xor;
    calc {
      Xor(Xor(u, d), Xor(Xor(v, f), d));
    ==  { XorInterchange(u, d, Xor(v, f), d); XorSelf(d); XorZero(Xor(u, Xor(v, f))); }
      Xor(u, Xor(v, f));
    ==  { XorAssociates(u, v, f); }
      Xor(Xor(u, v), f);
    ==  { XorCommutes(Xor(u, v), f); }
      Xor(f, Xor(u, v));
    }
  }

  lemma RemainderCons(p: nat, d: nat, k: nat) returns (k': nat)
    requires d < 2 && Xor(p, Reduce(p)) == CarryLess(MODULUS, k)
    ensures Xor(2 * p + d, Reduce(2 * p + d)) == CarryLess(MODULUS, k')
  {
    hide Xor;
    hide Reduce;
    hide CarryLess;
    var r: nat := Reduce(p);
    var f := if r >= 128 then 1 else 0;
    k' := 2 * k + f;
    ReduceCons(p, d);
    assert 2 * p + d == Xor(2 * p, d) by { XorCons(p, 0, 0, d); XorZero(p); }
    SharedBit(2 * p, 2 * r, Fold(r), d);
    assert Xor(2 * p, 2 * r) == 2 * CarryLess(MODULUS, k) by { XorCons(p, 0, r, 0); }
    CarryLessCons(MODULUS, k, f);
  }

  /** `Reduce` gives a remainder: it differs from its argument by a multiple of the modulus. */
  lemma {:induction false} ReduceIsRemainder(p: nat) returns (k: nat)
    ensures Xor(p, Reduce(p)) == CarryLess(MODULUS, k)
  {
    if p < 256 {
      XorSelf(p);
      k := 0;
    } else {
      var k' := ReduceIsRemainder(p / 2);
      k := RemainderCons(p / 2, p % 2, k');
    }
  }

  lemma ModulusReduces()
    ensures Reduce(MODULUS) == 0
  {
    assert 0x11b / 2 == 141 && 0x11b % 2 == 1;
    DoubleFits(141);
    assert Xor(26, 0x1b) == 1 by { XorCons(13, 0, 13, 1); XorSelf(13); }
  }

  lemma {:induction false} ReduceMultiple(k: nat)
    ensures Reduce(CarryLess(MODULUS, k)) == 0
  {
    hide Xor;
    if k != 0 {
      ReduceMultiple(k / 2);
      var p := CarryLess(MODULUS, k / 2);
      ReduceCons(p, 0);
      ReduceXor(if k % 2 == 1 then MODULUS else 0, 2 * p);
      ModulusReduces();
      XorZero(0);
    }
  }

  /** ... and it is the only byte that does. */
  lemma RemainderIsUnique(p: nat, r: Byte, k: nat)
    requires Xor(p, r) == CarryLess(MODULUS, k)
    ensures r == Reduce(p)
  {
    hide Xor;
    ReduceMultiple(k);
    ReduceXor(p, r);
    XorCancels(Reduce(p), r);
    XorZero(Reduce(p));
  }

  // ----- the field laws -----

  lemma SumIsZero(a: Byte, b: Byte)
    requires Add(a, b) == 0
    ensures a == b
  {
    hide Xor;
    XorCancels(a, b);
    XorZero(a);
  }

  /** A factor may be reduced before it is multiplied. */
  lemma ReduceFactor(p: nat, q: nat)
    ensures Reduce(CarryLess(Reduce(p), q)) == Reduce(CarryLess(p, q))
  {
    hide *;
    var k := ReduceIsRemainder(p);
    CarryLessXor(p, Reduce(p), q);
    CarryLessAssociates(MODULUS, k, q);
    ReduceMultiple(CarryLess(k, q));
    var u, v := CarryLess(p, q), CarryLess(Reduce(p), q);
    ReduceXor(u, v);
    SumIsZero(Reduce(u), Reduce(v));
  }

  lemma TimesCommutes(a: Byte, b: Byte)
    ensures Times(a, b) == Times(b, a)
  {
    CarryLessCommutes(a, b);
  }

  lemma TimesAssociates(a: Byte, b: Byte, c: Byte)
    ensures Times(Times(a, b), c) == Times(a, Times(b, c))
  {
    hide Xor, CarryLess, Reduce;
    ReduceFactor(CarryLess(a, b), c);
    ReduceFactor(CarryLess(b, c), a);
    CarryLessAssociates(a, b, c);
    CarryLessCommutes(CarryLess(b, c), a);
    CarryLessCommutes(Times(b, c), a);
  }

  lemma TimesAdd(a: Byte, b: Byte, c: Byte)
    ensures Times(a, Add(b, c)) == Add(Times(a, b), Times(a, c))
    ensures Times(Add(b, c), a) == Add(Times(b, a), Times(c, a))
  {
    hide CarryLess, Reduce;
    CarryLessXorRight(a, b, c);
    ReduceXor(CarryLess(a, b), CarryLess(a, c));
    CarryLessXor(b, c, a);
    ReduceXor(CarryLess(b, a), CarryLess(c, a));
  }

  lemma TimesUnit(a: Byte)
    ensures Times(1, a) == a && Times(a, 1) == a
    ensures Times(0, a) == 0 && Times(a, 0) == 0
  {
    CarryLessUnit(a);
    CarryLessCommutes(a, 1);
  }

  lemma AddLaws(a: Byte, b: Byte, c: Byte)
    ensures Add(a, b) == Add(b, a)
    ensures Add(Add(a, b), c) == Add(a, Add(b, c))
    ensures Add(a, 0) == a && Add(0, a) == a && Add(a, a) == 0
  {
    hide Xor;
    XorCommutes(a, b);
    XorAssociates(a, b, c);
    XorZero(a);
    XorSelf(a);
  }

  lemma TripleIsTimes(x: Byte)
    ensures Triple(x) == Times(x, 3)
  {
    hide Xor, CarryLess;
    CarryLessCons(x, 1, 1);
    CarryLessUnit(x);
    CarryLessCommutes(x, 1);
    ReduceXor(x, 2 * x);
    ReduceCons(x, 0);
    XorZero(Double(x));
    XorCommutes(x, Double(x));
  }
}
