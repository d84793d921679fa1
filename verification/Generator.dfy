/**
 The byte 3 generates the non-zero elements of GF(2^8): its powers run through all 255 of them
 before they return to 1. The one computation this needs is done on bits, in seventeen laps of
 fifteen steps.
 */
module Generator {
  import opened BinaryPolynomials
  import opened Gf256

  function Digits2(p: nat, b: nat, b': nat): nat { 2 * (2 * p + b) + b' }

  function Bit(b: bool): (r: nat)
    ensures r < 2
  {
    if b then 1 else 0
  }

  /** The number whose binary notation is that of `p` followed by two more bits. */
  function Append2(p: nat, b1: bool, b0: bool): (r: nat)
    ensures 4 * p <= r < 4 * p + 4
  {
    Digits2(p, Bit(b1), Bit(b0))
  }

  /** ... by four more bits. */
  function Append(p: nat, b3: bool, b2: bool, b1: bool, b0: bool): (r: nat)
    ensures 16 * p <= r < 16 * p + 16
  {
    Append2(Append2(p, b3, b2), b1, b0)
  }

  datatype Octet = Octet(b7: bool, b6: bool, b5: bool, b4: bool, b3: bool, b2: bool, b1: bool, b0: bool) {
    function Shifted(): Octet { Octet(b6, b5, b4, b3, b2, b1, b0, false) }

    function Plus(o: Octet): Octet {
      Octet(b7 != o.b7, b6 != o.b6, b5 != o.b5, b4 != o.b4, b3 != o.b3, b2 != o.b2, b1 != o.b1, b0 != o.b0)
    }

    /** Multiplication by 3, bit by bit. */
    function Tripled(): Octet {
      Octet(b6 != b7, b5 != b6, b4 != b5, (b3 != b4) != b7, (b2 != b3) != b7, b1 != b2, (b0 != b1) != b7, b0 != b7)
    }

    function Value(): Byte {
      var high := Append(0, b7, b6, b5, b4);
      Append(high, b3, b2, b1, b0)
    }
  }

  const ONE := Octet(false, false, false, false, false, false, false, true)
  /** The low byte of the modulus, 0x1b. */
  const LOW_MODULUS := Octet(false, false, false, true, true, false, true, true)

  lemma XorCons2(p: nat, b: nat, b': nat, q: nat, c: nat, c': nat)
    requires b < 2 && b' < 2 && c < 2 && c' < 2
    ensures Xor(Digits2(p, b, b'), Digits2(q, c, c')) == Digits2(Xor(p, q), XorBit(b, c), XorBit(b', c'))
  {
    hide Xor, XorBit;
    XorCons(p, b, q, c);
    XorCons(2 * p + b, b', 2 * q + c, c');
  }

  lemma BitXor(b: bool, c: bool)
    ensures Bit(b != c) == XorBit(Bit(b), Bit(c))
  {
  }

  lemma XorAppend2(p: nat, b: bool, b': bool, q: nat, c: bool, c': bool)
    ensures Xor(Append2(p, b, b'), Append2(q, c, c')) == Append2(Xor(p, q), b != c, b' != c')
  {
    hide Xor, Bit, XorBit, Digits2;
    XorCons2(p, Bit(b), Bit(b'), q, Bit(c), Bit(c'));
    BitXor(b, c);
    BitXor(b', c');
  }

  lemma XorAppend(p: nat, b3: bool, b2: bool, b1: bool, b0: bool, q: nat, c3: bool, c2: bool, c1: bool, c0: bool)
    ensures Xor(Append(p, b3, b2, b1, b0), Append(q, c3, c2, c1, c0))
         == Append(Xor(p, q), b3 != c3, b2 != c2, b1 != c1, b0 != c0)
  {
    hide Xor, Append2;
    XorAppend2(p, b3, b2, q, c3, c2);
    XorAppend2(Append2(p, b3, b2), b1, b0, Append2(q, c3, c2), c1, c0);
  }

  lemma PlusIsXor(x: Octet, y: Octet)
    ensures x.Plus(y).Value() == Add(x.Value(), y.Value())
  {
    hide Xor, Append;
    XorZero(0);
    XorAppend(0, x.b7, x.b6, x.b5, x.b4, 0, y.b7, y.b6, y.b5, y.b4);
    XorAppend(Append(0, x.b7, x.b6, x.b5, x.b4), x.b3, x.b2, x.b1, x.b0, Append(0, y.b7, y.b6, y.b5, y.b4), y.b3, y.b2,
              y.b1, y.b0);
  }

  lemma ValueInBinary(x: Octet)
    ensures x.Value() as nat == 128 * Bit(x.b7) + 64 * Bit(x.b6) + 32 * Bit(x.b5) + 16 * Bit(x.b4)
                              + 8 * Bit(x.b3) + 4 * Bit(x.b2) + 2 * Bit(x.b1) + Bit(x.b0)
  {
    hide Bit;
  }

  lemma BitValue(b: bool)
    ensures Bit(b) == if b then 1 else 0
  {
  }

  lemma ShiftedIsDouble(x: Octet)
    ensures x.Shifted().Value() == 2 * (x.Value() as nat) - (if x.b7 then 256 else 0)
    ensures x.b7 <==> x.Value() >= 128
  {
    hide Bit, Octet.Value;
    ValueInBinary(x);
    ValueInBinary(x.Shifted());
    BitValue(false);
    BitValue(x.b7);
  }

  lemma LowModulus()
    ensures LOW_MODULUS.Value() == 0x1b
  {
  }

  lemma TripledIsTriple(x: Octet)
    ensures x.Tripled().Value() == Triple(x.Value())
  {
    hide Xor, Octet.Value;
    var v: nat, s := x.Value(), x.Shifted();
    var d := if x.b7 then s.Plus(LOW_MODULUS) else s;
    assert d.Value() == Double(v) by {
      ShiftedIsDouble(x);
      DoubleFits(v);
      PlusIsXor(s, LOW_MODULUS);
      XorZero(2 * v);
      LowModulus();
    }
    PlusIsXor(d, x);
    assert d.Plus(x) == x.Tripled();
  }

  // ----- the order of 3 -----

  function Next5(x: Octet): Octet { x.Tripled().Tripled().Tripled().Tripled().Tripled() }

  /** None of the next four steps is one. */
  predicate Avoids4(x: Octet) {
    && x.Tripled() != ONE && x.Tripled().Tripled() != ONE && x.Tripled().Tripled().Tripled() != ONE
    && x.Tripled().Tripled().Tripled().Tripled() != ONE
  }

  predicate Avoids5(x: Octet) { Avoids4(x) && Next5(x) != ONE }

  /** Fifteen steps lead from `x` to `y` and not to one in between. */
  predicate Lap(x: Octet, y: Octet) {
    Avoids5(x) && Avoids5(Next5(x)) && Avoids5(Next5(Next5(x))) && Next5(Next5(Next5(x))) == y
  }

  lemma OnlyOneIsOne(x: Octet)
    ensures x.Value() == 1 <==> x == ONE
  {
  }

  lemma Step(x: Octet, i: nat)
    requires x.Value() == Power(i)
    ensures x.Tripled().Value() == Power(i + 1)
    ensures Power(i + 1) == 1 <==> x.Tripled() == ONE
  {
    hide Xor, Octet.Value, Octet.Tripled;
    TripledIsTriple(x);
    OnlyOneIsOne(x.Tripled());
  }

  ghost predicate NoneIsOne(i: nat, n: nat) { forall k :: i < k <= i + n ==> Power(k) != 1 }

  lemma FourSteps(x: Octet, i: nat)
    requires x.Value() == Power(i) && Avoids4(x)
    ensures x.Tripled().Tripled().Tripled().Tripled().Value() == Power(i + 4) && NoneIsOne(i, 4)
  {
    hide Power, Octet.Value, Octet.Tripled;
    Step(x, i);
    Step(x.Tripled(), i + 1);
    Step(x.Tripled().Tripled(), i + 2);
    Step(x.Tripled().Tripled().Tripled(), i + 3);
  }

  lemma FiveSteps(x: Octet, i: nat)
    requires x.Value() == Power(i) && Avoids5(x)
    ensures Next5(x).Value() == Power(i + 5) && NoneIsOne(i, 5)
  {
    hide Power, Octet.Value, Octet.Tripled;
    FourSteps(x, i);
    Step(x.Tripled().Tripled().Tripled().Tripled(), i + 4);
  }

  lemma Advance(x: Octet, i: nat, y: Octet)
    requires x.Value() == Power(i) && Lap(x, y)
    ensures y.Value() == Power(i + 15) && NoneIsOne(i, 15)
  {
    hide Power, Octet.Value, Octet.Tripled, Next5, Avoids5;
    FiveSteps(x, i);
    FiveSteps(Next5(x), i + 5);
    FiveSteps(Next5(Next5(x)), i + 10);
  }

  // where the laps start
  const LAP0 := Octet(false, false, false, false, false, false, false, true)
  const LAP1 := Octet(false, false, true, true, false, true, false, true)
  const LAP2 := Octet(false, true, true, false, false, true, true, false)
  const LAP3 := Octet(true, false, true, false, true, false, true, true)
  const LAP4 := Octet(true, true, false, true, false, false, true, true)
  const LAP5 := Octet(false, false, false, false, true, false, false, false)
  const LAP6 := Octet(true, false, true, true, false, false, true, true)
  const LAP7 := Octet(false, false, false, true, true, true, false, true)
  const LAP8 := Octet(false, false, true, false, true, true, true, true)
  const LAP9 := Octet(true, true, false, false, false, false, true, false)
  const LAP10 := Octet(false, true, false, false, false, false, false, false)
  const LAP11 := Octet(true, true, true, false, true, true, true, true)
  const LAP12 := Octet(true, true, true, false, true, false, false, false)
  const LAP13 := Octet(false, true, true, false, false, false, true, true)
  const LAP14 := Octet(false, true, false, false, true, false, true, false)
  const LAP15 := Octet(false, false, true, true, false, true, true, false)
  const LAP16 := Octet(false, false, true, true, true, false, false, true)
  const LAST := Octet(true, true, true, true, false, true, true, false)

  lemma Lap0() ensures Lap(LAP0, LAP1) {}
  lemma Lap1() ensures Lap(LAP1, LAP2) {}
  lemma Lap2() ensures Lap(LAP2, LAP3) {}
  lemma Lap3() ensures Lap(LAP3, LAP4) {}
  lemma Lap4() ensures Lap(LAP4, LAP5) {}
  lemma Lap5() ensures Lap(LAP5, LAP6) {}
  lemma Lap6() ensures Lap(LAP6, LAP7) {}
  lemma Lap7() ensures Lap(LAP7, LAP8) {}
  lemma Lap8() ensures Lap(LAP8, LAP9) {}
  lemma Lap9() ensures Lap(LAP9, LAP10) {}
  lemma Lap10() ensures Lap(LAP10, LAP11) {}
  lemma Lap11() ensures Lap(LAP11, LAP12) {}
  lemma Lap12() ensures Lap(LAP12, LAP13) {}
  lemma Lap13() ensures Lap(LAP13, LAP14) {}
  lemma Lap14() ensures Lap(LAP14, LAP15) {}
  lemma Lap15() ensures Lap(LAP15, LAP16) {}

  lemma LastFives()
    ensures Avoids5(LAP16) && Avoids5(Next5(LAP16)) && Avoids4(Next5(Next5(LAP16)))
    ensures Next5(Next5(LAP16)).Tripled().Tripled().Tripled().Tripled() == LAST
  {
  }

  /** The last lap is one step shorter. */
  lemma LastLap(i: nat)
    requires LAP16.Value() == Power(i)
    ensures LAST.Value() == Power(i + 14) && NoneIsOne(i, 14)
  {
    hide Power, Octet.Value;
    LastFives();
    FiveSteps(LAP16, i);
    FiveSteps(Next5(LAP16), i + 5);
    FourSteps(Next5(Next5(LAP16)), i + 10);
  }

  lemma Start()
    ensures LAP0.Value() == Power(0)
  {
  }

  lemma FirstLaps(i: nat)
    requires LAP0.Value() == Power(i)
    ensures LAP8.Value() == Power(i + 120) && NoneIsOne(i, 120)
  {
    hide Lap, Power, Octet.Value;
    Lap0();
    Advance(LAP0, i + 0, LAP1);
    Lap1();
    Advance(LAP1, i + 15, LAP2);
    Lap2();
    Advance(LAP2, i + 30, LAP3);
    Lap3();
    Advance(LAP3, i + 45, LAP4);
    Lap4();
    Advance(LAP4, i + 60, LAP5);
    Lap5();
    Advance(LAP5, i + 75, LAP6);
    Lap6();
    Advance(LAP6, i + 90, LAP7);
    Lap7();
    Advance(LAP7, i + 105, LAP8);
  }

  lemma NextLaps(i: nat)
    requires LAP8.Value() == Power(i)
    ensures LAP16.Value() == Power(i + 120) && NoneIsOne(i, 120)
  {
    hide Lap, Power, Octet.Value;
    Lap8();
    Advance(LAP8, i + 0, LAP9);
    Lap9();
    Advance(LAP9, i + 15, LAP10);
    Lap10();
    Advance(LAP10, i + 30, LAP11);
    Lap11();
    Advance(LAP11, i + 45, LAP12);
    Lap12();
    Advance(LAP12, i + 60, LAP13);
    Lap13();
    Advance(LAP13, i + 75, LAP14);
    Lap14();
    Advance(LAP14, i + 90, LAP15);
    Lap15();
    Advance(LAP15, i + 105, LAP16);
  }

  lemma LastStep(i: nat)
    requires LAST.Value() == Power(i)
    ensures Power(i + 1) == 1
  {
    Step(LAST, i);
    assert LAST.Tripled() == ONE;
  }

  /** The order of 3 is exactly 255. */
  lemma OrderOfThree()
    ensures Power(255) == 1
    ensures forall k :: 0 < k < 255 ==> Power(k) != 1
  {
    Start();
    hide Power, Octet.Value;
    FirstLaps(0);
    NextLaps(120);
    LastLap(240);
    LastStep(254);
  }

  // ----- powers of 3 -----

  lemma {:induction false} PowerAdd(i: nat, j: nat)
    ensures Power(i + j) == Times(Power(i), Power(j))
  {
    hide Times, Triple;
    if j == 0 {
      TimesUnit(Power(i));
    } else {
      PowerAdd(i, j - 1);
      TripleIsTimes(Power(i + j - 1));
      TripleIsTimes(Power(j - 1));
      TimesAssociates(Power(i), Power(j - 1), 3);
    }
  }

  lemma {:induction false} PowerPeriod(i: nat)
    ensures Power(i + 255) == Power(i)
  {
    hide *;
    PowerAdd(i, 255);
    OrderOfThree();
    TimesUnit(Power(i));
  }

  lemma PowerNonZero(i: nat)
    requires i <= 255
    ensures Power(i) != 0
  {
    hide *;
    PowerAdd(i, 255 - i);
    OrderOfThree();
    TimesUnit(Power(255 - i));
  }

  /** Below 255 no power repeats. */
  lemma PowerInjective(i: nat, j: nat)
    requires i <= j < 255 && Power(i) == Power(j)
    ensures i == j
  {
    hide *;
    PowerAdd(i, 255 - i);
    PowerAdd(j, 255 - i);
    PowerPeriod(j - i);
    OrderOfThree();
  }

  // ----- every non-zero byte is a power of 3 -----

  ghost function Powers(n: nat): set<nat> { set i | 0 <= i < n :: Power(i) as nat }

  ghost function UpTo(n: nat): (r: set<nat>)
    ensures |r| == n
    ensures forall x :: x in r <==> 1 <= x <= n
  {
    if n == 0 then {} else UpTo(n - 1) + {n}
  }

  lemma {:induction false} PowersSize(n: nat)
    requires n <= 255
    ensures |Powers(n)| == n
  {
    hide Power;
    if n != 0 {
      PowersSize(n - 1);
      assert Powers(n) == Powers(n - 1) + {Power(n - 1) as nat};
      if Power(n - 1) as nat in Powers(n - 1) {
        var i :| 0 <= i < n - 1 && Power(i) == Power(n - 1);
        PowerInjective(i, n - 1);
      }
    }
  }

  lemma {:induction false} FewerElements(s: set<nat>, t: set<nat>)
    requires s <= t
    ensures |s| <= |t|
  {
    if x :| x in s {
      FewerElements(s - {x}, t - {x});
    }
  }

  lemma {:induction false} FullSubset(s: set<nat>, t: set<nat>)
    requires s <= t && |s| == |t|
    ensures s == t
  {
    if x :| x in t && x !in s {
      FewerElements(s, t - {x});
    }
  }

  lemma EveryByteIsAPower(a: Byte) returns (i: nat)
    requires a != 0
    ensures i < 255 && Power(i) == a
  {
    hide Power;
    PowersSize(255);
    forall p | p in Powers(255) ensures p in UpTo(255) {
      var i :| 0 <= i < 255 && p == Power(i);
      PowerNonZero(i);
    }
    FullSubset(Powers(255), UpTo(255));
    assert a as nat in Powers(255);
    i :| 0 <= i < 255 && a == Power(i);
  }
}
