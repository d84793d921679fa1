/**
 Lagrange interpolation at zero over GF(2^8), in the order of evaluation that share combination
 uses. The main result, `InterpolationAtZero`, recovers the constant coefficient of any polynomial
 from its values at enough distinct points.
 */
module Interpolation {
  import opened BinaryPolynomials
  import opened Gf256
  import opened Generator

  /** The value at `x` of the polynomial with coefficients `c`, lowest degree first, by Horner's rule. */
  function Eval(c: seq<Byte>, x: Byte): Byte {
    if c == [] then 0 else Add(Times(Eval(c[1..], x), x), c[0])
  }

  ghost predicate Distinct(xs: seq<Byte>) {
    forall i, j :: 0 <= i < j < |xs| ==> xs[i] != xs[j]
  }

  /** The product of the first `n` points other than the `i`-th. */
  function Numerator(xs: seq<Byte>, i: nat, n: nat): Byte
    requires n <= |xs|
  {
    if n == 0 then 1
    else if n - 1 == i then Numerator(xs, i, n - 1)
    else Times(Numerator(xs, i, n - 1), xs[n - 1])
  }

  /** The product of the differences of the `i`-th point from the others among the first `n`. */
  function Denominator(xs: seq<Byte>, i: nat, n: nat): Byte
    requires i < |xs| && n <= |xs|
  {
    if n == 0 then 1
    else if n - 1 == i then Denominator(xs, i, n - 1)
    else Times(Denominator(xs, i, n - 1), Add(xs[i], xs[n - 1]))
  }

  // ----- division -----

  lemma InverseExists(b: Byte) returns (r: Byte)
    requires b != 0
    ensures Times(r, b) == 1 && Times(b, r) == 1
  {
    hide *;
    var i := EveryByteIsAPower(b);
    PowerAdd(255 - i, i);
    OrderOfThree();
    r := Power(255 - i);
    TimesCommutes(r, b);
  }

  lemma QuotientExists(a: Byte, b: Byte)
    requires b != 0
    ensures exists q: Byte :: Times(q, b) == a
  {
    hide *;
    var r := InverseExists(b);
    TimesAssociates(a, r, b);
    TimesUnit(a);
    assert Times(Times(a, r), b) == a;
  }

  ghost function Quotient(a: Byte, b: Byte): (q: Byte)
    requires b != 0
    ensures Times(q, b) == a
  {
    QuotientExists(a, b);
    var q: Byte :| Times(q, b) == a;
    q
  }

  lemma Cancel(a: Byte, a': Byte, b: Byte)
    requires b != 0 && Times(a, b) == Times(a', b)
    ensures a == a'
  {
    hide *;
    var r := InverseExists(b);
    TimesAssociates(a, b, r);
    TimesAssociates(a', b, r);
    TimesUnit(a);
    TimesUnit(a');
  }

  lemma ProductNonZero(a: Byte, b: Byte)
    requires a != 0 && b != 0
    ensures Times(a, b) != 0
  {
    hide *;
    TimesUnit(b);
    if Times(a, b) == 0 { Cancel(a, 0, b); }
  }

  lemma {:induction false} DenominatorNonZero(xs: seq<Byte>, i: nat, n: nat)
    requires Distinct(xs) && i < |xs| && n <= |xs|
    ensures Denominator(xs, i, n) != 0
  {
    hide Times, Add;
    if n != 0 {
      DenominatorNonZero(xs, i, n - 1);
      if n - 1 != i {
        if Add(xs[i], xs[n - 1]) == 0 { SumIsZero(xs[i], xs[n - 1]); }
        ProductNonZero(Denominator(xs, i, n - 1), Add(xs[i], xs[n - 1]));
      }
    }
  }

  /** The Lagrange coefficient of the `i`-th point at zero. */
  ghost function Weight(xs: seq<Byte>, i: nat): Byte
    requires Distinct(xs) && i < |xs|
  {
    DenominatorNonZero(xs, i, |xs|);
    Quotient(Numerator(xs, i, |xs|), Denominator(xs, i, |xs|))
  }

  /** The first `n` terms of the interpolation of the values `ys` at the points `xs`. */
  ghost function Combine(xs: seq<Byte>, ys: seq<Byte>, n: nat): Byte
    requires Distinct(xs) && n <= |xs| && n <= |ys|
  {
    if n == 0 then 0 else Add(Combine(xs, ys, n - 1), Times(ys[n - 1], Weight(xs, n - 1)))
  }

  lemma WeightDivides(xs: seq<Byte>, i: nat, w: Byte)
    requires Distinct(xs) && i < |xs|
    ensures Times(w, Denominator(xs, i, |xs|)) == Numerator(xs, i, |xs|) <==> w == Weight(xs, i)
  {
    hide Times, Numerator, Denominator;
    DenominatorNonZero(xs, i, |xs|);
    if Times(w, Denominator(xs, i, |xs|)) == Numerator(xs, i, |xs|) {
      Cancel(w, Weight(xs, i), Denominator(xs, i, |xs|));
    }
  }

  // ----- the combination is linear in the values -----

  lemma Interchange(a: Byte, b: Byte, c: Byte, d: Byte)
    ensures Add(Add(a, b), Add(c, d)) == Add(Add(a, c), Add(b, d))
  {
    hide Xor;
    XorInterchange(a, b, c, d);
  }

  lemma {:induction false} CombineAdds(xs: seq<Byte>, u: seq<Byte>, v: seq<Byte>, w: seq<Byte>, n: nat)
    requires Distinct(xs) && n <= |xs| && n <= |u| && n <= |v| && n <= |w|
    requires forall i :: 0 <= i < n ==> w[i] == Add(u[i], v[i])
    ensures Combine(xs, w, n) == Add(Combine(xs, u, n), Combine(xs, v, n))
  {
    hide Times, Add, Weight;
    if n == 0 {
      AddLaws(0, 0, 0);
    } else {
      CombineAdds(xs, u, v, w, n - 1);
      TimesAdd(Weight(xs, n - 1), u[n - 1], v[n - 1]);
      Interchange(Combine(xs, u, n - 1), Combine(xs, v, n - 1), Times(u[n - 1], Weight(xs, n - 1)),
                  Times(v[n - 1], Weight(xs, n - 1)));
    }
  }

  lemma {:induction false} CombineScales(xs: seq<Byte>, s: Byte, u: seq<Byte>, v: seq<Byte>, n: nat)
    requires Distinct(xs) && n <= |xs| && n <= |u| && n <= |v|
    requires forall i :: 0 <= i < n ==> v[i] == Times(s, u[i])
    ensures Combine(xs, v, n) == Times(s, Combine(xs, u, n))
  {
    hide Times, Add, Weight;
    if n == 0 {
      TimesUnit(s);
    } else {
      CombineScales(xs, s, u, v, n - 1);
      TimesAssociates(s, u[n - 1], Weight(xs, n - 1));
      TimesAdd(s, Combine(xs, u, n - 1), Times(u[n - 1], Weight(xs, n - 1)));
    }
  }

  // ----- removing one point -----

  lemma {:induction false} PrefixProducts(xs: seq<Byte>, i: nat, k: nat, n: nat)
    requires i < k <= |xs| && n <= k
    ensures Numerator(xs[..k], i, n) == Numerator(xs, i, n)
    ensures Denominator(xs[..k], i, n) == Denominator(xs, i, n)
  {
    hide Times, Add;
    if n != 0 { PrefixProducts(xs, i, k, n - 1); }
  }

  lemma {:induction false} SuffixProducts(xs: seq<Byte>, i: nat, n: nat)
    requires 0 < i < |xs| && 0 < n <= |xs|
    ensures Numerator(xs, i, n) == Times(xs[0], Numerator(xs[1..], i - 1, n - 1))
    ensures Denominator(xs, i, n) == Times(Add(xs[i], xs[0]), Denominator(xs[1..], i - 1, n - 1))
  {
    hide Times, Add;
    if n == 1 {
      assert Numerator(xs, i, 0) == 1 && Denominator(xs, i, 0) == 1;
      TimesUnit(xs[0]);
      TimesUnit(Add(xs[i], xs[0]));
    } else {
      SuffixProducts(xs, i, n - 1);
      if n - 1 != i {
        TimesAssociates(xs[0], Numerator(xs[1..], i - 1, n - 2), xs[n - 1]);
        TimesAssociates(Add(xs[i], xs[0]), Denominator(xs[1..], i - 1, n - 2), Add(xs[i], xs[n - 1]));
      }
    }
  }

  /** If one more point `z` multiplies the numerator by `z` and the denominator by `d`, then `d * w == z * v`. */
  lemma WeightRatio(w: Byte, v: Byte, num: Byte, den: Byte, z: Byte, d: Byte)
    requires den != 0
    requires Times(w, Times(d, den)) == Times(z, num) && Times(v, den) == num
    ensures Times(d, w) == Times(z, v)
  {
    hide *;
    calc {
      Times(Times(d, w), den);
    ==  { TimesCommutes(d, w); TimesAssociates(w, d, den); }
      Times(z, Times(v, den));
    ==  { TimesAssociates(z, v, den); }
      Times(Times(z, v), den);
    }
    Cancel(Times(d, w), Times(z, v), den);
  }

  lemma WeightWithoutLast(xs: seq<Byte>, i: nat)
    requires Distinct(xs) && i < |xs| - 1
    ensures var k := |xs| - 1; Times(Add(xs[i], xs[k]), Weight(xs, i)) == Times(xs[k], Weight(xs[..k], i))
  {
    hide Times, Add, Weight;
    var k := |xs| - 1;
    var num, den := Numerator(xs, i, k), Denominator(xs, i, k);
    PrefixProducts(xs, i, k, k);
    WeightDivides(xs, i, Weight(xs, i));
    WeightDivides(xs[..k], i, Weight(xs[..k], i));
    DenominatorNonZero(xs[..k], i, k);
    TimesCommutes(num, xs[k]);
    TimesCommutes(den, Add(xs[i], xs[k]));
    WeightRatio(Weight(xs, i), Weight(xs[..k], i), num, den, xs[k], Add(xs[i], xs[k]));
  }

  lemma WeightWithoutFirst(xs: seq<Byte>, i: nat)
    requires Distinct(xs) && 0 < i < |xs|
    ensures Times(Add(xs[i], xs[0]), Weight(xs, i)) == Times(xs[0], Weight(xs[1..], i - 1))
  {
    hide Times, Add, Weight;
    var rest := xs[1..];
    SuffixProducts(xs, i, |xs|);
    WeightDivides(xs, i, Weight(xs, i));
    WeightDivides(rest, i - 1, Weight(rest, i - 1));
    DenominatorNonZero(rest, i - 1, |rest|);
    WeightRatio(Weight(xs, i), Weight(rest, i - 1), Numerator(rest, i - 1, |rest|), Denominator(rest, i - 1, |rest|),
                xs[0], Add(xs[i], xs[0]));
  }

  /** One term: scaling the value by the difference trades the weight for that without the point. */
  lemma TermTrade(y: Byte, d: Byte, w: Byte, z: Byte, v: Byte)
    requires Times(d, w) == Times(z, v)
    ensures Times(Times(d, y), w) == Times(z, Times(y, v))
  {
    hide *;
    TimesCommutes(d, y);
    TimesAssociates(y, d, w);
    TimesAssociates(y, z, v);
    TimesCommutes(y, z);
    TimesAssociates(z, y, v);
  }

  lemma {:induction false} CombineWithoutLast(xs: seq<Byte>, u: seq<Byte>, v: seq<Byte>, n: nat)
    requires Distinct(xs) && n < |xs| == |u| == |v|
    requires forall i :: 0 <= i < |xs| ==> v[i] == Times(Add(xs[i], xs[|xs| - 1]), u[i])
    ensures var k := |xs| - 1; Combine(xs, v, n) == Times(xs[k], Combine(xs[..k], u[..k], n))
  {
    hide Times, Add, Weight;
    var k := |xs| - 1;
    if n == 0 {
      TimesUnit(xs[k]);
    } else {
      CombineWithoutLast(xs, u, v, n - 1);
      WeightWithoutLast(xs, n - 1);
      TermTrade(u[n - 1], Add(xs[n - 1], xs[k]), Weight(xs, n - 1), xs[k], Weight(xs[..k], n - 1));
      TimesAdd(xs[k], Combine(xs[..k], u[..k], n - 1), Times(u[n - 1], Weight(xs[..k], n - 1)));
    }
  }

  /** The last point contributes nothing to values that vanish there. */
  lemma RemoveLast(xs: seq<Byte>, u: seq<Byte>, v: seq<Byte>)
    requires Distinct(xs) && 0 < |xs| == |u| == |v|
    requires forall i :: 0 <= i < |xs| ==> v[i] == Times(Add(xs[i], xs[|xs| - 1]), u[i])
    ensures var k := |xs| - 1; Combine(xs, v, |xs|) == Times(xs[k], Combine(xs[..k], u[..k], k))
  {
    hide Times, Add, Weight;
    var k := |xs| - 1;
    CombineWithoutLast(xs, u, v, k);
    AddLaws(xs[k], Combine(xs, v, k), 0);
    AddLaws(Combine(xs, v, k), 0, 0);
    TimesUnit(u[k]);
    TimesUnit(Weight(xs, k));
  }

  lemma {:induction false} RemoveFirst(xs: seq<Byte>, u: seq<Byte>, v: seq<Byte>, n: nat)
    requires Distinct(xs) && 0 < n <= |xs| == |u| == |v|
    requires forall i :: 0 <= i < |xs| ==> v[i] == Times(Add(xs[i], xs[0]), u[i])
    ensures Combine(xs, v, n) == Times(xs[0], Combine(xs[1..], u[1..], n - 1))
  {
    hide Times, Add, Weight;
    if n == 1 {
      AddLaws(xs[0], 0, 0);
      AddLaws(0, 0, 0);
      TimesUnit(u[0]);
      TimesUnit(Weight(xs, 0));
      TimesUnit(xs[0]);
      assert Combine(xs, v, 0) == 0;
    } else {
      RemoveFirst(xs, u, v, n - 1);
      WeightWithoutFirst(xs, n - 1);
      TermTrade(u[n - 1], Add(xs[n - 1], xs[0]), Weight(xs, n - 1), xs[0], Weight(xs[1..], n - 2));
      TimesAdd(xs[0], Combine(xs[1..], u[1..], n - 2), Times(u[n - 1], Weight(xs[1..], n - 2)));
    }
  }

  // ----- the interpolation theorem -----

  ghost function Ones(n: nat): seq<Byte> { seq(n, _ => 1) }

  lemma PrefixSuffixDistinct(xs: seq<Byte>)
    requires Distinct(xs) && |xs| > 0
    ensures Distinct(xs[..|xs| - 1]) && Distinct(xs[1..])
  {
  }

  lemma DifferencesAdd(x: Byte, a: Byte, z: Byte)
    ensures Times(Add(a, z), 1) == Add(Times(Add(x, a), 1), Times(Add(x, z), 1))
  {
    hide Times, Add;
    TimesUnit(Add(a, z));
    TimesUnit(Add(x, a));
    TimesUnit(Add(x, z));
    Interchange(x, a, x, z);
    AddLaws(x, x, 0);
    AddLaws(Add(a, z), 0, 0);
  }

  /** The weights of any non-empty set of points add up to one. */
  lemma {:induction false} WeightsSumToOne(xs: seq<Byte>)
    requires Distinct(xs) && |xs| > 0
    ensures Combine(xs, Ones(|xs|), |xs|) == 1
    decreases |xs|
  {
    hide Times, Add, Weight;
    var n := |xs|;
    if n == 1 {
      assert Numerator(xs, 0, 0) == 1 && Denominator(xs, 0, 0) == 1;
      TimesUnit(1);
      WeightDivides(xs, 0, 1);
      AddLaws(1, 0, 0);
      assert Combine(xs, Ones(1), 0) == 0;
    } else {
      var a, z, one := xs[0], xs[n - 1], Ones(n);
      var u := seq(n, i requires 0 <= i < n => Times(Add(xs[i], a), 1));
      var v := seq(n, i requires 0 <= i < n => Times(Add(xs[i], z), 1));
      var w := seq(n, i requires 0 <= i < n => Times(Add(a, z), 1));
      PrefixSuffixDistinct(xs);
      WeightsSumToOne(xs[1..]);
      WeightsSumToOne(xs[..n - 1]);
      assert one[1..] == Ones(n - 1) && one[..n - 1] == Ones(n - 1);
      RemoveFirst(xs, one, u, n);
      RemoveLast(xs, one, v);
      forall i | 0 <= i < n ensures w[i] == Add(u[i], v[i]) {
        DifferencesAdd(xs[i], a, z);
      }
      CombineAdds(xs, u, v, w, n);
      CombineScales(xs, Add(a, z), one, w, n);
      TimesUnit(a);
      TimesUnit(z);
      TimesUnit(Add(a, z));
      if Add(a, z) == 0 { SumIsZero(a, z); }
      TimesCommutes(Add(a, z), Combine(xs, one, n));
      Cancel(Combine(xs, one, n), 1, Add(a, z));
    }
  }

  ghost function Values(c: seq<Byte>, xs: seq<Byte>): (ys: seq<Byte>)
    ensures |ys| == |xs|
  {
    seq(|xs|, i requires 0 <= i < |xs| => Eval(c, xs[i]))
  }

  /** A value of `c` splits into the part that vanishes at `z`, a multiple of the rest, and the constant. */
  lemma HornerSplit(c: seq<Byte>, x: Byte, z: Byte)
    requires c != []
    ensures var r := Eval(c[1..], x);
            Eval(c, x) == Add(Add(Times(Add(x, z), r), Times(z, r)), Times(c[0], 1))
  {
    hide Times, Add;
    var r := Eval(c[1..], x);
    TimesAdd(r, x, z);
    TimesCommutes(x, r);
    TimesUnit(c[0]);
    AddLaws(Times(x, r), Times(z, r), Times(z, r));
    AddLaws(Times(z, r), 0, 0);
    AddLaws(Times(x, r), 0, 0);
  }

  lemma {:induction false} ZeroPolynomial(xs: seq<Byte>, n: nat)
    requires Distinct(xs) && n <= |xs|
    ensures Combine(xs, Values([], xs), n) == 0
  {
    hide Times, Add, Weight;
    if n != 0 {
      ZeroPolynomial(xs, n - 1);
      TimesUnit(Weight(xs, n - 1));
      AddLaws(0, 0, 0);
      assert Eval([], xs[n - 1]) == 0;
    }
  }

  /**
   The interpolation theorem at zero: the values of a polynomial at at least as many distinct points
   as it has coefficients combine to its constant coefficient.
   */
  lemma {:induction false} InterpolationAtZero(xs: seq<Byte>, c: seq<Byte>)
    requires Distinct(xs) && 0 < |c| <= |xs|
    ensures Combine(xs, Values(c, xs), |xs|) == c[0]
    decreases |c|
  {
    hide Times, Add, Weight, Eval;
    var n, z := |xs|, xs[|xs| - 1];
    var one, rest := Ones(n), Values(c[1..], xs);
    var vanishing := seq(n, i requires 0 <= i < n => Times(Add(xs[i], z), rest[i]));
    var multiple := seq(n, i requires 0 <= i < n => Times(z, rest[i]));
    var both := seq(n, i requires 0 <= i < n => Add(vanishing[i], multiple[i]));
    var constant := seq(n, i requires 0 <= i < n => Times(c[0], one[i]));
    forall i | 0 <= i < n ensures Values(c, xs)[i] == Add(both[i], constant[i]) {
      HornerSplit(c, xs[i], z);
    }
    CombineAdds(xs, both, constant, Values(c, xs), n);
    CombineAdds(xs, vanishing, multiple, both, n);
    CombineScales(xs, z, rest, multiple, n);
    CombineScales(xs, c[0], one, constant, n);
    WeightsSumToOne(xs);
    RemoveLast(xs, rest, vanishing);
    PrefixSuffixDistinct(xs);
    TimesUnit(c[0]);
    AddLaws(c[0], 0, 0);
    assert rest[..n - 1] == Values(c[1..], xs[..n - 1]);
    if |c| == 1 {
      ZeroPolynomial(xs, n);
      ZeroPolynomial(xs[..n - 1], n - 1);
    } else {
      InterpolationAtZero(xs, c[1..]);
      InterpolationAtZero(xs[..n - 1], c[1..]);
    }
    AddLaws(Times(z, Combine(xs, rest, n)), 0, 0);
  }

  // ----- polynomials through given values -----

  /** The coefficients of the product of `q` with the linear polynomial that vanishes at `p`. */
  ghost function TimesLinear(q: seq<Byte>, p: Byte): (c: seq<Byte>)
    ensures |c| == |q| + 1
  {
    if q == [] then [0]
    else
      var r := TimesLinear(q[1..], p);
      [Times(p, q[0]), Add(r[0], q[0])] + r[1..]
  }

  lemma EvalCons(a: Byte, c: seq<Byte>, x: Byte)
    ensures Eval([a] + c, x) == Add(Times(Eval(c, x), x), a)
  {
    assert ([a] + c)[1..] == c;
  }

  lemma RaiseConstant(c: seq<Byte>, v: Byte, x: Byte)
    requires c != []
    ensures Eval([Add(c[0], v)] + c[1..], x) == Add(Eval(c, x), v)
  {
    hide Times, Add, Eval;
    EvalCons(Add(c[0], v), c[1..], x);
    EvalCons(c[0], c[1..], x);
    assert [c[0]] + c[1..] == c;
    AddLaws(Times(Eval(c[1..], x), x), c[0], v);
  }

  lemma EmptyPolynomial(x: Byte)
    ensures Eval([], x) == 0
  {
  }

  lemma {:induction false} EvalTimesLinear(q: seq<Byte>, p: Byte, x: Byte)
    ensures Eval(TimesLinear(q, p), x) == Times(Add(x, p), Eval(q, x))
  {
    hide Times, Add, Eval;
    if q == [] {
      EvalCons(0, [], x);
      assert [0] + [] == TimesLinear([], p);
      EmptyPolynomial(x);
      TimesUnit(x);
      TimesUnit(Add(x, p));
      AddLaws(0, 0, 0);
    } else {
      var r, e, s := TimesLinear(q[1..], p), Eval(q[1..], x), Add(x, p);
      EvalTimesLinear(q[1..], p, x);
      RaiseConstant(r, q[0], x);
      var c := [Add(r[0], q[0])] + r[1..];
      assert TimesLinear(q, p) == [Times(p, q[0])] + c;
      EvalCons(Times(p, q[0]), c, x);
      EvalCons(q[0], q[1..], x);
      assert [q[0]] + q[1..] == q;
      calc {
        Add(Times(Add(Times(s, e), q[0]), x), Times(p, q[0]));
      ==  { TimesAdd(x, Times(s, e), q[0]); }
        Add(Add(Times(Times(s, e), x), Times(q[0], x)), Times(p, q[0]));
      ==  { AddLaws(Times(Times(s, e), x), Times(q[0], x), Times(p, q[0])); }
        Add(Times(Times(s, e), x), Add(Times(q[0], x), Times(p, q[0])));
      ==  { TimesCommutes(q[0], x); TimesAdd(q[0], x, p); TimesAssociates(s, e, x); }
        Add(Times(s, Times(e, x)), Times(s, q[0]));
      ==  { TimesAdd(s, Times(e, x), q[0]); }
        Times(s, Add(Times(e, x), q[0]));
      }
    }
  }

  lemma {:induction false} PaddedPolynomial(c: seq<Byte>, n: nat, x: Byte)
    ensures Eval(c + seq(n, _ => 0), x) == Eval(c, x)
  {
    hide Times, Add;
    var zeros := seq(n, _ => 0 as Byte);
    if c != [] {
      assert (c + zeros)[1..] == c[1..] + zeros;
      PaddedPolynomial(c[1..], n, x);
    } else if n != 0 {
      assert ([] + zeros)[1..] == [] + seq(n - 1, _ => 0);
      PaddedPolynomial([], n - 1, x);
      TimesUnit(x);
      AddLaws(0, 0, 0);
    } else {
      assert c + zeros == c;
    }
  }

  /** A polynomial with as many coefficients as there are distinct points takes any values at them. */
  lemma {:induction false} Fit(points: seq<Byte>, values: seq<Byte>) returns (c: seq<Byte>)
    requires Distinct(points) && |values| == |points|
    ensures |c| == |points|
    ensures forall i :: 0 <= i < |points| ==> Eval(c, points[i]) == values[i]
  {
    hide Times, Add, Eval, TimesLinear;
    if points == [] {
      c := [];
    } else {
      var n, p, v := |points|, points[0], values[0];
      forall i | 0 < i < n ensures Add(points[i], p) != 0 {
        if Add(points[i], p) == 0 { SumIsZero(points[i], p); }
      }
      var targets := seq(n - 1, i requires 0 <= i < n - 1 => Quotient(Add(values[i + 1], v), Add(points[i + 1], p)));
      var q := Fit(points[1..], targets);
      var product := TimesLinear(q, p);
      c := [Add(product[0], v)] + product[1..];
      forall i | 0 <= i < n ensures Eval(c, points[i]) == values[i] {
        RaiseConstant(product, v, points[i]);
        EvalTimesLinear(q, p, points[i]);
        AddLaws(p, p, p);
        TimesUnit(Eval(q, p));
        AddLaws(v, 0, 0);
        if i != 0 {
          assert points[1..][i - 1] == points[i];
          TimesCommutes(Add(points[i], p), Eval(q, points[i]));
          AddLaws(values[i], v, v);
          AddLaws(values[i], 0, 0);
        }
      }
    }
  }
}
