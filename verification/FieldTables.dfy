/**
 The exponential and logarithm tables of GF(2^8), filled by a loop, and the two table look-ups that
 all secret sharing arithmetic goes through.
 */
module FieldTables {
  import opened Wrappers
  import opened BinaryPolynomials
  import opened Gf256
  import opened Generator

  ghost predicate PowersUpTo(exp: array<Byte>, n: nat)
    reads exp
  {
    && n <= exp.Length
    && (forall i | 0 <= i < n :: exp[i] == Power(i))
  }

  ghost predicate LogsUpTo(log: array<Byte>, n: nat)
    reads log
  {
    && n <= log.Length == 256
    && (forall i | 0 <= i < n :: log[Power(i)] == i)
  }

  lemma PowerSteps(i: nat)
    ensures Power(0) == 1 && Power(i + 1) == Triple(Power(i))
  {
  }

  lemma PowersDiffer(i: nat)
    requires i < 255
    ensures forall k :: 0 <= k < i ==> Power(k) != Power(i)
  {
    forall k | 0 <= k < i ensures Power(k) != Power(i) {
      if Power(k) == Power(i) { PowerInjective(k, i); }
    }
  }

  /** The loop's shift, conditional subtraction and addition multiply by 3. */
  lemma ShiftAndFold(x: Byte)
    ensures var d: nat := 2 * (x as nat);
            Xor(if d >= 256 then Xor(d, MODULUS) else d, x) == Triple(x)
  {
    hide Xor;
    XorZero(2 * (x as nat));
  }

  /** The first loop: 255 steps through the powers of the generator. */
  method FillFirstCycle(exp: array<Byte>, log: array<Byte>)
    requires exp.Length == 510 && log.Length == 256 && exp != log
    modifies exp, log
    ensures PowersUpTo(exp, 255) && LogsUpTo(log, 255)
  {
    hide Power, Triple, Xor;
    var x: Byte := 1;
    PowerSteps(0);
    for i := 0 to 255
      invariant x == Power(i)
      invariant PowersUpTo(exp, i) && LogsUpTo(log, i)
    {
      PowersDiffer(i);
      PowerSteps(i);
      ShiftAndFold(x);
      exp[i] := x;
      log[x] := i;
      var x2: nat := 2 * (x as nat);
      if x2 >= 256 {
        x2 := Xor(x2, MODULUS);
      }
      x := Xor(x2, x);
    }
  }

  /** The second loop: the exponents from 255 on repeat the first cycle. */
  method RepeatCycle(exp: array<Byte>)
    requires exp.Length == 510 && PowersUpTo(exp, 255)
    modifies exp
    ensures PowersUpTo(exp, 510)
  {
    hide Power;
    for i := 255 to 510
      invariant PowersUpTo(exp, i)
    {
      PowerPeriod(i - 255);
      exp[i] := exp[i - 255];
    }
  }

  lemma LogsCoverAllBytes(log: array<Byte>)
    requires log.Length == 256 && LogsUpTo(log, 255)
    ensures forall a: Byte :: a != 0 ==> log[a] < 255 && Power(log[a]) == a
  {
    hide Power;
    forall a: Byte | a != 0 ensures log[a] < 255 && Power(log[a]) == a {
      var i := EveryByteIsAPower(a);
    }
  }

  lemma ProductWithZero(a: Byte, b: Byte)
    requires a == 0 || b == 0
    ensures Times(a, b) == 0
  {
    TimesUnit(a);
    TimesUnit(b);
  }

  lemma QuotientOfPowers(i: nat, j: nat)
    requires j < 255
    ensures Times(Power(i + 255 - j), Power(j)) == Power(i)
  {
    PowerAdd(i + 255 - j, j);
    PowerPeriod(i);
  }

  class Tables {
    const exp: array<Byte>
    const log: array<Byte>

    ghost predicate Valid()
      reads exp, log
    {
      && exp.Length == 510 && log.Length == 256
      && PowersUpTo(exp, 510)
      && (forall a: Byte :: a != 0 ==> log[a] < 255 && Power(log[a]) == a)
    }

    constructor ()
      ensures Valid() && fresh(exp) && fresh(log)
    {
      exp := new Byte[510](_ => 0);
      log := new Byte[256](_ => 0);
      new;
      FillFirstCycle(exp, log);
      RepeatCycle(exp);
      LogsCoverAllBytes(log);
    }

    function Log(a: Byte): (i: nat)
      requires Valid() && a != 0
      reads exp, log
      ensures i < 255 && Power(i) == a
    {
      log[a] as nat
    }

    function Exp(i: nat): (r: Byte)
      requires Valid() && i < 510
      reads exp, log
      ensures r == Power(i)
    {
      exp[i]
    }

    /** The product of the field, by adding logarithms. */
    function Mul(a: Byte, b: Byte): (r: Byte)
      requires Valid()
      reads exp, log
      ensures r == Times(a, b)
    {
      hide Power, Times, Valid, Log, Exp;
      if a == 0 || b == 0 then
        ProductWithZero(a, b);
        0
      else
        PowerAdd(Log(a), Log(b));
        Exp(Log(a) + Log(b))
    }

    /** The quotient of the field; there is none by zero. */
    function Div(a: Byte, b: Byte): (r: Option<Byte>)
      requires Valid()
      reads exp, log
      ensures r.None? <==> b == 0
      ensures b != 0 ==> Times(r.value, b) == a
    {
      hide Power, Times, Valid, Log, Exp;
      if b == 0 then None
      else if a == 0 then
        ProductWithZero(0, b);
        Some(0)
      else
        QuotientOfPowers(Log(a), Log(b));
        Some(Exp(Log(a) + 255 - Log(b)))
    }
  }
}
