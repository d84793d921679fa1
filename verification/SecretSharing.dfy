/**
 Shamir secret sharing over GF(2^8), byte by byte. A share is its index followed by one polynomial
 value for each byte of the secret. Random bytes are a parameter: one row of coefficients for each byte.
 */
module SecretSharing {
  import opened Wrappers
  import opened Gf256
  import opened FieldTables
  import opened Interpolation

  datatype ShareError =
    | ThresholdTooSmall
    | BadShareCount
    | EmptySecret
    | TooFewShares
    | MismatchedLengths
    | BadIndices

  type Bytes = seq<Byte>

  // ----- splitting -----

  /** One row of `threshold - 1` random bytes for each byte of the secret. */
  ghost predicate RandomRows(random: seq<Bytes>, secret: Bytes, threshold: int) {
    |random| == |secret| && forall row :: row in random ==> |row| == threshold - 1
  }

  ghost function Coefficients(secret: Bytes, random: seq<Bytes>, j: nat): Bytes
    requires |random| == |secret| && j < |secret|
  {
    [secret[j]] + random[j]
  }

  /** The share with index `x`. */
  ghost function Share(secret: Bytes, random: seq<Bytes>, x: Byte): (s: Bytes)
    requires |random| == |secret|
    ensures |s| == |secret| + 1
  {
    [x] + seq(|secret|, j requires 0 <= j < |secret| => Eval(Coefficients(secret, random, j), x))
  }

  /** Horner's rule, from the highest coefficient down. */
  method Horner(t: Tables, coeffs: Bytes, x: Byte) returns (y: Byte)
    requires t.Valid()
    ensures y == Eval(coeffs, x)
  {
    hide Times, Add;
    y := 0;
    for k := |coeffs| downto 0
      invariant y == Eval(coeffs[k..], x)
    {
      y := Add(t.Mul(y, x), coeffs[k]);
    }
    assert coeffs[0..] == coeffs;
  }

  ghost predicate Separate(out: seq<array<Byte>>) {
    forall i, k :: 0 <= i < k < |out| ==> out[i] != out[k]
  }

  method NumberedShares(shares: nat, length: nat) returns (out: seq<array<Byte>>)
    requires shares <= 255 && length > 0
    ensures |out| == shares && Separate(out)
    ensures forall i :: 0 <= i < shares ==> fresh(out[i]) && out[i].Length == length && out[i][0] == i + 1
  {
    out := [];
    for i := 0 to shares
      invariant |out| == i && Separate(out)
      invariant forall k :: 0 <= k < i ==> fresh(out[k]) && out[k].Length == length && out[k][0] == k + 1
    {
      var s := new Byte[length](_ => 0);
      s[0] := i + 1;
      out := out + [s];
    }
  }

  /** `s` holds its index and the first `j` values of the share with index `x`. */
  ghost predicate FilledTo(s: array<Byte>, secret: Bytes, random: seq<Bytes>, x: Byte, j: nat)
    reads s
  {
    && |random| == |secret| && j <= |secret|
    && s.Length == |secret| + 1 && s[..j + 1] == Share(secret, random, x)[..j + 1]
  }

  method FillValue(t: Tables, s: array<Byte>, secret: Bytes, random: seq<Bytes>, ghost index: Byte, j: nat,
                   coeffs: Bytes)
    requires t.Valid() && s != t.exp && s != t.log
    requires |random| == |secret| && j < |secret| && coeffs == Coefficients(secret, random, j)
    requires FilledTo(s, secret, random, index, j)
    modifies s
    ensures FilledTo(s, secret, random, index, j + 1)
  {
    hide Eval;
    ghost var target := Share(secret, random, index);
    assert s[0] == index by { assert s[..j + 1][0] == target[..j + 1][0]; }
    var x := s[0];
    var y := Horner(t, coeffs, x);
    s[j + 1] := y;
    assert s[..j + 2] == s[..j + 1] + [y];
    assert target[..j + 2] == target[..j + 1] + [target[j + 1]];
  }

  method FillColumn(t: Tables, out: seq<array<Byte>>, secret: Bytes, random: seq<Bytes>, j: nat)
    requires t.Valid() && |random| == |secret| && j < |secret| && |out| <= 255 && Separate(out)
    requires forall i :: 0 <= i < |out| ==> out[i] != t.exp && out[i] != t.log
    requires forall i :: 0 <= i < |out| ==> FilledTo(out[i], secret, random, i + 1, j)
    modifies out
    ensures t.Valid()
    ensures forall i :: 0 <= i < |out| ==> FilledTo(out[i], secret, random, i + 1, j + 1)
  {
    hide FilledTo;
    var coeffs := [secret[j]] + random[j];
    for i := 0 to |out|
      invariant t.Valid()
      invariant forall k :: 0 <= k < i ==> FilledTo(out[k], secret, random, k + 1, j + 1)
      invariant forall k :: i <= k < |out| ==> FilledTo(out[k], secret, random, k + 1, j)
    {
      FillValue(t, out[i], secret, random, i + 1, j, coeffs);
    }
  }

  lemma StartsFilled(s: array<Byte>, secret: Bytes, random: seq<Bytes>, x: Byte)
    requires |random| == |secret| && s.Length == |secret| + 1 && s[0] == x
    ensures FilledTo(s, secret, random, x, 0)
  {
    assert s[..1] == [x] == Share(secret, random, x)[..1];
  }

  lemma AllFilled(s: array<Byte>, secret: Bytes, random: seq<Bytes>, x: Byte)
    requires FilledTo(s, secret, random, x, |secret|)
    ensures |random| == |secret| && s[..] == Share(secret, random, x)
  {
    assert s[..|secret| + 1] == s[..] && Share(secret, random, x)[..|secret| + 1] == Share(secret, random, x);
  }

  method SplitSecret(t: Tables, secret: Bytes, threshold: int, shares: int, random: seq<Bytes>)
    returns (r: Result<seq<array<Byte>>, ShareError>)
    requires t.Valid() && (threshold >= 2 ==> RandomRows(random, secret, threshold))
    ensures r.Success? <==> 2 <= threshold <= shares <= 255 && secret != []
    ensures threshold < 2 ==> r == Failure(ThresholdTooSmall)
    ensures threshold >= 2 && (shares < threshold || shares > 255) ==> r == Failure(BadShareCount)
    ensures 2 <= threshold <= shares <= 255 && secret == [] ==> r == Failure(EmptySecret)
    ensures r.Success? ==> |r.value| == shares
    ensures r.Success? ==>
              forall i :: 0 <= i < shares ==> fresh(r.value[i]) && r.value[i][..] == Share(secret, random, i + 1)
  {
    if threshold < 2 { return Failure(ThresholdTooSmall); }
    if shares < threshold || shares > 255 { return Failure(BadShareCount); }
    if |secret| == 0 { return Failure(EmptySecret); }
    hide FilledTo;
    var out := NumberedShares(shares, |secret| + 1);
    forall i | 0 <= i < shares ensures FilledTo(out[i], secret, random, i + 1, 0) {
      StartsFilled(out[i], secret, random, i + 1);
    }
    for j := 0 to |secret|
      invariant forall i :: 0 <= i < shares ==> FilledTo(out[i], secret, random, i + 1, j)
    {
      FillColumn(t, out, secret, random, j);
    }
    forall i | 0 <= i < shares ensures out[i][..] == Share(secret, random, i + 1) {
      AllFilled(out[i], secret, random, i + 1);
    }
    return Success(out);
  }

  // ----- combining -----

  function Indices(shares: seq<Bytes>): (xs: Bytes)
    requires forall i :: 0 <= i < |shares| ==> shares[i] != []
    ensures |xs| == |shares|
  {
    seq(|shares|, i requires 0 <= i < |shares| => shares[i][0])
  }

  ghost predicate SameLength(shares: seq<Bytes>) {
    shares != [] && |shares[0]| >= 2 && forall i :: 0 <= i < |shares| ==> |shares[i]| == |shares[0]|
  }

  ghost predicate GoodIndices(shares: seq<Bytes>) {
    && SameLength(shares)
    && Distinct(Indices(shares)) && 0 !in Indices(shares)
  }

  ghost function Column(shares: seq<Bytes>, j: nat): (ys: Bytes)
    requires forall i :: 0 <= i < |shares| ==> j < |shares[i]|
    ensures |ys| == |shares|
  {
    seq(|shares|, i requires 0 <= i < |shares| => shares[i][j])
  }

  /** The bytes interpolated from the shares, column by column. */
  ghost function Combined(shares: seq<Bytes>): (secret: Bytes)
    requires SameLength(shares) && GoodIndices(shares)
    ensures |secret| == |shares[0]| - 1
  {
    seq(|shares[0]| - 1,
        j requires 0 <= j < |shares[0]| - 1 => Combine(Indices(shares), Column(shares, j + 1), |shares|))
  }

  function Elements(xs: Bytes): set<Byte> { set x | x in xs }

  lemma DistinctExtends(xs: Bytes, b: Byte)
    ensures Distinct(xs + [b]) <==> Distinct(xs) && b !in xs
  {
    var ys := xs + [b];
    if Distinct(ys) {
      forall i, j | 0 <= i < j < |xs| ensures xs[i] != xs[j] { assert ys[i] != ys[j]; }
      forall i | 0 <= i < |xs| ensures xs[i] != b { assert ys[i] != ys[|xs|]; }
    }
  }

  /** Comparing the number of different entries with the length tells whether entries repeat. */
  lemma {:induction false} DistinctBySize(xs: Bytes)
    ensures |Elements(xs)| <= |xs|
    ensures |Elements(xs)| == |xs| <==> Distinct(xs)
  {
    if xs != [] {
      var n := |xs| - 1;
      var init := xs[..n];
      assert xs == init + [xs[n]];
      DistinctBySize(init);
      DistinctExtends(init, xs[n]);
      var before := Elements(init);
      assert Elements(xs) == before + {xs[n]};
      assert Distinct(xs) <==> Distinct(init) && xs[n] !in before;
      if xs[n] in before { assert before + {xs[n]} == before; }
    }
  }

  method Products(t: Tables, xs: Bytes, i: nat) returns (num: Byte, den: Byte)
    requires t.Valid() && i < |xs|
    ensures num == Numerator(xs, i, |xs|) && den == Denominator(xs, i, |xs|)
  {
    hide Times, Add;
    num, den := 1, 1;
    for m := 0 to |xs|
      invariant num == Numerator(xs, i, m) && den == Denominator(xs, i, m)
    {
      if m == i { continue; }
      num := t.Mul(num, xs[m]);
      den := t.Mul(den, Add(xs[i], xs[m]));
    }
  }

  method InterpolateColumn(t: Tables, xs: Bytes, shares: seq<Bytes>, j: nat) returns (acc: Byte)
    requires t.Valid() && |xs| == |shares| && Distinct(xs)
    requires forall i :: 0 <= i < |shares| ==> j < |shares[i]|
    ensures acc == Combine(xs, Column(shares, j), |shares|)
  {
    hide Times, Add, Tables.Mul;
    acc := 0;
    for i := 0 to |shares|
      invariant acc == Combine(xs, Column(shares, j), i)
    {
      hide Tables.Valid, Tables.Div, Weight;
      var num, den := Products(t, xs, i);
      DenominatorNonZero(xs, i, |xs|);
      WeightDivides(xs, i, t.Div(num, den).value);
      acc := Add(acc, t.Mul(shares[i][j], t.Div(num, den).value));
    }
  }

  lemma IndicesShown(shares: seq<Bytes>)
    requires GoodIndices(shares)
    ensures |shares[0]| >= 2 && forall i :: 0 <= i < |shares| ==> |shares[i]| == |shares[0]| && shares[i][0] != 0
    ensures forall i, j :: 0 <= i < j < |shares| ==> shares[i][0] != shares[j][0]
  {
    var xs := Indices(shares);
    assert forall i :: 0 <= i < |shares| ==> xs[i] == shares[i][0];
  }

  method CombineShares(t: Tables, shares: seq<Bytes>) returns (r: Result<array<Byte>, ShareError>)
    requires t.Valid()
    ensures |shares| < 2 ==> r == Failure(TooFewShares)
    ensures |shares| >= 2 && !SameLength(shares) ==> r == Failure(MismatchedLengths)
    ensures |shares| >= 2 && SameLength(shares) && !GoodIndices(shares) ==> r == Failure(BadIndices)
    ensures |shares| >= 2 && SameLength(shares) && GoodIndices(shares) ==>
              r.Success? && fresh(r.value) && r.value[..] == Combined(shares)
    ensures r.Success? ==>
              && |shares| >= 2 && |shares[0]| >= 2
              && (forall i :: 0 <= i < |shares| ==> |shares[i]| == |shares[0]| && shares[i][0] != 0)
              && (forall i, j :: 0 <= i < j < |shares| ==> shares[i][0] != shares[j][0])
              && r.value.Length == |shares[0]| - 1
  {
    if |shares| < 2 { return Failure(TooFewShares); }
    var len := |shares[0]|;
    if len < 2 || exists i :: 0 <= i < |shares| && |shares[i]| != len { return Failure(MismatchedLengths); }
    var xs := Indices(shares);
    DistinctBySize(xs);
    if 0 in xs || |Elements(xs)| != |xs| { return Failure(BadIndices); }
    IndicesShown(shares);
    var secret := new Byte[len - 1](_ => 0);
    for j := 1 to len
      invariant forall k :: 0 <= k < j - 1 ==> secret[k] == Combined(shares)[k]
    {
      var b := InterpolateColumn(t, xs, shares, j);
      secret[j - 1] := b;
    }
    return Success(secret);
  }

  // ----- the round trip -----

  ghost predicate DistinctPicks(picks: seq<nat>, shares: nat) {
    && (forall i :: 0 <= i < |picks| ==> picks[i] < shares)
    && (forall i, k :: 0 <= i < k < |picks| ==> picks[i] != picks[k])
  }

  ghost function Picked(secret: Bytes, random: seq<Bytes>, picks: seq<nat>): (s: seq<Bytes>)
    requires |random| == |secret| && forall i :: 0 <= i < |picks| ==> picks[i] < 255
    ensures |s| == |picks|
  {
    seq(|picks|, i requires 0 <= i < |picks| => Share(secret, random, picks[i] + 1))
  }

  lemma PickedColumn(secret: Bytes, random: seq<Bytes>, picks: seq<nat>, j: nat)
    requires |random| == |secret| && forall i :: 0 <= i < |picks| ==> picks[i] < 255
    requires j < |secret|
    ensures var given := Picked(secret, random, picks);
            Column(given, j + 1) == Values(Coefficients(secret, random, j), Indices(given))
  {
    hide Eval;
  }

  /** Any `threshold` or more distinct shares, in any order, are accepted and combine to the secret. */
  lemma RoundTrip(secret: Bytes, threshold: nat, shares: nat, random: seq<Bytes>, picks: seq<nat>)
    requires secret != [] && 2 <= threshold <= shares <= 255 && RandomRows(random, secret, threshold)
    requires DistinctPicks(picks, shares) && |picks| >= threshold
    ensures SameLength(Picked(secret, random, picks)) && GoodIndices(Picked(secret, random, picks))
    ensures Combined(Picked(secret, random, picks)) == secret
  {
    hide Eval, Combine;
    var given := Picked(secret, random, picks);
    var xs := Indices(given);
    assert Distinct(xs);
    forall j | 0 <= j < |secret| ensures Combine(xs, Column(given, j + 1), |given|) == secret[j] {
      PickedColumn(secret, random, picks, j);
      assert random[j] in random;
      InterpolationAtZero(xs, Coefficients(secret, random, j));
    }
  }

  // ----- fewer shares -----

  lemma ConstantTerm(c: Bytes)
    requires c != []
    ensures Eval(c, 0) == c[0]
  {
    hide Times, Add;
    TimesUnit(Eval(c[1..], 0));
    AddLaws(c[0], 0, 0);
  }

  /** Coefficients of the same length with a chosen constant that agree with `c` at fewer points than they have. */
  lemma Refit(c: Bytes, s: Byte, xs: Bytes) returns (c': Bytes)
    requires Distinct(xs) && 0 !in xs && |xs| < |c|
    ensures |c'| == |c| && c'[0] == s
    ensures Values(c', xs) == Values(c, xs)
  {
    hide Eval;
    var points := [0 as Byte] + xs;
    assert Distinct(points) by {
      forall i, j | 0 <= i < j < |points| ensures points[i] != points[j] {
        assert points[j] == xs[j - 1];
      }
    }
    var fitted := Fit(points, [s] + Values(c, xs));
    c' := fitted + seq(|c| - |fitted|, _ => 0);
    ConstantTerm(c');
    forall i | 0 <= i < |points| ensures Eval(c', points[i]) == ([s] + Values(c, xs))[i] {
      PaddedPolynomial(fitted, |c| - |fitted|, points[i]);
    }
    assert points[0] == 0;
    forall i | 0 <= i < |xs| ensures Eval(c', xs[i]) == Eval(c, xs[i]) {
      assert points[i + 1] == xs[i];
    }
  }

  lemma {:induction false} RefitRows(secret: Bytes, random: seq<Bytes>, threshold: nat, other: Bytes, xs: Bytes, n: nat)
    returns (rows: seq<Bytes>)
    requires threshold > 0 && RandomRows(random, secret, threshold) && |other| == |secret| && n <= |secret|
    requires Distinct(xs) && 0 !in xs && |xs| < threshold
    ensures |rows| == n
    ensures forall j :: 0 <= j < n ==>
              && |rows[j]| == threshold - 1
              && Values([other[j]] + rows[j], xs) == Values(Coefficients(secret, random, j), xs)
  {
    hide Values;
    if n == 0 {
      rows := [];
    } else {
      rows := RefitRows(secret, random, threshold, other, xs, n - 1);
      assert random[n - 1] in random;
      var c := Refit(Coefficients(secret, random, n - 1), other[n - 1], xs);
      assert [other[n - 1]] + c[1..] == c;
      rows := rows + [c[1..]];
    }
  }

  /** Fewer shares than the threshold fit every other secret of the same length equally well. */
  lemma FewerSharesFitAnySecret(secret: Bytes, threshold: nat, shares: nat, random: seq<Bytes>, picks: seq<nat>,
                                other: Bytes)
    returns (random': seq<Bytes>)
    requires 2 <= threshold <= shares <= 255 && RandomRows(random, secret, threshold)
    requires DistinctPicks(picks, shares) && |picks| < threshold && |other| == |secret|
    ensures RandomRows(random', other, threshold)
    ensures Picked(other, random', picks) == Picked(secret, random, picks)
  {
    hide Eval;
    var xs := Indices(Picked(secret, random, picks));
    random' := RefitRows(secret, random, threshold, other, xs, |secret|);
    forall i | 0 <= i < |picks| ensures Share(other, random', picks[i] + 1) == Share(secret, random, picks[i] + 1) {
      forall j | 0 <= j < |secret|
        ensures Eval(Coefficients(other, random', j), xs[i]) == Eval(Coefficients(secret, random, j), xs[i])
      {
        assert Values(Coefficients(other, random', j), xs)[i] == Values(Coefficients(secret, random, j), xs)[i];
      }
      assert xs[i] == picks[i] + 1;
    }
  }
}
