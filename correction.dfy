/** `correction_fourier`: for every index n of a run of length N, the sum over
    k < K of coeffs[k] * cos(2 * pi * k * n / N), rounded half to even.
    The K coefficients are the run's random draw and are passed in; the cosine
    values are an abstract function `cosine(k, n)` standing for
    cos(2 * pi * k * n / N) of the run. Sums are exact reals, not floats. */
module Correction {
  import opened Outcomes

  /** `np.round`: nearest integer, ties to the even neighbour. */
  function RoundHalfEven(x: real): (r: int)
    ensures -0.5 <= x - r as real <= 0.5
    ensures (x - r as real == 0.5 || x - r as real == -0.5) ==> r % 2 == 0
  {
    var f := x.Floor;
    var frac := x - f as real;
    if frac < 0.5 then f
    else if frac > 0.5 then f + 1
    else if f % 2 == 0 then f
    else f + 1
  }

  /** Round-half-to-even is the only integer within 1/2 of x that is even on a tie. */
  lemma RoundHalfEvenUnique(x: real, z: int)
    requires -0.5 <= x - z as real <= 0.5
    requires (x - z as real == 0.5 || x - z as real == -0.5) ==> z % 2 == 0
    ensures z == RoundHalfEven(x)
  {
    var r := RoundHalfEven(x);
    if z != r {
      assert false;
    }
  }

  /** An integer rounds to itself. */
  lemma RoundHalfEvenOfInteger(n: int)
    ensures RoundHalfEven(n as real) == n
  {
    RoundHalfEvenUnique(n as real, n);
  }

  /** The unrounded correction of index n after the first k terms of the loop. */
  function PartialSum(coeffs: seq<real>, cosine: (nat, int) -> real, k: nat, n: int): real
    requires k <= |coeffs|
  {
    if k == 0 then 0.0
    else PartialSum(coeffs, cosine, k - 1, n) + coeffs[k - 1] * cosine(k - 1, n)
  }

  /** The rounded correction sequence of a run whose K coefficients are `coeffs`. */
  function Corrections(nValues: seq<int>, coeffs: seq<real>, cosine: (nat, int) -> real): (c: seq<int>)
    ensures |c| == |nValues|
  {
    seq(|nValues|, i requires 0 <= i < |nValues| =>
      RoundHalfEven(PartialSum(coeffs, cosine, |coeffs|, nValues[i])))
  }

  /** With K = 0 the loop never runs on the zero array: every correction is 0. */
  lemma NoCoefficientsNoCorrection(nValues: seq<int>, cosine: (nat, int) -> real)
    ensures forall i :: 0 <= i < |nValues| ==> Corrections(nValues, [], cosine)[i] == 0
  {
    RoundHalfEvenOfInteger(0);
  }

  /** Each product coeff * cos lies in [-2, 2] when the coefficient does and the cosine is in [-1, 1]. */
  lemma TermBounded(c: real, w: real)
    requires -2.0 <= c <= 2.0 && -1.0 <= w <= 1.0
    ensures -2.0 <= c * w <= 2.0
  {
    if c >= 0.0 {
      if w >= 0.0 {
        assert c * w <= c * 1.0;
      } else {
        assert c * w >= c * -1.0;
      }
    } else {
      if w >= 0.0 {
        assert c * w >= c * 1.0;
      } else {
        assert c * w <= c * -1.0;
      }
    }
  }

  /** After k terms drawn from [-2, 2] the sum lies in [-2k, 2k]. */
  lemma {:induction false} PartialSumBounded(coeffs: seq<real>, cosine: (nat, int) -> real, k: nat, n: int)
    requires k <= |coeffs|
    requires forall j :: 0 <= j < |coeffs| ==> -2.0 <= coeffs[j] <= 2.0
    requires forall j: nat, m: int :: -1.0 <= cosine(j, m) <= 1.0
    ensures -2.0 * k as real <= PartialSum(coeffs, cosine, k, n) <= 2.0 * k as real
  {
    if k > 0 {
      var prev := PartialSum(coeffs, cosine, k - 1, n);
      var term := coeffs[k - 1] * cosine(k - 1, n);
      PartialSumBounded(coeffs, cosine, k - 1, n);
      TermBounded(coeffs[k - 1], cosine(k - 1, n));
      assert PartialSum(coeffs, cosine, k, n) == prev + term;
      assert 2.0 * k as real == 2.0 * (k - 1) as real + 2.0;
    }
  }

  /** With coefficients in [-2, 2] and cosines in [-1, 1], every rounded correction lies in [-2K, 2K]. */
  lemma CorrectionsBounded(nValues: seq<int>, coeffs: seq<real>, cosine: (nat, int) -> real)
    requires forall j :: 0 <= j < |coeffs| ==> -2.0 <= coeffs[j] <= 2.0
    requires forall j: nat, m: int :: -1.0 <= cosine(j, m) <= 1.0
    ensures forall i :: 0 <= i < |nValues| ==>
      -2 * |coeffs| <= Corrections(nValues, coeffs, cosine)[i] <= 2 * |coeffs|
  {
    forall i | 0 <= i < |nValues|
      ensures -2 * |coeffs| <= Corrections(nValues, coeffs, cosine)[i] <= 2 * |coeffs|
    {
      PartialSumBounded(coeffs, cosine, |coeffs|, nValues[i]);
    }
  }

  /** The loop of `correction_fourier` over a zero-initialised array, then `np.round`.
      With N = 0 and K > 0 the frequency 2 * pi * k / N divides by zero. */
  method CorrectionFourier(nValues: seq<int>, coeffs: seq<real>, cosine: (nat, int) -> real)
    returns (out: Result<seq<int>>)
    ensures out.Failure? <==> (|nValues| == 0 && |coeffs| > 0)
    ensures out.Failure? ==> out.error == ZeroDivisionError
    ensures out.Success? ==> out.value == Corrections(nValues, coeffs, cosine)
  {
    var n := |nValues|;
    var corrections := new real[n](_ => 0.0);
    for k := 0 to |coeffs|
      invariant n == 0 ==> k == 0
      invariant forall i :: 0 <= i < n ==> corrections[i] == PartialSum(coeffs, cosine, k, nValues[i])
    {
      if n == 0 {
        return Failure(ZeroDivisionError);
      }
      for i := 0 to n
        invariant forall j :: 0 <= j < i ==> corrections[j] == PartialSum(coeffs, cosine, k + 1, nValues[j])
        invariant forall j :: i <= j < n ==> corrections[j] == PartialSum(coeffs, cosine, k, nValues[j])
      {
        corrections[i] := corrections[i] + coeffs[k] * cosine(k, nValues[i]);
      }
    }
    var rounded := seq(n, i requires 0 <= i < n reads corrections => RoundHalfEven(corrections[i]));
    return Success(rounded);
  }
}
