/** The sweep of `main`: for every K in order, base values, corrections,
    their element-wise sum, the prime count and the prime fraction, one record
    per K. Wall-clock timing is not part of the model. */
module Experiment {
  import opened Outcomes
  import opened BaseValue
  import opened Correction
  import opened Primality

  /** Default configuration: n runs over 1..N_MAX, K over K_VALUES in this order. */
  const N_MAX: int := 5000
  const K_VALUES: seq<nat> := [5, 10, 15, 20]

  /** One row of `results`: (K, prime_count, prime_fraction); the elapsed time is left out. */
  datatype ExperimentResult = ExperimentResult(k: nat, primeCount: nat, primeFraction: real)

  /** `np.arange(1, nMax + 1)`: the indices 1, 2, ..., nMax, empty when nMax < 1. */
  function IndexRange(nMax: int): (r: seq<int>)
    ensures |r| == (if nMax < 1 then 0 else nMax)
    ensures forall i :: 0 <= i < |r| ==> r[i] == i + 1
  {
    seq(if nMax < 1 then 0 else nMax, i => i + 1)
  }

  /** `base_vals`: the base value of every index, each at least 2. */
  function BaseValues(nValues: seq<int>): (b: seq<int>)
    ensures |b| == |nValues|
    ensures forall i :: 0 <= i < |b| ==> b[i] >= 2 && (nValues[i] >= 1 ==> IsFloorRatio(nValues[i], b[i] - 2))
  {
    seq(|nValues|, i requires 0 <= i < |nValues| => BaseMfm(nValues[i]))
  }

  /** `sequence_vals`: entry i is base value i plus correction i; nothing else changes. */
  function Combine(baseVals: seq<int>, corrections: seq<int>): (v: seq<int>)
    requires |corrections| == |baseVals|
    ensures |v| == |baseVals|
    ensures forall i :: 0 <= i < |v| ==> v[i] == baseVals[i] + corrections[i]
  {
    seq(|baseVals|, i requires 0 <= i < |baseVals| => baseVals[i] + corrections[i])
  }

  /** Adding the all-zero correction of K = 0 leaves every base value as it is. */
  lemma ZeroCorrectionKeepsBase(nValues: seq<int>, cosine: (nat, int) -> real)
    ensures Combine(BaseValues(nValues), Corrections(nValues, [], cosine)) == BaseValues(nValues)
  {
    NoCoefficientsNoCorrection(nValues, cosine);
  }

  /** `sum(prime_flags)`: how many entries are prime. */
  ghost function PrimeCount(vals: seq<int>): (c: nat)
    ensures c <= |vals|
  {
    if |vals| == 0 then 0
    else PrimeCount(vals[..|vals| - 1]) + (if IsPrime(vals[|vals| - 1]) then 1 else 0)
  }

  /** The positions holding a prime. */
  ghost function PrimeIndices(vals: seq<int>): set<int> {
    set i | 0 <= i < |vals| && IsPrime(vals[i])
  }

  /** The count is the number of indices whose value is prime. */
  lemma {:induction false} PrimeCountIsCardinality(vals: seq<int>)
    ensures PrimeCount(vals) == |PrimeIndices(vals)|
  {
    if |vals| > 0 {
      var n := |vals| - 1;
      var init := vals[..n];
      PrimeCountIsCardinality(init);
      assert n !in PrimeIndices(init);
      if IsPrime(vals[n]) {
        assert PrimeIndices(vals) == PrimeIndices(init) + {n};
      } else {
        assert PrimeIndices(vals) == PrimeIndices(init);
      }
    }
  }

  /** Counts the primes with the trial-division test, one entry at a time. */
  method CountPrimes(vals: seq<int>) returns (count: nat)
    ensures count == PrimeCount(vals)
  {
    count := 0;
    for i := 0 to |vals|
      invariant count == PrimeCount(vals[..i])
    {
      var isPrime := IsPrimePythonic(vals[i]);
      assert vals[..i + 1][..i] == vals[..i];
      if isPrime {
        count := count + 1;
      }
    }
    assert vals[..|vals|] == vals;
  }

  /** `prime_count / float(N)` lies in [0, 1] and times N gives back the count. */
  lemma FractionBounds(count: nat, n: nat)
    requires 1 <= n && count <= n
    ensures 0.0 <= count as real / n as real <= 1.0
    ensures (count as real / n as real) * n as real == count as real
  {
    var q := count as real / n as real;
    assert q * n as real == count as real;
    assert (q - 1.0) * n as real == count as real - n as real;
  }

  /** The record of one K-run over a non-empty index range with coefficient draw `coeffs`. */
  ghost function RunRecord(nValues: seq<int>, k: nat, coeffs: seq<real>, cosine: (nat, int) -> real): (r: ExperimentResult)
    requires |nValues| >= 1
    ensures r.k == k
    ensures r.primeCount == |PrimeIndices(Combine(BaseValues(nValues), Corrections(nValues, coeffs, cosine)))|
    ensures r.primeCount <= |nValues|
    ensures 0.0 <= r.primeFraction <= 1.0
    ensures r.primeFraction * |nValues| as real == r.primeCount as real
  {
    var vals := Combine(BaseValues(nValues), Corrections(nValues, coeffs, cosine));
    var count := PrimeCount(vals);
    var n := |nValues|;
    PrimeCountIsCardinality(vals);
    FractionBounds(count, n);
    ExperimentResult(k, count, count as real / n as real)
  }

  /** The loop of `main` over K_VALUES; `draws[j]` is the coefficient draw of run j.
      An empty index range divides by zero as soon as a run starts. */
  method Sweep(nMax: int, kValues: seq<nat>, draws: seq<seq<real>>, cosine: (nat, int) -> real)
    returns (out: Result<seq<ExperimentResult>>)
    requires |draws| == |kValues|
    requires forall j :: 0 <= j < |kValues| ==> |draws[j]| == kValues[j]
    ensures out.Failure? <==> (nMax < 1 && |kValues| > 0)
    ensures out.Failure? ==> out.error == ZeroDivisionError
    ensures out.Success? ==> |out.value| == |kValues|
    ensures out.Success? ==> forall j :: 0 <= j < |kValues| ==>
      out.value[j].k == kValues[j] &&
      nMax >= 1 && out.value[j] == RunRecord(IndexRange(nMax), kValues[j], draws[j], cosine)
  {
    var nValues := IndexRange(nMax);
    var results: seq<ExperimentResult> := [];
    for j := 0 to |kValues|
      invariant j > 0 ==> nMax >= 1
      invariant |results| == j
      invariant forall i :: 0 <= i < j ==>
        nMax >= 1 && results[i] == RunRecord(nValues, kValues[i], draws[i], cosine)
    {
      var k := kValues[j];
      var baseVals := BaseValues(nValues);
      var correctionVals := CorrectionFourier(nValues, draws[j], cosine);
      if correctionVals.Failure? {
        return Failure(correctionVals.error);
      }
      var sequenceVals := Combine(baseVals, correctionVals.value);
      var primeCount := CountPrimes(sequenceVals);
      if |sequenceVals| == 0 {
        return Failure(ZeroDivisionError);
      }
      var primeFraction := primeCount as real / |sequenceVals| as real;
      results := results + [ExperimentResult(k, primeCount, primeFraction)];
    }
    return Success(results);
  }

  /** The default sweep succeeds with four records, for K = 5, 10, 15, 20 in that order. */
  method SweepDefaults(draws: seq<seq<real>>, cosine: (nat, int) -> real)
    returns (results: seq<ExperimentResult>)
    requires |draws| == |K_VALUES|
    requires forall j :: 0 <= j < |K_VALUES| ==> |draws[j]| == K_VALUES[j]
    ensures |results| == 4
    ensures results[0].k == 5 && results[1].k == 10 && results[2].k == 15 && results[3].k == 20
    ensures forall j :: 0 <= j < 4 ==> results[j].primeCount <= N_MAX && 0.0 <= results[j].primeFraction <= 1.0
  {
    var out := Sweep(N_MAX, K_VALUES, draws, cosine);
    results := out.value;
  }
}
