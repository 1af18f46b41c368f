# Morillas-Fourier Method: prime-generation pipeline

A Dafny model of the computational core of `Code/MFM_Prime_Generation.py`.
For every index n in 1..N_MAX the program computes a base value
floor(F_n / n^1.5) + 2 from the n-th Fibonacci number. It adds a rounded
"Fourier-like" correction, the sum over k < K of coeffs[k] * cos(2πkn/N).
It then tests each corrected value for primality. For each K in K_VALUES,
in order, it records K, the number of prime outputs and their fraction.

Modules, leaves first:

- `Arithmetic` (`arithmetic.dfy`): one shared fact, that multiplying an inequality by a non-negative factor keeps it.
- `Outcomes` (`outcomes.dfy`): the `ZeroDivisionError` raised by the sweep, and a `Result` type.
- `Fibonacci` (`fibonacci.dfy`): the exact Fibonacci numbers (`fibonacci_sympy`).
  An iterative method is proved equal to the recursive definition.
- `BaseValue` (`base_value.dfy`): `base_MFM`, with the floor taken exactly in
  integers. q = floor(F_n / n^1.5) exactly when q ≥ 0 and
  q²·n³ ≤ F_n² < (q+1)²·n³. The model computes q as the integer square root of
  F_n² div n³, and proves that q satisfies this bracket and is the only integer that does.
- `Primality` (`primality.dfy`): `is_prime_pythonic` is specified as "x ≥ 2
  and no d in [2, x) divides x". It is implemented by trial division up to √x
  and proved equal to that definition.
- `Correction` (`correction.dfy`): `correction_fourier` as a loop over k that
  accumulates into a zero-initialised array, followed by round-half-to-even (`np.round`).
  The coefficient draw is an input (`coeffs`, whose length is K). The cosine
  values cos(2πkn/N) are an abstract function `cosine(k, n)`.
- `Experiment` (`experiment.dfy`): the loop of `main`, which builds base
  values, corrections, their sum, the prime count and the prime fraction, and
  appends one record per K in K order.

An empty index range does not give an empty result list. With N = 0, the
frequency `2.0 * np.pi * k / N` (line 82) divides a float by zero as soon as
K > 0. `prime_count / float(len(sequence_vals))` (line 123) does so for every K.
So `Sweep` returns `Failure(ZeroDivisionError)` when N_MAX < 1 and the K list
is not empty. An empty K list gives an empty result.

## Model

| member | source | states |
|---|---|---|
| `Fibonacci.Fib` | Code/MFM_Prime_Generation.py:49-54 | F_0 = 0, F_1 = 1, F_n = F_(n-1) + F_(n-2); F_n ≥ 1 for every n ≥ 1 |
| `Fibonacci.FibDefinition` | Code/MFM_Prime_Generation.py:49-54 | F_1 = F_2 = 1 and F_n = F_(n-1) + F_(n-2) for n ≥ 3 |
| `Fibonacci.FibonacciSympy` | Code/MFM_Prime_Generation.py:49-54 | the iterative computation returns exactly F_n |
| `BaseValue.FloorRatio` | Code/MFM_Prime_Generation.py:63-65 | for n ≥ 1 the result q ≥ 0 satisfies q²·n³ ≤ F_n² < (q+1)²·n³, i.e. q = floor(F_n / n^1.5) |
| `BaseValue.FloorRatioUnique` | Code/MFM_Prime_Generation.py:63-65 | any integer with that bracket equals the computed floor, so the floor is determined exactly |
| `BaseValue.BaseMfm` | Code/MFM_Prime_Generation.py:56-65 | returns 2 when n < 1; for n ≥ 1 returns q + 2 with q the exact floor of F_n / n^1.5; always ≥ 2 |
| `BaseValue.BaseMfmExamples` | Code/MFM_Prime_Generation.py:56-65 | base_MFM(1) = 3 and base_MFM(10) = 3 |
| `Primality.SmallPrimes` | Code/MFM_Prime_Generation.py:87-94 | on [-5, 30] the predicate holds exactly for 2, 3, 5, 7, 11, 13, 17, 19, 23, 29 |
| `Primality.NoDivisorUpToRoot` | Code/MFM_Prime_Generation.py:94 | if no d with 2 ≤ d < r divides x and r² > x, then x is prime (why trial division up to √x suffices) |
| `Primality.IsPrimePythonic` | Code/MFM_Prime_Generation.py:87-94 | returns true exactly when x ≥ 2 and no d in [2, x) divides x; false for zero, one and every negative x |
| `Correction.RoundHalfEven` | Code/MFM_Prime_Generation.py:85 | the result is within 1/2 of x, and on a tie it is even |
| `Correction.RoundHalfEvenUnique` | Code/MFM_Prime_Generation.py:85 | those two properties determine the rounded value uniquely |
| `Correction.RoundHalfEvenOfInteger` | Code/MFM_Prime_Generation.py:80-85 | rounding a whole number gives it back, so the untouched zero entries of the K = 0 array round to 0 |
| `Correction.Corrections` | Code/MFM_Prime_Generation.py:76-85 | the correction sequence has one entry per index (length N) |
| `Correction.NoCoefficientsNoCorrection` | Code/MFM_Prime_Generation.py:80-83 | with K = 0 the loop never runs on the zero array and every correction is 0 |
| `Correction.PartialSumBounded` | Code/MFM_Prime_Generation.py:78-83 | after k terms with coefficients in [-2, 2] and cosines in [-1, 1], the sum lies in [-2k, 2k] |
| `Correction.CorrectionsBounded` | Code/MFM_Prime_Generation.py:78-85 | under the same bounds every rounded correction lies in [-2K, 2K] |
| `Correction.CorrectionFourier` | Code/MFM_Prime_Generation.py:67-85 | fails with ZeroDivisionError exactly when N = 0 and K > 0; otherwise returns, per index, the rounded sum of the K terms |
| `Experiment.IndexRange` | Code/MFM_Prime_Generation.py:105 | the indices 1, 2, ..., N_MAX in order, and none when N_MAX < 1 |
| `Experiment.BaseValues` | Code/MFM_Prime_Generation.py:111 | one base value per index, each ≥ 2 and equal to 2 plus the exact floor for n ≥ 1 |
| `Experiment.Combine` | Code/MFM_Prime_Generation.py:118 | `sequence_vals` has the length of the index array, entry i is base_vals[i] + correction[i], and no other entry is affected |
| `Experiment.ZeroCorrectionKeepsBase` | Code/MFM_Prime_Generation.py:114-118 | with K = 0 the corrected sequence equals the base sequence |
| `Experiment.PrimeCount` | Code/MFM_Prime_Generation.py:121-122 | the count of prime entries is at most the number of entries |
| `Experiment.PrimeCountIsCardinality` | Code/MFM_Prime_Generation.py:121-122 | the count equals the number of indices whose value is prime |
| `Experiment.CountPrimes` | Code/MFM_Prime_Generation.py:121-122 | the loop over the trial-division test returns exactly that count |
| `Experiment.FractionBounds` | Code/MFM_Prime_Generation.py:123 | prime_count / N lies in [0, 1] and multiplied by N gives prime_count back |
| `Experiment.RunRecord` | Code/MFM_Prime_Generation.py:110-129 | a run's record carries its K, a prime count equal to the number of prime corrected values (≤ N), and a fraction in [0, 1] equal to count / N |
| `Experiment.Sweep` | Code/MFM_Prime_Generation.py:99-129 | fails with ZeroDivisionError exactly when N_MAX < 1 and the K list is non-empty; otherwise returns one record per K, in K_VALUES order, record j having K field K_VALUES[j] and being run j's record |
| `Experiment.SweepDefaults` | Code/MFM_Prime_Generation.py:39-40 | with N_MAX = 5000 and K_VALUES = [5, 10, 15, 20] the sweep succeeds with four records for K = 5, 10, 15, 20 in that order, counts ≤ 5000 and fractions in [0, 1] |

## Left out

- Random coefficient generation (`np.random.uniform`, line 78): the draw of each run is an input, `coeffs` for one run or `draws[j]` for run j of the sweep. The bound lemmas assume the draw lies in [-2, 2].
- The cosine (`np.cos`, lines 82-83): the value cos(2πkn/N) is an abstract function `cosine(k, n)` passed in, because Dafny has no trigonometry. The bound lemmas assume it lies in [-1, 1].
- Floating-point arithmetic: the correction sums and `prime_fraction` are exact reals. Float round-off in the sum and in `np.round` on floats is not modelled.
- BaseValue.BaseMfm: computes the exact floor of F_n / n^1.5 rather than sympy's `Integer // float` with the float `n**1.5`. The two agree for small n (n = 1 and n = 10 give 3). For large n the float denominator can make the source drift from the exact value, and the model keeps the exact one.
- `mpmath.mp.dps = 50` (line 34): a global setting that the computation never reads.
- Wall-clock timing (`time.time`, lines 108, 125-126), the `elapsed` field of each record and the `times` list: these are clock readings, so each record is modelled as (K, prime_count, prime_fraction).
- The internals of `sympy.fibonacci` and `sympy.isprime`: both are specified by their mathematical definitions. They are implemented here by iteration and by trial division up to √x.
- Negative K: K values are naturals. The source configures only positive K.
- CSV export (lines 134-136), the plots (lines 139-158) and console output (lines 131, 136, 147, 158): output only.
