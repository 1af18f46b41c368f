/** The base value of index n: floor(F_n / n^1.5) + 2, or 2 when n < 1.
    The floor is taken exactly, with integers only: q = floor(F_n / n^1.5)
    exactly when q >= 0 and q^2 * n^3 <= F_n^2 < (q + 1)^2 * n^3. */
module BaseValue {
  import opened Fibonacci
  import opened Arithmetic

  /** q is the exact floor of F_n / n^1.5. */
  ghost predicate IsFloorRatio(n: nat, q: int) {
    q >= 0 && q * q * (n * n * n) <= Fib(n) * Fib(n) < (q + 1) * (q + 1) * (n * n * n)
  }

  /** Doubling the root of m div 4 brackets the root of m within two. */
  lemma RootDoubling(m: nat, t: nat)
    requires t * t <= m / 4 < (t + 1) * (t + 1)
    ensures (2 * t) * (2 * t) <= m < (2 * t + 2) * (2 * t + 2)
  {
    assert (2 * t) * (2 * t) == 4 * (t * t);
    assert (2 * t + 2) * (2 * t + 2) == 4 * ((t + 1) * (t + 1));
    assert m / 4 + 1 <= (t + 1) * (t + 1);
  }

  /** Integer square root: the largest r with r * r <= m. */
  function ISqrt(m: nat): (r: nat)
    ensures r * r <= m < (r + 1) * (r + 1)
  {
    if m < 4 then (if m == 0 then 0 else 1)
    else
      var t := ISqrt(m / 4);
      RootDoubling(m, t);
      var s := 2 * t;
      if (s + 1) * (s + 1) <= m then s + 1 else s
  }

  /** Squares bracketing f div c bracket f once multiplied back by c. */
  lemma DivBracket(f: nat, c: nat, q: nat)
    requires c >= 1
    requires q * q <= f / c < (q + 1) * (q + 1)
    ensures q * q * c <= f < (q + 1) * (q + 1) * c
  {
    var d := f / c;
    assert f == d * c + f % c;
    MulLeft(q * q, d, c);
    MulLeft(d + 1, (q + 1) * (q + 1), c);
    assert (d + 1) * c == d * c + c;
  }

  /** n^3 is positive for n >= 1. */
  lemma CubePositive(n: nat)
    requires n >= 1
    ensures n * n * n >= 1
  {
    MulLeft(1, n, n);
    MulLeft(1, n * n, n);
  }

  /** floor(F_n / n^1.5), computed as the integer square root of F_n^2 div n^3. */
  function FloorRatio(n: nat): (q: nat)
    requires n >= 1
    ensures IsFloorRatio(n, q)
  {
    CubePositive(n);
    var q := ISqrt(Fib(n) * Fib(n) / (n * n * n));
    DivBracket(Fib(n) * Fib(n), n * n * n, q);
    q
  }

  /** Squaring, then scaling by c, keeps an inequality between naturals. */
  lemma SquareMono(a: nat, b: nat, c: nat)
    requires a <= b
    ensures a * a * c <= b * b * c
  {
    MulLeft(a, b, a);
    MulLeft(a, b, b);
    MulLeft(a * a, b * b, c);
  }

  /** The bracket q^2 * c <= f < (q + 1)^2 * c fixes q. */
  lemma BracketUnique(c: nat, f: int, p: nat, q: nat)
    requires p * p * c <= f < (p + 1) * (p + 1) * c
    requires q * q * c <= f < (q + 1) * (q + 1) * c
    ensures p == q
  {
    if p < q {
      SquareMono(p + 1, q, c);
    } else if q < p {
      SquareMono(q + 1, p, c);
    }
  }

  /** The exact floor is the only integer with that characterisation. */
  lemma FloorRatioUnique(n: nat, q: int)
    requires n >= 1 && IsFloorRatio(n, q)
    ensures q == FloorRatio(n)
  {
    BracketUnique(n * n * n, Fib(n) * Fib(n), q, FloorRatio(n));
  }

  /** `base_MFM`: 2 for n < 1, otherwise floor(F_n / n^1.5) + 2. */
  function BaseMfm(n: int): (r: int)
    ensures r >= 2
    ensures n < 1 ==> r == 2
    ensures n >= 1 ==> IsFloorRatio(n, r - 2)
  {
    if n < 1 then 2 else FloorRatio(n) + 2
  }

  /** The two values worked out by hand: base_MFM(1) = 3 and base_MFM(10) = 3. */
  lemma BaseMfmExamples()
    ensures BaseMfm(1) == 3
    ensures BaseMfm(10) == 3
  {
    assert Fib(1) == 1;
    FloorRatioUnique(1, 1);
    assert Fib(10) == 55 by {
      assert Fib(2) == 1 && Fib(3) == 2 && Fib(4) == 3 && Fib(5) == 5 && Fib(6) == 8;
      assert Fib(7) == 13 && Fib(8) == 21 && Fib(9) == 34;
    }
    assert IsFloorRatio(10, 1);
    FloorRatioUnique(10, 1);
  }
}
