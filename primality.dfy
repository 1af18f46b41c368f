/** `is_prime_pythonic`: false below 2, otherwise the standard primality test. */
module Primality {
  import opened Arithmetic

  /** x is prime: x >= 2 and no d in [2, x) divides x. Zero and negatives are not prime. */
  ghost predicate IsPrime(x: int) {
    x >= 2 && forall d :: 2 <= d < x ==> x % d != 0
  }

  /** The cofactor f of a divisor e >= r of f * e, where f * e lies in (e, r * r), is in [2, r). */
  lemma CofactorBounds(f: int, e: int, r: int)
    requires 2 <= r <= e && e < f * e < r * r
    ensures 2 <= f < r
  {
    if f <= 1 {
      MulLeft(f, 1, e);
    }
    if f >= r {
      MulLeft(r, f, e);
      MulLeft(r, e, r);
    }
  }

  /** f * e is divisible by f. */
  lemma ProductDivisible(f: int, e: int)
    requires f >= 1
    ensures (f * e) % f == 0
  {
    var a := f * e;
    var k := e - a / f;
    assert a == f * (a / f) + a % f;
    assert f * k == a % f by {
      assert f * k == f * e - f * (a / f);
    }
    if k >= 1 {
      MulLeft(1, k, f);
    } else if k <= -1 {
      MulLeft(k, -1, f);
    }
  }

  /** A divisor e of x with r <= e < x and r * r > x leaves a cofactor in [2, r) dividing x. */
  lemma SmallCofactor(x: int, e: int, r: int)
    requires 2 <= r <= e < x && r * r > x && x % e == 0
    ensures 2 <= x / e < r && x % (x / e) == 0
  {
    var f := x / e;
    assert x == f * e;
    CofactorBounds(f, e, r);
    ProductDivisible(f, e);
  }

  /** When no d with 2 <= d < r divides x and r * r > x, no d in [2, x) does. */
  lemma NoDivisorUpToRoot(x: int, r: int)
    requires x >= 2 && r >= 2 && r * r > x
    requires forall d :: 2 <= d < r ==> x % d != 0
    ensures IsPrime(x)
  {
    forall e | 2 <= e < x
      ensures x % e != 0
    {
      if e >= r && x % e == 0 {
        SmallCofactor(x, e, r);
        assert false;
      }
    }
  }

  /** On [-5, 30] the primes are exactly 2, 3, 5, 7, 11, 13, 17, 19, 23 and 29. */
  lemma SmallPrimes(x: int)
    requires -5 <= x <= 30
    ensures IsPrime(x) <==> x in {2, 3, 5, 7, 11, 13, 17, 19, 23, 29}
  {
    if x in {2, 3, 5, 7, 11, 13, 17, 19, 23, 29} {
      var r := if x < 4 then 2 else if x < 9 then 3 else if x < 25 then 5 else 6;
      forall d | 2 <= d < r
        ensures x % d != 0
      {
        assert d == 2 || d == 3 || d == 4 || d == 5;
      }
      NoDivisorUpToRoot(x, r);
    } else if x >= 2 {
      var d := if x % 2 == 0 then 2 else if x % 3 == 0 then 3 else 5;
      assert x % d == 0;
    }
  }

  /** Trial division by 2, 3, ... while d * d <= x. */
  method IsPrimePythonic(x: int) returns (b: bool)
    ensures b == IsPrime(x)
  {
    if x < 2 {
      return false;
    }
    var d := 2;
    while d * d <= x
      invariant d >= 2
      invariant forall e :: 2 <= e < d ==> x % e != 0
      decreases x - d
    {
      if x % d == 0 {
        assert d < x by {
          assert d * d >= 2 * d;
        }
        return false;
      }
      d := d + 1;
    }
    NoDivisorUpToRoot(x, d);
    return true;
  }
}
