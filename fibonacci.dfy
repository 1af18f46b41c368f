/** The exact Fibonacci numbers that `fibonacci_sympy` obtains from sympy. */
module Fibonacci {

  /** F_0 = 0, F_1 = F_2 = 1, F_n = F_(n-1) + F_(n-2); every F_n with n >= 1 is positive. */
  function Fib(n: nat): (r: nat)
    ensures n >= 1 ==> r >= 1
  {
    if n == 0 then 0
    else if n == 1 then 1
    else Fib(n - 1) + Fib(n - 2)
  }

  /** The recurrence and its two seeds, as sympy states them. */
  lemma FibDefinition(n: nat)
    requires n >= 3
    ensures Fib(1) == 1 && Fib(2) == 1
    ensures Fib(n) == Fib(n - 1) + Fib(n - 2)
  {
  }

  /** Iterative computation of F_n with arbitrary-precision integers. */
  method FibonacciSympy(n: nat) returns (f: nat)
    ensures f == Fib(n)
  {
    var a, b := 0, 1;
    var i := 0;
    while i < n
      invariant i <= n
      invariant a == Fib(i) && b == Fib(i + 1)
    {
      a, b := b, a + b;
      i := i + 1;
    }
    f := a;
  }
}
