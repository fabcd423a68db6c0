/** Newton's integer square root on 64-bit numbers. */
module SquareRoot {
  // Arithmetic on this type is checked: no operation may leave the range or divide by zero.
  newtype uint64 = x: int | 0 <= x <= 0xFFFF_FFFF_FFFF_FFFF

  ghost predicate IsRoot(n: int, x: int) {
    x * x <= n < (x + 1) * (x + 1)
  }

  lemma RootUnique(n: int, x: int, y: int)
    requires 0 <= x && 0 <= y && IsRoot(n, x) && IsRoot(n, y)
    ensures x == y
  {
    SquaresOrdered(x + 1, y);
    SquaresOrdered(y + 1, x);
  }

  lemma SquaresOrdered(a: int, b: int)
    requires 0 <= a
    ensures a <= b ==> a * a <= b * b
  {
    if a <= b {
      assert a * a <= a * b <= b * b;
    }
  }

  lemma ProductBelowSquare(a: int, b: int)
    ensures 4 * (a * b) <= (a + b) * (a + b)
  {
    var d := a - b;
    assert d * d >= 0;
    assert (a + b) * (a + b) == 4 * (a * b) + d * d;
  }

  lemma Quotient(n: int, x: int)
    requires 0 < x <= n
    ensures var q := n / x; x * q <= n < x * (q + 1) && 1 <= q
  {
    var q := n / x;
    assert x * (q + 1) == x * q + x;
    NotPositive(x, q);
  }

  lemma NotPositive(x: int, q: int)
    requires 0 < x
    ensures q <= 0 ==> x * q <= 0
  {
  }

  /** The mean of `x` and `n / x`, rounded down, is never below the root: four times a product is at most
      the square of the sum. */
  lemma NewtonStep(n: int, x: int, q: int, y: int)
    requires 0 < x && 0 <= q && n < x * (q + 1) && x + q <= 2 * y + 1
    ensures n < (y + 1) * (y + 1)
  {
    ProductBelowSquare(x, q + 1);
    SquaresOrdered(x + (q + 1), 2 * (y + 1));
    assert (2 * (y + 1)) * (2 * (y + 1)) == 4 * ((y + 1) * (y + 1));
  }

  lemma RootFound(n: int, x: int)
    requires 0 < x && 0 <= n && (x + n / x) / 2 >= x
    ensures x * x <= n
  {
    var q := n / x;
    assert n == x * q + n % x;
    assert x <= q;
    assert x * x <= x * q;
  }

  /** `integer_squareroot`: terminates on every 64-bit number, with the largest root whose square fits. */
  method IntegerSquareRoot(n: uint64) returns (x: uint64)
    ensures IsRoot(n as int, x as int)
  {
    if n == 0xFFFF_FFFF_FFFF_FFFF { return 4294967295; }
    x := n;
    var y := (x + 1) / 2;
    assert n > 0 ==> (n as int) / (n as int) == 1;
    while y < x
      invariant (n as int) < (x as int + 1) * (x as int + 1) && x <= n
      invariant n > 0 ==> 0 < x && 0 < y && (y as int) == (x as int + n as int / x as int) / 2
      invariant n == 0 ==> x == 0 && y == 0
      decreases x
    {
      Quotient(n as int, x as int);
      NewtonStep(n as int, x as int, n as int / x as int, y as int);
      x := y;
      NextFits(n as int, x as int);
      y := (x + n / x) / 2;
    }
    if n > 0 { RootFound(n as int, x as int); }
  }

  lemma ProductOfNonNegatives(a: int, b: int)
    requires 0 <= a && 0 <= b
    ensures 0 <= a * b
  {
  }

  // Neither the sum nor the next mean leaves the range.
  lemma NextFits(n: int, x: int)
    requires 0 < x <= n
    ensures 1 <= n / x && x + n / x <= n + 1
  {
    var q := n / x;
    Quotient(n, x);
    ProductOfNonNegatives(x - 1, q - 1);
    assert (x - 1) * (q - 1) == x * q - x - q + 1;
  }
}
