/** Go's numeric semantics on top of Dafny's unbounded `int` and exact `real`:
    the int64 range, two's-complement wrap-around, the truncating `/` and `%`,
    the sign-bit tests the money type uses to detect overflow, and float64
    `*`, `/` and float-to-int conversion idealised over the reals. */
module GoInt {

  const TWO63: int := 0x8000_0000_0000_0000
  const TWO64: int := 0x1_0000_0000_0000_0000
  const MinInt64: int := -TWO63
  const MaxInt64: int := TWO63 - 1

  predicate IsInt64(x: int) { MinInt64 <= x <= MaxInt64 }

  type int64 = x: int | MinInt64 <= x <= MaxInt64

  /** Outcome of a Go call that may panic: the returned value, or the panic message. */
  datatype Result<T> = Ok(value: T) | Panic(msg: string)

  /** Outcome of a Go call that returns nothing but may panic. */
  datatype Outcome = Completed | Panicked(msg: string)

  /** Message of Go's run-time panic on an integer division by zero. */
  const DIVZERO: string := "runtime error: integer divide by zero"

  /** The int64 value Go's two's-complement arithmetic leaves when the
      mathematical result is x: x itself when it fits, otherwise x moved
      by a multiple of 2^64 into range. */
  function Wrap(x: int): (r: int64)
    ensures IsInt64(x) ==> r == x
    ensures MaxInt64 < x <= MaxInt64 + TWO64 ==> r == x - TWO64
    ensures MinInt64 - TWO64 <= x < MinInt64 ==> r == x + TWO64
    ensures (x - r) % TWO64 == 0
  {
    WrapFacts(x);
    (x + TWO63) % TWO64 - TWO63
  }

  /** The low 64 bits of x + 2^63, shifted back by 2^63, differ from x by a
      multiple of 2^64, and by none, one or minus one 2^64 near the range. */
  lemma WrapFacts(x: int)
    ensures var r := (x + TWO63) % TWO64 - TWO63;
      && MinInt64 <= r <= MaxInt64
      && (IsInt64(x) ==> r == x)
      && (MaxInt64 < x <= MaxInt64 + TWO64 ==> r == x - TWO64)
      && (MinInt64 - TWO64 <= x < MinInt64 ==> r == x + TWO64)
      && (x - r) % TWO64 == 0
  {
    var y := x + TWO63;
    var k := y / TWO64;
    assert y == k * TWO64 + y % TWO64;
    if IsInt64(x) {
      ModUnique(y, TWO64, 0);
    } else if MaxInt64 < x <= MaxInt64 + TWO64 {
      ModUnique(y, TWO64, 1);
    } else if MinInt64 - TWO64 <= x < MinInt64 {
      ModUnique(y, TWO64, -1);
    }
    ModUnique(k * TWO64, TWO64, k);
  }

  lemma ModUnique(x: int, m: int, k: int)
    requires m > 0 && 0 <= x - k * m < m
    ensures x % m == x - k * m && x / m == k
  {
    var q, r := x / m, x % m;
    assert x == q * m + r && 0 <= r < m;
    if q < k {
      assert (k - q) * m == k * m - q * m;
      MulAtLeast(k - q, m);
    } else if q > k {
      assert (q - k) * m == q * m - k * m;
      MulAtLeast(q - k, m);
    }
  }

  lemma {:induction false} MulAtLeast(a: int, m: int)
    requires a >= 1 && m >= 0
    ensures a * m >= m
  {
    if a > 1 {
      MulAtLeast(a - 1, m);
      assert a * m == (a - 1) * m + m;
    }
  }

  /** The magnitude of an unbounded integer. */
  function Abs(x: int): nat { if x < 0 then -x else x }

  /** q is Go's truncated quotient of x by a positive d: the remainder
      x - d*q lies strictly between -d and d and is zero or has the sign of x. */
  ghost predicate IsTruncQuotient(x: int, d: int, q: int)
  {
    var rem := x - d * q;
    if x >= 0 then 0 <= rem < d else -d < rem <= 0
  }

  /** Go's integer `/` by a positive divisor: the quotient rounded toward zero
      (Dafny's `/` is Euclidean and rounds a negative dividend downward). Every
      divisor in this model (the scale DP and the guard factor) is positive. */
  function Quot(x: int, d: int): (q: int)
    requires d > 0
    ensures IsTruncQuotient(x, d, q)
    ensures x >= 0 ==> 0 <= q <= x
    ensures x < 0 ==> x <= q <= 0
  {
    QuotFacts(x, d);
    if x >= 0 then x / d else -((-x) / d)
  }

  lemma QuotFacts(x: int, d: int)
    requires d > 0
    ensures var q := if x >= 0 then x / d else -((-x) / d);
      IsTruncQuotient(x, d, q) && (x >= 0 ==> 0 <= q <= x) && (x < 0 ==> x <= q <= 0)
  {
    if x >= 0 {
      DivFacts(x, d);
    } else {
      NegQuotFacts(x, d);
    }
  }

  lemma NegQuotFacts(x: int, d: int)
    requires x < 0 && d > 0
    ensures var q := -((-x) / d); -d < x - d * q <= 0 && x <= q <= 0
  {
    var p := (-x) / d;
    DivFacts(-x, d);
    NegMul(d, p);
  }

  lemma NegMul(d: int, p: int)
    ensures d * -p == -(d * p)
  {
  }

  lemma DivFacts(a: nat, d: int)
    requires d > 0
    ensures 0 <= a - d * (a / d) < d && a / d <= a
  {
    var p, r := a / d, a % d;
    assert a == d * p + r && 0 <= r < d;
    assert p >= 0;
    MulAtLeastSelf(d, p);
  }

  lemma MulAtLeastSelf(d: int, p: int)
    requires d >= 1 && p >= 0
    ensures d * p >= p
  {
    assert d * p == (d - 1) * p + p;
    assert (d - 1) * p >= 0;
  }

  /** The truncated quotient times the divisor does not exceed the dividend
      in magnitude. */
  lemma QuotMagnitude(x: int, d: int)
    requires d > 0
    ensures d * Abs(Quot(x, d)) <= Abs(x)
  {
    var q := Quot(x, d);
    if x < 0 {
      assert d * Abs(q) == -(d * q);
    }
  }

  /** Go's integer `%` by a positive divisor: the remainder left by the
      truncated quotient, which takes the sign of the dividend. */
  function Rem(x: int, d: int): (r: int)
    requires d > 0
    ensures x == d * Quot(x, d) + r
    ensures if x >= 0 then 0 <= r < d else -d < r <= 0
  {
    x - d * Quot(x, d)
  }

  /** The truncated quotient is the only integer with the truncated-quotient property. */
  lemma {:induction false} QuotUnique(x: int, d: int, q: int)
    requires d > 0 && IsTruncQuotient(x, d, q)
    ensures q == Quot(x, d)
  {
    var q0 := Quot(x, d);
    var r, r0 := x - d * q, x - d * q0;
    assert d * (q0 - q) == r - r0;
    assert -d < r - r0 < d;
    if q0 > q {
      MulAtLeast(q0 - q, d);
    } else if q0 < q {
      assert d * (q - q0) == r0 - r;
      MulAtLeast(q - q0, d);
    }
  }

  /** Dividing with truncation by a and then by b is dividing by a*b (for
      positive divisors): Go's `i / Guard / DP` is `i` divided by `Guard*DP`,
      even where the product `Guard*DP` would not fit in an int64. */
  lemma {:induction false} QuotQuot(x: int, a: int, b: int)
    requires a > 0 && b > 0
    ensures a * b > 0 && Quot(Quot(x, a), b) == Quot(x, a * b)
  {
    var n := Abs(x);
    DivDiv(n, a, b);
    if x < 0 && n / a != 0 {
      assert Quot(Quot(x, a), b) == -((n / a) / b);
    }
  }

  lemma DivDiv(n: nat, a: int, b: int)
    requires a > 0 && b > 0
    ensures a * b > 0 && (n / a) / b == n / (a * b)
  {
    MulAtLeast(b, a);
    var q1, q2 := n / a, (n / a) / b;
    var r1, r2 := n - a * q1, q1 - b * q2;
    DivFacts(n, a);
    DivFacts(q1, b);
    MulSplit(a, b, q2, r2);
    assert n == a * b * q2 + (a * r2 + r1);
    MulLess(a, r2, b);
    ModUnique(n, a * b, q2);
  }

  lemma MulSplit(a: int, b: int, q: int, r: int)
    ensures a * (b * q + r) == a * b * q + a * r
  {
  }

  lemma MulLess(a: int, r: int, b: int)
    requires a > 0 && 0 <= r < b
    ensures a * r <= a * b - a
  {
    assert a * b - a - a * r == a * (b - 1 - r);
    assert a * (b - 1 - r) >= 0;
  }

  /** Quotients of opposite dividends are opposite. */
  lemma QuotNeg(x: int, d: int)
    requires d > 0
    ensures Quot(-x, d) == -Quot(x, d)
  {
  }

  /** Go's float64 `*` and `/`, idealised as exact real arithmetic (no
      rounding to 53 bits, no infinities or NaN). */
  function FMul(a: real, b: real): real { a * b }

  function FDiv(a: real, b: real): real
    requires b != 0.0
  {
    a / b
  }

  /** Go's conversion `int64(f)` of a float that lies in range: the fraction
      is dropped, rounding toward zero. Floats are idealised as reals. */
  function Trunc(y: real): (t: int)
    ensures t as real <= y < t as real + 1.0 || t as real - 1.0 < y <= t as real
    ensures y >= 0.0 ==> 0.0 <= y - t as real < 1.0
    ensures y < 0.0 ==> -1.0 < y - t as real <= 0.0
  {
    if y >= 0.0 then y.Floor else -((-y).Floor)
  }

  /** Truncating the exact real quotient is Go's integer `/`. */
  lemma TruncOfQuotient(i: int, d: int)
    requires d > 0
    ensures Trunc(i as real / d as real) == Quot(i, d)
  {
    var q := Quot(i, d);
    var rem := i - d * q;
    var f := rem as real / d as real;
    SplitQuotient(i, d, q, rem);
    FracBounds(rem, d);
    TruncOf(q, f);
  }

  lemma SplitQuotient(i: int, d: int, q: int, rem: int)
    requires d > 0 && i == d * q + rem
    ensures i as real / d as real == q as real + rem as real / d as real
  {
    assert i as real == d as real * q as real + rem as real;
  }

  lemma FracBounds(rem: int, d: int)
    requires d > 0
    ensures 0 <= rem < d ==> 0.0 <= rem as real / d as real < 1.0
    ensures -d < rem <= 0 ==> -1.0 < rem as real / d as real <= 0.0
  {
  }

  /** Truncating q + f, where f is a fraction of the sign the truncation keeps. */
  lemma TruncOf(q: int, f: real)
    requires (q >= 0 && 0.0 <= f < 1.0) || (q <= 0 && -1.0 < f <= 0.0)
    ensures Trunc(q as real + f) == q
  {
  }

  /** The sign bit of an int64's two's-complement representation. */
  predicate SignBit(x: int64) { x < 0 }

  /** Go's test `(r^m)&(r^n) < 0` for the wrapped sum r of m and n: the
      sign of r differs from both; it can fire only for operands of one sign. */
  predicate AddSignTest(r: int64, m: int64, n: int64)
    ensures AddSignTest(r, m, n) ==> SignBit(m) == SignBit(n) && SignBit(r) != SignBit(m)
  {
    (SignBit(r) != SignBit(m)) && (SignBit(r) != SignBit(n))
  }

  /** Go's test `(r^m)&^(r^n) < 0` for the wrapped difference r of m and n:
      the sign of r differs from m's and agrees with n's; it can fire only
      for operands of opposite signs. */
  predicate SubSignTest(r: int64, m: int64, n: int64)
    ensures SubSignTest(r, m, n) ==> SignBit(m) != SignBit(n) && SignBit(r) != SignBit(m)
  {
    (SignBit(r) != SignBit(m)) && !(SignBit(r) != SignBit(n))
  }

  /** The sign test on the wrapped sum fires exactly when the mathematical sum
      leaves the int64 range. */
  lemma AddSignTestExact(m: int64, n: int64)
    ensures AddSignTest(Wrap(m + n), m, n) <==> !IsInt64(m + n)
  {
    var r := Wrap(m + n);
    if m + n > MaxInt64 {
      assert r == m + n - TWO64 && r < 0 && m >= 0 && n >= 0;
    } else if m + n < MinInt64 {
      assert r == m + n + TWO64 && r >= 0 && m < 0 && n < 0;
    } else {
      assert r == m + n;
    }
  }

  /** The sign test on the wrapped difference fires exactly when the
      mathematical difference leaves the int64 range. */
  lemma SubSignTestExact(m: int64, n: int64)
    ensures SubSignTest(Wrap(m - n), m, n) <==> !IsInt64(m - n)
  {
    var r := Wrap(m - n);
    if m - n > MaxInt64 {
      assert r == m - n - TWO64 && r < 0 && m >= 0 && n < 0;
    } else if m - n < MinInt64 {
      assert r == m - n + TWO64 && r >= 0 && m < 0 && n >= 0;
    } else {
      assert r == m - n;
    }
  }
}
