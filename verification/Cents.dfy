/** Money amounts kept as whole cents in memory and as a decimal column in the database, with float64 in
    between (apps/personal-core/pkg/model/transaction.go, apps/personal-core/pkg/model/portfolio_config.go).
    Rounding is any choice of a nearest float64, so every way of breaking ties is covered. */
module Cents {

  function Abs(x: real): real {
    if x < 0.0 then -x else x
  }

  /** Two to the power e. */
  function Scale(e: int): (r: real)
    ensures r > 0.0
    decreases if e < 0 then -e else e
  {
    if e == 0 then 1.0 else if e > 0 then 2.0 * Scale(e - 1) else Scale(e + 1) / 2.0
  }

  const TwoTo53: int := 0x20_0000_0000_0000
  const TwoTo50: int := 0x4_0000_0000_0000

  /** A finite float64: a whole number below 2^53 times a power of two (section 3.4 of IEEE 754-2008). */
  ghost predicate IsFloat64(x: real) {
    exists m: int, e: int :: IsScaled(x, m, e)
  }

  predicate Significand(m: int) {
    -TwoTo53 < m < TwoTo53
  }

  predicate IsScaled(x: real, m: int, e: int) {
    Significand(m) && -1074 <= e <= 971 && x == m as real * Scale(e)
  }

  /** f is a float64 nearest to x (section 4.3 of IEEE 754-2008, without choosing between ties). */
  ghost predicate Nearest(x: real, f: real) {
    IsFloat64(f) && forall g: real :: IsFloat64(g) ==> Abs(f - x) <= Abs(g - x)
  }

  // ---------------------------------------------------------------- how far rounding goes

  /** Whole multiples of 2^e up to 2^53 of them are float64 values. */
  lemma Grid(m: int, e: int)
    requires -TwoTo53 <= m <= TwoTo53 && -1074 <= e < 971
    ensures IsFloat64(m as real * Scale(e))
  {
    var x := m as real * Scale(e);
    if -TwoTo53 < m < TwoTo53 {
      assert IsScaled(x, m, e);
    } else {
      StepUp(e);
      var h := m / 2;
      assert m == 2 * h;
      DoubleUp(m, h, Scale(e), Scale(e + 1));
      assert IsScaled(x, h, e + 1);
    }
  }

  lemma StepUp(e: int)
    ensures Scale(e + 1) == 2.0 * Scale(e)
  {
  }

  lemma DoubleUp(m: int, h: int, s: real, t: real)
    requires m == 2 * h && t == 2.0 * s
    ensures m as real * s == h as real * t
  {
    assert m as real == 2.0 * h as real;
  }

  lemma Product(a: real, u: real)
    requires u > 0.0
    ensures a > 0.0 ==> a * u > 0.0
    ensures a < 0.0 ==> a * u < 0.0
  {
  }

  lemma Times(a: real, b: real, u: real)
    requires u > 0.0
    ensures a <= b <==> a * u <= b * u
  {
    Product(b - a, u);
    assert (b - a) * u == b * u - a * u;
  }

  lemma Distance(m: int, q: real, u: real, x: real)
    requires q * u == x
    ensures m as real * u - x == (m as real - q) * u
  {
  }

  lemma Quotient(x: real, u: real) returns (q: real)
    requires u > 0.0
    ensures q * u == x
  {
    q := x / u;
  }

  lemma NotNegative(a: real, u: real, p: real)
    requires a >= 0.0 && u > 0.0 && p == a * u
    ensures p >= 0.0
  {
  }

  lemma Spread(n: real, q: real, u: real, nu: real, x: real)
    requires nu == n * u && x == q * u
    ensures (n - q + 0.5) * u == nu - x + u / 2.0
  {
  }

  lemma WithinHalf(n: real, q: real, u: real, nu: real, x: real)
    requires u > 0.0 && -0.5 <= n - q <= 0.5 && nu == n * u && x == q * u
    ensures Abs(nu - x) <= u / 2.0
  {
    Spread(n, q, u, nu, x);
    NotNegative(n - q + 0.5, u, nu - x + u / 2.0);
    Spread(q, n, u, x, nu);
    NotNegative(q - n + 0.5, u, x - nu + u / 2.0);
  }

  lemma Bounded(q: real, b: real, u: real)
    requires u > 0.0 && Abs(q * u) <= b * u
    ensures Abs(q) <= b
  {
    Times(q, b, u);
    Times(-b, q, u);
    assert -b * u == -(b * u);
  }

  /** The multiple of u nearest to x is within half of u. */
  lemma GridPoint(x: real, u: real) returns (m: int)
    requires u > 0.0 && Abs(x) <= TwoTo53 as real * u
    ensures -TwoTo53 <= m <= TwoTo53
    ensures Abs(m as real * u - x) <= u / 2.0
  {
    var q := Quotient(x, u);
    Bounded(q, TwoTo53 as real, u);
    m := NearestWhole(q, TwoTo53);
    WithinHalf(m as real, q, u, m as real * u, x);
  }

  lemma NearestWhole(q: real, b: int) returns (m: int)
    requires Abs(q) <= b as real
    ensures -b <= m <= b && -0.5 <= m as real - q <= 0.5
  {
    m := (q + 0.5).Floor;
  }

  /** Rounding moves a value of magnitude at most 2^(e+53) by at most half of 2^e. */
  lemma RoundError(x: real, f: real, e: int)
    requires Nearest(x, f) && -1074 <= e < 971 && Abs(x) <= TwoTo53 as real * Scale(e)
    ensures Abs(f - x) <= Scale(e) / 2.0
  {
    var m := GridPoint(x, Scale(e));
    Grid(m, e);
  }

  /** A whole number in range converts exactly. */
  lemma WholeIsExact(c: int, f: real)
    requires -TwoTo53 <= c <= TwoTo53 && Nearest(c as real, f)
    ensures f == c as real
  {
    Grid(c, 0);
  }

  // ---------------------------------------------------------------- every number has a nearest float64

  /** The significand nearest to q. */
  function Clamped(q: real): (m: int)
    ensures Significand(m)
  {
    var w := (q + 0.5).Floor;
    if w >= TwoTo53 then TwoTo53 - 1 else if w <= -TwoTo53 then 1 - TwoTo53 else w
  }

  lemma ClampedCloser(q: real, n: int)
    requires Significand(n)
    ensures Abs(Clamped(q) as real - q) <= Abs(n as real - q)
  {
    var w, m := (q + 0.5).Floor, Clamped(q);
    assert w as real - 0.5 <= q < w as real + 0.5;
    if n < m {
      assert n as real <= m as real - 1.0;
      assert m <= w;
    } else if n > m {
      assert n as real >= m as real + 1.0;
      assert m >= w;
    }
  }

  lemma NearestSignificand(q: real) returns (m: int)
    ensures Significand(m)
    ensures forall n :: Significand(n) ==> Abs(m as real - q) <= Abs(n as real - q)
  {
    m := Clamped(q);
    forall n | Significand(n) {
      ClampedCloser(q, n);
    }
  }

  /** The best of the multiples of u. */
  lemma BestMultiple(x: real, u: real) returns (m: int)
    requires u > 0.0
    ensures Significand(m)
    ensures forall n :: Significand(n) ==> Abs(m as real * u - x) <= Abs(n as real * u - x)
  {
    var q := Quotient(x, u);
    m := NearestSignificand(q);
    forall n | Significand(n) {
      CloserMultiple(m, n, q, u, x);
    }
  }

  lemma CloserMultiple(m: int, n: int, q: real, u: real, x: real)
    requires u > 0.0 && q * u == x && Abs(m as real - q) <= Abs(n as real - q)
    ensures Abs(m as real * u - x) <= Abs(n as real * u - x)
  {
    Distance(m, q, u, x);
    Distance(n, q, u, x);
    Closer(m as real - q, n as real - q, u);
  }

  lemma Closer(a: real, b: real, u: real)
    requires u > 0.0 && Abs(a) <= Abs(b)
    ensures Abs(a * u) <= Abs(b * u)
  {
    Times(Abs(a), Abs(b), u);
    Magnitude(a, u);
    Magnitude(b, u);
  }

  lemma Magnitude(a: real, u: real)
    requires u > 0.0
    ensures Abs(a * u) == Abs(a) * u
  {
    Product(a, u);
  }

  /** f is at least as close to x as every float64 with exponent e. */
  ghost predicate BeatsAt(f: real, x: real, e: int) {
    forall g: real, n: int :: IsScaled(g, n, e) ==> Abs(f - x) <= Abs(g - x)
  }

  lemma BestAt(x: real, e: int) returns (f: real)
    requires -1074 <= e <= 971
    ensures IsFloat64(f) && BeatsAt(f, x, e)
  {
    var m := BestMultiple(x, Scale(e));
    f := m as real * Scale(e);
    assert IsScaled(f, m, e);
    forall g: real, n: int | IsScaled(g, n, e)
      ensures Abs(f - x) <= Abs(g - x)
    {
      assert Significand(n) && g == n as real * Scale(e);
    }
  }

  lemma BeatsToo(f: real, g: real, x: real, e: int)
    requires BeatsAt(g, x, e) && Abs(f - x) <= Abs(g - x)
    ensures BeatsAt(f, x, e)
  {
  }

  lemma {:induction false} BestUpTo(x: real, top: int) returns (f: real)
    requires -1074 <= top <= 971
    ensures IsFloat64(f)
    ensures forall e :: -1074 <= e <= top ==> BeatsAt(f, x, e)
    decreases top + 1074
  {
    f := BestAt(x, top);
    if top > -1074 {
      var lower := BestUpTo(x, top - 1);
      if Abs(lower - x) < Abs(f - x) {
        BeatsToo(lower, f, x, top);
        f := lower;
      } else {
        forall e | -1074 <= e < top {
          BeatsToo(f, lower, x, e);
        }
      }
    }
  }

  /** So rounding is defined everywhere, and the chains below are never empty. */
  lemma NearestExists(x: real)
    ensures exists f :: Nearest(x, f)
  {
    var f := BestUpTo(x, 971);
    forall g: real | IsFloat64(g)
      ensures Abs(f - x) <= Abs(g - x)
    {
      var n: int, e: int :| IsScaled(g, n, e);
      assert BeatsAt(f, x, e);
    }
    assert Nearest(x, f);
  }

  // ---------------------------------------------------------------- writing and reading

  /** `c` cents converted to f, divided to d = float64(c) / 100.0, and stored as the nearest hundredth k. */
  ghost predicate Stores(c: int, f: real, d: real, k: int) {
    Nearest(c as real, f) && Nearest(f / 100.0, d) && Abs(d - k as real / 100.0) <= 0.005
  }

  /** k hundredths read into the float64 r, and p the product r * 100. */
  ghost predicate Scans(k: int, r: real, p: real) {
    Nearest(k as real / 100.0, r) && Nearest(r * 100.0, p)
  }

  /** math.Round: to the nearest whole number, halves away from zero. */
  function GoRound(x: real): (n: int)
    ensures Abs(n as real - x) <= 0.5
    ensures Abs(n as real - x) == 0.5 ==> Abs(n as real) > Abs(x)
  {
    if x >= 0.0 then (x + 0.5).Floor else -((-x + 0.5).Floor)
  }

  /** Conversion to int64: truncation toward zero. */
  function Truncate(x: real): (n: int)
    ensures Abs(n as real - x) < 1.0 && Abs(n as real) <= Abs(x) && (x >= 0.0 ==> n >= 0) && (x <= 0.0 ==> n <= 0)
  {
    if x >= 0.0 then x.Floor else -((-x).Floor)
  }

  predicate InRange(c: int) {
    -TwoTo50 <= c <= TwoTo50
  }

  lemma Scales()
    ensures Scale(-9) == 1.0 / 512.0 && Scale(-2) == 0.25
  {
    assert Scale(-1) == 0.5;
    assert Scale(-3) == 0.125;
    assert Scale(-6) == 1.0 / 64.0;
  }

  lemma HundredthError(c: int, d: real)
    requires InRange(c) && Nearest(c as real / 100.0, d)
    ensures Abs(d - c as real / 100.0) <= 1.0 / 1024.0
  {
    Scales();
    RoundError(c as real / 100.0, d, -9);
  }

  lemma StoredAsWritten(c: int, f: real, d: real, k: int)
    requires InRange(c) && Stores(c, f, d, k)
    ensures k == c
  {
    WholeIsExact(c, f);
    HundredthError(c, d);
    assert Abs(k as real - c as real) < 1.0;
  }

  lemma ProductError(c: int, r: real, p: real)
    requires InRange(c) && Scans(c, r, p)
    ensures Abs(r * 100.0 - c as real) <= 100.0 / 1024.0
    ensures Abs(p - c as real) <= 100.0 / 1024.0 + 0.125
  {
    HundredthError(c, r);
    Scales();
    RoundError(r * 100.0, p, -2);
  }

  /** The rounding read of k hundredths is k. */
  lemma ReadsBack(k: int, r: real, p: real)
    requires InRange(k) && Scans(k, r, p)
    ensures GoRound(p) == k
  {
    ProductError(k, r, p);
  }

  /** Every amount up to 2^50 cents either way survives the column and the rounding read. */
  lemma CentsSurvive(c: int, f: real, d: real, k: int, r: real, p: real)
    requires InRange(c) && Stores(c, f, d, k) && Scans(k, r, p)
    ensures k == c && GoRound(p) == c
  {
    StoredAsWritten(c, f, d, k);
    ReadsBack(c, r, p);
  }

  /** q is `capitalDec*100 + 0.5`, with the product rounded first or fused with the addition. */
  ghost predicate AddsHalf(r: real, p: real, q: real) {
    Nearest(p + 0.5, q) || Nearest(r * 100.0 + 0.5, q)
  }

  lemma HalfError(c: int, r: real, p: real, q: real)
    requires InRange(c) && Scans(c, r, p) && AddsHalf(r, p, q)
    ensures c as real < q < c as real + 1.0
  {
    ProductError(c, r, p);
    Scales();
    if Nearest(p + 0.5, q) {
      RoundError(p + 0.5, q, -2);
    } else {
      RoundError(r * 100.0 + 0.5, q, -2);
    }
  }

  /** The truncating read gives the amount back exactly when it is not negative; every negative amount
      comes back one cent too high. */
  lemma TruncatingRead(c: int, f: real, d: real, k: int, r: real, p: real, q: real)
    requires InRange(c) && Stores(c, f, d, k) && Scans(k, r, p) && AddsHalf(r, p, q)
    ensures Truncate(q) == c <==> c >= 0
    ensures Truncate(q) == (if c >= 0 then c else c + 1)
  {
    StoredAsWritten(c, f, d, k);
    HalfError(c, r, p, q);
  }

  /** Minus one: written as -100 cents, read back as -99. */
  lemma MinusOneReadsHigh()
    ensures Stores(-100, -100.0, -1.0, -100) && Scans(-100, -1.0, -100.0) && AddsHalf(-1.0, -100.0, -99.5)
    ensures Truncate(-99.5) == -99
  {
    Scales();
    Grid(-100, 0);
    Exact(-100.0);
    Grid(-1, 0);
    Exact(-1.0);
    Grid(-398, -2);
    Exact(-99.5);
  }

  lemma Exact(x: real)
    requires IsFloat64(x)
    ensures Nearest(x, x)
  {
  }
}
