/** The single-pole low-pass filter that estimates the gravity component of
    the vertical acceleration from the gravity-included sensor reading.
    Arithmetic is exact (`real`), with the smoothing factor 0.8 = 4/5. */
module LowPass {

  /** Weight given to the previous estimate (`ALPHA` in script.js). */
  const Alpha: real := 0.8

  /** One filter update: `g <- Alpha * g + (1 - Alpha) * raw`.
      The distance from the estimate to the input shrinks by the factor Alpha. */
  function Filter(g: real, raw: real): (r: real)
    ensures r - raw == Alpha * (g - raw)
  {
    Alpha * g + (1.0 - Alpha) * raw
  }

  function Pow(x: real, n: nat): real
  {
    if n == 0 then 1.0 else x * Pow(x, n - 1)
  }

  /** The estimate after `n` updates with the same input `raw`, starting from `g`. */
  function Iterate(g: real, raw: real, n: nat): real
    decreases n
  {
    if n == 0 then g else Iterate(Filter(g, raw), raw, n - 1)
  }

  /** Powers of Alpha are positive, at most one, and strictly decreasing. */
  lemma {:induction false} PowAlphaBounds(n: nat)
    ensures 0.0 < Pow(Alpha, n) <= 1.0
    ensures Pow(Alpha, n + 1) < Pow(Alpha, n)
  {
    if n > 0 {
      PowAlphaBounds(n - 1);
    }
  }

  /** Closed form of repeated filtering with a constant input:
      the initial error `g - raw` decays geometrically with ratio Alpha. */
  lemma {:induction false} IterateClosedForm(g: real, raw: real, n: nat)
    ensures Iterate(g, raw, n) == raw + (g - raw) * Pow(Alpha, n)
    decreases n
  {
    if n > 0 {
      var g1 := Filter(g, raw);
      var p := Pow(Alpha, n - 1);
      IterateClosedForm(g1, raw, n - 1);
      assert Iterate(g, raw, n) == raw + (g1 - raw) * p;
      assert g1 - raw == Alpha * (g - raw);
      assert (Alpha * (g - raw)) * p == (g - raw) * (Alpha * p);
    }
  }

  /** Starting from a zero estimate, a constant input `raw` gives
      `raw * (1 - Alpha^n)` after `n` updates. */
  lemma FromRest(raw: real, n: nat)
    ensures Iterate(0.0, raw, n) == raw * (1.0 - Pow(Alpha, n))
  {
    IterateClosedForm(0.0, raw, n);
  }

  /** With a constant input the estimate moves monotonically toward the input
      and never overshoots it, from either side. */
  lemma IterateApproaches(g: real, raw: real, n: nat)
    ensures g <= raw ==> g <= Iterate(g, raw, n) <= Iterate(g, raw, n + 1) <= raw
    ensures raw <= g ==> raw <= Iterate(g, raw, n + 1) <= Iterate(g, raw, n) <= g
  {
    IterateClosedForm(g, raw, n);
    IterateClosedForm(g, raw, n + 1);
    PowAlphaBounds(n);
    var p, q := Pow(Alpha, n), Pow(Alpha, n + 1);
    var d := g - raw;
    assert Iterate(g, raw, n) == raw + d * p;
    assert Iterate(g, raw, n + 1) == raw + d * q;
    if d <= 0.0 {
      MulMonotoneNonPos(d, q, p);
      MulMonotoneNonPos(d, p, 1.0);
    }
    if 0.0 <= d {
      MulMonotoneNonNeg(d, q, p);
      MulMonotoneNonNeg(d, p, 1.0);
    }
  }

  /** A quantitative bound on the powers of Alpha: 0.8^n <= 4 / (4 + n). */
  lemma {:induction false} PowAlphaUpper(n: nat)
    ensures Pow(Alpha, n) * (1.0 + (n as real) / 4.0) <= 1.0
    decreases n
  {
    if n > 0 {
      PowAlphaUpper(n - 1);
      PowAlphaBounds(n - 1);
      var p := Pow(Alpha, n - 1);
      var k := 1.0 + ((n - 1) as real) / 4.0;
      assert p * k <= 1.0;
      assert Pow(Alpha, n) * (1.0 + (n as real) / 4.0) == Alpha * (p * k) + (1.0 - Alpha) * p;
    }
  }

  function Abs(x: real): real
  {
    if x < 0.0 then -x else x
  }

  /** Number of updates after which the estimate is within `eps` of a
      constant input `raw`, starting from `g`. */
  function Settle(g: real, raw: real, eps: real): nat
    requires eps > 0.0
  {
    ((4.0 * Abs(g - raw)) / eps).Floor + 1
  }

  /** Convergence: with a constant input the estimate comes within any
      `eps > 0` of the input after `Settle(g, raw, eps)` updates and stays
      there. */
  lemma Converges(g: real, raw: real, eps: real, n: nat)
    requires eps > 0.0 && n >= Settle(g, raw, eps)
    ensures -eps < Iterate(g, raw, n) - raw < eps
  {
    var d := g - raw;
    var e := Iterate(g, raw, n) - raw;
    IterateClosedForm(g, raw, n);
    assert e == d * Pow(Alpha, n);
    SettleIsEnough(Abs(d), eps, n);
    ScaledPowBelow(Abs(d), eps, n);
    PowAlphaBounds(n);
    AbsScale(d, Pow(Alpha, n));
    assert Abs(e) < eps;
  }

  /** `a * 0.8^n < eps` once `n` exceeds `4 a / eps`. */
  lemma ScaledPowBelow(a: real, eps: real, n: nat)
    requires 0.0 <= a && 0.0 < eps && 4.0 * a < eps * (n as real)
    ensures a * Pow(Alpha, n) < eps
  {
    PowAlphaBounds(n);
    PowAlphaUpper(n);
    ErrorBelow(a, Pow(Alpha, n), eps, n as real);
  }

  lemma SettleIsEnough(a: real, eps: real, n: nat)
    requires eps > 0.0 && 0.0 <= a && n >= ((4.0 * a) / eps).Floor + 1
    ensures 4.0 * a < eps * (n as real)
  {
    var q := (4.0 * a) / eps;
    assert q < n as real;
    assert q * eps == 4.0 * a;
    MulStrict(eps, q, n as real);
  }

  lemma ErrorBelow(a: real, p: real, eps: real, m: real)
    requires 0.0 <= a && 0.0 < p && 0.0 <= m && 0.0 < eps
    requires p * (1.0 + m / 4.0) <= 1.0 && 4.0 * a < eps * m
    ensures a * p < eps
  {
    var c := 4.0 + m;
    var pc := p * c;
    assert pc == 4.0 * (p * (1.0 + m / 4.0));
    assert pc <= 4.0;
    MulMonotoneNonNeg(a, pc, 4.0);
    var x := (a * p) * c;
    assert x == a * pc;
    var ec := eps * c;
    assert ec == eps * m + 4.0 * eps;
    assert x <= 4.0 * a;
    assert x < ec;
    MulCancel(a * p, eps, c);
  }

  lemma AbsScale(d: real, p: real)
    requires 0.0 < p
    ensures Abs(d * p) == Abs(d) * p
  {
    if d < 0.0 {
      assert d * p < 0.0;
      assert -(d * p) == (-d) * p;
    }
  }

  lemma MulStrict(e: real, x: real, y: real)
    requires e > 0.0 && x < y
    ensures x * e < e * y
  {
  }

  lemma MulCancel(x: real, y: real, c: real)
    requires c > 0.0 && x * c < y * c
    ensures x < y
  {
  }

  lemma MulMonotoneNonPos(d: real, x: real, y: real)
    requires d <= 0.0 && 0.0 <= x <= y
    ensures d * y <= d * x <= 0.0
  {
  }

  lemma MulMonotoneNonNeg(d: real, x: real, y: real)
    requires 0.0 <= d && 0.0 <= x <= y
    ensures 0.0 <= d * x <= d * y
  {
  }
}
