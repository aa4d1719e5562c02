/**
  The few `Math` primitives of JavaScript that the spectrogram pipeline relies on,
  over Dafny's exact `real` numbers, and the script's own `clamp`.
 */
module JsMath {

  /** `Math.max` of two numbers. */
  function Max(a: real, b: real): (r: real)
    ensures r >= a && r >= b
    ensures r == a || r == b
  {
    if a >= b then a else b
  }

  /** `Math.min` of two numbers. */
  function Min(a: real, b: real): (r: real)
    ensures r <= a && r <= b
    ensures r == a || r == b
  {
    if a <= b then a else b
  }

  /** `Math.floor`: the greatest integer not above `x`. */
  function Floor(x: real): (n: int)
    ensures n as real <= x < n as real + 1.0
  {
    x.Floor
  }

  /** `Math.round`: the nearest integer, a half rounded up (towards +infinity). */
  function Round(x: real): (n: int)
    ensures x - 0.5 < n as real <= x + 0.5
  {
    Floor(x + 0.5)
  }

  lemma FloorMonotone(x: real, y: real)
    requires x <= y
    ensures Floor(x) <= Floor(y)
  {
  }

  lemma RoundMonotone(x: real, y: real)
    requires x <= y
    ensures Round(x) <= Round(y)
  {
    FloorMonotone(x + 0.5, y + 0.5);
  }

  /**
    The script's `clamp(v, lo, hi)`, that is `Math.max(lo, Math.min(hi, v))`.
    When the bounds are the wrong way round the lower one wins.
   */
  function Clamp(v: real, lo: real, hi: real): (r: real)
    ensures lo <= hi ==> lo <= r <= hi
    ensures lo <= v <= hi ==> r == v
    ensures v <= lo ==> r == lo
    ensures lo <= hi <= v ==> r == hi
    ensures hi < lo ==> r == lo
  {
    Max(lo, Min(hi, v))
  }

  // Facts about real arithmetic that the proofs of the pipeline lean on.

  /** Scaling a non-negative amount by a factor in [0,1] stays within [0, amount]. */
  lemma MulBetweenZeroAndOne(t: real, x: real)
    requires 0.0 <= t <= 1.0 && 0.0 <= x
    ensures 0.0 <= t * x <= x
    ensures t == 1.0 ==> t * x == x
  {
    assert x - t * x == (1.0 - t) * x;
  }

  /** A non-negative amount divided by a larger positive one lies in [0,1]. */
  lemma DivBetweenZeroAndOne(a: real, d: real)
    requires 0.0 <= a <= d && 0.0 < d
    ensures 0.0 <= a / d <= 1.0
  {
  }

  lemma MulDivCancel(a: real, b: real)
    requires b != 0.0
    ensures a / b * b == a && a * b / b == a
  {
  }

  lemma DivMonotone(x: real, y: real, d: real)
    requires x <= y && 0.0 < d
    ensures x / d <= y / d
  {
    assert y / d - x / d == (y - x) / d;
  }

  lemma DivPositive(a: real, d: real)
    requires 0.0 < d
    ensures a / d > 0.0 <==> a > 0.0
  {
    if a > 0.0 {
      assert a / d * d == a;
    }
  }

  /** A quotient by a positive divisor: 0 at 0, 1 at the divisor, in [0,1] in between, below 1 short of it. */
  lemma Fraction(a: real, d: real)
    requires 0.0 < d
    ensures a == 0.0 ==> a / d == 0.0
    ensures a == d ==> a / d == 1.0
    ensures 0.0 <= a <= d ==> 0.0 <= a / d <= 1.0
    ensures 0.0 <= a < d ==> a / d < 1.0
  {
    assert a / d * d == a;
    if 0.0 <= a < d {
      DivMonotone(a, d, d);
    }
  }

  /** `(1 - q) * n`: the part of `n` left above a fraction `q` of it. */
  function ScaledComplement(q: real, n: real): (s: real)
    ensures q == 0.0 ==> s == n
    ensures q == 1.0 ==> s == 0.0
    ensures 0.0 <= q <= 1.0 && 0.0 <= n ==> 0.0 <= s <= n
  {
    ScaledComplementBounds(q, n);
    (1.0 - q) * n
  }

  lemma ScaledComplementBounds(q: real, n: real)
    ensures 0.0 <= q <= 1.0 && 0.0 <= n ==> 0.0 <= (1.0 - q) * n <= n
  {
    if 0.0 <= q <= 1.0 && 0.0 <= n {
      assert 0.0 <= q * n <= n;
    }
  }

  /** The part left does not grow as the fraction grows. */
  lemma ScaledComplementAntitone(q1: real, q2: real, n: real)
    requires q1 <= q2 && 0.0 <= n
    ensures ScaledComplement(q2, n) <= ScaledComplement(q1, n)
  {
    assert 0.0 <= (q2 - q1) * n;
    assert (1.0 - q1) * n - (1.0 - q2) * n == (q2 - q1) * n;
  }

  /**
    `(1 - r / h) * n`: the share of `n` that lies above position `r` of a span `h`;
    `n` at the start of the span, 0 at its end, within [0, n] in between.
   */
  function ComplementShare(r: real, h: real, n: real): (s: real)
    requires 0.0 < h
    ensures r == 0.0 ==> s == n
    ensures r == h ==> s == 0.0
    ensures 0.0 <= r <= h && 0.0 <= n ==> 0.0 <= s <= n
  {
    Fraction(r, h);
    ScaledComplement(r / h, n)
  }

  /** The share does not grow as the position moves along the span. */
  lemma ComplementShareAntitone(r1: real, r2: real, h: real, n: real)
    requires r1 <= r2 && 0.0 < h && 0.0 <= n
    ensures ComplementShare(r2, h, n) <= ComplementShare(r1, h, n)
  {
    DivMonotone(r1, r2, h);
    ScaledComplementAntitone(r1 / h, r2 / h, n);
  }

  /**
    `Math.round(a + d * t)`: a step of `d` from `a` scaled by `t` in [0,1], rounded;
    it lies between the roundings of the two ends.
   */
  function RoundedStep(a: real, d: real, t: real): (x: int)
    requires 0.0 <= t <= 1.0
    ensures 0.0 <= d ==> Round(a) <= x <= Round(a + d)
    ensures d <= 0.0 ==> Round(a + d) <= x <= Round(a)
    ensures t == 0.0 ==> x == Round(a)
  {
    RoundedStepUp(a, d, t);
    RoundedStepDown(a, d, t);
    RoundedStepAtZero(a, d, t);
    Round(a + d * t)
  }

  lemma RoundedStepUp(a: real, d: real, t: real)
    requires 0.0 <= t <= 1.0
    ensures 0.0 <= d ==> Round(a) <= Round(a + d * t) <= Round(a + d)
  {
    if 0.0 <= d {
      assert 0.0 <= d * t <= d;
      RoundMonotone(a, a + d * t);
      RoundMonotone(a + d * t, a + d);
    }
  }

  lemma RoundedStepDown(a: real, d: real, t: real)
    requires 0.0 <= t <= 1.0
    ensures d <= 0.0 ==> Round(a + d) <= Round(a + d * t) <= Round(a)
  {
    if d <= 0.0 {
      assert d <= d * t <= 0.0;
      RoundMonotone(a + d, a + d * t);
      RoundMonotone(a + d * t, a);
    }
  }

  lemma RoundedStepAtZero(a: real, d: real, t: real)
    ensures t == 0.0 ==> Round(a + d * t) == Round(a)
  {
    if t == 0.0 {
      assert a + d * t == a;
    }
  }

  /** A larger scale moves the rounded step (weakly) further in the direction of `d`. */
  lemma RoundedStepToward(a: real, d: real, t1: real, t2: real)
    requires 0.0 <= t1 <= t2 <= 1.0
    ensures 0.0 <= d ==> RoundedStep(a, d, t1) <= RoundedStep(a, d, t2)
    ensures d <= 0.0 ==> RoundedStep(a, d, t2) <= RoundedStep(a, d, t1)
  {
    RoundedStepTowardUp(a, d, t1, t2);
    RoundedStepTowardDown(a, d, t1, t2);
  }

  lemma RoundedStepTowardUp(a: real, d: real, t1: real, t2: real)
    requires t1 <= t2
    ensures 0.0 <= d ==> Round(a + d * t1) <= Round(a + d * t2)
  {
    if 0.0 <= d {
      assert d * t1 <= d * t2;
      RoundMonotone(a + d * t1, a + d * t2);
    }
  }

  lemma RoundedStepTowardDown(a: real, d: real, t1: real, t2: real)
    requires t1 <= t2
    ensures d <= 0.0 ==> Round(a + d * t2) <= Round(a + d * t1)
  {
    if d <= 0.0 {
      assert d * t2 <= d * t1;
      RoundMonotone(a + d * t2, a + d * t1);
    }
  }

  lemma RoundOfInteger(n: int)
    ensures Round(n as real) == n
  {
  }

  /** Rounding the far end of an integer step gives the far end. */
  lemma RoundOfIntegerStep(a: int, b: int)
    ensures Round(a as real + (b - a) as real) == b
  {
  }
}
