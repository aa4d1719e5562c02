/**
  `infernoColor`: a display intensity to an RGB triple, by piecewise-linear
  interpolation over a fixed nine-entry palette, each channel rounded to an integer.
 */
module ColorMap {
  import opened JsMath

  datatype Rgb = Rgb(r: int, g: int, b: int)

  /** The palette, from near-black through purple and orange to pale yellow. */
  const Palette: seq<Rgb> := [
    Rgb(0, 0, 4), Rgb(31, 12, 72), Rgb(85, 15, 109),
    Rgb(136, 34, 106), Rgb(186, 54, 85),
    Rgb(227, 89, 51), Rgb(249, 140, 10),
    Rgb(252, 195, 40), Rgb(252, 255, 164)
  ]

  /** Every channel fits a byte. */
  predicate InByteRange(c: Rgb) {
    0 <= c.r <= 255 && 0 <= c.g <= 255 && 0 <= c.b <= 255
  }

  /** `x` lies between `a` and `b`, whichever is larger. */
  predicate Between(a: int, b: int, x: int) {
    (a <= x <= b) || (b <= x <= a)
  }

  /** Each channel of `c` lies between the same channels of `lo` and `hi`. */
  predicate Bracketed(lo: Rgb, hi: Rgb, c: Rgb) {
    Between(lo.r, hi.r, c.r) && Between(lo.g, hi.g, c.g) && Between(lo.b, hi.b, c.b)
  }

  /** `x1` to `x2` moves (weakly) in the direction from `a` to `b`. */
  predicate Toward(a: int, b: int, x1: int, x2: int) {
    (a <= b ==> x1 <= x2) && (b <= a ==> x2 <= x1)
  }

  lemma PaletteInByteRange()
    ensures forall i :: 0 <= i < |Palette| ==> InByteRange(Palette[i])
  {
  }

  /** One channel of the interpolation, `Math.round(a + (b - a) * t)`. */
  function Lerp(a: int, b: int, t: real): (x: int)
    requires 0.0 <= t <= 1.0
    ensures Between(a, b, x)
    ensures t == 0.0 ==> x == a
  {
    RoundOfInteger(a);
    RoundOfIntegerStep(a, b);
    RoundedStep(a as real, (b - a) as real, t)
  }

  /** Along one segment, a channel moves monotonically from `a` towards `b`. */
  lemma LerpToward(a: int, b: int, t1: real, t2: real)
    requires 0.0 <= t1 <= t2 <= 1.0
    ensures Toward(a, b, Lerp(a, b, t1), Lerp(a, b, t2))
  {
    RoundedStepToward(a as real, (b - a) as real, t1, t2);
  }

  /** The palette entry an intensity in [0,1] starts from: `Math.floor(v * 8)`. */
  function Segment(v: real): (i: int)
    requires 0.0 <= v
    ensures 0 <= i
    ensures v < 1.0 ==> i < |Palette| - 1
  {
    Floor(v * (|Palette| - 1) as real)
  }

  /**
    `infernoColor`: the intensity clamped to [0,1], then blended between the two
    palette entries around it; 1 itself gives the last entry.
   */
  function InfernoColor(v: real): (c: Rgb)
    ensures v <= 0.0 ==> c == Palette[0]
    ensures 1.0 <= v ==> c == Palette[|Palette| - 1]
    ensures InByteRange(c)
  {
    var v := Min(1.0, Max(0.0, v));
    var p := v * (|Palette| - 1) as real;
    var i := Segment(v);
    var t := p - i as real;
    if i >= |Palette| - 1 then
      Palette[|Palette| - 1]
    else
      var lo, hi := Palette[i], Palette[i + 1];
      PaletteInByteRange();
      Rgb(Lerp(lo.r, hi.r, t), Lerp(lo.g, hi.g, t), Lerp(lo.b, hi.b, t))
  }

  /**
    Between the control points, every channel lies between the channels of the two
    palette entries that bracket the intensity.
   */
  lemma InfernoColorBracketed(v: real)
    requires 0.0 <= v < 1.0
    ensures Segment(v) < |Palette| - 1
    ensures Segment(v) as real / 8.0 <= v < (Segment(v) + 1) as real / 8.0
    ensures Bracketed(Palette[Segment(v)], Palette[Segment(v) + 1], InfernoColor(v))
  {
    var i := Segment(v);
    assert Min(1.0, Max(0.0, v)) == v;
    assert i as real <= v * 8.0 < i as real + 1.0;
  }

  /** At the intensity `i / 8` the colour is exactly palette entry `i`. */
  lemma {:induction false} InfernoColorAtControlPoint(i: nat)
    requires i < |Palette|
    ensures InfernoColor(i as real / 8.0) == Palette[i]
  {
    var v := i as real / 8.0;
    assert 0.0 <= v <= 1.0;
    assert Min(1.0, Max(0.0, v)) == v;
    assert v * 8.0 == i as real;
    assert Segment(v) == i;
  }

  /** Below 1 the colour is the blend of the segment's two entries at the offset `8v - Segment(v)`. */
  lemma InfernoColorInSegment(v: real)
    requires 0.0 <= v < 1.0
    ensures var i, t := Segment(v), v * 8.0 - Segment(v) as real;
      i < |Palette| - 1 && 0.0 <= t < 1.0 &&
      InfernoColor(v) == Rgb(Lerp(Palette[i].r, Palette[i + 1].r, t),
                             Lerp(Palette[i].g, Palette[i + 1].g, t),
                             Lerp(Palette[i].b, Palette[i + 1].b, t))
  {
    assert |Palette| == 9;
    assert Min(1.0, Max(0.0, v)) == v;
    var i := Segment(v);
    assert i as real <= v * 8.0 < i as real + 1.0;
  }

  /**
    Within one segment a brighter intensity moves every channel further from the
    segment's first palette entry towards its second.
   */
  lemma InfernoColorMonotoneInSegment(v1: real, v2: real)
    requires 0.0 <= v1 <= v2 < 1.0 && Segment(v1) == Segment(v2)
    ensures var lo, hi := Palette[Segment(v1)], Palette[Segment(v1) + 1];
      var c1, c2 := InfernoColor(v1), InfernoColor(v2);
      Toward(lo.r, hi.r, c1.r, c2.r) && Toward(lo.g, hi.g, c1.g, c2.g) && Toward(lo.b, hi.b, c1.b, c2.b)
  {
    var i := Segment(v1);
    InfernoColorInSegment(v1);
    InfernoColorInSegment(v2);
    var t1, t2 := v1 * 8.0 - i as real, v2 * 8.0 - i as real;
    assert t1 <= t2;
    var lo, hi := Palette[i], Palette[i + 1];
    LerpToward(lo.r, hi.r, t1, t2);
    LerpToward(lo.g, hi.g, t1, t2);
    LerpToward(lo.b, hi.b, t1, t2);
  }
}
