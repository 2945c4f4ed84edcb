/** The jet-like heatmap colour map of the viewer's legend (app.js `clamp01`,
    `ramp`, `heatmapRGB`), over exact reals. */
module ColorMap {
  import opened Numbers

  datatype RGB = RGB(r: int, g: int, b: int)

  /** `ramp` is `clamp01` under another name. */
  function Ramp(x: real): real { Clamp01(x) }

  /** JavaScript `Math.round`: the nearest integer, halves rounded up. */
  function Round(x: real): (n: int)
    ensures n as real - 0.5 <= x < n as real + 0.5
  {
    (x + 0.5).Floor
  }

  /** `Math.round(clamp01(c) * 255)`: a channel intensity as a byte. */
  function ToByte(c: real): (b: int)
    ensures 0 <= b <= 255
    ensures b as real - 0.5 <= Clamp01(c) * 255.0 < b as real + 0.5
    ensures c <= 0.0 ==> b == 0
    ensures c >= 1.0 ==> b == 255
  {
    Round(Clamp01(c) * 255.0)
  }

  /** The unclamped channel sums of `heatmapRGB` for an already clamped `v`. */
  function RawRed(v: real): real { Ramp(1.5 * v - 0.5) + Ramp(1.5 * v - 1.0) }
  function RawGreen(v: real): real { Ramp(1.5 * v) - Ramp(1.5 * v - 1.0) }
  function RawBlue(v: real): real { Ramp(1.5 * (1.0 - v)) }

  /** `heatmapRGB(v)`: every channel is a byte for every real input. */
  function Heatmap(v: real): (c: RGB)
    ensures 0 <= c.r <= 255 && 0 <= c.g <= 255 && 0 <= c.b <= 255
  {
    var u := Clamp01(v);
    RGB(ToByte(RawRed(u)), ToByte(RawGreen(u)), ToByte(RawBlue(u)))
  }

  /** Out-of-range inputs are clamped first, so the map is constant below 0
      (pure blue) and above 1 (red with half green). */
  lemma HeatmapClamped(v: real)
    ensures v <= 0.0 ==> Heatmap(v) == Heatmap(0.0) == RGB(0, 0, 255)
    ensures v >= 1.0 ==> Heatmap(v) == Heatmap(1.0) == RGB(255, 128, 0)
  {
    assert RawGreen(1.0) == 0.5;
    assert ToByte(0.5) == 128;
  }

  lemma Clamp01Monotone(x: real, y: real)
    requires x <= y
    ensures Clamp01(x) <= Clamp01(y)
  {
  }

  lemma ToByteMonotone(x: real, y: real)
    requires x <= y
    ensures ToByte(x) <= ToByte(y)
  {
    Clamp01Monotone(x, y);
    assert Clamp01(x) * 255.0 <= Clamp01(y) * 255.0;
  }

  /** The red channel never decreases as the value grows. */
  lemma RedNonDecreasing(v: real, w: real)
    requires v <= w
    ensures Heatmap(v).r <= Heatmap(w).r
  {
    var a, b := Clamp01(v), Clamp01(w);
    Clamp01Monotone(v, w);
    Clamp01Monotone(1.5 * a - 0.5, 1.5 * b - 0.5);
    Clamp01Monotone(1.5 * a - 1.0, 1.5 * b - 1.0);
    ToByteMonotone(RawRed(a), RawRed(b));
  }

  /** The blue channel never increases as the value grows. */
  lemma BlueNonIncreasing(v: real, w: real)
    requires v <= w
    ensures Heatmap(w).b <= Heatmap(v).b
  {
    var a, b := Clamp01(v), Clamp01(w);
    Clamp01Monotone(v, w);
    Clamp01Monotone(1.5 * (1.0 - b), 1.5 * (1.0 - a));
    ToByteMonotone(RawBlue(b), RawBlue(a));
  }

  /** A piecewise reference for the three channels on [0, 1]: red is 0 up to
      1/3, then rises and saturates at 5/6; green peaks at 2/3; blue is full
      up to 1/3 and then falls to 0 at 1. */
  function RedRef(v: real): real {
    if v <= 1.0 / 3.0 then 0.0
    else if v <= 2.0 / 3.0 then 1.5 * v - 0.5
    else MinReal(1.0, 3.0 * v - 1.5)
  }

  function GreenRef(v: real): real {
    if v <= 2.0 / 3.0 then 1.5 * v else 2.0 - 1.5 * v
  }

  function BlueRef(v: real): real {
    if v <= 1.0 / 3.0 then 1.0 else 1.5 - 1.5 * v
  }

  /** On [0, 1] the nested ramps of `heatmapRGB` agree with the piecewise
      reference, channel by channel. */
  lemma HeatmapPiecewise(v: real)
    requires 0.0 <= v <= 1.0
    ensures Heatmap(v) == RGB(ToByte(RedRef(v)), ToByte(GreenRef(v)), ToByte(BlueRef(v)))
  {
    assert Clamp01(v) == v;
    if v <= 1.0 / 3.0 {
      assert RawRed(v) == 0.0;
    } else if v <= 2.0 / 3.0 {
      assert RawRed(v) == 1.5 * v - 0.5;
    } else {
      assert RawRed(v) == 3.0 * v - 1.5;
      assert Clamp01(RawRed(v)) == Clamp01(RedRef(v));
    }
    if v <= 2.0 / 3.0 {
      assert RawGreen(v) == 1.5 * v;
    } else {
      assert RawGreen(v) == 2.0 - 1.5 * v;
    }
  }
}
