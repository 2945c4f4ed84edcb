/** The offline rasterisation of patch probabilities onto the level-2 canvas
    and its colouring (make-overlay.py). Float32 arithmetic is taken as exact
    real arithmetic; patch origins are the `int(y)`, `int(x)` of each patch. */
module Rasterize {
  import opened Numbers

  /** Top-left corner of a patch, in canvas pixels. */
  datatype Origin = Origin(y: int, x: int)

  /** A patch and its probability, as paired by `zip(patches, probs)`. */
  datatype Sample = Sample(origin: Origin, prob: real)

  /** Python's `zip`: pairs entries up to the shorter list; the surplus of the
      longer one is ignored. */
  function Zip(patches: seq<Origin>, probs: seq<real>): (z: seq<Sample>)
    ensures |z| == Min(|patches|, |probs|)
    ensures forall k :: 0 <= k < |z| ==> z[k] == Sample(patches[k], probs[k])
  {
    seq(Min(|patches|, |probs|), k requires 0 <= k < Min(|patches|, |probs|) => Sample(patches[k], probs[k]))
  }

  /** A `h` rows by `w` columns grid. */
  predicate IsGrid<T>(g: seq<seq<T>>, h: nat, w: nat) {
    |g| == h && forall i :: 0 <= i < h ==> |g[i]| == w
  }

  /** The guard of the loop: a patch whose origin lies below or right of the
      canvas is skipped. */
  predicate Accepted(o: Origin, h: int, w: int) {
    !(o.y >= h || o.x >= w)
  }

  /** How numpy reads a bound of a slice with step 1 along an axis of
      length `n`: a negative bound counts from the end, and the result is
      clipped to `[0, n]`. */
  function SliceBound(b: int, n: int): (k: int)
    ensures n >= 0 ==> 0 <= k <= n
    ensures 0 <= b <= n ==> k == b
    ensures 0 <= n < b ==> k == n
    ensures b < 0 && b + n >= 0 ==> k == b + n
    ensures n >= 0 && b + n < 0 ==> k == 0
  {
    if b < 0 then (if b + n < 0 then 0 else b + n)
    else Min(b, n)
  }

  /** The rows (or columns) the slice `[lo:hi]` selects on an axis of length
      `n`. */
  predicate InSlice(lo: int, hi: int, n: int, i: int) {
    SliceBound(lo, n) <= i < SliceBound(hi, n)
  }

  /** Pixel (`i`, `j`) lies in the window `[y0 : min(y0 + p, h), x0 : min(x0 + p, w)]`
      of a patch that is not skipped, with the slice bounds read as numpy
      reads them. */
  predicate Covers(o: Origin, p: int, h: int, w: int, i: int, j: int) {
    && Accepted(o, h, w)
    && InSlice(o.y, Min(o.y + p, h), h, i)
    && InSlice(o.x, Min(o.x + p, w), w, j)
  }

  /** How many of the samples cover pixel (`i`, `j`). */
  function CoverCount(z: seq<Sample>, p: int, h: int, w: int, i: int, j: int): nat
    decreases |z|
  {
    if |z| == 0 then 0
    else CoverCount(z[..|z| - 1], p, h, w, i, j) + (if Covers(z[|z| - 1].origin, p, h, w, i, j) then 1 else 0)
  }

  /** The sum of the probabilities of the samples covering pixel (`i`, `j`). */
  function CoverSum(z: seq<Sample>, p: int, h: int, w: int, i: int, j: int): real
    decreases |z|
  {
    if |z| == 0 then 0.0
    else CoverSum(z[..|z| - 1], p, h, w, i, j) + (if Covers(z[|z| - 1].origin, p, h, w, i, j) then z[|z| - 1].prob else 0.0)
  }

  /** The value a pixel should end with: the mean probability of the patches
      covering it, or 0 where none does. */
  function MeanProb(z: seq<Sample>, p: int, h: int, w: int, i: int, j: int): real {
    var n := CoverCount(z, p, h, w, i, j);
    if n > 0 then CoverSum(z, p, h, w, i, j) / n as real else 0.0
  }

  /** A pixel no sample covers has a zero sum. */
  lemma {:induction false} UncoveredSumIsZero(z: seq<Sample>, p: int, h: int, w: int, i: int, j: int)
    requires CoverCount(z, p, h, w, i, j) == 0
    ensures CoverSum(z, p, h, w, i, j) == 0.0
    decreases |z|
  {
    if |z| > 0 {
      UncoveredSumIsZero(z[..|z| - 1], p, h, w, i, j);
    }
  }

  /** A skipped patch adds nothing to any pixel's count or sum. */
  lemma SkippedPatchContributesNothing(z: seq<Sample>, s: Sample, p: int, h: int, w: int, i: int, j: int)
    requires !Accepted(s.origin, h, w)
    ensures CoverCount(z + [s], p, h, w, i, j) == CoverCount(z, p, h, w, i, j)
    ensures CoverSum(z + [s], p, h, w, i, j) == CoverSum(z, p, h, w, i, j)
  {
    assert (z + [s])[..|z + [s]| - 1] == z;
  }

  /** Every covered pixel lies on the canvas: the slice bounds keep all
      writes inside it. */
  lemma CoveredPixelsOnCanvas(o: Origin, p: int, h: nat, w: nat, i: int, j: int)
    requires Covers(o, p, h, w, i, j)
    ensures 0 <= i < h && 0 <= j < w
  {
  }

  /** For a non-negative origin and patch size the window is the patch's
      square clipped to the canvas. */
  lemma CoversSquare(o: Origin, p: nat, h: nat, w: nat, i: int, j: int)
    requires o.y >= 0 && o.x >= 0
    ensures Covers(o, p, h, w, i, j) <==>
              Accepted(o, h, w) && o.y <= i < o.y + p && i < h && o.x <= j < o.x + p && j < w
  {
  }

  /** A negative patch size does not empty the window: with `p = -3`, a
      patch at the origin of a 10 by 10 canvas updates `[0:-3, 0:-3]`, the
      first seven rows and columns. */
  lemma NegativePatchSizeWraps()
    ensures CoverCount(Zip([Origin(0, 0)], [0.9]), -3, 10, 10, 6, 6) == 1
    ensures CoverCount(Zip([Origin(0, 0)], [0.9]), -3, 10, 10, 7, 0) == 0
  {
    var z := Zip([Origin(0, 0)], [0.9]);
    assert z == [Sample(Origin(0, 0), 0.9)];
    assert z[..0] == [];
  }

  /** A negative origin counts from the far edge: a patch of size 256 at
      (-5, -5) on a 100 by 100 canvas updates `[-5:100, -5:100]`, the last
      five rows and columns, and not the corner it overlaps. */
  lemma NegativeOriginWraps()
    ensures CoverCount(Zip([Origin(-5, -5)], [0.9]), 256, 100, 100, 99, 95) == 1
    ensures CoverCount(Zip([Origin(-5, -5)], [0.9]), 256, 100, 100, 0, 0) == 0
  {
    var z := Zip([Origin(-5, -5)], [0.9]);
    assert z == [Sample(Origin(-5, -5), 0.9)];
    assert z[..0] == [];
  }

  /** Probabilities beyond the last patch (or patches beyond the last
      probability) do not change the pairing. */
  lemma ZipIgnoresSurplus(patches: seq<Origin>, probs: seq<real>, extra: seq<real>)
    requires |probs| >= |patches|
    ensures Zip(patches, probs + extra) == Zip(patches, probs)
  {
  }

  /** `canvas[y0:y1, x0:x1] += prob` and `counts[y0:y1, x0:x1] += 1` for a
      window already clipped to the grid: the window's cells gain the
      probability and one count, every other cell is unchanged. */
  method AddPatch(sums: seq<seq<real>>, counts: seq<seq<nat>>, h: nat, w: nat,
                  y0: nat, y1: int, x0: nat, x1: int, prob: real)
    returns (sums': seq<seq<real>>, counts': seq<seq<nat>>)
    requires IsGrid(sums, h, w) && IsGrid(counts, h, w)
    requires y1 <= h && x1 <= w
    ensures IsGrid(sums', h, w) && IsGrid(counts', h, w)
    ensures forall i, j :: 0 <= i < h && 0 <= j < w ==>
              && sums'[i][j] == (if y0 <= i < y1 && x0 <= j < x1 then sums[i][j] + prob else sums[i][j])
              && counts'[i][j] == (if y0 <= i < y1 && x0 <= j < x1 then counts[i][j] + 1 else counts[i][j])
  {
    sums', counts' := sums, counts;
    var i := y0;
    while i < y1
      invariant y0 <= i && (i <= y1 || i == y0)
      invariant IsGrid(sums', h, w) && IsGrid(counts', h, w)
      invariant forall a, b :: 0 <= a < h && 0 <= b < w ==>
                  && sums'[a][b] == (if y0 <= a < i && x0 <= b < x1 then sums[a][b] + prob else sums[a][b])
                  && counts'[a][b] == (if y0 <= a < i && x0 <= b < x1 then counts[a][b] + 1 else counts[a][b])
    {
      var j := x0;
      while j < x1
        invariant x0 <= j && (j <= x1 || j == x0)
        invariant IsGrid(sums', h, w) && IsGrid(counts', h, w)
        invariant forall a, b :: 0 <= a < h && 0 <= b < w ==>
                    var hit := (y0 <= a < i && x0 <= b < x1) || (a == i && x0 <= b < j);
                    && sums'[a][b] == (if hit then sums[a][b] + prob else sums[a][b])
                    && counts'[a][b] == (if hit then counts[a][b] + 1 else counts[a][b])
      {
        sums' := sums'[i := sums'[i][j := sums'[i][j] + prob]];
        counts' := counts'[i := counts'[i][j := counts'[i][j] + 1]];
        j := j + 1;
      }
      i := i + 1;
    }
  }

  /** The rasterisation loop (make-overlay.py lines 57-69): starting from zero
      grids, every pixel ends with the number of accepted patches whose
      window contains it, and the sum of their probabilities. */
  method Rasterize(h: nat, w: nat, p: int, patches: seq<Origin>, probs: seq<real>)
    returns (sums: seq<seq<real>>, counts: seq<seq<nat>>)
    ensures IsGrid(sums, h, w) && IsGrid(counts, h, w)
    ensures forall i, j :: 0 <= i < h && 0 <= j < w ==>
              && counts[i][j] == CoverCount(Zip(patches, probs), p, h, w, i, j)
              && sums[i][j] == CoverSum(Zip(patches, probs), p, h, w, i, j)
  {
    var z := Zip(patches, probs);
    sums := seq(h, _ => seq(w, _ => 0.0));
    counts := seq(h, _ => seq(w, _ => 0));
    var k := 0;
    while k < |z|
      invariant 0 <= k <= |z|
      invariant IsGrid(sums, h, w) && IsGrid(counts, h, w)
      invariant forall i, j :: 0 <= i < h && 0 <= j < w ==>
                  && counts[i][j] == CoverCount(z[..k], p, h, w, i, j)
                  && sums[i][j] == CoverSum(z[..k], p, h, w, i, j)
    {
      var o, prob := z[k].origin, z[k].prob;
      assert z[..k + 1][..k] == z[..k];
      if o.y < h && o.x < w {
        var y1, x1 := Min(o.y + p, h), Min(o.x + p, w);
        sums, counts := AddPatch(sums, counts, h, w, SliceBound(o.y, h), SliceBound(y1, h),
                                 SliceBound(o.x, w), SliceBound(x1, w), prob);
      }
      k := k + 1;
    }
    assert z[..|z|] == z;
  }

  // ---------- colouring ----------

  /** One RGBA pixel of the output image. */
  datatype RGBA = RGBA(r: int, g: int, b: int, a: int)

  /** How alpha is chosen: constant `opacity` on covered pixels, or in
      proportion to the value. */
  datatype AlphaMode = MaskAlpha(opacity: int) | ValueAlpha

  /** `(v * scale).astype(np.uint8)` for a clipped `v`: truncation toward zero. */
  function Scaled(v: real, scale: nat): (n: int)
    ensures 0 <= n <= scale
    ensures n as real <= Clamp01(v) * scale as real < n as real + 1.0
  {
    var c, s := Clamp01(v), scale as real;
    assert (1.0 - c) * s >= 0.0 && c * s >= 0.0;
    assert (c * s).Floor as real <= c * s <= s;
    (c * s).Floor
  }

  /** The blue-to-red colour shared by both alpha modes: green is always 0
      and blue is 255 minus red. */
  function BlueRed(v: real): (px: RGBA)
    ensures 0 <= px.r <= 255 && px.g == 0 && px.b == 255 - px.r
    ensures px.r == Scaled(v, 255)
    ensures v <= 0.0 ==> px.r == 0
    ensures v >= 1.0 ==> px.r == 255
  {
    var r := Scaled(v, 255);
    RGBA(r, 0, 255 - r, 0)
  }

  /** `to_rgba_value_alpha`: alpha is `trunc(v * 200)`, never above 200. */
  function ValueAlphaPixel(v: real): (px: RGBA)
    ensures 0 <= px.r <= 255 && px.g == 0 && px.b == 255 - px.r
    ensures 0 <= px.a <= 200
    ensures px.r == Scaled(v, 255) && px.a == Scaled(v, 200)
    ensures v <= 0.0 ==> px == RGBA(0, 0, 255, 0)
    ensures v >= 1.0 ==> px == RGBA(255, 0, 0, 200)
  {
    BlueRed(v).(a := Scaled(v, 200))
  }

  /** `to_rgba_mask_alpha`: alpha is `opacity` on covered pixels and 0 elsewhere. */
  function MaskAlphaPixel(v: real, covered: bool, opacity: int): (px: RGBA)
    requires 0 <= opacity <= 255
    ensures 0 <= px.r <= 255 && px.g == 0 && px.b == 255 - px.r
    ensures px.r == Scaled(v, 255)
    ensures covered ==> px.a == opacity
    ensures !covered ==> px.a == 0
  {
    BlueRed(v).(a := if covered then opacity else 0)
  }

  /** The two alpha modes differ only in alpha. */
  lemma ModesShareColour(v: real, covered: bool, opacity: int)
    requires 0 <= opacity <= 255
    ensures MaskAlphaPixel(v, covered, opacity).(a := 0) == ValueAlphaPixel(v).(a := 0)
  {
  }

  /** Red and value-mode alpha never decrease, and blue never increases, as
      the value grows. */
  lemma ColourMonotone(u: real, v: real)
    requires u <= v
    ensures ValueAlphaPixel(u).r <= ValueAlphaPixel(v).r
    ensures ValueAlphaPixel(u).b >= ValueAlphaPixel(v).b
    ensures ValueAlphaPixel(u).a <= ValueAlphaPixel(v).a
  {
    assert Clamp01(u) <= Clamp01(v);
    assert Clamp01(u) * 255.0 <= Clamp01(v) * 255.0;
    assert Clamp01(u) * 200.0 <= Clamp01(v) * 200.0;
  }

  function PixelColour(v: real, covered: bool, mode: AlphaMode): RGBA
    requires mode.MaskAlpha? ==> 0 <= mode.opacity <= 255
  {
    match mode
    case MaskAlpha(o) => MaskAlphaPixel(v, covered, o)
    case ValueAlpha => ValueAlphaPixel(v)
  }

  /** The whole script after reading its inputs (make-overlay.py lines 57-83):
      rasterise, average where covered, colour. Each pixel is coloured by the
      mean probability of the patches covering it (0 where none does); in
      mask mode exactly the covered pixels are opaque. */
  method MakeOverlay(h: nat, w: nat, p: int, patches: seq<Origin>, probs: seq<real>, mode: AlphaMode)
    returns (rgba: seq<seq<RGBA>>)
    requires mode.MaskAlpha? ==> 0 <= mode.opacity <= 255
    ensures IsGrid(rgba, h, w)
    ensures forall i, j :: 0 <= i < h && 0 <= j < w ==>
              var z := Zip(patches, probs);
              rgba[i][j] == PixelColour(MeanProb(z, p, h, w, i, j), CoverCount(z, p, h, w, i, j) > 0, mode)
    ensures mode.MaskAlpha? ==> forall i, j :: 0 <= i < h && 0 <= j < w ==>
              (rgba[i][j].a == mode.opacity <== CoverCount(Zip(patches, probs), p, h, w, i, j) > 0) &&
              (rgba[i][j].a == 0 <== CoverCount(Zip(patches, probs), p, h, w, i, j) == 0)
  {
    var sums, counts := Rasterize(h, w, p, patches, probs);
    ghost var z := Zip(patches, probs);
    // Pixels with a positive count are divided by it; the others keep their sum.
    var canvas := seq(h, i requires 0 <= i < h => seq(w, j requires 0 <= j < w =>
                    if counts[i][j] > 0 then sums[i][j] / counts[i][j] as real else sums[i][j]));
    var covered := seq(h, i requires 0 <= i < h => seq(w, j requires 0 <= j < w => counts[i][j] > 0));
    forall i, j | 0 <= i < h && 0 <= j < w
      ensures canvas[i][j] == MeanProb(z, p, h, w, i, j)
    {
      if counts[i][j] == 0 {
        UncoveredSumIsZero(z, p, h, w, i, j);
      }
    }
    rgba := seq(h, i requires 0 <= i < h => seq(w, j requires 0 <= j < w =>
              PixelColour(canvas[i][j], covered[i][j], mode)));
  }
}
