/** The legend strip (app.js `drawColorbar`): a flat RGBA buffer of `w` by `h`
    pixels, row-major, in which every pixel of column `x` holds the heatmap
    colour of `x / (w - 1)`. */
module Colorbar {
  import opened ColorMap

  /** Offset of channel `k` of pixel (`y`, `x`) in a row-major RGBA buffer of
      width `w`: each earlier row contributes `4 * w` bytes (see `OffsetFormula`). */
  function Offset(w: nat, y: nat, x: nat, k: nat): nat
    decreases y
  {
    if y == 0 then 4 * x + k else 4 * w + Offset(w, y - 1, x, k)
  }

  /** The offset is `4 * (y * w + x) + k`, the index computed by the source. */
  lemma {:induction false} OffsetFormula(w: nat, y: nat, x: nat, k: nat)
    ensures Offset(w, y, x, k) == 4 * (y * w + x) + k
  {
    if y > 0 {
      OffsetFormula(w, y - 1, x, k);
      assert (y - 1) * w + w == y * w;
    }
  }

  lemma {:induction false} OffsetShift(w: nat, y: nat, x: nat, k: nat)
    ensures Offset(w, y, x, k) == Offset(w, y, 0, 0) + 4 * x + k
  {
    if y > 0 {
      OffsetShift(w, y - 1, x, k);
    }
  }

  lemma {:induction false} RowStartMonotone(w: nat, y: nat, h: nat)
    requires y <= h
    ensures Offset(w, y, 0, 0) <= Offset(w, h, 0, 0)
    decreases h
  {
    if y < h {
      RowStartMonotone(w, y, h - 1);
    }
  }

  /** Every channel of every pixel of a `w` by `h` image lies inside a buffer
      of `4 * w * h` bytes. */
  lemma OffsetInBounds(w: nat, h: nat, y: nat, x: nat, k: nat)
    requires y < h && x < w && k < 4
    ensures Offset(w, y, x, k) < Offset(w, h, 0, 0) == 4 * w * h
  {
    OffsetShift(w, y, x, k);
    RowStartMonotone(w, y + 1, h);
    OffsetFormula(w, h, 0, 0);
  }

  /** Distinct (pixel, channel) triples never share an offset. */
  lemma {:induction false} OffsetInjective(w: nat, y: nat, x: nat, k: nat, y': nat, x': nat, k': nat)
    requires x < w && x' < w && k < 4 && k' < 4
    requires Offset(w, y, x, k) == Offset(w, y', x', k')
    ensures y == y' && x == x' && k == k'
  {
    if y > 0 && y' > 0 {
      OffsetInjective(w, y - 1, x, k, y' - 1, x', k');
    } else if y > 0 || y' > 0 {
      assert false;
    }
  }

  /** The four bytes written for column `x`: the heatmap colour of
      `x / (w - 1)` and full opacity. */
  function ColumnPixel(w: nat, x: nat): seq<int>
    requires w != 1
  {
    var c := Heatmap(x as real / (w - 1) as real);
    [c.r, c.g, c.b, 255]
  }

  /** The legend starts with pure blue in its first column. */
  lemma LegendStartsBlue(w: nat)
    requires w >= 2
    ensures ColumnPixel(w, 0) == [0, 0, 255, 255]
  {
    var lo := 0 as real / (w - 1) as real;
    assert lo == 0.0;
    HeatmapClamped(lo);
  }

  /** The legend ends with the map's red end in its last column. */
  lemma LegendEndsRed(w: nat)
    requires w >= 2
    ensures ColumnPixel(w, w - 1) == [255, 128, 0, 255]
  {
    var hi := (w - 1) as real / (w - 1) as real;
    assert hi == 1.0;
    HeatmapClamped(hi);
  }

  /** Channel `k` of pixel (`y`, `x`) of a `w` by `h` RGBA buffer. */
  function Channel(data: seq<int>, w: nat, h: nat, y: nat, x: nat, k: nat): int
    requires |data| == Offset(w, h, 0, 0) && y < h && x < w && k < 4
  {
    OffsetInBounds(w, h, y, x, k);
    data[Offset(w, y, x, k)]
  }

  /** The buffer with the four channels of pixel (`y`, `x`) replaced by `px`;
      every other pixel keeps its bytes. */
  function SetPixel(data: seq<int>, w: nat, h: nat, y: nat, x: nat, px: seq<int>): (d: seq<int>)
    requires |data| == Offset(w, h, 0, 0) && y < h && x < w && |px| == 4
    ensures |d| == |data|
    ensures forall k :: 0 <= k < 4 ==> Channel(d, w, h, y, x, k) == px[k]
    ensures forall yy, xx, k :: 0 <= yy < h && 0 <= xx < w && 0 <= k < 4 && (yy != y || xx != x) ==>
              Channel(d, w, h, yy, xx, k) == Channel(data, w, h, yy, xx, k)
  {
    OffsetInBounds(w, h, y, x, 3);
    OffsetShift(w, y, x, 3);
    var i := Offset(w, y, x, 0);
    OffsetShift(w, y, x, 0);
    var d := data[..i] + px + data[i + 4..];
    PixelWritten(data, d, w, h, y, x, px);
    PixelsKept(data, d, w, h, y, x, px);
    d
  }

  lemma PixelWritten(data: seq<int>, d: seq<int>, w: nat, h: nat, y: nat, x: nat, px: seq<int>)
    requires |data| == Offset(w, h, 0, 0) && y < h && x < w && |px| == 4
    requires Offset(w, y, x, 0) + 4 <= |data|
    requires d == data[..Offset(w, y, x, 0)] + px + data[Offset(w, y, x, 0) + 4..]
    ensures |d| == |data|
    ensures forall k :: 0 <= k < 4 ==> Channel(d, w, h, y, x, k) == px[k]
  {
    forall k | 0 <= k < 4
      ensures Channel(d, w, h, y, x, k) == px[k]
    {
      OffsetShift(w, y, x, k);
      OffsetShift(w, y, x, 0);
    }
  }

  lemma PixelsKept(data: seq<int>, d: seq<int>, w: nat, h: nat, y: nat, x: nat, px: seq<int>)
    requires |data| == Offset(w, h, 0, 0) && y < h && x < w && |px| == 4
    requires Offset(w, y, x, 0) + 4 <= |data|
    requires d == data[..Offset(w, y, x, 0)] + px + data[Offset(w, y, x, 0) + 4..]
    ensures forall yy, xx, k :: 0 <= yy < h && 0 <= xx < w && 0 <= k < 4 && (yy != y || xx != x) ==>
              Channel(d, w, h, yy, xx, k) == Channel(data, w, h, yy, xx, k)
  {
    var i := Offset(w, y, x, 0);
    forall yy, xx, k | 0 <= yy < h && 0 <= xx < w && 0 <= k < 4 && (yy != y || xx != x)
      ensures Channel(d, w, h, yy, xx, k) == Channel(data, w, h, yy, xx, k)
    {
      OffsetInBounds(w, h, yy, xx, k);
      var o := Offset(w, yy, xx, k);
      if i <= o < i + 4 {
        var k' := o - i;
        OffsetShift(w, y, x, k');
        OffsetShift(w, y, x, 0);
        OffsetInjective(w, yy, xx, k, y, x, k');
        assert false;
      }
    }
  }

  /** The fill loop of `drawColorbar`: column by column, every row of a column
      receives that column's colour with alpha 255, so the whole buffer is a
      horizontal gradient that does not depend on the row. */
  method FillColorbar(w: nat, h: nat) returns (data: seq<int>)
    requires w != 1
    ensures |data| == 4 * w * h == Offset(w, h, 0, 0)
    ensures forall y, x, k :: 0 <= y < h && 0 <= x < w && 0 <= k < 4 ==>
              Channel(data, w, h, y, x, k) == ColumnPixel(w, x)[k]
  {
    OffsetFormula(w, h, 0, 0);
    data := seq(4 * w * h, _ => 0);
    var x := 0;
    while x < w
      invariant 0 <= x <= w
      invariant |data| == Offset(w, h, 0, 0)
      invariant forall yy, xx, k :: 0 <= yy < h && 0 <= xx < x && 0 <= k < 4 ==>
                  Channel(data, w, h, yy, xx, k) == ColumnPixel(w, xx)[k]
    {
      var c := Heatmap(x as real / (w - 1) as real);
      var y := 0;
      while y < h
        invariant 0 <= y <= h
        invariant |data| == Offset(w, h, 0, 0)
        invariant forall yy, xx, k :: 0 <= yy < h && 0 <= xx < x && 0 <= k < 4 ==>
                    Channel(data, w, h, yy, xx, k) == ColumnPixel(w, xx)[k]
        invariant forall yy, k :: 0 <= yy < y && 0 <= k < 4 ==>
                    Channel(data, w, h, yy, x, k) == ColumnPixel(w, x)[k]
      {
        data := SetPixel(data, w, h, y, x, [c.r, c.g, c.b, 255]);
        y := y + 1;
      }
      x := x + 1;
    }
  }
}
