/** The two client-side annotation layers (app.js `drawGTOverlay`,
    `drawFPFNOverlay`), written as pure functions. A redraw is modelled as the
    ordered sequence of rectangles it would fill after clearing its canvas.
    The viewer is seen only through a `View`: how many images it holds, the
    two corners of its viewport already converted to image coordinates, and an
    uninterpreted image-to-screen conversion. */
module Overlay {
  import opened Wrappers
  import opened Numbers

  datatype Point = Point(x: real, y: real)

  /** An axis-aligned rectangle: left, top, width, height. */
  datatype Rect = Rect(x: real, y: real, w: real, h: real)

  /** The visible region in image coordinates, with ordered bounds. */
  datatype Box = Box(minX: real, maxX: real, minY: real, maxY: real)

  datatype Category = GroundTruth | FalsePositive | FalseNegative

  /** One `fillRect` on an overlay canvas: a screen rectangle and its colour class. */
  datatype Fill = Fill(rect: Rect, category: Category)

  /** An image-space square chosen for drawing, before projection to the screen. */
  datatype Mark = Mark(area: Rect, category: Category)

  /** What a redraw reads from the viewer. */
  datatype View = View(itemCount: nat, topLeft: Point, bottomRight: Point, toScreen: Rect -> Rect)

  /** One `[y, x]` row of the ground-truth index's `tumour` list. */
  datatype TumourRow = TumourRow(y: real, x: real)

  /** The ground-truth index; an absent `tumour` list is the empty one. */
  datatype GroundTruthIndex = GroundTruthIndex(patchSize: Option<real>, tumour: seq<TumourRow>)

  /** One `[y, x, q, t]` row of the patches index: origin, quantised
      probability and ground-truth flag. */
  datatype PatchRow = PatchRow(y: real, x: real, q: real, truth: bool)

  /** The patches index; an absent `patches` list is the empty one. */
  datatype PatchesIndex = PatchesIndex(patchSize: Option<real>, probScale: Option<real>, patches: seq<PatchRow>)

  /** JavaScript `n || d` on a number field: a missing or zero value gives the default. */
  function OrDefault(n: Option<real>, d: real): (r: real)
    requires d != 0.0
    ensures r != 0.0
    ensures n.None? || n == Some(0.0) ==> r == d
    ensures n.Some? && n.value != 0.0 ==> r == n.value
  {
    if n.None? || n.value == 0.0 then d else n.value
  }

  /** The side of a patch, `index.patch_size || 256`, shared by both
      layers. */
  function PatchSide(size: Option<real>): (p: real)
    ensures size.None? || size == Some(0.0) ==> p == 256.0
    ensures size.Some? && size.value != 0.0 ==> p == size.value
  {
    OrDefault(size, 256.0)
  }

  /** `patchesIndex.prob_scale || 1000`; never zero, so `q / S` is defined. */
  function ProbScale(index: PatchesIndex): (s: real)
    ensures s != 0.0
    ensures index.probScale.None? || index.probScale == Some(0.0) ==> s == 1000.0
    ensures index.probScale.Some? && index.probScale.value != 0.0 ==> s == index.probScale.value
  {
    OrDefault(index.probScale, 1000.0)
  }

  // ---------- geometry ----------

  /** The visible box spanned by the two viewport corners, whichever way
      round they come. */
  function VisibleBox(a: Point, b: Point): (box: Box)
    ensures box.minX <= box.maxX && box.minY <= box.maxY
    ensures box.minX <= a.x && box.minX <= b.x && (box.minX == a.x || box.minX == b.x)
    ensures box.maxX >= a.x && box.maxX >= b.x && (box.maxX == a.x || box.maxX == b.x)
    ensures box.minY <= a.y && box.minY <= b.y && (box.minY == a.y || box.minY == b.y)
    ensures box.maxY >= a.y && box.maxY >= b.y && (box.maxY == a.y || box.maxY == b.y)
  {
    Box(MinReal(a.x, b.x), MaxReal(a.x, b.x), MinReal(a.y, b.y), MaxReal(a.y, b.y))
  }

  /** Swapping the corners does not change the visible box. */
  lemma VisibleBoxSymmetric(a: Point, b: Point)
    ensures VisibleBox(a, b) == VisibleBox(b, a)
  {
  }

  /** The culling test of both renderers, applied to a square of side `p`
      whose top-left corner is (`x`, `y`). */
  predicate Meets(box: Box, x: real, y: real, p: real) {
    !(x > box.maxX || x + p < box.minX || y > box.maxY || y + p < box.minY)
  }

  predicate InClosed(v: real, lo: real, hi: real) {
    lo <= v <= hi
  }

  /** For a square of non-negative side, the culling test keeps it exactly
      when the closed intervals [x, x+p] and [y, y+p] meet the box's. */
  lemma MeetsIffIntersects(box: Box, x: real, y: real, p: real)
    requires box.minX <= box.maxX && box.minY <= box.maxY
    requires p >= 0.0
    ensures Meets(box, x, y, p) <==>
              (exists u :: InClosed(u, x, x + p) && InClosed(u, box.minX, box.maxX)) &&
              (exists v :: InClosed(v, y, y + p) && InClosed(v, box.minY, box.maxY))
  {
    if Meets(box, x, y, p) {
      var u := MaxReal(x, box.minX);
      assert InClosed(u, x, x + p) && InClosed(u, box.minX, box.maxX);
      var v := MaxReal(y, box.minY);
      assert InClosed(v, y, y + p) && InClosed(v, box.minY, box.maxY);
    }
  }

  /** Screen rectangles narrower or shorter than half a pixel are not drawn. */
  predicate Drawable(r: Rect) {
    !(r.w < 0.5 || r.h < 0.5)
  }

  /** The fill a mark produces on screen, if it is large enough to draw. */
  function Project(m: Option<Mark>, toScreen: Rect -> Rect): Option<Fill> {
    match m
    case None => None
    case Some(mk) =>
      var r := toScreen(mk.area);
      if r.w < 0.5 || r.h < 0.5 then None else Some(Fill(r, mk.category))
  }

  // ---------- the shared render loop ----------

  /** The loop body shared by both renderers: for each row in index order,
      `mark` decides whether and how it is drawn in image space, and the
      projected rectangle is filled unless it is sub-pixel. Every fill comes
      from some row, is drawable, and every row whose mark projects to a
      drawable rectangle is filled. */
  function Render<R>(rows: seq<R>, mark: R -> Option<Mark>, toScreen: Rect -> Rect): (out: seq<Fill>)
    ensures |out| <= |rows|
    ensures forall f :: f in out ==> Drawable(f.rect)
    ensures forall f :: f in out ==> exists i :: 0 <= i < |rows| && Project(mark(rows[i]), toScreen) == Some(f)
    ensures forall i :: 0 <= i < |rows| && Project(mark(rows[i]), toScreen).Some? ==>
              Project(mark(rows[i]), toScreen).value in out
  {
    if |rows| == 0 then []
    else
      var head := match Project(mark(rows[0]), toScreen)
        case None => []
        case Some(f) => [f];
      var tail := Render(rows[1..], mark, toScreen);
      assert forall i :: 1 <= i < |rows| ==> rows[i] == rows[1..][i - 1];
      head + tail
  }

  /** Fills keep index order: rendering two runs of rows one after the other
      is rendering their concatenation. */
  lemma {:induction false} RenderConcat<R>(a: seq<R>, b: seq<R>, mark: R -> Option<Mark>, toScreen: Rect -> Rect)
    ensures Render(a + b, mark, toScreen) == Render(a, mark, toScreen) + Render(b, mark, toScreen)
  {
    if |a| > 0 {
      assert (a + b)[1..] == a[1..] + b;
      RenderConcat(a[1..], b, mark, toScreen);
    } else {
      assert a + b == b;
    }
  }

  // ---------- ground-truth layer ----------

  /** A tumour row `[y, x]` is culled against the box and drawn as the square
      (x, y, P, P): the index order is transposed into canvas order. */
  function GTMark(row: TumourRow, p: real, box: Box): Option<Mark> {
    if Meets(box, row.x, row.y, p) then Some(Mark(Rect(row.x, row.y, p, p), GroundTruth)) else None
  }

  /** The ground-truth row `i` is drawn, and as `f`. */
  predicate GTDraws(index: GroundTruthIndex, view: View, i: int, f: Fill)
    requires 0 <= i < |index.tumour|
  {
    var row := index.tumour[i];
    var p := PatchSide(index.patchSize);
    && Meets(VisibleBox(view.topLeft, view.bottomRight), row.x, row.y, p)
    && f == Fill(view.toScreen(Rect(row.x, row.y, p, p)), GroundTruth)
    && Drawable(f.rect)
  }

  /** `drawGTOverlay`: nothing when the layer is hidden, no index is loaded or
      the viewer is empty; otherwise exactly the tumour squares that meet the
      visible box and project to at least half a pixel, as ground-truth fills. */
  function DrawGT(visible: bool, index: Option<GroundTruthIndex>, view: View): (out: seq<Fill>)
    ensures !visible || index.None? || view.itemCount == 0 ==> out == []
    ensures forall f :: f in out ==>
              && index.Some? && f.category == GroundTruth
              && exists i :: 0 <= i < |index.value.tumour| && GTDraws(index.value, view, i, f)
    ensures visible && index.Some? && view.itemCount > 0 ==>
              forall i, f :: 0 <= i < |index.value.tumour| && GTDraws(index.value, view, i, f) ==> f in out
  {
    if !visible || index.None? || view.itemCount == 0 then []
    else
      var idx := index.value;
      var box := VisibleBox(view.topLeft, view.bottomRight);
      var p := PatchSide(idx.patchSize);
      var mark := row => GTMark(row, p, box);
      var out := Render(idx.tumour, mark, view.toScreen);
      assert forall i, f :: 0 <= i < |idx.tumour| ==>
               (Project(mark(idx.tumour[i]), view.toScreen) == Some(f) <==> GTDraws(idx, view, i, f));
      out
  }

  /** The ground-truth layer fills in index order, one fill at most per row:
      drawing the rows `a + b` is drawing `a` and then drawing `b`. */
  lemma DrawGTConcat(visible: bool, index: GroundTruthIndex, a: seq<TumourRow>, b: seq<TumourRow>, view: View)
    ensures DrawGT(visible, Some(index.(tumour := a + b)), view) ==
              DrawGT(visible, Some(index.(tumour := a)), view) + DrawGT(visible, Some(index.(tumour := b)), view)
    ensures forall row :: |DrawGT(visible, Some(index.(tumour := [row])), view)| <= 1
  {
    var box := VisibleBox(view.topLeft, view.bottomRight);
    var p := PatchSide(index.patchSize);
    RenderConcat(a, b, row => GTMark(row, p, box), view.toScreen);
  }

  // ---------- FP/FN layer ----------

  /** Classification of one patch against the threshold `tau`: a predicted
      positive (`q / s >= tau`) without ground truth is a false positive, a
      predicted negative with ground truth a false negative, and true
      positives and true negatives are not drawn. */
  function Classify(q: real, s: real, tau: real, truth: bool): (c: Option<Category>)
    requires s != 0.0
    ensures c == Some(FalsePositive) <==> q / s >= tau && !truth
    ensures c == Some(FalseNegative) <==> q / s < tau && truth
    ensures c.None? <==> (q / s >= tau) == truth
    ensures c != Some(GroundTruth)
  {
    var predPos := q / s >= tau;
    if predPos && !truth then Some(FalsePositive)
    else if !predPos && truth then Some(FalseNegative)
    else None
  }

  /** Raising the threshold can only remove false positives and only add
      false negatives. */
  lemma ClassifyMonotone(q: real, s: real, tau1: real, tau2: real, truth: bool)
    requires s != 0.0 && tau1 <= tau2
    ensures Classify(q, s, tau2, truth) == Some(FalsePositive) ==> Classify(q, s, tau1, truth) == Some(FalsePositive)
    ensures Classify(q, s, tau1, truth) == Some(FalseNegative) ==> Classify(q, s, tau2, truth) == Some(FalseNegative)
  {
  }

  function FPFNMark(row: PatchRow, p: real, s: real, tau: real, box: Box): Option<Mark>
    requires s != 0.0
  {
    if !Meets(box, row.x, row.y, p) then None
    else match Classify(row.q, s, tau, row.truth)
      case None => None
      case Some(c) => Some(Mark(Rect(row.x, row.y, p, p), c))
  }

  /** The patch row `i` is drawn at threshold `tau`, and as `f`. */
  predicate FPFNDraws(index: PatchesIndex, tau: real, view: View, i: int, f: Fill)
    requires 0 <= i < |index.patches|
  {
    var row := index.patches[i];
    var p := PatchSide(index.patchSize);
    && Meets(VisibleBox(view.topLeft, view.bottomRight), row.x, row.y, p)
    && Classify(row.q, ProbScale(index), tau, row.truth) == Some(f.category)
    && f.rect == view.toScreen(Rect(row.x, row.y, p, p))
    && Drawable(f.rect)
  }

  /** `drawFPFNOverlay`: nothing when the layer is hidden, no index is loaded
      or the viewer is empty; otherwise exactly the visible, drawable patches
      that are false positives or false negatives at `tau`, in their class. */
  function DrawFPFN(visible: bool, index: Option<PatchesIndex>, tau: real, view: View): (out: seq<Fill>)
    ensures !visible || index.None? || view.itemCount == 0 ==> out == []
    ensures forall f :: f in out ==>
              && index.Some? && f.category != GroundTruth
              && exists i :: 0 <= i < |index.value.patches| && FPFNDraws(index.value, tau, view, i, f)
    ensures visible && index.Some? && view.itemCount > 0 ==>
              forall i, f :: 0 <= i < |index.value.patches| && FPFNDraws(index.value, tau, view, i, f) ==> f in out
  {
    if !visible || index.None? || view.itemCount == 0 then []
    else
      var idx := index.value;
      var box := VisibleBox(view.topLeft, view.bottomRight);
      var p := PatchSide(idx.patchSize);
      var s := ProbScale(idx);
      var mark := row => FPFNMark(row, p, s, tau, box);
      var out := Render(idx.patches, mark, view.toScreen);
      assert forall i, f :: 0 <= i < |idx.patches| ==>
               (Project(mark(idx.patches[i]), view.toScreen) == Some(f) <==> FPFNDraws(idx, tau, view, i, f));
      out
  }

  /** The FP/FN layer fills in index order, one fill at most per row, so a
      later row's colour lies over an earlier one's: drawing the rows `a + b`
      is drawing `a` and then drawing `b`. */
  lemma DrawFPFNConcat(visible: bool, index: PatchesIndex, a: seq<PatchRow>, b: seq<PatchRow>, tau: real, view: View)
    ensures DrawFPFN(visible, Some(index.(patches := a + b)), tau, view) ==
              DrawFPFN(visible, Some(index.(patches := a)), tau, view) + DrawFPFN(visible, Some(index.(patches := b)), tau, view)
    ensures forall row :: |DrawFPFN(visible, Some(index.(patches := [row])), tau, view)| <= 1
  {
    var box := VisibleBox(view.topLeft, view.bottomRight);
    var p := PatchSide(index.patchSize);
    var s := ProbScale(index);
    RenderConcat(a, b, row => FPFNMark(row, p, s, tau, box), view.toScreen);
  }

  /** Raising the threshold from `tau1` to `tau2` can only remove false
      positive fills and only add false negative fills. */
  lemma ThresholdMonotone(visible: bool, index: Option<PatchesIndex>, tau1: real, tau2: real, view: View)
    requires tau1 <= tau2
    ensures forall f :: f in DrawFPFN(visible, index, tau2, view) && f.category == FalsePositive ==>
              f in DrawFPFN(visible, index, tau1, view)
    ensures forall f :: f in DrawFPFN(visible, index, tau1, view) && f.category == FalseNegative ==>
              f in DrawFPFN(visible, index, tau2, view)
  {
    forall f | f in DrawFPFN(visible, index, tau2, view) && f.category == FalsePositive
      ensures f in DrawFPFN(visible, index, tau1, view)
    {
      var i :| 0 <= i < |index.value.patches| && FPFNDraws(index.value, tau2, view, i, f);
      var row := index.value.patches[i];
      ClassifyMonotone(row.q, ProbScale(index.value), tau1, tau2, row.truth);
      assert FPFNDraws(index.value, tau1, view, i, f);
    }
    forall f | f in DrawFPFN(visible, index, tau1, view) && f.category == FalseNegative
      ensures f in DrawFPFN(visible, index, tau2, view)
    {
      var i :| 0 <= i < |index.value.patches| && FPFNDraws(index.value, tau1, view, i, f);
      var row := index.value.patches[i];
      ClassifyMonotone(row.q, ProbScale(index.value), tau1, tau2, row.truth);
      assert FPFNDraws(index.value, tau2, view, i, f);
    }
  }
}
