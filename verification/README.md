# Histo-Preds-Viewer overlay core, modelled in Dafny

This project models the core of a browser viewer for pathology slides. It
covers the viewer's own logic and the offline script that rasterises patch
predictions into the heatmap image. The model is in Dafny 4.11. Everything
is deterministic and pure, and every JavaScript number and numpy float32 is
modelled as a Dafny `real`.

Modules, one per component:

- `Numbers` (numbers.dfy) and `Wrappers` (wrappers.dfy): integer and real
  min/max, clamping to [0, 1], and the `Option` and `Result` types.
- `Url` (url.dfy): `resolveRelative`, which joins a path that starts with `.`
  onto the manifest URL's directory.
- `ColorMap` (colormap.dfy): `ramp` and `heatmapRGB`, the
  jet-like legend colour map. `Math.round(x)` is `Floor(x + 0.5)`.
- `Colorbar` (colorbar.dfy): the fill loop of `drawColorbar`, producing a
  flat row-major RGBA buffer.
- `Overlay` (overlay.dfy): `drawGTOverlay` and `drawFPFNOverlay` as pure
  functions. Each returns the ordered sequence of `(rect, category)` fills a
  redraw makes after clearing its canvas. The viewer is a `View`: its item
  count, the viewport's two corners in image coordinates, and an
  uninterpreted image-to-screen function. Both layers share one render loop,
  `Render`. Each layer supplies a function that culls and classifies a row.
- `Controls` (controls.dfy): the overlay state and the events that change
  it. These are the heatmap toggle and opacity slider, the ground-truth and
  FP/FN toggles with their guards, `setThreshold`, the reset when a slide
  opens, the prediction layer becoming ready, and an index finishing
  loading. Each load is one atomic event.
- `Slides` (slides.dfy): the `test_` slide filter and the manifest checks
  in `openFromManifest`.
- `Rasterize` (rasterize.dfy): make-overlay.py's rasterisation loop, the
  averaging step, and its two colouring functions.

Four behaviours of the code that the model reproduces as they are:

- `heatmapRGB(1)` in app.js (lines 75-85) is `(255, 128, 0)`, an orange,
  not pure red.
- make-overlay.py (lines 13-30) colours with a linear blue-to-red map whose
  green channel is always 0. The viewer's legend uses the jet-like
  `heatmapRGB`. The model does not relate the two.
- Opening a slide in app.js (lines 256-266) keeps `threshold` and
  `overlayVisible`. Only the client-overlay flags, the indices and the
  layer item are reset.
- The FP/FN toggle in app.js (lines 392-400) is refused in both directions
  while there is no non-empty patches index. The ground-truth toggle
  (lines 369-378) is refused only when turning on.

make-overlay.py writes with numpy slices, and a negative slice bound counts
from the far edge of the canvas. The model keeps this: a negative patch
origin or a negative `--patch-size` selects the window numpy selects.

## Model

| member | source | states |
|---|---|---|
| Url.LastIndexOfSlash | app.js:36 | The result is -1 or the position of a slash, and no slash follows it |
| Url.Directory | app.js:36 | The base directory is a prefix of the URL, empty or ending in '/', with no slash left after it |
| Url.DirectoryUnique | app.js:36 | Any prefix with those three properties is the base directory, so the slice is characterised independently of `lastIndexOf` |
| Url.ResolveRelative | app.js:33-38 | Empty paths and paths not starting with '.' come back unchanged; any other path becomes the manifest directory followed by the path minus one leading "./" |
| Url.ResolveAgainstBareName | app.js:33-38 | With a base URL that has no '/', a relative path resolves to itself minus a leading "./" |
| Url.ResolveDotSlash | app.js:37 | "./x" resolves to the manifest directory followed by "x" |
| Url.ParentStepKept | app.js:33-38 | "../x" is not normalised and is appended verbatim |
| Url.OneDotSlashStripped | app.js:37 | Only one leading "./" is removed: "././x" keeps "./x" |
| Numbers.Clamp01 | app.js:68 | The result lies in [0, 1] and equals the input inside that interval; make-overlay.py's `np.clip(v, 0, 1)` is the same function |
| ColorMap.Round | app.js:81-83 | `Math.round` gives the integer within half a unit below or at the input, rounding halves up |
| ColorMap.ToByte | app.js:81-83 | A scaled channel is a byte within half a unit of the clamped value times 255 (so `Math.round` of it); 0 for inputs at most 0 and 255 for inputs at least 1 |
| ColorMap.Heatmap | app.js:75-85 | Every channel is an integer in 0..255 for every real input |
| ColorMap.HeatmapClamped | app.js:76-85 | Inputs at most 0 give the value at 0, which is (0,0,255); inputs at least 1 give the value at 1, which is (255,128,0) |
| ColorMap.RedNonDecreasing | app.js:76-81 | Red never decreases as the value grows |
| ColorMap.BlueNonIncreasing | app.js:76-83 | Blue never increases as the value grows |
| ColorMap.HeatmapPiecewise | app.js:75-85 | On [0,1] the nested ramps equal a piecewise-linear reference: red starts at 1/3 and saturates at 5/6, green peaks at 2/3, blue falls from 1/3 |
| Colorbar.OffsetFormula | app.js:98 | The row-major offset of a pixel channel is `4*(y*w+x)+k` |
| Colorbar.OffsetInBounds | app.js:93-98 | Every channel of every pixel of a w-by-h image lies inside the 4*w*h-byte buffer |
| Colorbar.OffsetInjective | app.js:98 | Different pixel channels never share a buffer offset |
| Colorbar.SetPixel | app.js:98-102 | Writing one pixel sets its four channels and leaves every other pixel alone |
| Colorbar.FillColorbar | app.js:91-104 | The buffer has 4*w*h bytes; every pixel in column x holds `heatmapRGB(x/(w-1))` with alpha 255, whatever its row |
| Colorbar.LegendStartsBlue | app.js:94-96 | The legend's first column is (0,0,255,255) |
| Colorbar.LegendEndsRed | app.js:94-96 | The legend's last column is (255,128,0,255) |
| Overlay.OrDefault | app.js:172 | A missing or zero patch size or scale falls back to its default, and the result is never zero |
| Overlay.PatchSide | app.js:172 | A missing or zero `patch_size` gives 256; any other value is kept (the FP/FN layer reads its index the same way, line 208) |
| Overlay.ProbScale | app.js:209 | A missing or zero `prob_scale` gives 1000; any other value is kept; so the scale is never zero and `q / S` is defined |
| Overlay.VisibleBox | app.js:176-182 | The bounds are the min and max of the two corners' coordinates, and the box is well formed |
| Overlay.VisibleBoxSymmetric | app.js:179-182 | Swapping the viewport corners gives the same visible box |
| Overlay.MeetsIffIntersects | app.js:191 | For a square of non-negative side, the cull keeps it exactly when the closed intervals [x,x+P] and [y,y+P] meet the visible box |
| Overlay.Render | app.js:189-198 | Every fill comes from some row and is at least half a pixel in both dimensions; every row that marks and projects large enough is filled; there are no more fills than rows |
| Overlay.RenderConcat | app.js:189-198 | Fills keep index order: rendering a concatenation is concatenating the renderings |
| Overlay.DrawGT | app.js:167-200 | A hidden layer, a missing index or an empty viewer draws nothing; otherwise exactly the tumour rows `[y,x]` that meet the box are drawn, as ground-truth fills of the screen image of (x, y, P, P), if at least half a pixel |
| Overlay.Classify | app.js:230-236 | FP exactly when q/S is at least tau without ground truth; FN exactly when q/S is below tau with ground truth; true positives and true negatives give nothing; the two classes are exclusive |
| Overlay.ClassifyMonotone | app.js:233-236 | Raising tau can only turn an FP into nothing and can only create FNs |
| Overlay.DrawGTConcat | app.js:189-198 | The ground-truth layer draws row by row in index order: drawing rows `a + b` is drawing `a` then `b`, and one row gives at most one fill |
| Overlay.DrawFPFN | app.js:203-253 | Same gating as the ground-truth layer; otherwise exactly the visible, drawable rows classified FP or FN are drawn, in their class, at (x, y, P, P) |
| Overlay.DrawFPFNConcat | app.js:226-251 | The FP/FN layer draws row by row in index order, so later rows paint over earlier ones: drawing rows `a + b` is drawing `a` then `b`, and one row gives at most one fill |
| Overlay.ThresholdMonotone | app.js:226-239 | Every FP fill at the higher threshold is drawn at the lower one; every FN fill at the lower threshold is drawn at the higher one |
| Controls.ToggleHeatmap | app.js:360-363 | The heatmap flag flips; an existing layer gets the slider value when shown and 0 when hidden; nothing else changes |
| Controls.OpacityInput | app.js:364-366 | The slider reaches the layer only while it exists and is shown; otherwise the state is unchanged |
| Controls.InitialOpacity | app.js:294 | An unreadable or zero slider gives 0.5; any other slider value is used as it is; the result is never 0 |
| Controls.LayerAddedAsWritten | app.js:291-297 | The new slide's layer takes the slider opacity, and nothing else changes |
| Controls.LayerAddedAsWrittenShowsHiddenHeatmap | app.js:291-297 | Counterexample: with the heatmap toggled off, opening a slide makes its layer visible at opacity 0.5 |
| Controls.LayerAdded | app.js:291-297 | Corrected: the new layer takes the slider opacity when the heatmap is shown and 0 when it is hidden |
| Controls.ToggleGT | app.js:369-378 | Turning on is refused, with the non-tumour notice, exactly when the index is missing or has no tumour rows; a refused click changes nothing; an accepted click flips only the ground-truth flag; turning off is always accepted |
| Controls.ToggleFPFN | app.js:392-400 | Refused in either direction, with its notice, exactly when there is no non-empty patches index; a refused click changes nothing; otherwise only the FP/FN flag flips |
| Controls.ClampThreshold | app.js:382 | The stored threshold is in [0,1]: a non-numeric input gives 0, an in-range input is kept, and other inputs are clamped |
| Controls.SetThreshold | app.js:381-386 | The threshold becomes the clamped input (0 for a non-numeric one) and lies in [0,1]; nothing else changes |
| Controls.SetThresholdIdempotent | app.js:382 | Setting the threshold to the value just stored changes nothing |
| Controls.OpenSlide | app.js:258-266 | Opening a slide drops the layer item, hides both client overlays and clears both indices; the threshold and the heatmap flag carry over |
| Controls.OpenSlideClearsOverlays | app.js:260-266 | Right after a slide opens, both overlay redraws are empty for every viewport |
| Controls.GTIndexLoaded | app.js:300-307 | A loaded ground-truth index replaces the old one; a failed fetch changes nothing |
| Controls.PatchesIndexLoaded | app.js:310-317 | A loaded patches index replaces the old one; a failed fetch changes nothing |
| Controls.InitialConsistent | app.js:8-22 | The initial state is consistent |
| Controls.StepConsistent | app.js:256-400 | Every event preserves consistency: a shown client overlay has an index, a hidden heatmap is transparent, and the threshold is in [0,1] |
| Controls.RunConsistent | app.js:256-400 | Consistency holds after any sequence of events |
| Controls.StepKeepsTumour | app.js:369-378 | A shown ground-truth layer keeps tumour rows to draw under every event, unless a load replaces them with an empty list while it is shown |
| Controls.StepKeepsPatches | app.js:392-400 | A shown FP/FN layer keeps patch rows to draw under every event, unless a load replaces them with an empty list while it is shown |
| Slides.FilterTestSlides | app.js:414 | The kept entries are exactly those whose `id \|\| name \|\| ""` starts with "test_" |
| Slides.FilterConcat | app.js:414 | The filter keeps relative order: filtering a concatenation is concatenating the filtered parts |
| Slides.FilterIdempotent | app.js:414 | Filtering twice equals filtering once |
| Slides.SelectSlides | app.js:411-415 | A missing or empty index is fatal, and so is an index without a test slide; otherwise the non-empty filtered list is offered |
| Slides.OptionalLocation | app.js:274-283 | An optional index location is present exactly when the field is a non-empty string, and it is then resolved |
| Slides.OpenManifest | app.js:272-283 | A missing base pyramid fails first, then a missing overlay; the open succeeds exactly when both are present, with every location resolved against the manifest URL |
| Slides.AbsoluteLocationsKept | app.js:272-283 | Locations not starting with '.' pass through unchanged, and the optional indices never make an open fail |
| Rasterize.Zip | make-overlay.py:63 | Patches and probabilities are paired index by index, up to the shorter list |
| Rasterize.ZipIgnoresSurplus | make-overlay.py:63 | Surplus probabilities beyond the last patch do not change the pairing |
| Rasterize.SkippedPatchContributesNothing | make-overlay.py:64-66 | A patch whose origin has y0 >= H2 or x0 >= W2 adds nothing to any pixel's count or sum |
| Rasterize.SliceBound | make-overlay.py:68-69 | A slice bound in `[0, n]` is kept, a larger one becomes `n`, a negative one counts from the end, and one below `-n` becomes 0 |
| Rasterize.CoveredPixelsOnCanvas | make-overlay.py:67-69 | Every pixel a patch covers lies on the canvas |
| Rasterize.CoversSquare | make-overlay.py:67-69 | For a non-negative origin and patch size, a patch covers exactly its square clipped to the canvas |
| Rasterize.NegativePatchSizeWraps | make-overlay.py:67-69 | With `--patch-size -3` a patch at (0,0) on a 10 by 10 canvas still covers the first seven rows and columns |
| Rasterize.NegativeOriginWraps | make-overlay.py:64-69 | A size-256 patch at (-5,-5) on a 100 by 100 canvas covers the last five rows and columns, not the corner it overlaps |
| Rasterize.AddPatch | make-overlay.py:67-69 | The slice update adds the probability and one count to exactly the cells of the clipped window |
| Rasterize.Rasterize | make-overlay.py:57-69 | Each pixel's count is the number of accepted patches whose slice window contains it, and its sum is the total of their probabilities |
| Rasterize.UncoveredSumIsZero | make-overlay.py:57-73 | A pixel no patch covers keeps a zero sum, so averaging leaves it at 0 |
| Rasterize.Scaled | make-overlay.py:16 | Scaling and truncating to uint8 gives the integer part of the clipped value times the scale |
| Rasterize.BlueRed | make-overlay.py:15-18 | Red is the truncated clipped value times 255, green is always 0, and blue is 255 minus red |
| Rasterize.ValueAlphaPixel | make-overlay.py:13-20 | Value mode: red is the truncated clipped value times 255, blue its complement, green 0, and alpha the truncated clipped value times 200 |
| Rasterize.MaskAlphaPixel | make-overlay.py:22-30 | Mask mode: red is the truncated clipped value times 255, blue its complement, green 0, and alpha `opacity` on covered pixels and 0 elsewhere |
| Rasterize.ModesShareColour | make-overlay.py:13-30 | The two alpha modes differ only in alpha |
| Rasterize.ColourMonotone | make-overlay.py:15-19 | Red and value-mode alpha never decrease, and blue never increases, as the value grows |
| Rasterize.MakeOverlay | make-overlay.py:57-83 | Each output pixel is coloured by the mean probability of the patches covering it, or 0 where none does; in mask mode exactly the covered pixels are opaque |

## Findings

| source | as written | input that shows it | evidently intended | confidence | as-written member | corrected member |
|---|---|---|---|---|---|---|
| app.js:291-297 | When a slide opens, its new prediction layer gets the slider's opacity even if the heatmap toggle is off | Toggle the heatmap off, then open another slide: the layer loads at opacity 0.5 while `overlayVisible` is false, and the next click on the toggle keeps it shown | A hidden heatmap stays transparent (opacity 0) until it is toggled on, as the toggle handler at app.js:360-363 ensures | medium, not executed | Controls.LayerAddedAsWrittenShowsHiddenHeatmap | Controls.LayerAdded |

`Controls.Step` uses the corrected `Controls.LayerAdded`. `Controls.RunConsistent`
proves that a hidden heatmap stays transparent after any sequence of events.
`Controls.LayerAddedAsWritten` keeps the behaviour of the code as written.

## Left out

- JSON fetching and parsing (`getJSON`, app.js:25-31) are network I/O. A fetch's outcome enters the model as an `Option`, with `None` for a failed load.
- Status text, toasts, the FP/FN legend widget, the drawer, and canvas creation, sizing and `ResizeObserver` (app.js:40-65, 109-157, 336-356) are DOM glue. A refused toggle is modelled as its `Notice` value.
- Fill colours, stroke styles and alpha values of the overlay canvases are presentation only. A fill carries only its category.
- The `!gtCtx` / `!fpfnCanvas` guards (app.js:168, 204) are left out, because `init` always creates both canvases first.
- Which viewer events trigger a redraw (app.js:403-406) is left out. A redraw is a pure function of the state and the view at the moment it runs.
- The async `addOnceHandler("open")` sequencing and the stale-index race between slides (app.js:286-318) are event interleaving. Each load is one atomic event, and results from a superseded slide are not told apart.
- OpenSeadragon calls are foreign code: `getBounds`, `viewportToImageCoordinates`, `imageToViewportRectangle`, `viewportToViewerElementCoordinates` (app.js:159-164, 176-178, 213-215), `viewer.open` and `addTiledImage`. The view supplies the corners and the conversion; the layer is the `layerOpacity` field.
- Populating the slide dropdown and the option labels (app.js:417-427) is presentation. `SelectSlides` yields the list whose first entry is opened.
- Threshold text formatting with `toFixed(2)` (app.js:383-384) is presentation.
- IEEE-754 behaviour is left out: NaN, infinities, rounding of `q / S`, float32 sums and averages. JavaScript's `n || d` on a NaN field is not modelled.
- Colorbar.FillColorbar: requires `w != 1`, because a one-pixel-wide legend divides by zero at app.js:95.
- Rasterize.MaskAlphaPixel: requires `0 <= opacity <= 255`. Converting an out-of-range `--opacity` with `np.uint8` depends on the numpy version.
- Pickle loading, the `level == 2` assertion, DZI XML reading, argparse and the PIL save (make-overlay.py:7-11, 32-56, 85-87) are I/O. The canvas size, patch size, origins, probabilities and alpha mode are parameters.
- Patch origins are the integers `int(y)`, `int(x)`. Truncating fractional coordinates is left out.
- Counts are natural numbers rather than float32.
