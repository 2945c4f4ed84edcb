/** The overlay state of the viewer and the events that change it (app.js
    toggle handlers, `setThreshold`, the reset at the start of
    `openFromManifest`, and the asynchronous loads that follow it, each taken
    as one atomic event). */
module Controls {
  import opened Wrappers
  import opened Numbers
  import opened Overlay

  /** `layerOpacity` is the opacity of the tiled prediction layer, or `None`
      while there is no layer item (`overlayItem === null`). */
  datatype State = State(
    overlayVisible: bool,
    layerOpacity: Option<real>,
    gtVisible: bool,
    gtIndex: Option<GroundTruthIndex>,
    fpfnVisible: bool,
    patchesIndex: Option<PatchesIndex>,
    threshold: real)

  /** The module-level initial values; `init` re-applies `setThreshold(0.5)`,
      which keeps 0.5. */
  const Initial: State := State(true, None, false, None, false, None, 0.5)

  /** The transient notices a refused toggle shows. */
  datatype Notice = NonTumourSlide | NoPatchIndex

  /** A handler's new state and the notice it shows, if any. */
  datatype Reaction = Reaction(state: State, notice: Option<Notice>)

  // ---------- prediction heatmap ----------

  /** The heatmap toggle: flips `overlayVisible`; an existing layer gets the
      slider's opacity when shown and 0 when hidden. */
  function ToggleHeatmap(st: State, slider: real): (st': State)
    ensures st'.overlayVisible == !st.overlayVisible
    ensures st'.layerOpacity.Some? <==> st.layerOpacity.Some?
    ensures st'.layerOpacity.Some? ==> st'.layerOpacity.value == (if st'.overlayVisible then slider else 0.0)
    ensures st' == st.(overlayVisible := st'.overlayVisible, layerOpacity := st'.layerOpacity)
  {
    var visible := !st.overlayVisible;
    st.(overlayVisible := visible,
        layerOpacity := if st.layerOpacity.Some? then Some(if visible then slider else 0.0) else None)
  }

  /** The opacity slider only reaches the layer while it exists and is shown. */
  function OpacityInput(st: State, value: real): (st': State)
    ensures st.layerOpacity.Some? && st.overlayVisible ==> st' == st.(layerOpacity := Some(value))
    ensures !(st.layerOpacity.Some? && st.overlayVisible) ==> st' == st
  {
    if st.layerOpacity.Some? && st.overlayVisible then st.(layerOpacity := Some(value)) else st
  }

  /** `parseFloat(slider.value) || 0.5`: an unreadable or zero slider gives 0.5. */
  function InitialOpacity(slider: Option<real>): (o: real)
    ensures o != 0.0
    ensures slider.None? || slider == Some(0.0) ==> o == 0.5
    ensures slider.Some? && slider.value != 0.0 ==> o == slider.value
  {
    OrDefault(slider, 0.5)
  }

  /** The prediction layer finishing loading for a new slide, as written: it
      takes the slider's opacity whether or not the heatmap is toggled off. */
  function LayerAddedAsWritten(st: State, slider: Option<real>): (st': State)
    ensures st'.layerOpacity == Some(InitialOpacity(slider))
    ensures st' == st.(layerOpacity := st'.layerOpacity)
  {
    st.(layerOpacity := Some(InitialOpacity(slider)))
  }

  /** The prediction layer finishing loading, respecting the toggle: a hidden
      heatmap starts at opacity 0. */
  function LayerAdded(st: State, slider: Option<real>): (st': State)
    ensures st'.layerOpacity.Some?
    ensures st'.overlayVisible ==> st'.layerOpacity.value == InitialOpacity(slider)
    ensures !st'.overlayVisible ==> st'.layerOpacity.value == 0.0
    ensures st' == st.(layerOpacity := st'.layerOpacity)
  {
    st.(layerOpacity := Some(if st.overlayVisible then InitialOpacity(slider) else 0.0))
  }

  /** A hidden heatmap has no visible layer. */
  predicate HeatmapHiddenMeansTransparent(st: State) {
    st.layerOpacity.Some? && !st.overlayVisible ==> st.layerOpacity.value == 0.0
  }

  /** As written, the new layer of a slide opened while the heatmap is toggled
      off is shown anyway. */
  lemma LayerAddedAsWrittenShowsHiddenHeatmap()
    ensures var st := LayerAddedAsWritten(OpenSlide(Initial.(overlayVisible := false)), Some(0.5));
            !st.overlayVisible && st.layerOpacity == Some(0.5) && !HeatmapHiddenMeansTransparent(st)
  {
  }

  // ---------- ground truth ----------

  /** The ground-truth index is loaded and lists at least one tumour patch. */
  predicate HasTumour(st: State) {
    st.gtIndex.Some? && |st.gtIndex.value.tumour| > 0
  }

  /** The ground-truth toggle: turning on is refused with a notice when there
      is no index or it lists no tumour; turning off is always allowed. A
      refused click changes nothing; an accepted one flips only `gtVisible`. */
  function ToggleGT(st: State): (r: Reaction)
    ensures r.notice.Some? <==> !st.gtVisible && !HasTumour(st)
    ensures r.notice.Some? ==> r.notice == Some(NonTumourSlide) && r.state == st
    ensures r.notice.None? ==> r.state == st.(gtVisible := !st.gtVisible)
  {
    if !st.gtVisible && (st.gtIndex.None? || |st.gtIndex.value.tumour| == 0) then
      Reaction(st, Some(NonTumourSlide))
    else
      Reaction(st.(gtVisible := !st.gtVisible), None)
  }

  // ---------- FP/FN ----------

  /** The patches index is loaded and has at least one row. */
  predicate HasPatches(st: State) {
    st.patchesIndex.Some? && |st.patchesIndex.value.patches| > 0
  }

  /** The FP/FN toggle: refused in either direction while there is no
      non-empty patches index; otherwise flips only `fpfnVisible`. */
  function ToggleFPFN(st: State): (r: Reaction)
    ensures r.notice.Some? <==> !HasPatches(st)
    ensures r.notice.Some? ==> r.notice == Some(NoPatchIndex) && r.state == st
    ensures r.notice.None? ==> r.state == st.(fpfnVisible := !st.fpfnVisible)
  {
    if st.patchesIndex.None? || |st.patchesIndex.value.patches| == 0 then
      Reaction(st, Some(NoPatchIndex))
    else
      Reaction(st.(fpfnVisible := !st.fpfnVisible), None)
  }

  /** `Math.min(1, Math.max(0, Number(v) || 0))`: a non-numeric input reads as 0. */
  function ClampThreshold(v: Option<real>): (t: real)
    ensures 0.0 <= t <= 1.0
    ensures v.None? ==> t == 0.0
    ensures v.Some? && 0.0 <= v.value <= 1.0 ==> t == v.value
    ensures v.Some? && v.value < 0.0 ==> t == 0.0
    ensures v.Some? && v.value > 1.0 ==> t == 1.0
  {
    Clamp01(if v.None? then 0.0 else v.value)
  }

  /** `setThreshold`: stores the clamped value and changes nothing else. The
      FP/FN redraw it triggers reads the new threshold (see `DrawFPFN`). */
  function SetThreshold(st: State, v: Option<real>): (st': State)
    ensures 0.0 <= st'.threshold <= 1.0
    ensures st'.threshold == ClampThreshold(v)
    ensures st' == st.(threshold := st'.threshold)
  {
    st.(threshold := ClampThreshold(v))
  }

  /** Setting the threshold to the value just stored changes nothing. */
  lemma SetThresholdIdempotent(st: State, v: Option<real>)
    ensures var st' := SetThreshold(st, v);
            SetThreshold(st', Some(st'.threshold)) == st'
  {
  }

  // ---------- slide switching ----------

  /** The reset at the start of `openFromManifest`: no layer item, both
      client overlays hidden and both indices cleared; the heatmap toggle and
      the threshold carry over. */
  function OpenSlide(st: State): (st': State)
    ensures st'.layerOpacity.None?
    ensures !st'.gtVisible && !st'.fpfnVisible
    ensures st'.gtIndex.None? && st'.patchesIndex.None?
    ensures st'.overlayVisible == st.overlayVisible && st'.threshold == st.threshold
  {
    st.(layerOpacity := None, gtVisible := false, gtIndex := None,
        fpfnVisible := false, patchesIndex := None)
  }

  /** Right after a slide switch both client overlays redraw to nothing,
      whatever the viewport. */
  lemma OpenSlideClearsOverlays(st: State, view: View)
    ensures var st' := OpenSlide(st);
            DrawGT(st'.gtVisible, st'.gtIndex, view) == [] &&
            DrawFPFN(st'.fpfnVisible, st'.patchesIndex, st'.threshold, view) == []
  {
  }

  /** The ground-truth index arriving; a failed fetch (`None`) leaves the
      state as it was. */
  function GTIndexLoaded(st: State, fetched: Option<GroundTruthIndex>): (st': State)
    ensures fetched.Some? ==> st' == st.(gtIndex := fetched)
    ensures fetched.None? ==> st' == st
  {
    if fetched.Some? then st.(gtIndex := fetched) else st
  }

  /** The patches index arriving; a failed fetch leaves the state as it was. */
  function PatchesIndexLoaded(st: State, fetched: Option<PatchesIndex>): (st': State)
    ensures fetched.Some? ==> st' == st.(patchesIndex := fetched)
    ensures fetched.None? ==> st' == st
  {
    if fetched.Some? then st.(patchesIndex := fetched) else st
  }

  // ---------- the event loop ----------

  datatype Event =
    | HeatmapClicked(slider: real)
    | OpacityChanged(value: real)
    | GTClicked
    | FPFNClicked
    | ThresholdChanged(input: Option<real>)
    | SlideOpened
    | LayerReady(sliderText: Option<real>)
    | GTIndexArrived(gt: Option<GroundTruthIndex>)
    | PatchesIndexArrived(patches: Option<PatchesIndex>)

  function Step(st: State, e: Event): State {
    match e
    case HeatmapClicked(s) => ToggleHeatmap(st, s)
    case OpacityChanged(v) => OpacityInput(st, v)
    case GTClicked => ToggleGT(st).state
    case FPFNClicked => ToggleFPFN(st).state
    case ThresholdChanged(v) => SetThreshold(st, v)
    case SlideOpened => OpenSlide(st)
    case LayerReady(s) => LayerAdded(st, s)
    case GTIndexArrived(g) => GTIndexLoaded(st, g)
    case PatchesIndexArrived(p) => PatchesIndexLoaded(st, p)
  }

  function Run(st: State, events: seq<Event>): State
    decreases |events|
  {
    if |events| == 0 then st else Run(Step(st, events[0]), events[1..])
  }

  /** What holds after every event: a shown client overlay has an index to
      draw from, a hidden heatmap is transparent, and the threshold stays in
      [0, 1]. */
  predicate Consistent(st: State) {
    && (st.gtVisible ==> st.gtIndex.Some?)
    && (st.fpfnVisible ==> st.patchesIndex.Some?)
    && HeatmapHiddenMeansTransparent(st)
    && 0.0 <= st.threshold <= 1.0
  }

  lemma StepConsistent(st: State, e: Event)
    requires Consistent(st)
    ensures Consistent(Step(st, e))
  {
  }

  /** Every sequence of events from the initial state keeps the state
      consistent. */
  lemma {:induction false} RunConsistent(st: State, events: seq<Event>)
    requires Consistent(st)
    ensures Consistent(Run(st, events))
    decreases |events|
  {
    if |events| > 0 {
      StepConsistent(st, events[0]);
      RunConsistent(Step(st, events[0]), events[1..]);
    }
  }

  lemma InitialConsistent()
    ensures Consistent(Initial)
  {
  }

  /** A shown ground-truth layer has tumour squares to draw, and no event
      takes them away except an index load that replaces them with an empty
      list while the layer is shown. */
  lemma StepKeepsTumour(st: State, e: Event)
    requires st.gtVisible ==> HasTumour(st)
    requires e.GTIndexArrived? && e.gt.Some? && st.gtVisible ==> |e.gt.value.tumour| > 0
    ensures var st' := Step(st, e);
            st'.gtVisible ==> HasTumour(st')
  {
  }

  /** Likewise a shown FP/FN layer has patch rows to draw. */
  lemma StepKeepsPatches(st: State, e: Event)
    requires st.fpfnVisible ==> HasPatches(st)
    requires e.PatchesIndexArrived? && e.patches.Some? && st.fpfnVisible ==> |e.patches.value.patches| > 0
    ensures var st' := Step(st, e);
            st'.fpfnVisible ==> HasPatches(st')
  {
  }
}
