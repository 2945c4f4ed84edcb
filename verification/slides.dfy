/** Choosing the slides to offer (the `test_` filter in app.js `init`) and
    validating a slide's manifest (the first steps of `openFromManifest`). */
module Slides {
  import opened Wrappers
  import opened Url

  /** One entry of the slide index; `id` and `name` may be absent. */
  datatype SlideEntry = SlideEntry(id: Option<string>, name: Option<string>, manifest: string)

  /** JavaScript truthiness of an optional string: present and non-empty. */
  predicate Present(s: Option<string>) {
    s.Some? && |s.value| > 0
  }

  /** `s.id || s.name || ""` */
  function Label(s: SlideEntry): string {
    if Present(s.id) then s.id.value
    else if Present(s.name) then s.name.value
    else ""
  }

  const TestPrefix: string := "test_"

  predicate IsTestSlide(s: SlideEntry) {
    TestPrefix <= Label(s)
  }

  /** `slides.filter(s => label(s).startsWith("test_"))`: exactly the test
      slides of the index, never more entries than it has. */
  function FilterTestSlides(slides: seq<SlideEntry>): (r: seq<SlideEntry>)
    ensures |r| <= |slides|
    ensures forall s :: s in r ==> s in slides && IsTestSlide(s)
    ensures forall s :: s in slides && IsTestSlide(s) ==> s in r
  {
    if |slides| == 0 then []
    else
      assert forall s :: s in slides[1..] ==> s in slides;
      assert forall s :: s in slides ==> s == slides[0] || s in slides[1..];
      (if IsTestSlide(slides[0]) then [slides[0]] else []) + FilterTestSlides(slides[1..])
  }

  /** The filter keeps relative order: filtering two runs of entries one after
      the other is filtering their concatenation. */
  lemma {:induction false} FilterConcat(a: seq<SlideEntry>, b: seq<SlideEntry>)
    ensures FilterTestSlides(a + b) == FilterTestSlides(a) + FilterTestSlides(b)
  {
    if |a| > 0 {
      assert (a + b)[1..] == a[1..] + b;
      FilterConcat(a[1..], b);
    } else {
      assert a + b == b;
    }
  }

  /** Filtering an already filtered list changes nothing. */
  lemma {:induction false} FilterIdempotent(slides: seq<SlideEntry>)
    ensures FilterTestSlides(FilterTestSlides(slides)) == FilterTestSlides(slides)
  {
    if |slides| > 0 {
      FilterIdempotent(slides[1..]);
      var head := if IsTestSlide(slides[0]) then [slides[0]] else [];
      FilterConcat(head, FilterTestSlides(slides[1..]));
      if IsTestSlide(slides[0]) {
        assert FilterTestSlides(head) == head by {
          assert head[1..] == [];
        }
      }
    }
  }

  datatype IndexError = NoSlides | NoTestSlides

  /** Reading the slide index: a missing or empty list and a list without a
      test slide are both fatal; otherwise the test slides are offered, and
      the first of them is opened. */
  function SelectSlides(index: Option<seq<SlideEntry>>): (r: Result<seq<SlideEntry>, IndexError>)
    ensures r == Failure(NoSlides) <==> index.None? || |index.value| == 0
    ensures r == Failure(NoTestSlides) <==> index.Some? && |index.value| > 0 && FilterTestSlides(index.value) == []
    ensures r.Success? ==> |r.value| > 0 && r.value == FilterTestSlides(index.value)
  {
    if index.None? || |index.value| == 0 then Failure(NoSlides)
    else
      var slides := FilterTestSlides(index.value);
      if |slides| == 0 then Failure(NoTestSlides) else Success(slides)
  }

  // ---------- manifests ----------

  /** A slide manifest; any field may be absent from the JSON. */
  datatype Manifest = Manifest(baseDzi: Option<string>, overlayDzi: Option<string>,
                               gtIndex: Option<string>, patchesIndex: Option<string>)

  /** The locations a slide opens from, each resolved against the manifest URL. */
  datatype Sources = Sources(baseDzi: string, overlayDzi: string,
                             gtIndex: Option<string>, patchesIndex: Option<string>)

  datatype ManifestError = BaseDziMissing | OverlayDziMissing

  /** An optional index location: `m.field || null`, resolved when present. */
  function OptionalLocation(manifestUrl: string, field: Option<string>): (r: Option<string>)
    ensures r.Some? <==> Present(field)
    ensures r.Some? ==> r.value == ResolveRelative(manifestUrl, field.value)
  {
    if Present(field) then Some(ResolveRelative(manifestUrl, field.value)) else None
  }

  /** Validating and resolving a manifest: the base and overlay pyramids are
      required (the base is checked first), the two indices are optional. */
  function OpenManifest(manifestUrl: string, m: Manifest): (r: Result<Sources, ManifestError>)
    ensures r == Failure(BaseDziMissing) <==> !Present(m.baseDzi)
    ensures r == Failure(OverlayDziMissing) <==> Present(m.baseDzi) && !Present(m.overlayDzi)
    ensures r.Success? <==> Present(m.baseDzi) && Present(m.overlayDzi)
    ensures r.Success? ==>
              && r.value.baseDzi == ResolveRelative(manifestUrl, m.baseDzi.value)
              && r.value.overlayDzi == ResolveRelative(manifestUrl, m.overlayDzi.value)
              && r.value.gtIndex == OptionalLocation(manifestUrl, m.gtIndex)
              && r.value.patchesIndex == OptionalLocation(manifestUrl, m.patchesIndex)
  {
    if !Present(m.baseDzi) then Failure(BaseDziMissing)
    else if !Present(m.overlayDzi) then Failure(OverlayDziMissing)
    else
      Success(Sources(ResolveRelative(manifestUrl, m.baseDzi.value),
                      ResolveRelative(manifestUrl, m.overlayDzi.value),
                      OptionalLocation(manifestUrl, m.gtIndex),
                      OptionalLocation(manifestUrl, m.patchesIndex)))
  }

  /** Locations that do not start with '.' come through a successful open
      unchanged; the optional indices never make an open fail. */
  lemma AbsoluteLocationsKept(manifestUrl: string, m: Manifest)
    requires Present(m.baseDzi) && Present(m.overlayDzi)
    requires !IsRelative(m.baseDzi.value) && !IsRelative(m.overlayDzi.value)
    ensures OpenManifest(manifestUrl, m) ==
              Success(Sources(m.baseDzi.value, m.overlayDzi.value,
                              OptionalLocation(manifestUrl, m.gtIndex),
                              OptionalLocation(manifestUrl, m.patchesIndex)))
    ensures forall g, p :: OpenManifest(manifestUrl, m.(gtIndex := g, patchesIndex := p)).Success?
  {
  }
}
