/** The selection store as a state machine: every exported operation of
    src/stores/selection.ts, and each of the two halves of `handleLoadedImage`
    (its synchronous start and its later callback), is one event. Interleaving
    the halves with other events models the callback running after other
    updates of the store. */
module Lifecycle {
  import opened Rgba
  import opened Selection

  datatype Event =
    | SelectionChanged(shapes: Option<Shape>)
    | UploadingFillSet(isUploading: bool)
    | LoadingSet(isLoading: bool)
    | ImageLoadStarted
    | ImageLoadSettled(width: nat, height: nat, outcome: DecodeOutcome)
    | PreviewContextSet(canvas: Option<Canvas>, gl: Option<GlContext>, program: Option<Program>)
    | PreviewCanvasSet(c: Option<Canvas>)

  function Step(s: SelectionState, e: Event): SelectionState
  {
    match e
    case SelectionChanged(shapes) => UpdateSelection(s, shapes)
    case UploadingFillSet(b) => SetUploadingFill(s, b)
    case LoadingSet(b) => SetLoading(s, b)
    case ImageLoadStarted => StartImageLoad(s)
    case ImageLoadSettled(w, h, outcome) => ImageLoadFinished(s, w, h, outcome)
    case PreviewContextSet(c, g, p) => SetPreviewContext(s, c, g, p)
    case PreviewCanvasSet(c) => SetPreviewCanvas(s, c)
  }

  function Run(s: SelectionState, events: seq<Event>): SelectionState
    decreases |events|
  {
    if events == [] then s else Run(Step(s, events[0]), events[1..])
  }

  /** An image held by the store has `width*height*4` bytes. */
  predicate ImageSized(image: Option<ImageData>)
  {
    image.Some? ==> |image.value.data| == image.value.width * image.value.height * 4
  }

  /** What every state reached through this file's operations satisfies: the
      original and preview images are the same buffer and are correctly sized,
      and the fields only other code sets (the pixelate and transform flags, the
      error and the exported image) are still at their initial values. */
  predicate Consistent(s: SelectionState)
  {
    s.originalImage == s.previewImage && ImageSized(s.originalImage) &&
    !s.isPixelizing && !s.isTransforming && s.error == None && s.exportedImage == None
  }

  lemma InitialConsistent()
    ensures Consistent(InitialState())
  {
  }

  lemma StepConsistent(s: SelectionState, e: Event)
    requires Consistent(s)
    ensures Consistent(Step(s, e))
  {
    var r := Step(s, e);
    match e
    case SelectionChanged(shapes) =>
      UpdateSelectionClears(s, shapes);
    case UploadingFillSet(b) =>
    case LoadingSet(b) =>
    case ImageLoadStarted =>
    case ImageLoadSettled(w, h, outcome) =>
      if outcome.Decoded? && w > 0 && h > 0 {
        DecodedImageSized(s, w, h, outcome.pixels);
      }
      assert PixelizingFlag !in Changed(s, r) && TransformingFlag !in Changed(s, r);
      assert ErrorField !in Changed(s, r) && ExportedImageField !in Changed(s, r);
    case PreviewContextSet(c, g, p) =>
      assert OriginalImageField !in Changed(s, r) && PreviewImageField !in Changed(s, r);
    case PreviewCanvasSet(c) =>
      assert OriginalImageField !in Changed(s, r) && PreviewImageField !in Changed(s, r);
  }

  /** Every sequence of operations keeps the store consistent. */
  lemma {:induction false} RunConsistent(s: SelectionState, events: seq<Event>)
    requires Consistent(s)
    ensures Consistent(Run(s, events))
    decreases |events|
  {
    if events != [] {
      StepConsistent(s, events[0]);
      RunConsistent(Step(s, events[0]), events[1..]);
    }
  }

  /** Every state the store reaches from `initialState` is consistent. */
  lemma ReachableConsistent(events: seq<Event>)
    ensures Consistent(Run(InitialState(), events))
  {
    InitialConsistent();
    RunConsistent(InitialState(), events);
  }

  /** Without a callback in between, `handleLoadedImage` whose 2D context is
      missing leaves the preview marked as loading and changes nothing else. */
  lemma MissingContextKeepsPreviewLoading(s: SelectionState, width: nat, height: nat)
    ensures var r := Run(s, [ImageLoadStarted, ImageLoadSettled(width, height, NoContext)]);
      r.isPreviewLoading && Changed(s, r) <= {PreviewLoadingFlag}
  {
    var events := [ImageLoadStarted, ImageLoadSettled(width, height, NoContext)];
    assert Run(s, events) == Run(StartImageLoad(s), events[1..]);
    assert Run(StartImageLoad(s), events[1..]) == Run(StartImageLoad(s), []);
  }

  /** Without a callback in between, `handleLoadedImage` whose image fails to
      load ends with the preview flag down and nothing else changed. */
  lemma LoadErrorClearsPreviewLoading(s: SelectionState, width: nat, height: nat)
    ensures var r := Run(s, [ImageLoadStarted, ImageLoadSettled(width, height, LoadError)]);
      !r.isPreviewLoading && Changed(s, r) <= {PreviewLoadingFlag}
  {
    var events := [ImageLoadStarted, ImageLoadSettled(width, height, LoadError)];
    assert Run(s, events) == Run(StartImageLoad(s), events[1..]);
    assert Run(StartImageLoad(s), events[1..]) == Run(ImageLoadFailed(StartImageLoad(s)), []);
  }

  /** The onload callback has no selection-identity check: a decode that
      completes after the selection was cleared still stores its image, so
      the store holds an image while no shape is selected. */
  lemma LateDecodeOutlivesReset(width: nat, height: nat, pixels: seq<byte>)
    requires width > 0 && height > 0
    ensures var r := Run(InitialState(), [ImageLoadStarted, SelectionChanged(None),
                                          ImageLoadSettled(width, height, Decoded(pixels))]);
      r.name == "" && r.id == "" && r.originalImage.Some? && r.previewImage.Some?
  {
    var events := [ImageLoadStarted, SelectionChanged(None), ImageLoadSettled(width, height, Decoded(pixels))];
    var s1 := StartImageLoad(InitialState());
    var s2 := UpdateSelection(s1, None);
    assert Run(InitialState(), events) == Run(s1, events[1..]);
    assert Run(s1, events[1..]) == Run(s2, events[2..]);
    assert Run(s2, events[2..]) == Run(ImageLoadFinished(s2, width, height, Decoded(pixels)), []);
  }

  /** A solid 2x2 image read back in full comes out of the store unchanged. */
  lemma TwoByTwoRoundTrip(s: SelectionState)
    ensures var px: seq<byte> := [255, 0, 0, 255, 0, 255, 0, 255, 0, 0, 255, 255, 255, 255, 0, 255];
      ImageLoadFinished(StartImageLoad(s), 2, 2, Decoded(px)).originalImage == Some(ImageData(px, 2, 2))
  {
    var px: seq<byte> := [255, 0, 0, 255, 0, 255, 0, 255, 0, 0, 255, 255, 255, 255, 0, 255];
    DecodedImageKeepsPixels(StartImageLoad(s), 2, 2, px);
  }
}
