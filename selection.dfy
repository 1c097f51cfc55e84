/** The selection record of the plugin and the pure old-state-to-new-state
    updates that src/stores/selection.ts applies to it with `selection.set` and
    `selection.update`. */
module Selection {
  import opened Rgba

  datatype Option<T> = None | Some(value: T)

  /** A paint descriptor of the host document; the store never looks inside. */
  type Fill(==)
  /** Handles of browser objects the store only keeps: an `HTMLCanvasElement`,
      a `WebGLRenderingContext` and a `WebGLProgram`. */
  type Canvas(==)
  type GlContext(==)
  type Program(==)

  /** `Fill[] | 'mixed'`: the fills of the selected shape, or the marker the
      host sends when the selected shapes have different fills. */
  datatype Fills = Uniform(fills: seq<Fill>) | Mixed

  /** `{ data, width, height }`: a decoded image as RGBA bytes. */
  datatype ImageData = ImageData(data: seq<byte>, width: nat, height: nat)

  /** What `updateSelection` receives for a selected shape. */
  datatype Shape = Shape(id: string, name: string, fills: Fills)

  /** The record held by the `selection` store. A field that `initialState`
      leaves out (it is `undefined`) is `None` here, and so is a handle set to
      `null`. */
  datatype SelectionState = SelectionState(
    id: string,
    name: string,
    fills: Fills,
    isLoading: bool,
    isPixelizing: bool,
    isUploadingFill: bool,
    isPreviewLoading: bool,
    error: Option<string>,
    isTransforming: bool,
    originalImage: Option<ImageData>,
    previewImage: Option<ImageData>,
    exportedImage: Option<ImageData>,
    canvas: Option<Canvas>,
    gl: Option<GlContext>,
    program: Option<Program>)

  /** The fields of a `SelectionState`, to state which of them an update may change. */
  datatype Field =
    | IdField | NameField | FillsField
    | LoadingFlag | PixelizingFlag | UploadingFillFlag | PreviewLoadingFlag
    | ErrorField | TransformingFlag
    | OriginalImageField | PreviewImageField | ExportedImageField
    | CanvasField | GlField | ProgramField

  /** The fields in which `a` and `b` differ. */
  function Changed(a: SelectionState, b: SelectionState): set<Field>
  {
    (if a.id != b.id then {IdField} else {}) +
    (if a.name != b.name then {NameField} else {}) +
    (if a.fills != b.fills then {FillsField} else {}) +
    (if a.isLoading != b.isLoading then {LoadingFlag} else {}) +
    (if a.isPixelizing != b.isPixelizing then {PixelizingFlag} else {}) +
    (if a.isUploadingFill != b.isUploadingFill then {UploadingFillFlag} else {}) +
    (if a.isPreviewLoading != b.isPreviewLoading then {PreviewLoadingFlag} else {}) +
    (if a.error != b.error then {ErrorField} else {}) +
    (if a.isTransforming != b.isTransforming then {TransformingFlag} else {}) +
    (if a.originalImage != b.originalImage then {OriginalImageField} else {}) +
    (if a.previewImage != b.previewImage then {PreviewImageField} else {}) +
    (if a.exportedImage != b.exportedImage then {ExportedImageField} else {}) +
    (if a.canvas != b.canvas then {CanvasField} else {}) +
    (if a.gl != b.gl then {GlField} else {}) +
    (if a.program != b.program then {ProgramField} else {})
  }

  /** `initialState`: no selection, no images, no handles, every flag down. */
  function InitialState(): (s: SelectionState)
    ensures s.id == "" && s.name == "" && s.fills == Uniform([])
    ensures !s.isLoading && !s.isPixelizing && !s.isUploadingFill && !s.isPreviewLoading && !s.isTransforming
    ensures s.error == None
    ensures s.originalImage == None && s.previewImage == None && s.exportedImage == None
    ensures s.canvas == None && s.gl == None && s.program == None
  {
    SelectionState("", "", Uniform([]), false, false, false, false, None, false, None, None, None, None, None, None)
  }

  /** JavaScript truthiness of a `fills` value: every array, `[]` included, and
      the string 'mixed' are truthy. */
  predicate FillsTruthy(f: Fills)
  {
    match f
    case Uniform(_) => true
    case Mixed => true
  }

  /** The guard `!state.name || !state.fills`; since `fills` is never falsy it
      holds exactly when the name is empty, whatever the id is. */
  predicate NoSelection(s: SelectionState): (b: bool)
    ensures b <==> s.name == ""
  {
    s.name == "" || !FillsTruthy(s.fills)
  }

  /** `Array.isArray(fills) && fills.length > 0`. */
  predicate HasFills(f: Fills)
  {
    f.Uniform? && |f.fills| > 0
  }

  /** `updateSelection(shapes)`. The prior state `s` is not consulted: `null`
      restores `initialState`, a shape gives `initialState` with its id, name
      and fills and with the preview marked loading when it has fills. */
  function UpdateSelection(s: SelectionState, shapes: Option<Shape>): (r: SelectionState)
    ensures shapes.None? ==> r == InitialState()
    ensures shapes.Some? ==>
      r.id == shapes.value.id && r.name == shapes.value.name && r.fills == shapes.value.fills
    ensures shapes.Some? ==>
      (r.isPreviewLoading <==> shapes.value.fills.Uniform? && |shapes.value.fills.fills| > 0)
    ensures Changed(InitialState(), r) <= {IdField, NameField, FillsField, PreviewLoadingFlag}
  {
    match shapes
    case None => InitialState()
    case Some(shape) =>
      InitialState().(id := shape.id, name := shape.name, fills := shape.fills,
                      isPreviewLoading := HasFills(shape.fills))
  }

  /** `setUploadingFill(isUploading)`: without a selection (empty name) the
      store falls back to `initialState` for either value; otherwise only
      `isUploadingFill` changes. */
  function SetUploadingFill(s: SelectionState, isUploading: bool): (r: SelectionState)
    ensures s.name == "" ==> r == InitialState()
    ensures s.name != "" ==> r.isUploadingFill == isUploading && Changed(s, r) <= {UploadingFillFlag}
  {
    if NoSelection(s) then InitialState() else s.(isUploadingFill := isUploading)
  }

  /** `setLoading(isLoading)`: clearing the flag without a selection (empty
      name) falls back to `initialState`; in every other case, setting the flag
      without a selection included, only `isLoading` changes. */
  function SetLoading(s: SelectionState, isLoading: bool): (r: SelectionState)
    ensures !isLoading && s.name == "" ==> r == InitialState()
    ensures isLoading || s.name != "" ==> r.isLoading == isLoading && Changed(s, r) <= {LoadingFlag}
  {
    if !isLoading && NoSelection(s) then InitialState() else s.(isLoading := isLoading)
  }

  /** Line 72 of `handleLoadedImage`: mark the preview as loading. */
  function StartImageLoad(s: SelectionState): (r: SelectionState)
    ensures r.isPreviewLoading && Changed(s, r) <= {PreviewLoadingFlag}
  {
    s.(isPreviewLoading := true)
  }

  /** The update of lines 114-128: the copied bytes become both the original
      and the preview image and both loading flags drop. */
  function ImageLoaded(s: SelectionState, rgba: seq<byte>, width: nat, height: nat): (r: SelectionState)
    ensures r.originalImage == Some(ImageData(rgba, width, height))
    ensures r.previewImage == r.originalImage
    ensures !r.isLoading && !r.isPreviewLoading
    ensures Changed(s, r) <= {OriginalImageField, PreviewImageField, LoadingFlag, PreviewLoadingFlag}
  {
    var image := ImageData(rgba, width, height);
    s.(originalImage := Some(image), previewImage := Some(image), isLoading := false, isPreviewLoading := false)
  }

  /** The update of line 136 in `img.onerror`: only the preview flag drops. */
  function ImageLoadFailed(s: SelectionState): (r: SelectionState)
    ensures !r.isPreviewLoading && Changed(s, r) <= {PreviewLoadingFlag}
  {
    s.(isPreviewLoading := false)
  }

  /** How the browser pipeline of `handleLoadedImage` ends: `img.onload` with
      the bytes `getImageData` read back, `img.onload` without a 2D context, or
      `img.onerror`. */
  datatype DecodeOutcome = Decoded(pixels: seq<byte>) | NoContext | LoadError

  /** The callbacks of `handleLoadedImage`, applied to the state current when
      they run. A missing 2D context returns early (lines 87-90). A zero width
      or height makes `getImageData` throw an `IndexSizeError` out of the
      callback before any update. Otherwise the read-back bytes are copied into
      a `width*height*4` buffer (lines 97-103) and stored (lines 114-128). */
  function ImageLoadFinished(s: SelectionState, width: nat, height: nat, outcome: DecodeOutcome): (r: SelectionState)
    ensures outcome.LoadError? ==> !r.isPreviewLoading && Changed(s, r) <= {PreviewLoadingFlag}
    ensures outcome.NoContext? ==> r == s
    ensures outcome.Decoded? && (width == 0 || height == 0) ==> r == s
    ensures outcome.Decoded? && width > 0 && height > 0 ==>
      r.originalImage == Some(ImageData(Fit(outcome.pixels, width * height * 4), width, height)) &&
      r.previewImage == r.originalImage && !r.isLoading && !r.isPreviewLoading &&
      Changed(s, r) <= {OriginalImageField, PreviewImageField, LoadingFlag, PreviewLoadingFlag}
  {
    match outcome
    case LoadError => ImageLoadFailed(s)
    case NoContext => s
    case Decoded(pixels) =>
      if width == 0 || height == 0 then s
      else ImageLoaded(s, Fit(pixels, width * height * 4), width, height)
  }

  /** `setPreviewContext(canvas, gl, program)`: only the three handles change. */
  function SetPreviewContext(s: SelectionState, canvas: Option<Canvas>, gl: Option<GlContext>, program: Option<Program>): (r: SelectionState)
    ensures r.canvas == canvas && r.gl == gl && r.program == program
    ensures Changed(s, r) <= {CanvasField, GlField, ProgramField}
  {
    s.(canvas := canvas, gl := gl, program := program)
  }

  /** `setPreviewCanvas(canvas)`: only the canvas handle changes. */
  function SetPreviewCanvas(s: SelectionState, canvas: Option<Canvas>): (r: SelectionState)
    ensures r.canvas == canvas && Changed(s, r) <= {CanvasField}
  {
    s.(canvas := canvas)
  }

  /** `updateSelection` forgets everything about the prior state: two stores
      that receive the same selection end up equal. */
  lemma UpdateSelectionForgetsPrior(s1: SelectionState, s2: SelectionState, shapes: Option<Shape>)
    ensures UpdateSelection(s1, shapes) == UpdateSelection(s2, shapes)
  {
  }

  /** Receiving the same selection twice is the same as receiving it once. */
  lemma UpdateSelectionIdempotent(s: SelectionState, shapes: Option<Shape>)
    ensures UpdateSelection(UpdateSelection(s, shapes), shapes) == UpdateSelection(s, shapes)
  {
  }

  /** A new selection starts without images, error, busy flags or handles. */
  lemma UpdateSelectionClears(s: SelectionState, shapes: Option<Shape>)
    ensures var r := UpdateSelection(s, shapes);
      r.originalImage == None && r.previewImage == None && r.exportedImage == None &&
      r.error == None && !r.isLoading && !r.isPixelizing && !r.isUploadingFill && !r.isTransforming &&
      r.canvas == None && r.gl == None && r.program == None
  {
  }

  /** The guards look at the name, never at the id: a state that still has an
      id but no name is reset by `setUploadingFill` and `setLoading(false)`. */
  lemma GuardIgnoresId(s: SelectionState, isUploading: bool)
    requires s.id != "" && s.name == ""
    ensures SetUploadingFill(s, isUploading) == InitialState()
    ensures SetLoading(s, false) == InitialState()
    ensures SetLoading(s, true) == s.(isLoading := true)
  {
  }

  /** When the read-back pixels already have `width*height*4` bytes, the stored
      original image holds exactly those bytes. */
  lemma DecodedImageKeepsPixels(s: SelectionState, width: nat, height: nat, pixels: seq<byte>)
    requires width > 0 && height > 0 && |pixels| == width * height * 4
    ensures var r := ImageLoadFinished(s, width, height, Decoded(pixels));
      r.originalImage == Some(ImageData(pixels, width, height)) && r.previewImage == r.originalImage
  {
    FitExact(pixels, width * height * 4);
  }

  /** The stored image always has `width*height*4` bytes, whatever length the
      read-back pixels had. */
  lemma DecodedImageSized(s: SelectionState, width: nat, height: nat, pixels: seq<byte>)
    requires width > 0 && height > 0
    ensures var r := ImageLoadFinished(s, width, height, Decoded(pixels));
      r.originalImage.Some? && |r.originalImage.value.data| == width * height * 4
  {
    FitLength(pixels, width * height * 4);
  }
}
