/** The `selection` writable store of src/stores/selection.ts as one mutable
    object whose `state` each exported function replaces. */
module Store {
  import opened Rgba
  import opened Selection
  import Lifecycle

  class SelectionStore {
    var state: SelectionState

    /** The object invariant: the state is one the operations below can reach. */
    ghost predicate Valid()
      reads this
    {
      Lifecycle.Consistent(state)
    }

    /** `writable<SelectionState>(initialState)`. */
    constructor ()
      ensures Valid() && state == InitialState()
    {
      state := InitialState();
      Lifecycle.InitialConsistent();
    }

    method UpdateSelection(shapes: Option<Shape>)
      requires Valid()
      modifies this
      ensures Valid()
      ensures state == Selection.UpdateSelection(old(state), shapes)
    {
      Lifecycle.StepConsistent(state, Lifecycle.SelectionChanged(shapes));
      state := Selection.UpdateSelection(state, shapes);
    }

    method SetUploadingFill(isUploading: bool)
      requires Valid()
      modifies this
      ensures Valid()
      ensures state == Selection.SetUploadingFill(old(state), isUploading)
    {
      Lifecycle.StepConsistent(state, Lifecycle.UploadingFillSet(isUploading));
      state := Selection.SetUploadingFill(state, isUploading);
    }

    method SetLoading(isLoading: bool)
      requires Valid()
      modifies this
      ensures Valid()
      ensures state == Selection.SetLoading(old(state), isLoading)
    {
      Lifecycle.StepConsistent(state, Lifecycle.LoadingSet(isLoading));
      state := Selection.SetLoading(state, isLoading);
    }

    /** The synchronous part of `handleLoadedImage` (line 72). */
    method StartImageLoad()
      requires Valid()
      modifies this
      ensures Valid()
      ensures state == Selection.StartImageLoad(old(state))
    {
      Lifecycle.StepConsistent(state, Lifecycle.ImageLoadStarted);
      state := Selection.StartImageLoad(state);
    }

    /** The `img.onload` / `img.onerror` callbacks of `handleLoadedImage`,
        run on the state current when the browser calls them; the RGBA copy
        is the loop of `CopyRgba`. */
    method FinishImageLoad(width: nat, height: nat, outcome: DecodeOutcome)
      requires Valid()
      modifies this
      ensures Valid()
      ensures state == ImageLoadFinished(old(state), width, height, outcome)
    {
      Lifecycle.StepConsistent(state, Lifecycle.ImageLoadSettled(width, height, outcome));
      match outcome
      case LoadError =>
        state := ImageLoadFailed(state);
      case NoContext =>
      case Decoded(pixels) =>
        if width > 0 && height > 0 {
          var rgba := CopyRgba(pixels, width, height);
          state := ImageLoaded(state, rgba, width, height);
        }
    }

    /** `handleLoadedImage` when no other update of the store runs between its
        start and its callback. */
    method HandleLoadedImage(width: nat, height: nat, outcome: DecodeOutcome)
      requires Valid()
      modifies this
      ensures Valid()
      ensures state == ImageLoadFinished(Selection.StartImageLoad(old(state)), width, height, outcome)
    {
      StartImageLoad();
      FinishImageLoad(width, height, outcome);
    }

    method SetPreviewContext(canvas: Option<Canvas>, gl: Option<GlContext>, program: Option<Program>)
      requires Valid()
      modifies this
      ensures Valid()
      ensures state == Selection.SetPreviewContext(old(state), canvas, gl, program)
    {
      Lifecycle.StepConsistent(state, Lifecycle.PreviewContextSet(canvas, gl, program));
      state := Selection.SetPreviewContext(state, canvas, gl, program);
    }

    method SetPreviewCanvas(canvas: Option<Canvas>)
      requires Valid()
      modifies this
      ensures Valid()
      ensures state == Selection.SetPreviewCanvas(old(state), canvas)
    {
      Lifecycle.StepConsistent(state, Lifecycle.PreviewCanvasSet(canvas));
      state := Selection.SetPreviewCanvas(state, canvas);
    }
  }
}
