# Selection store of the 3D-transform Penpot plugin, in Dafny

This project models the selection store of a Penpot plugin. The store is in
`src/stores/selection.ts`. It holds one `SelectionState` record: the selected
shape's id, name and fills; the decoded original image and the preview image;
five busy flags; an error; and the handles of the preview canvas, its WebGL
context and its program. The file's exported functions replace that record:

- `updateSelection` resets it or fills it from the host's selection;
- `setUploadingFill` and `setLoading` set a flag, or fall back to the initial record when nothing is selected;
- `handleLoadedImage` marks the preview as loading, then decodes the image bytes in the browser, copies the RGBA pixels into a `width*height*4` buffer and stores it;
- `setPreviewContext` and `setPreviewCanvas` store handles.

Files:

- `rgba.dfy` (module `Rgba`): the byte type, the reference function `Fit` ("cut down or zero-pad to `n` bytes"), and the copy loop `CopyRgba` proved equal to it.
- `selection.dfy` (module `Selection`): the record, `initialState`, each update as a pure function from the old record to the new one, and lemmas about them. `Changed(a, b)` is the set of fields two records differ in. Frame conditions are stated with it: "`Changed(s, r) <= {LoadingFlag}`" means only `isLoading` may change.
- `lifecycle.dfy` (module `Lifecycle`): each operation is an event. It also splits `handleLoadedImage` into its synchronous start and its later browser callback, so that other updates can interleave between them. `Run` applies a sequence of events. Lemmas state what every run preserves, and what the missing identity check of the callback allows.
- `store.dfy` (module `Store`): the store as a class `SelectionStore`. Its `state` field is replaced by each method. Each method's new state is the corresponding pure function of the old one, and each method keeps the invariant `Valid()`.

How some JavaScript details are modelled:

- The guard `!state.name || !state.fills` (lines 43 and 56) holds exactly when `name` is empty. Every array, `[]` included, is truthy in JavaScript, and so is the string `'mixed'`, so `!state.fills` is never true. The guard never looks at `id`.
- The copy loop runs `i` from 0 in steps of 4 while `i` is below the source length. It writes into a zero-filled `Uint8Array` of `width*height*4` bytes. A write past the end of a typed array is dropped. A read past the end of the source yields `undefined`, which a `Uint8Array` stores as 0. So the result is the source cut down or zero-padded to `width*height*4` bytes (`Fit`). When the source has exactly that length, the result equals it.
- When `width` or `height` is 0, the callback's `getImageData` throws an `IndexSizeError` before any update. The state then stays as line 72 left it.
- The callback updates whatever state is current when it runs. It does not check that the selection is still the same one (`Lifecycle.LateDecodeOutlivesReset`).
- `setPreviewCanvas` changes only `canvas`. It does not touch `gl` or `program` (lines 156-161).

## Model

| member | source | states |
|---|---|---|
| `Selection.InitialState` | src/stores/selection.ts:6-17 | empty id and name, an empty fill list, every flag false, no error, no images and no handles |
| `Selection.NoSelection` | src/stores/selection.ts:43 | the guard on an empty name or falsy fills holds exactly when the name is empty |
| `Selection.UpdateSelection` | src/stores/selection.ts:21-38 | `null` gives exactly the initial state; a shape gives its id, name and fills verbatim; `isPreviewLoading` is true iff the fills are a non-empty list; every other field is as in the initial state |
| `Selection.UpdateSelectionForgetsPrior` | src/stores/selection.ts:25-37 | the result does not depend on the prior state |
| `Selection.UpdateSelectionIdempotent` | src/stores/selection.ts:31-37 | applying the same selection twice equals applying it once |
| `Selection.UpdateSelectionClears` | src/stores/selection.ts:25-37 | after any selection change there are no images, no error, no busy flag other than the preview flag, and no handles |
| `Selection.SetUploadingFill` | src/stores/selection.ts:40-51 | with an empty name the result is the initial state for either argument; otherwise only `isUploadingFill` changes, to the argument |
| `Selection.SetLoading` | src/stores/selection.ts:53-64 | clearing the flag with an empty name gives the initial state; in every other case, setting it with no selection included, only `isLoading` changes |
| `Selection.GuardIgnoresId` | src/stores/selection.ts:40-64 | a state with an id but no name is reset by `setUploadingFill` and by `setLoading(false)`, and only gets `isLoading` set by `setLoading(true)` |
| `Selection.StartImageLoad` | src/stores/selection.ts:72 | only `isPreviewLoading` changes, to true |
| `Selection.ImageLoaded` | src/stores/selection.ts:114-128 | original and preview image are the same data with the given size; `isLoading` and `isPreviewLoading` become false; no other field changes |
| `Selection.ImageLoadFailed` | src/stores/selection.ts:134-138 | only `isPreviewLoading` changes, to false |
| `Selection.ImageLoadFinished` | src/stores/selection.ts:80-138 | a load error only clears `isPreviewLoading`; a missing 2D context or a zero width or height changes nothing; a decode stores the pixels fitted to `width*height*4` bytes as both images, clears both loading flags and changes nothing else |
| `Selection.DecodedImageKeepsPixels` | src/stores/selection.ts:97-128 | when the read-back pixels have `width*height*4` bytes, the stored original and preview hold exactly those bytes |
| `Selection.DecodedImageSized` | src/stores/selection.ts:97-128 | the stored image has `width*height*4` bytes whatever the length of the read-back pixels |
| `Selection.SetPreviewContext` | src/stores/selection.ts:143-154 | canvas, gl and program become the arguments; no other field changes |
| `Selection.SetPreviewCanvas` | src/stores/selection.ts:156-161 | canvas becomes the argument; no other field changes |
| `Rgba.FitAt` | src/stores/selection.ts:97-103 | the fitted buffer has `n` bytes; byte `j` is the source byte `j` when the source has one, else 0 |
| `Rgba.FitLength` | src/stores/selection.ts:97 | the fitted buffer has exactly `n` bytes |
| `Rgba.FitExact` | src/stores/selection.ts:97-103 | a source of exactly `n` bytes is copied unchanged |
| `Rgba.CopyByte` | src/stores/selection.ts:99-102 | one typed-array store: past the end of the buffer nothing changes, past the end of the source 0 is written, no other byte changes |
| `Rgba.CopyPixels` | src/stores/selection.ts:98-103 | after the loop each byte of the zeroed buffer holds the source byte at its index, or 0 where the source has none |
| `Rgba.CopyRgba` | src/stores/selection.ts:97-103 | the result has `width*height*4` bytes and equals the source fitted to that length, so it equals the source when the lengths agree |
| `Lifecycle.StepConsistent` | src/stores/selection.ts:21-161 | every operation keeps the original and preview images identical and `width*height*4` bytes long, and leaves the pixelate and transform flags, the error and the exported image at their initial values |
| `Lifecycle.RunConsistent` | src/stores/selection.ts:21-161 | any sequence of operations keeps that invariant |
| `Lifecycle.ReachableConsistent` | src/stores/selection.ts:6-161 | every state reachable from the initial state satisfies it |
| `Lifecycle.MissingContextKeepsPreviewLoading` | src/stores/selection.ts:72-90 | a load without a 2D context ends with `isPreviewLoading` true and nothing else changed |
| `Lifecycle.LoadErrorClearsPreviewLoading` | src/stores/selection.ts:134-138 | a failed load ends with `isPreviewLoading` false and nothing else changed |
| `Lifecycle.LateDecodeOutlivesReset` | src/stores/selection.ts:114-128 | a decode that completes after the selection was cleared still stores its image while no shape is selected |
| `Lifecycle.TwoByTwoRoundTrip` | src/stores/selection.ts:97-128 | a 2x2 image's 16 bytes read back in full are stored unchanged as the original image |
| `Store.SelectionStore.constructor` | src/stores/selection.ts:19 | the store starts at the initial state and satisfies its invariant |
| `Store.SelectionStore.UpdateSelection` | src/stores/selection.ts:21-38 | the new state is `UpdateSelection` of the old one |
| `Store.SelectionStore.SetUploadingFill` | src/stores/selection.ts:40-51 | the new state is `SetUploadingFill` of the old one |
| `Store.SelectionStore.SetLoading` | src/stores/selection.ts:53-64 | the new state is `SetLoading` of the old one |
| `Store.SelectionStore.StartImageLoad` | src/stores/selection.ts:72 | the new state is `StartImageLoad` of the old one |
| `Store.SelectionStore.FinishImageLoad` | src/stores/selection.ts:80-138 | the callbacks, with the RGBA copy done by the loop, give `ImageLoadFinished` of the state current when they run |
| `Store.SelectionStore.HandleLoadedImage` | src/stores/selection.ts:66-141 | with no update in between, the new state is the callback's result applied after line 72 |
| `Store.SelectionStore.SetPreviewContext` | src/stores/selection.ts:143-154 | the new state is `SetPreviewContext` of the old one |
| `Store.SelectionStore.SetPreviewCanvas` | src/stores/selection.ts:156-161 | the new state is `SetPreviewCanvas` of the old one |

## Left out

- The browser decode pipeline (`Blob`, `URL.createObjectURL`/`revokeObjectURL`, `Image`, `drawImage`, `getImageData`) is foreign code. Its outcome is a parameter: the read-back bytes, a missing 2D context, or a load error. The encoded `imageData` argument is used only by that pipeline, so it is not a parameter of the model.
- Timing of the asynchronous callbacks: the callback is a separate operation (`FinishImageLoad`, `Lifecycle.ImageLoadSettled`) that may run after any other updates. The model does not say when, or whether, the browser calls it.
- The `console.error` diagnostics and the revoking of the object URL have no effect on the state.
- Svelte store mechanics (`writable`, subscriptions, `get`): the store is one object whose field is replaced.
- `null` and `undefined` are not told apart: a missing field and a handle set to `null` are both `None`.
- `width` and `height` are natural numbers. Fractional, negative or non-finite JavaScript numbers are not modelled, including the `RangeError` a negative buffer length would raise.
- Transform, preview, pixelation, export and fill-upload logic are not in `src/stores/selection.ts` and are not part of this model. Their fields (`isPixelizing`, `isTransforming`, `error`, `exportedImage`) are only reset here. The `SelectionState` type of `src/types` is not part of this model; its fields are the ones this file reads and writes, plus the exported image.
- `src/utils/webgl.ts` is foreign WebGL calls and floating-point matrix math, and its `transformImageData` is an identity placeholder. `src/stores/settings.ts` only stores two opaque handles. Neither is part of this model.
