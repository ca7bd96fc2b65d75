# orx jump flooding and gradient-descent data binding, modelled in Dafny

This project models two parts of orx, the OPENRNDR extension library:

- **Jump flooding** (`orx-jumpflood`). A `JumpFlooder` for `width` x `height`
  inputs pads its input into a square buffer whose side `squareDim` is the
  least power of two covering both sides. It encodes the seed pixels into
  coordinate buffer 0, then runs `exp` jump-flood passes that ping-pong
  between two coordinate buffers. Last, it copies the slot holding the
  last pass into `final`. On top of it sit the private
  `encodeDecodeBitmap` pipeline (preprocess, flood, decode), its three
  presets (centroids, distance field, direction field) and the
  `DistanceField` filter. That filter allocates its scratch buffers and its
  flooder on first use and then reuses them.
- **Data binding** (`orx-gradient-descent`). `modelToArray` flattens a
  model's Double, Vector2, Vector3 and Vector4 fields into one array of
  doubles. `arrayToModel` walks the same fields with a cursor and writes
  values from an array back into them.

The GPU host framework is modelled by `Gpu.Device` (gpu.dfy), a class holding
the buffer sizes, the set of live buffers, a symbolic content per buffer and
the trace of operations issued. A shader pass is uninterpreted. The content
of the buffer it writes is the term `Applied(filter, inputs)`. So "what
`jumpFlood` computes" is stated exactly: `exp` nested jump-flood steps over
the encoded, black-padded input. Copying a buffer onto a smaller one
replaces its whole content with a `Cropped` term. Copying it onto a larger
one produces an `Overlay` term, and the region underneath a previous
overlay of the same size is dropped. As a result, the black padding of `square` is an
invariant, and no state leaks from one `jumpFlood` call into the next.

The data-binding model replaces reflection over `declaredFields` with an
explicit sequence of field values, in declaration order. `Other` stands for
a field of any type the binder ignores. `Flatten` specifies `modelToArray`.
`Unflatten` and `Fits` specify `arrayToModel`, parameterised by the cursor
advance after a Vector4 field. `SourceVector4Step` is 3, as written at
DataBinding.kt:69, and `ArrayToModel` uses it. `CorrectedVector4Step` is 4.
The round trip is proved for models without Vector4 fields. A concrete model
shows it failing with one, and it is proved for every layout with the
corrected step (see Findings).

Files: `wrappers.dfy` (Option, Result), `gpu.dfy` (the device), `jumpfill.dfy`
(JumpFlood.kt), `databinding.dfy` (DataBinding.kt).

## Model

| member | source | states |
|---|---|---|
| Gpu.CopyOverwritesCopy | orx-jumpflood/src/main/kotlin/JumpFlood.kt:75 | a second copy of the same size replaces the first entirely, so repeated copies into `square` leave nothing of earlier inputs |
| Gpu.CoveringCopyDropsPrior | orx-jumpflood/src/main/kotlin/JumpFlood.kt:175 | a copy that covers its target does not depend on what the target held before |
| Gpu.Device.NewColorBuffer | orx-jumpflood/src/main/kotlin/JumpFlood.kt:58-63 | `colorBuffer` returns a fresh id of the requested size, live and uninitialised, and changes no existing buffer |
| Gpu.Device.FillWith | orx-jumpflood/src/main/kotlin/JumpFlood.kt:65-67 | `fill` sets the target's whole content to the colour and nothing else |
| Gpu.Device.CopyTo | orx-jumpflood/src/main/kotlin/JumpFlood.kt:75 | `copyTo` writes only the target, as `CopyOnto` of the source's content |
| Gpu.Device.ApplyFilter | orx-jumpflood/src/main/kotlin/JumpFlood.kt:76 | `Filter.apply` writes only the target: the filter applied to the sources' contents, read before the write |
| Gpu.Device.Destroy | orx-jumpflood/src/main/kotlin/JumpFlood.kt:88-92 | `destroy` removes the buffer from the live set and changes no content |
| JumpFill.Log2Ceil | orx-jumpflood/src/main/kotlin/JumpFlood.kt:55 | `exp` is the least `e` with `dimension <= 2^e` (both bounds) |
| JumpFill.SquareDimIsLeastCoveringPower | orx-jumpflood/src/main/kotlin/JumpFlood.kt:54-56 | `squareDim` covers width and height, and every power of two that covers both is at least `squareDim`, with exponent at least `exp` |
| JumpFill.StepPassAt | orx-jumpflood/src/main/kotlin/JumpFlood.kt:78-81 | pass `i` runs step `i`, reading slot `i % 2` and writing slot `(i + 1) % 2` |
| JumpFill.PingPongSchedule | orx-jumpflood/src/main/kotlin/JumpFlood.kt:78-81 | exactly `exp` passes, steps 0 to exp-1 in order, alternating slots, and no pass reads the buffer it writes |
| JumpFill.FloodTraceIsChain | orx-jumpflood/src/main/kotlin/JumpFlood.kt:75-85 | a flood issues exp+3 operations; the first reads the input, the last writes `final`, and each reads what the one before wrote |
| JumpFill.DestroyReleasesEachOnce | orx-jumpflood/src/main/kotlin/JumpFlood.kt:88-92 | `destroy` releases each of the four owned buffers exactly once and no other buffer |
| JumpFill.AfterStepsNext | orx-jumpflood/src/main/kotlin/JumpFlood.kt:79-80 | one more pass turns the device state after `n` passes into the state after `n + 1` |
| JumpFill.AfterStepsSlots | orx-jumpflood/src/main/kotlin/JumpFlood.kt:78-83 | after `n` passes slot `n % 2` holds `n` steps over the encoded input, the other slot `n - 1` steps, and no other buffer changed |
| JumpFill.AllocateBuffers | orx-jumpflood/src/main/kotlin/JumpFlood.kt:58-67 | four fresh, distinct buffers of side `squareDim`; `square` filled black, the others uninitialised; the existing buffers unchanged |
| JumpFill.JumpFlooder.constructor | orx-jumpflood/src/main/kotlin/JumpFlood.kt:52-67 | a valid flooder whose `squareDim` is `SquareDim(width, height)`, owning four fresh live buffers; existing buffers unchanged; the five operations issued in source order |
| JumpFill.JumpFlooder.AfterFloodFacts | orx-jumpflood/src/main/kotlin/JumpFlood.kt:75-85 | after a flood, `final` and slot `exp % 2` hold the flood output, `square` the padded input, and buffers the flooder does not own are unchanged |
| JumpFill.JumpFlooder.JumpFlood | orx-jumpflood/src/main/kotlin/JumpFlood.kt:70-86 | wrong input size: `DimensionsMismatch` and nothing changes; otherwise returns `final`, holding `exp` steps over the encoded padded input, with the exact operation trace; the flooder stays valid (padding still black) |
| JumpFill.JumpFlooder.Run | orx-jumpflood/src/main/kotlin/JumpFlood.kt:75-83 | the successful path: the new contents and trace of a flood |
| JumpFill.JumpFlooder.EncodeInput | orx-jumpflood/src/main/kotlin/JumpFlood.kt:75-76 | the input lands in `square` over the black padding, and its encoding in slot 0 |
| JumpFill.JumpFlooder.PingPong | orx-jumpflood/src/main/kotlin/JumpFlood.kt:78-81 | the loop leaves the contents `AfterSteps(exp)` and appends exactly the `exp` step passes |
| JumpFill.JumpFlooder.Destroy | orx-jumpflood/src/main/kotlin/JumpFlood.kt:88-92 | the four owned buffers leave the live set in source order; no content changes |
| JumpFill.EncodeDecodeBitmap | orx-jumpflood/src/main/kotlin/JumpFlood.kt:95-113 | fails exactly when the flooder's size differs from the result buffer's; otherwise returns the caller's result buffer (live set unchanged) or a fresh one of the bitmap's size (the only new live buffer), holding the decoder applied to the flood of the preprocessed bitmap; a caller's flooder stays valid, a transient one is destroyed; every other existing buffer outside the result and a caller's flooder keeps its size and content; on a mismatch the result holds the preprocessed bitmap, every buffer allocated by the call is left live, and every other existing buffer, a caller's flooder's included, is unchanged; with both a flooder and a result passed nothing is allocated; no existing buffer, the result included, changes size; after success a caller's flooder's `final` holds the flood of the preprocessed bitmap |
| JumpFill.ChooseBuffers | orx-jumpflood/src/main/kotlin/JumpFlood.kt:99-100 | the caller's flooder and result buffer, or a new flooder and a new result buffer sized to the bitmap; only the new buffers become live and existing buffers are unchanged |
| JumpFill.ChooseAndFlood | orx-jumpflood/src/main/kotlin/JumpFlood.kt:99-107 | the chosen flooder and result, then the three passes: error iff size mismatch, leaving only the result changed, to the preprocessed bitmap; else the result holds the decoded flood; every allocated buffer is live and existing buffers outside the result and the flooder are unchanged; every existing buffer, the result included, keeps its size; on success the flooder's `final` holds the flood of the preprocessed bitmap |
| JumpFill.FloodAndDecode | orx-jumpflood/src/main/kotlin/JumpFlood.kt:102-107 | the three passes once the flooder and result are chosen: error iff size mismatch, in which case only the result has changed, to the preprocessed bitmap; else the result holds the decoded flood; buffers other than the result and the flooder's own keep their content, and sizes and the live set are unchanged; on success the flooder's `final` holds the flood of the preprocessed bitmap |
| JumpFill.PreprocessAndFlood | orx-jumpflood/src/main/kotlin/JumpFlood.kt:102-104 | the preprocess pass then the flood: error iff size mismatch, in which case only the result has changed, to the preprocessed bitmap; else `final` holds the flood of the preprocessed bitmap; the bitmap is overwritten only when it is the result buffer, and every buffer other than the result and the flooder's own keeps its content |
| JumpFill.CentroidsFromBitmap | orx-jumpflood/src/main/kotlin/JumpFlood.kt:119-122 | the pipeline with passthrough preprocess and decode: fails exactly on a size mismatch (never when neither a flooder nor a result is passed); returns the caller's result buffer or a fresh one that is the only new live buffer, a transient flooder being released; the result holds the decoded flood; other existing buffers keep their size and content; on a mismatch the result holds the preprocessed bitmap, every buffer allocated by the call is left live, and every other existing buffer, a caller's flooder's included, is unchanged; with both a flooder and a result passed nothing is allocated; no existing buffer, the result included, changes size; after success a caller's flooder's `final` holds the flood of the preprocessed bitmap |
| JumpFill.DistanceFieldFromBitmap | orx-jumpflood/src/main/kotlin/JumpFlood.kt:124-127 | the pipeline with contour preprocess and the shared distance decoder (initial scale 1.0, signed): fails exactly on a size mismatch (never when neither a flooder nor a result is passed); returns the caller's result buffer or a fresh one that is the only new live buffer, a transient flooder being released; the result holds the decoded flood; other existing buffers keep their size and content; on a mismatch the result holds the preprocessed bitmap, every buffer allocated by the call is left live, and every other existing buffer, a caller's flooder's included, is unchanged; with both a flooder and a result passed nothing is allocated; no existing buffer, the result included, changes size; after success a caller's flooder's `final` holds the flood of the preprocessed bitmap |
| JumpFill.DirectionFieldFromBitmap | orx-jumpflood/src/main/kotlin/JumpFlood.kt:129-132 | the pipeline with contour preprocess and the shared direction decoder: fails exactly on a size mismatch (never when neither a flooder nor a result is passed); returns the caller's result buffer or a fresh one that is the only new live buffer, a transient flooder being released; the result holds the decoded flood; other existing buffers keep their size and content; on a mismatch the result holds the preprocessed bitmap, every buffer allocated by the call is left live, and every other existing buffer, a caller's flooder's included, is unchanged; with both a flooder and a result passed nothing is allocated; no existing buffer, the result included, changes size; after success a caller's flooder's `final` holds the flood of the preprocessed bitmap |
| JumpFill.AllocateScratch | orx-jumpflood/src/main/kotlin/JumpFlood.kt:155-165 | the first-use allocations: `thresholded` and `contoured` fresh, distinct and both of the target's size, and a valid flooder for that size; existing buffers unchanged |
| JumpFill.DistanceField.constructor | orx-jumpflood/src/main/kotlin/JumpFlood.kt:135-151 | threshold 0.5, distance scale 1.0, nothing allocated |
| JumpFill.DistanceField.AllocateOnce | orx-jumpflood/src/main/kotlin/JumpFlood.kt:155-165 | allocates the scratch buffers (both of the target's size, kept in `Valid`) and flooder only when absent, sized to the target; later calls change nothing |
| JumpFill.DistanceField.Apply | orx-jumpflood/src/main/kotlin/JumpFlood.kt:153-176 | the target receives the unsigned distance decode of the flooded contours of the thresholded source, copied onto the target's size, covering it whole on the first call; the flooder never reports a mismatch; the first call allocates fresh buffers, later calls reuse them; no existing buffer becomes the filter's, so a caller can apply it again; the target keeps its size, and every other existing buffer the filter did not own, the source included, keeps its size and content |
| JumpFill.DistanceField.Passes | orx-jumpflood/src/main/kotlin/JumpFlood.kt:167-175 | the threshold, contour, flood, decode and copy passes and what the target then holds; only the target and the filter's own buffers change |
| JumpFill.DistanceField.ExtractContours | orx-jumpflood/src/main/kotlin/JumpFlood.kt:168-170 | `thresholded` gets the thresholded source and `contoured` its contours; nothing else changes |
| DataBinding.FlattenLength | orx-gradient-descent/src/main/kotlin/DataBinding.kt:10-42 | the array's length is the sum of 1, 2, 3, 4 or 0 over the fields |
| DataBinding.FlattenAppend | orx-gradient-descent/src/main/kotlin/DataBinding.kt:12-40 | flattening two field lists one after the other concatenates their arrays |
| DataBinding.FlattenSnoc | orx-gradient-descent/src/main/kotlin/DataBinding.kt:12-40 | one more field appends its components |
| DataBinding.FlattenAt | orx-gradient-descent/src/main/kotlin/DataBinding.kt:12-38 | field `k`'s components sit in x, y, z, w order right after the slots of the fields declared before it |
| DataBinding.FlattenSkipsOther | orx-gradient-descent/src/main/kotlin/DataBinding.kt:13-39 | a field of another type contributes nothing |
| DataBinding.ModelToArray | orx-gradient-descent/src/main/kotlin/DataBinding.kt:10-42 | the loop's result is `Flatten` of the fields; the model is only read |
| DataBinding.ReadSpec | orx-gradient-descent/src/main/kotlin/DataBinding.kt:51-70 | a field's read succeeds iff it is of another type or all its component indices are inside the array; it keeps the type and takes the components in order from the cursor |
| DataBinding.SetField | orx-gradient-descent/src/main/kotlin/DataBinding.kt:50-70 | one field's branch: its new value (or the index error) and the cursor advanced by 1, 2, 3, or 3 for a Vector4 |
| DataBinding.ArrayToModel | orx-gradient-descent/src/main/kotlin/DataBinding.kt:47-73 | the fields become `Unflatten` with Vector4 step 3; the call completes iff `Fits`; on an index error the fields before the failing one are already set |
| DataBinding.WalkSteps | orx-gradient-descent/src/main/kotlin/DataBinding.kt:49-70 | a successful field read keeps the loop invariant one field further |
| DataBinding.WalkStops | orx-gradient-descent/src/main/kotlin/DataBinding.kt:53-68 | a failing read leaves the fields as `Unflatten` says and the walk incomplete |
| DataBinding.WalkEnds | orx-gradient-descent/src/main/kotlin/DataBinding.kt:49-72 | a walk over every field completes |
| DataBinding.CursorStep | orx-gradient-descent/src/main/kotlin/DataBinding.kt:54-69 | the cursor moves on by each field's advance |
| DataBinding.UnflattenShape | orx-gradient-descent/src/main/kotlin/DataBinding.kt:50-71 | the layout is kept and fields of other types are never touched |
| DataBinding.UnflattenKeepsFromFailure | orx-gradient-descent/src/main/kotlin/DataBinding.kt:49-72 | from a field whose read is out of bounds onwards, every field keeps its old value |
| DataBinding.FitsIff | orx-gradient-descent/src/main/kotlin/DataBinding.kt:53-68 | the walk completes iff every Double or vector field's last index from its cursor is inside the array (both directions) |
| DataBinding.UnflattenAt | orx-gradient-descent/src/main/kotlin/DataBinding.kt:49-70 | after a complete walk, field `k` holds the value read at its cursor |
| DataBinding.CursorOverOthers | orx-gradient-descent/src/main/kotlin/DataBinding.kt:50-71 | fields of other types do not move the cursor |
| DataBinding.FieldAfterVector4 | orx-gradient-descent/src/main/kotlin/DataBinding.kt:68-69 | as written, the first component of the next Double or vector field after a Vector4, past any fields of other types, is that Vector4's `w` |
| DataBinding.UnflattenFlatten | orx-gradient-descent/src/main/kotlin/DataBinding.kt:10-72 | when every field advances the cursor by its arity, unflattening a flat array into a same-layout model completes and restores every Double and vector field |
| DataBinding.RoundTrip | orx-gradient-descent/src/main/kotlin/DataBinding.kt:10-72 | no Vector4 field: `arrayToModel(modelToArray(m), m')` completes and gives `m'` the values of `m` on every Double and vector field; other fields keep their own values |
| DataBinding.Vector4RoundTripFails | orx-gradient-descent/src/main/kotlin/DataBinding.kt:66-70 | `[Vector4(1, 2, 3, 4), Double 5]` comes back as `[Vector4(1, 2, 3, 4), Double 4]` |
| DataBinding.Vector4RoundTripCompletes | orx-gradient-descent/src/main/kotlin/DataBinding.kt:66-70 | even with Vector4 fields the round trip never hits an index error |
| DataBinding.CorrectedRoundTrip | orx-gradient-descent/src/main/kotlin/DataBinding.kt:66-70 | with the cursor advancing by 4 after a Vector4, the round trip holds for every layout |
| DataBinding.FitsWhenLongEnough | orx-gradient-descent/src/main/kotlin/DataBinding.kt:53-68 | an array at least as long as the fields' total arity never causes an index error when no advance exceeds its arity |

## Left out

- Shader semantics: the GLSL programs behind `EncodePoints`, `JumpFlood`, `ContourPoints`, `Threshold`, `PixelDistance`, `PixelDirection` and `Passthrough` are not part of this model. Each pass is an uninterpreted term over its inputs.
- Colour formats and types (`ColorFormat`, `ColorType.FLOAT32`/`FLOAT16`, the one-channel scratch buffers) and pixel precision are not modelled. Black is the only colour.
- `exp` uses exact integer arithmetic for the ceiling of log2. The source computes it in floating point (`Math.log` quotient, `ceil`, `toInt`, `2.0.pow`). Rounding of that quotient and Int overflow of `squareDim` for huge sizes are not modelled.
- Sizes are natural numbers. `JumpFlooder` requires width and height of at least 1. The floating-point result for a zero size is not modelled.
- `originalSize` is a `Vector2` of doubles in the source and `Dims` here. `drawer` is unused by the source and is dropped. The `maxSteps` parameter of the jump-flood shader is never set by this code and is not modelled.
- The lazily created, shared filter objects are values here. Only the parameters this code sets (`step`, `threshold`, `originalSize`, `distanceScale`, `signedBit`) are modelled. Changes other callers make to the shared filters are not.
- The `DoubleParameter` annotation ranges on `threshold` and `distanceScale` are user-interface metadata and are not enforced.
- `DistanceField.apply` takes arrays of sources and targets; only `source[0]` and `target[0]` are used, as in the source. Its three independent null tests are one test here: the scratch buffers and the flooder are always allocated together on the first call and never released, so the three tests always agree.
- JumpFill.DistanceField.Apply: requires that its source and target are not one of the filter's own scratch or flooder buffers. The source does not check this.
- JumpFill.EncodeDecodeBitmap: requires that a caller's flooder does not own the bitmap or the result buffer; the source does not check this. On a dimensions mismatch it does not state what a flooder created for the call holds; as in the source, that flooder and a freshly allocated result buffer are left live.
- JumpFill.CentroidsFromBitmap: like `EncodeDecodeBitmap`, requires that a caller's flooder does not own the bitmap or the result buffer (the source does not check this), and on a dimensions mismatch does not state what a flooder created for the call holds.
- JumpFill.DistanceFieldFromBitmap: like `EncodeDecodeBitmap`, requires that a caller's flooder does not own the bitmap or the result buffer (the source does not check this), and on a dimensions mismatch does not state what a flooder created for the call holds.
- JumpFill.DirectionFieldFromBitmap: like `EncodeDecodeBitmap`, requires that a caller's flooder does not own the bitmap or the result buffer (the source does not check this), and on a dimensions mismatch does not state what a flooder created for the call holds.
- Exceptions other than the dimensions mismatch and the array index error (GPU errors, allocation failure) and concurrency are not modelled.
- Data binding: reflection (`declaredFields`, `trySetAccessible`) is replaced by an explicit field list assumed to be in declaration order. The JVM does not promise that order. A boxed `java.lang.Double` field is not of the primitive `Double` type and counts as another type. Doubles are modelled as reals and are only copied; NaN and signed zero are not modelled.

## Findings

| source | as written | input that shows it | evidently intended | confidence | as-written member | corrected member |
|---|---|---|---|---|---|---|
| orx-gradient-descent/src/main/kotlin/DataBinding.kt:69 | after reading a Vector4's four components the cursor advances by 3 | model `[Vector4(1, 2, 3, 4), Double 5]`: `modelToArray` gives `[1, 2, 3, 4, 5]`, and `arrayToModel` of that array sets the Double to 4, the Vector4's `w` | advance by 4, as `modelToArray` writes four components | high; not executed | DataBinding.Vector4RoundTripFails | DataBinding.CorrectedRoundTrip |

`ArrayToModel` keeps the advance of 3, so that the model shows what the code does. `FieldAfterVector4` states the general effect: the next Double or vector field after a Vector4 starts reading at that vector's `w`. `CorrectedRoundTrip` proves the round trip for every layout with an advance of 4.
