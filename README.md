# Lymphoma detection app: a verified model of its logic

The app classifies a microscope image as one of three lymphoma types: CLL, FL or MCL.
It shows the predicted class and its confidence, and it draws a feature map of the image as a heatmap.
This Dafny project models the parts of the app that compute something:

- **`Heatmap`, `HeatmapCanvas`** (`heatmap.dfy`, `heatmap_canvas.dfy`): the heatmap fill of
  `VisualizationPanel`.
  - The feature values are normalised with min/max.
  - A 4-segment colour ramp runs purple → blue → teal → green → yellow.
  - Each element paints a block of the flat RGBA `ImageData` buffer, in a nested loop over an `array<int>`.
  - `DrawHeatmap` is proved to leave every byte equal to a specification function `ExpectedByte`.
  - Lemmas about `ExpectedByte` give the meaning of each byte:
    - which element owns a pixel;
    - that the blocks tile the canvas;
    - the colour a pixel gets and its alpha.
- **`Transition`** (`transition.dfy`): the panel's state as a class.
  - The state is the active map, the previous map, "show original", the running transition, the pending
    animation frame and its start time.
  - The click handlers are methods.
  - The drawing effect runs again when one of its dependencies changes.
  - The 600 ms fade-in arrives as animation frames, each carrying its timestamp.
  - `FadeInScenario` walks one map click through its frames: opacity 0, 0.5, then 1 and a final redraw, with a second click ignored on the way.
- **`ImageService`** (`image_service.dfy`): `createHeatmapFromFeatures`.
  - It has its own 2-segment ramp: blue → green → yellow.
  - It draws one `fillRect` per element, and the rectangles are proved to tile the canvas.
- **`ModelService`** (`model_service.dfy`): the module-level model cache of `loadModel`, and `predictImage`.
  - `predictImage` picks the first arg-max class and reads the raw score at that class.
  - It builds one 65536-entry grayscale feature map.
  - It disposes of tensors on its success and failure paths.
  - TensorFlow.js is abstracted: a load outcome, a forward pass that yields scores or throws, and the input's pixels.
- **`ResultsView`** (`results_view.dfy`): the class description lookup and the four confidence colour bands.
- **`ImageUploader`** (`image_uploader.dfy`): the drop handler's checks on the MIME type and the 5 MiB limit.
- **`EndToEnd`** (`end_to_end.dfy`): the panel drawing a prediction's feature map on its canvas, 256 × 256 at first and possibly widened or narrowed after the original image is shown.

Shared pieces:
- `Numeric` models JavaScript `Math.round` as `Floor(x + 1/2)`, and a store into a `Uint8ClampedArray` as a clamp to [0, 255].
- `Wrappers` holds `Option` and `Result`.
- Numbers are `real`s, so arithmetic is exact.

Behaviour of the code worth knowing:

- The normalised value is not clamped to [0, 1].
- A map selected during a map fade is ignored: `transitionToMap` does not cancel and restart the fade. During the "Original Image" fade the same click still clears "show original", so the effect runs again and restarts the fade on the active map.
- `predictImage` disposes only the input and prediction tensors. The arg-max, mean and reshape tensors are never released.
- Two `loadModel` calls that overlap both start a load. Only a finished load is cached.
- `createHeatmapFromFeatures` uses its own 2-segment ramp, not the panel's 4-segment one.

## Model

| member | source | states |
|---|---|---|
| Numeric.Round | src/components/VisualizationPanel.tsx:141-143 | `Math.round(x)` is the integer within half a unit of `x`, rounding halves up |
| Numeric.Byte | src/components/VisualizationPanel.tsx:171-176 | a store into the `ImageData` buffer keeps values in [0, 255] and leaves values already in range unchanged |
| Heatmap.SeqMax | src/components/VisualizationPanel.tsx:79 | `Math.max(...data)` is an element of the data and at least every element |
| Heatmap.SeqMin | src/components/VisualizationPanel.tsx:80 | `Math.min(...data)` is an element of the data and at most every element |
| Heatmap.Normalize | src/components/VisualizationPanel.tsx:132 | range 0 gives 0.5; values between min and max land in [0, 1]; 0 exactly at the minimum, 1 exactly at the maximum |
| Heatmap.LerpBetween | src/components/VisualizationPanel.tsx:139-160 | `from*(1-t) + to*t` lies between the two end values for t in [0, 1] |
| Heatmap.RoundInByteRange | src/components/VisualizationPanel.tsx:141-143 | rounding a value in [0, 255] stays in [0, 255] |
| Heatmap.BlendInRange | src/components/VisualizationPanel.tsx:137-161 | blending two valid colours with t in [0, 1] gives a valid colour |
| Heatmap.Blend | src/components/VisualizationPanel.tsx:139-160 | a segment starts at its first colour (t = 0) and ends at its second (t = 1) |
| Heatmap.RampColor | src/components/VisualizationPanel.tsx:137-161 | the ramp is purple at 0, blue at 0.25, teal at 0.5, green at 0.75 and yellow at 1 |
| Heatmap.RampInRange | src/components/VisualizationPanel.tsx:137-161 | every normalised value in [0, 1] gets a colour with channels in [0, 255] |
| Heatmap.RampEndpointsAndJoins | src/components/VisualizationPanel.tsx:137-161 | 0 is purple (73,3,119), 1 is yellow (253,231,37); at 0.25, 0.5 and 0.75 each segment ends on the colour the next starts from |
| Heatmap.CellColorInRange | src/components/VisualizationPanel.tsx:132-161 | every element's colour is a valid RGB colour |
| Heatmap.ConstantDataIsTeal | src/components/VisualizationPanel.tsx:132-154 | constant data (range 0) colours every element teal (33,170,155) |
| Heatmap.MinimumIsPurple | src/components/VisualizationPanel.tsx:132-143 | in non-constant data the minimum is purple |
| Heatmap.MaximumIsYellow | src/components/VisualizationPanel.tsx:132-161 | in non-constant data the maximum is yellow |
| HeatmapCanvas.BlockStart | src/components/VisualizationPanel.tsx:164-167 | the first block starts at pixel 0 and block `size` (one past the last) starts at the canvas width |
| HeatmapCanvas.BlockStartIsFloor | src/components/VisualizationPanel.tsx:164-167 | the integer block edge equals `Math.floor(k * cellSize)` with `cellSize = width / size` |
| HeatmapCanvas.BlockStartLeIff | src/components/VisualizationPanel.tsx:164-167 | block `c` starts at or before a coordinate exactly when that coordinate's block is `c` or later |
| HeatmapCanvas.CellAtIff | src/components/VisualizationPanel.tsx:164-170 | a coordinate lies in `[startX, endX)` of block `c` exactly when its block is `c`: blocks neither overlap nor leave gaps |
| HeatmapCanvas.BlocksSpanWidth | src/components/VisualizationPanel.tsx:164-167 | the first block starts at 0, the last ends at the canvas width, and edges never decrease |
| HeatmapCanvas.BlockEndWithinWidth | src/components/VisualizationPanel.tsx:164-167 | no block ends past the canvas width |
| HeatmapCanvas.CellAtInRange | src/components/VisualizationPanel.tsx:164-172 | a coordinate is in one of the `size` blocks exactly when it is left of the width |
| HeatmapCanvas.PixelOfIndex | src/components/VisualizationPanel.tsx:171 | byte `p` belongs to pixel (x, y) exactly when `p / 4 == y * width + x` |
| HeatmapCanvas.PixelIndexInBuffer | src/components/VisualizationPanel.tsx:170-175 | the four bytes of a pixel inside the canvas lie inside the buffer |
| HeatmapCanvas.RowInBuffer | src/components/VisualizationPanel.tsx:123-124 | every byte of the `width x height` buffer lies in a row numbered below `height` |
| HeatmapCanvas.OwnerCell | src/components/VisualizationPanel.tsx:127-130 | the element owning a covered byte is a valid index of the data |
| HeatmapCanvas.CellFootprint | src/components/VisualizationPanel.tsx:127-172 | element `i` (row `i / size`, column `i % size`) owns exactly the pixels of its block |
| HeatmapCanvas.CoveredIff | src/components/VisualizationPanel.tsx:164-172 | a byte is painted exactly when the data is non-empty and its row number is below the width; rows use the width's cell size |
| HeatmapCanvas.ExpectedByte | src/components/VisualizationPanel.tsx:123-180 | every byte of the drawn buffer is in [0, 255] |
| HeatmapCanvas.AlphaByte | src/components/VisualizationPanel.tsx:176 | for opacity in [0, 1] the alpha byte is `Math.round(255 * opacity)` unclamped, and 255 at opacity 1 |
| HeatmapCanvas.CoveredPixelBytes | src/components/VisualizationPanel.tsx:169-176 | a painted pixel holds its owner's ramp colour and the alpha of the opacity |
| HeatmapCanvas.ConstantHeatmapIsTeal | src/components/VisualizationPanel.tsx:127-176 | constant data paints every covered pixel teal |
| HeatmapCanvas.DrawHeatmap | src/components/VisualizationPanel.tsx:123-180 | a canvas of zero width or height fails with `IndexSizeError`, as `createImageData` throws; otherwise a new buffer has `width * height * 4` bytes and every byte is `ExpectedByte`: its owner's colour channel or alpha, or 0 outside every block |
| HeatmapCanvas.CellBounds | src/components/VisualizationPanel.tsx:128-167 | the real-valued floors of row, column and `cellSize` give the block edges of element `i` |
| HeatmapCanvas.FillBlock | src/components/VisualizationPanel.tsx:169-180 | painting one block extends the filled region from element `i` to element `i + 1`, skipping pixels off the canvas |
| HeatmapCanvas.PaintPixel | src/components/VisualizationPanel.tsx:171-176 | the four stores of one pixel advance the filled region by one pixel |
| Transition.Progress | src/components/VisualizationPanel.tsx:200-205 | progress is at most 1; it is exactly 1 once 600 ms have elapsed; before that it is `elapsed / 600` and not negative |
| Transition.ProgressMonotone | src/components/VisualizationPanel.tsx:205 | later frames of one transition are never less opaque |
| Transition.DrawVisualization | src/components/VisualizationPanel.tsx:51-195 | the original image shows exactly when requested and available; a heatmap shows exactly when it is not and the map index exists, at the given opacity, with the 0.2 overlay when an image exists; otherwise the canvas is only cleared |
| Transition.StillFrameIsOpaque | src/components/VisualizationPanel.tsx:224 | a draw outside a transition has alpha 255 |
| Transition.Panel.constructor | src/components/VisualizationPanel.tsx:19-24 | starts on `activeFeatureIndex` as both active and previous map, with no original image, transition or frame |
| Transition.Panel.DrawEffect | src/components/VisualizationPanel.tsx:197-233 | the earlier frame is cancelled; with no feature maps nothing happens; during a transition a new frame is requested with a fresh start time; otherwise the active map is drawn at opacity 1 |
| Transition.Panel.TransitionToMap | src/components/VisualizationPanel.tsx:32-40 | ignored during a transition or for the active map; otherwise the old map is remembered, the new one is active and a transition starts |
| Transition.Panel.SelectMap | src/components/VisualizationPanel.tsx:262-265 | the map button transitions to its map and leaves the original image; when a dependency changed the effect reruns, requesting a frame during a transition and otherwise drawing the active map at opacity 1; when none changed nothing happens |
| Transition.Panel.ShowOriginalImage | src/components/VisualizationPanel.tsx:276-280 | the original image is shown with a transition; the maps are unchanged; a new frame is requested unless both flags were already set |
| Transition.Panel.SetActiveFeatureIndex | src/components/VisualizationPanel.tsx:27-29 | a new prop value becomes the active map without starting a transition; a changed value reruns the effect, and an unchanged one does nothing |
| Transition.Panel.AnimationFrame | src/components/VisualizationPanel.tsx:202-215 | a pending frame fixes the start time (a start of 0 counts as unset) and draws at `Progress(elapsed)`; below 1 it requests the next frame; at 1 it ends the transition and the effect redraws at opacity 1; without a pending frame nothing happens |
| ImageService.TwoSegmentColor | src/services/imageService.ts:112-124 | the ramp is blue at 0, green at 0.5 and yellow at 1 |
| ImageService.TwoSegmentChannels | src/services/imageService.ts:112-124 | below 0.5 red is 0; from 0.5 on blue is 0 and green is 255 |
| ImageService.TwoSegmentEndsAndJoin | src/services/imageService.ts:112-124 | 0 is blue, 1 is yellow, 0.5 is green, and the lower segment ends on that green |
| ImageService.TwoSegmentInRange | src/services/imageService.ts:112-124 | normalised values in [0, 1] give valid colours |
| ImageService.FeatureColorEnds | src/services/imageService.ts:95-124 | constant maps are all green; otherwise the minimum is blue and the maximum yellow |
| ImageService.CellRectsTileAcross | src/services/imageService.ts:90-127 | each rectangle ends where its right-hand neighbour starts, on the same row; the last column ends at the canvas width |
| ImageService.CellRectsTileDown | src/services/imageService.ts:90-127 | each rectangle ends where the one below it starts, in the same column; the last row ends at the canvas height |
| ImageService.CreateHeatmapFromFeatures | src/services/imageService.ts:74-131 | the canvas has the requested size (256 x 256 by default) and one rectangle per element, in data order, at column `index % size`, row `floor(index / size)`, in that element's ramp colour |
| ModelService.ArgMax | src/services/modelService.ts:51 | the chosen index holds the largest score, and every earlier score is strictly smaller |
| ModelService.Mean | src/services/modelService.ts:58 | the mean of a pixel's channels lies between its smallest and largest channel, and is the grey value of a grey pixel |
| ModelService.GrayscaleMeans | src/services/modelService.ts:58 | one entry per pixel, each between the pixel's smallest and largest channel |
| ModelService.GrayscaleOfUniformImage | src/services/modelService.ts:58 | an image of one grey value gives a feature map of that value |
| ModelService.Assemble | src/services/modelService.ts:50-69 | the class is one of CLL, FL, MCL; the probability is one of the scores and at least every score; there is one feature map named "Grayscale Analysis" with one entry per pixel |
| ModelService.ClassNamesDistinct | src/services/modelService.ts:6 | the class names are pairwise distinct |
| ModelService.PredictedClassIsFirstMaximum | src/services/modelService.ts:50-67 | class `k` is predicted exactly when its score is the first maximum, and its probability is then its raw score, not renormalised |
| ModelService.FeatureMapIsChannelMean | src/services/modelService.ts:55-60 | each feature entry is the mean of the three channels of its pixel |
| ModelService.ModelCache.constructor | src/services/modelService.ts:5 | no model is cached at start |
| ModelService.ModelCache.LoadModel | src/services/modelService.ts:11-34 | a cached model is returned without a new load; otherwise one load is made, cached on success; on failure the cache stays empty and the error is "Failed to load model as GraphModel (reason)" |
| ModelService.ModelCache.PredictImage | src/services/modelService.ts:39-77 | with no model: "Model not loaded", nothing disposed; on a throw: "Failed to analyze the lymphoma image" with the input disposed; on success: the assembled prediction, the prediction tensor then the input disposed, and a 65536-entry map |
| ResultsView.ClassDataAsWritten | src/components/ResultsView.tsx:37-39 | own keys give their entry; inherited `Object.prototype` names give the inherited member; every other name gets the grey fallback |
| ResultsView.InheritedKeyMissesFallback | src/components/ResultsView.tsx:37-39 | the class "toString" misses the grey fallback as written, and gets it in the corrected lookup |
| ResultsView.ClassDataFor | src/components/ResultsView.tsx:18-39 | CLL, FL and MCL map to their entries; every other class shows its own name, "No additional information available" and gray |
| ResultsView.ClassColors | src/components/ResultsView.tsx:18-39 | the colour is gray exactly for unknown classes; the known classes get their full names |
| ResultsView.LookupsAgreeOffPrototype | src/components/ResultsView.tsx:37-39 | off the inherited names, the lookup as written and the corrected one agree |
| ResultsView.ConfidenceColor | src/components/ResultsView.tsx:42-47 | green exactly from 0.9, blue exactly in [0.7, 0.9), yellow exactly in [0.5, 0.7), red exactly below 0.5 |
| ResultsView.ConfidenceColorMonotone | src/components/ResultsView.tsx:42-47 | a higher confidence never gets a lower band (red < yellow < blue < green) |
| ImageUploader.IsImageType | src/components/ImageUploader.tsx:28 | a MIME type is an image type exactly when it is "image/" followed by some subtype |
| ImageUploader.OnDrop | src/components/ImageUploader.tsx:23-41 | a missing or empty list does nothing; an upload always passes the first file unchanged |
| ImageUploader.FirstFileOnly | src/components/ImageUploader.tsx:25 | files after the first never change the outcome |
| ImageUploader.DropOutcome | src/components/ImageUploader.tsx:28-39 | a non-image gets the type alert; an oversized image gets the size alert; a file is uploaded exactly when it is an image of at most 5 MiB |
| ImageUploader.SizeBoundary | src/components/ImageUploader.tsx:34-37 | 5,242,880 bytes pass and 5,242,881 bytes are rejected |
| ImageUploader.TypeCheckedFirst | src/components/ImageUploader.tsx:28-37 | every oversized non-image file, whatever follows it in the list, is rejected for its type, not its size |
| EndToEnd.PanelDraw | src/components/VisualizationPanel.tsx:69-76 | a prediction's 65536-entry map is a well-formed 256 x 256 grid, drawn on a canvas of the given width and height |
| EndToEnd.GreyImagePaintsTeal | src/components/VisualizationPanel.tsx:123-176 | an image of one grey value gives a constant map; on a canvas of any size a pixel is painted exactly when its row index is less than the width, painted pixels are teal and the others stay 0; a canvas at least as wide as high is teal throughout |

## Left out

- Browser I/O is not modelled:
  - loading the original image and drawing it, including the 0.2-alpha overlay (the frame only records that an overlay is drawn);
  - `createCanvasFromFile` and `overlayHeatmap`;
  - `putImageData` and the canvas element itself.
- A `getContext('2d')` that returns null is not modelled: the panel returns and `createHeatmapFromFeatures` throws.
- `preprocessImage` is not part of this model. Its 256 x 256 x 3 output is a parameter of `PredictImage`.
- The TensorFlow.js calls `loadGraphModel`, `predict`, `argMax`, `mean` and `reshape` become parameters and functions on sequences.
- On ties, `tf.argMax` is taken to return the first maximal index.
- The progress callback of `loadModel`, the model URL and console logging are left out.
- IEEE floating point is replaced by exact reals.
- A feature array whose length is not a perfect square is not modelled: `Math.sqrt` gives a fractional size, which the source does not handle meaningfully. The heatmap functions take `size` with `|data| == size * size`. The empty array is modelled: no element, a blank buffer or no rectangles.
- Spreading a very large array into `Math.max`/`Math.min` can exceed the engine's argument limit. That is not modelled.
- Real frame scheduling is not modelled. Each `requestAnimationFrame` callback is an explicit `AnimationFrame(timestamp)` call, and React's batching of state updates is folded into each handler.
- The `featureMaps` and `originalImage` props are fixed for a panel's lifetime, so the effect does not rerun for them.
- Unmounting the panel is not modelled.
- HeatmapCanvas.DrawHeatmap: the `IndexSizeError` it returns for a zero-sized canvas is not carried into `Transition`, whose frames always draw. In the source a zero width arises when the original image is narrower than 1:256 and src/components/VisualizationPanel.tsx:61 truncates `canvas.height * aspectRatio` to 0. The throw then escapes the effect, and React unmounts the tree, or escapes `animate`, and the transition does not end, so map clicks are ignored until the "Original Image" button starts a fade, which draws no heatmap and so ends.
- EndToEnd.GreyImagePaintsTeal: the canvas width and height are parameters. Setting `canvas.width = canvas.height * aspectRatio` after the original image loads, and the browser's truncation of that value to whole pixels, are not modelled. A zero width, where `createImageData` throws, is excluded.
- The unused `createColor` helper (src/components/VisualizationPanel.tsx:84-117) duplicates the inline ramp. The ramp is modelled once.
- Concurrency is not modelled. Two overlapping `loadModel` calls are sequential calls of `LoadModel` in the model.
- `ModelService.ModelCache.PredictImage` requires exactly three scores. The classifier's output width is a contract of the external model. The disposal log does not list the arg-max, mean and reshape tensors, which the source never disposes.
- The remaining React components are page chrome, timers or network plumbing and are not part of this model: the App, the analyzer pacing, the example loader, the hook, the header, the loading indicator and the QR code.
- The confidence percentage text (`toFixed(2)`) and the markup are left out.

## Findings

| source | as written | input that shows it | evidently intended | confidence | as-written member | corrected member |
|---|---|---|---|---|---|---|
| src/components/ResultsView.tsx:37-39 | `result.class in classInfo` also holds for property names inherited from `Object.prototype` | `result.class = "toString"` (or "constructor", "valueOf", "__proto__", ...) | any class other than CLL, FL and MCL shows the grey fallback | not executed; `predictImage` only yields CLL, FL or MCL, so only another caller of the component can reach it | ResultsView.ClassDataAsWritten | ResultsView.ClassDataFor |
