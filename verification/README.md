# Digit recogniser: a Dafny model of its client-side logic

The application lets a user draw a digit on a canvas and shows the digit a
pretrained MNIST classifier assigns to it. Almost all of it is React markup
and TensorFlow.js calls. This project models the sequential logic around those
calls and proves properties of that model:

- **Ranking** (`Ranking.dfy`). The model's probability vector becomes
  `(digit, probability)` entries, which a stable sort orders by descending
  probability. The proofs show that the result is a relabelling of the
  vector: every digit appears once and keeps its own probability. They also
  show that the result is strictly ordered by "higher probability first, then
  smaller digit". That order is what a stable sort produces from entries
  listed in digit order. Finally, the proofs show that exactly one arrangement
  is ordered this way.
- **Model service** (`ModelService.dfy`). The singleton's `model` and
  `isLoading` fields. `loadModel` is split at its `await` into `BeginLoad`
  and `CompleteLoad`, so that a `predict` call arriving mid-load can be
  modelled. Fetching and warm-up are an outcome passed in as a parameter.
  Preprocessing and inference are a function parameter that can fail.
- **Blank check** (`BlankCheck.dfy`, `Raster.dfy`). `handleImageData` scans
  the RGBA bytes with a stride of four. It is modelled as a loop and proved
  equal to "some pixel start has a colour byte below 255".
- **Page controller** (`PageController.dfy`). The reaction to an emitted
  bitmap, the delayed callback that publishes the result, and the readiness
  poll.
- **Prediction panel** (`ResultView.dfy`). The `visible` effect, the
  spinner/card choice, the top entry and the at-most-three alternatives.
- **Drawing surface** (`DrawingSurface.dfy`). The canvas side computation,
  the `isDrawing`/`hasDrawing` flags, and when a bitmap is emitted.

Stroke rasterisation is abstract: a move event paints a given set of pixel
indices opaque black. React state updates are taken to be visible to the
next event: handlers are modelled as transition functions applied one event
at a time.

JavaScript semantics made explicit:
- `Array.prototype.sort` is stable. The ranking is therefore an insertion
  sort that consults only the comparator `b.probability - a.probability`.
  The digit tie-break is proved, not assumed.
- Reading past the end of a typed array yields `undefined`, and
  `undefined < 255` is false. `ChannelDark` encodes this, so the scan needs
  no precondition on the array length.
- `slice(1, 4)` clamps its bounds. This is `ResultView.Slice`.

## Model

| member | source | states |
|---|---|---|
| Ranking.RankIsRelabelling | src/lib/recognitionModel.ts:68-69 | the ranking has one entry per probability; each entry's probability is `probabilities[digit]`; every digit `0..n-1` occurs, and no digit occurs twice |
| Ranking.Rank | src/lib/recognitionModel.ts:68-70 | the ranking has as many entries as the vector and is a permutation of the `(digit, probability)` entries built from it; `RankIsOrdered` and `RankIsTheRankedArrangement` give its order |
| Ranking.RankIsOrdered | src/lib/recognitionModel.ts:70 | the ranking is non-increasing in probability; equal probabilities keep the digits ascending, as the stable sort leaves them |
| Ranking.StableSortRanks | src/lib/recognitionModel.ts:68-70 | stable-sorting entries listed in increasing digit order, with only the probability comparator, yields a strictly ranked sequence |
| Ranking.InsertKeepsRanked | src/lib/recognitionModel.ts:70 | inserting an entry after its ties keeps the sequence strictly ranked when its digit exceeds all digits present |
| Ranking.RankIsTheRankedArrangement | src/lib/recognitionModel.ts:68-70 | any arrangement of the labelled probabilities that is strictly ranked is the ranking `predict` returns |
| Ranking.RankedArrangementUnique | src/lib/recognitionModel.ts:70 | two strictly ranked sequences with the same entries are equal |
| Ranking.RankTopIsMaximal | src/lib/recognitionModel.ts:68-70 | the first entry's probability is at least every probability in the vector |
| ModelService.LoadModel | src/lib/recognitionModel.ts:18-38 | after a load `isLoading` is false on success and failure; a fetched handle is held even if warm-up fails; a failed fetch leaves `model` as it was |
| ModelService.BeginLoad | src/lib/recognitionModel.ts:20 | starting a load raises `isLoading` and leaves the model field alone |
| ModelService.IsModelLoaded | src/lib/recognitionModel.ts:91-93 | true exactly when a model handle is held; `ModelNeverDropped` shows it stays true once true |
| ModelService.Predict | src/lib/recognitionModel.ts:40-73 | with no model and a load in progress, returns null, starts no load and changes nothing; with no model and no load, starts exactly one load and returns null if the fetch fails; with a model already held, starts no load; whenever a model is held after the call (already held or just loaded), successful inference resolves to the ranking of its output and failed inference rejects |
| ModelService.PredictDuringStartupLoad | src/lib/recognitionModel.ts:14-16 | while the constructor's load is still in flight, `predict` resolves to null, starts no second load and changes nothing |
| ModelService.ModelNeverDropped | src/lib/recognitionModel.ts:23-30 | once a handle is held, no sequence of loads and predictions makes `isModelLoaded()` false again |
| ModelService.UnreachableStaysUnloaded | src/lib/recognitionModel.ts:18-53 | if every fetch fails, `isModelLoaded()` stays false through any sequence of events |
| ModelService.UnreachablePredictsNull | src/lib/recognitionModel.ts:42-53 | with no model and a failing fetch, `predict` resolves to null and the model stays absent |
| BlankCheck.ScanForDrawing | src/pages/Index.tsx:31-39 | the stride-4 loop with early `break` answers true exactly when some pixel start `i` (a multiple of 4) has `data[i]`, `data[i+1]` or `data[i+2]` below 255; an empty array is blank |
| BlankCheck.AlphaIrrelevant | src/pages/Index.tsx:35 | arrays that differ only in alpha bytes get the same verdict |
| BlankCheck.DrawnIffSomePixelNonWhite | src/pages/Index.tsx:34-36 | on a flattened bitmap the scan's spec holds exactly when some pixel has a colour channel below 255 |
| BlankCheck.WhiteBitmapIsBlank | src/pages/Index.tsx:34-36 | an all-white bitmap of any size counts as blank |
| PageController.HandleImageData | src/pages/Index.tsx:28-47 | a prediction is scheduled exactly when the bitmap has a non-white pixel; a blank bitmap nulls `predictions` and leaves `isProcessing` as it was; otherwise `isProcessing` becomes true and `predictions` is kept |
| PageController.SettleAsWritten | src/pages/Index.tsx:51-55 | the callback as written: on resolution `predictions` becomes `predict`'s result and `isProcessing` is lowered; on rejection the page is unchanged |
| PageController.Settle | src/pages/Index.tsx:51-58 | the corrected callback: it always leaves `isProcessing` false; on resolution `predictions` becomes `predict`'s result, on rejection it is kept |
| PageController.BlankNeverPredicts | src/pages/Index.tsx:41-44 | a blank bitmap never schedules `predict` and changes only `predictions`, to null |
| PageController.ClearResetsPredictions | src/components/DigitCanvas.tsx:120-130 | clearing the canvas emits a bitmap that makes the page null its predictions without calling `predict` |
| PageController.InkedStrokeSchedulesPrediction | src/components/DigitCanvas.tsx:90-118 | a stroke that inks at least one pixel makes the page raise `isProcessing` and schedule `predict` |
| PageController.PredictionPublished | src/pages/Index.tsx:47-55 | with the callback as written, after a drawn bitmap: a resolved `predict` leaves its result in `predictions` and `isProcessing` false; when a model is held after the call (already held or loaded on demand) and inference succeeds, that result is the ranking of the output |
| PageController.ReadinessIsFinal | src/pages/Index.tsx:15-22 | once a poll sees the model loaded it stops re-polling, and any later poll would also see it loaded |
| PageController.CheckModel | src/pages/Index.tsx:15-23 | a poll sets `modelReady` to `isModelLoaded()`, polls again exactly when the model is not loaded, and leaves `predictions` and `isProcessing` alone |
| PageController.BannerUntilLoaded | src/pages/Index.tsx:11-25 | the page starts with the loading banner, and a poll that finds no model keeps the banner and polls again |
| PageController.StuckSpinnerAsWritten | src/pages/Index.tsx:49-59 | as written, a rejected prediction after a shown result leaves `isProcessing` true and the panel on the spinner until a later prediction resolves |
| PageController.SpinnerClearsOnSettle | src/pages/Index.tsx:49-59 | with the corrected callback, the panel never shows the spinner once the prediction settles |
| ResultView.Slice | src/components/PredictionDisplay.tsx:26 | `slice(start, end)` clamps both bounds: it is `s[start..end]` when both are in range, `s[start..]` when only `end` is past the length, and empty when `end <= start` or `start` is at or past the length |
| ResultView.VisibleAfterEffect | src/components/PredictionDisplay.tsx:15-21 | `visible` becomes true exactly when `predictions` is non-null and non-empty |
| ResultView.TopPrediction | src/components/PredictionDisplay.tsx:25 | `predictions?.[0]` is present exactly when the list is non-null and non-empty, and is then its first entry |
| ResultView.RestPredictions | src/components/PredictionDisplay.tsx:26 | `predictions?.slice(1, 4)`, defaulting to an empty list, is empty for null predictions; otherwise it holds the entries at positions 1, 2, 3 that exist, in order, at most three |
| ResultView.Render | src/components/PredictionDisplay.tsx:23-35 | when not visible nothing is rendered, regardless of `isProcessing`; when visible and processing the spinner is shown, otherwise the card; null predictions give a card with no top entry and no alternatives |
| ResultView.SettledVisibility | src/components/PredictionDisplay.tsx:15-23 | once the effect has run, something is rendered exactly when the predictions are non-null and non-empty |
| ResultView.SettledCard | src/components/PredictionDisplay.tsx:25-26 | the top entry is `predictions[0]`; the listed alternatives are exactly `predictions[1 .. min(4, n))`, at most three of them |
| ResultView.TopNotAmongAlternatives | src/components/PredictionDisplay.tsx:25-26 | when entries are distinct, the top entry is not among the alternatives |
| ResultView.RankedAlternatives | src/components/PredictionDisplay.tsx:25-26 | on a ranking, the top entry has the largest probability, and the alternatives follow it in ranked order |
| DrawingSurface.CanvasSide | src/components/DigitCanvas.tsx:24 | the side is between 1 and 280; it equals the parent's width when that is between 1 and 280, and is 280 when the width is missing, zero or larger |
| DrawingSurface.Mount | src/components/DigitCanvas.tsx:16-39 | with a context, the canvas becomes square with side `CanvasSide`, all white, with the context captured; without one nothing changes |
| DrawingSurface.MountFromInitial | src/components/DigitCanvas.tsx:16-39 | mounting the default-sized canvas with a context yields a well-formed square canvas of side `CanvasSide`, with no stroke, no clear button, and a bitmap the blank check reads as blank |
| DrawingSurface.Snapshot | src/components/DigitCanvas.tsx:116 | the emitted image has the canvas's dimensions, four bytes per pixel, and byte `j` is channel `j % 4` of pixel `j / 4` of the canvas |
| DrawingSurface.SnapshotPixelBytes | src/components/DigitCanvas.tsx:116 | byte `4k + ch` of the snapshot is channel `ch` of canvas pixel `k` |
| DrawingSurface.StartDrawing | src/components/DigitCanvas.tsx:68-72 | with a context, both `isDrawing` and `hasDrawing` become true; without one nothing changes; the bitmap is untouched |
| DrawingSurface.Paint | src/components/DigitCanvas.tsx:105-106 | covered pixels become the stroke colour and all other pixels keep their value |
| DrawingSurface.Draw | src/components/DigitCanvas.tsx:90-106 | a move does nothing unless a stroke is active and a context is held; an active move paints the covered pixels; it never changes the flags |
| DrawingSurface.EndDrawing | src/components/DigitCanvas.tsx:109-118 | an active stroke is closed and the current bitmap is emitted; otherwise nothing happens and nothing is emitted |
| DrawingSurface.ClearCanvas | src/components/DigitCanvas.tsx:120-130 | with a context, the context is kept, `hasDrawing` becomes false, every pixel becomes white, `isDrawing` is kept, and the white bitmap is emitted; without one nothing happens |
| DrawingSurface.ClearButtonShown | src/components/DigitCanvas.tsx:160 | the clear button is rendered exactly while `hasDrawing` holds |
| DrawingSurface.ClearButtonTracksEvents | src/components/DigitCanvas.tsx:71-72 | with a context, a start shows the clear button, a clear hides it, and moves, ends and leaves keep it as it was |
| DrawingSurface.Step | src/components/DigitCanvas.tsx:151-157 | every handler keeps the canvas well-formed (square, side at most 280) and emits only a snapshot of the canvas |
| DrawingSurface.NoContextNoOp | src/components/DigitCanvas.tsx:69 | with no captured context, every handler is a no-op that emits nothing |
| DrawingSurface.EndEmitsOnce | src/components/DigitCanvas.tsx:109-117 | the first end or leave of an active stroke emits the bitmap and clears `isDrawing`; the next end or leave emits nothing |
| DrawingSurface.StrokeEmissionsBounded | src/components/DigitCanvas.tsx:109-117 | over any event sequence, end/leave emissions never exceed the start events (plus one for a stroke already active) |
| DrawingSurface.ClearEmitsBlank | src/components/DigitCanvas.tsx:120-130 | a clear emits a bitmap the blank check reads as blank, and hides the clear button |
| DrawingSurface.InkReachesEmission | src/components/DigitCanvas.tsx:105-117 | a move that covers an in-range pixel, followed by end or leave, emits a non-blank bitmap |

## Left out

- Preprocessing (`fromPixels`, `resizeBilinear`, the `1 - x/255` normalisation, `expandDims`) and inference are left out. They are floating-point tensor operations inside TensorFlow.js. Together they are the `Inference` parameter, which either returns a probability vector or fails.
- Tensor `dispose` and `tidy` are left out. They release memory that lives outside the JavaScript heap.
- The model fetch is left out because it is network I/O. The warm-up is a local library inference on a zero tensor whose only observable effect is whether it throws. `FetchOutcome` stands in for both: the fetch may fail, and `warmUpSucceeded` says whether a fetched model's warm-up threw.
- Float32 precision is left out. The probability vector is modelled as a sequence of Dafny `real` values, so NaN is not modelled. A softmax output never contains NaN.
- Asynchrony is left out: the 200 ms `setTimeout`, the one-second readiness polling, overlapping predictions, and React's batching of state updates and stale closures. Events are applied one at a time.
- The resize handler is left out, including its `getImageData`/`putImageData` copy. This is DOM rendering. Note that enlarging a canvas leaves transparent black pixels outside the copied area.
- Stroke geometry is left out: line width, caps and joins, path re-stroking, and how coordinates are read from mouse and touch events. Each move is abstracted as the set of pixel indices it paints black.
- Percentage formatting with `toFixed(1)` and all JSX markup and styling are left out. The header and not-found pages hold no logic.
- ModelService.Predict: treats the on-demand load inside `predict` as one step, so it does not model another `predict` call or readiness poll that arrives while that load is awaited. Such a call would see `isLoading` and resolve to null, or report the model as not ready; `PredictDuringStartupLoad` covers the same situation for the constructor's load.

## Findings

| source | as written | input that shows it | evidently intended | confidence | as-written member | corrected member |
|---|---|---|---|---|---|---|
| src/pages/Index.tsx:49-59 | the `try`/`catch` wraps only the `setTimeout` call; a rejection of `predict` inside the async callback is never caught, so `setIsProcessing(false)` never runs | one prediction is already shown; the user then draws again, and preprocessing or inference throws | a failed prediction lowers `isProcessing`, as the `catch` block tries to do | medium, not executed | PageController.StuckSpinnerAsWritten | PageController.Settle |
