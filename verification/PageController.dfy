/** The page: it polls the model's readiness, filters blank bitmaps out, and
    publishes `predictions` and `isProcessing` to the prediction panel. */
module PageController {
  import opened Options
  import opened Raster
  import opened Ranking
  import opened BlankCheck
  import ModelService
  import DrawingSurface
  import ResultView

  /** The page's three pieces of state. */
  datatype Page = Page(predictions: Option<seq<Prediction>>, isProcessing: bool, modelReady: bool)

  const InitialPage: Page := Page(None, false, false)

  /** The page after `handleImageData` returns, and whether it scheduled the
      delayed `predict` call. */
  datatype Reaction = Reaction(page: Page, predictScheduled: bool)

  /** Reference behaviour of `handleImageData`: a blank bitmap clears the
      predictions and schedules nothing; any other raises the processing
      flag and schedules a prediction. */
  function React(p: Page, image: Image): Reaction {
    if !HasNonWhitePixel(image.data) then Reaction(p.(predictions := None), false)
    else Reaction(p.(isProcessing := true), true)
  }

  /** `handleImageData` up to its return, with the pixel scan as a loop. */
  method HandleImageData(p: Page, image: Image) returns (next: Page, predictScheduled: bool)
    ensures predictScheduled <==> HasNonWhitePixel(image.data)
    ensures !predictScheduled ==> next.predictions.None? && next.isProcessing == p.isProcessing
    ensures predictScheduled ==> next.isProcessing && next.predictions == p.predictions
    ensures next.modelReady == p.modelReady
    ensures Reaction(next, predictScheduled) == React(p, image)
  {
    var hasDrawing := ScanForDrawing(image.data);
    if !hasDrawing {
      next := p.(predictions := None);
      predictScheduled := false;
      return;
    }
    next := p.(isProcessing := true);
    predictScheduled := true;
  }

  /** The delayed callback as written: it stores what `predict` resolved to
      and lowers the flag. If `predict` rejects, the callback stops at the
      `await`; the `try`/`catch` around `setTimeout` returned long before, so
      nothing is reset. */
  function SettleAsWritten(p: Page, result: ModelService.PredictResult): (r: Page)
    ensures result.Resolved? ==> r.predictions == result.predictions && !r.isProcessing
    ensures result.Rejected? ==> r == p
    ensures r.modelReady == p.modelReady
  {
    match result
    case Resolved(v) => p.(predictions := v, isProcessing := false)
    case Rejected => p
  }

  /** The delayed callback as its error handler means it to behave: a
      rejected prediction lowers the processing flag too. */
  function Settle(p: Page, result: ModelService.PredictResult): (r: Page)
    ensures !r.isProcessing
    ensures result.Resolved? ==> r.predictions == result.predictions
    ensures result.Rejected? ==> r.predictions == p.predictions
    ensures r.modelReady == p.modelReady
  {
    match result
    case Resolved(v) => p.(predictions := v, isProcessing := false)
    case Rejected => p.(isProcessing := false)
  }

  /** One readiness poll: record `isModelLoaded()` and say whether to poll
      again a second later. */
  function CheckModel(p: Page, s: ModelService.Service): (r: (Page, bool))
    ensures r.0.modelReady == ModelService.IsModelLoaded(s)
    ensures r.1 == !ModelService.IsModelLoaded(s)
    ensures r.0.predictions == p.predictions && r.0.isProcessing == p.isProcessing
  {
    var loaded := ModelService.IsModelLoaded(s);
    (p.(modelReady := loaded), !loaded)
  }

  /** The "Loading recognition model..." banner is shown while not ready. */
  predicate LoadingBannerShown(p: Page) {
    !p.modelReady
  }

  /** The page opens with the loading banner, and a poll that finds no model
      keeps it up and polls again. */
  lemma BannerUntilLoaded(s: ModelService.Service)
    requires !ModelService.IsModelLoaded(s)
    ensures LoadingBannerShown(InitialPage)
    ensures LoadingBannerShown(CheckModel(InitialPage, s).0) && CheckModel(InitialPage, s).1
  {
  }

  /** A blank bitmap never reaches the model and leaves the processing flag alone. */
  lemma BlankNeverPredicts(p: Page, image: Image)
    requires !HasNonWhitePixel(image.data)
    ensures !React(p, image).predictScheduled
    ensures React(p, image).page == p.(predictions := None)
  {
  }

  /** Clearing the canvas resets the predictions synchronously and starts no
      prediction. */
  lemma ClearResetsPredictions(c: DrawingSurface.Canvas, p: Page)
    requires DrawingSurface.Wf(c) && c.ctx
    ensures var emitted := DrawingSurface.Step(c, DrawingSurface.Clear).emitted;
            emitted.Some? &&
            React(p, emitted.value) == Reaction(p.(predictions := None), false)
  {
    DrawingSurface.ClearEmitsBlank(c);
  }

  /** A stroke that inks at least one pixel makes the page raise the
      processing flag and schedule a prediction. */
  lemma InkedStrokeSchedulesPrediction(c: DrawingSurface.Canvas, covered: set<nat>, end: DrawingSurface.Event, p: Page)
    requires DrawingSurface.Wf(c) && c.ctx && c.isDrawing
    requires DrawingSurface.EndsStroke(end)
    requires exists k :: k in covered && k < |c.pixels|
    ensures var moved := DrawingSurface.Step(c, DrawingSurface.Move(covered)).canvas;
            var emitted := DrawingSurface.Step(moved, end).emitted;
            emitted.Some? && React(p, emitted.value) == Reaction(p.(isProcessing := true), true)
  {
    DrawingSurface.InkReachesEmission(c, covered, end);
  }

  /** A drawn bitmap followed by the delayed callback as written: when
      `predict` resolves, the page ends with what it resolved to and is no
      longer processing. When a model is held after the call (already held,
      or loaded on demand) and inference succeeds, that is the ranking of the
      model's output. */
  lemma PredictionPublished(p: Page, image: Image, s: ModelService.Service,
                            load: ModelService.FetchOutcome, infer: ModelService.Inference)
    requires HasNonWhitePixel(image.data)
    ensures var step := ModelService.Predict(s, image, load, infer);
            var settled := SettleAsWritten(React(p, image).page, step.result);
            var held := step.service.model;
            (step.result.Resolved? ==>
               !settled.isProcessing && settled.predictions == step.result.predictions) &&
            (held.Some? && infer(held.value, image).Some? ==>
               !settled.isProcessing &&
               settled.predictions == Some(Rank(infer(held.value, image).value)))
  {
  }

  /** Once a poll finds the model loaded, polling stops, and any later poll
      would find it loaded too, because the handle is never dropped. */
  lemma ReadinessIsFinal(p: Page, s: ModelService.Service, events: seq<ModelService.Event>,
                         infer: ModelService.Inference)
    requires CheckModel(p, s).0.modelReady
    ensures !CheckModel(p, s).1
    ensures CheckModel(p, ModelService.Run(s, events, infer)).0.modelReady
  {
    ModelService.ModelNeverDropped(s, events, infer);
  }

  /** The rejected prediction, as written: from a page that already shows a
      result, a drawn bitmap whose prediction rejects leaves the panel on the
      spinner until a later prediction resolves. */
  lemma StuckSpinnerAsWritten()
    ensures var before := Page(Some([Prediction(7, 1.0)]), false, true);
            var image := Image(1, 1, [0, 0, 0, 255]);
            var after := SettleAsWritten(React(before, image).page, ModelService.Rejected);
            after.isProcessing &&
            ResultView.Render(ResultView.VisibleAfterEffect(after.predictions), after.predictions, after.isProcessing)
              == ResultView.Spinner
  {
    var image := Image(1, 1, [0, 0, 0, 255]);
    assert PixelDrawn(image.data, 0);
  }

  /** With the corrected callback the spinner always goes away once the
      prediction settles, whichever way it settles. */
  lemma SpinnerClearsOnSettle(p: Page, image: Image, result: ModelService.PredictResult)
    ensures var after := Settle(React(p, image).page, result);
            ResultView.Render(ResultView.VisibleAfterEffect(after.predictions), after.predictions, after.isProcessing)
              != ResultView.Spinner
  {
  }
}
