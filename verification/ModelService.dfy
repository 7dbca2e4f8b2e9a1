/** The recognition-model singleton: a possibly absent model handle and an
    `isLoading` flag, with load-on-demand inside `predict`. */
module ModelService {
  import opened Options
  import opened Raster
  import opened Ranking

  /** An opaque loaded-model reference. */
  datatype Handle = Handle(id: nat)

  /** The two private fields of the service. */
  datatype Service = Service(model: Option<Handle>, isLoading: bool)

  /** How one attempt to fetch the model ended. A fetched model then runs one
      warm-up inference, which may itself throw. */
  datatype FetchOutcome = FetchFailed | Fetched(handle: Handle, warmUpSucceeded: bool)

  /** The state the constructor starts from, before its own `loadModel` call. */
  const Unloaded: Service := Service(None, false)

  /** First half of `loadModel`, up to the awaited fetch: the flag goes up. */
  function BeginLoad(s: Service): (r: Service)
    ensures r.isLoading && r.model == s.model
  {
    s.(isLoading := true)
  }

  /** Second half of `loadModel`, once the fetch settles. A fetched handle is
      stored before the warm-up runs, so a warm-up failure keeps it; a failed
      fetch leaves the field as it was. The `finally` clears the flag. */
  function CompleteLoad(s: Service, outcome: FetchOutcome): Service {
    match outcome
    case FetchFailed => s.(isLoading := false)
    case Fetched(h, _) => Service(Some(h), false)
  }

  /** `loadModel` run to completion with no other event in between. */
  function LoadModel(s: Service, outcome: FetchOutcome): (r: Service)
    ensures !r.isLoading
    ensures outcome.Fetched? ==> r.model == Some(outcome.handle)
    ensures outcome.FetchFailed? ==> r.model == s.model
    ensures s.model.Some? ==> r.model.Some?
  {
    CompleteLoad(BeginLoad(s), outcome)
  }

  /** `isModelLoaded()`: whether a handle is held. */
  predicate IsModelLoaded(s: Service): (loaded: bool)
    ensures loaded <==> s.model != None
  {
    s.model.Some?
  }

  /** How the promise `predict` returns settles: with a value (`null` or a
      ranking) or rejected, when preprocessing or inference throws. */
  datatype PredictResult = Resolved(predictions: Option<seq<Prediction>>) | Rejected

  /** One `predict` call: the state after it, how it settled, and how many
      loads it started. */
  datatype PredictStep = PredictStep(service: Service, result: PredictResult, loadsStarted: nat)

  /** Preprocessing, inference and reading the output back, for a held model:
      `None` when any of them throws, otherwise the probability vector. */
  type Inference = (Handle, Image) -> Option<seq<real>>

  /** Run the held model and rank what it returns. */
  function Classify(h: Handle, image: Image, infer: Inference): PredictResult {
    match infer(h, image)
    case None => Rejected
    case Some(probs) => Resolved(Some(Rank(probs)))
  }

  /** `predict(imageData)`. `load` says how the on-demand load would end, if
      one is started; it is ignored otherwise. */
  function Predict(s: Service, image: Image, load: FetchOutcome, infer: Inference): (step: PredictStep)
    ensures step.loadsStarted <= 1
    ensures !step.service.isLoading ==> step.service.model.Some? || step.result == Resolved(None)
    ensures s.model.None? && s.isLoading ==>
              step == PredictStep(s, Resolved(None), 0)
    ensures s.model.None? && !s.isLoading ==>
              step.loadsStarted == 1 && step.service == LoadModel(s, load)
    ensures s.model.None? && !s.isLoading && load.FetchFailed? ==>
              step.result == Resolved(None)
    ensures s.model.Some? ==> step.service == s && step.loadsStarted == 0
    ensures step.service.model.Some? && infer(step.service.model.value, image).Some? ==>
              step.result == Resolved(Some(Rank(infer(step.service.model.value, image).value)))
    ensures step.service.model.Some? && infer(step.service.model.value, image).None? ==>
              step.result == Rejected
    ensures step.result.Resolved? && step.result.predictions.Some? ==>
              step.service.model.Some? &&
              exists probs :: infer(step.service.model.value, image) == Some(probs) &&
                              step.result.predictions.value == Rank(probs)
  {
    if s.model.None? then
      if s.isLoading then PredictStep(s, Resolved(None), 0)
      else
        var loaded := LoadModel(s, load);
        if loaded.model.None? then PredictStep(loaded, Resolved(None), 1)
        else PredictStep(loaded, Classify(loaded.model.value, image, infer), 1)
    else PredictStep(s, Classify(s.model.value, image, infer), 0)
  }

  /** Events the service sees: the two halves of a load, and `predict`. */
  datatype Event = StartLoad | FinishLoad(outcome: FetchOutcome) | PredictCall(image: Image, load: FetchOutcome)

  function Step(s: Service, e: Event, infer: Inference): Service {
    match e
    case StartLoad => BeginLoad(s)
    case FinishLoad(o) => CompleteLoad(s, o)
    case PredictCall(image, load) => Predict(s, image, load, infer).service
  }

  function Run(s: Service, events: seq<Event>, infer: Inference): Service
    decreases |events|
  {
    if |events| == 0 then s else Run(Step(s, events[0], infer), events[1..], infer)
  }

  /** Every fetch that the events carry fails. */
  predicate AllFetchesFail(events: seq<Event>) {
    forall k :: 0 <= k < |events| ==>
      match events[k]
      case StartLoad => true
      case FinishLoad(o) => o.FetchFailed?
      case PredictCall(_, load) => load.FetchFailed?
  }

  /** The constructor starts a load without awaiting it: a `predict` call that
      arrives before the fetch settles resolves to `null` and starts no second
      load. */
  lemma PredictDuringStartupLoad(image: Image, load: FetchOutcome, infer: Inference)
    ensures var starting := BeginLoad(Unloaded);
            Predict(starting, image, load, infer) == PredictStep(starting, Resolved(None), 0)
  {
  }

  /** Once a handle is held no event drops it: nothing assigns `null`. */
  lemma {:induction false} ModelNeverDropped(s: Service, events: seq<Event>, infer: Inference)
    requires IsModelLoaded(s)
    ensures IsModelLoaded(Run(s, events, infer))
    decreases |events|
  {
    if |events| > 0 {
      ModelNeverDropped(Step(s, events[0], infer), events[1..], infer);
    }
  }

  /** With an unreachable model endpoint the service never becomes ready. */
  lemma {:induction false} UnreachableStaysUnloaded(s: Service, events: seq<Event>, infer: Inference)
    requires !IsModelLoaded(s)
    requires AllFetchesFail(events)
    ensures !IsModelLoaded(Run(s, events, infer))
    decreases |events|
  {
    if |events| > 0 {
      assert AllFetchesFail(events[1..]) by {
        forall k | 0 <= k < |events[1..]|
          ensures match events[1..][k]
                  case StartLoad => true
                  case FinishLoad(o) => o.FetchFailed?
                  case PredictCall(_, load) => load.FetchFailed?
        {
          assert events[1..][k] == events[k + 1];
        }
      }
      assert !IsModelLoaded(Step(s, events[0], infer)) by {
        match events[0]
        case StartLoad =>
        case FinishLoad(o) =>
          assert o.FetchFailed? by { assert events[0] == FinishLoad(o); }
        case PredictCall(image, load) =>
          assert load.FetchFailed? by { assert events[0] == PredictCall(image, load); }
      }
      UnreachableStaysUnloaded(Step(s, events[0], infer), events[1..], infer);
    }
  }

  /** ... and every `predict` it serves resolves to `null`. */
  lemma UnreachablePredictsNull(s: Service, image: Image, infer: Inference)
    requires !IsModelLoaded(s)
    ensures Predict(s, image, FetchFailed, infer).result == Resolved(None)
    ensures !IsModelLoaded(Predict(s, image, FetchFailed, infer).service)
  {
  }
}
