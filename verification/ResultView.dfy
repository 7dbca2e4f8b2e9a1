/** What the prediction panel shows for a prediction list and the
    processing flag. */
module ResultView {
  import opened Options
  import opened Ranking

  /** The rendered panel: nothing, the "Analyzing..." spinner, or the result
      card with its (possibly absent) top entry and up to three alternatives. */
  datatype View = Nothing | Spinner | Card(top: Option<Prediction>, alternatives: seq<Prediction>)

  /** The number of alternatives the card lists at most. */
  const MaxAlternatives: nat := 3

  /** `Array.prototype.slice(start, end)` for non-negative bounds: both are
      clamped to the length. */
  function Slice<T>(s: seq<T>, start: nat, end: nat): (r: seq<T>)
    ensures |r| <= |s|
    ensures start <= |s| && end <= |s| && start <= end ==> r == s[start..end]
    ensures end <= start ==> r == []
    ensures start <= |s| < end ==> r == s[start..]
    ensures |s| <= start ==> r == []
  {
    var hi := if end < |s| then end else |s|;
    var lo := if start < hi then start else hi;
    s[lo..hi]
  }

  /** The effect that runs after each change of `predictions` and sets
      `visible`. */
  function VisibleAfterEffect(predictions: Option<seq<Prediction>>): (visible: bool)
    ensures visible <==> predictions.Some? && |predictions.value| > 0
  {
    match predictions
    case None => false
    case Some(v) => |v| > 0
  }

  /** `predictions?.[0]`: undefined for a null or empty list. */
  function TopPrediction(predictions: Option<seq<Prediction>>): (top: Option<Prediction>)
    ensures top.Some? <==> predictions.Some? && |predictions.value| > 0
    ensures top.Some? ==> top.value == predictions.value[0]
  {
    match predictions
    case Some(v) => if |v| > 0 then Some(v[0]) else None
    case None => None
  }

  /** `predictions?.slice(1, 4) || []`. */
  function RestPredictions(predictions: Option<seq<Prediction>>): (rest: seq<Prediction>)
    ensures |rest| <= MaxAlternatives
    ensures predictions.None? ==> rest == []
    ensures predictions.Some? ==>
              |rest| == (if |predictions.value| <= 1 then 0
                         else if |predictions.value| - 1 < MaxAlternatives then |predictions.value| - 1
                         else MaxAlternatives) &&
              forall k :: 0 <= k < |rest| ==> rest[k] == predictions.value[k + 1]
  {
    match predictions
    case Some(v) => Slice(v, 1, 1 + MaxAlternatives)
    case None => []
  }

  /** One render. `visible` is the component's state, which the effect brings
      up to date only after the render that sees new predictions. */
  function Render(visible: bool, predictions: Option<seq<Prediction>>, isProcessing: bool): (view: View)
    ensures !visible ==> view == Nothing
    ensures visible && isProcessing ==> view == Spinner
    ensures visible && !isProcessing ==> view.Card?
    ensures predictions.None? ==> view.Nothing? || view.Spinner? || view == Card(None, [])
  {
    if !visible then Nothing
    else if isProcessing then Spinner
    else Card(TopPrediction(predictions), RestPredictions(predictions))
  }

  /** The alternatives the card actually lists: the section appears only under
      a present top entry and only when there is at least one alternative. */
  function ListedAlternatives(view: View): seq<Prediction> {
    if view.Card? && view.top.Some? then view.alternatives else []
  }

  /** Once the effect has caught up, the panel shows something exactly when
      the predictions are present and non-empty, whatever `isProcessing` says. */
  lemma SettledVisibility(predictions: Option<seq<Prediction>>, isProcessing: bool)
    ensures Render(VisibleAfterEffect(predictions), predictions, isProcessing) != Nothing
            <==> predictions.Some? && |predictions.value| > 0
  {
  }

  /** The settled card: the top entry is the first prediction and the listed
      alternatives are exactly the entries at positions 1 up to 3. */
  lemma SettledCard(predictions: seq<Prediction>)
    requires |predictions| > 0
    ensures var view := Render(VisibleAfterEffect(Some(predictions)), Some(predictions), false);
            var n := if |predictions| < 4 then |predictions| else 4;
            view == Card(Some(predictions[0]), predictions[1..n]) &&
            ListedAlternatives(view) == predictions[1..n] &&
            |ListedAlternatives(view)| <= MaxAlternatives
  {
  }

  /** When the entries are distinct, the top entry is never repeated among
      the alternatives. */
  lemma TopNotAmongAlternatives(predictions: seq<Prediction>)
    requires |predictions| > 0
    requires forall i, j :: 0 <= i < j < |predictions| ==> predictions[i] != predictions[j]
    ensures predictions[0] !in RestPredictions(Some(predictions))
  {
    var rest := RestPredictions(Some(predictions));
    forall k | 0 <= k < |rest| ensures rest[k] != predictions[0] {
      assert rest[k] == predictions[k + 1];
    }
  }

  /** On a ranking, the listed alternatives are the next most probable digits:
      none beats the top entry, and they come in ranked order. */
  lemma RankedAlternatives(probs: seq<real>)
    requires |probs| > 0
    ensures var view := Render(true, Some(Rank(probs)), false);
            view.top == Some(Rank(probs)[0]) &&
            (forall d :: 0 <= d < |probs| ==> view.top.value.probability >= probs[d]) &&
            (forall k :: 0 <= k < |ListedAlternatives(view)| ==>
               Before(view.top.value, ListedAlternatives(view)[k])) &&
            (forall i, j :: 0 <= i < j < |ListedAlternatives(view)| ==>
               Before(ListedAlternatives(view)[i], ListedAlternatives(view)[j]))
  {
    RankIsOrdered(probs);
    RankTopIsMaximal(probs);
    var r := Rank(probs);
    var n := if |r| < 4 then |r| else 4;
    var alts := ListedAlternatives(Render(true, Some(r), false));
    assert Render(true, Some(r), false) == Card(Some(r[0]), Slice(r, 1, 4));
    assert Slice(r, 1, 4) == r[1..n];
    assert alts == r[1..n];
    forall k | 0 <= k < |alts| ensures Before(r[0], alts[k]) {
      assert alts[k] == r[k + 1];
    }
    forall i, j | 0 <= i < j < |alts| ensures Before(alts[i], alts[j]) {
      assert alts[i] == r[i + 1] && alts[j] == r[j + 1];
    }
  }
}
