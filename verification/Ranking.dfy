/** Formatting and ordering of the classifier's output: the probability vector
    becomes `(digit, probability)` entries, sorted most probable first. */
module Ranking {

  /** One ranked entry: a class label and the probability the model gave it. */
  datatype Prediction = Prediction(digit: nat, probability: real)

  /** The entries as `Array.from(probabilities).map((p, digit) => ...)` builds
      them: entry `i` carries label `i`. */
  function Labelled(probs: seq<real>): (r: seq<Prediction>)
    ensures |r| == |probs|
    ensures forall i :: 0 <= i < |r| ==> r[i] == Prediction(i, probs[i])
  {
    seq(|probs|, i requires 0 <= i < |probs| => Prediction(i, probs[i]))
  }

  /** The comparator `(a, b) => b.probability - a.probability` puts `a` ahead
      of `b` only when its result is negative. */
  predicate ComesFirst(a: Prediction, b: Prediction) {
    b.probability - a.probability < 0.0
  }

  /** Stable insertion: `x` goes after every entry the comparator does not
      rank below it, so ties keep their original relative order. */
  function Insert(x: Prediction, s: seq<Prediction>): (r: seq<Prediction>)
    ensures |r| == |s| + 1
    ensures multiset(r) == multiset(s) + multiset{x}
  {
    if |s| == 0 then [x]
    else if ComesFirst(x, s[0]) then [x] + s
    else
      assert s == [s[0]] + s[1..];
      [s[0]] + Insert(x, s[1..])
  }

  /** A stable sort under the comparator: entries are inserted in their
      original order, the last one last. */
  function StableSort(s: seq<Prediction>): (r: seq<Prediction>)
    ensures |r| == |s|
    ensures multiset(r) == multiset(s)
  {
    if |s| == 0 then []
    else
      assert s == s[..|s| - 1] + [s[|s| - 1]];
      Insert(s[|s| - 1], StableSort(s[..|s| - 1]))
  }

  /** The ranking `predict` returns for a probability vector. */
  function Rank(probs: seq<real>): (r: seq<Prediction>)
    ensures |r| == |probs|
    ensures multiset(r) == multiset(Labelled(probs))
  {
    StableSort(Labelled(probs))
  }

  /** The order the ranking is meant to realise: higher probability first,
      and among equal probabilities the smaller digit first. */
  predicate Before(a: Prediction, b: Prediction) {
    a.probability > b.probability || (a.probability == b.probability && a.digit < b.digit)
  }

  /** Every earlier entry is strictly `Before` every later one. */
  predicate StrictlyRanked(s: seq<Prediction>) {
    forall i, j :: 0 <= i < j < |s| ==> Before(s[i], s[j])
  }

  /** Digits strictly increase along the sequence, as they do in `Labelled`. */
  predicate DigitsIncreasing(s: seq<Prediction>) {
    forall i, j :: 0 <= i < j < |s| ==> s[i].digit < s[j].digit
  }

  /** Inserting an entry whose digit exceeds every digit already present keeps
      the sequence strictly ranked: it lands after its ties, which is where
      `Before` wants it. */
  lemma {:induction false} InsertKeepsRanked(x: Prediction, s: seq<Prediction>)
    requires StrictlyRanked(s)
    requires forall y :: y in s ==> y.digit < x.digit
    ensures StrictlyRanked(Insert(x, s))
  {
    if |s| == 0 {
    } else if ComesFirst(x, s[0]) {
      var r := [x] + s;
      forall i, j | 0 <= i < j < |r|
        ensures Before(r[i], r[j])
      {
        if i == 0 {
          assert Before(s[0], s[j - 1]) || j - 1 == 0;
        }
      }
    } else {
      assert s[0] in s;
      var t := Insert(x, s[1..]);
      forall y | y in s[1..] ensures y.digit < x.digit {
        assert y in s;
      }
      InsertKeepsRanked(x, s[1..]);
      var r := [s[0]] + t;
      assert r == Insert(x, s);
      forall i, j | 0 <= i < j < |r|
        ensures Before(r[i], r[j])
      {
        if i == 0 {
          assert r[j] in multiset(t);
          assert r[j] in multiset(s[1..]) + multiset{x};
          if r[j] == x {
          } else {
            assert r[j] in s[1..];
            var m :| 0 <= m < |s[1..]| && s[1..][m] == r[j];
            assert Before(s[0], s[m + 1]);
          }
        } else {
          assert r[i] == t[i - 1] && r[j] == t[j - 1];
        }
      }
    }
  }

  /** Sorting a sequence whose digits increase yields a strictly ranked
      sequence: stability turns the comparator's ties into digit order. */
  lemma {:induction false} StableSortRanks(s: seq<Prediction>)
    requires DigitsIncreasing(s)
    ensures StrictlyRanked(StableSort(s))
  {
    if |s| > 0 {
      var front := s[..|s| - 1];
      var x := s[|s| - 1];
      assert DigitsIncreasing(front);
      StableSortRanks(front);
      forall y | y in StableSort(front) ensures y.digit < x.digit {
        assert y in multiset(StableSort(front));
        assert y in front;
      }
      InsertKeepsRanked(x, StableSort(front));
    }
  }

  /** The head of a strictly ranked sequence comes `Before` every other entry. */
  lemma HeadIsLeast(a: seq<Prediction>, y: Prediction)
    requires StrictlyRanked(a)
    requires y in a
    ensures y == a[0] || Before(a[0], y)
  {
    var k :| 0 <= k < |a| && a[k] == y;
    if k > 0 {
      assert Before(a[0], a[k]);
    }
  }

  /** Dropping the head removes exactly one copy of it from the multiset. */
  lemma TailMultiset(a: seq<Prediction>)
    requires |a| > 0
    ensures multiset(a[1..]) == multiset(a) - multiset{a[0]}
  {
    assert a == [a[0]] + a[1..];
  }

  /** Two strictly ranked sequences with the same entries are the same
      sequence: a strict ranking admits exactly one arrangement. */
  lemma {:induction false} RankedArrangementUnique(a: seq<Prediction>, b: seq<Prediction>)
    requires StrictlyRanked(a) && StrictlyRanked(b)
    requires multiset(a) == multiset(b)
    ensures a == b
  {
    if |a| == 0 {
      assert |multiset(b)| == 0;
    } else {
      assert |b| == |multiset(b)| == |multiset(a)| == |a|;
      assert a[0] in multiset(b);
      assert b[0] in multiset(a);
      HeadIsLeast(a, b[0]);
      HeadIsLeast(b, a[0]);
      assert a[0] == b[0];
      assert a == [a[0]] + a[1..];
      assert b == [b[0]] + b[1..];
      TailMultiset(a);
      TailMultiset(b);
      RankedArrangementUnique(a[1..], b[1..]);
    }
  }

  /** The ranking keeps every probability with its own digit and lists every
      digit `0 .. n-1` exactly once. */
  lemma RankIsRelabelling(probs: seq<real>)
    ensures |Rank(probs)| == |probs|
    ensures forall k :: 0 <= k < |Rank(probs)| ==>
              Rank(probs)[k].digit < |probs| && Rank(probs)[k].probability == probs[Rank(probs)[k].digit]
    ensures forall d :: 0 <= d < |probs| ==> Prediction(d, probs[d]) in Rank(probs)
    ensures forall i, j :: 0 <= i < j < |Rank(probs)| ==> Rank(probs)[i].digit != Rank(probs)[j].digit
  {
    var r := Rank(probs);
    var l := Labelled(probs);
    forall k | 0 <= k < |r|
      ensures r[k].digit < |probs| && r[k].probability == probs[r[k].digit]
    {
      assert r[k] in multiset(l);
    }
    forall d | 0 <= d < |probs|
      ensures Prediction(d, probs[d]) in r
    {
      assert l[d] in multiset(r);
    }
    forall i, j | 0 <= i < j < |r|
      ensures r[i].digit != r[j].digit
    {
      assert DigitsIncreasing(l);
      StableSortRanks(l);
      assert Before(r[i], r[j]);
      assert r[i] in multiset(l) && r[j] in multiset(l);
    }
  }

  /** The ranking is sorted most probable first; equal probabilities keep the
      digits in increasing order, as the stable sort leaves them. */
  lemma RankIsOrdered(probs: seq<real>)
    ensures StrictlyRanked(Rank(probs))
    ensures forall i, j :: 0 <= i < j < |Rank(probs)| ==>
              Rank(probs)[i].probability >= Rank(probs)[j].probability
  {
    StableSortRanks(Labelled(probs));
  }

  /** Independent characterisation: any arrangement of the labelled entries
      that is strictly ranked is the one `Rank` returns. */
  lemma RankIsTheRankedArrangement(probs: seq<real>, r: seq<Prediction>)
    requires multiset(r) == multiset(Labelled(probs))
    requires StrictlyRanked(r)
    ensures r == Rank(probs)
  {
    StableSortRanks(Labelled(probs));
    RankedArrangementUnique(r, Rank(probs));
  }

  /** The first entry holds the largest probability of the vector. */
  lemma RankTopIsMaximal(probs: seq<real>)
    requires |probs| > 0
    ensures forall d :: 0 <= d < |probs| ==> Rank(probs)[0].probability >= probs[d]
  {
    RankIsRelabelling(probs);
    RankIsOrdered(probs);
    var r := Rank(probs);
    forall d | 0 <= d < |probs| ensures r[0].probability >= probs[d] {
      var k :| 0 <= k < |r| && r[k] == Prediction(d, probs[d]);
      if k > 0 {
        assert r[0].probability >= r[k].probability;
      }
    }
  }
}
