/**
 * The classifier's predictor. Its mode (a loaded model, or demo mode) is fixed
 * once at construction; predict turns a probability vector into a ranked,
 * confidence-scored PredictionResult.
 *
 * The probability vector is a parameter of Predict: in loaded mode it is the
 * model's output for the image, in demo mode the Dirichlet draw (a point of the
 * probability simplex). The ranking `argsort(p)[::-1]` is a parameter too: any
 * ordering of all indices by non-increasing probability, since the sort used
 * does not fix the order of ties.
 */
module CnnModel {
  import opened Wrappers
  import Preprocessing

  /** DEFAULT_CLASS_NAMES */
  const DefaultClassNames: seq<string> := ["eraser", "kertas", "pensil"]

  /** The default of low_confidence_threshold. */
  const DefaultLowConfidenceThreshold: real := 0.5

  /** The default of top_k, in predict here and in the pipeline. */
  const DefaultTopK: int := 3

  /** One entry of top_predictions: class, confidence and confidence x 100. */
  datatype TopPrediction = TopPrediction(className: string, confidence: real, percentage: real)

  datatype PredictionResult = PredictionResult(
    predictedClass: string,
    confidence: real,
    percentage: real,
    topPredictions: seq<TopPrediction>,
    isDemo: bool,
    isLowConfidence: bool)

  /** The IndexError predict raises: nothing ranked to report, or a ranked index past the class list. */
  datatype PredictError = IndexError

  // ---------------------------------------------------------------------------
  // Probability vectors and rankings
  // ---------------------------------------------------------------------------

  function Sum(p: seq<real>): real {
    if p == [] then 0.0 else Sum(p[..|p| - 1]) + p[|p| - 1]
  }

  predicate NonNegative(p: seq<real>) {
    forall i :: 0 <= i < |p| ==> 0.0 <= p[i]
  }

  /** A point of the probability simplex, which is what a Dirichlet draw yields. */
  predicate IsSimplexPoint(p: seq<real>) {
    NonNegative(p) && Sum(p) == 1.0
  }

  lemma {:induction false} SumNonNegative(p: seq<real>)
    requires NonNegative(p)
    ensures 0.0 <= Sum(p)
  {
    if p != [] {
      SumNonNegative(p[..|p| - 1]);
    }
  }

  /** No entry of a non-negative vector exceeds its sum. */
  lemma {:induction false} EntryAtMostSum(p: seq<real>, i: nat)
    requires NonNegative(p) && i < |p|
    ensures 0.0 <= p[i] <= Sum(p)
  {
    var prefix := p[..|p| - 1];
    SumNonNegative(prefix);
    if i < |p| - 1 {
      EntryAtMostSum(prefix, i);
    }
  }

  predicate InRange(order: seq<nat>, n: nat) {
    forall k :: 0 <= k < |order| ==> order[k] < n
  }

  predicate Distinct(order: seq<nat>) {
    forall i, j :: 0 <= i < j < |order| ==> order[i] != order[j]
  }

  /** Indices into p listed by non-increasing probability. */
  predicate NonIncreasing(order: seq<nat>, p: seq<real>) {
    InRange(order, |p|) &&
    forall i, j :: 0 <= i < j < |order| ==> p[order[i]] >= p[order[j]]
  }

  /**
   * What `argsort(p)[::-1]` returns: a permutation of the indices of p
   * (as many as p has, in range, none twice) by non-increasing probability.
   */
  predicate IsDescendingRanking(order: seq<nat>, p: seq<real>) {
    |order| == |p| && InRange(order, |p|) && Distinct(order) && NonIncreasing(order, p)
  }

  /** The tail of a sequence without repeats has none either. */
  lemma DistinctTail(s: seq<nat>)
    requires Distinct(s) && s != []
    ensures Distinct(s[1..]) && s[0] !in s[1..]
  {
    forall i, j | 0 <= i < j < |s| - 1 ensures s[1..][i] != s[1..][j] {
      assert s[1..][i] == s[i + 1] && s[1..][j] == s[j + 1];
    }
    forall k | 0 <= k < |s| - 1 ensures s[1..][k] != s[0] {
      assert s[1..][k] == s[k + 1];
    }
  }

  /** The set of entries of a sequence of indices. */
  function Elements(s: seq<nat>): (e: set<nat>)
    ensures forall x :: x in e <==> x in s
  {
    set x | x in s
  }

  /** The elements of a non-empty sequence: its head and the elements of its tail. */
  lemma ElementsOfCons(s: seq<nat>)
    requires s != []
    ensures Elements(s) == Elements(s[1..]) + {s[0]}
  {
    assert s == [s[0]] + s[1..];
  }

  /** A sequence without repeats has as many distinct elements as entries. */
  lemma {:induction false} DistinctElementsCount(s: seq<nat>)
    requires Distinct(s)
    ensures |Elements(s)| == |s|
  {
    if s != [] {
      DistinctTail(s);
      DistinctElementsCount(s[1..]);
      ElementsOfCons(s);
      assert s[0] !in Elements(s[1..]);
    }
  }

  /** The indices 0 .. n-1 in order. */
  function Indices(n: nat): (s: seq<nat>)
    ensures |s| == n && forall k :: 0 <= k < n ==> s[k] == k
  {
    seq(n, k requires 0 <= k < n => k)
  }

  /** A ranking is a permutation: every index of p occurs in it. */
  lemma RankingCoversEveryIndex(order: seq<nat>, p: seq<real>)
    requires IsDescendingRanking(order, p)
    ensures forall j :: 0 <= j < |p| ==> j in order
  {
    var seen := Elements(order);
    var all := Elements(Indices(|p|));
    DistinctElementsCount(order);
    DistinctElementsCount(Indices(|p|));
    forall x | x in seen ensures x in all {
      assert Indices(|p|)[x] == x;
    }
    assert all == seen + (all - seen);
    assert |all - seen| == 0;
    forall j | 0 <= j < |p| ensures j in order {
      assert Indices(|p|)[j] == j;
      assert j in all;
    }
  }

  /** Places index i in front of the first ranked index of no higher probability. */
  function InsertRanked(p: seq<real>, i: nat, order: seq<nat>): (r: seq<nat>)
    requires i < |p| && NonIncreasing(order, p)
    ensures |r| == |order| + 1
    ensures forall x :: x in r <==> x == i || x in order
  {
    if order == [] || p[order[0]] <= p[i] then
      [i] + order
    else
      assert order == [order[0]] + order[1..];
      [order[0]] + InsertRanked(p, i, order[1..])
  }

  /** Dropping the first index of a ranking leaves a ranking. */
  lemma RankingTail(order: seq<nat>, p: seq<real>)
    requires NonIncreasing(order, p) && order != []
    ensures NonIncreasing(order[1..], p)
  {
    var tail := order[1..];
    forall a, b | 0 <= a < b < |tail| ensures p[tail[a]] >= p[tail[b]] {
      assert tail[a] == order[a + 1] && tail[b] == order[b + 1];
    }
  }

  /** Inserting keeps the ranking non-increasing. */
  lemma {:induction false} InsertRankedNonIncreasing(p: seq<real>, i: nat, order: seq<nat>)
    requires i < |p| && NonIncreasing(order, p)
    ensures NonIncreasing(InsertRanked(p, i, order), p)
  {
    if order == [] || p[order[0]] <= p[i] {
      var r := [i] + order;
      forall a, b | 0 <= a < b < |r| ensures p[r[a]] >= p[r[b]] {
        assert r[b] == order[b - 1];
        if a == 0 {
          if b > 1 {
            assert p[order[0]] >= p[order[b - 1]];
          }
        } else {
          assert r[a] == order[a - 1];
        }
      }
    } else {
      var tail := order[1..];
      RankingTail(order, p);
      InsertRankedNonIncreasing(p, i, tail);
      var rest := InsertRanked(p, i, tail);
      var r := [order[0]] + rest;
      forall a, b | 0 <= a < b < |r| ensures p[r[a]] >= p[r[b]] {
        assert r[b] == rest[b - 1];
        if a == 0 {
          assert rest[b - 1] in rest;
          if rest[b - 1] != i {
            var m :| 0 <= m < |tail| && tail[m] == rest[b - 1];
            assert order[m + 1] == rest[b - 1];
          }
        } else {
          assert r[a] == rest[a - 1];
        }
      }
      assert InsertRanked(p, i, order) == r;
    }
  }

  /** Inserting an index not yet ranked keeps the ranking free of repeats. */
  lemma {:induction false} InsertRankedDistinct(p: seq<real>, i: nat, order: seq<nat>)
    requires i < |p| && NonIncreasing(order, p)
    requires Distinct(order) && i !in order
    ensures Distinct(InsertRanked(p, i, order))
  {
    if order == [] || p[order[0]] <= p[i] {
      var r := [i] + order;
      forall a, b | 0 <= a < b < |r| ensures r[a] != r[b] {
        assert r[b] == order[b - 1];
        if a > 0 {
          assert r[a] == order[a - 1];
        }
      }
    } else {
      var tail := order[1..];
      RankingTail(order, p);
      DistinctTail(order);
      assert i !in tail;
      InsertRankedDistinct(p, i, tail);
      var rest := InsertRanked(p, i, tail);
      var r := [order[0]] + rest;
      forall a, b | 0 <= a < b < |r| ensures r[a] != r[b] {
        assert r[b] == rest[b - 1];
        if a == 0 {
          assert rest[b - 1] in rest;
        } else {
          assert r[a] == rest[a - 1];
        }
      }
      assert InsertRanked(p, i, order) == r;
    }
  }

  /** The indices 0 .. n-1 of p, ranked by non-increasing probability. */
  function RankPrefix(p: seq<real>, n: nat): (order: seq<nat>)
    requires n <= |p|
    ensures |order| == n
    ensures forall x: nat :: x in order <==> x < n
    ensures Distinct(order) && NonIncreasing(order, p)
  {
    if n == 0 then []
    else
      var prefix := RankPrefix(p, n - 1);
      InsertRankedNonIncreasing(p, n - 1, prefix);
      InsertRankedDistinct(p, n - 1, prefix);
      InsertRanked(p, n - 1, prefix)
  }

  /** A reference ranking: one value `argsort(p)[::-1]` can take, so every p admits a ranking. */
  function ArgsortDescending(p: seq<real>): (order: seq<nat>)
    ensures IsDescendingRanking(order, p)
  {
    RankPrefix(p, |p|)
  }

  /** The probabilities at the listed indices, added up in list order. */
  function SumAt(p: seq<real>, idx: seq<nat>): real
    requires InRange(idx, |p|)
  {
    if idx == [] then 0.0 else p[idx[0]] + SumAt(p, idx[1..])
  }

  /** The probabilities at the positions of p that occur in idx, added up in position order. */
  function MaskedSum(p: seq<real>, idx: seq<nat>): real {
    if p == [] then 0.0
    else MaskedSum(p[..|p| - 1], idx) + (if |p| - 1 in idx then p[|p| - 1] else 0.0)
  }

  /** MaskedSum sees only which positions of p occur. */
  lemma {:induction false} MaskedSumSamePositions(p: seq<real>, a: seq<nat>, b: seq<nat>)
    requires forall j: nat :: j < |p| ==> (j in a <==> j in b)
    ensures MaskedSum(p, a) == MaskedSum(p, b)
  {
    if p != [] {
      MaskedSumSamePositions(p[..|p| - 1], a, b);
    }
  }

  /** Taking the first listed index out of the mask takes its probability out of the sum. */
  lemma {:induction false} MaskedSumOfHead(p: seq<real>, idx: seq<nat>)
    requires idx != [] && idx[0] < |p| && idx[0] !in idx[1..]
    ensures MaskedSum(p, idx) == p[idx[0]] + MaskedSum(p, idx[1..])
  {
    var n := |p| - 1;
    var q := p[..n];
    assert idx == [idx[0]] + idx[1..];
    if idx[0] == n {
      MaskedSumSamePositions(q, idx, idx[1..]);
    } else {
      assert n in idx <==> n in idx[1..];
      MaskedSumOfHead(q, idx);
    }
  }

  /** With nothing listed, the masked sum is zero. */
  lemma {:induction false} MaskedSumOfNothing(p: seq<real>)
    ensures MaskedSum(p, []) == 0.0
  {
    if p != [] {
      MaskedSumOfNothing(p[..|p| - 1]);
    }
  }

  /** Over indices without repeats, the listed sum is the masked sum. */
  lemma {:induction false} SumAtIsMaskedSum(p: seq<real>, idx: seq<nat>)
    requires InRange(idx, |p|) && Distinct(idx)
    ensures SumAt(p, idx) == MaskedSum(p, idx)
  {
    if idx != [] {
      DistinctTail(idx);
      SumAtIsMaskedSum(p, idx[1..]);
      MaskedSumOfHead(p, idx);
    } else {
      MaskedSumOfNothing(p);
    }
  }

  /** A masked sum of non-negative values is at most the full sum, and equals it when every position occurs. */
  lemma {:induction false} MaskedSumBounds(p: seq<real>, idx: seq<nat>)
    requires NonNegative(p)
    ensures MaskedSum(p, idx) <= Sum(p)
    ensures (forall j: nat :: j < |p| ==> j in idx) ==> MaskedSum(p, idx) == Sum(p)
  {
    if p != [] {
      MaskedSumBounds(p[..|p| - 1], idx);
    }
  }

  // ---------------------------------------------------------------------------
  // The ranking rule of predict
  // ---------------------------------------------------------------------------

  /** The length of order[:topK] under Python slicing; a negative topK drops entries from the end. */
  function SliceLength(n: nat, topK: int): (k: nat)
    ensures k <= n
  {
    if topK >= 0 then (if topK < n then topK else n)
    else if n + topK > 0 then n + topK
    else 0
  }

  /** The top_predictions entry for class index idx. */
  function Entry(p: seq<real>, classNames: seq<string>, idx: nat): TopPrediction
    requires idx < |p| && idx < |classNames|
  {
    TopPrediction(classNames[idx], p[idx], p[idx] * 100.0)
  }

  /**
   * The result predict computes from probabilities p, ranking order and top_k,
   * for a predictor with the given class names, mode and threshold.
   */
  function Classify(p: seq<real>, order: seq<nat>, topK: int, classNames: seq<string>,
                    isDemo: bool, threshold: real): (r: Result<PredictionResult, PredictError>)
    requires IsDescendingRanking(order, p)
    ensures r.Err? <==>
              SliceLength(|order|, topK) == 0 ||
              exists k :: 0 <= k < SliceLength(|order|, topK) && order[k] >= |classNames|
    ensures r.Ok? ==>
              |r.value.topPredictions| == SliceLength(|order|, topK) &&
              r.value.predictedClass == r.value.topPredictions[0].className &&
              r.value.confidence == r.value.topPredictions[0].confidence &&
              r.value.percentage == r.value.confidence * 100.0
  {
    var top := order[..SliceLength(|order|, topK)];
    if !InRange(top, |classNames|) || top == [] then
      Err(IndexError)
    else
      var best := top[0];
      Ok(PredictionResult(
        classNames[best],
        p[best],
        p[best] * 100.0,
        seq(|top|, i requires 0 <= i < |top| => Entry(p, classNames, top[i])),
        isDemo,
        p[best] < threshold))
  }

  /**
   * With one probability per class, predict fails exactly when the slice of the
   * ranking is empty (top_k of 0, top_k of -N or less, or no classes), and
   * otherwise returns min(top_k, N) entries for a positive top_k.
   */
  lemma TopCountIsCapped(p: seq<real>, order: seq<nat>, topK: int, classNames: seq<string>,
                         isDemo: bool, threshold: real)
    requires IsDescendingRanking(order, p) && |classNames| == |p|
    ensures Classify(p, order, topK, classNames, isDemo, threshold).Err? <==>
              topK == 0 || topK <= -|p| || |p| == 0
    ensures topK >= 1 && |p| >= 1 ==>
              Classify(p, order, topK, classNames, isDemo, threshold).Ok? &&
              |Classify(p, order, topK, classNames, isDemo, threshold).value.topPredictions| ==
                (if topK < |classNames| then topK else |classNames|)
  {
    var top := order[..SliceLength(|order|, topK)];
    assert InRange(top, |classNames|);
  }

  /**
   * Entry i of top_predictions describes the class at rank i: its name, its
   * probability and that probability x 100. Ranks hold distinct indices and
   * the confidences do not increase.
   */
  lemma TopPredictionsFollowRanking(p: seq<real>, order: seq<nat>, topK: int, classNames: seq<string>,
                                    isDemo: bool, threshold: real)
    requires IsDescendingRanking(order, p)
    requires Classify(p, order, topK, classNames, isDemo, threshold).Ok?
    ensures var top := Classify(p, order, topK, classNames, isDemo, threshold).value.topPredictions;
            |top| <= |order| &&
            (forall i :: 0 <= i < |top| ==>
               order[i] < |classNames| &&
               top[i].className == classNames[order[i]] &&
               top[i].confidence == p[order[i]] &&
               top[i].percentage == p[order[i]] * 100.0) &&
            (forall i, j :: 0 <= i < j < |top| ==> order[i] != order[j]) &&
            (forall i, j :: 0 <= i < j < |top| ==> top[i].confidence >= top[j].confidence)
  {
  }

  /**
   * The best prediction is the first top entry, its confidence is the largest
   * probability, its percentage is confidence x 100 and its class is one of
   * the class names.
   */
  lemma BestIsMaximum(p: seq<real>, order: seq<nat>, topK: int, classNames: seq<string>,
                      isDemo: bool, threshold: real)
    requires IsDescendingRanking(order, p)
    requires Classify(p, order, topK, classNames, isDemo, threshold).Ok?
    ensures var res := Classify(p, order, topK, classNames, isDemo, threshold).value;
            |res.topPredictions| >= 1 &&
            res.predictedClass == res.topPredictions[0].className &&
            res.confidence == res.topPredictions[0].confidence &&
            res.percentage == res.confidence * 100.0 &&
            res.predictedClass in classNames &&
            (forall j :: 0 <= j < |p| ==> p[j] <= res.confidence)
  {
    var res := Classify(p, order, topK, classNames, isDemo, threshold).value;
    RankingCoversEveryIndex(order, p);
    forall j | 0 <= j < |p| ensures p[j] <= res.confidence {
      assert j in order;
      var k :| 0 <= k < |order| && order[k] == j;
      assert k == 0 || p[order[0]] >= p[order[k]];
    }
  }

  /**
   * For a demo draw (non-negative, summing to one) every reported confidence
   * lies in [0,1] and every percentage in [0,100].
   */
  lemma SimplexConfidencesInUnitInterval(p: seq<real>, order: seq<nat>, topK: int, classNames: seq<string>,
                                         isDemo: bool, threshold: real)
    requires IsDescendingRanking(order, p) && IsSimplexPoint(p)
    requires Classify(p, order, topK, classNames, isDemo, threshold).Ok?
    ensures var res := Classify(p, order, topK, classNames, isDemo, threshold).value;
            0.0 <= res.confidence <= 1.0 &&
            (forall i :: 0 <= i < |res.topPredictions| ==>
               0.0 <= res.topPredictions[i].confidence <= 1.0 &&
               0.0 <= res.topPredictions[i].percentage <= 100.0)
  {
    var res := Classify(p, order, topK, classNames, isDemo, threshold).value;
    forall i | 0 <= i < |res.topPredictions|
      ensures 0.0 <= res.topPredictions[i].confidence <= 1.0
      ensures 0.0 <= res.topPredictions[i].percentage <= 100.0
    {
      EntryAtMostSum(p, order[i]);
    }
    EntryAtMostSum(p, order[0]);
  }

  /** The confidences of a top_predictions list, added up. */
  function ConfidenceSum(top: seq<TopPrediction>): real {
    if top == [] then 0.0 else top[0].confidence + ConfidenceSum(top[1..])
  }

  lemma {:induction false} ConfidenceSumIsSumAt(top: seq<TopPrediction>, p: seq<real>, idx: seq<nat>)
    requires InRange(idx, |p|) && |top| == |idx|
    requires forall i :: 0 <= i < |top| ==> top[i].confidence == p[idx[i]]
    ensures ConfidenceSum(top) == SumAt(p, idx)
  {
    if top != [] {
      forall i | 0 <= i < |top| - 1 ensures top[1..][i].confidence == p[idx[1..][i]] {
        assert top[1..][i] == top[i + 1] && idx[1..][i] == idx[i + 1];
      }
      ConfidenceSumIsSumAt(top[1..], p, idx[1..]);
    }
  }

  /**
   * For a demo draw the listed confidences add up to at most one, and to
   * exactly one when top_k lists every class.
   */
  lemma TopConfidencesSumAtMostOne(p: seq<real>, order: seq<nat>, topK: int, classNames: seq<string>,
                                   isDemo: bool, threshold: real)
    requires IsDescendingRanking(order, p) && IsSimplexPoint(p)
    requires Classify(p, order, topK, classNames, isDemo, threshold).Ok?
    ensures var top := Classify(p, order, topK, classNames, isDemo, threshold).value.topPredictions;
            ConfidenceSum(top) <= 1.0 && (topK >= |p| ==> ConfidenceSum(top) == 1.0)
  {
    var top := Classify(p, order, topK, classNames, isDemo, threshold).value.topPredictions;
    var idx := order[..SliceLength(|order|, topK)];
    TopPredictionsFollowRanking(p, order, topK, classNames, isDemo, threshold);
    assert forall i :: 0 <= i < |top| ==> top[i].confidence == p[idx[i]];
    ConfidenceSumIsSumAt(top, p, idx);
    SumAtIsMaskedSum(p, idx);
    if topK >= |p| {
      assert idx == order;
      RankingCoversEveryIndex(order, p);
    }
    MaskedSumBounds(p, idx);
  }

  /** The low-confidence flag is a strict comparison, and the demo flag is copied from the predictor. */
  lemma FlagsOfResult(p: seq<real>, order: seq<nat>, topK: int, classNames: seq<string>,
                      isDemo: bool, threshold: real)
    requires IsDescendingRanking(order, p)
    requires Classify(p, order, topK, classNames, isDemo, threshold).Ok?
    ensures var res := Classify(p, order, topK, classNames, isDemo, threshold).value;
            (res.isLowConfidence <==> res.confidence < threshold) &&
            (res.confidence == threshold ==> !res.isLowConfidence) &&
            res.isDemo == isDemo
  {
  }

  /** Three classes and top_k = 10: exactly three predictions, no error. */
  lemma TopTenOfThreeClasses(p: seq<real>, order: seq<nat>, isDemo: bool, threshold: real)
    requires |p| == 3 && IsDescendingRanking(order, p)
    ensures Classify(p, order, 10, DefaultClassNames, isDemo, threshold).Ok?
    ensures |Classify(p, order, 10, DefaultClassNames, isDemo, threshold).value.topPredictions| == 3
  {
    TopCountIsCapped(p, order, 10, DefaultClassNames, isDemo, threshold);
  }

  /** With the defaults, top_k = 3 over the three default classes lists every class, its confidences summing to one for a demo draw. */
  lemma DefaultTopKListsEveryDefaultClass(p: seq<real>, order: seq<nat>, isDemo: bool)
    requires |p| == 3 && IsDescendingRanking(order, p)
    ensures Classify(p, order, DefaultTopK, DefaultClassNames, isDemo, DefaultLowConfidenceThreshold).Ok?
    ensures |Classify(p, order, DefaultTopK, DefaultClassNames, isDemo, DefaultLowConfidenceThreshold).value.topPredictions| == 3
    ensures IsSimplexPoint(p) ==>
              ConfidenceSum(Classify(p, order, DefaultTopK, DefaultClassNames, isDemo,
                                     DefaultLowConfidenceThreshold).value.topPredictions) == 1.0
  {
    TopCountIsCapped(p, order, DefaultTopK, DefaultClassNames, isDemo, DefaultLowConfidenceThreshold);
    if IsSimplexPoint(p) {
      TopConfidencesSumAtMostOne(p, order, DefaultTopK, DefaultClassNames, isDemo, DefaultLowConfidenceThreshold);
    }
  }

  // ---------------------------------------------------------------------------
  // Construction
  // ---------------------------------------------------------------------------

  /** The handle of a model deserialized from the artifact at path. */
  datatype ModelHandle = ModelHandle(path: string)

  /** The JSON object of the sidecar: its class_names entry, if any, and its other keys. */
  datatype Metadata = Metadata(classNames: Option<seq<string>>, otherKeys: set<string>) {
    /** An object with no keys, which counts as false. */
    predicate IsEmpty() {
      classNames.None? && otherKeys == {}
    }
  }

  /** Metadata as read from a sidecar: a class_names key, if present, is the classNames entry and no other. */
  type SidecarMetadata = m: Metadata | "class_names" !in m.otherKeys witness Metadata(None, {})

  /** The sidecar next to the model file: absent, failing to open or parse, or read. */
  datatype Sidecar = NoSidecar | UnreadableSidecar | SidecarRecord(metadata: SidecarMetadata)

  /** What construction finds: the runtime, the artifact, whether it deserializes, the sidecar. */
  datatype LoadEnvironment = LoadEnvironment(
    tensorflowAvailable: bool,
    artifactExists: bool,
    artifactLoads: bool,
    sidecar: Sidecar)

  /** The fields construction decides. */
  datatype PredictorState = PredictorState(
    model: Option<ModelHandle>,
    demoMode: bool,
    metadata: Option<SidecarMetadata>,
    classNames: seq<string>)

  /** `Path(model_path) if model_path else None`: an empty path counts as none. */
  function ModelPathArgument(modelPath: Option<string>): (path: Option<string>)
    ensures path.Some? ==> path.value != "" && path == modelPath
    ensures modelPath.Some? && modelPath.value != "" ==> path == modelPath
  {
    if modelPath == Some("") then None else modelPath
  }

  /** `class_names or DEFAULT_CLASS_NAMES`: a missing or empty list falls back to the defaults. */
  function ClassNamesArgument(classNames: Option<seq<string>>): (names: seq<string>)
    ensures names != []
    ensures classNames.Some? && classNames.value != [] ==> names == classNames.value
    ensures classNames.None? || classNames.value == [] ==> names == DefaultClassNames
  {
    if classNames.None? || classNames.value == [] then DefaultClassNames else classNames.value
  }

  /** The state _load_model leaves, starting from no model, no metadata and the given names. */
  function AfterLoad(modelPath: Option<string>, names: seq<string>, env: LoadEnvironment): (s: PredictorState)
    ensures s.model.Some? <==>
              env.tensorflowAvailable && modelPath.Some? && env.artifactExists && env.artifactLoads
    ensures s.model.Some? ==> s.model.value.path == modelPath.value
    ensures s.metadata.Some? ==> !s.demoMode && env.sidecar == SidecarRecord(s.metadata.value)
    ensures !s.demoMode && env.sidecar.SidecarRecord? ==> s.metadata == Some(env.sidecar.metadata)
    ensures s.demoMode ==> s.metadata.None? && s.classNames == names
  {
    if !env.tensorflowAvailable || modelPath.None? || !env.artifactExists || !env.artifactLoads then
      PredictorState(None, true, None, names)
    else
      var model := Some(ModelHandle(modelPath.value));
      match env.sidecar
      case NoSidecar => PredictorState(model, false, None, names)
      case UnreadableSidecar => PredictorState(model, true, None, names)
      case SidecarRecord(metadata) =>
        PredictorState(model, false, Some(metadata),
                       if metadata.classNames.Some? then metadata.classNames.value else names)
  }

  /**
   * Demo mode holds exactly when the runtime is missing, there is no path or
   * no file at it, or loading raised (the model or its sidecar).
   */
  lemma DemoModeIff(modelPath: Option<string>, names: seq<string>, env: LoadEnvironment)
    ensures AfterLoad(modelPath, names, env).demoMode <==>
              !env.tensorflowAvailable || modelPath.None? || !env.artifactExists ||
              !env.artifactLoads || env.sidecar == UnreadableSidecar
    ensures !AfterLoad(modelPath, names, env).demoMode ==>
              AfterLoad(modelPath, names, env).model == Some(ModelHandle(modelPath.value))
  {
  }

  /**
   * The sidecar's class names replace the given ones only after a successful
   * load; in every other case the names stay as given.
   */
  lemma SidecarOverridesOnlyWhenLoaded(modelPath: Option<string>, names: seq<string>, env: LoadEnvironment)
    ensures var s := AfterLoad(modelPath, names, env);
            s.classNames != names ==>
              !s.demoMode && env.sidecar.SidecarRecord? && env.sidecar.metadata.classNames == Some(s.classNames)
    ensures var s := AfterLoad(modelPath, names, env);
            !s.demoMode && env.sidecar.SidecarRecord? && env.sidecar.metadata.classNames.Some? ==>
              s.classNames == env.sidecar.metadata.classNames.value
    ensures AfterLoad(modelPath, names, env).demoMode ==> AfterLoad(modelPath, names, env).classNames == names
  {
  }

  /** What get_model_info reports. */
  datatype ModelInfo =
    | DemoInfo
    | ProductionInfo(modelPath: string, classNames: seq<string>, numClasses: nat, metadata: Option<SidecarMetadata>)
  {
    function Mode(): string {
      if DemoInfo? then "demo" else "production"
    }

    function ModelLoaded(): bool {
      ProductionInfo?
    }
  }

  class ModelPredictor {
    var modelPath: Option<string>
    var classNames: seq<string>
    var lowConfidenceThreshold: real
    var model: Option<ModelHandle>
    var demoMode: bool
    var modelMetadata: Option<SidecarMetadata>

    function State(): PredictorState
      reads this
    {
      PredictorState(model, demoMode, modelMetadata, classNames)
    }

    /** Out of demo mode there is a model path and a loaded model. */
    ghost predicate Valid()
      reads this
    {
      !demoMode ==> modelPath.Some? && model.Some?
    }

    /** __init__: store the arguments, then run _load_model once. */
    constructor (modelPath: Option<string>, classNames: Option<seq<string>>, lowConfidenceThreshold: real,
                 env: LoadEnvironment)
      ensures Valid()
      ensures this.modelPath == ModelPathArgument(modelPath)
      ensures this.lowConfidenceThreshold == lowConfidenceThreshold
      ensures State() == AfterLoad(ModelPathArgument(modelPath), ClassNamesArgument(classNames), env)
    {
      this.modelPath := ModelPathArgument(modelPath);
      this.classNames := ClassNamesArgument(classNames);
      this.lowConfidenceThreshold := lowConfidenceThreshold;
      model := None;
      demoMode := false;
      modelMetadata := None;
      new;
      LoadModel(env);
    }

    /** _load_model: the model load and the sidecar read share one try block. */
    method LoadModel(env: LoadEnvironment)
      requires model.None? && !demoMode && modelMetadata.None?
      modifies this
      ensures State() == AfterLoad(modelPath, old(classNames), env)
      ensures modelPath == old(modelPath) && lowConfidenceThreshold == old(lowConfidenceThreshold)
      ensures Valid()
    {
      if !env.tensorflowAvailable {
        demoMode := true;
        return;
      }
      if modelPath.Some? && env.artifactExists {
        if !env.artifactLoads {
          demoMode := true;
        } else {
          model := Some(ModelHandle(modelPath.value));
          demoMode := false;
          match env.sidecar {
            case NoSidecar =>
            case UnreadableSidecar =>
              demoMode := true;
            case SidecarRecord(metadata) =>
              modelMetadata := Some(metadata);
              if metadata.classNames.Some? {
                classNames := metadata.classNames.value;
              }
          }
        }
      } else {
        demoMode := true;
      }
    }

    /** is_demo_mode; out of demo mode a model is loaded. */
    predicate IsDemoMode()
      reads this
      requires Valid()
      ensures !IsDemoMode() ==> model.Some? && modelPath.Some?
    {
      demoMode
    }

    /** get_model_info: only mode and model_loaded in demo mode; path, names and their count otherwise. */
    function GetModelInfo(): (info: ModelInfo)
      reads this
      requires Valid()
      ensures info.DemoInfo? <==> demoMode
      ensures info.Mode() == (if demoMode then "demo" else "production")
      ensures info.ModelLoaded() == !demoMode
      ensures info.ProductionInfo? ==>
                info.modelPath == modelPath.value && info.classNames == classNames &&
                info.numClasses == |classNames|
      ensures info.ProductionInfo? ==>
                (info.metadata.Some? <==> modelMetadata.Some? && !modelMetadata.value.IsEmpty()) &&
                (info.metadata.Some? ==> info.metadata == modelMetadata)
    {
      if demoMode then DemoInfo
      else
        ProductionInfo(modelPath.value, classNames, |classNames|,
                       if modelMetadata.Some? && !modelMetadata.value.IsEmpty() then modelMetadata else None)
    }

    /**
     * predict. `probabilities` is the model's output for the image in loaded
     * mode and the Dirichlet draw over the classes in demo mode; `order` is
     * argsort(probabilities)[::-1]. The predictor's state is only read.
     */
    method Predict(preprocessedImage: Preprocessing.Tensor, topK: int, probabilities: seq<real>, order: seq<nat>)
      returns (r: Result<PredictionResult, PredictError>)
      requires demoMode ==> |probabilities| == |classNames| && IsSimplexPoint(probabilities)
      requires IsDescendingRanking(order, probabilities)
      ensures r == Classify(probabilities, order, topK, classNames, demoMode, lowConfidenceThreshold)
    {
      var names := classNames;
      var topIndices := order[..SliceLength(|order|, topK)];
      assert InRange(topIndices, |probabilities|);
      var topPredictions: seq<TopPrediction> := [];
      for i := 0 to |topIndices|
        invariant forall k :: 0 <= k < i ==> topIndices[k] < |names|
        invariant |topPredictions| == i
        invariant forall k :: 0 <= k < i ==> topPredictions[k] == Entry(probabilities, names, topIndices[k])
      {
        var idx := topIndices[i];
        if idx >= |names| {
          assert !InRange(topIndices, |names|);
          return Err(IndexError);
        }
        topPredictions := topPredictions +
          [TopPrediction(names[idx], probabilities[idx], probabilities[idx] * 100.0)];
      }
      assert InRange(topIndices, |names|);
      if |topIndices| == 0 {
        return Err(IndexError);
      }
      assert topPredictions ==
               seq(|topIndices|, k requires 0 <= k < |topIndices| => Entry(probabilities, names, topIndices[k]));
      var bestIdx := topIndices[0];
      var bestConfidence := probabilities[bestIdx];
      r := Ok(PredictionResult(
        classNames[bestIdx],
        bestConfidence,
        bestConfidence * 100.0,
        topPredictions,
        demoMode,
        bestConfidence < lowConfidenceThreshold));
    }
  }

  /**
   * A demo-mode predictor always answers a positive top_k, with min(top_k, N)
   * entries whose confidences lie in [0,1] and with the demo flag set.
   */
  lemma DemoPredictionsAreWellFormed(predictor: ModelPredictor, p: seq<real>, order: seq<nat>, topK: int)
    requires predictor.demoMode && predictor.classNames != []
    requires |p| == |predictor.classNames| && IsSimplexPoint(p) && IsDescendingRanking(order, p)
    requires topK >= 1
    ensures var r := Classify(p, order, topK, predictor.classNames, predictor.demoMode, predictor.lowConfidenceThreshold);
            r.Ok? && r.value.isDemo &&
            |r.value.topPredictions| == (if topK < |p| then topK else |p|) &&
            0.0 <= r.value.confidence <= 1.0
  {
    var names, thr := predictor.classNames, predictor.lowConfidenceThreshold;
    TopCountIsCapped(p, order, topK, names, true, thr);
    SimplexConfidencesInUnitInterval(p, order, topK, names, true, thr);
  }
}
