/**
 * The model-evaluation layer of src/models.py: the metrics evaluator, the
 * multi-model search driver and the principal-component selector.  The
 * classifiers, GridSearchCV and the PCA transform are oracles passed in as
 * functions.
 */
module Models {
  import opened Wrappers

  // ---------------------------------------------------------------------------
  // Counting over aligned label vectors (independent reference definitions)
  // ---------------------------------------------------------------------------

  /** How often v occurs in s. */
  function Occurrences(s: seq<int>, v: int): nat
  {
    if |s| == 0 then 0 else Occurrences(s[1..], v) + (if s[0] == v then 1 else 0)
  }

  /** Positions where the true label and the prediction are both v. */
  function Hits(yTrue: seq<int>, yPred: seq<int>, v: int): nat
    requires |yTrue| == |yPred|
  {
    if |yTrue| == 0 then 0
    else Hits(yTrue[1..], yPred[1..], v) + (if yTrue[0] == v && yPred[0] == v then 1 else 0)
  }

  /** Positions whose true label is v and whose prediction is not. */
  function Misses(yTrue: seq<int>, yPred: seq<int>, v: int): nat
    requires |yTrue| == |yPred|
  {
    if |yTrue| == 0 then 0
    else Misses(yTrue[1..], yPred[1..], v) + (if yTrue[0] == v && yPred[0] != v then 1 else 0)
  }

  /** Positions where the prediction equals the true label. */
  function Agreements(yTrue: seq<int>, yPred: seq<int>): nat
    requires |yTrue| == |yPred|
  {
    if |yTrue| == 0 then 0
    else Agreements(yTrue[1..], yPred[1..]) + (if yTrue[0] == yPred[0] then 1 else 0)
  }

  predicate AllIn(s: seq<int>, a: int, b: int)
  {
    forall i :: 0 <= i < |s| ==> s[i] == a || s[i] == b
  }

  /** Exactly the two labels a < b occur in s. */
  ghost predicate TwoClasses(s: seq<int>, a: int, b: int)
  {
    a < b && a in s && b in s && AllIn(s, a, b)
  }

  // ---------------------------------------------------------------------------
  // The confusion matrix
  // ---------------------------------------------------------------------------

  /** The four cells of a 2x2 confusion matrix, in the order ravel() yields them. */
  datatype Confusion = Confusion(tn: nat, fp: nat, fn: nat, tp: nat)

  /** The confusion matrix of two aligned vectors over the labels neg (row/column 0) and pos. */
  function Tally(yTrue: seq<int>, yPred: seq<int>, neg: int, pos: int): (c: Confusion)
    requires |yTrue| == |yPred| && neg != pos
    requires AllIn(yTrue, neg, pos) && AllIn(yPred, neg, pos)
    ensures c.tn + c.fp + c.fn + c.tp == |yTrue|
    ensures c.tp == Hits(yTrue, yPred, pos) && c.tn == Hits(yTrue, yPred, neg)
    ensures c.fn == Misses(yTrue, yPred, pos) && c.fp == Misses(yTrue, yPred, neg)
    ensures c.tp + c.fn == Occurrences(yTrue, pos) && c.tn + c.fp == Occurrences(yTrue, neg)
    ensures c.tp + c.fp == Occurrences(yPred, pos)
    ensures c.tn + c.tp == Agreements(yTrue, yPred)
  {
    if |yTrue| == 0 then Confusion(0, 0, 0, 0)
    else
      var c := Tally(yTrue[1..], yPred[1..], neg, pos);
      var t, p := yTrue[0], yPred[0];
      if t == neg && p == neg then c.(tn := c.tn + 1)
      else if t == neg then c.(fp := c.fp + 1)
      else if p == neg then c.(fn := c.fn + 1)
      else c.(tp := c.tp + 1)
  }

  // ---------------------------------------------------------------------------
  // Metric values
  // ---------------------------------------------------------------------------

  /** A float that numpy may turn into NaN (an integer division by zero). */
  datatype Rate = Finite(r: real) | NaN

  /** num/den as sklearn's scorers report it: 0 when den is 0 (zero_division="warn"). */
  function Fraction(num: nat, den: nat): real
  {
    if den == 0 then 0.0 else num as real / den as real
  }

  /** num/den as numpy int64 division yields it: NaN when den is 0. */
  function NumpyRatio(num: nat, den: nat): Rate
  {
    if den == 0 then NaN else Finite(num as real / den as real)
  }

  /** The harmonic mean 2PR/(P+R), and 0 when both are 0. */
  function Harmonic(p: real, r: real): real
  {
    if p + r == 0.0 then 0.0 else 2.0 * p * r / (p + r)
  }

  datatype Metrics = Metrics(
    precision: real, recall: real, fScore: real, accuracy: real,
    missRate: Rate, falloutRate: Rate)

  function Min(s: seq<int>): (m: int)
    requires |s| > 0
    ensures m in s && forall i :: 0 <= i < |s| ==> m <= s[i]
  {
    if |s| == 1 then s[0]
    else var m := Min(s[1..]); if s[0] <= m then s[0] else m
  }

  function Max(s: seq<int>): (m: int)
    requires |s| > 0
    ensures m in s && forall i :: 0 <= i < |s| ==> s[i] <= m
  {
    if |s| == 1 then s[0]
    else var m := Max(s[1..]); if s[0] >= m then s[0] else m
  }

  lemma DivMul(a: real, x: real)
    requires x != 0.0
    ensures (a / x) * x == a
  {
  }

  lemma Cancel(q: real, u: real, v: real)
    requires v != 0.0 && q * v == u * v
    ensures q == u
  {
  }

  /** For a, x, y > 0: the harmonic mean of a/x and a/y is 2a/(x+y). */
  lemma HarmonicOfRatios(a: real, x: real, y: real)
    requires a > 0.0 && x > 0.0 && y > 0.0
    ensures Harmonic(a / x, a / y) == 2.0 * a / (x + y)
  {
    var p, r := a / x, a / y;
    DivMul(a, x);
    DivMul(a, y);
    var sum, prod := (p + r) * (x * y), (2.0 * p * r) * (x * y);
    assert sum == a * (x + y) by {
      assert (p + r) * (x * y) == (p * x) * y + (r * y) * x;
    }
    assert prod == 2.0 * a * a by {
      assert (2.0 * p * r) * (x * y) == 2.0 * (p * x) * (r * y);
    }
    var q := 2.0 * a / (x + y);
    DivMul(2.0 * a, x + y);
    var h := 2.0 * p * r / (p + r);
    assert p + r > 0.0;
    DivMul(2.0 * p * r, p + r);
    assert h * (p + r) * (x * y) == 2.0 * a * a;
    assert h * ((p + r) * (x * y)) == h * (a * (x + y));
    assert (h * (x + y)) * a == (q * (x + y)) * a;
    Cancel(h * (x + y), q * (x + y), a);
    Cancel(h, q, x + y);
  }

  /** sklearn's F1, 2tp/(2tp+fp+fn), is the harmonic mean of precision tp/(tp+fp) and recall tp/(tp+fn). */
  lemma FScoreIsHarmonic(tp: nat, fp: nat, fn: nat)
    ensures Fraction(2 * tp, 2 * tp + fp + fn) == Harmonic(Fraction(tp, tp + fp), Fraction(tp, tp + fn))
  {
    if tp > 0 {
      HarmonicOfRatios(tp as real, (tp + fp) as real, (tp + fn) as real);
      assert (2 * tp + fp + fn) as real == (tp + fp) as real + (tp + fn) as real;
    }
  }

  /** The two labels of s, when exactly two occur, are its minimum and its maximum. */
  lemma TwoClassesAreMinMax(s: seq<int>, a: int, b: int)
    requires TwoClasses(s, a, b)
    ensures a == Min(s) && b == Max(s)
  {
  }

  lemma AllInHalves(yTrue: seq<int>, yPred: seq<int>, a: int, b: int)
    requires AllIn(yTrue + yPred, a, b)
    ensures AllIn(yTrue, a, b) && AllIn(yPred, a, b)
  {
    var all := yTrue + yPred;
    assert forall i :: 0 <= i < |yTrue| ==> yTrue[i] == all[i];
    assert forall i :: 0 <= i < |yPred| ==> yPred[i] == all[|yTrue| + i];
  }

  /**
   * The six metrics by their definitions: accuracy is the share of agreements;
   * precision, recall and F1 take 1 as the positive label; miss rate and
   * fall-out rate take hi and lo as the positive and negative label.
   */
  ghost predicate MeetsDefinitions(yTrue: seq<int>, yPred: seq<int>, lo: int, hi: int, m: Metrics)
    requires |yTrue| == |yPred|
  {
    && m.accuracy == Fraction(Agreements(yTrue, yPred), |yTrue|)
    && m.precision == Fraction(Hits(yTrue, yPred, 1), Occurrences(yPred, 1))
    && m.recall == Fraction(Hits(yTrue, yPred, 1), Occurrences(yTrue, 1))
    && m.fScore == Harmonic(m.precision, m.recall)
    && m.missRate == NumpyRatio(Misses(yTrue, yPred, hi), Occurrences(yTrue, hi))
    && m.falloutRate == NumpyRatio(Misses(yTrue, yPred, lo), Occurrences(yTrue, lo))
  }

  /** precision_score, recall_score and f1_score with positive label 1 and negative label neg. */
  function PositiveScores(yTrue: seq<int>, yPred: seq<int>, neg: int): (s: (real, real, real))
    requires |yTrue| == |yPred| && neg != 1
    requires AllIn(yTrue, neg, 1) && AllIn(yPred, neg, 1)
    ensures s.0 == Fraction(Hits(yTrue, yPred, 1), Occurrences(yPred, 1))
    ensures s.1 == Fraction(Hits(yTrue, yPred, 1), Occurrences(yTrue, 1))
    ensures s.2 == Harmonic(s.0, s.1)
  {
    var q := Tally(yTrue, yPred, neg, 1);
    FScoreIsHarmonic(q.tp, q.fp, q.fn);
    (Fraction(q.tp, q.tp + q.fp), Fraction(q.tp, q.tp + q.fn), Fraction(2 * q.tp, 2 * q.tp + q.fp + q.fn))
  }

  /** The metrics computed from the ravelled confusion matrix over (lo, hi) and the pos_label=1 scorers. */
  function ScoreBinary(yTrue: seq<int>, yPred: seq<int>, lo: int, hi: int): (m: Metrics)
    requires |yTrue| == |yPred| > 0 && lo < hi && (lo == 1 || hi == 1)
    requires AllIn(yTrue, lo, hi) && AllIn(yPred, lo, hi)
    ensures MeetsDefinitions(yTrue, yPred, lo, hi, m)
  {
    var c := Tally(yTrue, yPred, lo, hi);
    assert c.tn + c.tp == Agreements(yTrue, yPred);
    assert c.fn == Misses(yTrue, yPred, hi) && c.fn + c.tp == Occurrences(yTrue, hi);
    assert c.fp == Misses(yTrue, yPred, lo) && c.fp + c.tn == Occurrences(yTrue, lo);
    var s := PositiveScores(yTrue, yPred, if hi == 1 then lo else hi);
    Metrics(
      precision := s.0,
      recall := s.1,
      fScore := s.2,
      accuracy := Fraction(c.tn + c.tp, |yTrue|),
      missRate := NumpyRatio(c.fn, c.fn + c.tp),
      falloutRate := NumpyRatio(c.fp, c.fp + c.tn))
  }

  /**
   * calculate_metrics: None, as a whole, unless the vectors are aligned and
   * exactly two labels occur in them, one of which is 1 (confusion_matrix must
   * ravel into four cells, and the scorers need pos_label 1 to occur).
   */
  function CalculateMetrics(yTrue: seq<int>, yPred: seq<int>): (r: Option<Metrics>)
    ensures r.Some? <==>
      |yTrue| == |yPred| && exists a, b :: TwoClasses(yTrue + yPred, a, b) && (a == 1 || b == 1)
    ensures r.Some? ==>
      |yTrue| == |yPred| > 0 &&
      MeetsDefinitions(yTrue, yPred, Min(yTrue + yPred), Max(yTrue + yPred), r.value)
  {
    var all := yTrue + yPred;
    if |yTrue| != |yPred| || |all| == 0 then None
    else
      var lo, hi := Min(all), Max(all);
      if lo == hi || !AllIn(all, lo, hi) || (lo != 1 && hi != 1) then
        assert forall a, b :: TwoClasses(all, a, b) ==> a == lo && b == hi by {
          forall a, b | TwoClasses(all, a, b) ensures a == lo && b == hi {
            TwoClassesAreMinMax(all, a, b);
          }
        }
        None
      else
        assert TwoClasses(all, lo, hi);
        AllInHalves(yTrue, yPred, lo, hi);
        Some(ScoreBinary(yTrue, yPred, lo, hi))
  }

  /** Every true label v is either predicted as v (a hit) or not (a miss). */
  lemma {:induction false} HitsPlusMisses(yTrue: seq<int>, yPred: seq<int>, v: int)
    requires |yTrue| == |yPred|
    ensures Hits(yTrue, yPred, v) + Misses(yTrue, yPred, v) == Occurrences(yTrue, v)
  {
    if |yTrue| > 0 {
      HitsPlusMisses(yTrue[1..], yPred[1..], v);
    }
  }

  /** For 0/1 labels with at least one true positive case, miss rate = 1 - recall. */
  lemma MissRateIsOneMinusRecall(yTrue: seq<int>, yPred: seq<int>)
    requires CalculateMetrics(yTrue, yPred).Some?
    requires Min(yTrue + yPred) == 0 && Max(yTrue + yPred) == 1
    requires Occurrences(yTrue, 1) > 0
    ensures CalculateMetrics(yTrue, yPred).value.missRate == Finite(1.0 - CalculateMetrics(yTrue, yPred).value.recall)
  {
    var m := CalculateMetrics(yTrue, yPred).value;
    assert MeetsDefinitions(yTrue, yPred, 0, 1, m);
    var h, o := Hits(yTrue, yPred, 1), Occurrences(yTrue, 1);
    HitsPlusMisses(yTrue, yPred, 1);
    assert m.recall == h as real / o as real;
    assert m.missRate == Finite((o - h) as real / o as real);
    assert (o - h) as real == o as real - h as real;
    ComplementRatio(h as real, o as real);
  }

  lemma ComplementRatio(x: real, y: real)
    requires y != 0.0
    ensures (y - x) / y == 1.0 - x / y
  {
    var u := y - x;
    DivMul(u, y);
    DivMul(x, y);
    assert (u / y) * y == u;
    assert (1.0 - x / y) * y == y - (x / y) * y == u;
    Cancel((y - x) / y, 1.0 - x / y, y);
  }

  /** A confusion matrix with a single class cannot be unpacked into four cells. */
  lemma OneClassFails(yTrue: seq<int>, yPred: seq<int>, v: int)
    requires AllIn(yTrue, v, v) && AllIn(yPred, v, v)
    ensures CalculateMetrics(yTrue, yPred).None?
  {
    var all := yTrue + yPred;
    assert AllIn(all, v, v) by {
      forall i | 0 <= i < |all| ensures all[i] == v {
        if i < |yTrue| { assert all[i] == yTrue[i]; } else { assert all[i] == yPred[i - |yTrue|]; }
      }
    }
    assert forall a, b :: !TwoClasses(all, a, b);
  }

  /** The tallies of the worked example. */
  lemma WorkedCounts()
    ensures Agreements([1, 0, 1, 0, 1], [1, 0, 0, 0, 1]) == 4
    ensures Hits([1, 0, 1, 0, 1], [1, 0, 0, 0, 1], 1) == 2 && Occurrences([1, 0, 0, 0, 1], 1) == 2
    ensures Occurrences([1, 0, 1, 0, 1], 1) == 3 && Misses([1, 0, 1, 0, 1], [1, 0, 0, 0, 1], 1) == 1
    ensures Occurrences([1, 0, 1, 0, 1], 0) == 2 && Misses([1, 0, 1, 0, 1], [1, 0, 0, 0, 1], 0) == 0
  {
  }

  /** The ratios of the worked example. */
  lemma WorkedRatios()
    ensures Fraction(4, 5) == 0.8 && Fraction(2, 2) == 1.0 && Fraction(2, 3) == 2.0 / 3.0
    ensures Harmonic(1.0, 2.0 / 3.0) == 0.8
    ensures NumpyRatio(1, 3) == Finite(1.0 / 3.0) && NumpyRatio(0, 2) == Finite(0.0)
  {
  }

  /** The worked example: true = [1,0,1,0,1], predicted = [1,0,0,0,1]. */
  lemma WorkedExample()
    ensures CalculateMetrics([1, 0, 1, 0, 1], [1, 0, 0, 0, 1]) ==
      Some(Metrics(1.0, 2.0 / 3.0, 0.8, 0.8, Finite(1.0 / 3.0), Finite(0.0)))
  {
    var t, p := [1, 0, 1, 0, 1], [1, 0, 0, 0, 1];
    assert TwoClasses(t + p, 0, 1);
    TwoClassesAreMinMax(t + p, 0, 1);
    var r := CalculateMetrics(t, p);
    assert r.Some?;
    var m := r.value;
    assert MeetsDefinitions(t, p, 0, 1, m);
    WorkedCounts();
    WorkedRatios();
  }

  // ---------------------------------------------------------------------------
  // The search driver (grid_search_func)
  // ---------------------------------------------------------------------------

  /** r is x rounded to two decimals: a whole number of hundredths, within half a hundredth of x. */
  ghost predicate RoundsTo(x: real, r: real)
  {
    (r * 100.0).Floor as real == r * 100.0 && -0.005 < r - x <= 0.005
  }

  ghost predicate RateRoundsTo(x: Rate, r: Rate)
  {
    match x
    case NaN => r == NaN
    case Finite(v) => r.Finite? && RoundsTo(v, r.r)
  }

  /** round(x, 2), ties upward. */
  function Round2(x: real): (r: real)
    ensures RoundsTo(x, r)
  {
    var k := (x * 100.0 + 0.5).Floor;
    assert (k as real / 100.0) * 100.0 == k as real;
    k as real / 100.0
  }

  /** round on a numpy float: NaN stays NaN. */
  function RoundRate(x: Rate): (r: Rate)
    ensures RateRoundsTo(x, r)
  {
    match x
    case NaN => NaN
    case Finite(v) => Finite(Round2(v))
  }

  /** One row of the results table. */
  datatype ResultRow = ResultRow(
    model: string, precision: real, recall: real, fScore: real, accuracy: real,
    missRate: Rate, falloutRate: Rate)

  /** row reports the metrics m of the model name, each rounded to two decimals. */
  ghost predicate Reports(name: string, m: Metrics, row: ResultRow)
  {
    && row.model == name
    && RoundsTo(m.precision, row.precision) && RoundsTo(m.recall, row.recall)
    && RoundsTo(m.fScore, row.fScore) && RoundsTo(m.accuracy, row.accuracy)
    && RateRoundsTo(m.missRate, row.missRate) && RateRoundsTo(m.falloutRate, row.falloutRate)
  }

  function ReportRow(name: string, m: Metrics): (row: ResultRow)
    ensures Reports(name, m, row)
  {
    ResultRow(name, Round2(m.precision), Round2(m.recall), Round2(m.fScore), Round2(m.accuracy),
      RoundRate(m.missRate), RoundRate(m.falloutRate))
  }

  /**
   * The loop body for one model: look its grid up (a KeyError when absent), run the
   * search oracle (GridSearchCV fit, best estimator, predict on the test matrix),
   * score the predictions, and report them; None wherever the source raises.
   */
  function EvaluateModel<E, G>(name: string, estimator: E, paramGrids: map<string, G>,
                               yTest: seq<int>, search: (E, G) -> Option<seq<int>>): (r: Option<ResultRow>)
    ensures r.Some? <==>
      && name in paramGrids
      && search(estimator, paramGrids[name]).Some?
      && CalculateMetrics(yTest, search(estimator, paramGrids[name]).value).Some?
    ensures r.Some? ==>
      Reports(name, CalculateMetrics(yTest, search(estimator, paramGrids[name]).value).value, r.value)
  {
    if name !in paramGrids then None
    else match search(estimator, paramGrids[name])
      case None => None
      case Some(predictions) =>
        match CalculateMetrics(yTest, predictions)
        case None => None
        case Some(m) => Some(ReportRow(name, m))
  }

  /**
   * grid_search_func: one row per model in the order of models, or None as a whole
   * as soon as any model fails.  models is the dictionary of estimators in insertion
   * order; search stands for GridSearchCV over the training data followed by
   * predict on the test matrix.
   */
  method GridSearch<E, G>(models: seq<(string, E)>, paramGrids: map<string, G>,
                          yTest: seq<int>, search: (E, G) -> Option<seq<int>>)
    returns (table: Option<seq<ResultRow>>)
    ensures table.Some? <==>
      forall i :: 0 <= i < |models| ==> EvaluateModel(models[i].0, models[i].1, paramGrids, yTest, search).Some?
    ensures table.Some? ==>
      && |table.value| == |models|
      && forall i :: 0 <= i < |models| ==>
           Some(table.value[i]) == EvaluateModel(models[i].0, models[i].1, paramGrids, yTest, search)
  {
    var results: seq<ResultRow> := [];
    for i := 0 to |models|
      invariant |results| == i
      invariant forall k :: 0 <= k < i ==>
        Some(results[k]) == EvaluateModel(models[k].0, models[k].1, paramGrids, yTest, search)
    {
      var (name, estimator) := models[i];
      if name !in paramGrids {
        return None;
      }
      var predictions := search(estimator, paramGrids[name]);
      if predictions.None? {
        return None;
      }
      var metrics := CalculateMetrics(yTest, predictions.value);
      if metrics.None? {
        return None;
      }
      results := results + [ReportRow(name, metrics.value)];
    }
    table := Some(results);
  }

  // ---------------------------------------------------------------------------
  // Component selection (select_pca_components)
  // ---------------------------------------------------------------------------

  type Matrix = seq<seq<real>>

  function MinNat(a: nat, b: nat): nat { if a <= b then a else b }

  /** Index i of an axis of length w lies before the stop n, a negative n counting from the end. */
  predicate BeforeStop(i: nat, n: int, w: nat)
  {
    if n >= 0 then i < n else i < w + n
  }

  /** The stop index numpy uses for the slice [:n] of an axis of length w: it keeps the indices before n. */
  function SliceStop(n: int, w: nat): (stop: nat)
    ensures stop <= w
    ensures forall i :: 0 <= i < w ==> (i < stop <==> BeforeStop(i, n, w))
  {
    if n >= 0 then MinNat(n, w) else if w + n >= 0 then w + n else 0
  }

  /** m[:, :n]: every row keeps its first SliceStop(n, width) entries. */
  function KeepColumns(m: Matrix, n: int): (r: Matrix)
    ensures |r| == |m|
    ensures forall i :: 0 <= i < |m| ==> |r[i]| == SliceStop(n, |m[i]|) && r[i] == m[i][..|r[i]|]
  {
    seq(|m|, i requires 0 <= i < |m| => m[i][..SliceStop(n, |m[i]|)])
  }

  /**
   * select_pca_components: the first n component scores of the training matrix,
   * and of the test matrix after the fitted projection; (None, None) when the
   * transform raises.
   */
  function SelectPcaComponents(xTrain: Matrix, xTest: Matrix, transform: Matrix -> Option<Matrix>, n: int)
    : (r: Option<(Matrix, Matrix)>)
    ensures r.Some? <==> transform(xTest).Some?
    ensures r.Some? ==>
      r.value.0 == KeepColumns(xTrain, n) && r.value.1 == KeepColumns(transform(xTest).value, n)
  {
    match transform(xTest)
    case None => None
    case Some(scores) => Some((KeepColumns(xTrain, n), KeepColumns(scores, n)))
  }

  predicate Rectangular(m: Matrix, w: nat)
  {
    forall i :: 0 <= i < |m| ==> |m[i]| == w
  }

  /** Selecting 1 <= n <= w components of a width-w matrix keeps every row and exactly n columns. */
  lemma SelectExactly(m: Matrix, w: nat, n: int)
    requires Rectangular(m, w) && 1 <= n <= w
    ensures |KeepColumns(m, n)| == |m| && Rectangular(KeepColumns(m, n), n)
  {
  }

  /** Asking for more components than there are does not fail: the matrix comes back whole. */
  lemma SelectBeyondWidth(m: Matrix, w: nat, n: int)
    requires Rectangular(m, w) && n >= w
    ensures KeepColumns(m, n) == m
  {
    forall i | 0 <= i < |m| ensures KeepColumns(m, n)[i] == m[i] {
      assert m[i][..w] == m[i];
    }
  }

}
