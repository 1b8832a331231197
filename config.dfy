/**
 * The configuration tables of src/config.py: the column lists, the encoding
 * dictionary, the model zoo and its hyperparameter grids, with the facts the
 * rest of the pipeline relies on.
 */
module Config {
  import opened Wrappers
  import opened Frames
  import Preprocessing
  import Models
  import Balancing

  const CategoricalColumns: seq<string> :=
    ["gender", "hypertension", "heart_disease", "ever_married", "work_type",
     "Residence_type", "smoking_status", "stroke"]

  const NumericColumns: seq<string> := ["age", "avg_glucose_level", "bmi"]

  const GenderCodes: map<string, int> := map["Male" := 0, "Female" := 1, "Other" := 2]
  const MarriedCodes: map<string, int> := map["Yes" := 1, "No" := 0]
  const WorkCodes: map<string, int> :=
    map["Private" := 0, "Self-employed" := 1, "children" := 2, "Govt_job" := 3, "Never_worked" := 4]
  const ResidenceCodes: map<string, int> := map["Urban" := 0, "Rural" := 1]
  const SmokingCodes: map<string, int> :=
    map["never smoked" := 0, "Unknown" := 1, "formerly smoked" := 2, "smokes" := 3]

  /** The encoding dictionary, in its insertion order. */
  const EncodingDictionary: Preprocessing.Encoding := [
    ("gender", GenderCodes),
    ("ever_married", MarriedCodes),
    ("work_type", WorkCodes),
    ("Residence_type", ResidenceCodes),
    ("smoking_status", SmokingCodes)
  ]

  /** The feature names as written (used to label the PCA loadings). */
  const Features: seq<string> :=
    ["gender", "age", "hypertension", "heart_disease", "ever_married", "work_type",
     "residence_type", "avg_glucose_level", "bmi", "smoking_status"]

  /** The feature names with the residence column spelled as the dataset spells it. */
  const FeaturesIntended: seq<string> :=
    ["gender", "age", "hypertension", "heart_disease", "ever_married", "work_type",
     "Residence_type", "avg_glucose_level", "bmi", "smoking_status"]

  /** The estimators, with the settings the pipeline gives them. */
  datatype Estimator =
    | DecisionTree(randomState: int)
    | RandomForest(randomState: int)
    | NeuralNetwork(maxIter: nat, randomState: int)
    | Svm(randomState: int)
    | GradientBoosting(randomState: int)

  /** A candidate value of a hyperparameter. */
  datatype Param = Unlimited | Int(i: int) | Real(r: real) | Word(w: string) | Layers(sizes: seq<nat>)

  /** A parameter grid: each hyperparameter with its list of candidates, in order. */
  type Grid = seq<(string, seq<Param>)>

  const ModelZoo: seq<(string, Estimator)> := [
    ("Decision Tree", DecisionTree(42)),
    ("Random Forest", RandomForest(42)),
    ("Neural Network", NeuralNetwork(1000, 42)),
    ("SVM", Svm(42)),
    ("Gradient Boosting", GradientBoosting(42))
  ]

  const DecisionTreeGrid: Grid := [
    ("max_depth", [Unlimited, Int(10), Int(20), Int(30)]),
    ("min_samples_split", [Int(2), Int(5), Int(10)]),
    ("min_samples_leaf", [Int(1), Int(2), Int(4)])]

  const RandomForestGrid: Grid := [
    ("n_estimators", [Int(50), Int(100), Int(200)]),
    ("max_depth", [Unlimited, Int(10), Int(20), Int(30)]),
    ("min_samples_split", [Int(2), Int(5), Int(10)]),
    ("min_samples_leaf", [Int(1), Int(2), Int(4)])]

  const NeuralNetworkGrid: Grid := [
    ("hidden_layer_sizes", [Layers([50]), Layers([100]), Layers([50, 50]), Layers([100, 50])]),
    ("activation", [Word("relu"), Word("tanh")]),
    ("solver", [Word("adam"), Word("sgd")])]

  const SvmGrid: Grid := [
    ("C", [Real(0.1), Real(1.0), Real(10.0)]),
    ("kernel", [Word("linear"), Word("rbf"), Word("poly")])]

  const GradientBoostingGrid: Grid := [
    ("n_estimators", [Int(50), Int(100), Int(200)]),
    ("learning_rate", [Real(0.01), Real(0.1), Real(0.2)]),
    ("max_depth", [Int(3), Int(5), Int(7)]),
    ("min_samples_split", [Int(2), Int(5), Int(10)]),
    ("min_samples_leaf", [Int(1), Int(2), Int(4)])]

  const ParametersForGridSearch: seq<(string, Grid)> := [
    ("Decision Tree", DecisionTreeGrid),
    ("Random Forest", RandomForestGrid),
    ("Neural Network", NeuralNetworkGrid),
    ("SVM", SvmGrid),
    ("Gradient Boosting", GradientBoostingGrid)
  ]

  /** The dictionary a list of (key, value) entries builds; a later key wins. */
  function AsMap<T>(entries: seq<(string, T)>): (m: map<string, T>)
    ensures forall i :: 0 <= i < |entries| ==> entries[i].0 in m
    ensures forall k :: k in m ==> k in Keys(entries)
    ensures forall i :: 0 <= i < |entries| && LastOfKey(entries, i) ==> m[entries[i].0] == entries[i].1
  {
    if |entries| == 0 then map[]
    else
      var n := |entries| - 1;
      var prefix := entries[..n];
      assert Keys(entries) == Keys(prefix) + [entries[n].0];
      var m := AsMap(prefix)[entries[n].0 := entries[n].1];
      assert forall i :: 0 <= i < n && LastOfKey(entries, i) ==> LastOfKey(prefix, i) by {
        forall i | 0 <= i < n && LastOfKey(entries, i) ensures LastOfKey(prefix, i) {
          LastOfKeyInPrefix(entries, i);
        }
      }
      m
  }

  /** The number of points GridSearchCV tries: the product of the candidate list lengths. */
  function GridSize(g: Grid): (n: nat)
    ensures |g| == 0 ==> n == 1
  {
    if |g| == 0 then 1 else |g[0].1| * GridSize(g[1..])
  }

  /** Each candidate of cs put in front of each of the points rest, candidate by candidate. */
  function Extend(cs: seq<Param>, rest: seq<seq<Param>>): (ps: seq<seq<Param>>)
    ensures |ps| == |cs| * |rest|
  {
    if |cs| == 0 then []
    else seq(|rest|, k requires 0 <= k < |rest| => [cs[0]] + rest[k]) + Extend(cs[1..], rest)
  }

  /** A point of Extend(cs, rest) is a candidate of cs followed by a point of rest, and every such pair is one. */
  lemma {:induction false} ExtendPoints(cs: seq<Param>, rest: seq<seq<Param>>, q: seq<Param>)
    ensures q in Extend(cs, rest) <==> |q| > 0 && q[0] in cs && q[1..] in rest
  {
    if |cs| > 0 {
      var front := seq(|rest|, k requires 0 <= k < |rest| => [cs[0]] + rest[k]);
      assert Extend(cs, rest) == front + Extend(cs[1..], rest);
      ExtendPoints(cs[1..], rest, q);
      assert cs == [cs[0]] + cs[1..];
      if |q| > 0 && q[0] == cs[0] && q[1..] in rest {
        var k :| 0 <= k < |rest| && rest[k] == q[1..];
        assert front[k] == q;
      }
      if q in front {
        var k :| 0 <= k < |rest| && front[k] == q;
        assert q[1..] == rest[k];
      }
    }
  }

  /** The points ParameterGrid enumerates: one candidate for each hyperparameter. */
  function Points(g: Grid): (ps: seq<seq<Param>>)
  {
    if |g| == 0 then [[]] else Extend(g[0].1, Points(g[1..]))
  }

  /** p picks one candidate from each list of the grid, in the grid's order. */
  ghost predicate Chooses(g: Grid, p: seq<Param>)
  {
    |p| == |g| && forall i :: 0 <= i < |p| ==> p[i] in g[i].1
  }

  /**
   * GridSize counts the grid's points, and the points are exactly the ways of
   * choosing one candidate for every hyperparameter.
   */
  lemma {:induction false} GridPoints(g: Grid)
    ensures |Points(g)| == GridSize(g)
    ensures forall p :: p in Points(g) <==> Chooses(g, p)
  {
    if |g| > 0 {
      GridPoints(g[1..]);
      forall p ensures p in Points(g) <==> Chooses(g, p) {
        ExtendPoints(g[0].1, Points(g[1..]), p);
        if |p| == |g| {
          assert Chooses(g, p) <==> p[0] in g[0].1 && Chooses(g[1..], p[1..]) by {
            assert forall i :: 1 <= i < |p| ==> p[i] == p[1..][i - 1] && g[i] == g[1..][i - 1];
          }
        }
      }
    } else {
      forall p ensures p in Points(g) <==> Chooses(g, p) {
        assert Chooses(g, p) <==> p == [];
      }
    }
  }

  /** A grid one of whose candidate lists is empty, which ParameterGrid refuses. */
  predicate HasEmptyCandidates(g: Grid)
  {
    exists i | 0 <= i < |g| :: |g[i].1| == 0
  }

  /** A grid has no point exactly when one of its candidate lists is empty. */
  lemma {:induction false} EmptyGrid(g: Grid)
    ensures GridSize(g) == 0 <==> HasEmptyCandidates(g)
  {
    if |g| > 0 {
      EmptyGrid(g[1..]);
      assert forall i :: 1 <= i < |g| ==> g[i] == g[1..][i - 1];
      if GridSize(g[1..]) == 0 {
        var i :| 0 <= i < |g[1..]| && |g[1..][i].1| == 0;
        assert |g[i + 1].1| == 0;
      }
    }
  }

  /**
   * GridSearchCV(estimator, grid).fit(...) followed by predict: ParameterGrid
   * raises ValueError on an empty candidate list before anything is fitted;
   * otherwise the fit-and-predict oracle decides.
   */
  function GridSearchCV(fit: (Estimator, Grid) -> Option<seq<int>>): (search: (Estimator, Grid) -> Option<seq<int>>)
    ensures forall e, g :: HasEmptyCandidates(g) ==> search(e, g).None?
    ensures forall e, g :: !HasEmptyCandidates(g) ==> search(e, g) == fit(e, g)
  {
    (e: Estimator, g: Grid) => if HasEmptyCandidates(g) then None else fit(e, g)
  }

  /** A model whose grid has an empty candidate list, so no point, gets no row: the search as a whole fails. */
  lemma EmptyGridFails(name: string, estimator: Estimator, grids: map<string, Grid>, yTest: seq<int>,
                       fit: (Estimator, Grid) -> Option<seq<int>>)
    requires name in grids && GridSize(grids[name]) == 0
    ensures Models.EvaluateModel(name, estimator, grids, yTest, GridSearchCV(fit)).None?
  {
    EmptyGrid(grids[name]);
  }

  /** A value map that gives distinct values to distinct categories. */
  predicate Injective(m: map<string, int>)
  {
    forall a, b :: a in m && b in m && m[a] == m[b] ==> a == b
  }

  /** The codes of a value map are exactly 0 .. k-1. */
  ghost predicate CodesFromZero(m: map<string, int>, k: nat)
  {
    && (forall a :: a in m ==> 0 <= m[a] < k)
    && (forall v :: 0 <= v < k ==> v in m.Values)
  }

  /** A value map whose categories, listed in code order, are `cats` is injective with codes 0 .. k-1. */
  lemma ListedCodes(m: map<string, int>, cats: seq<string>)
    requires forall i :: 0 <= i < |cats| ==> cats[i] in m && m[cats[i]] == i
    requires forall a :: a in m ==> a in cats
    ensures Injective(m) && CodesFromZero(m, |cats|)
  {
    forall a, b | a in m && b in m && m[a] == m[b] ensures a == b {
      var i :| 0 <= i < |cats| && cats[i] == a;
      var j :| 0 <= j < |cats| && cats[j] == b;
    }
    forall a | a in m ensures 0 <= m[a] < |cats| {
      var i :| 0 <= i < |cats| && cats[i] == a;
    }
    forall v | 0 <= v < |cats| ensures v in m.Values {
      assert m[cats[v]] == v;
    }
  }

  lemma GenderCodesDense()
    ensures Injective(GenderCodes) && CodesFromZero(GenderCodes, 3)
  {
    ListedCodes(GenderCodes, ["Male", "Female", "Other"]);
  }

  lemma MarriedCodesDense()
    ensures Injective(MarriedCodes) && CodesFromZero(MarriedCodes, 2)
  {
    ListedCodes(MarriedCodes, ["No", "Yes"]);
  }

  lemma WorkCodesDense()
    ensures Injective(WorkCodes) && CodesFromZero(WorkCodes, 5)
  {
    ListedCodes(WorkCodes, ["Private", "Self-employed", "children", "Govt_job", "Never_worked"]);
  }

  lemma ResidenceCodesDense()
    ensures Injective(ResidenceCodes) && CodesFromZero(ResidenceCodes, 2)
  {
    ListedCodes(ResidenceCodes, ["Urban", "Rural"]);
  }

  lemma SmokingCodesDense()
    ensures Injective(SmokingCodes) && CodesFromZero(SmokingCodes, 4)
  {
    ListedCodes(SmokingCodes, ["never smoked", "Unknown", "formerly smoked", "smokes"]);
  }

  /** Every encoding map is injective and numbers its k categories 0 .. k-1. */
  lemma EncodingsAreDense()
    ensures Injective(GenderCodes) && CodesFromZero(GenderCodes, 3)
    ensures Injective(MarriedCodes) && CodesFromZero(MarriedCodes, 2)
    ensures Injective(WorkCodes) && CodesFromZero(WorkCodes, 5)
    ensures Injective(ResidenceCodes) && CodesFromZero(ResidenceCodes, 2)
    ensures Injective(SmokingCodes) && CodesFromZero(SmokingCodes, 4)
  {
    GenderCodesDense();
    MarriedCodesDense();
    WorkCodesDense();
    ResidenceCodesDense();
    SmokingCodesDense();
  }

  /** The dictionary names each column once, as encode_columns expects of it. */
  lemma EncodingKeysDistinct()
    ensures Distinct(Keys(EncodingDictionary))
  {
    assert Keys(EncodingDictionary)
        == ["gender", "ever_married", "work_type", "Residence_type", "smoking_status"];
  }

  /** gender is encoded Male 0, Female 1, Other 2, and any other value cannot be cast. */
  lemma GenderEncoding(s: string)
    ensures
      var m := Preprocessing.MappingFor(EncodingDictionary, "gender");
      && m.Some?
      && Preprocessing.MapCell(Text("Male"), m.value) == Num(0.0)
      && Preprocessing.MapCell(Text("Female"), m.value) == Num(1.0)
      && Preprocessing.MapCell(Text("Other"), m.value) == Num(2.0)
      && (s != "Male" && s != "Female" && s != "Other" ==> Preprocessing.MapCell(Text(s), m.value) == Missing)
  {
    var e := EncodingDictionary;
    assert e[..4][..3] == e[..3] && e[..3][..2] == e[..2] && e[..2][..1] == e[..1];
    calc {
      Preprocessing.MappingFor(e, "gender");
      Preprocessing.MappingFor(e[..4], "gender");
      Preprocessing.MappingFor(e[..3], "gender");
      Preprocessing.MappingFor(e[..2], "gender");
      Preprocessing.MappingFor(e[..1], "gender");
      Some(GenderCodes);
    }
  }

  /** Every encoded column is one of the categorical columns. */
  lemma EncodedColumnsAreCategorical()
    ensures forall k :: 0 <= k < |EncodingDictionary| ==> EncodingDictionary[k].0 in CategoricalColumns
  {
  }

  /** The two column lists are disjoint and name eleven columns between them. */
  lemma ColumnListsPartition()
    ensures Distinct(CategoricalColumns + NumericColumns)
    ensures |CategoricalColumns + NumericColumns| == 11
    ensures |Features| == 10
  {
  }

  /** As written, one feature name is not a column of the dataset. */
  lemma FeaturesAsWritten()
    ensures "residence_type" in Features
    ensures "residence_type" !in CategoricalColumns + NumericColumns
    ensures "Residence_type" !in Features
  {
  }

  /** With the residence column spelled as the dataset spells it, the features are the non-outcome columns. */
  lemma FeaturesIntendedAreInputs()
    ensures Distinct(FeaturesIntended) && |FeaturesIntended| == 10
    ensures forall c :: c in FeaturesIntended <==>
      c in CategoricalColumns + NumericColumns && c != Balancing.DefaultTarget
  {
  }

  /** The model dictionary and the grid dictionary have the same keys in the same order. */
  lemma ModelsMatchGrids()
    ensures Keys(ModelZoo) == Keys(ParametersForGridSearch)
    ensures Distinct(Keys(ModelZoo))
    ensures forall i :: 0 <= i < |ModelZoo| ==> ModelZoo[i].0 in AsMap(ParametersForGridSearch)
  {
    var names := ["Decision Tree", "Random Forest", "Neural Network", "SVM", "Gradient Boosting"];
    assert Keys(ModelZoo) == names;
    assert Keys(ParametersForGridSearch) == names;
    assert Distinct(names);
  }

  /** So no model of the zoo fails for want of a grid: only the search or the scoring can. */
  lemma EveryModelHasAGrid(yTest: seq<int>, fit: (Estimator, Grid) -> Option<seq<int>>, i: nat)
    requires i < |ModelZoo|
    ensures
      var grids := AsMap(ParametersForGridSearch);
      var (name, estimator) := ModelZoo[i];
      && name in grids
      && (Models.EvaluateModel(name, estimator, grids, yTest, GridSearchCV(fit)).Some? <==>
        && fit(estimator, grids[name]).Some?
        && Models.CalculateMetrics(yTest, fit(estimator, grids[name]).value).Some?)
  {
    ModelsMatchGrids();
    ZooGridLookup(i);
    ZooGridsHaveCandidates(i);
  }

  /** The grid dictionary gives each model of the zoo the grid listed with it. */
  lemma ZooGridLookup(i: nat)
    requires i < |ModelZoo|
    ensures ModelZoo[i].0 in AsMap(ParametersForGridSearch)
    ensures AsMap(ParametersForGridSearch)[ModelZoo[i].0] == ParametersForGridSearch[i].1
  {
    ModelsMatchGrids();
    assert LastOfKey(ParametersForGridSearch, i) by {
      assert forall j :: 0 <= j < |ParametersForGridSearch| ==>
        ParametersForGridSearch[j].0 == Keys(ParametersForGridSearch)[j];
    }
    assert ModelZoo[i].0 == Keys(ModelZoo)[i];
  }

  /** No grid of the zoo has an empty candidate list. */
  lemma ZooGridsHaveCandidates(i: nat)
    requires i < |ParametersForGridSearch|
    ensures !HasEmptyCandidates(ParametersForGridSearch[i].1)
  {
    GridSizes();
    EmptyGrid(ParametersForGridSearch[i].1);
  }

  /** The grids hold 36, 108, 16, 9 and 243 points. */
  lemma GridSizes()
    ensures GridSize(ParametersForGridSearch[0].1) == 36
    ensures GridSize(ParametersForGridSearch[1].1) == 108
    ensures GridSize(ParametersForGridSearch[2].1) == 16
    ensures GridSize(ParametersForGridSearch[3].1) == 9
    ensures GridSize(ParametersForGridSearch[4].1) == 243
  {
  }
}
