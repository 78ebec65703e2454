/** What `featureSelectRegression` guarantees: which nodes are predictors,
    that coefficients land only on predictors and only in the node's own row,
    when a row stays zero, and which coefficient a cell receives. */
module FeatureFacts {
  import opened Common
  import opened FeatureSelect

  /** Node j is a predictor of node y under the given reading of M. */
  ghost predicate Selected(m: Matrix<real>, mode: Mode, y: nat, j: nat)
    requires y < |m| && j < |m| && IsSquare(m, |m|)
  {
    match mode
    case Parents => m[y][j] == 2.0
    case Adjacencies => m[y][j] == 2.0 || m[j][y] == 2.0
    case Symmetric => m[y][j] != 0.0
  }

  /** Only the three documented `typ` strings are accepted; any other fails
      before a result is built. */
  lemma UnknownTypeFails(m: Matrix<real>, d: Matrix<real>, typ: string, regress: (Matrix<real>, seq<real>) -> seq<real>)
    requires IsSquare(m, |m|) && IsRect(d, |d|, |m|) && OneCoefficientPerPredictor(regress)
    ensures FeatureMatrix(m, d, typ, regress).Failure? <==>
      typ != "parents" && typ != "adjacencies" && typ != "symmetric"
  {
  }

  /** The condition `typ == 'parents' or 'symmetric'` of the second branch is
      always true (a non-empty string literal is truthy), but every `typ` that
      gets that far and is not `adjacencies` is `parents` or `symmetric`, so
      the condition as written and the evidently intended one agree. */
  lemma ElifAgreesWithIntent(typ: string)
    requires ModeOf(typ).Some? && typ != "adjacencies"
    ensures (typ == "parents" || |"symmetric"| > 0) == (typ == "parents" || typ == "symmetric")
  {
  }

  /** j is among y's predictors exactly when M selects it: an entry 2 in row
      y (`parents`), an entry 2 in row y or column y (`adjacencies`), a
      nonzero entry in row y (`symmetric`). */
  lemma PredictorsAreSelected(m: Matrix<real>, mode: Mode, y: nat, j: nat)
    requires IsSquare(m, |m|) && y < |m| && j < |m|
    ensures j in Predictors(Binarise(m, mode), |m|, mode, y) <==> Selected(m, mode, y, j)
  {
    var b := Binarise(m, mode);
    var ix := Predictors(b, |m|, mode, y);
    if mode == Adjacencies {
      var col := Column(b, y);
      assert col[j] == b[j][y];
      if j in ix {
        var k :| 0 <= k < |ix| && ix[k] == j;
        var rowPart := Where(b[y]);
        if k >= |rowPart| {
          assert Where(col)[k - |rowPart|] == j;
        }
      }
    }
  }

  /** A row is written only at predictor columns: a nonzero result entry
      (y, j) means M selects j for y. */
  lemma MaskContainment(m: Matrix<real>, d: Matrix<real>, typ: string, regress: (Matrix<real>, seq<real>) -> seq<real>,
                        y: nat, j: nat)
    requires IsSquare(m, |m|) && IsRect(d, |d|, |m|) && OneCoefficientPerPredictor(regress)
    requires y < |m| && j < |m|
    requires FeatureMatrix(m, d, typ, regress).Success?
    ensures FeatureMatrix(m, d, typ, regress).value[y][j] != 0.0 ==> Selected(m, ModeOf(typ).value, y, j)
  {
    var mode := ModeOf(typ).value;
    var b := Binarise(m, mode);
    var row := FeatureRow(b, d, |m|, mode, regress, y);
    assert FeatureMatrix(m, d, typ, regress).value[y] == row;
    PredictorsAreSelected(m, mode, y, j);
  }

  /** When the predictors' data has no nonzero entry (in particular when y
      has no predictor, or there is no sample), no regression is run and row
      y stays zero. */
  lemma SkippedRowIsZero(m: Matrix<real>, d: Matrix<real>, typ: string, regress: (Matrix<real>, seq<real>) -> seq<real>, y: nat)
    requires IsSquare(m, |m|) && IsRect(d, |d|, |m|) && OneCoefficientPerPredictor(regress)
    requires y < |m| && ModeOf(typ).Some?
    requires var mode := ModeOf(typ).value;
      !AnyNonzero(SelectColumns(d, |m|, Predictors(Binarise(m, mode), |m|, mode, y)))
    ensures forall j :: 0 <= j < |m| ==> FeatureMatrix(m, d, typ, regress).value[y][j] == 0.0
  {
    var mode := ModeOf(typ).value;
    assert FeatureMatrix(m, d, typ, regress).value[y] == FeatureRow(Binarise(m, mode), d, |m|, mode, regress, y);
  }

  /** A node without predictors never has its row written. */
  lemma NoPredictorNoRow(m: Matrix<real>, d: Matrix<real>, typ: string, regress: (Matrix<real>, seq<real>) -> seq<real>, y: nat)
    requires IsSquare(m, |m|) && IsRect(d, |d|, |m|) && OneCoefficientPerPredictor(regress)
    requires y < |m| && ModeOf(typ).Some?
    requires forall j :: 0 <= j < |m| ==> !Selected(m, ModeOf(typ).value, y, j)
    ensures forall j :: 0 <= j < |m| ==> FeatureMatrix(m, d, typ, regress).value[y][j] == 0.0
  {
    var mode := ModeOf(typ).value;
    var ix := Predictors(Binarise(m, mode), |m|, mode, y);
    if |ix| > 0 {
      PredictorsAreSelected(m, mode, y, ix[0]);
    }
    SkippedRowIsZero(m, d, typ, regress, y);
  }

  /** When the regression runs, the coefficient of the k-th predictor lands
      at that predictor's column of row y, unless the same predictor is listed
      again later (then the later coefficient wins). */
  lemma CoefficientPlacement(m: Matrix<real>, d: Matrix<real>, typ: string, regress: (Matrix<real>, seq<real>) -> seq<real>,
                             y: nat, k: nat)
    requires IsSquare(m, |m|) && IsRect(d, |d|, |m|) && OneCoefficientPerPredictor(regress)
    requires y < |m| && ModeOf(typ).Some?
    requires var mode := ModeOf(typ).value; var ix := Predictors(Binarise(m, mode), |m|, mode, y);
      k < |ix| && LastAt(ix, k) && AnyNonzero(SelectColumns(d, |m|, ix))
    ensures var mode := ModeOf(typ).value; var ix := Predictors(Binarise(m, mode), |m|, mode, y);
      var x := SelectColumns(d, |m|, ix);
      |regress(x, Column(d, y))| == |ix| &&
      FeatureMatrix(m, d, typ, regress).value[y][ix[k]] == regress(x, Column(d, y))[k]
  {
    var mode := ModeOf(typ).value;
    var ix := Predictors(Binarise(m, mode), |m|, mode, y);
    var x := SelectColumns(d, |m|, ix);
    assert |d| > 0;
    assert Width(x) == |ix|;
    assert FeatureMatrix(m, d, typ, regress).value[y] == FeatureRow(Binarise(m, mode), d, |m|, mode, regress, y);
  }

  /** Outside `adjacencies` no predictor is listed twice, so every predictor's
      own coefficient is the one written. In `adjacencies` mode a node that is
      both parent and child of y is listed twice, and the coefficient of its
      second listing (as a child) is the one that remains. */
  lemma WhichListingWins(m: Matrix<real>, mode: Mode, y: nat, k: nat)
    requires IsSquare(m, |m|) && y < |m|
    requires k < |Predictors(Binarise(m, mode), |m|, mode, y)|
    ensures mode != Adjacencies ==> LastAt(Predictors(Binarise(m, mode), |m|, mode, y), k)
    ensures mode == Adjacencies && k >= |Where(Binarise(m, mode)[y])| ==>
      LastAt(Predictors(Binarise(m, mode), |m|, mode, y), k)
  {
    var b := Binarise(m, mode);
    var ix := Predictors(b, |m|, mode, y);
    if mode == Adjacencies {
      var p := |Where(b[y])|;
      var children := Where(Column(b, y));
      if k >= p {
        forall l | k < l < |ix|
          ensures ix[l] != ix[k]
        {
          assert ix[l] == children[l - p] && ix[k] == children[k - p];
        }
      }
    }
  }
}
