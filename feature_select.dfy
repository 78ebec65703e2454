/** `featureSelectRegression`: a weighted connectivity matrix built with a
    connectivity matrix M as a mask. Each node y is regressed on the data of
    the nodes M selects for it, and the coefficients are written into row y
    at those nodes' columns. The regression itself is supplied by the caller
    and only assumed to return one coefficient per predictor. */
module FeatureSelect {
  import opened Common

  /** How M is read: `parents` and `adjacencies` come from a causal search
      (an entry 2 marks a selected edge); `symmetric` from e.g. a partial
      correlation (any nonzero entry is selected). */
  datatype Mode = Parents | Adjacencies | Symmetric

  datatype FeatureError =
    | UnknownType  // `typ` is none of the three, so M_bin is never bound (NameError)

  /** The three `typ` strings the function understands. */
  function ModeOf(typ: string): (m: Option<Mode>)
    ensures m == Some(Parents) <==> typ == "parents"
    ensures m == Some(Adjacencies) <==> typ == "adjacencies"
    ensures m == Some(Symmetric) <==> typ == "symmetric"
  {
    if typ == "parents" then Some(Parents)
    else if typ == "adjacencies" then Some(Adjacencies)
    else if typ == "symmetric" then Some(Symmetric)
    else None
  }

  /** M_bin: `M == 2` for `parents` and `adjacencies`, `M != 0` for `symmetric`. */
  function Binarise(m: Matrix<real>, mode: Mode): (b: Matrix<bool>)
    ensures |b| == |m| && forall i :: 0 <= i < |m| ==> |b[i]| == |m[i]|
    ensures forall i, j :: 0 <= i < |m| && 0 <= j < |m[i]| ==>
      b[i][j] == if mode == Symmetric then m[i][j] != 0.0 else m[i][j] == 2.0
  {
    seq(|m|, i requires 0 <= i < |m| =>
      seq(|m[i]|, j requires 0 <= j < |m[i]| => if mode == Symmetric then m[i][j] != 0.0 else m[i][j] == 2.0))
  }

  /** `np.where(mask)`: the indices of the true entries, in increasing order. */
  function Where(mask: seq<bool>): (ix: seq<nat>)
    ensures forall k :: 0 <= k < |ix| ==> ix[k] < |mask| && mask[ix[k]]
    ensures forall k, l :: 0 <= k < l < |ix| ==> ix[k] < ix[l]
    ensures forall j :: 0 <= j < |mask| && mask[j] ==> j in ix
  {
    if mask == [] then []
    else
      var front := Where(mask[..|mask| - 1]);
      assert forall j :: 0 <= j < |mask| - 1 ==> mask[..|mask| - 1][j] == mask[j];
      front + (if mask[|mask| - 1] then [|mask| - 1] else [])
  }

  /** Node y's predictors: in `adjacencies` mode its parents (row y of M_bin)
      followed by its children (column y); otherwise its row only. */
  function Predictors(b: Matrix<bool>, n: nat, mode: Mode, y: nat): (ix: seq<nat>)
    requires IsSquare(b, n) && y < n
    ensures forall k :: 0 <= k < |ix| ==> ix[k] < n
  {
    if mode == Adjacencies then Where(b[y]) + Where(Column(b, y)) else Where(b[y])
  }

  /** `D[:, ix]`: the data of the predictor columns, in the order of `ix`. */
  function SelectColumns(d: Matrix<real>, cols: nat, ix: seq<nat>): (x: Matrix<real>)
    requires IsRect(d, |d|, cols) && forall k :: 0 <= k < |ix| ==> ix[k] < cols
    ensures IsRect(x, |d|, |ix|)
    ensures forall t, k :: 0 <= t < |d| && 0 <= k < |ix| ==> x[t][k] == d[t][ix[k]]
  {
    seq(|d|, t requires 0 <= t < |d| => seq(|ix|, k requires 0 <= k < |ix| => d[t][ix[k]]))
  }

  /** numpy `X.any()`. */
  predicate AnyNonzero(x: Matrix<real>)
  {
    exists t, k :: 0 <= t < |x| && 0 <= k < |x[t]| && x[t][k] != 0.0
  }

  /** `row[ix] = vals` with the writes made in order: where an index repeats,
      the last write wins; indices not listed keep their value. */
  function ScatterRow(row: seq<real>, ix: seq<nat>, vals: seq<real>): (r: seq<real>)
    requires |ix| == |vals| && forall k :: 0 <= k < |ix| ==> ix[k] < |row|
    ensures |r| == |row|
    ensures forall j :: 0 <= j < |row| && j !in ix ==> r[j] == row[j]
    ensures forall k :: 0 <= k < |ix| && LastAt(ix, k) ==> r[ix[k]] == vals[k]
    decreases |ix|
  {
    if ix == [] then row
    else
      var last := |ix| - 1;
      var front := ScatterRow(row, ix[..last], vals[..last]);
      assert forall k :: 0 <= k < last && LastAt(ix, k) ==> LastAt(ix[..last], k);
      front[ix[last] := vals[last]]
  }

  /** No later entry of `ix` repeats `ix[k]`. */
  ghost predicate LastAt(ix: seq<nat>, k: nat)
    requires k < |ix|
  {
    forall l :: k < l < |ix| ==> ix[l] != ix[k]
  }

  /** The regression returns one coefficient per column of its design matrix. */
  ghost predicate OneCoefficientPerPredictor(regress: (Matrix<real>, seq<real>) -> seq<real>)
  {
    forall x, yv :: |regress(x, yv)| == Width(x)
  }

  function ZeroRow(n: nat): (z: seq<real>)
    ensures |z| == n && forall j :: 0 <= j < n ==> z[j] == 0.0
  {
    seq(n, _ => 0.0)
  }

  /** Row y of the result: zero, unless the predictors' data has a nonzero
      entry; then the regression coefficients of y's data on that data,
      written at the predictors' columns. */
  function FeatureRow(b: Matrix<bool>, d: Matrix<real>, n: nat, mode: Mode,
                      regress: (Matrix<real>, seq<real>) -> seq<real>, y: nat): (row: seq<real>)
    requires IsSquare(b, n) && IsRect(d, |d|, n) && y < n && OneCoefficientPerPredictor(regress)
    ensures |row| == n
  {
    var ix := Predictors(b, n, mode, y);
    var x := SelectColumns(d, n, ix);
    if AnyNonzero(x) then ScatterRow(ZeroRow(n), ix, regress(x, Column(d, y)))
    else ZeroRow(n)
  }

  /** The whole result, or the error of an unknown `typ`. */
  function FeatureMatrix(m: Matrix<real>, d: Matrix<real>, typ: string,
                         regress: (Matrix<real>, seq<real>) -> seq<real>): (r: Result<Matrix<real>, FeatureError>)
    requires IsSquare(m, |m|) && IsRect(d, |d|, |m|) && OneCoefficientPerPredictor(regress)
    ensures r.Failure? <==> ModeOf(typ).None?
    ensures r.Success? ==> IsSquare(r.value, |m|)
  {
    match ModeOf(typ)
    case None => Failure(UnknownType)
    case Some(mode) =>
      var b := Binarise(m, mode);
      Success(seq(|m|, y requires 0 <= y < |m| => FeatureRow(b, d, |m|, mode, regress, y)))
  }

  /** `featureSelectRegression`, step by step: binarise, allocate M_feat, and
      for each node y run the regression (when its predictors' data is not
      all zero) and write the coefficients into row y. */
  method FeatureSelectRegression(m: Matrix<real>, d: Matrix<real>, typ: string,
                                 regress: (Matrix<real>, seq<real>) -> seq<real>)
    returns (res: Result<Matrix<real>, FeatureError>)
    requires IsSquare(m, |m|) && IsRect(d, |d|, |m|) && OneCoefficientPerPredictor(regress)
    ensures res == FeatureMatrix(m, d, typ, regress)
  {
    var mode := ModeOf(typ);
    if mode.None? {
      return Failure(UnknownType);
    }
    var b := Binarise(m, mode.value);
    var n := |b|;
    var feat := new real[n, n]((_, _) => 0.0);
    for y := 0 to n
      invariant forall r, c :: 0 <= r < y && 0 <= c < n ==> feat[r, c] == FeatureRow(b, d, n, mode.value, regress, r)[c]
      invariant forall r, c :: y <= r < n && 0 <= c < n ==> feat[r, c] == 0.0
    {
      FitNode(feat, b, d, typ, mode.value, regress, y);
    }
    var want := seq(n, y requires 0 <= y < n => FeatureRow(b, d, n, mode.value, regress, y));
    CellsOf(feat, want);
    return Success(Cells(feat));
  }

  /** One round of the loop: pick y's predictors by `typ` (the second test
      is written as in the source, and is always true), regress when their
      data is not all zero, and write row y. */
  method FitNode(feat: array2<real>, b: Matrix<bool>, d: Matrix<real>, typ: string, mode: Mode,
                 regress: (Matrix<real>, seq<real>) -> seq<real>, y: nat)
    requires ModeOf(typ) == Some(mode)
    requires IsSquare(b, |b|) && IsRect(d, |d|, |b|) && OneCoefficientPerPredictor(regress) && y < |b|
    requires feat.Length0 == |b| && feat.Length1 == |b|
    requires forall c :: 0 <= c < |b| ==> feat[y, c] == 0.0
    modifies feat
    ensures forall c :: 0 <= c < |b| ==> feat[y, c] == FeatureRow(b, d, |b|, mode, regress, y)[c]
    ensures forall r, c :: 0 <= r < |b| && 0 <= c < |b| && r != y ==> feat[r, c] == old(feat[r, c])
  {
    var n := |b|;
    var ix: seq<nat>;
    if typ == "adjacencies" {
      ix := Where(b[y]) + Where(Column(b, y));
    } else if typ == "parents" || |"symmetric"| > 0 {
      ix := Where(b[y]);
    }
    assert ix == Predictors(b, n, mode, y);
    var x := SelectColumns(d, n, ix);
    if AnyNonzero(x) {
      var coef := regress(x, Column(d, y));
      WriteRow(feat, y, ix, coef);
    }
  }

  /** `M_feat[y, ix] = coef` on a row that is still zero. */
  method WriteRow(feat: array2<real>, y: nat, ix: seq<nat>, coef: seq<real>)
    requires y < feat.Length0 && |ix| == |coef| && forall k :: 0 <= k < |ix| ==> ix[k] < feat.Length1
    requires forall c :: 0 <= c < feat.Length1 ==> feat[y, c] == 0.0
    modifies feat
    ensures forall c :: 0 <= c < feat.Length1 ==> feat[y, c] == ScatterRow(ZeroRow(feat.Length1), ix, coef)[c]
    ensures forall r, c :: 0 <= r < feat.Length0 && 0 <= c < feat.Length1 && r != y ==> feat[r, c] == old(feat[r, c])
  {
    var zero := ZeroRow(feat.Length1);
    for k := 0 to |ix|
      invariant forall c :: 0 <= c < feat.Length1 ==> feat[y, c] == ScatterRow(zero, ix[..k], coef[..k])[c]
      invariant forall r, c :: 0 <= r < feat.Length0 && 0 <= c < feat.Length1 && r != y ==> feat[r, c] == old(feat[r, c])
    {
      assert ix[..k + 1][..k] == ix[..k] && coef[..k + 1][..k] == coef[..k];
      feat[y, ix[k]] := coef[k];
    }
    assert ix[..|ix|] == ix && coef[..|coef|] == coef;
  }
}
