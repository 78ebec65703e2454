/** The two pseudo-empirical data generators. Both solve the linear
    structural equation model `X = W X + E` (with `pseudoData`'s task term,
    `X = W X + C T + E`) as `X = pinv(I - W) E`, E bootstrapped from
    empirical data and W sampled from, or given by, a causal model. The
    random draws, `stats.zscore` and `linalg.pinv` are supplied by the
    caller. */
module Generators {
  import opened Common
  import opened SemWeights
  import opened SemWeightFacts
  import opened SemNoise
  import opened Linear

  /** The random draws of one call, in the order numpy would make them. */
  datatype Draws = Draws(
    noiseColumns: seq<nat>,    // per node, the data column of its noise
    noiseRows: seq<seq<nat>>,  // per node, the bootstrapped row indices
    magnitudes: seq<real>,     // one uniform magnitude per counted edge
    signs: seq<int>,           // one sign per counted edge
    taskColumn: nat,           // task mode without a task variable: its data column
    taskRows: seq<nat>)        // ... and its bootstrapped row indices

  /** What one call returns: X, W and, in task mode, T. */
  datatype Generated = Generated(x: Matrix<real>, w: Matrix<real>, t: Option<Matrix<real>>)

  /** `stats.zscore` keeps the length of what it standardises. */
  ghost predicate LengthPreserving(zscore: seq<real> -> seq<real>)
  {
    forall s :: |zscore(s)| == |s|
  }

  /** `linalg.pinv` of a square matrix is square of the same size. */
  ghost predicate ShapePreserving(pinv: Matrix<real> -> Matrix<real>)
  {
    forall a :: IsSquare(a, |a|) ==> IsSquare(pinv(a), |a|)
  }

  /** What the draws must be for the given inputs. */
  ghost predicate ValidDraws(data: Matrix<real>, model: Matrix<real>, sampleSize: nat, weightsGiven: bool,
                             minCoeff: real, maxCoeff: real, pNeg: real, bootstrapTask: bool, d: Draws)
  {
    NoiseDraws(data, |model|, sampleSize, d.noiseColumns, d.noiseRows) &&
    (!weightsGiven ==> CoefficientDraws(d.magnitudes, d.signs, NumEdges(model), minCoeff, maxCoeff, pNeg)) &&
    (bootstrapTask ==> d.taskColumn < Width(data) && RowDraws(data, d.taskRows, sampleSize))
  }

  /** `np.dot(linalg.pinv(I - W), rhs)`: the n x s solution of the model. */
  function Solve(pinv: Matrix<real> -> Matrix<real>, w: Matrix<real>, rhs: Matrix<real>, n: nat, s: nat): (x: Matrix<real>)
    requires ShapePreserving(pinv) && IsSquare(w, n) && IsRect(rhs, n, s)
    ensures IsRect(x, n, s)
  {
    var a := Sub(Identity(n), w, n, n);
    assert IsSquare(pinv(a), n);
    MatMul(pinv(a), rhs, n, n, s)
  }

  /** The task time series: the one given, or, when none is given, a
      bootstrap of the data column drawn for it. */
  function TaskSeries(data: Matrix<real>, taskVariable: seq<real>, col: nat, rows: seq<nat>): seq<real>
    requires DataArray(data)
    requires |taskVariable| == 0 ==> col < Width(data) && RowDraws(data, rows, |rows|)
  {
    if |taskVariable| == 0 then Bootstrap(data, col, rows) else taskVariable
  }

  /** `pseudoData`: sample (or take) W, bootstrap and standardise E, solve,
      and return X as sample_size x num_nodes; in task mode add `C T` to E
      before solving and also return T as sample_size x 1. */
  function PseudoDataSpec(data: Matrix<real>, model: Matrix<real>, sampleSize: nat, weightsGiven: bool,
                          minCoeff: real, maxCoeff: real, pNeg: real,
                          task: bool, taskVariable: seq<real>, taskConnectivity: Matrix<real>,
                          d: Draws, zscore: seq<real> -> seq<real>, pinv: Matrix<real> -> Matrix<real>)
    : Result<Generated, WeightsError>
    requires DataArray(data) && IsSquare(model, |model|)
    requires ValidDraws(data, model, sampleSize, weightsGiven, minCoeff, maxCoeff, pNeg, task && |taskVariable| == 0, d)
    requires task ==> IsRect(taskConnectivity, |model|, 1) && (|taskVariable| == 0 || |taskVariable| == sampleSize)
    requires LengthPreserving(zscore) && ShapePreserving(pinv)
  {
    var n, s := |model|, sampleSize;
    var e := ZScoreRows(Noise(data, n, s, d.noiseColumns, d.noiseRows), zscore);
    match Weights(model, n, weightsGiven, d.magnitudes, d.signs, pNeg)
    case Failure(err) => Failure(err)
    case Success(w) =>
      if !task then
        Success(Generated(Transpose(Solve(pinv, w, e, n, s), n, s), w, None))
      else
        var t := zscore(TaskSeries(data, taskVariable, d.taskColumn, d.taskRows));
        var rhs := Add(MatMul(taskConnectivity, [t], n, 1, s), e, n, s);
        Success(Generated(Transpose(Solve(pinv, w, rhs, n, s), n, s), w, Some(Transpose([t], 1, s))))
  }

  /** `pseudoEmpiricalData`: the same model without a task term, X returned
      untransposed as num_nodes x sample_size. */
  function PseudoEmpiricalDataSpec(data: Matrix<real>, model: Matrix<real>, sampleSize: nat, weightsGiven: bool,
                                   minCoeff: real, maxCoeff: real, pNeg: real,
                                   d: Draws, zscore: seq<real> -> seq<real>, pinv: Matrix<real> -> Matrix<real>)
    : Result<Generated, WeightsError>
    requires DataArray(data) && IsSquare(model, |model|)
    requires ValidDraws(data, model, sampleSize, weightsGiven, minCoeff, maxCoeff, pNeg, false, d)
    requires LengthPreserving(zscore) && ShapePreserving(pinv)
  {
    var n, s := |model|, sampleSize;
    var e := ZScoreRows(Noise(data, n, s, d.noiseColumns, d.noiseRows), zscore);
    match Weights(model, n, weightsGiven, d.magnitudes, d.signs, pNeg)
    case Failure(err) => Failure(err)
    case Success(w) => Success(Generated(Solve(pinv, w, e, n, s), w, None))
  }

  /** The weight step of both generators, on arrays: sampled through
      SampleWeights, or the model itself. */
  method BuildWeights(model: Matrix<real>, weightsGiven: bool, mags: seq<real>, signs: seq<int>, pNeg: real)
    returns (res: Result<Matrix<real>, WeightsError>)
    requires IsSquare(model, |model|)
    requires !weightsGiven ==> |mags| == NumEdges(model) && |signs| == |mags|
    ensures res == Weights(model, |model|, weightsGiven, mags, signs, pNeg)
  {
    if !weightsGiven {
      var sampled := SampleWeights(model, |model|, mags, signs, pNeg);
      if sampled.Failure? {
        return Failure(sampled.error);
      }
      return Success(Cells(sampled.value));
    }
    return Success(model);
  }

  /** `pseudoData`, step by step: the noise loop, the weight step, then the
      solve (with the task term in task mode). */
  method PseudoData(data: Matrix<real>, model: Matrix<real>, sampleSize: nat, weightsGiven: bool,
                    minCoeff: real, maxCoeff: real, pNeg: real,
                    task: bool, taskVariable: seq<real>, taskConnectivity: Matrix<real>,
                    d: Draws, zscore: seq<real> -> seq<real>, pinv: Matrix<real> -> Matrix<real>)
    returns (res: Result<Generated, WeightsError>)
    requires DataArray(data) && IsSquare(model, |model|)
    requires ValidDraws(data, model, sampleSize, weightsGiven, minCoeff, maxCoeff, pNeg, task && |taskVariable| == 0, d)
    requires task ==> IsRect(taskConnectivity, |model|, 1) && (|taskVariable| == 0 || |taskVariable| == sampleSize)
    requires LengthPreserving(zscore) && ShapePreserving(pinv)
    ensures res == PseudoDataSpec(data, model, sampleSize, weightsGiven, minCoeff, maxCoeff, pNeg,
                                  task, taskVariable, taskConnectivity, d, zscore, pinv)
  {
    var n, s := |model|, sampleSize;
    var noise := BootstrapNoise(data, n, s, d.noiseColumns, d.noiseRows);
    var e := ZScoreRows(Cells(noise), zscore);
    var w := BuildWeights(model, weightsGiven, d.magnitudes, d.signs, pNeg);
    if w.Failure? {
      return Failure(w.error);
    }
    if !task {
      var x := Solve(pinv, w.value, e, n, s);
      return Success(Generated(Transpose(x, n, s), w.value, None));
    }
    var series := taskVariable;
    if |series| == 0 {
      series := Bootstrap(data, d.taskColumn, d.taskRows);
    }
    var t := zscore(series);
    var rhs := Add(MatMul(taskConnectivity, [t], n, 1, s), e, n, s);
    var x := Solve(pinv, w.value, rhs, n, s);
    return Success(Generated(Transpose(x, n, s), w.value, Some(Transpose([t], 1, s))));
  }

  /** `pseudoEmpiricalData`, step by step. */
  method PseudoEmpiricalData(data: Matrix<real>, model: Matrix<real>, sampleSize: nat, weightsGiven: bool,
                             minCoeff: real, maxCoeff: real, pNeg: real,
                             d: Draws, zscore: seq<real> -> seq<real>, pinv: Matrix<real> -> Matrix<real>)
    returns (res: Result<Generated, WeightsError>)
    requires DataArray(data) && IsSquare(model, |model|)
    requires ValidDraws(data, model, sampleSize, weightsGiven, minCoeff, maxCoeff, pNeg, false, d)
    requires LengthPreserving(zscore) && ShapePreserving(pinv)
    ensures res == PseudoEmpiricalDataSpec(data, model, sampleSize, weightsGiven, minCoeff, maxCoeff, pNeg, d, zscore, pinv)
  {
    var n, s := |model|, sampleSize;
    var noise := BootstrapNoise(data, n, s, d.noiseColumns, d.noiseRows);
    var e := ZScoreRows(Cells(noise), zscore);
    var w := BuildWeights(model, weightsGiven, d.magnitudes, d.signs, pNeg);
    if w.Failure? {
      return Failure(w.error);
    }
    return Success(Generated(Solve(pinv, w.value, e, n, s), w.value, None));
  }
}
