/** What the two generators promise: when they raise, the shapes and
    orientation of what they return, the weights they use, and the task
    series. */
module GeneratorFacts {
  import opened Common
  import opened SemWeights
  import opened SemWeightFacts
  import opened SemNoise
  import opened Linear
  import opened Generators

  /** The weight step raises exactly when weights are sampled and either
      `p_neg` is not a probability or the counted edges cannot be assigned to
      the nonzero positions. */
  lemma WeightErrors(model: Matrix<real>, weightsGiven: bool, mags: seq<real>, signs: seq<int>, pNeg: real)
    requires IsSquare(model, |model|)
    requires !weightsGiven ==> |mags| == NumEdges(model) && |signs| == |mags|
    ensures Weights(model, |model|, weightsGiven, mags, signs, pNeg).Failure? <==>
      !weightsGiven && (pNeg < 0.0 || pNeg > 1.0 || (NumEdges(model) != |Nonzeros(model)| && NumEdges(model) != 1))
    ensures Weights(model, |model|, weightsGiven, mags, signs, pNeg) == Failure(BadProbability) <==>
      !weightsGiven && (pNeg < 0.0 || pNeg > 1.0)
  {
  }

  /** `pseudoData` raises exactly when its weight step does; otherwise X is
      sample_size x num_nodes (transposed), W is num_nodes x num_nodes, and T
      is returned, as sample_size x 1, exactly in task mode. */
  lemma PseudoDataShapes(data: Matrix<real>, model: Matrix<real>, sampleSize: nat, weightsGiven: bool,
                         minCoeff: real, maxCoeff: real, pNeg: real,
                         task: bool, taskVariable: seq<real>, taskConnectivity: Matrix<real>,
                         d: Draws, zscore: seq<real> -> seq<real>, pinv: Matrix<real> -> Matrix<real>)
    requires DataArray(data) && IsSquare(model, |model|)
    requires ValidDraws(data, model, sampleSize, weightsGiven, minCoeff, maxCoeff, pNeg, task && |taskVariable| == 0, d)
    requires task ==> IsRect(taskConnectivity, |model|, 1) && (|taskVariable| == 0 || |taskVariable| == sampleSize)
    requires LengthPreserving(zscore) && ShapePreserving(pinv)
    ensures var r := PseudoDataSpec(data, model, sampleSize, weightsGiven, minCoeff, maxCoeff, pNeg,
                                    task, taskVariable, taskConnectivity, d, zscore, pinv);
      var wr := Weights(model, |model|, weightsGiven, d.magnitudes, d.signs, pNeg);
      (r.Failure? <==> wr.Failure?) &&
      (r.Failure? ==> r.error == wr.error) &&
      (r.Success? ==>
        r.value.w == wr.value &&
        IsRect(r.value.x, sampleSize, |model|) && IsSquare(r.value.w, |model|) &&
        (task <==> r.value.t.Some?) &&
        (task ==> IsRect(r.value.t.value, sampleSize, 1)))
  {
  }

  /** `pseudoEmpiricalData` raises exactly when its weight step does;
      otherwise X is num_nodes x sample_size, untransposed. */
  lemma PseudoEmpiricalDataShapes(data: Matrix<real>, model: Matrix<real>, sampleSize: nat, weightsGiven: bool,
                                  minCoeff: real, maxCoeff: real, pNeg: real,
                                  d: Draws, zscore: seq<real> -> seq<real>, pinv: Matrix<real> -> Matrix<real>)
    requires DataArray(data) && IsSquare(model, |model|)
    requires ValidDraws(data, model, sampleSize, weightsGiven, minCoeff, maxCoeff, pNeg, false, d)
    requires LengthPreserving(zscore) && ShapePreserving(pinv)
    ensures var r := PseudoEmpiricalDataSpec(data, model, sampleSize, weightsGiven, minCoeff, maxCoeff, pNeg, d, zscore, pinv);
      var wr := Weights(model, |model|, weightsGiven, d.magnitudes, d.signs, pNeg);
      (r.Failure? <==> wr.Failure?) &&
      (r.Failure? ==> r.error == wr.error) &&
      (r.Success? ==>
        r.value.w == wr.value && r.value.t.None? &&
        IsRect(r.value.x, |model|, sampleSize) && IsSquare(r.value.w, |model|))
  {
  }

  /** Without a task the two generators compute the same data from the same
      draws; `pseudoData` returns it transposed, `pseudoEmpiricalData` not. */
  lemma EmpiricalIsUntransposed(data: Matrix<real>, model: Matrix<real>, sampleSize: nat, weightsGiven: bool,
                                minCoeff: real, maxCoeff: real, pNeg: real, taskConnectivity: Matrix<real>,
                                d: Draws, zscore: seq<real> -> seq<real>, pinv: Matrix<real> -> Matrix<real>)
    requires DataArray(data) && IsSquare(model, |model|)
    requires ValidDraws(data, model, sampleSize, weightsGiven, minCoeff, maxCoeff, pNeg, false, d)
    requires LengthPreserving(zscore) && ShapePreserving(pinv)
    ensures var p := PseudoDataSpec(data, model, sampleSize, weightsGiven, minCoeff, maxCoeff, pNeg,
                                    false, [], taskConnectivity, d, zscore, pinv);
      var q := PseudoEmpiricalDataSpec(data, model, sampleSize, weightsGiven, minCoeff, maxCoeff, pNeg, d, zscore, pinv);
      p.Success? == q.Success? &&
      (p.Success? ==>
        p.value.w == q.value.w &&
        IsRect(q.value.x, |model|, sampleSize) &&
        forall t, i :: 0 <= t < sampleSize && 0 <= i < |model| ==> p.value.x[t][i] == q.value.x[i][t])
  {
  }

  /** With `weights_given`, both generators use the model verbatim as W,
      diagonal included, and never raise. */
  lemma WeightsGivenPassThrough(data: Matrix<real>, model: Matrix<real>, sampleSize: nat,
                                minCoeff: real, maxCoeff: real, pNeg: real,
                                task: bool, taskVariable: seq<real>, taskConnectivity: Matrix<real>,
                                d: Draws, zscore: seq<real> -> seq<real>, pinv: Matrix<real> -> Matrix<real>)
    requires DataArray(data) && IsSquare(model, |model|)
    requires ValidDraws(data, model, sampleSize, true, minCoeff, maxCoeff, pNeg, task && |taskVariable| == 0, d)
    requires task ==> IsRect(taskConnectivity, |model|, 1) && (|taskVariable| == 0 || |taskVariable| == sampleSize)
    requires LengthPreserving(zscore) && ShapePreserving(pinv)
    ensures var p := PseudoDataSpec(data, model, sampleSize, true, minCoeff, maxCoeff, pNeg,
                                    task, taskVariable, taskConnectivity, d, zscore, pinv);
      p.Success? && p.value.w == model
    ensures var q := PseudoEmpiricalDataSpec(data, model, sampleSize, true, minCoeff, maxCoeff, pNeg, d, zscore, pinv);
      q.Success? && q.value.w == model
  {
  }

  /** In task mode T is the standardised task series, and that series is the
      given task variable when one is given, and otherwise a bootstrap of the
      single data column drawn for it. */
  lemma TaskVariableChoice(data: Matrix<real>, model: Matrix<real>, sampleSize: nat, weightsGiven: bool,
                           minCoeff: real, maxCoeff: real, pNeg: real,
                           taskVariable: seq<real>, taskConnectivity: Matrix<real>,
                           d: Draws, zscore: seq<real> -> seq<real>, pinv: Matrix<real> -> Matrix<real>)
    requires DataArray(data) && IsSquare(model, |model|)
    requires ValidDraws(data, model, sampleSize, weightsGiven, minCoeff, maxCoeff, pNeg, |taskVariable| == 0, d)
    requires IsRect(taskConnectivity, |model|, 1) && (|taskVariable| == 0 || |taskVariable| == sampleSize)
    requires LengthPreserving(zscore) && ShapePreserving(pinv)
    ensures var p := PseudoDataSpec(data, model, sampleSize, weightsGiven, minCoeff, maxCoeff, pNeg,
                                    true, taskVariable, taskConnectivity, d, zscore, pinv);
      var series := TaskSeries(data, taskVariable, d.taskColumn, d.taskRows);
      |series| == sampleSize &&
      (|taskVariable| > 0 ==> series == taskVariable) &&
      (|taskVariable| == 0 ==>
        d.taskColumn < Width(data) &&
        forall k :: 0 <= k < sampleSize ==> series[k] in Column(data, d.taskColumn)) &&
      (p.Success? ==> forall k :: 0 <= k < sampleSize ==> p.value.t.value[k][0] == zscore(series)[k])
  {
  }

  /** With no edge at all (W the zero matrix) and a pseudo-inverse that
      leaves the identity alone, nothing mixes: X is the standardised noise. */
  lemma NoEdgesNoMixing(data: Matrix<real>, model: Matrix<real>, sampleSize: nat,
                        minCoeff: real, maxCoeff: real, pNeg: real,
                        d: Draws, zscore: seq<real> -> seq<real>, pinv: Matrix<real> -> Matrix<real>)
    requires DataArray(data) && IsSquare(model, |model|)
    requires forall i, j :: 0 <= i < |model| && 0 <= j < |model| ==> model[i][j] == 0.0
    requires ValidDraws(data, model, sampleSize, true, minCoeff, maxCoeff, pNeg, false, d)
    requires LengthPreserving(zscore) && ShapePreserving(pinv)
    requires pinv(Identity(|model|)) == Identity(|model|)
    ensures var q := PseudoEmpiricalDataSpec(data, model, sampleSize, true, minCoeff, maxCoeff, pNeg, d, zscore, pinv);
      q.Success? &&
      q.value.x == ZScoreRows(Noise(data, |model|, sampleSize, d.noiseColumns, d.noiseRows), zscore)
  {
    var n, s := |model|, sampleSize;
    var e := ZScoreRows(Noise(data, n, s, d.noiseColumns, d.noiseRows), zscore);
    assert Weights(model, n, true, d.magnitudes, d.signs, pNeg) == Success(model);
    ZeroModelSolve(pinv, model, e, n, s);
  }

  /** With W zero and `pinv(I) == I`, solving returns the right-hand side. */
  lemma ZeroModelSolve(pinv: Matrix<real> -> Matrix<real>, w: Matrix<real>, rhs: Matrix<real>, n: nat, s: nat)
    requires ShapePreserving(pinv) && IsSquare(w, n) && IsRect(rhs, n, s)
    requires forall i, j :: 0 <= i < n && 0 <= j < n ==> w[i][j] == 0.0
    requires pinv(Identity(n)) == Identity(n)
    ensures Solve(pinv, w, rhs, n, s) == rhs
  {
    var a := Sub(Identity(n), w, n, n);
    assert a == Identity(n) by {
      forall i | 0 <= i < n
        ensures a[i] == Identity(n)[i]
      {
      }
    }
    IdentityLeft(rhs, n, s);
  }
}
