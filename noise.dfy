/** The error terms E of the structural equation model, as `pseudoData` and
    `pseudoEmpiricalData` build them: row n of the num_nodes x sample_size
    matrix is a bootstrap sample (drawn with replacement) of one randomly
    chosen column of the empirical data, and each row is then standardised.
    The random choices are supplied by the caller. */
module SemNoise {
  import opened Common

  /** `data` is a timepoints x columns array. */
  ghost predicate DataArray(data: Matrix<real>)
  {
    IsRect(data, |data|, Width(data))
  }

  /** Row indices of `data`, one per bootstrap draw. */
  ghost predicate RowDraws(data: Matrix<real>, rows: seq<nat>, size: nat)
  {
    |rows| == size && forall t :: 0 <= t < size ==> rows[t] < |data|
  }

  /** The draws of the noise loop: for node n, the column `np.random.randint(0,
      data.shape[1])` picked, and the rows `np.random.choice(R, size=[1,
      sample_size])` took. With no column (or, for a positive sample size, no
      row) to draw from, numpy raises; then no such draws exist. */
  ghost predicate NoiseDraws(data: Matrix<real>, numNodes: nat, sampleSize: nat, cols: seq<nat>, rows: seq<seq<nat>>)
  {
    |cols| == numNodes && |rows| == numNodes &&
    forall n :: 0 <= n < numNodes ==> cols[n] < Width(data) && RowDraws(data, rows[n], sampleSize)
  }

  /** `np.random.choice(data[:, col], size=[1, k], replace=True)`, given the
      k row indices drawn: every value comes from column `col`. */
  function Bootstrap(data: Matrix<real>, col: nat, rows: seq<nat>): (b: seq<real>)
    requires DataArray(data) && col < Width(data) && RowDraws(data, rows, |rows|)
    ensures |b| == |rows|
    ensures forall t :: 0 <= t < |b| ==> b[t] in Column(data, col)
  {
    var c := Column(data, col);
    seq(|rows|, t requires 0 <= t < |rows| => assert c[rows[t]] == data[rows[t]][col]; data[rows[t]][col])
  }

  /** E before standardisation: row n is the bootstrap sample of column
      `cols[n]`. */
  function Noise(data: Matrix<real>, numNodes: nat, sampleSize: nat, cols: seq<nat>, rows: seq<seq<nat>>): (e: Matrix<real>)
    requires DataArray(data) && NoiseDraws(data, numNodes, sampleSize, cols, rows)
    ensures IsRect(e, numNodes, sampleSize)
    ensures forall n :: 0 <= n < numNodes ==> e[n] == Bootstrap(data, cols[n], rows[n])
  {
    seq(numNodes, n requires 0 <= n < numNodes => Bootstrap(data, cols[n], rows[n]))
  }

  /** `stats.zscore(E, axis=1)`: the (uninterpreted) standardisation applied
      to each row. */
  function ZScoreRows(e: Matrix<real>, zscore: seq<real> -> seq<real>): (z: Matrix<real>)
    requires forall s :: |zscore(s)| == |s|
    ensures |z| == |e| && forall i :: 0 <= i < |e| ==> z[i] == zscore(e[i]) && |z[i]| == |e[i]|
  {
    seq(|e|, i requires 0 <= i < |e| => zscore(e[i]))
  }

  /** The noise loop: E zero-allocated, then filled row by row, each row from
      the data column drawn for it. */
  method BootstrapNoise(data: Matrix<real>, numNodes: nat, sampleSize: nat, cols: seq<nat>, rows: seq<seq<nat>>)
    returns (e: array2<real>)
    requires DataArray(data) && NoiseDraws(data, numNodes, sampleSize, cols, rows)
    ensures fresh(e) && e.Length0 == numNodes && e.Length1 == sampleSize
    ensures Cells(e) == Noise(data, numNodes, sampleSize, cols, rows)
  {
    e := new real[numNodes, sampleSize]((_, _) => 0.0);
    ghost var want := Noise(data, numNodes, sampleSize, cols, rows);
    for n := 0 to numNodes
      invariant forall r, t :: 0 <= r < n && 0 <= t < sampleSize ==> e[r, t] == want[r][t]
    {
      var col := cols[n];
      for t := 0 to sampleSize
        invariant forall r, u :: 0 <= r < n && 0 <= u < sampleSize ==> e[r, u] == want[r][u]
        invariant forall u :: 0 <= u < t ==> e[n, u] == want[n][u]
      {
        e[n, t] := data[rows[n][t]][col];
      }
    }
    CellsOf(e, want);
  }

  /** Every value of noise row n before standardisation is a value of the one
      data column drawn for that row, and that column exists. */
  lemma NoiseRowFromOneColumn(data: Matrix<real>, numNodes: nat, sampleSize: nat, cols: seq<nat>, rows: seq<seq<nat>>, n: nat)
    requires DataArray(data) && NoiseDraws(data, numNodes, sampleSize, cols, rows) && n < numNodes
    ensures cols[n] < Width(data)
    ensures forall t :: 0 <= t < sampleSize ==>
      Noise(data, numNodes, sampleSize, cols, rows)[n][t] in Column(data, cols[n])
  {
    var b := Bootstrap(data, cols[n], rows[n]);
    assert Noise(data, numNodes, sampleSize, cols, rows)[n] == b;
  }
}
