/** The weight matrix W of the structural equation model `X = W X + E`, as
    `pseudoData` and `pseudoEmpiricalData` build it when the weights are not
    given: one signed coefficient per edge of the model, scattered into a zero
    matrix at the model's nonzero positions in row-major order, then the
    diagonal cleared. `W[i][j]` is the weight of the edge j -> i. */
module SemWeights {
  import opened Common

  /** A (row, column) position. */
  type Pos = (nat, nat)

  datatype WeightsError =
    | BadProbability  // `np.random.choice(..., p=[p_neg, 1 - p_neg])` with p_neg outside [0, 1]
    | ShapeMismatch   // E coefficients cannot be assigned to K nonzero positions

  predicate RowMajorBefore(p: Pos, q: Pos)
  {
    p.0 < q.0 || (p.0 == q.0 && p.1 < q.1)
  }

  /** Positions (i, c), c < j, of the nonzero entries of row i, left to right. */
  function RowNonzeros(row: seq<real>, i: nat, j: nat): (ps: seq<Pos>)
    requires j <= |row|
    ensures forall k :: 0 <= k < |ps| ==> ps[k].0 == i && ps[k].1 < j && row[ps[k].1] != 0.0
    ensures forall k, l :: 0 <= k < l < |ps| ==> ps[k].1 < ps[l].1
  {
    if j == 0 then []
    else RowNonzeros(row, i, j - 1) + (if row[j - 1] != 0.0 then [(i, j - 1)] else [])
  }

  /** Positions of the nonzero entries of the first `r` rows, in row-major order. */
  function NonzerosUpTo(m: Matrix<real>, r: nat): (ps: seq<Pos>)
    requires r <= |m|
    ensures forall k :: 0 <= k < |ps| ==> ps[k].0 < r && ps[k].1 < |m[ps[k].0]| && m[ps[k].0][ps[k].1] != 0.0
    ensures forall k, l :: 0 <= k < l < |ps| ==> RowMajorBefore(ps[k], ps[l])
  {
    if r == 0 then []
    else
      var front, last := NonzerosUpTo(m, r - 1), RowNonzeros(m[r - 1], r - 1, |m[r - 1]|);
      assert forall k, l :: 0 <= k < |front| && 0 <= l < |last| ==> RowMajorBefore(front[k], last[l]);
      front + last
  }

  /** numpy `model.nonzero()`: every nonzero position of the matrix, row-major. */
  function Nonzeros(m: Matrix<real>): seq<Pos>
  {
    NonzerosUpTo(m, |m|)
  }

  /** The index of position (i, j) in the row-major list of nonzero positions. */
  function Rank(m: Matrix<real>, i: nat, j: nat): nat
    requires i < |m| && j <= |m[i]|
  {
    |NonzerosUpTo(m, i)| + |RowNonzeros(m[i], i, j)|
  }

  /** Entries of a row equal to `v`, among the first `j`. */
  function RowCount(row: seq<real>, v: real, j: nat): nat
    requires j <= |row|
  {
    if j == 0 then 0 else RowCount(row, v, j - 1) + (if row[j - 1] == v then 1 else 0)
  }

  /** numpy `np.sum(m == v)` over the first `r` rows. */
  function CountUpTo(m: Matrix<real>, v: real, r: nat): nat
    requires r <= |m|
  {
    if r == 0 then 0 else CountUpTo(m, v, r - 1) + RowCount(m[r - 1], v, |m[r - 1]|)
  }

  /** `num_edges = np.sum(model == 1)`. */
  function NumEdges(model: Matrix<real>): nat
  {
    CountUpTo(model, 1.0, |model|)
  }

  /** Every entry is 0 or 1. */
  ghost predicate Binary(m: Matrix<real>)
  {
    forall i, j :: 0 <= i < |m| && 0 <= j < |m[i]| ==> m[i][j] == 0.0 || m[i][j] == 1.0
  }

  /** `np.multiply(coeff, aux_sign)`: each magnitude times its sign. */
  function Coefficients(mags: seq<real>, signs: seq<int>): (cs: seq<real>)
    requires |signs| == |mags|
    ensures |cs| == |mags|
    ensures forall k :: 0 <= k < |cs| ==> cs[k] == signs[k] as real * mags[k]
  {
    seq(|mags|, k requires 0 <= k < |mags| => signs[k] as real * mags[k])
  }

  /** The values numpy assigns to K positions from an array of shape (1, E):
      the E values in order when E == K, the one value everywhere when E == 1
      (broadcasting), and a shape error otherwise. */
  function ScatterValues(coeff: seq<real>, k: nat): (r: Option<seq<real>>)
    ensures r.Some? <==> |coeff| == k || |coeff| == 1
    ensures r.Some? ==> |r.value| == k
    ensures r.Some? && |coeff| == k ==> r.value == coeff
    ensures r.Some? && |coeff| != k ==> forall l :: 0 <= l < k ==> r.value[l] == coeff[0]
  {
    if |coeff| == k then Some(coeff)
    else if |coeff| == 1 then Some(seq(k, _ => coeff[0]))
    else None
  }

  /** The sampled W, cell by cell: zero on the diagonal and wherever the model
      is zero; elsewhere the value scattered to that position, the one whose
      index is the position's rank among the nonzero positions. */
  function ScatteredWeights(model: Matrix<real>, n: nat, vals: seq<real>): (w: Matrix<real>)
    requires IsSquare(model, n) && |vals| == |Nonzeros(model)|
    ensures IsSquare(w, n)
  {
    seq(n, i requires 0 <= i < n =>
      seq(n, j requires 0 <= j < n =>
        if i == j || model[i][j] == 0.0 then 0.0
        else RankInRange(model, i, j); vals[Rank(model, i, j)]))
  }

  /** The outcome of the weight step of both generators, or the exception it raises. */
  function Weights(model: Matrix<real>, n: nat, weightsGiven: bool, mags: seq<real>, signs: seq<int>, pNeg: real)
    : Result<Matrix<real>, WeightsError>
    requires IsSquare(model, n)
    requires !weightsGiven ==> |mags| == NumEdges(model) && |signs| == |mags|
  {
    if weightsGiven then Success(model)
    else if pNeg < 0.0 || pNeg > 1.0 then Failure(BadProbability)
    else
      match ScatterValues(Coefficients(mags, signs), |Nonzeros(model)|)
      case None => Failure(ShapeMismatch)
      case Some(vals) => Success(ScatteredWeights(model, n, vals))
  }

  lemma {:induction false} RowNonzerosPrefix(row: seq<real>, i: nat, j: nat, j': nat)
    requires j <= j' <= |row|
    ensures RowNonzeros(row, i, j) <= RowNonzeros(row, i, j')
    decreases j' - j
  {
    if j < j' {
      RowNonzerosPrefix(row, i, j, j' - 1);
      var front := RowNonzeros(row, i, j' - 1);
      var last: seq<Pos> := if row[j' - 1] != 0.0 then [(i, j' - 1)] else [];
      assert RowNonzeros(row, i, j') == front + last;
      assert front <= front + last;
    }
  }

  lemma {:induction false} NonzerosUpToPrefix(m: Matrix<real>, r: nat, r': nat)
    requires r <= r' <= |m|
    ensures NonzerosUpTo(m, r) <= NonzerosUpTo(m, r')
    decreases r' - r
  {
    if r < r' {
      NonzerosUpToPrefix(m, r, r' - 1);
      var front := NonzerosUpTo(m, r' - 1);
      var last := RowNonzeros(m[r' - 1], r' - 1, |m[r' - 1]|);
      assert NonzerosUpTo(m, r') == front + last;
      assert front <= front + last;
    }
  }

  /** The k-th nonzero position in row-major order is the position of rank k:
      `W[model.nonzero()] = coeff` puts the value of index Rank(i, j) at (i, j). */
  lemma RankInRange(m: Matrix<real>, i: nat, j: nat)
    requires i < |m| && j < |m[i]| && m[i][j] != 0.0
    ensures Rank(m, i, j) < |Nonzeros(m)| && Nonzeros(m)[Rank(m, i, j)] == (i, j)
  {
    var before, row := NonzerosUpTo(m, i), RowNonzeros(m[i], i, j);
    RowNonzerosPrefix(m[i], i, j + 1, |m[i]|);
    assert RowNonzeros(m[i], i, j + 1) == row + [(i, j)];
    assert NonzerosUpTo(m, i + 1) == before + RowNonzeros(m[i], i, |m[i]|);
    NonzerosUpToPrefix(m, i + 1, |m|);
    assert (before + row + [(i, j)]) <= NonzerosUpTo(m, i + 1);
  }

  /** With a 0/1 model, `np.sum(model == 1)` counts exactly the nonzero
      positions, so the E sampled coefficients pair up with the K positions. */
  lemma {:induction false} BinaryCountIsNonzeros(m: Matrix<real>, r: nat)
    requires r <= |m| && Binary(m)
    ensures CountUpTo(m, 1.0, r) == |NonzerosUpTo(m, r)|
    decreases r
  {
    if r > 0 {
      BinaryCountIsNonzeros(m, r - 1);
      BinaryRowCount(m[r - 1], r - 1, |m[r - 1]|);
    }
  }

  lemma {:induction false} BinaryRowCount(row: seq<real>, i: nat, j: nat)
    requires j <= |row|
    requires forall c :: 0 <= c < |row| ==> row[c] == 0.0 || row[c] == 1.0
    ensures RowCount(row, 1.0, j) == |RowNonzeros(row, i, j)|
    decreases j
  {
    if j > 0 {
      BinaryRowCount(row, i, j - 1);
    }
  }

  /** numpy's `W[model.nonzero()] = vals`, in place on a zero array: the l-th
      value lands on the l-th nonzero position; every other cell stays zero. */
  method ScatterInto(W: array2<real>, model: Matrix<real>, n: nat, vals: seq<real>)
    requires W.Length0 == n && W.Length1 == n && IsSquare(model, n)
    requires |vals| == |Nonzeros(model)|
    requires forall i, j :: 0 <= i < n && 0 <= j < n ==> W[i, j] == 0.0
    modifies W
    ensures forall l :: 0 <= l < |vals| ==> W[Nonzeros(model)[l].0, Nonzeros(model)[l].1] == vals[l]
    ensures forall i, j :: 0 <= i < n && 0 <= j < n && model[i][j] == 0.0 ==> W[i, j] == 0.0
  {
    var ps := Nonzeros(model);
    for k := 0 to |ps|
      invariant forall l :: 0 <= l < k ==> W[ps[l].0, ps[l].1] == vals[l]
      invariant forall i, j :: 0 <= i < n && 0 <= j < n && (i, j) !in ps[..k] ==> W[i, j] == 0.0
    {
      W[ps[k].0, ps[k].1] := vals[k];
    }
    assert ps[..|ps|] == ps;
  }

  /** numpy's `np.fill_diagonal(W, 0)`. */
  method FillDiagonal(W: array2<real>, n: nat)
    requires W.Length0 == n && W.Length1 == n
    modifies W
    ensures forall i :: 0 <= i < n ==> W[i, i] == 0.0
    ensures forall i, j :: 0 <= i < n && 0 <= j < n && i != j ==> W[i, j] == old(W[i, j])
  {
    for d := 0 to n
      invariant forall i :: 0 <= i < d ==> W[i, i] == 0.0
      invariant forall i, j :: 0 <= i < n && 0 <= j < n && i != j ==> W[i, j] == old(W[i, j])
    {
      W[d, d] := 0.0;
    }
  }

  /** An array with a zero diagonal, zero where the model is zero, and the
      l-th value on the l-th nonzero off-diagonal position holds ScatteredWeights. */
  lemma ScatteredCells(W: array2<real>, model: Matrix<real>, n: nat, vals: seq<real>)
    requires W.Length0 == n && W.Length1 == n && IsSquare(model, n)
    requires |vals| == |Nonzeros(model)|
    requires forall i :: 0 <= i < n ==> W[i, i] == 0.0
    requires forall i, j :: 0 <= i < n && 0 <= j < n && model[i][j] == 0.0 ==> W[i, j] == 0.0
    requires forall l :: 0 <= l < |vals| && Nonzeros(model)[l].0 != Nonzeros(model)[l].1 ==>
      W[Nonzeros(model)[l].0, Nonzeros(model)[l].1] == vals[l]
    ensures Cells(W) == ScatteredWeights(model, n, vals)
  {
    var w := ScatteredWeights(model, n, vals);
    forall i, j | 0 <= i < n && 0 <= j < n
      ensures W[i, j] == w[i][j]
    {
      if i != j && model[i][j] != 0.0 {
        RankInRange(model, i, j);
      }
    }
    CellsOf(W, w);
  }

  /** The `weights_given == False` branch: zero W, draw E = np.sum(model == 1)
      signed coefficients, scatter them, clear the diagonal. */
  method SampleWeights(model: Matrix<real>, n: nat, mags: seq<real>, signs: seq<int>, pNeg: real)
    returns (res: Result<array2<real>, WeightsError>)
    requires IsSquare(model, n)
    requires |mags| == NumEdges(model) && |signs| == |mags|
    ensures Weights(model, n, false, mags, signs, pNeg).Failure? <==> res.Failure?
    ensures res.Failure? ==> Weights(model, n, false, mags, signs, pNeg).error == res.error
    ensures res.Success? ==> fresh(res.value) && Weights(model, n, false, mags, signs, pNeg).value == Cells(res.value)
  {
    var W := new real[n, n]((_, _) => 0.0);
    if pNeg < 0.0 || pNeg > 1.0 {
      return Failure(BadProbability);
    }
    var coeff := Coefficients(mags, signs);
    var vals := ScatterValues(coeff, |Nonzeros(model)|);
    if vals.None? {
      return Failure(ShapeMismatch);
    }
    ScatterInto(W, model, n, vals.value);
    FillDiagonal(W, n);
    ScatteredCells(W, model, n, vals.value);
    return Success(W);
  }
}
