/** What the sampled weight matrix is: one signed coefficient per edge of a
    0/1 model, at the edge's position, bounded by the sampling range. */
module SemWeightFacts {
  import opened Common
  import opened SemWeights

  /** `x` lies between `a` and `b`, in either order (`np.random.uniform(low,
      high)` also accepts low > high). */
  predicate Between(x: real, a: real, b: real)
  {
    (a <= x <= b) || (b <= x <= a)
  }

  /** What the caller-supplied draws of the weight step must be: E magnitudes
      from `np.random.uniform(min_coeff, max_coeff)` and E signs from
      `np.random.choice([-1, 1], p=[p_neg, 1 - p_neg])`; a sign that has
      probability zero is never drawn. */
  ghost predicate CoefficientDraws(mags: seq<real>, signs: seq<int>, e: nat, lo: real, hi: real, pNeg: real)
  {
    |mags| == e && |signs| == e &&
    forall k :: 0 <= k < e ==>
      Between(mags[k], lo, hi) && (signs[k] == 1 || signs[k] == -1) &&
      (pNeg == 0.0 ==> signs[k] == 1) && (pNeg == 1.0 ==> signs[k] == -1)
  }

  /** Nonzero positions are distinct: the k-th one has rank k. */
  lemma RankOf(m: Matrix<real>, k: nat)
    requires k < |Nonzeros(m)|
    ensures var p := Nonzeros(m)[k];
      p.0 < |m| && p.1 < |m[p.0]| && m[p.0][p.1] != 0.0 && Rank(m, p.0, p.1) == k
  {
    var ps := Nonzeros(m);
    var p := ps[k];
    RankInRange(m, p.0, p.1);
  }

  /** Whatever the model holds, sampled W is zero on the whole diagonal and
      wherever the model is zero: support(W) lies within support(model)
      minus the diagonal. */
  lemma SampledSupport(model: Matrix<real>, n: nat, mags: seq<real>, signs: seq<int>, pNeg: real)
    requires IsSquare(model, n)
    requires |mags| == NumEdges(model) && |signs| == |mags|
    ensures var r := Weights(model, n, false, mags, signs, pNeg);
      r.Success? ==>
        IsSquare(r.value, n) &&
        forall i, j :: 0 <= i < n && 0 <= j < n && (i == j || model[i][j] == 0.0) ==> r.value[i][j] == 0.0
  {
  }

  /** With a 0/1 model and a valid probability, sampling never raises, and the
      k-th drawn coefficient `signs[k] * mags[k]` is the weight of the k-th
      edge in row-major order (unless that edge is a self-loop, which the
      diagonal clearing removes). */
  lemma EdgeCoefficientPlacement(model: Matrix<real>, n: nat, mags: seq<real>, signs: seq<int>, pNeg: real)
    requires IsSquare(model, n) && Binary(model) && 0.0 <= pNeg <= 1.0
    requires |mags| == NumEdges(model) && |signs| == |mags|
    ensures Weights(model, n, false, mags, signs, pNeg).Success?
    ensures var w, ps := Weights(model, n, false, mags, signs, pNeg).value, Nonzeros(model);
      |ps| == |mags| &&
      forall k :: 0 <= k < |ps| && ps[k].0 != ps[k].1 ==> w[ps[k].0][ps[k].1] == signs[k] as real * mags[k]
  {
    BinaryCountIsNonzeros(model, |model|);
    var ps := Nonzeros(model);
    var w := Weights(model, n, false, mags, signs, pNeg).value;
    forall k | 0 <= k < |ps| && ps[k].0 != ps[k].1
      ensures w[ps[k].0][ps[k].1] == signs[k] as real * mags[k]
    {
      RankOf(model, k);
    }
  }

  /** One cell of the sampled W of a 0/1 model: 0 on the diagonal and off the
      model's support, otherwise the signed coefficient of the edge's rank. */
  lemma WeightAt(model: Matrix<real>, n: nat, mags: seq<real>, signs: seq<int>, pNeg: real, i: nat, j: nat)
    requires IsSquare(model, n) && Binary(model) && 0.0 <= pNeg <= 1.0
    requires |mags| == NumEdges(model) && |signs| == |mags|
    requires i < n && j < n
    ensures Weights(model, n, false, mags, signs, pNeg).Success?
    ensures var w := Weights(model, n, false, mags, signs, pNeg).value;
      if i == j || model[i][j] == 0.0 then w[i][j] == 0.0
      else Rank(model, i, j) < |mags| && w[i][j] == signs[Rank(model, i, j)] as real * mags[Rank(model, i, j)]
  {
    BinaryCountIsNonzeros(model, |model|);
    if i != j && model[i][j] != 0.0 {
      RankInRange(model, i, j);
    }
  }

  /** A magnitude drawn between lo and hi, times a sign. */
  lemma SignedBetween(x: real, s: int, m: real, lo: real, hi: real, pNeg: real)
    requires Between(m, lo, hi) && (s == 1 || s == -1) && x == s as real * m
    requires (pNeg == 0.0 ==> s == 1) && (pNeg == 1.0 ==> s == -1)
    ensures (Between(x, lo, hi) || Between(-x, lo, hi)) &&
      (pNeg == 0.0 ==> Between(x, lo, hi)) &&
      (pNeg == 1.0 ==> Between(-x, lo, hi)) &&
      (!Between(0.0, lo, hi) ==> x != 0.0)
  {
  }

  /** The bounds of WeightBounds, for one cell. */
  ghost predicate CellBounded(w: Matrix<real>, model: Matrix<real>, i: nat, j: nat, lo: real, hi: real, pNeg: real)
    requires i < |w| && j < |w[i]| && i < |model| && j < |model[i]|
  {
    ((i == j || model[i][j] == 0.0) ==> w[i][j] == 0.0) &&
    (i != j && model[i][j] == 1.0 ==>
      (Between(w[i][j], lo, hi) || Between(-w[i][j], lo, hi)) &&
      (pNeg == 0.0 ==> Between(w[i][j], lo, hi)) &&
      (pNeg == 1.0 ==> Between(-w[i][j], lo, hi))) &&
    (!Between(0.0, lo, hi) ==> (w[i][j] != 0.0 <==> i != j && model[i][j] == 1.0))
  }

  lemma CellBounds(model: Matrix<real>, n: nat, mags: seq<real>, signs: seq<int>, pNeg: real, lo: real, hi: real, i: nat, j: nat)
    requires IsSquare(model, n) && Binary(model) && 0.0 <= pNeg <= 1.0
    requires CoefficientDraws(mags, signs, NumEdges(model), lo, hi, pNeg)
    requires i < n && j < n
    ensures Weights(model, n, false, mags, signs, pNeg).Success?
    ensures CellBounded(Weights(model, n, false, mags, signs, pNeg).value, model, i, j, lo, hi, pNeg)
  {
    WeightAt(model, n, mags, signs, pNeg, i, j);
    var w := Weights(model, n, false, mags, signs, pNeg).value;
    var x := w[i][j];
    if i != j && model[i][j] != 0.0 {
      var r := Rank(model, i, j);
      assert Between(mags[r], lo, hi) && (signs[r] == 1 || signs[r] == -1);
      SignedBetween(x, signs[r], mags[r], lo, hi, pNeg);
    }
  }

  /** Every off-diagonal edge of a 0/1 model gets a weight whose magnitude was
      drawn between `min_coeff` and `max_coeff`; with `p_neg` 0 every weight
      is that magnitude, with `p_neg` 1 its negation. Every other cell is 0.
      When the sampling range excludes 0, W has exactly the model's
      off-diagonal edges as its support. */
  lemma WeightBounds(model: Matrix<real>, n: nat, mags: seq<real>, signs: seq<int>, pNeg: real, lo: real, hi: real)
    requires IsSquare(model, n) && Binary(model) && 0.0 <= pNeg <= 1.0
    requires CoefficientDraws(mags, signs, NumEdges(model), lo, hi, pNeg)
    ensures Weights(model, n, false, mags, signs, pNeg).Success?
    ensures var w := Weights(model, n, false, mags, signs, pNeg).value;
      forall i, j :: 0 <= i < n && 0 <= j < n ==> CellBounded(w, model, i, j, lo, hi, pNeg)
  {
    BinaryCountIsNonzeros(model, |model|);
    var w := Weights(model, n, false, mags, signs, pNeg).value;
    forall i, j | 0 <= i < n && 0 <= j < n
      ensures CellBounded(w, model, i, j, lo, hi, pNeg)
    {
      CellBounds(model, n, mags, signs, pNeg, lo, hi, i, j);
    }
  }

  /** With a model that is not 0/1, `np.sum(model == 1)` may differ from the
      number of nonzero entries: numpy then raises unless exactly one edge
      was counted, and in that case the one coefficient is broadcast to every
      nonzero off-diagonal position. */
  lemma CountedEdgesMismatch(model: Matrix<real>, n: nat, mags: seq<real>, signs: seq<int>, pNeg: real)
    requires IsSquare(model, n) && 0.0 <= pNeg <= 1.0
    requires |mags| == NumEdges(model) && |signs| == |mags|
    requires NumEdges(model) != |Nonzeros(model)|
    ensures NumEdges(model) != 1 ==> Weights(model, n, false, mags, signs, pNeg) == Failure(ShapeMismatch)
    ensures NumEdges(model) == 1 ==>
      Weights(model, n, false, mags, signs, pNeg).Success? &&
      forall i, j :: 0 <= i < n && 0 <= j < n && i != j && model[i][j] != 0.0 ==>
        Weights(model, n, false, mags, signs, pNeg).value[i][j] == signs[0] as real * mags[0]
  {
    var coeff := Coefficients(mags, signs);
    var vals := ScatterValues(coeff, |Nonzeros(model)|);
    if NumEdges(model) == 1 {
      assert vals == Some(seq(|Nonzeros(model)|, _ => coeff[0]));
      var w := ScatteredWeights(model, n, vals.value);
      assert Weights(model, n, false, mags, signs, pNeg) == Success(w);
      forall i, j | 0 <= i < n && 0 <= j < n && i != j && model[i][j] != 0.0
        ensures w[i][j] == signs[0] as real * mags[0]
      {
        BroadcastCell(model, n, vals.value, coeff[0], i, j);
      }
    } else {
      assert vals.None?;
    }
  }

  /** A value broadcast to every nonzero position is the weight of every
      nonzero off-diagonal cell. */
  lemma BroadcastCell(model: Matrix<real>, n: nat, vals: seq<real>, v: real, i: nat, j: nat)
    requires IsSquare(model, n) && |vals| == |Nonzeros(model)|
    requires forall l :: 0 <= l < |vals| ==> vals[l] == v
    requires i < n && j < n && i != j && model[i][j] != 0.0
    ensures ScatteredWeights(model, n, vals)[i][j] == v
  {
    RankInRange(model, i, j);
  }

  /** The worked example of the generator's documentation: two nodes, the
      single edge 0 -> 1 (model[1][0] == 1), coefficient 0.3 with a positive
      sign. The weight lands at row 1, column 0. */
  lemma ReferenceScenario()
    ensures Weights([[0.0, 0.0], [1.0, 0.0]], 2, false, [0.3], [1], 0.1)
         == Success([[0.0, 0.0], [0.3, 0.0]])
  {
    var model := [[0.0, 0.0], [1.0, 0.0]];
    ReferenceEdges();
    assert Coefficients([0.3], [1]) == [0.3];
    assert ScatterValues([0.3], 1) == Some([0.3]);
    ReferenceScatter();
  }

  lemma ReferenceScatter()
    requires Nonzeros([[0.0, 0.0], [1.0, 0.0]]) == [(1, 0)] && Rank([[0.0, 0.0], [1.0, 0.0]], 1, 0) == 0
    ensures ScatteredWeights([[0.0, 0.0], [1.0, 0.0]], 2, [0.3]) == [[0.0, 0.0], [0.3, 0.0]]
  {
    var w := ScatteredWeights([[0.0, 0.0], [1.0, 0.0]], 2, [0.3]);
    assert w[1][0] == 0.3 && w[0][0] == 0.0 && w[0][1] == 0.0 && w[1][1] == 0.0;
    assert w[0] == [0.0, 0.0] && w[1] == [0.3, 0.0];
  }

  /** The reference model has one edge, at (1, 0), of rank 0. */
  lemma ReferenceEdges()
    ensures var model := [[0.0, 0.0], [1.0, 0.0]];
      Nonzeros(model) == [(1, 0)] && NumEdges(model) == 1 && Rank(model, 1, 0) == 0
  {
    var model := [[0.0, 0.0], [1.0, 0.0]];
    assert RowNonzeros(model[0], 0, 2) == [];
    assert RowNonzeros(model[1], 1, 1) == [(1, 0)];
    assert RowNonzeros(model[1], 1, 2) == [(1, 0)];
    assert RowCount(model[1], 1.0, 2) == 1;
  }
}
