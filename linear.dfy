/** The dense linear algebra of the generators (`np.identity`, `-`, `+`,
    `np.dot`), exact over the reals. The properties use the shapes these
    produce, and the values of `np.dot` when its left factor is the identity
    (`IdentityLeft`). */
module Linear {
  import opened Common

  /** `np.identity(n)`. */
  function Identity(n: nat): (id: Matrix<real>)
    ensures IsSquare(id, n)
    ensures forall i, j :: 0 <= i < n && 0 <= j < n ==> id[i][j] == if i == j then 1.0 else 0.0
  {
    seq(n, i => seq(n, j => if i == j then 1.0 else 0.0))
  }

  /** Elementwise `a - b`. */
  function Sub(a: Matrix<real>, b: Matrix<real>, rows: nat, cols: nat): (d: Matrix<real>)
    requires IsRect(a, rows, cols) && IsRect(b, rows, cols)
    ensures IsRect(d, rows, cols)
    ensures forall i, j :: 0 <= i < rows && 0 <= j < cols ==> d[i][j] == a[i][j] - b[i][j]
  {
    seq(rows, i requires 0 <= i < rows => seq(cols, j requires 0 <= j < cols => a[i][j] - b[i][j]))
  }

  /** Elementwise `a + b`. */
  function Add(a: Matrix<real>, b: Matrix<real>, rows: nat, cols: nat): (s: Matrix<real>)
    requires IsRect(a, rows, cols) && IsRect(b, rows, cols)
    ensures IsRect(s, rows, cols)
    ensures forall i, j :: 0 <= i < rows && 0 <= j < cols ==> s[i][j] == a[i][j] + b[i][j]
  {
    seq(rows, i requires 0 <= i < rows => seq(cols, j requires 0 <= j < cols => a[i][j] + b[i][j]))
  }

  function Dot(u: seq<real>, v: seq<real>): real
    requires |u| == |v|
  {
    if u == [] then 0.0 else u[0] * v[0] + Dot(u[1..], v[1..])
  }

  /** `np.dot(a, b)` of an n x k and a k x s matrix: n x s. */
  function MatMul(a: Matrix<real>, b: Matrix<real>, n: nat, k: nat, s: nat): (c: Matrix<real>)
    requires IsRect(a, n, k) && IsRect(b, k, s)
    ensures IsRect(c, n, s)
  {
    seq(n, i requires 0 <= i < n => seq(s, j requires 0 <= j < s => Dot(a[i], Column(b, j))))
  }

  /** Multiplying by the identity changes nothing. */
  lemma {:induction false} DotUnit(v: seq<real>, i: nat)
    requires i < |v|
    ensures Dot(seq(|v|, j => if i == j then 1.0 else 0.0), v) == v[i]
  {
    var e := seq(|v|, j => if i == j then 1.0 else 0.0);
    if i == 0 {
      DotZero(e[1..], v[1..]);
    } else {
      assert e[1..] == seq(|v| - 1, j => if i - 1 == j then 1.0 else 0.0);
      DotUnit(v[1..], i - 1);
    }
  }

  lemma {:induction false} DotZero(z: seq<real>, v: seq<real>)
    requires |z| == |v| && forall j :: 0 <= j < |z| ==> z[j] == 0.0
    ensures Dot(z, v) == 0.0
  {
    if z != [] {
      DotZero(z[1..], v[1..]);
    }
  }

  lemma IdentityLeft(b: Matrix<real>, n: nat, s: nat)
    requires IsRect(b, n, s)
    ensures MatMul(Identity(n), b, n, n, s) == b
  {
    var c := MatMul(Identity(n), b, n, n, s);
    forall i | 0 <= i < n
      ensures c[i] == b[i]
    {
      forall j | 0 <= j < s
        ensures c[i][j] == b[i][j]
      {
        assert Identity(n)[i] == seq(n, j => if i == j then 1.0 else 0.0);
        DotUnit(Column(b, j), i);
      }
    }
  }
}
