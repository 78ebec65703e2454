/** Shared vocabulary: failure-carrying results and dense matrices stored as
    sequences of rows (the numpy arrays of the scripts, once read out). */
module Common {

  datatype Option<+T> = None | Some(value: T)

  datatype Result<+T, +E> = Success(value: T) | Failure(error: E)

  /** A dense matrix, row-major: `m[i][j]` is numpy's `m[i, j]`. */
  type Matrix<T> = seq<seq<T>>

  /** `m` has `rows` rows of `cols` entries each (numpy shape `(rows, cols)`). */
  ghost predicate IsRect<T>(m: Matrix<T>, rows: nat, cols: nat)
  {
    |m| == rows && forall i :: 0 <= i < rows ==> |m[i]| == cols
  }

  ghost predicate IsSquare<T>(m: Matrix<T>, n: nat)
  {
    IsRect(m, n, n)
  }

  /** Number of columns of a rectangular matrix (0 for a matrix with no rows). */
  function Width<T>(m: Matrix<T>): nat
  {
    if |m| == 0 then 0 else |m[0]|
  }

  /** The matrix a two-dimensional array currently holds. */
  function Cells<T>(a: array2<T>): (m: Matrix<T>)
    reads a
    ensures IsRect(m, a.Length0, a.Length1)
    ensures forall i, j :: 0 <= i < a.Length0 && 0 <= j < a.Length1 ==> m[i][j] == a[i, j]
  {
    seq(a.Length0, i requires 0 <= i < a.Length0 reads a =>
      seq(a.Length1, j requires 0 <= j < a.Length1 reads a => a[i, j]))
  }

  /** An array holds a matrix when they agree cell by cell. */
  lemma CellsOf<T>(a: array2<T>, m: Matrix<T>)
    requires IsRect(m, a.Length0, a.Length1)
    requires forall i, j :: 0 <= i < a.Length0 && 0 <= j < a.Length1 ==> a[i, j] == m[i][j]
    ensures Cells(a) == m
  {
    var c := Cells(a);
    forall i | 0 <= i < a.Length0
      ensures c[i] == m[i]
    {
      assert forall j :: 0 <= j < a.Length1 ==> c[i][j] == m[i][j];
    }
  }

  /** Column `c` of a rectangular matrix (numpy `m[:, c]`). */
  function Column<T>(m: Matrix<T>, c: nat): (col: seq<T>)
    requires forall i :: 0 <= i < |m| ==> c < |m[i]|
    ensures |col| == |m| && forall i :: 0 <= i < |m| ==> col[i] == m[i][c]
  {
    seq(|m|, i requires 0 <= i < |m| => m[i][c])
  }

  /** numpy transpose `m.T` of a `rows x cols` matrix. */
  function Transpose<T>(m: Matrix<T>, rows: nat, cols: nat): (t: Matrix<T>)
    requires IsRect(m, rows, cols)
    ensures IsRect(t, cols, rows)
    ensures forall j, i :: 0 <= j < cols && 0 <= i < rows ==> t[j][i] == m[i][j]
  {
    seq(cols, j requires 0 <= j < cols => seq(rows, i requires 0 <= i < rows => m[i][j]))
  }
}
