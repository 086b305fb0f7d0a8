/** SymEngine's DenseMatrix as a value: a row count, a column count and the
    entries row by row. */
module Matrices {
  import opened Expressions

  datatype Matrix = Matrix(nrows: nat, ncols: nat, cells: seq<seq<Expr>>) {

    /** The entries form an nrows x ncols grid. */
    predicate Shaped() {
      |cells| == nrows && forall r :: 0 <= r < nrows ==> |cells[r]| == ncols
    }

    function Get(r: nat, c: nat): Expr
      requires Shaped() && r < nrows && c < ncols
    {
      cells[r][c]
    }

    function Set(r: nat, c: nat, v: Expr): (m: Matrix)
      requires Shaped() && r < nrows && c < ncols
      ensures m.Shaped() && m.nrows == nrows && m.ncols == ncols
      ensures m.Get(r, c) == v
      ensures forall i, j :: 0 <= i < nrows && 0 <= j < ncols && (i, j) != (r, c) ==>
                m.Get(i, j) == Get(i, j)
      ensures m.cells[r] == cells[r][c := v]
      ensures forall i :: 0 <= i < nrows && i != r ==> m.cells[i] == cells[i]
    {
      Matrix(nrows, ncols, cells[r := cells[r][c := v]])
    }
  }

  /** A freshly constructed nrows x ncols matrix. SymEngine leaves the
      entries of `DenseMatrix(r, c)` unset; `zeros` (and this model, for
      every fresh matrix) fills them with zero. */
  function Zeros(nrows: nat, ncols: nat): (m: Matrix)
    ensures m.Shaped() && m.nrows == nrows && m.ncols == ncols
    ensures forall i, j :: 0 <= i < nrows && 0 <= j < ncols ==> m.Get(i, j) == Zero
  {
    Matrix(nrows, ncols, seq(nrows, _ => seq(ncols, _ => Zero)))
  }

  /** Two matrices with the same dimensions and the same entries are equal. */
  lemma SameEntries(a: Matrix, b: Matrix)
    requires a.Shaped() && b.Shaped() && a.nrows == b.nrows && a.ncols == b.ncols
    requires forall i, j :: 0 <= i < a.nrows && 0 <= j < a.ncols ==> a.Get(i, j) == b.Get(i, j)
    ensures a == b
  {
    forall i | 0 <= i < a.nrows
      ensures a.cells[i] == b.cells[i]
    {
      assert forall j :: 0 <= j < a.ncols ==> a.cells[i][j] == a.Get(i, j);
    }
  }
}
