/** Elementwise addition of two matrices (src/operations/add.rs). */
module Operations {
  import opened Wrappers
  import opened Errors
  import opened Matrices

  /** Checks that the shapes agree, asks the builder for a zero matrix of that
      shape and overwrites its cells, row by row, with the sums.
      The library reads `a.data[i][j]` and `b.data[i][j]` for every cell of the
      common shape, and panics if one is not stored: the precondition only
      excludes that. */
  method Add(a: Matrix, b: Matrix) returns (r: Result<Matrix, MatrixError>)
    requires a.Verify(false, b) ==> a.Indexable() && b.Indexable()
    ensures !SameShape(a, b) ==> r == Err(DimensionMismatch)
    ensures SameShape(a, b) && (a.rows == 0 || a.cols == 0) ==> r == Err(InvalidMatrixSize)
    ensures r.Ok? <==> SameShape(a, b) && a.rows > 0 && a.cols > 0
    ensures r.Ok? ==> r.value.Valid() && r.value.rows == a.rows && r.value.cols == a.cols
    ensures r.Ok? ==> forall i, j :: 0 <= i < a.rows && 0 <= j < a.cols ==>
      r.value.data[i][j] == a.data[i][j] + b.data[i][j]
  {
    if !a.Verify(false, b) {
      return Err(DimensionMismatch);
    }
    var shell := Matrix.Builder().Rows(a.rows).Cols(a.cols).Done();
    if shell.Err? {
      return Err(shell.error);
    }
    var result := shell.value;
    DoneDimensionsOnly(Matrix.Builder().Rows(a.rows).Cols(a.cols));
    var i := 0;
    while i < a.rows
      invariant 0 <= i <= a.rows
      invariant result.Valid() && result.rows == a.rows && result.cols == a.cols
      invariant forall p, q :: 0 <= p < i && 0 <= q < a.cols ==>
        result.data[p][q] == a.data[p][q] + b.data[p][q]
      invariant forall p, q :: i <= p < a.rows && 0 <= q < a.cols ==> result.data[p][q] == 0.0
    {
      var j := 0;
      while j < a.cols
        invariant 0 <= j <= a.cols
        invariant result.Valid() && result.rows == a.rows && result.cols == a.cols
        invariant forall p, q :: 0 <= p < i && 0 <= q < a.cols ==>
          result.data[p][q] == a.data[p][q] + b.data[p][q]
        invariant forall q :: 0 <= q < j ==> result.data[i][q] == a.data[i][q] + b.data[i][q]
        invariant forall p, q :: i <= p < a.rows && 0 <= q < a.cols && (p > i || q >= j) ==>
          result.data[p][q] == 0.0
      {
        result := result.(data := result.data[i := result.data[i][j := a.data[i][j] + b.data[i][j]]]);
        j := j + 1;
      }
      i := i + 1;
    }
    return Ok(result);
  }

  /** Two examples: two 2×2 matrices add cell by cell, and a 2×3 and a 3×2
      matrix cannot be added. */
  method AddExamples() returns (sum: Result<Matrix, MatrixError>, mismatch: Result<Matrix, MatrixError>)
    ensures sum == Ok(Matrix(2, 2, [[6.0, 8.0], [10.0, 12.0]]))
    ensures mismatch == Err(DimensionMismatch)
  {
    var a := Matrix(2, 2, [[1.0, 2.0], [3.0, 4.0]]);
    var b := Matrix(2, 2, [[5.0, 6.0], [7.0, 8.0]]);
    sum := Add(a, b);
    var m := sum.value;
    assert m.data[0] == [6.0, 8.0];
    assert m.data[1] == [10.0, 12.0];
    assert m.data == [[6.0, 8.0], [10.0, 12.0]];
    var c := Matrix(2, 3, [[1.0, 2.0, 3.0], [4.0, 5.0, 6.0]]);
    var d := Matrix(3, 2, [[7.0, 8.0], [9.0, 10.0], [11.0, 12.0]]);
    mismatch := Add(c, d);
  }
}
