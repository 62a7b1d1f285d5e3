/** A dense row-major matrix, its staged builder and its accessors (src/matrix.rs).
    Cells are modelled as `real`; the library stores 64-bit floats, whose
    rounding and NaN behaviour no property here depends on. */
module Matrices {
  import opened Wrappers
  import opened Errors

  /** `data` has exactly `rows` rows of exactly `cols` cells each. */
  predicate HasShape(data: seq<seq<real>>, rows: nat, cols: nat) {
    |data| == rows && forall i :: 0 <= i < |data| ==> |data[i]| == cols
  }

  /** The `rows` by `cols` block of zeros the builder synthesises when no data is given. */
  function Zeros(rows: nat, cols: nat): (d: seq<seq<real>>)
    ensures HasShape(d, rows, cols)
    ensures forall i, j :: 0 <= i < rows && 0 <= j < cols ==> d[i][j] == 0.0
  {
    seq(rows, _ => seq(cols, _ => 0.0))
  }

  // ---------------------------------------------------------------------------
  // Row-major search

  /** Cell (p, q) comes before cell (i, j) in row-major order. */
  predicate RowMajorBefore(p: nat, q: nat, i: nat, j: nat) {
    p < i || (p == i && q < j)
  }

  /** Some stored cell equals `v`. */
  ghost predicate Occurs(data: seq<seq<real>>, v: real) {
    exists i, j :: 0 <= i < |data| && 0 <= j < |data[i]| && data[i][j] == v
  }

  /** (i, j) is a stored cell equal to `v`, and no stored cell before it in
      row-major order equals `v`. */
  ghost predicate IsFirstOccurrence(data: seq<seq<real>>, v: real, i: nat, j: nat) {
    i < |data| && j < |data[i]| && data[i][j] == v &&
    forall p, q :: 0 <= p < |data| && 0 <= q < |data[p]| && RowMajorBefore(p, q, i, j) ==> data[p][q] != v
  }

  /** There is at most one first occurrence. */
  lemma FirstOccurrenceUnique(data: seq<seq<real>>, v: real, i: nat, j: nat, i': nat, j': nat)
    requires IsFirstOccurrence(data, v, i, j) && IsFirstOccurrence(data, v, i', j')
    ensures i == i' && j == j'
  {
  }

  // ---------------------------------------------------------------------------
  // Text rendering

  /** `parts` separated by `sep`, with no separator before the first part or
      after the last. */
  function Join(parts: seq<string>, sep: string): string {
    if |parts| == 0 then ""
    else if |parts| == 1 then parts[0]
    else Join(parts[..|parts| - 1], sep) + sep + parts[|parts| - 1]
  }

  /** Joining one more part appends the separator and that part. */
  lemma JoinStep(parts: seq<string>, n: nat, sep: string)
    requires 1 < n <= |parts|
    ensures Join(parts[..n], sep) == Join(parts[..n - 1], sep) + sep + parts[n - 1]
  {
    assert parts[..n][..n - 1] == parts[..n - 1];
  }

  /** The text of each cell of `row`. */
  function CellTexts(row: seq<real>, show: real -> string): (t: seq<string>)
    ensures |t| == |row| && forall j :: 0 <= j < |row| ==> t[j] == show(row[j])
  {
    seq(|row|, j requires 0 <= j < |row| => show(row[j]))
  }

  /** The reference layout of each row of `data`: its cells between bars,
      separated by single spaces. */
  function ReferenceLines(data: seq<seq<real>>, show: real -> string): (t: seq<string>)
    ensures |t| == |data|
    ensures forall i :: 0 <= i < |data| ==> t[i] == "|" + Join(CellTexts(data[i], show), " ") + "|"
  {
    seq(|data|, i requires 0 <= i < |data| => "|" + Join(CellTexts(data[i], show), " ") + "|")
  }

  /** `pre` followed by the first `n` cells of `row` as the cell loop of
      `Display` writes them: cell `k` is followed by a space exactly when
      `k < cols - 1`. */
  function CellsWritten(pre: string, row: seq<real>, n: nat, cols: nat, show: real -> string): string
    requires n <= |row|
  {
    if n == 0 then pre
    else if n - 1 < cols - 1 then CellsWritten(pre, row, n - 1, cols, show) + show(row[n - 1]) + " "
    else CellsWritten(pre, row, n - 1, cols, show) + show(row[n - 1])
  }

  /** The text the row loop of `Display` has written after the first `n`
      stored rows: each row between bars, followed by a newline exactly when
      its index is below `rows - 1`. */
  function RowsWritten(data: seq<seq<real>>, n: nat, rows: nat, cols: nat, show: real -> string): string
    requires n <= |data|
  {
    if n == 0 then ""
    else
      var line := CellsWritten(RowsWritten(data, n - 1, rows, cols, show) + "|", data[n - 1], |data[n - 1]|, cols, show) + "|";
      if n - 1 < rows - 1 then line + "\n" else line
  }

  /** Up to `cols` cells, the cell loop writes the `Join` of the cells so far,
      plus one pending space while more cells are expected. */
  lemma {:induction false} CellsWrittenIsJoin(pre: string, row: seq<real>, n: nat, cols: nat, show: real -> string)
    requires n <= |row| && n <= cols
    ensures 0 < n < cols ==>
      CellsWritten(pre, row, n, cols, show) == pre + Join(CellTexts(row, show)[..n], " ") + " "
    ensures n == 0 || n == cols ==>
      CellsWritten(pre, row, n, cols, show) == pre + Join(CellTexts(row, show)[..n], " ")
  {
    var cells := CellTexts(row, show);
    if n == 1 {
      assert Join(cells[..1], " ") == show(row[0]);
    } else if n > 1 {
      CellsWrittenIsJoin(pre, row, n - 1, cols, show);
      var before := Join(cells[..n - 1], " ");
      JoinStep(cells, n, " ");
      assert pre + before + " " + show(row[n - 1]) == pre + (before + " " + show(row[n - 1]));
    }
  }

  /** A whole row of `cols` cells, written after `prev`, is `prev` followed by
      its reference line. */
  lemma LineWritten(prev: string, row: seq<real>, cols: nat, show: real -> string)
    requires |row| == cols
    ensures CellsWritten(prev + "|", row, cols, cols, show) + "|"
      == prev + ("|" + Join(CellTexts(row, show), " ") + "|")
  {
    var cells := CellTexts(row, show);
    CellsWrittenIsJoin(prev + "|", row, cols, cols, show);
    assert cells[..cols] == cells;
  }

  /** Up to `rows` rows of a matrix of the declared shape, the row loop
      writes the `Join` of the reference lines so far, plus one pending
      newline while more rows are expected. */
  lemma {:induction false} RowsWrittenIsJoin(data: seq<seq<real>>, n: nat, rows: nat, cols: nat, show: real -> string)
    requires HasShape(data, rows, cols) && n <= rows
    ensures 0 < n < rows ==>
      RowsWritten(data, n, rows, cols, show) == Join(ReferenceLines(data, show)[..n], "\n") + "\n"
    ensures n == 0 || n == rows ==>
      RowsWritten(data, n, rows, cols, show) == Join(ReferenceLines(data, show)[..n], "\n")
  {
    if n > 0 {
      var lines := ReferenceLines(data, show);
      var prev := RowsWritten(data, n - 1, rows, cols, show);
      LineWritten(prev, data[n - 1], cols, show);
      if n == 1 {
        assert Join(lines[..1], "\n") == lines[0];
      } else {
        RowsWrittenIsJoin(data, n - 1, rows, cols, show);
        var before := Join(lines[..n - 1], "\n");
        JoinStep(lines, n, "\n");
        assert before + "\n" + lines[n - 1] == prev + lines[n - 1];
      }
    }
  }
  // ---------------------------------------------------------------------------
  // The matrix

  datatype Matrix = Matrix(rows: nat, cols: nat, data: seq<seq<real>>) {

    /** The invariant of every matrix the builder produces. */
    predicate Valid() {
      rows > 0 && cols > 0 && HasShape(data, rows, cols)
    }

    /** Every cell (i, j) with i < rows and j < cols is stored, so reading it
        cannot go out of range. */
    predicate Indexable() {
      rows > 0 && cols > 0 ==> rows <= |data| && forall i :: 0 <= i < rows ==> cols <= |data[i]|
    }

    /** The placeholder matrix: it reports one row and one column but stores
        no data, so it does not satisfy the invariant. */
    static function New(): (m: Matrix)
      ensures m.rows == 1 && m.cols == 1 && m.data == []
      ensures !m.Valid() && !m.Indexable()
    {
      Matrix(1, 1, [])
    }

    /** The only validated way to build a matrix. */
    static function Builder(): BuilderMatrix {
      BuilderMatrix.New()
    }

    /** Bounds-checked lookup. The library panics when the checked cell is not
        stored, which only a placeholder or hand-assembled matrix allows. */
    function Get(row: nat, col: nat): (r: Option<real>)
      requires row < rows && col < cols ==> row < |data| && col < |data[row]|
      ensures r.Some? <==> row < rows && col < cols
      ensures r.Some? ==> r.value == data[row][col]
    {
      if row < rows && col < cols then Some(data[row][col]) else None
    }

    /** The first stored cell, in row-major order, equal to `v`. The scan runs
        over the stored rows and cells, whatever `rows` and `cols` say. */
    method Find(v: real) returns (r: Option<(nat, nat)>)
      ensures r.Some? ==> IsFirstOccurrence(data, v, r.value.0, r.value.1)
      ensures r.None? <==> !Occurs(data, v)
    {
      var i := 0;
      while i < |data|
        invariant 0 <= i <= |data|
        invariant forall p, q :: 0 <= p < i && 0 <= q < |data[p]| ==> data[p][q] != v
      {
        var row := data[i];
        var j := 0;
        while j < |row|
          invariant 0 <= j <= |row|
          invariant forall q :: 0 <= q < j ==> row[q] != v
        {
          if row[j] == v {
            return Some((i, j));
          }
          j := j + 1;
        }
        i := i + 1;
      }
      return None;
    }

    /** Compatibility check: for multiplication the library compares this
        matrix's rows with the other's columns; for addition it asks for the
        same shape. */
    function Verify(isMult: bool, other: Matrix): bool {
      if isMult then rows == other.cols else rows == other.rows && cols == other.cols
    }

    /** The text the `Display` implementation writes, with `show` standing for
        the formatting of one cell value. */
    function Rendered(show: real -> string): string {
      if rows == 0 || cols == 0 then "||"
      else RowsWritten(data, |data|, rows, cols, show)
    }

    /** The `Display` implementation: a zero dimension is written as two
        bars; otherwise every stored row is written between bars, with a space
        after every cell but the one the column count says is last, and a
        newline after every row but the one the row count says is last. */
    method Fmt(show: real -> string) returns (s: string)
      ensures s == Rendered(show)
    {
      if rows == 0 || cols == 0 {
        return "||";
      }
      s := "";
      var i := 0;
      while i < |data|
        invariant 0 <= i <= |data|
        invariant s == RowsWritten(data, i, rows, cols, show)
      {
        var row := data[i];
        s := s + "|";
        var j := 0;
        while j < |row|
          invariant 0 <= j <= |row|
          invariant s == CellsWritten(RowsWritten(data, i, rows, cols, show) + "|", row, j, cols, show)
        {
          s := s + show(row[j]);
          if j < cols - 1 {
            s := s + " ";
          }
          j := j + 1;
        }
        s := s + "|";
        if i < rows - 1 {
          s := s + "\n";
        }
        i := i + 1;
      }
    }
  }

  /** Adding and multiplying compatibility, by the usual rules, as reference
      definitions for `Verify`. */
  predicate SameShape(a: Matrix, b: Matrix) {
    a.rows == b.rows && a.cols == b.cols
  }

  /** The product `a × b` is defined. */
  predicate CanMultiply(a: Matrix, b: Matrix) {
    a.cols == b.rows
  }

  lemma VerifyAdditionIsSameShape(a: Matrix, b: Matrix)
    ensures a.Verify(false, b) <==> SameShape(a, b)
    ensures a.Verify(false, b) == b.Verify(false, a)
  {
  }

  /** The multiplication check accepts exactly the pairs for which `b × a`
      (not `a × b`) is defined. */
  lemma VerifyMultiplicationIsReversedProduct(a: Matrix, b: Matrix)
    ensures a.Verify(true, b) <==> CanMultiply(b, a)
  {
  }

  /** The multiplication check is not symmetric, and is not the `a × b` rule:
      a 2×3 matrix passes it against a 4×2 one, although neither `a × b` is
      defined nor does the check pass the other way round. */
  lemma VerifyMultiplicationNotSymmetric()
    ensures var a, b := Matrix(2, 3, []), Matrix(4, 2, []);
      a.Verify(true, b) && !b.Verify(true, a) && !CanMultiply(a, b)
  {
  }

  /** The doc-comment example of `verify`: a 2×3 and a 3×2 matrix pass the
      multiplication check and fail the addition check. As written there the
      example would not compile (the builders are never finished with `done`,
      and the second matrix is used after it has been moved); this lemma
      states what it means, on the two finished matrices. */
  lemma VerifyDocExample()
    ensures var a := Matrix(2, 3, [[1.0, 2.0, 3.0], [4.0, 5.0, 6.0]]);
      var b := Matrix(3, 2, [[7.0, 8.0], [9.0, 10.0], [11.0, 12.0]]);
      a.Verify(true, b) && !a.Verify(false, b)
  {
  }

  /** On a valid matrix `Get` succeeds exactly on the cells, and finds each
      stored value there. */
  lemma GetOnValid(m: Matrix, i: nat, j: nat)
    requires m.Valid()
    ensures m.Get(i, j).Some? <==> i < |m.data| && j < |m.data[i]|
    ensures m.Get(i, j).Some? ==> m.Get(i, j).value == m.data[i][j]
  {
  }

  /** On a valid matrix the first occurrence `Find` reports is a cell that
      `Get` reads back as the value searched for. */
  lemma FirstOccurrenceReadsBack(m: Matrix, v: real, i: nat, j: nat)
    requires m.Valid() && IsFirstOccurrence(m.data, v, i, j)
    ensures m.Get(i, j) == Some(v)
  {
  }

  /** A value `Get` returns is found by `Find`. */
  lemma GetResultOccurs(m: Matrix, i: nat, j: nat)
    requires m.Valid() && m.Get(i, j).Some?
    ensures Occurs(m.data, m.Get(i, j).value)
  {
    assert m.data[i][j] == m.Get(i, j).value;
  }

  /** A valid matrix renders as its rows, each between bars with single spaces
      between cells, separated by newlines and with no trailing newline. */
  lemma RenderedValid(m: Matrix, show: real -> string)
    requires m.Valid()
    ensures m.Rendered(show) == Join(ReferenceLines(m.data, show), "\n")
  {
    var lines := ReferenceLines(m.data, show);
    RowsWrittenIsJoin(m.data, m.rows, m.rows, m.cols, show);
    assert lines[..m.rows] == lines;
  }

  /** A 2×2 example of the rendering. */
  lemma RenderedTwoByTwo(show: real -> string)
    ensures Matrix(2, 2, [[1.0, 2.0], [3.0, 4.0]]).Rendered(show)
      == "|" + show(1.0) + " " + show(2.0) + "|" + "\n" + "|" + show(3.0) + " " + show(4.0) + "|"
  {
    var data := [[1.0, 2.0], [3.0, 4.0]];
    assert CellsWritten("|", data[0], 2, 2, show) == "|" + show(1.0) + " " + show(2.0);
    assert RowsWritten(data, 0, 2, 2, show) + "|" == "|";
    var first := RowsWritten(data, 1, 2, 2, show);
    assert first == "|" + show(1.0) + " " + show(2.0) + "|" + "\n";
    assert CellsWritten(first + "|", data[1], 1, 2, show) == first + "|" + show(3.0) + " ";
    assert CellsWritten(first + "|", data[1], 2, 2, show) == first + "|" + show(3.0) + " " + show(4.0);
  }

  /** A zero dimension renders as two bars whatever is stored; the placeholder
      matrix, which stores no rows, renders as nothing at all. */
  lemma RenderedEdgeCases(m: Matrix, show: real -> string)
    ensures m.rows == 0 || m.cols == 0 ==> m.Rendered(show) == "||"
    ensures Matrix.New().Rendered(show) == ""
  {
  }

  // ---------------------------------------------------------------------------
  // The builder

  /** The staged builder. The library keeps each field optional, but every
      builder it hands out has all three set, so they are plain fields here. */
  datatype BuilderMatrix = BuilderMatrix(rows: nat, cols: nat, data: seq<seq<real>>) {

    /** One row, one column and no data. */
    static function New(): BuilderMatrix {
      BuilderMatrix(1, 1, [])
    }

    function Rows(n: nat): BuilderMatrix {
      this.(rows := n)
    }

    function Cols(n: nat): BuilderMatrix {
      this.(cols := n)
    }

    function Data(d: seq<seq<real>>): BuilderMatrix {
      this.(data := d)
    }

    /** Finalisation, a first-match chain: a zero dimension is an error; no
        data means a zero-filled matrix; data of the wrong shape is an error;
        otherwise the data is taken as it is. */
    function Done(): (r: Result<Matrix, MatrixError>)
      ensures r.Ok? ==> r.value.Valid() && r.value.rows == rows && r.value.cols == cols
      ensures r.Err? ==> r.error == InvalidMatrixSize || r.error == DataMismatch
    {
      if rows == 0 || cols == 0 then Err(InvalidMatrixSize)
      else if data == [] then Ok(Matrix(rows, cols, Zeros(rows, cols)))
      else if |data| != rows || exists row :: row in data && |row| != cols then Err(DataMismatch)
      else Ok(Matrix(rows, cols, data))
    }
  }

  /** A zero dimension is rejected first, whatever the data. */
  lemma DoneZeroDimension(b: BuilderMatrix)
    requires b.rows == 0 || b.cols == 0
    ensures b.Done() == Err(InvalidMatrixSize)
  {
  }

  /** With positive dimensions and no data the result is a zero matrix of that shape. */
  lemma DoneDimensionsOnly(b: BuilderMatrix)
    requires b.rows > 0 && b.cols > 0 && b.data == []
    ensures b.Done().Ok?
    ensures var m := b.Done().value;
      m.rows == b.rows && m.cols == b.cols && HasShape(m.data, b.rows, b.cols) &&
      forall i, j :: 0 <= i < b.rows && 0 <= j < b.cols ==> m.data[i][j] == 0.0
  {
  }

  /** With positive dimensions and some data, the data is rejected exactly when
      it is not `rows` rows of `cols` cells, and otherwise taken unchanged. */
  lemma DoneWithData(b: BuilderMatrix)
    requires b.rows > 0 && b.cols > 0 && b.data != []
    ensures b.Done() == Err(DataMismatch) <==> !HasShape(b.data, b.rows, b.cols)
    ensures HasShape(b.data, b.rows, b.cols) ==> b.Done() == Ok(Matrix(b.rows, b.cols, b.data))
  {
    if !HasShape(b.data, b.rows, b.cols) && |b.data| == b.rows {
      var k :| 0 <= k < |b.data| && |b.data[k]| != b.cols;
      assert b.data[k] in b.data;
    }
  }

  /** Finalisation succeeds exactly when both dimensions are positive and the
      data is either absent or of the declared shape. */
  lemma DoneSucceedsIff(b: BuilderMatrix)
    ensures b.Done().Ok? <==> b.rows > 0 && b.cols > 0 && (b.data == [] || HasShape(b.data, b.rows, b.cols))
  {
    if b.rows > 0 && b.cols > 0 && b.data != [] {
      DoneWithData(b);
    }
  }

  /** A fresh builder finalises to the 1×1 zero matrix. */
  lemma DefaultBuilderDone()
    ensures Matrix.Builder() == BuilderMatrix(1, 1, [])
    ensures Matrix.Builder().Done() == Ok(Matrix(1, 1, [[0.0]]))
  {
    assert Zeros(1, 1)[0] == [0.0];
    assert Zeros(1, 1) == [[0.0]];
  }

  /** Each setter replaces its own field and leaves the other two alone. */
  lemma SettersReplaceOneField(b: BuilderMatrix, n: nat, d: seq<seq<real>>)
    ensures b.Rows(n).rows == n && b.Rows(n).cols == b.cols && b.Rows(n).data == b.data
    ensures b.Cols(n).cols == n && b.Cols(n).rows == b.rows && b.Cols(n).data == b.data
    ensures b.Data(d).data == d && b.Data(d).rows == b.rows && b.Data(d).cols == b.cols
  {
  }

  /** The last call to a setter wins, and setters of different fields commute. */
  lemma SettersLastCallWins(b: BuilderMatrix, m: nat, n: nat, d: seq<seq<real>>, e: seq<seq<real>>)
    ensures b.Rows(m).Rows(n) == b.Rows(n)
    ensures b.Cols(m).Cols(n) == b.Cols(n)
    ensures b.Data(d).Data(e) == b.Data(e)
    ensures b.Rows(m).Cols(n) == b.Cols(n).Rows(m)
    ensures b.Rows(m).Data(d) == b.Data(d).Rows(m)
    ensures b.Cols(m).Data(d) == b.Data(d).Cols(m)
  {
  }

  /** The two doc-comment examples of `done`: matching data is accepted as
      given, and a third row of data for a two-row matrix is rejected. The
      zero-row case is not among them; it is the first match arm. */
  lemma DoneDocExamples()
    ensures var d := [[1.0, 2.0, 3.0], [4.0, 5.0, 6.0]];
      Matrix.Builder().Rows(2).Cols(3).Data(d).Done() == Ok(Matrix(2, 3, d))
    ensures Matrix.Builder().Rows(2).Cols(3).Data([[1.0, 2.0, 3.0], [4.0, 5.0, 6.0], [7.0, 8.0, 9.0]]).Done()
      == Err(DataMismatch)
    ensures Matrix.Builder().Rows(0).Done() == Err(InvalidMatrixSize)
  {
  }
}
