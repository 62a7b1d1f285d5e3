# Dense row-major matrices: builder, accessors and addition

This project models the core of a small Rust matrix library in Dafny and
proves what it promises. A `Matrix` has a row count, a column count and its
cells stored row by row. The only validated way to make one is the staged
`BuilderMatrix`. Its setters `rows`, `cols` and `data` each replace one field.
Its finaliser `done` applies a first-match chain:

1. a zero dimension is `InvalidMatrixSize`;
2. no data means a zero-filled matrix;
3. data of the wrong shape is `DataMismatch`;
4. otherwise the data is taken as it is.

A matrix offers a bounds-checked `get` and a row-major `find`. It also offers
the compatibility check `verify`, whose multiplication test compares
`self.rows` with `other.cols`, and a text rendering. Elementwise addition
checks the shapes, asks the builder for a zero matrix of the common shape and
fills its cells in place with two nested loops.

Files:

- `wrappers.dfy`: `Option` and `Result`.
- `errors.dfy`: the `MatrixError` taxonomy.
- `matrix.dfy` (module `Matrices`): the `Matrix` and `BuilderMatrix`
  datatypes, `Get`, `Verify` and `Done` as functions, and `Find` and `Fmt`
  (the `Display` loop) as methods with loops. It also holds the lemmas.
- `add.dfy` (module `Operations`): `Add` as a method with nested loops.

Modelling decisions:

- Cells are `real`. The library stores 64-bit floats, but none of the
  properties depends on float semantics.
- The `Matrix` fields are public in the library, so callers can assemble any
  (rows, cols, data) triple without the builder. `Matrix::new()` makes one
  such triple: 1×1 with no data. Because of this, `Get` and `Add` do not
  require the full invariant `Valid()`. They require only what keeps the
  library from panicking: every cell they read must be stored. `Find`
  iterates over the stored data, so it needs no precondition at all.
- The builder's three fields are `Option`s in the library. Every builder the
  library hands out has all three set, so the model uses plain fields.
- `Display` is modelled structurally. The text of one value is a parameter
  `show: real -> string`. `Fmt` is the writing loop. `CellsWritten` and
  `RowsWritten` give the text the inner and the outer loop have written so
  far, and `Rendered` is the whole text. The separators depend on the
  declared `cols` and `rows`, as in the code, not on the stored lengths.
  `ReferenceLines` and `Join` give the reference layout: every row between
  bars, single spaces between cells, a newline between rows and none after
  the last.
- Three behaviours of the code that a reader might not expect, all kept by the model:
  - a zero row or column count is accepted by the setters and rejected only
    by `done`;
  - `get` on the 1×1 placeholder panics instead of returning "not found";
  - the placeholder renders as the empty string.

## Model

| member | source | states |
|---|---|---|
| `Matrices.Zeros` | src/matrix.rs:295 | the synthesised data has exactly `rows` rows of `cols` cells, every one 0 |
| `Matrices.Matrix.New` | src/matrix.rs:54-60 | the placeholder is 1×1 with no data, and so satisfies neither the invariant nor the no-panic condition of `get` |
| `Matrices.Matrix.Get` | src/matrix.rs:103-109 | returns a value exactly when the row and the column are in range, and that value is the stored cell; requires only that an in-range cell is stored |
| `Matrices.GetOnValid` | src/matrix.rs:103-109 | on a valid matrix, `Get` succeeds exactly on the stored cells and returns their values |
| `Matrices.Matrix.Find` | src/matrix.rs:129-138 | a returned (i, j) is a stored cell equal to the value, with no equal cell earlier in row-major order; nothing is returned exactly when no stored cell equals the value |
| `Matrices.FirstOccurrenceUnique` | src/matrix.rs:129-138 | the first row-major occurrence is unique, so `Find`'s answer is determined |
| `Matrices.FirstOccurrenceReadsBack` | src/matrix.rs:103-138 | on a valid matrix, the cell `Find` reports is read back by `Get` as the value searched for |
| `Matrices.GetResultOccurs` | src/matrix.rs:103-138 | every value `Get` returns from a valid matrix is one that `Find` finds |
| `Matrices.VerifyAdditionIsSameShape` | src/matrix.rs:165-171 | the addition check holds exactly when the shapes are equal, and it is symmetric |
| `Matrices.VerifyMultiplicationIsReversedProduct` | src/matrix.rs:165-167 | the multiplication check holds exactly when the product `other × self` is defined |
| `Matrices.VerifyMultiplicationNotSymmetric` | src/matrix.rs:165-171 | a 2×3 against a 4×2 matrix passes the multiplication check, fails it the other way round, and `self × other` is undefined for it |
| `Matrices.VerifyDocExample` | src/matrix.rs:146-162 | the doc-comment 2×3 and 3×2 pair, taken as finished matrices, passes the multiplication check and fails the addition check |
| `Matrices.Matrix.Fmt` | src/matrix.rs:17-41 | the writing loop produces exactly the rendered text `Rendered`: two bars for a zero dimension, otherwise every stored row with its separators |
| `Matrices.CellsWrittenIsJoin` | src/matrix.rs:26-31 | up to the column count, the cell loop writes the cells joined by single spaces, with one pending space while more cells are expected |
| `Matrices.RowsWrittenIsJoin` | src/matrix.rs:23-38 | up to the row count, on data of the declared shape, the row loop writes the reference lines joined by newlines, with one pending newline while more rows are expected |
| `Matrices.RenderedValid` | src/matrix.rs:17-41 | a valid matrix renders as its rows between bars, cells separated by single spaces, rows by newlines, with no trailing newline |
| `Matrices.RenderedTwoByTwo` | src/matrix.rs:23-38 | `[[1,2],[3,4]]` renders as a bar, 1, a space, 2, a bar, a newline, and the same for 3 and 4, with `show` for each value |
| `Matrices.RenderedEdgeCases` | src/matrix.rs:19-21 | a zero dimension renders as two bars whatever is stored; the placeholder renders as the empty string |
| `Matrices.BuilderMatrix.Done` | src/matrix.rs:291-305 | every matrix returned satisfies the invariant and has the builder's dimensions; the only errors are `InvalidMatrixSize` and `DataMismatch` |
| `Matrices.DoneZeroDimension` | src/matrix.rs:293 | a zero row or column count gives `InvalidMatrixSize`, whatever the data |
| `Matrices.DoneDimensionsOnly` | src/matrix.rs:294-296 | positive dimensions with no data give a matrix of that shape whose every cell is 0 |
| `Matrices.DoneWithData` | src/matrix.rs:298-303 | with positive dimensions and some data, `DataMismatch` is returned exactly when the data is not of the declared shape; otherwise the data is taken unchanged |
| `Matrices.DoneSucceedsIff` | src/matrix.rs:291-305 | finalisation succeeds exactly when both dimensions are positive and the data is absent or of the declared shape |
| `Matrices.DefaultBuilderDone` | src/matrix.rs:177-183 | a fresh builder is 1×1 with no data and finalises to the 1×1 zero matrix |
| `Matrices.SettersReplaceOneField` | src/matrix.rs:205-256 | each setter sets its own field and leaves the other two unchanged |
| `Matrices.SettersLastCallWins` | src/matrix.rs:205-256 | a second call to a setter overrides the first, and setters of different fields commute |
| `Matrices.DoneDocExamples` | src/matrix.rs:264-293 | the two doc-comment cases: a 2×3 build succeeds with its data unchanged, and a 2×3 build given three rows fails with `DataMismatch`; a third, undocumented case from the first match arm: zero rows fails with `InvalidMatrixSize` |
| `Operations.Add` | src/operations/add.rs:19-37 | different shapes give `DimensionMismatch`; a zero dimension gives the builder's `InvalidMatrixSize`; otherwise the result is a valid matrix of the same shape whose every cell is the sum of the corresponding input cells |
| `Operations.AddExamples` | src/operations/add.rs:19-37 | `[[1,2],[3,4]] + [[5,6],[7,8]]` is `[[6,8],[10,12]]`, and a 2×3 plus a 3×2 matrix is `DimensionMismatch` |

## Left out

- Float semantics: NaN never equals itself in `find`, and `+` rounds. Cells are `real` here.
- The text of one cell value, which the library gets from Rust's float formatting, is the parameter `show`.
- The `Formatter` plumbing and the propagation of `fmt::Result` errors: `Fmt` returns the whole text.
- `Get` and `Add` on hand-built matrices whose declared shape exceeds the stored data: the library panics with an index out of range (src/matrix.rs:105, src/operations/add.rs:32); their `requires` clauses exclude exactly that case.
- Machine-width integers: `usize` is unbounded `nat`. No modelled operation does arithmetic that could wrap.
- Allocation failure for very large zero-filled matrices is not modelled.
- The `Display` messages of `MatrixError`, the `Error` marker impl and `MatrixError::new`, which returns its argument. `InvalidOperation` is declared but never produced.
- Module re-exports in src/lib.rs.
- Ownership and moves (`self` consumed by `done` and `add`, the `clone` calls). Matrices are values, so neither input of `Add` can change.
