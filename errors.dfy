/** The library's closed error taxonomy (src/errors.rs). */
module Errors {

  /** `InvalidOperation` is part of the taxonomy but no operation of the
      library produces it. */
  datatype MatrixError = InvalidMatrixSize | DimensionMismatch | InvalidOperation | DataMismatch
}
