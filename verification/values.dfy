/**
 * The value shapes the county pipeline passes between its stages: a cell that
 * may be missing, a step that may abort the script, and a float64 quotient.
 */
module Values {

  /** A cell that may be missing (pandas' NaN / None after a left merge). */
  datatype Option<+T> = None | Some(value: T)

  /**
   * The outcome of a step that can raise. `Err` stands for the exception
   * (for instance the `ValueError` of `astype(int)`), which ends the script.
   */
  datatype Result<+T> = Ok(value: T) | Err(reason: string)

  /**
   * A float64 as pandas' true division produces it. `NaN` is also the marker
   * pandas uses for a missing value in a float column.
   */
  datatype Float = Finite(x: real) | PosInf | NegInf | NaN
}
