/** Values shared by the terminal modules. */
module Common {
  datatype Option<+T> = None | Some(value: T)

  /** Largest integer a JavaScript number holds exactly. */
  const MAX_SAFE_INTEGER: nat := 9_007_199_254_740_991

  predicate IsPositiveSafeInteger(n: int) {
    0 < n <= MAX_SAFE_INTEGER
  }

  datatype Dims = Dims(cols: int, rows: int)

  newtype Byte = b: int | 0 <= b < 256
}
