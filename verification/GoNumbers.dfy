/** Go's conversion of a floating-point number to an integer, with exact reals for floats. */
module GoNumbers {
  /** Truncation toward zero. */
  function Trunc(x: real): int {
    if x >= 0.0 then x.Floor else -((-x).Floor)
  }
}
