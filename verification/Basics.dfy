/** Small values shared by every module, and the Go number conversions the controller relies on. */
module Basics {

  datatype Option<+T> = None | Some(value: T)

  function Abs(x: int): (r: nat) {
    if x < 0 then -x else x
  }

  /** Go's int64(f) drops the fraction, that is, it rounds toward zero. */
  function Truncate(x: real): int {
    if x >= 0.0 then x.Floor else -((-x).Floor)
  }

  /** Go's integer division rounds toward zero as well. */
  function GoDiv(a: int, b: int): (q: int)
    requires b > 0
    ensures if a >= 0 then q * b <= a < (q + 1) * b else (q - 1) * b < a <= q * b
  {
    if a >= 0 then a / b else -((-a) / b)
  }

  /** Go's remainder has the sign of the dividend. */
  function GoMod(a: int, b: int): int
    requires b > 0
  {
    a - b * GoDiv(a, b)
  }
}
