/** The small arithmetic helpers the source takes from `<algorithm>` and
    `<cmath>`: `std::min` on ints, and absolute value on ints and on the
    widget coordinates. */
module Numeric {
  function Min(a: int, b: int): int {
    if a < b then a else b
  }

  function Abs(a: int): int {
    if a < 0 then -a else a
  }

  /** `fabs` on a coordinate. */
  function AbsReal(r: real): real {
    if r < 0.0 then -r else r
  }
}
