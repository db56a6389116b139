/** Python's rounding of exact numbers. */
module Rounding {

  /** `round`: to the nearest integer, halves to the even one. */
  function RoundHalfEven(x: real): int {
    var f := x.Floor;
    var rest := x - f as real;
    if rest < 0.5 || (rest == 0.5 && f % 2 == 0) then f else f + 1
  }

  /** The result is within a half of `x`, and a larger number never rounds lower. */
  lemma RoundsToNearest(x: real, y: real)
    ensures x - 0.5 <= RoundHalfEven(x) as real <= x + 0.5
    ensures x <= y ==> RoundHalfEven(x) <= RoundHalfEven(y)
  {
  }
}
