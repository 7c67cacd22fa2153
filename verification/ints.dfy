/** Integer helpers shared by the sweep and the ranking. */
module Ints {

  function Min(a: int, b: int): int {
    if a <= b then a else b
  }

  function Max(a: int, b: int): int {
    if a >= b then a else b
  }
}
