/** `Math.min` and `Math.max` on exact reals, shared by the page geometry
    and the pane resizer. */
module Numeric {

  function Min(a: real, b: real): real {
    if a <= b then a else b
  }

  function Max(a: real, b: real): real {
    if a >= b then a else b
  }
}
