/** The few operations on real numbers that the sources take from their languages. */
module Reals {
  function Abs(x: real): real {
    if x < 0.0 then -x else x
  }

  function Min(a: real, b: real): real {
    if a < b then a else b
  }

  function Max(a: real, b: real): real {
    if a < b then b else a
  }
}
