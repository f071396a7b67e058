/** Small values shared by every part of the model. */
module Common {

  datatype Option<+T> = None | Some(value: T)

  /** A stretch of time, from lo to hi. */
  datatype Range = Range(lo: int, hi: int)

  function Max(a: int, b: int): int {
    if a >= b then a else b
  }

  function Min(a: int, b: int): int {
    if a <= b then a else b
  }

  function MaxR(a: real, b: real): real {
    if a >= b then a else b
  }

  function MinR(a: real, b: real): real {
    if a <= b then a else b
  }

  function AbsR(a: real): real {
    if a < 0.0 then -a else a
  }

  function Clamp01(v: real): real {
    if v < 0.0 then 0.0 else if v > 1.0 then 1.0 else v
  }

  /** The nonnegative square root, as an abstract function: what `math.Sqrt` promises on x >= 0. */
  ghost predicate IsSqrt(sqrt: real -> real) {
    forall x: real {:trigger sqrt(x)} :: x >= 0.0 ==> sqrt(x) >= 0.0 && sqrt(x) * sqrt(x) == x
  }
}
