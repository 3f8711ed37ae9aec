/** Small result types shared by the model. */
module Wrappers {

  /** A value or nothing: a Python call that either returns or raises. */
  datatype Option<+T> = None | Some(value: T)

  /** The outcome of a loop run for at most a given number of iterations:
      it returned a value, or it was still running when the fuel ran out. */
  datatype Outcome<+T> = Done(value: T) | OutOfFuel

  function Min(a: int, b: int): int { if a <= b then a else b }
}
