/** Small failure-compatible wrapper shared by every module of the model. */
module Wrappers {

  /** A value that may be missing. `None` also stands for Python's
      `float('-inf')` / `None` sentinels of the program. */
  datatype Option<+T> = None | Some(value: T) {

    /** The wrapped value, or `default` when there is none. */
    function GetOr(default: T): T {
      match this
      case Some(v) => v
      case None => default
    }
  }

  /** Strict "greater than" on scores where `None` is minus infinity,
      mirroring Python's comparisons against `float('-inf')`. */
  predicate Greater(a: Option<int>, b: Option<int>) {
    a.Some? && (b.None? || a.value > b.value)
  }

  /** Python's `a + b` where either side may be minus infinity. */
  function AddScores(a: int, b: Option<int>): Option<int> {
    if b.Some? then Some(a + b.value) else None
  }
}
