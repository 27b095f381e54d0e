/** Small shared vocabulary: an optional value, integer min/max and
    JavaScript rounding. */
module Base {

  /** A value that may be absent: a missing JSON field, JavaScript `undefined`/`null`,
      a Python `None`, or an oracle that has nothing to say. */
  datatype Option<+T> = None | Some(value: T) {

    /** The carried value, or `default` when absent. */
    function GetOr(default: T): T {
      match this
      case Some(v) => v
      case None => default
    }
  }

  function Min(a: int, b: int): int {
    if a <= b then a else b
  }

  function Max(a: int, b: int): int {
    if a >= b then a else b
  }

  /** JavaScript's `Math.round` on an exact rational: the nearest integer,
      halves rounding up. */
  function JsRound(x: real): (r: int)
    ensures x - 0.5 < r as real <= x + 0.5
  {
    (x + 0.5).Floor
  }

  /** Bounds `n·lo <= sum <= n·hi` on a running sum survive adding one more
      value in `[lo, hi]`. */
  lemma BoundsGrowByOne(n: nat, sum: int, x: int, lo: int, hi: int)
    requires n * lo <= sum <= n * hi && lo <= x <= hi
    ensures (n + 1) * lo <= sum + x <= (n + 1) * hi
  {
    assert (n + 1) * lo == n * lo + lo;
    assert (n + 1) * hi == n * hi + hi;
  }
}
