/** Small shared vocabulary: optional values, results, Java's rounding and truncating
    conversions from double to long, and the point types the other modules exchange. */
module Common {

  datatype Option<+T> = None | Some(value: T)

  datatype Result<+R, +E> = Success(value: R) | Failure(error: E)

  /** A point in source space, as the landmark table stores it (x, y, z). */
  datatype Point3 = Point3(x: real, y: real, z: real)

  /** `Math.round(double)`: the nearest integer, ties rounded up (towards positive infinity).
      NaN, infinities and the clamping at the ends of the `long` range are not modelled. */
  function JavaRound(x: real): (r: int)
    ensures r as real - 0.5 <= x < r as real + 0.5
  {
    (x + 0.5).Floor
  }

  /** The `(long)` cast of a double: truncation towards zero. */
  function Trunc(x: real): (r: int)
    ensures 0.0 <= x ==> 0 <= r && r as real <= x < r as real + 1.0
    ensures x < 0.0 ==> r <= 0 && r as real - 1.0 < x <= r as real
  {
    if x >= 0.0 then x.Floor else -((-x).Floor)
  }

  /** The rounding is the unique nearest-integer-ties-up choice, so whole numbers are fixed points. */
  lemma JavaRoundUnique(x: real, n: int)
    requires n as real - 0.5 <= x < n as real + 0.5
    ensures JavaRound(x) == n
  {
  }

  function Min(a: int, b: int): int { if a <= b then a else b }

  function Max(a: int, b: int): int { if a >= b then a else b }
}
