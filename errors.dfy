/** Richardson extrapolation of grid results (src/errors.py). */
module Errors {

  /**
   * extrapolate: an estimate of the exact value from the solution at some step
   * size (val) and at half that step size (halfVal).
   */
  function Extrapolate(val: real, halfVal: real): (r: real)
    ensures r == halfVal + (halfVal - val) / 3.0
    ensures val == halfVal ==> r == val
    ensures halfVal > val ==> r > halfVal
    ensures halfVal < val ==> r < halfVal
  {
    (4.0 * halfVal - val) / 3.0
  }

  /** Adding the same offset to both inputs shifts the estimate by that offset. */
  lemma ExtrapolateShift(a: real, b: real, c: real)
    ensures Extrapolate(a + c, b + c) == Extrapolate(a, b) + c
  {
  }

  /**
   * The estimate is exact for a method whose error is c * h^2: if val carries
   * an error c * h^2 and halfVal an error c * (h/2)^2, the two errors cancel.
   */
  lemma ExtrapolateCancelsSecondOrderError(exact: real, c: real, h: real)
    ensures Extrapolate(exact + c * h * h, exact + c * (h / 2.0) * (h / 2.0)) == exact
  {
    var e := c * h * h;
    assert c * (h / 2.0) * (h / 2.0) == e / 4.0;
  }
}
