/** Java conventions the model relies on: the `(int)` cast of a float, `Math.abs`,
    the floating-point library functions the core calls, and an Option type. */
module Base {

  datatype Option<+T> = None | Some(value: T)

  /** Java's `(int)` cast of a float value: it rounds toward zero (not toward
      minus infinity, as `Floor` does). */
  function JavaInt(r: real): (n: int)
    ensures r >= 0.0 ==> n as real <= r < n as real + 1.0
    ensures r < 0.0 ==> n as real - 1.0 < r <= n as real
  {
    if r >= 0.0 then r.Floor else -((-r).Floor)
  }

  /** Casting a float that already holds an integer value gives that integer back. */
  lemma JavaIntOfInt(n: int)
    ensures JavaInt(n as real) == n
  {
  }

  /** `Math.abs` on an int. */
  function Abs(n: int): (r: nat)
    ensures r == n || r == -n
  {
    if n < 0 then -n else n
  }

  /** `Math.abs` on a float. */
  function AbsReal(r: real): (a: real)
    ensures a >= 0.0 && (a == r || a == -r)
  {
    if r < 0.0 then -r else r
  }

  /** The floating-point functions of `java.lang.Math` that the core calls. They are
      not modelled: every operation that uses them takes them as a parameter.
      `cosDeg(d)` and `sinDeg(d)` stand for `Math.cos` and `Math.sin` of `d` degrees
      converted to radians, `atanDeg(m)` for `Math.atan(m)` converted to degrees. */
  datatype JavaMath = JavaMath(
    sqrt: real -> real,
    atanDeg: real -> real,
    cosDeg: real -> real,
    sinDeg: real -> real)
}
