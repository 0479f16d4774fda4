/**
 * The numeric primitives windy.js relies on, over exact reals: Math.floor,
 * Math.ceil, Math.round, the truncating `%` and `~~` of JavaScript, the
 * floored modulo `floorMod`, and the abstract inputs that stand for
 * Math.sqrt (a non-negative norm) and Math.random (a draw in [0, 1)).
 */
module JsNumbers {

  /** `null`/`undefined` versus a value; `isValue(x)` is `x.Some?`. */
  datatype Option<+T> = None | Some(value: T)

  /** A draw of Math.random: a real in [0, 1). */
  type Unit = r: real | 0.0 <= r < 1.0

  /** A time in frame units; every caller in the source passes a value >= 0. */
  type Time = t: real | t >= 0.0

  /**
   * The Euclidean norm sqrt(u*u + v*v) is not computable over Dafny's reals;
   * the model keeps it abstract and knows only that it is never negative.
   */
  type Norm = f: (real, real) -> real | forall u: real, v: real :: f(u, v) >= 0.0
    witness (u: real, v: real) => 0.0

  function Min(a: real, b: real): (r: real)
    ensures r <= a && r <= b && (r == a || r == b)
  {
    if a <= b then a else b
  }

  function Max(a: real, b: real): (r: real)
    ensures r >= a && r >= b && (r == a || r == b)
  {
    if a >= b then a else b
  }

  /** Math.min of two integers, which is again an integer. */
  function MinInt(a: int, b: int): (r: int)
    ensures r <= a && r <= b && (r == a || r == b)
  {
    Min(a as real, b as real).Floor
  }

  /** Math.max of two integers, which is again an integer. */
  function MaxInt(a: int, b: int): (r: int)
    ensures r >= a && r >= b && (r == a || r == b)
  {
    Max(a as real, b as real).Floor
  }

  /** Math.floor */
  function Floor(x: real): (r: int)
    ensures r as real <= x < r as real + 1.0
  {
    x.Floor
  }

  /** Math.ceil */
  function Ceil(x: real): (r: int)
    ensures x <= r as real < x + 1.0
  {
    -((-x).Floor)
  }

  /** Math.round: halves go towards +Infinity. */
  function Round(x: real): (r: int)
    ensures x - 0.5 < r as real <= x + 0.5
    ensures x == x.Floor as real ==> r == x.Floor
  {
    (x + 0.5).Floor
  }

  /** Truncation toward zero, as `~~p` does for |p| < 2^31. */
  function Trunc(x: real): (r: int)
    ensures x >= 0.0 ==> r == Floor(x)
    ensures x < 0.0 ==> r == Ceil(x)
  {
    if x >= 0.0 then x.Floor else -((-x).Floor)
  }

  /**
   * JavaScript's `a % n` on numbers: the remainder of truncated division.
   * It agrees with floorMod whenever the quotient is not negative.
   */
  function JsRemainder(a: real, n: real): (r: real)
    requires n != 0.0
    ensures a / n >= 0.0 ==> r == FloorMod(a, n)
  {
    a - n * Trunc(a / n) as real
  }

  /** windy.js floorMod: the remainder of floored division, in [0, n) for every a when n > 0. */
  function FloorMod(a: real, n: real): (r: real)
    requires n != 0.0
    ensures n > 0.0 ==> 0.0 <= r < n
  {
    var q := Floor(a / n);
    if n > 0.0 then
      FloorModBounds(a, n, q);
      a - n * q as real
    else
      a - n * q as real
  }

  /** With n > 0 and q = floor(a / n): q*n <= a < q*n + n. */
  lemma FloorModBounds(a: real, n: real, q: int)
    requires n > 0.0 && q == Floor(a / n)
    ensures 0.0 <= a - n * q as real < n
  {
    DivLeq(q as real, a, n);
    DivLt(a, q as real + 1.0, n);
  }

  /** k <= a / n scales to k * n <= a. */
  lemma DivLeq(k: real, a: real, n: real)
    requires n > 0.0 && k <= a / n
    ensures k * n <= a
  {
  }

  /** a / n < m scales to a < m * n. */
  lemma DivLt(a: real, m: real, n: real)
    requires n > 0.0 && a / n < m
    ensures a < m * n
  {
  }

  lemma FloorOfShift(x: real, k: int)
    ensures Floor(x + k as real) == Floor(x) + k
  {
  }

  lemma FloorMonotone(a: real, b: real)
    requires a <= b
    ensures Floor(a) <= Floor(b)
  {
  }

  /** floorMod(., 360) is periodic: whole turns change nothing. */
  lemma FloorModPeriodic(a: real, k: int)
    ensures FloorMod(a + k as real * 360.0, 360.0) == FloorMod(a, 360.0)
  {
    var b := a + k as real * 360.0;
    assert b / 360.0 == a / 360.0 + k as real;
    FloorOfShift(a / 360.0, k);
  }

  /** floorMod(., 360) leaves a value that already lies in [0, 360) alone. */
  lemma FloorModIdentity(a: real)
    requires 0.0 <= a < 360.0
    ensures FloorMod(a, 360.0) == a
  {
    assert 0.0 <= a / 360.0 < 1.0;
  }

  /** For a >= 0, JavaScript's `a % 1440` lies in [0, 1440) and agrees with floorMod. */
  lemma RemainderOf1440(a: real)
    requires a >= 0.0
    ensures JsRemainder(a, 1440.0) == FloorMod(a, 1440.0)
    ensures 0.0 <= JsRemainder(a, 1440.0) < 1440.0
  {
    var q := Floor(a / 1440.0);
    assert q as real * 1440.0 <= a < q as real * 1440.0 + 1440.0;
  }

  /** `a % 1440` is periodic with period 1440 for a >= 0. */
  lemma RemainderOf1440Periodic(a: real)
    requires a >= 0.0
    ensures JsRemainder(a + 1440.0, 1440.0) == JsRemainder(a, 1440.0)
  {
    assert (a + 1440.0) / 1440.0 == a / 1440.0 + 1.0;
    FloorOfShift(a / 1440.0, 1);
  }

  lemma MulLeq(x: real, y: real, n: real)
    requires n >= 0.0 && x <= y
    ensures x * n <= y * n
  {
  }

  /** A fraction in [0, 1) of a non-negative m lies in [0, m), or is 0 when m is 0. */
  lemma FractionOf(frac: real, m: real)
    requires 0.0 <= frac < 1.0 && m >= 0.0
    ensures 0.0 <= frac * m
    ensures m > 0.0 ==> frac * m < m
    ensures m == 0.0 ==> frac * m == 0.0
  {
    MulLeq(0.0, frac, m);
    if m > 0.0 {
      MulLt(frac, 1.0, m);
    }
  }

  lemma MulLt(x: real, y: real, n: real)
    requires n > 0.0 && x < y
    ensures x * n < y * n
  {
  }
}
