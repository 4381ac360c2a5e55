/** Python's numeric operators on exact reals.  Python 3 `/` is true division,
    `%` on floats is floor-mod (the result takes the sign of the divisor), and
    `astype(int)` truncates toward zero; all three are written out here because
    Dafny's own operators differ. */
module RealMath {

  /** Python `a % d` for floats: `a - d * floor(a / d)`. */
  function FloorMod(a: real, d: real): real
    requires d != 0.0
  {
    a - d * (a / d).Floor as real
  }

  /** `k` whole periods of length `d`. */
  function Periods(k: int, d: real): real
  {
    k as real * d
  }

  /** Floor-mod with a positive divisor lands in `[0, d)` and differs from `a`
      by a whole number of periods. */
  lemma FloorModRange(a: real, d: real)
    requires d > 0.0
    ensures 0.0 <= FloorMod(a, d) < d
    ensures exists k: int :: a == FloorMod(a, d) + Periods(k, d)
  {
    var q := a / d;
    var k := q.Floor;
    var e := q - k as real;
    assert 0.0 <= e < 1.0;
    assert a == q * d;
    assert FloorMod(a, d) == d * e;
    assert d * e < d * 1.0;
    assert a == FloorMod(a, d) + Periods(k, d);
  }

  /** Adding one period does not change the residue. */
  lemma FloorModPeriodic(a: real, d: real)
    requires d > 0.0
    ensures FloorMod(a + d, d) == FloorMod(a, d)
  {
    var q := a / d;
    assert (a + d) / d == q + d / d;
    assert (a + d) / d == q + 1.0;
    var k := q.Floor;
    assert ((a + d) / d).Floor == k + 1;
    assert FloorMod(a + d, d) == a + d - d * (k + 1) as real;
    assert d * (k + 1) as real == d * k as real + d;
  }

  /** The residue is zero exactly at whole multiples of the divisor. */
  lemma FloorModZero(a: real, d: real)
    requires d > 0.0
    ensures FloorMod(a, d) == 0.0 <==> exists k: int :: a == Periods(k, d)
  {
    if FloorMod(a, d) == 0.0 {
      assert a == Periods((a / d).Floor, d);
    }
    if k: int :| a == Periods(k, d) {
      DivOfProduct(k as real, d);
      assert a / d == k as real;
      assert (a / d).Floor == k;
    }
  }

  /** The residue is half the divisor exactly at odd multiples of half the divisor. */
  lemma FloorModHalf(a: real, d: real)
    requires d > 0.0
    ensures FloorMod(a, d) == d / 2.0 <==> exists k: int :: a == Periods(2 * k + 1, d / 2.0)
  {
    if FloorMod(a, d) == d / 2.0 {
      var k := (a / d).Floor;
      assert a == Periods(2 * k + 1, d / 2.0);
    }
    if k: int :| a == Periods(2 * k + 1, d / 2.0) {
      var y := k as real + 0.5;
      assert a == y * d;
      DivOfProduct(y, d);
      assert a / d == y;
      assert (a / d).Floor == k;
    }
  }

  lemma DivShift(a: real, d: real)
    requires d != 0.0
    ensures (a + d) / d == a / d + 1.0
    ensures ((a + d) / d).Floor == (a / d).Floor + 1
  {
    assert (a + d) / d == a / d + d / d;
    var q := a / d;
    assert (q + 1.0).Floor == q.Floor + 1;
  }

  lemma DivSub(a: real, b: real, s: real)
    requires s != 0.0
    ensures a / s - b / s == (a - b) / s
  {
  }

  lemma DivStrictMono(a: real, b: real, s: real)
    requires a < b && s > 0.0
    ensures a / s < b / s
  {
    assert b / s - a / s == (b - a) / s;
  }

  lemma MulNonzero(a: real, b: real)
    requires a != 0.0 && b != 0.0
    ensures a * b != 0.0
  {
  }

  lemma MulPos(x: real, y: real)
    requires 0.0 < x && 0.0 < y
    ensures 0.0 < x * y
  {
  }

  lemma MulNonneg(x: real, y: real)
    requires 0.0 <= x && 0.0 <= y
    ensures 0.0 <= x * y
  {
  }

  lemma DivOfProduct(y: real, d: real)
    requires d != 0.0
    ensures (y * d) / d == y
  {
  }

  /** `astype(int)`: truncation toward zero. */
  function Trunc(x: real): (n: int)
    ensures 0.0 <= x ==> n as real <= x < n as real + 1.0
    ensures x < 0.0 ==> n as real - 1.0 < x <= n as real
  {
    if x >= 0.0 then x.Floor else -((-x).Floor)
  }

  /** `np.clip(x, lo, hi)`. */
  function Clip(x: real, lo: real, hi: real): (r: real)
    requires lo <= hi
    ensures lo <= r <= hi
    ensures lo <= x <= hi ==> r == x
    ensures x < lo ==> r == lo
    ensures hi < x ==> r == hi
  {
    if x < lo then lo else if hi < x then hi else x
  }

  /** Integer clamp used by `choose(..., mode="clip")`. */
  function ClipIndex(i: int, lo: int, hi: int): (r: int)
    requires lo <= hi
    ensures lo <= r <= hi
    ensures lo <= i <= hi ==> r == i
  {
    if i < lo then lo else if hi < i then hi else i
  }

  function Abs(x: real): (r: real)
    ensures 0.0 <= r && (r == x || r == -x)
  {
    if x < 0.0 then -x else x
  }

  /** `x ** n` for a natural exponent, exact. */
  function Pow(x: real, n: nat): real
  {
    if n == 0 then 1.0 else x * Pow(x, n - 1)
  }

  /** Natural powers are monotone on the non-negative reals. */
  lemma {:induction false} PowMono(a: real, b: real, n: nat)
    requires 0.0 <= a <= b
    ensures 0.0 <= Pow(a, n) <= Pow(b, n)
  {
    if n > 0 {
      PowMono(a, b, n - 1);
      var pa, pb := Pow(a, n - 1), Pow(b, n - 1);
      assert 0.0 <= a * pa;
      assert a * pa <= b * pa;
      assert b * pa <= b * pb;
    }
  }

  /** A power of a number in the unit interval stays in the unit interval. */
  lemma {:induction false} PowUnit(x: real, n: nat)
    requires 0.0 <= x <= 1.0
    ensures 0.0 <= Pow(x, n) <= 1.0
  {
    if n > 0 {
      PowUnit(x, n - 1);
      var p := Pow(x, n - 1);
      assert 0.0 <= x * p;
      assert x * p <= 1.0 * p;
    }
  }
}
