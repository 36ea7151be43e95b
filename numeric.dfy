/** Integer and real helpers shared by the renderers: JavaScript's rounding and
    byte-store conversions, and the division facts the block geometry rests on. */
module Numeric {

  /** `Math.round`: the nearest integer, halves rounded towards +infinity. */
  function Round(x: real): (n: int)
    ensures n as real - 0.5 <= x < n as real + 0.5
  {
    (x + 0.5).Floor
  }

  lemma RoundOfInteger(n: int)
    ensures Round(n as real) == n
  {
  }

  /** Rounding keeps order: a larger argument never rounds lower. */
  lemma RoundMonotone(x: real, y: real)
    requires x <= y
    ensures Round(x) <= Round(y)
  {
  }

  /** Storing an integer into a `Uint8ClampedArray` clamps it to [0, 255]. */
  function Byte(v: int): (b: int)
    ensures 0 <= b <= 255
    ensures 0 <= v <= 255 ==> b == v
    ensures v < 0 ==> b == 0
    ensures v > 255 ==> b == 255
  {
    if v < 0 then 0 else if v > 255 then 255 else v
  }

  lemma MulMonotone(a: int, b: int, d: int)
    requires a <= b && 0 <= d
    ensures a * d <= b * d
  {
    assert (b - a) * d >= 0;
  }

  /** Euclidean quotient and remainder are the unique pair. */
  lemma DivModUnique(n: int, d: int, q: int, r: int)
    requires 0 < d && 0 <= r < d && n == q * d + r
    ensures n / d == q && n % d == r
  {
    var q', r' := n / d, n % d;
    assert n == q' * d + r';
    if q' < q {
      MulMonotone(q' + 1, q, d);
    } else if q < q' {
      MulMonotone(q + 1, q', d);
    }
  }

  /** Row-major positions are unique: `r * d + c` is `n` exactly when `r` and
      `c` are the quotient and remainder of `n` by `d`. */
  lemma RowMajorIff(n: int, d: int, r: int, c: int)
    requires 0 < d && 0 <= c < d
    ensures r * d + c == n <==> n / d == r && n % d == c
  {
    if r * d + c == n {
      DivModUnique(n, d, r, c);
    }
  }

  /** `n / d <= x` exactly when `n` lies below the start of quotient `x + 1`. */
  lemma DivLeIff(n: int, d: int, x: int)
    requires 0 < d
    ensures n / d <= x <==> n < (x + 1) * d
  {
    var q, r := n / d, n % d;
    assert n == q * d + r;
    if q <= x {
      MulMonotone(q + 1, x + 1, d);
    } else {
      MulMonotone(x + 1, q, d);
    }
  }

  lemma LeDivIff(n: int, d: int, x: int)
    requires 0 < d
    ensures x <= n / d <==> x * d <= n
  {
    DivLeIff(n, d, x - 1);
  }

  lemma DivMonotone(a: int, b: int, d: int)
    requires 0 < d && a <= b
    ensures a / d <= b / d
  {
    DivLeIff(a, d, b / d);
    assert b < (b / d + 1) * d;
  }
}
