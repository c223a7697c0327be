/** The integer reading of JavaScript's `Math.round` and `Math.max` as the carousel uses them. */
module JsMath {

  /** `Math.round(a / b)` for a positive divisor: the integer nearest to a/b,
      with exact halves rounded toward +infinity. */
  function RoundDiv(a: int, b: int): (r: int)
    requires b > 0
    ensures 2 * b * r - b <= 2 * a < 2 * b * r + b
  {
    var q := (2 * a + b) / (2 * b);
    assert 2 * a + b == 2 * b * q + (2 * a + b) % (2 * b);
    q
  }

  /** The nearest-integer window of RoundDiv has room for one integer only,
      so RoundDiv is the one integer r with r - 1/2 <= a/b < r + 1/2. */
  lemma RoundDivUnique(a: int, b: int, r: int)
    requires b > 0
    requires 2 * b * r - b <= 2 * a < 2 * b * r + b
    ensures r == RoundDiv(a, b)
  {
    var q := RoundDiv(a, b);
    if r > q {
      MulMonotone(2 * b, q + 1, r);
      assert false;
    } else if r < q {
      MulMonotone(2 * b, r + 1, q);
      assert false;
    }
  }

  /** Multiplying by a non-negative factor keeps the order. */
  lemma MulMonotone(k: int, x: int, y: int)
    requires k >= 0 && x <= y
    ensures k * x <= k * y
  {
    assert k * y - k * x == k * (y - x);
  }

  function Max(a: int, b: int): (m: int)
    ensures m >= a && m >= b
    ensures m == a || m == b
  {
    if a >= b then a else b
  }
}
