/** Powers and division with remainder on unbounded integers. */
module Arithmetic {

  /** `b` to the power `n`. */
  function Power(b: nat, n: nat): (r: nat)
    ensures b > 0 ==> r > 0
  {
    if n == 0 then 1 else b * Power(b, n - 1)
  }

  lemma PowerTwoSixteen()
    ensures Power(2, 16) == 0x1_0000
  {
    assert Power(2, 4) == 16;
    assert Power(2, 8) == 256;
    assert Power(2, 12) == 4096;
  }

  /** Division with remainder has exactly one answer. */
  lemma DivIsUnique(x: int, d: int, q: int, m: int)
    requires d > 0 && 0 <= m < d
    requires x == d * q + m
    ensures x / d == q && x % d == m
  {
    var q' := x / d;
    var m' := x % d;
    assert x == d * q' + m';
    var k := q - q';
    assert d * k == d * q - d * q';
    assert d * k == m' - m;
    if k > 0 {
      MulMonotone(d, k);
    } else if k < 0 {
      MulMonotone(d, -k);
    }
  }

  lemma MulMonotone(d: int, k: int)
    requires d > 0 && k >= 1
    ensures d * k >= d
  {
    assert d * k == d * (k - 1) + d;
    assert d * (k - 1) >= 0;
  }
}
