/** The smaller of two numbers, and the few facts about multiplication and remainders that the other modules need. */
module Arith {

  function Min(a: int, b: int): int { if a <= b then a else b }

  lemma MulAtLeast(d: int, k: int)
    requires d >= 0 && k >= 1
    ensures d * k >= d
  {
    MulMono(d, 1, k);
  }

  lemma MulMono(d: int, a: int, b: int)
    requires d >= 0 && a <= b
    ensures d * a <= d * b
    decreases b - a
  {
    if a < b {
      MulMono(d, a, b - 1);
      assert d * b == d * (b - 1) + d;
    }
  }

  /** Two multiples of d that are less than d apart are equal. */
  lemma MultiplesApart(d: int, a: int, b: int)
    requires d >= 1 && a > b && a % d == 0 && b % d == 0
    ensures a >= b + d
  {
    var qa, qb := a / d, b / d;
    assert a == d * qa && b == d * qb;
    if qa <= qb {
      MulMono(d, qa, qb);
    } else {
      MulMono(d, qb + 1, qa);
      assert d * (qb + 1) == d * qb + d;
    }
  }

  lemma MultipleMod(d: int, k: int)
    requires d >= 1
    ensures (d * k) % d == 0
  {
    var q, r := (d * k) / d, (d * k) % d;
    assert d * k == d * q + r && 0 <= r < d;
    assert d * k - d * q == d * (k - q);
    if k > q {
      MulAtLeast(d, k - q);
    } else if k < q {
      MulAtLeast(d, q - k);
    }
  }

  /** Row i of a table of the given width ends before row i' starts. */
  lemma RowEnd(i: int, i': int, width: int)
    requires 0 <= i < i' && 0 <= width
    ensures i * width + width <= i' * width
  {
    MulMono(width, i + 1, i');
    assert width * (i + 1) == i * width + width;
    assert width * i' == i' * width;
  }
}
