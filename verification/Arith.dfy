/** Products and quotients. */
module Arith {

  lemma QuotientUnique(h: nat, q: nat, r: nat)
    requires r < h
    ensures (q * h + r) / h == q && (q * h + r) % h == r
  {
    var v := q * h + r;
    assert v == v / h * h + v % h;
    assert (v / h - q) * h == r - v % h;
    SmallMultiple(v / h - q, h);
  }

  lemma SmallMultiple(d: int, h: int)
    requires -h < d * h < h
    ensures d == 0
  {
    assert d >= 1 ==> d * h >= h;
    assert d <= -1 ==> d * h <= -1 * h;
  }

  lemma LessFactor(a: nat, b: nat, h: nat)
    requires a * h < b * h
    ensures a < b
  {
    assert a >= b ==> a * h >= b * h;
  }
}
