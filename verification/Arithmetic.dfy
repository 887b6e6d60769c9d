/** Non-linear facts about division and multiplication, proved in small steps. */
module Arithmetic {

  lemma MulMonotone(a: int, b: int, s: int)
    requires a <= b && 0 <= s
    ensures a * s <= b * s
  {
  }

  lemma MulAssoc(a: int, b: int, c: int)
    ensures (a * b) * c == a * (b * c)
  {
  }

  lemma MulDistribute(a: int, b: int, c: int)
    ensures (a + b) * c == a * c + b * c
  {
  }

  lemma MulCancel(a: int, b: int, s: int)
    requires a * s == b * s && 0 < s
    ensures a == b
  {
    if a < b { MulMonotone(a + 1, b, s); MulDistribute(a, 1, s); }
    if b < a { MulMonotone(b + 1, a, s); MulDistribute(b, 1, s); }
  }

  /** The quotient is the only number with a remainder in range. */
  lemma Quotient(p: int, d: int, q: int, r: int)
    requires 1 <= d && p == q * d + r && 0 <= r < d
    ensures p / d == q && p % d == r
  {
    var q' := p / d;
    var r' := p % d;
    assert p == q' * d + r';
    if q' < q {
      MulMonotone(q' + 1, q, d);
      MulDistribute(q', 1, d);
    } else if q < q' {
      MulMonotone(q + 1, q', d);
      MulDistribute(q, 1, d);
    }
  }

  lemma QuotientParts(q: int, x: int, s: int, r: int, y: int, l: int)
    requires 0 <= x < s && q == r * l + y && 0 <= y < l
    ensures q * s + x == r * (l * s) + (y * s + x)
    ensures 0 <= y * s + x < l * s
  {
    MulDistribute(r * l, y, s);
    MulAssoc(r, l, s);
    MulMonotone(0, y, s);
    MulMonotone(y + 1, l, s);
    MulDistribute(y, 1, s);
  }

  lemma DivDiv(p: int, s: int, l: int)
    requires 1 <= s && 1 <= l
    ensures (p / s) / l == p / (l * s)
  {
    var q, x := p / s, p % s;
    var r, y := q / l, q % l;
    assert p == q * s + x && q == r * l + y;
    QuotientParts(q, x, s, r, y, l);
    Quotient(p, l * s, r, y * s + x);
  }
}
