/** Facts about products and remainders that the solver does not find by itself. */
module Arith {
  lemma TimesAtLeast(m: nat, k: nat)
    requires k > 0
    ensures m * k >= m
  {}

  /** A number below the divisor that differs by a multiple of it is the remainder. */
  lemma RemainderUnique(h: int, m: nat, q: int, r: nat)
    requires m > 0 && h == m * q + r && r < m
    ensures h % m == r
  {
    var q', r' := h / m, h % m;
    assert m * q' - m * q == r - r';
    if q' > q {
      assert m * (q' - q) == m * q' - m * q;
      TimesAtLeast(m, q' - q);
    } else if q' < q {
      assert m * (q - q') == m * q - m * q';
      TimesAtLeast(m, q - q');
    }
  }

  lemma TimesBelow(a: nat, x: nat, b: nat)
    requires x < b && a > 0
    ensures 0 <= a * x && a * x + a <= a * b
  {
    assert a * (b - x) == a * b - a * x;
    TimesAtLeast(a, b - x);
  }

  /** The remainder by a product, digit by digit. */
  lemma RemainderByProduct(v: int, a: nat, b: nat)
    requires a > 0 && b > 0
    ensures a * b > 0 && v % (a * b) == v % a + a * (v / a % b)
  {
    var q, r := v / a, v % a;
    var q', r' := q / b, q % b;
    assert v == a * q + r;
    assert q == b * q' + r';
    assert a * q == a * (b * q') + a * r';
    assert a * (b * q') == (a * b) * q';
    TimesBelow(a, r', b);
    RemainderUnique(v, a * b, q', r + a * r');
  }

  lemma Cancel(m: nat, x: int, y: int)
    requires m > 0 && m * x == m * y
    ensures x == y
  {
    if x < y {
      assert m * (y - x) == m * y - m * x;
      TimesAtLeast(m, y - x);
    } else if x > y {
      assert m * (x - y) == m * x - m * y;
      TimesAtLeast(m, x - y);
    }
  }

  /** Dividing by a product is dividing twice. */
  lemma QuotientByProduct(v: int, a: nat, b: nat)
    requires a > 0 && b > 0
    ensures a * b > 0 && v / (a * b) == v / a / b
  {
    RemainderByProduct(v, a, b);
    var m, q := a * b, v / a;
    assert v == m * (v / m) + v % m;
    assert v == a * q + v % a && q == b * (q / b) + q % b;
    assert a * q == a * (b * (q / b)) + a * (q % b);
    assert a * (b * (q / b)) == m * (q / b);
    Cancel(m, v / m, q / b);
  }
}
