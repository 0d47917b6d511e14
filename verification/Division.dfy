/** Facts about Euclidean division by a positive divisor, stated one at a time so that
    the modules that count samples never leave the solver alone with a nonlinear goal. */
module Division {

  function Min(a: int, b: int): int {
    if a <= b then a else b
  }

  lemma Unique(a: int, d: int, q: int, r: int)
    requires 0 < d && 0 <= r < d && a == q * d + r
    ensures a / d == q && a % d == r
  {
    SameQuotient(d, a / d, a % d, q, r);
  }

  lemma SameQuotient(d: int, q: int, r: int, q': int, r': int)
    requires 0 <= r < d && 0 <= r' < d && q * d + r == q' * d + r'
    ensures q == q' && r == r'
  {
    if q < q' {
      MulMonotone(q + 1, q', d);
    } else if q' < q {
      MulMonotone(q' + 1, q, d);
    }
  }

  lemma Below(a: int, d: int, t: int)
    requires 0 < d
    ensures a / d < t <==> a < t * d
  {
    var q, r := a / d, a % d;
    assert a == q * d + r;
    if q < t {
      assert q * d <= (t - 1) * d;
    } else {
      assert q * d >= t * d;
    }
  }

  lemma Shift(a: int, d: int, c: int)
    requires 0 < d
    ensures (a - c * d) / d == a / d - c && (a - c * d) % d == a % d
  {
    assert a == (a / d) * d + a % d;
    assert a - c * d == (a / d - c) * d + a % d;
    Unique(a - c * d, d, a / d - c, a % d);
  }

  lemma ShiftUp(a: int, d: int, c: int)
    requires 0 < d
    ensures (a + c * d) / d == a / d + c && (a + c * d) % d == a % d
  {
    assert (-c) * d == -(c * d);
    Shift(a, d, -c);
  }

  lemma Monotone(a: int, b: int, d: int)
    requires 0 < d && a <= b
    ensures a / d <= b / d
  {
    Below(b, d, a / d);
    assert a / d * d <= a;
  }

  lemma MulMonotone(a: int, b: int, c: int)
    requires a <= b && 0 <= c
    ensures a * c <= b * c
  {}

  lemma MulNonneg(a: int, b: int)
    requires 0 <= a && 0 <= b
    ensures 0 <= a * b
  {}

  lemma Distribute(a: int, b: int, c: int)
    ensures (a + b) * c == a * c + b * c
  {}

  lemma Regroup(a: int, b: int, c: int)
    ensures a * (b * c) == a * b * c
  {}

  lemma Commute(a: int, b: int)
    ensures a * b == b * a
  {}
}
