/** Greatest common divisors: the binary algorithm, and the reduction of a rate ratio by trial division. */
module Gcd {
  import opened Division

  function Times(d: nat, q: nat): nat {
    MulNonneg(d, q);
    d * q
  }

  ghost predicate Divides(d: nat, a: nat) {
    exists q: nat :: Times(d, q) == a
  }

  /** Greatest in the divisibility order, which also covers zero arguments. */
  ghost predicate IsGcd(g: nat, a: nat, b: nat) {
    && Divides(g, a) && Divides(g, b)
    && forall c: nat :: Divides(c, a) && Divides(c, b) ==> Divides(c, g)
  }

  ghost predicate Coprime(a: nat, b: nat) {
    forall d: nat :: Divides(d, a) && Divides(d, b) ==> d == 1
  }

  // ---------------------------------------------------------------- divisibility

  lemma DividesTimes(d: nat, q: nat)
    ensures Divides(d, d * q) && Divides(d, q * d)
  {
    assert Times(d, q) == d * q;
  }

  lemma DividesSum(d: nat, a: nat, b: nat)
    requires Divides(d, a) && Divides(d, b)
    ensures Divides(d, a + b)
  {
    var p: nat, q: nat :| Times(d, p) == a && Times(d, q) == b;
    DistributeNat(d, p, q);
    assert Times(d, p + q) == a + b;
  }

  lemma DistributeNat(d: nat, p: nat, q: nat)
    ensures d * (p + q) == d * p + d * q
  {}

  lemma DividesDifference(d: nat, a: nat, b: nat)
    requires Divides(d, a) && Divides(d, b) && a <= b
    ensures Divides(d, b - a)
  {
    var p: nat, q: nat :| Times(d, p) == a && Times(d, q) == b;
    if p <= q {
      DistributeNat(d, p, q - p);
      assert Times(d, q - p) == b - a;
    } else {
      DistributeNat(d, q, p - q);
      assert Times(d, 0) == b - a;
    }
  }

  lemma DividesTransitive(c: nat, d: nat, a: nat)
    requires Divides(c, d) && Divides(d, a)
    ensures Divides(c, a)
  {
    var p: nat, q: nat :| Times(c, p) == d && Times(d, q) == a;
    Associate(c, p, q);
    assert Times(c, p * q) == a;
  }

  lemma Associate(a: nat, b: nat, c: nat)
    ensures a * b * c == a * (b * c)
  {}

  lemma DividesBound(d: nat, a: nat)
    requires Divides(d, a) && 0 < a
    ensures 0 < d <= a
  {
    var q: nat :| Times(d, q) == a;
    assert 0 < q;
    MulMonotone(1, q, d);
  }

  /** An odd number divides x if it divides 2x. */
  lemma OddDividesHalf(c: nat, x: nat)
    requires c % 2 == 1 && Divides(c, 2 * x)
    ensures Divides(c, x)
  {
    var q: nat :| Times(c, q) == 2 * x;
    if q % 2 == 1 {
      OddTimesOdd(c, q);
    } else {
      Associate(c, q / 2, 2);
      assert q == q / 2 * 2;
      assert Times(c, q / 2) == x;
    }
  }

  lemma OddTimesOdd(a: nat, b: nat)
    requires a % 2 == 1 && b % 2 == 1
    ensures a * b % 2 == 1
  {
    var i, j := a / 2, b / 2;
    assert a == 2 * i + 1 && b == 2 * j + 1;
    assert a * b == 2 * (2 * i * j + i + j) + 1;
  }

  lemma OddDivisor(c: nat, b: nat)
    requires Divides(c, b) && b % 2 == 1
    ensures c % 2 == 1
  {
    if c % 2 == 0 {
      var q: nat :| Times(c, q) == b;
      Associate(2, c / 2, q);
    }
  }

  // ---------------------------------------------------------------- one reduction step

  lemma GcdSymmetric(g: nat, a: nat, b: nat)
    requires IsGcd(g, a, b)
    ensures IsGcd(g, b, a)
  {}

  lemma GcdDouble(g: nat, a: nat, b: nat)
    requires IsGcd(g, a, b)
    ensures IsGcd(2 * g, 2 * a, 2 * b)
  {
    DoubleDivides(g, a);
    DoubleDivides(g, b);
    forall c: nat | Divides(c, 2 * a) && Divides(c, 2 * b)
      ensures Divides(c, 2 * g)
    {
      if c % 2 == 1 {
        OddDividesHalf(c, a);
        OddDividesHalf(c, b);
        DividesTimes(g, 2);
        DividesTransitive(c, g, 2 * g);
      } else {
        HalveDivides(c / 2, a);
        HalveDivides(c / 2, b);
        DoubleDivides(c / 2, g);
      }
    }
  }

  lemma DoubleDivides(d: nat, a: nat)
    requires Divides(d, a)
    ensures Divides(2 * d, 2 * a)
  {
    var q: nat :| Times(d, q) == a;
    Associate(2, d, q);
    assert Times(2 * d, q) == 2 * a;
  }

  lemma HalveDivides(d: nat, a: nat)
    requires Divides(2 * d, 2 * a)
    ensures Divides(d, a)
  {
    var q: nat :| Times(2 * d, q) == 2 * a;
    Associate(2, d, q);
    assert Times(d, q) == a;
  }

  /** A factor two of one side does not matter when the other is odd. */
  lemma GcdHalve(g: nat, a: nat, b: nat)
    requires IsGcd(g, a, b) && b % 2 == 1
    ensures IsGcd(g, 2 * a, b)
  {
    DividesTimes(a, 2);
    DividesTransitive(g, a, 2 * a);
    forall c: nat | Divides(c, 2 * a) && Divides(c, b)
      ensures Divides(c, g)
    {
      OddDivisor(c, b);
      OddDividesHalf(c, a);
    }
  }

  lemma GcdAdd(g: nat, a: nat, d: nat)
    requires IsGcd(g, a, d)
    ensures IsGcd(g, a, a + d)
  {
    DividesSum(g, a, d);
    forall c: nat | Divides(c, a) && Divides(c, a + d)
      ensures Divides(c, g)
    {
      DividesDifference(c, a, a + d);
    }
  }

  lemma GcdZero(a: nat)
    ensures IsGcd(a, a, 0) && IsGcd(a, 0, a)
  {
    assert Times(a, 1) == a && Times(a, 0) == 0;
  }

  /** The greatest common divisor, by subtraction. */
  function Euclid(a: nat, b: nat): (g: nat)
    ensures 0 < a || 0 < b ==> 0 < g
    decreases a + b
  {
    if a == 0 || b == 0 then a + b else if a <= b then Euclid(a, b - a) else Euclid(b, a - b)
  }

  lemma {:induction false} EuclidIsGcd(a: nat, b: nat)
    ensures IsGcd(Euclid(a, b), a, b)
    decreases a + b
  {
    if a == 0 || b == 0 {
      GcdZero(a + b);
    } else if a <= b {
      EuclidIsGcd(a, b - a);
      GcdAdd(Euclid(a, b), a, b - a);
    } else {
      EuclidIsGcd(b, a - b);
      GcdAdd(Euclid(a, b), b, a - b);
      GcdSymmetric(Euclid(a, b), b, a);
    }
  }

  /** There is only one. */
  lemma GcdUnique(g: nat, h: nat, a: nat, b: nat)
    requires IsGcd(g, a, b) && IsGcd(h, a, b)
    ensures g == h
  {
    if 0 < g { DividesBound(h, g); }
    if 0 < h { DividesBound(g, h); }
  }

  // ---------------------------------------------------------------- the binary algorithm

  function Pow2(s: nat): (p: nat)
    ensures 1 <= p
  {
    if s == 0 then 1 else 2 * Pow2(s - 1)
  }

  /** The gcd of the current values, times k, is the gcd of the original ones. */
  ghost predicate Reduces(a0: nat, b0: nat, a: nat, b: nat, k: nat) {
    forall g: nat :: IsGcd(g, a, b) ==> IsGcd(k * g, a0, b0)
  }

  lemma ReduceBoth(a0: nat, b0: nat, a: nat, b: nat, s: nat)
    requires Reduces(a0, b0, 2 * a, 2 * b, Pow2(s))
    ensures Reduces(a0, b0, a, b, Pow2(s + 1))
  {
    hide IsGcd;
    forall g: nat | IsGcd(g, a, b) ensures IsGcd(Pow2(s + 1) * g, a0, b0) {
      GcdDouble(g, a, b);
      Associate(Pow2(s), 2, g);
      assert Pow2(s + 1) * g == Pow2(s) * (2 * g);
    }
  }

  lemma ReduceFirst(a0: nat, b0: nat, a: nat, b: nat, k: nat)
    requires Reduces(a0, b0, 2 * a, b, k) && b % 2 == 1
    ensures Reduces(a0, b0, a, b, k)
  {
    hide IsGcd;
    forall g: nat | IsGcd(g, a, b) ensures IsGcd(k * g, a0, b0) {
      GcdHalve(g, a, b);
    }
  }

  lemma ReduceSecond(a0: nat, b0: nat, a: nat, b: nat, k: nat)
    requires Reduces(a0, b0, a, 2 * b, k) && a % 2 == 1
    ensures Reduces(a0, b0, a, b, k)
  {
    hide IsGcd;
    forall g: nat | IsGcd(g, a, b) ensures IsGcd(k * g, a0, b0) {
      GcdSymmetric(g, a, b);
      GcdHalve(g, b, a);
      GcdSymmetric(g, 2 * b, a);
    }
  }

  lemma ReduceSubtract(a0: nat, b0: nat, a: nat, b: nat, k: nat)
    requires Reduces(a0, b0, a, b, k)
    ensures a <= b ==> Reduces(a0, b0, a, b - a, k)
    ensures b <= a ==> Reduces(a0, b0, b, a - b, k)
  {
    hide IsGcd;
    if a <= b {
      forall g: nat | IsGcd(g, a, b - a) ensures IsGcd(k * g, a0, b0) {
        GcdAdd(g, a, b - a);
      }
    }
    if b <= a {
      forall g: nat | IsGcd(g, b, a - b) ensures IsGcd(k * g, a0, b0) {
        GcdAdd(g, b, a - b);
        GcdSymmetric(g, b, a);
      }
    }
  }

  /** The greatest common divisor of any two non-negative numbers, zeros included. */
  method BinaryGcd(a0: nat, b0: nat) returns (g: nat)
    ensures IsGcd(g, a0, b0)
  {
    hide Reduces, IsGcd;
    if a0 == 0 || b0 == 0 {
      GcdZero(a0 + b0);
      return a0 + b0;
    }
    var a: nat, b: nat, s: nat := a0, b0, 0;
    StartReduction(a0, b0);
    while a % 2 == 0 && b % 2 == 0
      invariant 0 < a && 0 < b && Reduces(a0, b0, a, b, Pow2(s))
      decreases a
    {
      ReduceBoth(a0, b0, a / 2, b / 2, s);
      a, b, s := a / 2, b / 2, s + 1;
    }
    while a % 2 == 0
      invariant 0 < a && 0 < b && (a % 2 == 1 || b % 2 == 1) && Reduces(a0, b0, a, b, Pow2(s))
      decreases a
    {
      ReduceFirst(a0, b0, a / 2, b, Pow2(s));
      a := a / 2;
    }
    a, b := SubtractStep(a0, b0, a, b, s);
    while b != 0
      invariant 0 < a && a % 2 == 1 && Reduces(a0, b0, a, b, Pow2(s))
      decreases a + b
    {
      a, b := SubtractStep(a0, b0, a, b, s);
    }
    EndReduction(a0, b0, a, Pow2(s));
    g := ShiftLeft(a, s);
  }

  lemma StartReduction(a: nat, b: nat)
    ensures Reduces(a, b, a, b, Pow2(0))
  {}

  lemma EndReduction(a0: nat, b0: nat, a: nat, k: nat)
    requires Reduces(a0, b0, a, 0, k)
    ensures IsGcd(k * a, a0, b0)
  {
    GcdZero(a);
  }

  /** The body of the do loop: make b odd, subtract the smaller from the larger, halve the even difference. */
  method SubtractStep(ghost a0: nat, ghost b0: nat, a1: nat, b1: nat, ghost s: nat) returns (a: nat, b: nat)
    requires a1 % 2 == 1 && 0 < b1 && Reduces(a0, b0, a1, b1, Pow2(s))
    ensures a % 2 == 1 && a + b < a1 + b1 && Reduces(a0, b0, a, b, Pow2(s))
  {
    hide Reduces, IsGcd;
    a, b := a1, b1;
    while b % 2 == 0
      invariant 0 < b <= b1 && Reduces(a0, b0, a, b, Pow2(s))
      decreases b
    {
      ReduceSecond(a0, b0, a, b / 2, Pow2(s));
      b := b / 2;
    }
    ReduceSubtract(a0, b0, a, b, Pow2(s));
    if a < b {
      b := b - a;
    } else {
      var d := a - b;
      a := b;
      b := d;
    }
    ReduceSecond(a0, b0, a, b / 2, Pow2(s));
    b := b / 2;
  }

  method ShiftLeft(a: nat, s: nat) returns (r: nat)
    ensures r == Pow2(s) * a
  {
    r := a;
    var i := 0;
    while i < s
      invariant i <= s && r == Pow2(i) * a
    {
      r := 2 * r;
      i := i + 1;
      Associate(2, Pow2(i - 1), a);
    }
  }

  // ---------------------------------------------------------------- reducing a ratio

  /** No number below bound, other than one, divides both. */
  ghost predicate NoFactorBelow(num: nat, den: nat, bound: nat) {
    forall d: nat :: 2 <= d < bound && Divides(d, num) ==> !Divides(d, den)
  }

  lemma ModDivides(d: nat, a: nat)
    requires 0 < d
    ensures a % d == 0 <==> Divides(d, a)
  {
    if a % d == 0 {
      assert Times(d, a / d) == a;
    }
    if Divides(d, a) {
      var q: nat :| Times(d, q) == a;
      Unique(a, d, q, 0);
    }
  }

  lemma FactorsOfQuotient(d: nat, fact: nat, num: nat)
    requires 0 < fact && num % fact == 0 && Divides(d, num / fact)
    ensures Divides(d, num)
  {
    ModDivides(fact, num);
    DividesTimes(num / fact, fact);
    assert num / fact * fact == num;
    DividesTransitive(d, num / fact, num);
  }

  /** Trial division: the loop bound shrinks with the numbers while the factor grows. */
  method ReduceRatio(num0: nat, den0: nat) returns (num: nat, den: nat, ghost f: nat)
    requires 0 < num0 && 0 < den0
    ensures 0 < num && 0 < den && Coprime(num, den)
    ensures num0 == f * num && den0 == f * den && IsGcd(f, num0, den0)
  {
    hide Divides, NoFactorBelow;
    num, den, f := num0, den0, 1;
    var fact := 2;
    NothingBelowTwo(num, den);
    while fact <= Min(num, den)
      invariant 2 <= fact && 0 < num && 0 < den && num0 == f * num && den0 == f * den
      invariant NoFactorBelow(num, den, fact)
      decreases num - fact
    {
      num, den, f := DivideOut(num0, den0, num, den, fact, f);
      fact := fact + 1;
    }
    AllFactorsGone(num, den, fact);
    CofactorIsGcd(f, num, den);
  }

  lemma NothingBelowTwo(num: nat, den: nat)
    ensures NoFactorBelow(num, den, 2)
  {}

  method DivideOut(ghost num0: nat, ghost den0: nat, num1: nat, den1: nat, fact: nat, ghost f1: nat)
    returns (num: nat, den: nat, ghost f: nat)
    requires 2 <= fact && 0 < num1 && 0 < den1 && num0 == f1 * num1 && den0 == f1 * den1
    requires NoFactorBelow(num1, den1, fact)
    ensures 0 < num <= num1 && 0 < den && num0 == f * num && den0 == f * den
    ensures NoFactorBelow(num, den, fact + 1)
  {
    hide Divides, NoFactorBelow;
    num, den, f := num1, den1, f1;
    while num % fact == 0 && den % fact == 0
      invariant 0 < num <= num1 && 0 < den && num0 == f * num && den0 == f * den
      invariant NoFactorBelow(num, den, fact)
      decreases num
    {
      DivideOnce(num, den, fact);
      Associate(f, fact, num / fact);
      Associate(f, fact, den / fact);
      assert fact * (num / fact) == num && fact * (den / fact) == den;
      num, den, f := num / fact, den / fact, f * fact;
    }
    FactorGone(num, den, fact);
  }

  lemma DivideOnce(num: nat, den: nat, fact: nat)
    requires 2 <= fact && 0 < num && 0 < den && num % fact == 0 && den % fact == 0
    requires NoFactorBelow(num, den, fact)
    ensures 0 < num / fact < num && 0 < den / fact && NoFactorBelow(num / fact, den / fact, fact)
  {
    forall d: nat | 2 <= d < fact && Divides(d, num / fact) ensures !Divides(d, den / fact) {
      FactorsOfQuotient(d, fact, num);
      if Divides(d, den / fact) { FactorsOfQuotient(d, fact, den); }
    }
  }

  lemma FactorGone(num: nat, den: nat, fact: nat)
    requires 2 <= fact && NoFactorBelow(num, den, fact) && !(num % fact == 0 && den % fact == 0)
    ensures NoFactorBelow(num, den, fact + 1)
  {
    ModDivides(fact, num);
    ModDivides(fact, den);
  }

  lemma AllFactorsGone(num: nat, den: nat, bound: nat)
    requires 0 < num && 0 < den && Min(num, den) < bound && NoFactorBelow(num, den, bound)
    ensures Coprime(num, den)
  {
    forall d: nat | Divides(d, num) && Divides(d, den) ensures d == 1 {
      DividesBound(d, num);
      DividesBound(d, den);
    }
  }

  /** If what is left is coprime, what was divided out is the greatest common divisor. */
  lemma CofactorIsGcd(f: nat, num: nat, den: nat)
    requires 0 < f && 0 < num && 0 < den && Coprime(num, den)
    ensures IsGcd(f, f * num, f * den)
  {
    hide Coprime;
    var g := Euclid(f * num, f * den);
    EuclidIsGcd(f * num, f * den);
    DividesTimes(f, num);
    DividesTimes(f, den);
    var h: nat :| Times(f, h) == g;
    CancelFactor(f, h, num);
    CancelFactor(f, h, den);
    OnlyOne(h, num, den);
  }

  lemma OnlyOne(h: nat, num: nat, den: nat)
    requires Coprime(num, den) && Divides(h, num) && Divides(h, den)
    ensures h == 1
  {}

  lemma CancelFactor(f: nat, h: nat, a: nat)
    requires 0 < f && Divides(f * h, f * a)
    ensures Divides(h, a)
  {
    var q: nat :| Times(f * h, q) == f * a;
    Associate(f, h, q);
    CancelLeft(f, h * q, a);
    assert Times(h, q) == a;
  }

  lemma CancelLeft(f: nat, x: nat, y: nat)
    requires 0 < f && f * x == f * y
    ensures x == y
  {
    if x < y { MulMonotone(x + 1, y, f); } else if y < x { MulMonotone(y + 1, x, f); }
  }

  /** A ratio divided by a greatest common divisor is the ratio divided by the one above. */
  lemma ReducedRatio(num0: nat, den0: nat, f: nat, num: nat, den: nat)
    requires 0 < num0 && IsGcd(f, num0, den0) && num0 == f * num && den0 == f * den
    ensures f == Euclid(num0, den0) && 0 < f && num == num0 / f && den == den0 / f
  {
    hide IsGcd;
    EuclidIsGcd(num0, den0);
    GcdUnique(f, Euclid(num0, den0), num0, den0);
    Commute(f, num);
    Commute(f, den);
    Unique(num0, f, num, 0);
    Unique(den0, f, den, 0);
  }
}
