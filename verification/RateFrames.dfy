/** How many frames the rate plugin expects on one side of the resampler for a number on the other. */
module RateFrames {
  import opened Division

  /** frames * a / b, rounded to the nearest. */
  function Scaled(frames: nat, a: nat, b: nat): nat
    requires 0 < b
  {
    MulNonneg(frames, a);
    Below(frames * a + b / 2, b, 0);
    if frames == 0 then 0 else (frames * a + b / 2) / b
  }

  function InputFrames(num: nat, den: nat, frames: nat): nat
    requires 0 < den
  {
    Scaled(frames, num, den)
  }

  function OutputFrames(num: nat, den: nat, frames: nat): nat
    requires 0 < num
  {
    Scaled(frames, den, num)
  }

  /** The count is the one nearest to the exact quotient, the upper one of two. */
  lemma Nearest(frames: nat, a: nat, b: nat, x: nat)
    requires 0 < b
    ensures x == Scaled(frames, a, b) <==> x * b - b / 2 <= frames * a < x * b + b - b / 2
  {
    var y := frames * a + b / 2;
    if frames == 0 {
      assert frames * a == 0;
      Unique(y, b, 0, b / 2);
    }
    assert y == y / b * b + y % b;
    if x * b <= y < x * b + b {
      Unique(y, b, x, y - x * b);
    }
  }

  lemma ThereAndBack(frames: nat, a: nat, b: nat)
    requires 0 < b <= a
    ensures Scaled(Scaled(frames, a, b), b, a) == frames
  {
    if a == b {
      Nearest(frames, a, a, frames);
    } else {
      var x := Scaled(frames, a, b);
      Nearest(frames, a, b, x);
      Nearest(x, b, a, frames);
    }
  }

  lemma ScaledMonotone(f: nat, g: nat, a: nat, b: nat)
    requires 0 < b && f <= g
    ensures Scaled(f, a, b) <= Scaled(g, a, b)
  {
    MulMonotone(f, g, a);
    Monotone(f * a + b / 2, g * a + b / 2, b);
    if f == 0 {
      assert f * a == 0;
    }
  }

  /** If nothing is lost, distinct counts stay distinct. */
  lemma {:induction false} Grows(f: nat, a: nat, b: nat)
    requires 0 < b && 0 < a && forall g: nat :: Scaled(Scaled(g, a, b), b, a) == g
    ensures f <= Scaled(f, a, b)
  {
    if f > 0 {
      Grows(f - 1, a, b);
      ScaledMonotone(f - 1, f, a, b);
      assert Scaled(Scaled(f, a, b), b, a) == f && Scaled(Scaled(f - 1, a, b), b, a) == f - 1;
    }
  }

  lemma RoundTrip(a: nat, b: nat)
    requires 0 < a && 0 < b
    ensures (forall f: nat :: Scaled(Scaled(f, a, b), b, a) == f) <==> b <= a
  {
    if b <= a {
      forall f: nat ensures Scaled(Scaled(f, a, b), b, a) == f { ThereAndBack(f, a, b); }
    } else if forall f: nat :: Scaled(Scaled(f, a, b), b, a) == f {
      Grows(b, a, b);
      Nearest(b, a, b, a);
      assert false;
    }
  }

  /** From output to input and back nothing is lost if and only if the resampler does not up-sample.  The
      ratio need not be reduced. */
  lemma OutputRoundTrip(num: nat, den: nat)
    requires 0 < num && 0 < den
    ensures (forall f: nat :: OutputFrames(num, den, InputFrames(num, den, f)) == f) <==> den <= num
  {
    RoundTrip(num, den);
    forall f: nat ensures OutputFrames(num, den, InputFrames(num, den, f)) == Scaled(Scaled(f, num, den), den, num) {}
  }

  /** From input to output and back nothing is lost if and only if it does not down-sample. */
  lemma InputRoundTrip(num: nat, den: nat)
    requires 0 < num && 0 < den
    ensures (forall f: nat :: InputFrames(num, den, OutputFrames(num, den, f)) == f) <==> num <= den
  {
    RoundTrip(den, num);
    forall f: nat ensures InputFrames(num, den, OutputFrames(num, den, f)) == Scaled(Scaled(f, den, num), num, den) {}
  }
}
