/** The impulse response: what a single sample becomes, in terms of the filter's coefficients alone. */
module ResamplerResponse {
  import opened Division
  import opened ResamplerStream
  import opened ResamplerResize
  import opened ResamplerFilter

  /** Accumulation adds a product. */
  ghost predicate Adds(nm: Numerics) {
    forall a, x, c :: nm.mac(a, x, c) == a + x * c
  }

  lemma Added(nm: Numerics, a: real, x: real, c: real)
    requires Adds(nm)
    ensures nm.mac(a, x, c) == a + x * c
    ensures nm.mac(a, 0.0, c) == a && nm.mac(0.0, x, c) == x * c
  {}

  /** Silence but for a value at one place, which may be outside. */
  ghost predicate Impulse(w: seq<real>, i: int, v: real) {
    forall j :: 0 <= j < |w| ==> w[j] == if j == i then v else 0.0
  }

  lemma {:induction false} DirectImpulse(nm: Numerics, d: Design, w: seq<real>, phase: int, i: int, v: real, j: nat)
    requires Adds(nm) && Impulse(w, i, v) && j <= |w|
    ensures DirectSum(nm, d, w, phase, j) == if 0 <= i < j then v * nm.direct(d, phase, i) else 0.0
  {
    if j > 0 {
      DirectImpulse(nm, d, w, phase, i, v, j - 1);
      Added(nm, DirectSum(nm, d, w, phase, j - 1), w[j - 1], nm.direct(d, phase, j - 1));
    }
  }

  lemma {:induction false} SpreadImpulse(nm: Numerics, d: Design, w: seq<real>, offset: int, lane: int, i: int, v: real,
                                         j: nat)
    requires d.Valid() && Adds(nm) && Impulse(w, i, v) && j <= |w|
    ensures SpreadSum(nm, d, w, offset, lane, j)
            == if 0 <= i < j then v * nm.spread(d, (i + 1) * d.Oversample() - offset - 2 + lane) else 0.0
  {
    hide Design.Oversample;
    if j > 0 {
      SpreadImpulse(nm, d, w, offset, lane, i, v, j - 1);
      Added(nm, SpreadSum(nm, d, w, offset, lane, j - 1), w[j - 1],
            nm.spread(d, SpreadCell(d.Oversample(), offset, lane, j - 1) - 4));
      assert SpreadCell(d.Oversample(), offset, lane, j - 1) - 4 == j * d.Oversample() - offset - 2 + lane;
    }
  }

  function Scaled(inside: bool, v: real, coefficient: real): real {
    if inside then v * coefficient else 0.0
  }

  /** What a value under tap i of a window becomes at a phase: with a row of coefficients for each phase its
      product with one of them; otherwise four neighbours of the oversampled filter, interpolated. */
  function Response(nm: Numerics, d: Design, phase: int, i: int, v: real): real
    requires d.Valid()
  {
    var n, o := d.Length(), d.Oversample();
    var at := (i + 1) * o - phase * o / d.den;
    var inside := 0 <= i < n;
    if d.den <= o then Scaled(inside, v, nm.direct(d, phase, i))
    else nm.blend(Scaled(inside, v, nm.spread(d, at - 2)), Scaled(inside, v, nm.spread(d, at - 1)),
                  Scaled(inside, v, nm.spread(d, at)), Scaled(inside, v, nm.spread(d, at + 1)), phase * o % d.den,
                      d.den)
  }

  lemma TapImpulse(nm: Numerics, d: Design, w: seq<real>, phase: int, i: int, v: real)
    requires d.Valid() && Adds(nm) && |w| == d.Length() && Impulse(w, i, v)
    ensures Tap(nm, d, w, phase) == Response(nm, d, phase, i, v)
  {
    hide Adds, Impulse, Design.Length, Design.Oversample, DirectSum, SpreadSum;
    if d.Direct() {
      DirectImpulse(nm, d, w, phase, i, v, |w|);
    } else {
      var o := d.Oversample();
      var offset := phase * o / d.den;
      var at := (i + 1) * o - offset;
      forall lane | 0 <= lane < 4
        ensures SpreadSum(nm, d, w, offset, lane, |w|) == Scaled(0 <= i < |w|, v, nm.spread(d, at - 2 + lane))
      {
        SpreadImpulse(nm, d, w, offset, lane, i, v, |w|);
        assert (i + 1) * d.Oversample() - offset - 2 + lane == at - 2 + lane;
      }
      assert SpreadSum(nm, d, w, offset, 0, |w|) == Scaled(0 <= i < |w|, v, nm.spread(d, at - 2));
      assert SpreadSum(nm, d, w, offset, 2, |w|) == Scaled(0 <= i < |w|, v, nm.spread(d, at));
    }
  }

  /** The oversampled filter is read around the point that the row of the phase would stand for: entry at
      lies behind that point by exactly the remainder that the interpolation is given, and entry at - 1 is
      before it. */
  lemma EntriesAround(d: Design, phase: nat, i: int)
    requires d.Valid() && phase < d.den
    ensures var o := d.Oversample();
            var at := (i + 1) * o - phase * o / d.den;
            && at * d.den - ((i + 1) * d.den - phase) * o == phase * o % d.den
            && (at - 1) * d.den < ((i + 1) * d.den - phase) * o <= at * d.den
  {
    hide Design.Oversample;
    var o, den := d.Oversample(), d.den;
    AroundPoint(i + 1, o, den, phase, phase * o / den, phase * o % den);
  }

  lemma AroundPoint(i: int, o: int, den: int, phase: int, q: int, r: int)
    requires phase * o == q * den + r && 0 <= r < den
    ensures (i * o - q) * den - (i * den - phase) * o == r
    ensures (i * o - q - 1) * den < (i * den - phase) * o <= (i * o - q) * den
  {
    var a, b := i * o * den, i * den * o;
    assert a == b;
    Distribute(i * o, -q, den);
    Distribute(i * den, -phase, o);
    Distribute(i * o - q, -1, den);
  }

  /** Over any run of calls on a stream that is silent but for one value, every output is the response at its
      own phase: output i stands at the starting position and i steps of num den-ths. */
  lemma RunImpulse(nm: Numerics, d: Design, c: Channel, input: seq<real>, calls: seq<Call>, s: int, v: real, i: nat)
    requires d.Valid() && Adds(nm) && c.Valid(KernelOf(nm, d)) && Impulse(c.hist + c.magic + input, s, v)
    requires i < |Run(KernelOf(nm, d), c, input, calls).outs|
    ensures var pos := c.last * d.den + c.frac + i * d.num;
            Run(KernelOf(nm, d), c, input, calls).outs[i] == Response(nm, d, pos % d.den, s - pos / d.den, v)
  {
    hide Adds, Run, Count, Response, KernelOf, Convolve, OutputAt;
    var k := KernelOf(nm, d);
    var xs, outs := c.hist + c.magic + input, Run(k, c, input, calls).outs;
    var pos := Pos(k, c.Pos(k.den), i);
    Streaming(k, c, input, calls);
    CountExact(k, c.Pos(k.den), |c.magic| + |input|, i);
    IndexNonneg(k, c.Pos(k.den), i);
    ConvolveAt(k, xs, c.Pos(k.den), |outs|, i);
    OutputImpulse(nm, d, xs, pos, s, v);
  }

  lemma ConvolveAt(k: Kernel, xs: seq<real>, p: int, count: nat, i: nat)
    requires k.Valid() && i < count
    ensures Convolve(k, xs, p, count)[i] == OutputAt(k, xs, Pos(k, p, i))
  {}

  lemma OutputImpulse(nm: Numerics, d: Design, xs: seq<real>, pos: int, s: int, v: real)
    requires d.Valid() && Adds(nm) && Impulse(xs, s, v) && 0 <= pos / d.den && pos / d.den + d.Length() <= |xs|
    ensures OutputAt(KernelOf(nm, d), xs, pos) == Response(nm, d, pos % d.den, s - pos / d.den, v)
  {
    hide Adds, Response, KernelOf, Tap, Design.Length;
    var q := pos / d.den;
    var w := xs[q..q + d.Length()];
    KernelTap(nm, d, w, pos % d.den);
    TapImpulse(nm, d, w, pos % d.den, s - q, v);
  }

  /** An output of a session, centred at a position of the stream.  The tap it has on the sample is where the
      filter, whatever its length, stands for the time between the output and the sample behind it: taps are
      counted from the centre, in den-ths less the phase.  A sample that is no longer audible gives nothing. */
  lemma CentredImpulse(nm: Numerics, d: Design, stream: seq<real>, lo: int, pos: int, s: nat, v: real)
    requires d.Valid() && Adds(nm) && s < |stream| && Impulse(stream, s, v)
    ensures var i := s - pos / d.den + d.Length() / 2;
            && CentredOutput(KernelOf(nm, d), stream, lo, pos)
               == Response(nm, d, pos % d.den, if lo <= s then i else -1, v)
            && (i - d.Length() / 2 + 1) * d.den - pos % d.den == (s + 1) * d.den - pos
  {
    hide Adds, Response, KernelOf, Tap, Design.Length;
    var n, q := d.Length(), pos / d.den;
    var w := Masked(stream, lo, q - n / 2, n);
    KernelTap(nm, d, w, pos % d.den);
    TapImpulse(nm, d, w, pos % d.den, if lo <= s then s - q + n / 2 else -1, v);
    assert pos == q * d.den + pos % d.den;
    Distribute(s + 1, -q, d.den);
  }
}
