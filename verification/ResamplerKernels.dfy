/** The kernel loops, on flat buffers: history first, then new input. */
module ResamplerKernels {
  import opened Buffers
  import opened Division
  import opened ResamplerStream
  import opened ResamplerFilter

  /** w is the window that starts last samples into mem[base..base + n - 1] ++ input[inOff..]. */
  ghost predicate WindowAt(w: seq<real>, mem: array<real>, base: nat, input: array<real>, inOff: nat, last: nat, n: nat)
    reads mem, input
  {
    1 <= n && |w| == n &&
    forall j :: 0 <= j < n ==>
      if last + j < n - 1
      then base + last + j < mem.Length && w[j] == mem[base + last + j]
      else inOff + last + j - (n - 1) < input.Length && w[j] == input[inOff + last + j - (n - 1)]
  }

  /** One pass of the inner loop body of resampler_basic_direct_single. */
  method MultiplyAdd(nm: Numerics, ghost d: Design, n: nat, table: array<real>, x: real, phase: nat, j: nat,
                     before: real, ghost w: seq<real>) returns (after: real)
    requires d.Valid() && d.Direct() && TableFits(nm, d, table[..]) && n == d.Length()
    requires phase < d.den && j < |w| && j < n && x == w[j] && before == DirectSum(nm, d, w, phase, j)
    ensures after == DirectSum(nm, d, w, phase, j + 1)
  {
    assert table[..][Cell(phase, n, j)] == nm.direct(d, phase, j);
    after := nm.mac(before, x, table[Cell(phase, n, j)]);
  }

  /** Inner loops of resampler_basic_direct_single. */
  method DirectWindow(nm: Numerics, ghost d: Design, n: nat, table: array<real>, mem: array<real>, base: nat,
                      input: array<real>, inOff: nat, last: nat, phase: nat, ghost w: seq<real>) returns (sum: real)
    requires d.Valid() && d.Direct() && TableFits(nm, d, table[..]) && n == d.Length()
    requires phase < d.den && WindowAt(w, mem, base, input, inOff, last, n)
    ensures sum == Tap(nm, d, w, phase)
  {
    hide TableFits;
    sum := 0.0;
    var j := 0;
    while last - n + 1 + j < 0
      invariant 0 <= j <= n && (j == 0 || last + j <= n - 1)
      invariant sum == DirectSum(nm, d, w, phase, j)
    {
      ghost var x := w[j];
      sum := MultiplyAdd(nm, d, n, table, mem[base + last + j], phase, j, sum, w);
      j := j + 1;
    }
    var ptr := inOff + (last - n + 1 + j);
    while j < n
      invariant 0 <= j <= n && last + j >= n - 1 && ptr == inOff + (last - n + 1 + j)
      invariant sum == DirectSum(nm, d, w, phase, j)
    {
      ghost var x := w[j];
      sum := MultiplyAdd(nm, d, n, table, input[ptr], phase, j, sum, w);
      ptr := ptr + 1;
      j := j + 1;
    }
  }

  /** The four accumulators after j taps. */
  ghost predicate Accumulated(nm: Numerics, d: Design, w: seq<real>, offset: int, j: nat,
                              a0: real, a1: real, a2: real, a3: real)
    requires d.Valid() && j <= |w|
  {
    && a0 == SpreadSum(nm, d, w, offset, 0, j) && a1 == SpreadSum(nm, d, w, offset, 1, j)
    && a2 == SpreadSum(nm, d, w, offset, 2, j) && a3 == SpreadSum(nm, d, w, offset, 3, j)
  }

  /** One pass of the inner loop body of resampler_basic_interpolate_single. */
  method Accumulate(nm: Numerics, ghost d: Design, oversample: nat, table: array<real>, x: real, offset: nat, j: nat,
                    b0: real, b1: real, b2: real, b3: real, ghost w: seq<real>)
    returns (a0: real, a1: real, a2: real, a3: real)
    requires d.Valid() && !d.Direct() && TableFits(nm, d, table[..]) && oversample == d.Oversample()
    requires offset < oversample && j < |w| == d.Length() && x == w[j]
    requires Accumulated(nm, d, w, offset, j, b0, b1, b2, b3)
    ensures Accumulated(nm, d, w, offset, j + 1, a0, a1, a2, a3)
  {
    SpreadCellInTable(d, offset, 0, j);
    SpreadCellInTable(d, offset, 1, j);
    SpreadCellInTable(d, offset, 2, j);
    SpreadCellInTable(d, offset, 3, j);
    a0 := nm.mac(b0, x, table[SpreadCell(oversample, offset, 0, j)]);
    a1 := nm.mac(b1, x, table[SpreadCell(oversample, offset, 1, j)]);
    a2 := nm.mac(b2, x, table[SpreadCell(oversample, offset, 2, j)]);
    a3 := nm.mac(b3, x, table[SpreadCell(oversample, offset, 3, j)]);
  }

  /** Inner loops of resampler_basic_interpolate_single. */
  method SpreadWindow(nm: Numerics, ghost d: Design, n: nat, oversample: nat, den: nat, table: array<real>,
                      mem: array<real>, base: nat, input: array<real>, inOff: nat, last: nat, phase: nat,
                      ghost w: seq<real>) returns (sum: real)
    requires d.Valid() && !d.Direct() && TableFits(nm, d, table[..])
    requires n == d.Length() && oversample == d.Oversample() && den == d.den
    requires phase < d.den && WindowAt(w, mem, base, input, inOff, last, n)
    ensures sum == Tap(nm, d, w, phase)
  {
    hide TableFits, Design.Oversample, Design.Length;
    OffsetBound(d, phase);
    var offset := phase * oversample / den;
    var a0, a1, a2, a3 := 0.0, 0.0, 0.0, 0.0;
    var j := 0;
    while last - n + 1 + j < 0
      invariant 0 <= j <= n && (j == 0 || last + j <= n - 1)
      invariant Accumulated(nm, d, w, offset, j, a0, a1, a2, a3)
    {
      ghost var x := w[j];
      a0, a1, a2, a3 := Accumulate(nm, d, oversample, table, mem[base + last + j], offset, j, a0, a1, a2, a3, w);
      j := j + 1;
    }
    var ptr := inOff + (last - n + 1 + j);
    while j < n
      invariant 0 <= j <= n && last + j >= n - 1 && ptr == inOff + (last - n + 1 + j)
      invariant Accumulated(nm, d, w, offset, j, a0, a1, a2, a3)
    {
      ghost var x := w[j];
      a0, a1, a2, a3 := Accumulate(nm, d, oversample, table, input[ptr], offset, j, a0, a1, a2, a3, w);
      ptr := ptr + 1;
      j := j + 1;
    }
    sum := nm.blend(a0, a1, a2, a3, phase * oversample % den, den);
  }

  /** The tuning and the table are those of design d. */
  ghost predicate Tuned(nm: Numerics, d: Design, t: Tuning, table: seq<real>) {
    && d.Valid() && 1 <= t.filtLen == d.Length() && t.oversample == d.Oversample() && 1 <= t.denRate == d.den
    && t.direct == d.Direct() && TableFits(nm, d, table)
    && t.intAdvance == d.num / d.den && t.fracAdvance == d.num % d.den
  }

  function TuningOf(d: Design): (t: Tuning)
    requires d.Valid()
    ensures t.filtLen == d.Length() && t.denRate == d.den
  {
    Tuning(d.Length(), d.den, d.Oversample(), d.Direct(), d.num / d.den, d.num % d.den)
  }

  /** The step from one window position to the next, with the carry from the fraction. */
  method Advance(ghost k: Kernel, intAdvance: nat, fracAdvance: nat, den: nat, last: nat, frac: nat, ghost pos: int)
    returns (last': nat, frac': nat)
    requires k.Valid() && den == k.den && intAdvance == k.num / k.den && fracAdvance == k.num % k.den
    requires last * k.den + frac == pos && frac < k.den
    ensures last' * k.den + frac' == pos + k.num && frac' < k.den
  {
    last' := last + intAdvance;
    frac' := frac + fracAdvance;
    Distribute(last, intAdvance, k.den);
    if frac' >= den {
      frac' := frac' - den;
      last' := last' + 1;
      Distribute(last + intAdvance, 1, k.den);
    }
  }

  lemma WindowOf(k: Kernel, xs: seq<real>, pos: int, last: nat, frac: nat)
    requires k.Valid() && frac < k.den && last * k.den + frac == pos && last + k.n <= |xs|
    ensures OutputAt(k, xs, pos) == k.tap(xs[last..last + k.n], frac)
  {
    Unique(pos, k.den, last, frac);
  }

  lemma WindowInBuffers(mem: array<real>, base: nat, input: array<real>, inOff: nat, inLen: nat, last: nat, n: nat)
    requires 1 <= n && base + n - 1 <= mem.Length && inOff + inLen <= input.Length && last < inLen
    ensures WindowAt((mem[base..base + n - 1] + input[inOff..inOff + inLen])[last..last + n],
                     mem, base, input, inOff, last, n)
  {
    var xs := mem[base..base + n - 1] + input[inOff..inOff + inLen];
    var w := xs[last..last + n];
    forall j | 0 <= j < n ensures w[j] == xs[last + j] {}
  }

  /** A cursor names the position of an output, and so decides whether there is one. */
  lemma Located(k: Kernel, p: int, i: nat, last: nat, frac: nat, t: nat)
    requires k.Valid() && frac < k.den && last * k.den + frac == Pos(k, p, i)
    ensures last == Index(k, p, i) && frac == Pos(k, p, i) % k.den
    ensures last < t <==> i < Count(k, p, t)
  {
    Unique(Pos(k, p, i), k.den, last, frac);
    CountExact(k, p, t, i);
  }

  lemma ConvolveNext(k: Kernel, xs: seq<real>, p: int, i: nat)
    requires k.Valid()
    ensures Convolve(k, xs, p, i + 1) == Convolve(k, xs, p, i) + [OutputAt(k, xs, Pos(k, p, i))]
    ensures Pos(k, p, i + 1) == Pos(k, p, i) + k.num
  {}

  /** One output sample: the body of the kernel loops up to the store. */
  method KernelSample(nm: Numerics, ghost d: Design, t: Tuning, table: array<real>,
                      mem: array<real>, base: nat, input: array<real>, inOff: nat, ghost inLen: nat,
                      last: nat, frac: nat, ghost pos: int) returns (y: real)
    requires Tuned(nm, d, t, table[..])
    requires base + t.filtLen - 1 <= mem.Length && inOff + inLen <= input.Length && last < inLen
    requires frac < t.denRate && last * t.denRate + frac == pos
    ensures y == OutputAt(KernelOf(nm, d), mem[base..base + t.filtLen - 1] + input[inOff..inOff + inLen], pos)
  {
    hide TableFits, Design.Length, Design.Oversample, OutputAt, Tap;
    var n := t.filtLen;
    ghost var xs := mem[base..base + n - 1] + input[inOff..inOff + inLen];
    ghost var w := xs[last..last + n];
    WindowInBuffers(mem, base, input, inOff, inLen, last, n);
    WindowOf(KernelOf(nm, d), xs, pos, last, frac);
    KernelTap(nm, d, w, frac);
    if t.direct {
      y := DirectWindow(nm, d, n, table, mem, base, input, inOff, last, frac, w);
    } else {
      y := SpreadWindow(nm, d, n, t.oversample, t.denRate, table, mem, base, input, inOff, last, frac, w);
    }
  }

  /** The kernel loop: outputs while there is room and the window starts inside the input. */
  method RunKernel(nm: Numerics, ghost d: Design, t: Tuning, table: array<real>, mem: array<real>, base: nat,
                   last0: nat, frac0: nat, input: array<real>, inOff: nat, inLen: nat,
                   output: array<real>, outOff: nat, outLen: nat)
    returns (produced: nat, last: nat, frac: nat)
    requires Tuned(nm, d, t, table[..])
    requires base + t.filtLen - 1 <= mem.Length && inOff + inLen <= input.Length && outOff + outLen <= output.Length
    requires frac0 < t.denRate && output != mem && output != input && output != table
    modifies output
    ensures var k := KernelOf(nm, d);
            var p := last0 * t.denRate + frac0;
            var xs := mem[base..base + t.filtLen - 1] + input[inOff..inOff + inLen];
            && produced == Min(outLen, Count(k, p, inLen))
            && last == Index(k, p, produced) && frac == Pos(k, p, produced) % t.denRate
            && output[..] == Patched(old(output[..]), outOff, Convolve(k, xs, p, produced))
  {
    hide TableFits, Design.Length, Design.Oversample, OutputAt, Count, Index, Pos, Convolve, Patched;
    ghost var was := output[..];
    PatchedParts(was, outOff, []);
    ghost var k := KernelOf(nm, d);
    ghost var p := last0 * t.denRate + frac0;
    ghost var xs := mem[base..base + t.filtLen - 1] + input[inOff..inOff + inLen];
    StartOf(k, xs, p);
    produced, last, frac := 0, last0, frac0;
    Located(k, p, 0, last, frac, inLen);
    while last < inLen && produced < outLen
      invariant produced <= outLen && frac < t.denRate && last * t.denRate + frac == Pos(k, p, produced)
      invariant last == Index(k, p, produced) && frac == Pos(k, p, produced) % t.denRate
      invariant produced <= Count(k, p, inLen) && (last < inLen <==> produced < Count(k, p, inLen))
      invariant output[..] == Patched(was, outOff, Convolve(k, xs, p, produced))
      decreases outLen - produced
    {
      var y := KernelSample(nm, d, t, table, mem, base, input, inOff, inLen, last, frac, Pos(k, p, produced));
      PatchAppend(was, outOff, Convolve(k, xs, p, produced), y);
      output[outOff + produced] := y;
      ConvolveNext(k, xs, p, produced);
      last, frac := Advance(k, t.intAdvance, t.fracAdvance, t.denRate, last, frac, Pos(k, p, produced));
      produced := produced + 1;
      Located(k, p, produced, last, frac, inLen);
    }
  }

  lemma StartOf(k: Kernel, xs: seq<real>, p: int)
    requires k.Valid()
    ensures Pos(k, p, 0) == p && Convolve(k, xs, p, 0) == []
  {}
}
