/** One call on one channel: queue, kernel loop, history update. */
module ResamplerCalls {
  import opened Buffers
  import opened ResamplerStream
  import opened ResamplerFilter
  import opened ResamplerKernels
  import opened ResamplerMemory

  /** The channel stored at position at of a memory. */
  function ChannelAt(mem: seq<real>, at: nat, n: nat, magic: nat, last: nat, frac: nat): (c: Channel)
    requires 1 <= n && at + n - 1 + magic <= |mem|
    ensures |c.hist| == n - 1 && |c.magic| == magic
  {
    Channel(mem[at..at + n - 1], mem[at + n - 1..at + n - 1 + magic], last, frac)
  }

  /** A channel with its queue set aside, and where the queue is. */
  lemma WithoutQueue(mem: seq<real>, at: nat, n: nat, magic: nat, last: nat, frac: nat)
    requires 1 <= n && at + n - 1 + magic <= |mem|
    ensures ChannelAt(mem, at, n, 0, last, frac) == ChannelAt(mem, at, n, magic, last, frac).(magic := [])
    ensures ChannelAt(mem, at, n, magic, last, frac).magic == mem[at + n - 1..at + n - 1 + magic]
    ensures ChannelAt(mem, at, n, magic, last, frac).last == last && ChannelAt(mem, at, n, magic, last,
                                                                               frac).frac == frac
  {}

  lemma ChannelStored(mem: seq<real>, at: nat, n: nat, magic: nat, c: Channel)
    requires 1 <= n && at + n - 1 + magic <= |mem| && |c.hist| == n - 1 && |c.magic| == magic
    requires mem[at..at + n - 1 + magic] == c.hist + c.magic
    ensures ChannelAt(mem, at, n, magic, c.last, c.frac) == c
  {
    SubSlice(mem, at, at + n - 1 + magic, 0, n - 1);
    SubSlice(mem, at, at + n - 1 + magic, n - 1, n - 1 + magic);
  }

  lemma ChannelSame(before: seq<real>, after: seq<real>, lo: int, hi: int, at: nat, n: nat, magic: nat, last: nat,
                    frac: nat)
    requires SameOutside(before, after, lo, hi) && 1 <= n && at + n - 1 + magic <= |before|
    requires at + n - 1 + magic <= lo || hi <= at
    ensures ChannelAt(before, at, n, magic, last, frac) == ChannelAt(after, at, n, magic, last, frac)
  {
    SameSlice(before, after, lo, hi, at, at + n - 1);
    SameSlice(before, after, lo, hi, at + n - 1, at + n - 1 + magic);
  }

  lemma BasicIgnoresQueue(k: Kernel, c: Channel, magic: seq<real>, input: seq<real>, cap: nat)
    requires c.Valid(k)
    ensures var r, r' := Basic(k, c, input, cap), Basic(k, c.(magic := magic), input, cap);
            r'.outs == r.outs && r'.consumed == r.consumed && r'.next == r.next.(magic := magic)
  {}

  lemma BlockChannel(before: seq<real>, after: seq<real>, at: nat, n: nat, magic: nat, c: Channel, last: nat, frac: nat)
    requires 1 <= n && at + n - 1 + magic <= |before| && SameOutside(before, after, at, at + n - 1)
    requires c == ChannelAt(before, at, n, magic, c.last, c.frac)
    ensures ChannelAt(after, at, n, magic, last, frac) == Channel(after[at..at + n - 1], c.magic, last, frac)
  {
    SameSlice(before, after, at, at + n - 1, at + n - 1, at + n - 1 + magic);
  }

  /** The queue after part of it was taken and the rest moved up front. */
  lemma QueueKept(before: seq<real>, between: seq<real>, after: seq<real>, at: nat, n: nat, queued: nat, taken: nat,
                  c: Channel, c': Channel)
    requires 1 <= n && taken <= queued && at + n - 1 + queued <= |before|
    requires SameOutside(before, between, at, at + n - 1)
    requires c == ChannelAt(before, at, n, queued, c.last, c.frac)
    requires c' == ChannelAt(between, at, n, 0, c'.last, c'.frac)
    requires if taken < queued
             then SameOutside(between, after, at + n - 1, at + n - 1 + queued - taken)
               && after[at + n - 1..at + n - 1 + queued - taken] == between[at + n - 1 + taken..at + n - 1 + queued]
             else after == between
    ensures |after| == |before|
    ensures ChannelAt(after, at, n, queued - taken, c'.last, c'.frac) == c'.(magic := c.magic[taken..])
    ensures SameOutside(before, after, at, at + n - 1 + queued)
  {
    var queue := at + n - 1;
    if taken < queued {
      SameSlice(before, between, at, queue, queue + taken, queue + queued);
      SubSlice(before, queue, queue + queued, taken, queued);
      SameSlice(between, after, queue, queue + queued - taken, at, queue);
    }
  }

  lemma NoQueue(nm: Numerics, d: Design, t: Tuning, table: seq<real>, c: Channel, input: seq<real>, cap: nat)
    requires Tuned(nm, d, t, table) && |c.hist| == t.filtLen - 1 && c.frac < t.denRate && c.magic == []
    ensures c.Valid(KernelOf(nm, d)) && Process(KernelOf(nm, d), c, input, cap) == Basic(KernelOf(nm, d), c, input, cap)
  {}

  lemma StoredValid(nm: Numerics, d: Design, t: Tuning, table: seq<real>, c: Channel)
    requires Tuned(nm, d, t, table) && |c.hist| == t.filtLen - 1 && c.frac < t.denRate
    ensures d.Valid() && t.denRate == d.den && c.Valid(KernelOf(nm, d))
  {}

  /** A call did what a step says, to the counts, the channel and the output. */
  ghost predicate Did(r: Step, before: seq<real>, off: nat, after: seq<real>, consumed: int, produced: int,
                      next: Channel) {
    && consumed == r.consumed && produced == |r.outs| && next == r.next
    && off + |r.outs| <= |before| && after == Patched(before, off, r.outs)
  }

  /** The queue fed to the kernel, and what it did not take kept as the queue. */
  function DrainStep(k: Kernel, c: Channel, cap: nat): (r: Step)
    requires c.Valid(k)
    ensures |r.outs| <= cap && r.next.Valid(k) && |r.next.magic| + r.consumed == |c.magic|
  {
    var r := Basic(k, c.(magic := []), c.magic, cap);
    r.(next := r.next.(magic := c.magic[r.consumed..]))
  }

  lemma QueueFed(k: Kernel, c: Channel, cap: nat, before: seq<real>, off: nat, after: seq<real>,
                 taken: nat, produced: int, c': Channel)
    requires c.Valid(k) && Did(Basic(k, c.(magic := []), c.magic, cap), before, off, after, taken, produced, c')
    ensures taken <= |c.magic| && produced <= cap
    ensures Did(DrainStep(k, c, cap), before, off, after, taken, produced, c'.(magic := c.magic[taken..]))
  {}

  lemma ProcessDrains(k: Kernel, c: Channel, input: seq<real>, cap: nat)
    requires c.Valid(k) && c.magic != []
    ensures var first := DrainStep(k, c, cap);
            var second := Basic(k, first.next, input, cap - |first.outs|);
            Process(k, c, input, cap) == Step(first.outs + second.outs, second.consumed, second.next)
  {
    var r := Basic(k, c.(magic := []), c.magic, cap);
    BasicIgnoresQueue(k, r.next, c.magic[r.consumed..], input, cap - |r.outs|);
  }

  /** A call with a queue: one step for the queue, one for the input. */
  lemma TwoBlocks(k: Kernel, c: Channel, input: seq<real>, cap: nat, out0: seq<real>, off: nat, out1: seq<real>,
                  taken: int, early: nat, c': Channel, out2: seq<real>, consumed: int, late: int, c2: Channel)
    requires c.Valid(k) && c.magic != [] && off + cap <= |out0| && c'.Valid(k) && early <= cap
    requires Did(DrainStep(k, c, cap), out0, off, out1, taken, early, c')
    requires Did(Basic(k, c', input, cap - early), out1, off + early, out2, consumed, late, c2)
    ensures Did(Process(k, c, input, cap), out0, off, out2, consumed, early + late, c2)
  {
    ProcessDrains(k, c, input, cap);
    hide Basic, DrainStep, Process;
    PatchTwice(out0, off, DrainStep(k, c, cap).outs, Basic(k, c', input, cap - early).outs);
  }

  /** The kernel loop and the history update that follows it, for one block of input.  The input may
      be the queue itself, which lies behind the history. */
  method RunBlock(nm: Numerics, ghost d: Design, t: Tuning, table: array<real>, mem: array<real>, at: nat,
                  last0: nat, frac0: nat, ghost magic: nat, input: array<real>, inOff: nat, inLen: nat,
                  output: array<real>, outOff: nat, outLen: nat)
    returns (consumed: nat, produced: nat, last: nat, frac: nat)
    requires Tuned(nm, d, t, table[..]) && frac0 < t.denRate
    requires at + t.filtLen - 1 + magic <= mem.Length
    requires inOff + inLen <= input.Length && outOff + outLen <= output.Length
    requires output != mem && output != input && output != table
    requires input != mem || at + t.filtLen - 1 <= inOff
    modifies mem, output
    ensures var c := ChannelAt(old(mem[..]), at, t.filtLen, magic, last0, frac0);
            Did(Basic(KernelOf(nm, d), c, old(input[inOff..inOff + inLen]), outLen), old(output[..]), outOff,
                output[..],
                consumed, produced, ChannelAt(mem[..], at, t.filtLen, magic, last, frac))
    ensures frac < t.denRate && SameOutside(old(mem[..]), mem[..], at, at + t.filtLen - 1)
  {
    hide TableFits, Design.Length, Design.Oversample, Count, Index, Pos, Convolve;
    ghost var before, c := mem[..], ChannelAt(mem[..], at, t.filtLen, magic, last0, frac0);
    produced, last, frac := RunKernel(nm, d, t, table, mem, at, last0, frac0, input, inOff, inLen,
                                      output, outOff, outLen);
    consumed := if last < inLen then last else inLen;
    last := last - consumed;
    PushHistory(mem, at, t.filtLen, input, inOff, inLen, consumed);
    BlockChannel(before, mem[..], at, t.filtLen, magic, c, last, frac);
  }

  /** Moves the rest of the queue to its front. */
  method KeepQueue(mem: array<real>, at: nat, n: nat, queued: nat, taken: nat,
                   ghost before: seq<real>, ghost c: Channel, ghost c': Channel)
    requires 1 <= n && taken <= queued && at + n - 1 + queued <= mem.Length == |before|
    requires SameOutside(before, mem[..], at, at + n - 1)
    requires c == ChannelAt(before, at, n, queued, c.last, c.frac)
    requires c' == ChannelAt(mem[..], at, n, 0, c'.last, c'.frac)
    modifies mem
    ensures ChannelAt(mem[..], at, n, queued - taken, c'.last, c'.frac) == c'.(magic := c.magic[taken..])
    ensures SameOutside(before, mem[..], at, at + n - 1 + queued)
  {
    hide ChannelAt, SameOutside;
    ghost var between := mem[..];
    var queue := at + n - 1;
    if taken < queued {
      MoveDown(mem, queue, queue + taken, queued - taken);
    }
    QueueKept(before, between, mem[..], at, n, queued, taken, c, c');
  }

  /** Feeds the queued samples to the kernel and moves those it did not take to the front of the queue. */
  method DrainQueue(nm: Numerics, ghost d: Design, t: Tuning, table: array<real>, mem: array<real>, at: nat,
                    last0: nat, frac0: nat, magic0: nat, output: array<real>, outOff: nat, outLen: nat)
    returns (produced: nat, last: nat, frac: nat, magic: nat)
    requires Tuned(nm, d, t, table[..]) && frac0 < t.denRate && 0 < magic0 && 1 <= t.filtLen
    requires at + t.filtLen - 1 + magic0 <= mem.Length && outOff + outLen <= output.Length
    requires output != mem && output != table && mem != table
    modifies mem, output
    decreases magic0, 0
    ensures magic <= magic0 && produced <= outLen && frac < t.denRate
    ensures var c := ChannelAt(old(mem[..]), at, t.filtLen, magic0, last0, frac0);
            Did(DrainStep(KernelOf(nm, d), c, outLen), old(output[..]), outOff, output[..], magic0 - magic, produced,
                ChannelAt(mem[..], at, t.filtLen, magic, last, frac))
    ensures SameOutside(old(mem[..]), mem[..], at, at + t.filtLen - 1 + magic0)
  {
    hide *;
    ghost var before, c := mem[..], ChannelAt(mem[..], at, t.filtLen, magic0, last0, frac0);
    WithoutQueue(before, at, t.filtLen, magic0, last0, frac0);
    WithoutQueue(before, at, t.filtLen, 0, last0, frac0);
    StoredValid(nm, d, t, table[..], c);
    NoQueue(nm, d, t, table[..], ChannelAt(before, at, t.filtLen, 0, last0, frac0), c.magic, outLen);
    ghost var out0 := output[..];
    var taken, none;
    taken, produced, last, frac, none :=
      RunCall(nm, d, t, table, mem, at, last0, frac0, 0, mem, at + t.filtLen - 1, magic0, output, outOff, outLen);
    ghost var c' := ChannelAt(mem[..], at, t.filtLen, 0, last, frac);
    WithoutQueue(mem[..], at, t.filtLen, 0, last, frac);
    QueueFed(KernelOf(nm, d), c, outLen, out0, outOff, output[..], taken, produced, c');
    KeepQueue(mem, at, t.filtLen, magic0, taken, before, c, c');
    magic := magic0 - taken;
  }

  /** One call: the queue first, then the input. */
  method RunCall(nm: Numerics, ghost d: Design, t: Tuning, table: array<real>, mem: array<real>, at: nat,
                 last0: nat, frac0: nat, magic0: nat, input: array<real>, inOff: nat, inLen: nat,
                 output: array<real>, outOff: nat, outLen: nat)
    returns (consumed: nat, produced: nat, last: nat, frac: nat, magic: nat)
    requires Tuned(nm, d, t, table[..]) && frac0 < t.denRate
    requires at + t.filtLen - 1 + magic0 <= mem.Length
    requires inOff + inLen <= input.Length && outOff + outLen <= output.Length
    requires output != mem && output != input && output != table && mem != table
    requires input != mem || (magic0 == 0 && at + t.filtLen - 1 <= inOff)
    modifies mem, output
    decreases magic0, 1
    ensures magic <= magic0 && frac < t.denRate
    ensures var c := ChannelAt(old(mem[..]), at, t.filtLen, magic0, last0, frac0);
            Did(Process(KernelOf(nm, d), c, old(input[inOff..inOff + inLen]), outLen), old(output[..]), outOff,
                output[..],
                consumed, produced, ChannelAt(mem[..], at, t.filtLen, magic, last, frac))
    ensures SameOutside(old(mem[..]), mem[..], at, at + t.filtLen - 1 + magic0)
  {
    assert 1 <= t.filtLen;
    hide *;
    ghost var c, out0 := ChannelAt(mem[..], at, t.filtLen, magic0, last0, frac0), output[..];
    ghost var fed, before := input[inOff..inOff + inLen], mem[..];
    WithoutQueue(before, at, t.filtLen, magic0, last0, frac0);
    StoredValid(nm, d, t, table[..], c);
    if magic0 == 0 {
      NoQueue(nm, d, t, table[..], c, fed, outLen);
      consumed, produced, last, frac := RunBlock(nm, d, t, table, mem, at, last0, frac0, 0, input, inOff, inLen,
                                                 output, outOff, outLen);
      magic := 0;
    } else {
      var early;
      early, last, frac, magic := DrainQueue(nm, d, t, table, mem, at, last0, frac0, magic0, output, outOff, outLen);
      ghost var c', out1, between := ChannelAt(mem[..], at, t.filtLen, magic, last, frac), output[..], mem[..];
      WithoutQueue(between, at, t.filtLen, magic, last, frac);
      StoredValid(nm, d, t, table[..], c');
      consumed, produced, last, frac := RunBlock(nm, d, t, table, mem, at, last, frac, magic, input, inOff, inLen,
                                                 output, outOff + early, outLen - early);
      TwoBlocks(KernelOf(nm, d), c, fed, outLen, out0, outOff, out1, magic0 - magic, early, c', output[..],
                consumed, produced, ChannelAt(mem[..], at, t.filtLen, magic, last, frac));
      SameNested(before, between, mem[..], at, at + t.filtLen - 1 + magic0, at + t.filtLen - 1);
      produced := early + produced;
    }
  }
}
