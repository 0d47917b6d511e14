/** The resampler object: rates, filter, per-channel arrays and one sample memory, all updated in place. */
module Resampler {
  import opened Buffers
  import opened Division
  import opened Gcd
  import opened ResamplerStream
  import opened ResamplerResize
  import opened ResamplerSession
  import opened ResamplerLockstep
  import opened ResamplerFilter
  import opened ResamplerKernels
  import opened ResamplerMemory
  import opened ResamplerCalls
  import opened ResamplerChannels
  import opened ResamplerTables

  function RescaleAll(chans: seq<Channel>, den: nat, den': nat): (r: seq<Channel>)
    requires 0 < den && 0 < den'
    ensures |r| == |chans|
    ensures forall i :: 0 <= i < |r| ==> r[i] == chans[i].(frac := Rescaled(chans[i].frac, den, den'))
  {
    seq(|chans|, i requires 0 <= i < |chans| => chans[i].(frac := Rescaled(chans[i].frac, den, den')))
  }

  /** Changes of rate and of filter keep equal channels equal, started or not. */
  lemma UpdatedTogether(chans: seq<Channel>, n: nat, n': nat, started: bool)
    requires 1 <= n && 1 <= n' && n % 2 == n' % 2 && forall i :: 0 <= i < |chans| ==> |chans[i].hist| == n - 1
    requires AllTogether(chans)
    ensures AllTogether(Updated(chans, n, n', started))
  {
    hide Resize;
    forall i | 0 <= i < |chans|
      ensures Together(Updated(chans, n, n', started)[0], Updated(chans, n, n', started)[i])
    {
      if started {
        ResizeTogether(chans[0], chans[i], n, n');
      }
    }
  }

  lemma RescaledTogether(chans: seq<Channel>, den: nat, den': nat)
    requires 0 < den && 0 < den' && AllTogether(chans)
    ensures AllTogether(RescaleAll(chans, den, den'))
  {
    var r := RescaleAll(chans, den, den');
    forall i | 0 <= i < |r| ensures Together(r[0], r[i]) {
      assert Together(chans[0], chans[i]);
    }
  }

  lemma ReratedTogether(chans: seq<Channel>, den: nat, den': nat, n: nat, n': nat, started: bool)
    requires 0 < den && 0 < den'
    requires 1 <= n && 1 <= n' && n % 2 == n' % 2 && forall i :: 0 <= i < |chans| ==> |chans[i].hist| == n - 1
    ensures AllTogether(chans) ==> AllTogether(Updated(RescaleAll(chans, den, den'), n, n', started))
  {
    hide AllTogether, Updated;
    if AllTogether(chans) {
      RescaledTogether(chans, den, den');
      UpdatedTogether(RescaleAll(chans, den, den'), n, n', started);
    }
  }

  /** The change of length that update_filter makes for a new quality, seen on one channel. */
  lemma QualityRetunes(chans: seq<Channel>, k: Kernel, k': Kernel, ch: nat)
    requires k'.Valid() && k.n % 2 == k'.n % 2 == 0 && k.den == k'.den && ch < |chans| && chans[ch].Valid(k)
    requires forall i :: 0 <= i < |chans| ==> |chans[i].hist| == k.n - 1
    ensures Updated(chans, k.n, k'.n, true)[ch] == Retuned(chans[ch], k, k')
    ensures k == k' ==> chans[ch] == Retuned(chans[ch], k, k')
  {
    hide Resize;
    RetunedSameGrid(chans[ch], k, k');
  }

  /** The same for a new ratio. */
  lemma RateRetunes(chans: seq<Channel>, k: Kernel, k': Kernel, ch: nat)
    requires k'.Valid() && k.n % 2 == k'.n % 2 == 0 && ch < |chans| && chans[ch].Valid(k)
    requires forall i :: 0 <= i < |chans| ==> |chans[i].hist| == k.n - 1
    ensures Updated(RescaleAll(chans, k.den, k'.den), k.n, k'.n, true)[ch] == Retuned(chans[ch], k, k')
    ensures k == k' ==> chans[ch] == Retuned(chans[ch], k, k')
  {
    hide Resize;
    if k == k' {
      RetunedSameGrid(chans[ch], k, k);
    }
  }

  lemma RescaledChannels(mem: seq<real>, alloc: nat, n: nat, magic: seq<nat>, last: seq<nat>, frac: seq<nat>,
                         frac': seq<nat>,
                         den: nat, den': nat)
    requires Fits(mem, alloc, n, magic, last, frac) && 0 < den && 0 < den' && |frac'| == |frac|
    requires forall i :: 0 <= i < |frac| ==> frac'[i] == Rescaled(frac[i], den, den')
    ensures Fits(mem, alloc, n, magic, last, frac')
    ensures ChannelsOf(mem, alloc, n, magic, last, frac') == RescaleAll(ChannelsOf(mem, alloc, n, magic, last,
                                                                                   frac), den, den')
  {
    var l := ChannelsOf(mem, alloc, n, magic, last, frac');
    var r := RescaleAll(ChannelsOf(mem, alloc, n, magic, last, frac), den, den');
    forall i | 0 <= i < |frac| ensures l[i] == r[i] {
      ReadChannel(mem, alloc, n, magic, last, frac, i);
      ReadChannel(mem, alloc, n, magic, last, frac', i);
    }
  }

  method RescaleFractions(frac: array<nat>, den: nat, den': nat)
    requires 0 < den && 0 < den'
    modifies frac
    ensures forall i :: 0 <= i < frac.Length ==> frac[i] == Rescaled(old(frac[i]), den, den')
  {
    for i := 0 to frac.Length
      invariant forall j :: 0 <= j < i ==> frac[j] == Rescaled(old(frac[j]), den, den')
      invariant forall j :: i <= j < frac.Length ==> frac[j] == old(frac[j])
    {
      frac[i] := Rescaled(frac[i], den, den');
    }
  }

  /** xs are the first len samples of one channel of an interleaved buffer, widened. */
  ghost predicate Strided(nm: Numerics, buffer: seq<int>, nb: nat, ch: nat, len: nat, xs: seq<real>) {
    |xs| == len && forall k :: 0 <= k < len ==>
      0 <= Cell(k, nb, ch) < |buffer| && xs[k] == nm.widen(buffer[Cell(k, nb, ch)])
  }

  /** The outputs of a channel are in their places. */
  ghost predicate PlacedAt(nm: Numerics, output: seq<int>, nb: nat, ch: nat, outs: seq<real>) {
    forall k :: 0 <= k < |outs| ==>
      0 <= Cell(k, nb, ch) < |output| && output[Cell(k, nb, ch)] == nm.narrow(outs[k])
  }

  /** The outputs of the first channels are in their places. */
  ghost predicate Scattered(nm: Numerics, output: seq<int>, nb: nat, steps: seq<Step>) {
    forall i :: 0 <= i < |steps| ==> PlacedAt(nm, output, nb, i, steps[i].outs)
  }

  /** Frame by frame: sample k of a channel is behind k whole frames and the channels before it. */
  lemma FrameByFrame(nm: Numerics, input: seq<int>, output: seq<int>, nb: nat, ch: nat, xs: seq<real>, steps: seq<Step>,
                     k: nat)
    requires ch < |steps| == nb && Strided(nm, input, nb, ch, |xs|, xs) && Scattered(nm, output, nb, steps)
    ensures k < |xs| ==> 0 <= k * nb + ch < |input| && xs[k] == nm.widen(input[k * nb + ch])
    ensures k < |steps[ch].outs| ==>
              0 <= k * nb + ch < |output| && output[k * nb + ch] == nm.narrow(steps[ch].outs[k])
  {
    assert Cell(k, nb, ch) == k * nb + ch;
    assert PlacedAt(nm, output, nb, ch, steps[ch].outs);
  }

  /** Only places of one channel were written. */
  ghost predicate WrittenAt(before: seq<int>, after: seq<int>, nb: nat, ch: nat) {
    ch < nb && |before| == |after| &&
    forall p :: 0 <= p < |before| && p % nb != ch ==> after[p] == before[p]
  }

  lemma CellChannel(k: nat, nb: nat, ch: nat)
    requires ch < nb
    ensures Cell(k, nb, ch) % nb == ch
  {
    Unique(Cell(k, nb, ch), nb, k, ch);
  }

  lemma NothingScattered(nm: Numerics, output: seq<int>, nb: nat, steps: seq<Step>)
    ensures Scattered(nm, output, nb, steps[..0])
  {}

  lemma NextStep(chans: seq<Channel>, steps: seq<Step>, i: nat)
    requires i < |steps| == |chans|
    ensures (Nexts(steps[..i]) + chans[i..])[i := steps[i].next] == Nexts(steps[..i + 1]) + chans[i + 1..]
  {}

  /** Channels that go into a clean interleaved call together come out together. */
  lemma InterleavedTogether(k: Kernel, chans: seq<Channel>, inputs: seq<seq<real>>, len: nat, cap: nat)
    requires Ready(k, chans, inputs, len) && chans != [] && AllTogether(chans)
    requires Clean(k, chans[0].Pos(k.den), |chans[0].magic|, len, cap)
    ensures AllTogether(Nexts(Interleave(k, chans, inputs, len, cap)))
  {
    hide Process, Clean;
    if |chans| >= 2 {
      Lockstep(k, chans, inputs, len, cap);
      var steps := Interleave(k, chans, inputs, len, cap);
      forall i | 0 <= i < |steps| ensures Together(Nexts(steps)[0], Nexts(steps)[i]) {
        assert SameCounts(steps[0], steps[i]);
      }
    }
  }

  /** And each comes out as it would of a call on its own. */
  lemma InterleavedAlone(k: Kernel, chans: seq<Channel>, inputs: seq<seq<real>>, len: nat, cap: nat)
    requires Ready(k, chans, inputs, len) && chans != [] && AllTogether(chans)
    requires Clean(k, chans[0].Pos(k.den), |chans[0].magic|, len, cap)
    ensures EachAlone(k, chans, inputs, len, cap, Nexts(Interleave(k, chans, inputs, len, cap)))
  {
    hide Process, Clean, Interleave;
    forall i | 0 <= i < |chans|
      ensures Nexts(Interleave(k, chans, inputs, len, cap))[i] == Process(k, chans[i], inputs[i][..len], cap).next
    {
      Alone(k, chans, inputs, len, cap, i);
    }
  }

  ghost predicate EachAlone(k: Kernel, chans: seq<Channel>, inputs: seq<seq<real>>, len: nat, cap: nat,
                            after: seq<Channel>)
    requires Ready(k, chans, inputs, len)
  {
    |after| == |chans| &&
    forall i :: 0 <= i < |chans| ==> after[i] == Process(k, chans[i], inputs[i][..len], cap).next
  }

  /** What the out_len argument holds after i channels. */
  function Emitted(steps: seq<Step>, cap: nat, i: nat): nat
    requires i <= |steps|
  {
    if i == 0 then cap else |steps[i - 1].outs|
  }

  ghost predicate Ready(k: Kernel, chans: seq<Channel>, inputs: seq<seq<real>>, len: nat) {
    |inputs| == |chans| && forall i :: 0 <= i < |chans| ==> chans[i].Valid(k) && len <= |inputs[i]|
  }

  lemma ScatterStep(nm: Numerics, before: seq<int>, after: seq<int>, nb: nat, steps: seq<Step>, i: nat)
    requires i < |steps| <= nb && Scattered(nm, before, nb, steps[..i]) && WrittenAt(before, after, nb, i)
    requires PlacedAt(nm, after, nb, i, steps[i].outs)
    ensures Scattered(nm, after, nb, steps[..i + 1])
  {
    var upTo := steps[..i + 1];
    forall j | 0 <= j < i + 1
      ensures PlacedAt(nm, after, nb, j, upTo[j].outs)
    {
      if j < i {
        StillPlaced(nm, before, after, nb, i, j, steps[..i][j].outs);
      }
    }
  }

  lemma StillPlaced(nm: Numerics, before: seq<int>, after: seq<int>, nb: nat, i: nat, j: nat, outs: seq<real>)
    requires j != i && j < nb && PlacedAt(nm, before, nb, j, outs) && WrittenAt(before, after, nb, i)
    ensures PlacedAt(nm, after, nb, j, outs)
  {
    forall k | 0 <= k < |outs|
      ensures 0 <= Cell(k, nb, j) < |after| && after[Cell(k, nb, j)] == nm.narrow(outs[k])
    {
      CellChannel(k, nb, j);
    }
  }

  /** The gathering loop of speex_resampler_process_int. */
  method Gather(nm: Numerics, input: array<int>, nb: nat, ch: nat, len: nat, ghost total: nat, ghost xs: seq<real>)
    returns (x: array<real>)
    requires len <= total && Strided(nm, input[..], nb, ch, total, xs)
    ensures fresh(x) && x.Length == len && x[..] == xs[..len]
  {
    x := new real[len];
    for k := 0 to len
      invariant x[..k] == xs[..k]
    {
      assert xs[k] == nm.widen(input[..][Cell(k, nb, ch)]);
      x[k] := nm.widen(input[Cell(k, nb, ch)]);
    }
  }

  /** The scattering loop of speex_resampler_process_int. */
  method Scatter(nm: Numerics, y: array<real>, count: nat, output: array<int>, nb: nat, ch: nat, ghost cap: nat)
    requires count <= y.Length && count <= cap && ch < nb && nb * cap <= output.Length
    modifies output
    ensures WrittenAt(old(output[..]), output[..], nb, ch)
    ensures forall k :: 0 <= k < count ==>
              0 <= Cell(k, nb, ch) < output.Length && output[Cell(k, nb, ch)] == nm.narrow(y[k])
  {
    hide Cell;
    for k := 0 to count
      invariant WrittenAt(old(output[..]), output[..], nb, ch)
      invariant forall j :: 0 <= j < k ==>
                  0 <= Cell(j, nb, ch) < output.Length && output[Cell(j, nb, ch)] == nm.narrow(y[j])
    {
      CellBelow(k, cap, nb, ch);
      CellChannel(k, nb, ch);
      forall j | 0 <= j < k ensures Cell(j, nb, ch) != Cell(k, nb, ch) {
        if Cell(j, nb, ch) == Cell(k, nb, ch) { CellsApart(j, ch, k, ch, nb); }
      }
      output[Cell(k, nb, ch)] := nm.narrow(y[k]);
    }
  }

  const SUCCESS := 0
  const INVALID_ARG := 3

  /** What a user of a resampler does to it. */
  datatype Event =
    | Input(size: nat, cap: nat)
    | Quality(q: int)
    | Rate(num: nat, den: nat, newIn: nat, newOut: nat)

  predicate ValidEvent(event: Event) {
    event.Rate? ==> 0 < event.num && 0 < event.den
  }

  predicate ValidEvents(events: seq<Event>) {
    forall i :: 0 <= i < |events| ==> ValidEvent(events[i])
  }

  /** The design for a quality and a ratio that need not be reduced. */
  function Reduced(q: nat, num: nat, den: nat): (d: Design)
    requires q <= 10 && 0 < num && 0 < den
    ensures d.Valid()
  {
    var g := Euclid(num, den);
    EuclidIsGcd(num, den);
    QuotientPositive(g, num);
    QuotientPositive(g, den);
    Design(q, num / g, den / g)
  }

  lemma ReducedIs(q: nat, num: nat, den: nat, f: nat, num': nat, den': nat)
    requires q <= 10 && 0 < num && 0 < den && IsGcd(f, num, den) && num == f * num' && den == f * den'
    ensures Reduced(q, num, den) == Design(q, num', den')
  {
    hide IsGcd;
    ReducedRatio(num, den, f, num', den');
  }

  lemma QuotientPositive(g: nat, a: nat)
    requires 0 < a && Divides(g, a)
    ensures 0 < g && 0 < a / g
  {
    DividesBound(g, a);
    Below(a, g, 1);
  }

  /** The setting after an event: a quality out of range changes nothing. */
  function Applied(d: Design, event: Event): (d': Design)
    requires d.Valid() && ValidEvent(event)
    ensures d'.Valid()
  {
    match event
    case Input(_, _) => d
    case Quality(q) => if 0 <= q <= 10 then d.(quality := q) else d
    case Rate(num, den, _, _) => Reduced(d.quality, num, den)
  }

  /** The setting after some events. */
  function Settled(d: Design, events: seq<Event>): (d': Design)
    requires d.Valid() && ValidEvents(events)
    ensures d'.Valid()
    decreases |events|
  {
    if events == [] then d else Settled(Applied(d, events[0]), events[1..])
  }

  /** The step of the theory that an event is. */
  function StepOf(nm: Numerics, d: Design, event: Event): (op: Op)
    requires d.Valid() && ValidEvent(event)
    ensures ValidOp(op)
  {
    match event
    case Input(size, cap) => Feed(size, cap)
    case _ =>
      EvenLength(nm, Applied(d, event));
      Retune(KernelOf(nm, Applied(d, event)))
  }

  lemma EvenLength(nm: Numerics, d: Design)
    requires d.Valid()
    ensures KernelOf(nm, d).n % 2 == 0
  {
    hide *;
    MultipleOfFour(d.Length());
  }

  lemma MultipleOfFour(n: nat)
    requires n % 4 == 0
    ensures n % 2 == 0
  {
    Unique(n, 2, n / 4 * 2, 0);
  }

  /** The steps of the theory that some events are, for a setting to start from. */
  function StepsOf(nm: Numerics, d: Design, events: seq<Event>): (ops: seq<Op>)
    requires d.Valid() && ValidEvents(events)
    ensures |ops| == |events| && ValidOps(ops)
    decreases |events|
  {
    if events == [] then [] else [StepOf(nm, d, events[0])] + StepsOf(nm, Applied(d, events[0]), events[1..])
  }

  /** The setting in force when the first input arrives, and the events from there on. */
  function AtFirstInput(d: Design, events: seq<Event>): (d': Design)
    requires d.Valid() && ValidEvents(events)
    ensures d'.Valid()
    decreases |events|
  {
    if events == [] || events[0].Input? then d else AtFirstInput(Applied(d, events[0]), events[1..])
  }

  function FromFirstInput(events: seq<Event>): (rest: seq<Event>)
    requires ValidEvents(events)
    ensures ValidEvents(rest)
    decreases |events|
  {
    if events == [] || events[0].Input? then events else FromFirstInput(events[1..])
  }

  /** A channel that has not heard anything. */
  function Unheard(n: nat): Channel
    requires 1 <= n
  {
    Channel(Zeros(n - 1), [], 0, 0)
  }

  /** Before the first input a change of setting only changes the length of the silence. */
  lemma StillUnheard(chans: seq<Channel>, den: nat, den': nat, n: nat, n': nat, ch: nat)
    requires 1 <= n && 1 <= n' && n % 2 == n' % 2 && forall i :: 0 <= i < |chans| ==> |chans[i].hist| == n - 1
    requires 0 < den && 0 < den' && ch < |chans| && chans[ch] == Unheard(n)
    ensures Updated(chans, n, n', false)[ch] == Unheard(n')
    ensures Updated(RescaleAll(chans, den, den'), n, n', false)[ch] == Unheard(n')
  {
    RescaledExact(0, den, den');
    assert 0 * den' == 0;
  }

  class State {
    const nm: Numerics
    const nbChannels: nat

    var inRate: nat
    var outRate: nat
    var numRate: nat
    var denRate: nat
    var quality: nat
    var tuning: Tuning
    var memAllocSize: nat
    var started: bool

    const lastSample: array<nat>
    const sampFracNum: array<nat>
    const magicSamples: array<nat>

    var mem: array<real>
    var sincTable: array<real>
    var sincTableLength: nat

    ghost function Setting(): Design
      reads this
    {
      Design(quality, numRate, denRate)
    }

    /** Everything but the filter: arrays of the right sizes and room for what every channel stores. */
    ghost predicate Shaped()
      reads this, lastSample, sampFracNum, magicSamples, mem
    {
      && lastSample.Length == sampFracNum.Length == magicSamples.Length == nbChannels
      && lastSample != sampFracNum && lastSample != magicSamples && sampFracNum != magicSamples
      && mem != sincTable && (sincTableLength == 0 || sincTableLength == sincTable.Length)
      && Fits(mem[..], memAllocSize, tuning.filtLen, magicSamples[..], lastSample[..], sampFracNum[..])
      && (!started ==> forall i :: 0 <= i < nbChannels ==> magicSamples[i] == 0)
      && Setting().Valid() && Coprime(numRate, denRate)
      && forall i :: 0 <= i < nbChannels ==> sampFracNum[i] < denRate
    }

    ghost predicate Valid()
      reads this, lastSample, sampFracNum, magicSamples, mem, sincTable
    {
      Shaped() && Tuned(nm, Setting(), tuning, sincTable[..])
    }

    ghost function Chans(): (r: seq<Channel>)
      requires Shaped()
      reads this, lastSample, sampFracNum, magicSamples, mem
      ensures |r| == nbChannels
      ensures forall i :: 0 <= i < |r| ==> |r[i].hist| == tuning.filtLen - 1
    {
      ChannelsOf(mem[..], memAllocSize, tuning.filtLen, magicSamples[..], lastSample[..], sampFracNum[..])
    }

    ghost function Convolver(): (k: Kernel)
      requires Valid()
      reads this, lastSample, sampFracNum, magicSamples, mem, sincTable
      ensures k.Valid() && k.n == tuning.filtLen && k.num == numRate && k.den == denRate
    {
      KernelOf(nm, Setting())
    }

    /** Every channel of a valid state is one the stream theory speaks about. */
    lemma ChannelsValid(i: nat)
      requires Valid() && i < nbChannels
      ensures Chans()[i].Valid(Convolver())
    {
      assert Chans()[i]
          == ChannelOf(mem[..], memAllocSize, tuning.filtLen, magicSamples[..], lastSample[..], sampFracNum[..], i);
    }

    /** Stores a channel's counters at the end of a call. */
    method Commit(ch: nat, last: nat, frac: nat, magic: nat)
      requires Valid() && ch < nbChannels && started
      requires tuning.filtLen + 2 * magic <= memAllocSize + 1 && frac < denRate
      modifies lastSample, sampFracNum, magicSamples
      ensures Valid()
      ensures lastSample[..] == old(lastSample[..])[ch := last]
      ensures sampFracNum[..] == old(sampFracNum[..])[ch := frac]
      ensures magicSamples[..] == old(magicSamples[..])[ch := magic]
    {
      hide TableFits, Coprime, Design.Length, Design.Oversample;
      lastSample[ch], sampFracNum[ch], magicSamples[ch] := last, frac, magic;
    }

    /** speex_resampler_process_native: one call on one channel. */
    method ProcessNative(ch: nat, input: array<real>, inLen: nat, output: array<real>, outLen: nat)
      returns (consumed: nat, produced: nat)
      requires Valid() && ch < nbChannels && Chans()[ch].Valid(Convolver())
      requires inLen <= input.Length && outLen <= output.Length
      requires output != mem && output != sincTable && output != input && input != mem
      modifies `started, lastSample, sampFracNum, magicSamples, mem, output
      ensures Valid() && started
      ensures var r := Process(Convolver(), old(Chans()[ch]), old(input[..inLen]), outLen);
              && consumed == r.consumed && produced == |r.outs|
              && Chans() == old(Chans())[ch := r.next]
              && output[..] == Patched(old(output[..]), 0, r.outs)
    {
      hide Process, Patched, ChannelsOf, TableFits, Coprime, Design.Length, Design.Oversample;
      assert tuning.denRate == denRate;
      started := true;
      ghost var before := mem[..];
      ghost var magic0, last0, frac0 := magicSamples[..], lastSample[..], sampFracNum[..];
      ReadChannel(before, memAllocSize, tuning.filtLen, magic0, last0, frac0, ch);
      var at := Slot(ch, memAllocSize);
      var last, frac, magic;
      consumed, produced, last, frac, magic := CallAt(ch, at, input, inLen, output, outLen);
      OneChannelChanged(before, mem[..], memAllocSize, tuning.filtLen, magic0, last0, frac0, ch, magic, last, frac);
      Commit(ch, last, frac, magic);
    }

    /** The call on the memory of a channel, before its counters are stored. */
    method CallAt(ch: nat, at: nat, input: array<real>, inLen: nat, output: array<real>, outLen: nat)
      returns (consumed: nat, produced: nat, last: nat, frac: nat, magic: nat)
      requires Valid() && ch < nbChannels && at == Slot(ch, memAllocSize) && at + memAllocSize <= mem.Length
      requires Chans()[ch].Valid(Convolver()) && tuning.denRate == denRate
      requires inLen <= input.Length && outLen <= output.Length
      requires output != mem && output != sincTable && output != input && input != mem
      modifies mem, output
      ensures Valid()
      ensures SameOutside(old(mem[..]), mem[..], at, at + memAllocSize)
      ensures tuning.filtLen + 2 * magic <= memAllocSize + 1 && frac < denRate
      ensures at + tuning.filtLen - 1 + magic <= mem.Length
      ensures var r := Process(Convolver(), old(Chans()[ch]), old(input[..inLen]), outLen);
              && consumed == r.consumed && produced == |r.outs|
              && ChannelAt(mem[..], at, tuning.filtLen, magic, last, frac) == r.next
              && output[..] == Patched(old(output[..]), 0, r.outs)
    {
      hide Process, Patched, ChannelsOf, TableFits, Coprime, Design.Length, Design.Oversample;
      ghost var before := mem[..];
      ReadChannel(before, memAllocSize, tuning.filtLen, magicSamples[..], lastSample[..], sampFracNum[..], ch);
      consumed, produced, last, frac, magic :=
        RunCall(nm, Setting(), tuning, sincTable, mem, at, lastSample[ch], sampFracNum[ch], magicSamples[ch],
                input, 0, inLen, output, 0, outLen);
      SameWiden(before, mem[..], at, at + tuning.filtLen - 1 + magicSamples[ch], at, at + memAllocSize);
    }

    /** One call of a run: a part of what is left of a stream is presented. */
    method Offer(ch: nat, stream: seq<real>, call: Call) returns (outs: seq<real>, consumed: nat)
      requires Valid() && ch < nbChannels && Chans()[ch].Valid(Convolver())
      modifies `started, lastSample, sampFracNum, magicSamples, mem
      ensures Valid() && started && Convolver() == old(Convolver())
      ensures var r := Process(Convolver(), old(Chans()[ch]), Presented(stream, call), call.cap);
              outs == r.outs && consumed == r.consumed && Chans() == old(Chans())[ch := r.next]
    {
      hide Process, Tuned, Coprime, ChannelsOf, Fits;
      var chunk := Presented(stream, call);
      var x, y := new real[|chunk|](i requires 0 <= i < |chunk| => chunk[i]), new real[call.cap];
      assert x[..|chunk|] == chunk;
      var produced;
      consumed, produced := ProcessNative(ch, x, |chunk|, y, call.cap);
      outs := y[..produced];
    }

    /** A run of calls on one channel, with whatever a call leaves presented again. */
    method RunChannel(ch: nat, stream: seq<real>, calls: seq<Call>) returns (outs: seq<real>, rest: seq<real>)
      requires Valid() && ch < nbChannels && Chans()[ch].Valid(Convolver())
      modifies `started, lastSample, sampFracNum, magicSamples, mem
      decreases |calls|
      ensures Valid() && Convolver() == old(Convolver())
      ensures var r := Run(Convolver(), old(Chans()[ch]), stream, calls);
              outs == r.outs && rest == r.rest && Chans() == old(Chans())[ch := r.next]
    {
      hide Process, Tuned, Fits, ChannelsOf, Coprime;
      if calls == [] {
        return [], stream;
      }
      var first, consumed := Offer(ch, stream, calls[0]);
      var more;
      more, rest := RunChannel(ch, stream[consumed..], calls[1..]);
      outs := first + more;
    }

    /** The outputs of such a run are the first outputs of one convolution over the channel's history, its
        queue and the stream; what is left there and in the channel is the stream without what was used;
        and the position moved by exactly the ratio for every output. */
    method ConvolveChannel(ch: nat, stream: seq<real>, calls: seq<Call>) returns (outs: seq<real>, rest: seq<real>)
      requires Valid() && ch < nbChannels && Chans()[ch].Valid(Convolver())
      modifies `started, lastSample, sampFracNum, magicSamples, mem
      ensures Valid() && Convolver() == old(Convolver())
      ensures Streamed(Convolver(), old(Chans()[ch]), stream, RunResult(outs, rest, Chans()[ch]))
    {
      hide Process, Run, Streamed, Tuned, Fits, ChannelsOf, Coprime;
      Streaming(Convolver(), Chans()[ch], stream, calls);
      outs, rest := RunChannel(ch, stream, calls);
    }

    /** speex_resampler_process_int: gather one channel, convert, scatter. */
    method ProcessInt(ch: nat, input: array<int>, inLen: nat, output: array<int>, outLen: nat,
                      ghost xs: seq<real>, ghost total: nat)
      returns (consumed: nat, produced: nat)
      requires Valid() && ch < nbChannels && Chans()[ch].Valid(Convolver()) && input != output
      requires inLen <= total && Strided(nm, input[..], nbChannels, ch, total, xs)
      requires nbChannels * outLen <= output.Length
      modifies `started, lastSample, sampFracNum, magicSamples, mem, output
      ensures Valid() && started && Convolver() == old(Convolver())
      ensures var r := Process(Convolver(), old(Chans()[ch]), xs[..inLen], outLen);
              && consumed == r.consumed && produced == |r.outs| && Chans() == old(Chans())[ch := r.next]
              && PlacedAt(nm, output[..], nbChannels, ch, r.outs)
      ensures WrittenAt(old(output[..]), output[..], nbChannels, ch) && input[..] == old(input[..])
    {
      hide Process, Tuned, Coprime, ChannelsOf, Fits, Strided;
      var x := Gather(nm, input, nbChannels, ch, inLen, total, xs);
      var y := new real[outLen];
      assert x[..inLen] == x[..];
      consumed, produced := ProcessNative(ch, x, inLen, y, outLen);
      Scatter(nm, y, produced, output, nbChannels, ch, outLen);
    }

    /** The channel loop of speex_resampler_process_interleaved_int: in_len is carried from channel to
        channel, out_len is reset for each. */
    method ProcessInterleaved(input: array<int>, inLen: nat, output: array<int>, outLen: nat,
                              ghost inputs: seq<seq<real>>)
      returns (consumed: nat, produced: nat)
      requires Valid() && input != output
      requires Ready(Convolver(), Chans(), inputs, inLen)
      requires forall i :: 0 <= i < nbChannels ==> Strided(nm, input[..], nbChannels, i, inLen, inputs[i])
      requires nbChannels * outLen <= output.Length
      modifies `started, lastSample, sampFracNum, magicSamples, mem, output
      ensures Valid() && Convolver() == old(Convolver())
      ensures var steps := Interleave(Convolver(), old(Chans()), inputs, inLen, outLen);
              && consumed == Offered(steps, inLen, nbChannels) && produced == Emitted(steps, outLen, nbChannels)
              && Chans() == Nexts(steps) && Scattered(nm, output[..], nbChannels, steps)
    {
      hide ChannelsOf, Process, Tuned, Coprime, Interleave, Fits, Scattered, WrittenAt;
      ghost var chans, conv, samples := Chans(), Convolver(), input[..];
      ghost var steps := Interleave(conv, chans, inputs, inLen, outLen);
      consumed, produced := inLen, outLen;
      var i := 0;
      NothingScattered(nm, output[..], nbChannels, steps);
      while i < nbChannels
        invariant 0 <= i <= nbChannels && Valid() && Convolver() == conv
        invariant consumed == Offered(steps, inLen, i) && produced == Emitted(steps, outLen, i)
        invariant Chans() == Nexts(steps[..i]) + chans[i..] && input[..] == samples
        invariant Scattered(nm, output[..], nbChannels, steps[..i])
      {
        InterleaveAt(conv, chans, inputs, inLen, outLen, i);
        assert Chans()[i] == chans[i];
        ghost var before := output[..];
        consumed, produced := ProcessInt(i, input, consumed, output, outLen, inputs[i], inLen);
        ScatterStep(nm, before, output[..], nbChannels, steps, i);
        NextStep(chans, steps, i);
        i := i + 1;
      }
      assert steps[..nbChannels] == steps;
    }

    /** The same for channels that are together.  If the first one's call is clean they still are, and each
        has done what a call of its own would do.  If not, the count that comes back is less than that of the
        first channel's outputs, which is the capacity. */
    method ProcessTogether(input: array<int>, inLen: nat, output: array<int>, outLen: nat, ghost inputs: seq<seq<real>>)
      returns (consumed: nat, produced: nat)
      requires Valid() && input != output && 0 < nbChannels
      requires Ready(Convolver(), Chans(), inputs, inLen) && AllTogether(Chans())
      requires forall i :: 0 <= i < nbChannels ==> Strided(nm, input[..], nbChannels, i, inLen, inputs[i])
      requires nbChannels * outLen <= output.Length
      modifies `started, lastSample, sampFracNum, magicSamples, mem, output
      ensures Valid() && Convolver() == old(Convolver())
      ensures old(Clean(Convolver(), Chans()[0].Pos(denRate), |Chans()[0].magic|, inLen, outLen)) ==>
          AllTogether(Chans()) && EachAlone(Convolver(), old(Chans()), inputs, inLen, outLen, Chans())
      ensures var k, chan := old(Convolver()), old(Chans())[0];
              2 <= nbChannels && !Clean(k, chan.Pos(k.den), |chan.magic|, inLen, outLen) ==>
                produced == Count(k, chan.Pos(k.den), Index(k, chan.Pos(k.den), outLen)) < outLen
    {
      hide Process, Clean, AllTogether, EachAlone, Tuned, Coprime, ChannelsOf, Fits;
      ghost var k, chans := Convolver(), Chans();
      consumed, produced := ProcessInterleaved(input, inLen, output, outLen, inputs);
      if Clean(k, chans[0].Pos(k.den), |chans[0].magic|, inLen, outLen) {
        InterleavedTogether(k, chans, inputs, inLen, outLen);
        InterleavedAlone(k, chans, inputs, inLen, outLen);
      } else if 2 <= nbChannels {
        Unclean(k, chans, inputs, inLen, outLen, nbChannels - 1);
      }
    }

    // -------------------------------------------------------------- live changes

    /** update_filter: a new table and tuning for the current quality and ratio, and the memory moves. */
    method UpdateFilter()
      requires Shaped()
      modifies `tuning, `mem, `memAllocSize, `sincTable, `sincTableLength
      modifies lastSample, magicSamples, mem, sincTable
      ensures Valid() && Chans() == Updated(old(Chans()), old(tuning.filtLen), tuning.filtLen, started)
      ensures mem == old(mem) || fresh(mem)
      ensures sincTable == old(sincTable) || fresh(sincTable)
    {
      hide TableFits, Coprime, ChannelsOf, Updated, Design.Length, Design.Oversample, Divides;
      var d := Design(quality, numRate, denRate);
      RetuneTable(d);
      var mem', alloc' := ReshapeMemory(mem, nbChannels, memAllocSize, tuning.filtLen, d.Length(), started,
                                        magicSamples, lastSample, sampFracNum[..]);
      mem, memAllocSize, tuning := mem', alloc', TuningOf(d);
    }

    /** The coefficient table for a design. */
    method RetuneTable(d: Design)
      requires d.Valid() && (sincTableLength == 0 || sincTableLength == sincTable.Length)
      modifies `sincTable, `sincTableLength, sincTable
      ensures TableFits(nm, d, sincTable[..])
      ensures sincTable == old(sincTable) || fresh(sincTable)
      ensures sincTableLength == 0 || sincTableLength == sincTable.Length
    {
      sincTable, sincTableLength := BuildTable(nm, d, sincTable, sincTableLength);
    }

    /** speex_resampler_set_quality. */
    method SetQuality(q: int) returns (ok: bool)
      requires Valid()
      modifies `quality, `tuning, `mem, `memAllocSize, `sincTable, `sincTableLength
      modifies lastSample, magicSamples, mem, sincTable
      ensures Valid() && ok == (0 <= q <= 10)
      ensures quality == if ok then q else old(quality)
      ensures Chans() == if ok && q != old(quality)
                         then Updated(old(Chans()), old(tuning.filtLen), tuning.filtLen, started)
                         else old(Chans())
      ensures AllTogether(old(Chans())) ==> AllTogether(Chans())
      ensures mem == old(mem) || fresh(mem)
      ensures sincTable == old(sincTable) || fresh(sincTable)
    {
      if q > 10 || q < 0 {
        return false;
      }
      if quality == q {
        return true;
      }
      hide AllTogether, ChannelsOf, Updated, Tuned, Coprime;
      ghost var n := tuning.filtLen;
      quality := q;
      UpdateFilter();
      if AllTogether(old(Chans())) {
        UpdatedTogether(old(Chans()), n, tuning.filtLen, started);
      }
      ok := true;
    }

    /** speex_resampler_set_rate_frac: f is what the ratio was divided by. */
    method SetRateFrac(ratioNum: nat, ratioDen: nat, newIn: nat, newOut: nat) returns (ghost f: nat)
      requires Valid() && 0 < ratioNum && 0 < ratioDen
      modifies `inRate, `outRate, `numRate, `denRate, `tuning, `mem, `memAllocSize, `sincTable, `sincTableLength
      modifies lastSample, sampFracNum, magicSamples, mem, sincTable
      ensures Valid() && inRate == newIn && outRate == newOut
      ensures IsGcd(f, ratioNum, ratioDen) && ratioNum == f * numRate && ratioDen == f * denRate
      ensures var same := old(inRate) == newIn && old(outRate) == newOut
                          && old(numRate) == ratioNum && old(denRate) == ratioDen;
              && (same ==> numRate == old(numRate) && denRate == old(denRate))
              && Chans() == if same then old(Chans()) else
                              Updated(RescaleAll(old(Chans()), old(denRate), denRate),
                                      old(tuning.filtLen), tuning.filtLen, started)
      ensures AllTogether(old(Chans())) ==> AllTogether(Chans())
      ensures mem == old(mem) || fresh(mem)
      ensures sincTable == old(sincTable) || fresh(sincTable)
    {
      if inRate == newIn && outRate == newOut && numRate == ratioNum && denRate == ratioDen {
        f := 1;
        CofactorIsGcd(1, numRate, denRate);
        return;
      }
      hide Coprime, IsGcd, ChannelsOf, Updated, Tuned, AllTogether;
      ghost var oldDen, n := denRate, tuning.filtLen;
      var num, den;
      num, den, f := ReduceRatio(ratioNum, ratioDen);
      inRate, outRate := newIn, newOut;
      Rerate(num, den);
      ReratedTogether(old(Chans()), oldDen, den, n, tuning.filtLen, started);
    }

    /** The fractions and the filter for a ratio that is reduced already. */
    method Rerate(num: nat, den: nat)
      requires Valid() && 0 < num && 0 < den && Coprime(num, den)
      modifies `numRate, `denRate, `tuning, `mem, `memAllocSize, `sincTable, `sincTableLength
      modifies lastSample, sampFracNum, magicSamples, mem, sincTable
      ensures Valid() && numRate == num && denRate == den
      ensures Chans() == Updated(RescaleAll(old(Chans()), old(denRate), den), old(tuning.filtLen), tuning.filtLen,
                                 started)
      ensures mem == old(mem) || fresh(mem)
      ensures sincTable == old(sincTable) || fresh(sincTable)
    {
      hide Coprime, ChannelsOf, Updated, Tuned;
      var oldDen := denRate;
      ghost var frac := sampFracNum[..];
      RescaleFractions(sampFracNum, oldDen, den);
      RescaledChannels(mem[..], memAllocSize, tuning.filtLen, magicSamples[..], lastSample[..], frac, sampFracNum[..],
                       oldDen, den);
      numRate, denRate := num, den;
      UpdateFilter();
    }

    // -------------------------------------------------------------- sessions

    /** A channel at work on a stream, as the theory of sessions sees it. */
    ghost function LiveAt(ch: nat, taken: nat, lo: int): Live
      requires Valid() && ch < nbChannels
      reads this, lastSample, sampFracNum, magicSamples, mem, sincTable
    {
      Live(Convolver(), Chans()[ch], taken, lo)
    }

    /** Presenting input is a feeding step. */
    method FeedEvent(ch: nat, stream: seq<real>, taken: nat, ghost lo: int, size: nat, cap: nat)
      returns (outs: seq<real>, taken': nat)
      requires Valid() && ch < nbChannels && LiveAt(ch, taken, lo).Valid(stream)
      modifies `started, lastSample, sampFracNum, magicSamples, mem
      ensures Valid() && started && LiveAt(ch, taken', lo) == Next(stream, old(LiveAt(ch, taken, lo)), Feed(size, cap))
      ensures outs == Values(Emit(stream, old(LiveAt(ch, taken, lo)), Feed(size, cap)))
    {
      hide Process, Represents, CentrePos, Tuned, Coprime, ChannelsOf, Fits;
      var consumed;
      outs, consumed := Offer(ch, stream[taken..], Call(size, cap));
      taken' := taken + consumed;
      assert Presented(stream[taken..], Call(size, cap)) == stream[taken..taken + Min(size, |stream| - taken)];
    }

    /** A change of quality, refused or not, retunes every channel. */
    method QualityEvent(ch: nat, q: int)
      requires Valid() && ch < nbChannels && started && Chans()[ch].Valid(Convolver())
      modifies `quality, `tuning, `mem, `memAllocSize, `sincTable, `sincTableLength
      modifies lastSample, magicSamples, mem, sincTable
      ensures Valid() && Convolver().n % 2 == old(Convolver().n) % 2 == 0
      ensures Chans()[ch] == Retuned(old(Chans()[ch]), old(Convolver()), Convolver())
      ensures mem == old(mem) || fresh(mem)
      ensures sincTable == old(sincTable) || fresh(sincTable)
      ensures numRate == old(numRate) && denRate == old(denRate)
      ensures quality == if 0 <= q <= 10 then q else old(quality)
    {
      hide Tuned, Coprime, ChannelsOf, Fits, Resize, Retuned, Updated, AllTogether;
      ghost var k, chans := Convolver(), Chans();
      EvenWindow();
      var ok := SetQuality(q);
      EvenWindow();
      QualityRetunes(chans, k, Convolver(), ch);
    }

    /** A change of rate retunes every channel. */
    method RateEvent(ch: nat, num: nat, den: nat, newIn: nat, newOut: nat)
      requires Valid() && ch < nbChannels && started && Chans()[ch].Valid(Convolver()) && 0 < num && 0 < den
      modifies `inRate, `outRate, `numRate, `denRate, `tuning, `mem, `memAllocSize, `sincTable, `sincTableLength
      modifies lastSample, sampFracNum, magicSamples, mem, sincTable
      ensures Valid() && Convolver().n % 2 == old(Convolver().n) % 2 == 0
      ensures Chans()[ch] == Retuned(old(Chans()[ch]), old(Convolver()), Convolver())
      ensures mem == old(mem) || fresh(mem)
      ensures sincTable == old(sincTable) || fresh(sincTable)
      ensures Setting() == Reduced(old(quality), num, den)
    {
      hide Tuned, Coprime, IsGcd, ChannelsOf, Fits, Resize, Retuned, Updated, RescaleAll, AllTogether;
      ghost var k, chans := Convolver(), Chans();
      EvenWindow();
      ghost var f := SetRateFrac(num, den, newIn, newOut);
      ReducedIs(quality, num, den, f, numRate, denRate);
      EvenWindow();
      RateRetunes(chans, k, Convolver(), ch);
    }

    lemma EvenWindow()
      requires Valid()
      ensures Convolver().n % 2 == 0
    {}

    /** One event on a channel, as a step of the theory. */
    method Happen(ch: nat, stream: seq<real>, taken: nat, ghost lo: int, event: Event)
      returns (outs: seq<real>, taken': nat, ghost lo': int)
      requires Valid() && ch < nbChannels && (started || event.Input?) && ValidEvent(event)
      requires LiveAt(ch, taken, lo).Valid(stream)
      modifies this, lastSample, sampFracNum, magicSamples, mem, sincTable
      ensures Valid() && started && Setting() == Applied(old(Setting()), event)
      ensures mem == old(mem) || fresh(mem)
      ensures sincTable == old(sincTable) || fresh(sincTable)
      ensures var s, op := old(LiveAt(ch, taken, lo)), StepOf(nm, old(Setting()), event);
              LiveAt(ch, taken', lo') == Next(stream, s, op) && outs == Values(Emit(stream, s, op))
    {
      hide Process, Represents, CentrePos, Tuned, Coprime, ChannelsOf, Fits, Retuned, Resize, AllTogether, Reduced;
      ghost var k, c := Convolver(), Chans()[ch];
      match event {
        case Input(size, cap) =>
          lo' := lo;
          outs, taken' := FeedEvent(ch, stream, taken, lo, size, cap);
        case Quality(q) =>
          QualityEvent(ch, q);
          lo' := AudibleFrom(c, k.n, Convolver().n, taken, lo);
          outs, taken' := [], taken;
        case Rate(num, den, newIn, newOut) =>
          RateEvent(ch, num, den, newIn, newOut);
          lo' := AudibleFrom(c, k.n, Convolver().n, taken, lo);
          outs, taken' := [], taken;
      }
    }

    /** The events of a session, one after the other. */
    method RunSession(ch: nat, stream: seq<real>, taken: nat, ghost lo: int, events: seq<Event>)
      returns (outs: seq<real>, taken': nat, ghost lo': int)
      requires Valid() && ch < nbChannels && ValidEvents(events)
      requires started || events == [] || events[0].Input?
      requires LiveAt(ch, taken, lo).Valid(stream)
      modifies this, lastSample, sampFracNum, magicSamples, mem, sincTable
      decreases |events|
      ensures Valid() && Setting() == Settled(old(Setting()), events) && (old(started) || events != [] ==> started)
      ensures var s, ops := old(LiveAt(ch, taken, lo)), StepsOf(nm, old(Setting()), events);
              outs == Values(Log(stream, s, ops)) && LiveAt(ch, taken', lo') == Final(stream, s, ops)
    {
      hide Live.Valid, Tuned, Coprime, ChannelsOf, Fits, Next, Emit, StepOf, Applied, Values, Log, Final, KernelOf;
      ghost var s, d := LiveAt(ch, taken, lo), Setting();
      if events == [] {
        outs, taken', lo' := [], taken, lo;
        NoSession(stream, s);
      } else {
        var first, between;
        ghost var low;
        first, between, low := Happen(ch, stream, taken, lo, events[0]);
        FirstOfSession(stream, s, StepOf(nm, d, events[0]), StepsOf(nm, Applied(d, events[0]), events[1..]));
        var later;
        later, taken', lo' := RunSession(ch, stream, between, low, events[1..]);
        outs := first + later;
      }
    }

    /** A session on one channel: calls, changes of quality and changes of rate in any order.  Every output
        is the filter then in force, centred on the input stream where the ideal clock puts it, or early by
        no more than one step of the new grid for each change of the denominator. */
    method Session(ch: nat, stream: seq<real>, taken: nat, ghost lo: int, events: seq<Event>)
      returns (outs: seq<real>, taken': nat, ghost lo': int, ghost log: seq<Emission>)
      requires Valid() && ch < nbChannels && ValidEvents(events)
      requires started || events == [] || events[0].Input?
      requires LiveAt(ch, taken, lo).Valid(stream)
      modifies this, lastSample, sampFracNum, magicSamples, mem, sincTable
      ensures Valid() && Setting() == Settled(old(Setting()), events) && (old(started) || events != [] ==> started)
      ensures var s, ops := old(LiveAt(ch, taken, lo)), StepsOf(nm, old(Setting()), events);
              && log == Log(stream, s, ops) && outs == Values(log) && LiveAt(ch, taken', lo') == Final(stream, s, ops)
              && OnTime(stream, log, s.Due(), Rounding(old(denRate), ops))
    {
      hide Represents, Tuned, Coprime, ChannelsOf, Fits, OnTime, Rounding, Time, CentrePos, Values, Log, Final, StepsOf;
      ghost var s, ops := LiveAt(ch, taken, lo), StepsOf(nm, Setting(), events);
      outs, taken', lo' := RunSession(ch, stream, taken, lo, events);
      log := Log(stream, s, ops);
      SessionOnTime(stream, s, ops);
    }

    /** A change of setting before the first input. */
    method SilentEvent(ch: nat, event: Event)
      requires Valid() && ch < nbChannels && !started && ValidEvent(event) && !event.Input?
      requires Chans()[ch] == Unheard(tuning.filtLen)
      modifies this, lastSample, sampFracNum, magicSamples, mem, sincTable
      ensures Valid() && !started && Setting() == Applied(old(Setting()), event)
      ensures Chans()[ch] == Unheard(tuning.filtLen)
      ensures mem == old(mem) || fresh(mem)
      ensures sincTable == old(sincTable) || fresh(sincTable)
    {
      hide Tuned, Coprime, IsGcd, ChannelsOf, Fits, Updated, RescaleAll, AllTogether, Unheard, Reduced;
      ghost var chans, den, n := Chans(), denRate, tuning.filtLen;
      EvenWindow();
      match event {
        case Quality(q) =>
          var ok := SetQuality(q);
        case Rate(num, den', newIn, newOut) =>
          ghost var f := SetRateFrac(num, den', newIn, newOut);
          ReducedIs(quality, num, den', f, numRate, denRate);
      }
      EvenWindow();
      StillUnheard(chans, den, denRate, n, tuning.filtLen, ch);
    }

    /** A whole life: any events on a resampler that has heard nothing.  Changes before the first input only
        choose the setting; from there on it is a session on the stream from its beginning. */
    method FromSilence(ch: nat, stream: seq<real>, events: seq<Event>)
      returns (outs: seq<real>, taken: nat, ghost lo: int, ghost log: seq<Emission>)
      requires Valid() && ch < nbChannels && !started && ValidEvents(events)
      requires Chans()[ch] == Unheard(tuning.filtLen)
      modifies this, lastSample, sampFracNum, magicSamples, mem, sincTable
      decreases |events|
      ensures Valid() && Setting() == Settled(old(Setting()), events)
      ensures var d := AtFirstInput(old(Setting()), events);
              var s, ops := Live(KernelOf(nm, d), Unheard(d.Length()), 0, 0), StepsOf(nm, d, FromFirstInput(events));
              && s.Valid(stream) && log == Log(stream, s, ops) && outs == Values(log)
              && LiveAt(ch, taken, lo) == Final(stream, s, ops)
              && OnTime(stream, log, s.Due(), Rounding(d.den, ops))
    {
      hide Represents, Tuned, Coprime, ChannelsOf, Fits, OnTime, Rounding, Time, CentrePos, Values, Log, Final, StepsOf;
      if events == [] || events[0].Input? {
        EvenWindow();
        SilentIsLive(Convolver(), stream);
        outs, taken, lo, log := Session(ch, stream, 0, 0, events);
      } else {
        SilentEvent(ch, events[0]);
        outs, taken, lo, log := FromSilence(ch, stream, events[1..]);
      }
    }

    /** The same from the first call on. */
    static method FromInit(nm: Numerics, channels: nat, ratioNum: nat, ratioDen: nat, newIn: nat, newOut: nat, q: int,
                           ch: nat, stream: seq<real>, events: seq<Event>)
      returns (err: int, outs: seq<real>, ghost log: seq<Emission>)
      requires 0 < ratioNum && 0 < ratioDen && ch < channels && ValidEvents(events)
      ensures err == if 0 <= q <= 10 then SUCCESS else INVALID_ARG
      ensures 0 <= q <= 10 ==>
                var d := AtFirstInput(Reduced(q, ratioNum, ratioDen), events);
                var s, ops := Live(KernelOf(nm, d), Unheard(d.Length()), 0, 0), StepsOf(nm, d, FromFirstInput(events));
                && s.Valid(stream) && log == Log(stream, s, ops) && outs == Values(log)
                && OnTime(stream, log, s.Due(), Rounding(d.den, ops))
    {
      hide Represents, Tuned, Coprime, ChannelsOf, Fits, OnTime, Rounding, Time, CentrePos, Values, Log, Final, StepsOf;
      outs, log := [], [];
      var st;
      st, err := InitFrac(nm, channels, ratioNum, ratioDen, newIn, newOut, q);
      if st != null {
        var taken;
        ghost var lo;
        outs, taken, lo, log := st.FromSilence(ch, stream, events);
      }
    }

    /** speex_resampler_skip_zeros. */
    method SkipZeros()
      requires Valid()
      modifies lastSample
      ensures Valid()
      ensures forall i :: 0 <= i < nbChannels ==> Chans()[i] == old(Chans()[i]).(last := tuning.filtLen / 2)
    {
      hide ChannelsOf, Tuned, Coprime;
      ghost var last := lastSample[..];
      for i := 0 to nbChannels
        invariant forall j :: 0 <= j < i ==> lastSample[j] == tuning.filtLen / 2
      {
        lastSample[i] := tuning.filtLen / 2;
      }
      forall i | 0 <= i < nbChannels
        ensures Chans()[i] == old(Chans()[i]).(last := tuning.filtLen / 2)
      {
        ReadChannel(mem[..], memAllocSize, tuning.filtLen, magicSamples[..], last, sampFracNum[..], i);
        ReadChannel(mem[..], memAllocSize, tuning.filtLen, magicSamples[..], lastSample[..], sampFracNum[..], i);
      }
    }

    /** speex_resampler_init_frac. */
    static method InitFrac(nm: Numerics, channels: nat, ratioNum: nat, ratioDen: nat, newIn: nat, newOut: nat, q: int)
      returns (st: State?, err: int)
      requires 0 < ratioNum && 0 < ratioDen
      ensures st != null <==> 0 <= q <= 10
      ensures err == if st == null then INVALID_ARG else SUCCESS
      ensures st != null ==>
                && fresh(st) && fresh(st.lastSample) && fresh(st.sampFracNum) && fresh(st.magicSamples)
                && fresh(st.mem) && fresh(st.sincTable) && st.nm == nm && st.Valid()
                && !st.started && st.nbChannels == channels && st.Setting() == Reduced(q, ratioNum, ratioDen)
                && forall i :: 0 <= i < channels ==> st.Chans()[i] == Channel(Zeros(st.tuning.filtLen - 1), [], 0, 0)
    {
      if q > 10 || q < 0 {
        return null, INVALID_ARG;
      }
      st := new State(nm, channels, ratioNum, ratioDen, newIn, newOut, q);
      err := SUCCESS;
    }

    /** The state that initialisation builds for a quality in range. */
    constructor (nm: Numerics, channels: nat, ratioNum: nat, ratioDen: nat, newIn: nat, newOut: nat, q: nat)
      requires 0 < ratioNum && 0 < ratioDen && q <= 10
      ensures Valid() && !started && this.nm == nm && nbChannels == channels
      ensures fresh(lastSample) && fresh(sampFracNum) && fresh(magicSamples) && fresh(mem) && fresh(sincTable)
      ensures Setting() == Reduced(q, ratioNum, ratioDen)
      ensures forall i :: 0 <= i < nbChannels ==> Chans()[i] == Channel(Zeros(tuning.filtLen - 1), [], 0, 0)
    {
      hide Coprime, IsGcd, TableFits, ChannelsOf, Design.Length, Design.Oversample;
      this.nm, nbChannels := nm, channels;
      inRate, outRate, quality, started := newIn, newOut, q, false;
      var num, den, f := ReduceRatio(ratioNum, ratioDen);
      numRate, denRate := num, den;
      ReducedRatio(ratioNum, ratioDen, f, num, den);
      lastSample := new nat[channels](_ => 0);
      sampFracNum := new nat[channels](_ => 0);
      magicSamples := new nat[channels](_ => 0);
      var d := Design(q, num, den);
      tuning := TuningOf(d);
      var table := FirstTable(nm, d);
      sincTable, sincTableLength := table, 0;
      var silent := SilentMemory(channels, d.Length() - 1);
      mem, memAllocSize := silent, d.Length() - 1;
      new;
      SilentAtStart(mem[..], tuning.filtLen, lastSample[..]);
      assert lastSample[..] == sampFracNum[..] == magicSamples[..];
    }
  }
}
