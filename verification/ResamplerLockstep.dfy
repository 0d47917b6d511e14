/** Interleaved calls: each channel is offered only what the channel before it consumed.
    When do channels that start together stay together? */
module ResamplerLockstep {
  import opened Division
  import opened ResamplerStream
  import opened ResamplerResize
  import opened ResamplerFilter

  /** Equal in everything but the samples. */
  predicate Together(a: Channel, b: Channel) {
    a.last == b.last && a.frac == b.frac && |a.hist| == |b.hist| && |a.magic| == |b.magic|
  }

  predicate AllTogether(chans: seq<Channel>) {
    forall i :: 0 <= i < |chans| ==> Together(chans[0], chans[i])
  }

  predicate SameCounts(a: Step, b: Step) {
    |a.outs| == |b.outs| && a.consumed == b.consumed && Together(a.next, b.next)
  }

  /** The channel loop: the length argument is an in-out parameter that every channel's call overwrites,
      while the output capacity is reset for each. */
  function Interleave(k: Kernel, chans: seq<Channel>, inputs: seq<seq<real>>, len: nat, cap: nat): (r: seq<Step>)
    requires |inputs| == |chans|
    requires forall i :: 0 <= i < |chans| ==> chans[i].Valid(k) && len <= |inputs[i]|
    ensures |r| == |chans|
    ensures forall i :: 0 <= i < |chans| ==> r[i].next.Valid(k)
    decreases chans
  {
    if chans == [] then [] else
      var step := Process(k, chans[0], inputs[0][..len], cap);
      [step] + Interleave(k, chans[1..], inputs[1..], step.consumed, cap)
  }

  /** The condition on the first call: it is not stopped by its capacity, or it stops inside the queue of
      magic samples, or there is no room at all, or its last output did move the window by a whole sample. */
  predicate Clean(k: Kernel, p: nat, queued: nat, len: nat, cap: nat)
    requires k.Valid()
  {
    || Count(k, p, queued + len) <= cap
    || Index(k, p, cap) < queued
    || cap == 0
    || Index(k, p, cap - 1) < Index(k, p, cap)
  }

  /** What a call counts, as a function of position, queue length, input length and capacity. */
  ghost predicate Counts(k: Kernel, p: int, queued: nat, len: nat, cap: nat, r: Step)
    requires k.Valid()
  {
    var n := Min(cap, Count(k, p, queued + len));
    var used := Min(Index(k, p, n), queued + len);
    && |r.outs| == n
    && r.consumed == used - Min(used, queued)
    && |r.next.magic| == queued - Min(used, queued)
    && r.next.Pos(k.den) == Pos(k, p, n) - used * k.den
  }

  lemma ProcessCounts(k: Kernel, c: Channel, input: seq<real>, cap: nat)
    requires c.Valid(k)
    ensures Counts(k, c.Pos(k.den), |c.magic|, |input|, cap, Process(k, c, input, cap))
  {
    hide Process, Convolve, Count, Index;
    ProcessStreams(k, c, input, cap);
  }

  lemma SamePosition(k: Kernel, a: Channel, b: Channel)
    requires a.Valid(k) && b.Valid(k) && a.Pos(k.den) == b.Pos(k.den)
    ensures a.last == b.last && a.frac == b.frac
  {
    SameQuotient(k.den, a.last, a.frac, b.last, b.frac);
  }

  /** The arithmetic of a second call that is offered what the first consumed. */
  lemma SecondOffer(k: Kernel, p: nat, queued: nat, len: nat, cap: nat)
    requires k.Valid()
    ensures var n := Min(cap, Count(k, p, queued + len));
            var used := Min(Index(k, p, n), queued + len);
            var len' := used - Min(used, queued);
            var n' := Min(cap, Count(k, p, queued + len'));
            && (Clean(k, p, queued, len, cap) <==> n == n')
            && (n == n' ==> used == Min(Index(k, p, n'), queued + len'))
            && (n == n' ==> Clean(k, p, queued, len', cap))
            && 0 <= used && len' <= len
  {
    var total := queued + len;
    var n := Min(cap, Count(k, p, total));
    IndexNonneg(k, p, n);
    CountExact(k, p, total, n);
    if n == cap && cap < Count(k, p, total) {
      var used := Index(k, p, cap);
      var total' := if used < queued then queued else used;
      CountExact(k, p, total', cap);
      if cap > 0 {
        CountExact(k, p, total', cap - 1);
        IndexMonotone(k, p, cap - 1, cap);
      }
    }
  }

  lemma OfferCounts(k: Kernel, a: Channel, b: Channel, inA: seq<real>, inB: seq<real>, cap: nat)
    requires a.Valid(k) && b.Valid(k) && Together(a, b)
    requires |inB| == Process(k, a, inA, cap).consumed
    ensures SameCounts(Process(k, a, inA, cap), Process(k, b, inB, cap))
       <==> Clean(k, a.Pos(k.den), |a.magic|, |inA|, cap)
    ensures Clean(k, a.Pos(k.den), |a.magic|, |inA|, cap) ==> Clean(k, a.Pos(k.den), |a.magic|, |inB|, cap)
  {
    hide Process, Count, Index, Clean;
    ProcessCounts(k, a, inA, cap);
    ProcessCounts(k, b, inB, cap);
    SecondOffer(k, a.Pos(k.den), |a.magic|, |inA|, cap);
    if Clean(k, a.Pos(k.den), |a.magic|, |inA|, cap) {
      SamePosition(k, Process(k, a, inA, cap).next, Process(k, b, inB, cap).next);
    }
  }

  predicate AllSameCounts(steps: seq<Step>) {
    forall i :: 0 <= i < |steps| ==> SameCounts(steps[0], steps[i])
  }

  /** Channels that start together end an interleaved call together, with equal counts, if and only if
      the first channel's call is clean. */
  lemma {:induction false} Lockstep(k: Kernel, chans: seq<Channel>, inputs: seq<seq<real>>, len: nat, cap: nat)
    requires |chans| >= 2 && |inputs| == |chans| && AllTogether(chans)
    requires forall i :: 0 <= i < |chans| ==> chans[i].Valid(k) && len <= |inputs[i]|
    ensures AllSameCounts(Interleave(k, chans, inputs, len, cap))
       <==> Clean(k, chans[0].Pos(k.den), |chans[0].magic|, len, cap)
    decreases chans
  {
    hide Process, Clean, Count, Index;
    var first := Process(k, chans[0], inputs[0][..len], cap);
    var second := Process(k, chans[1], inputs[1][..first.consumed], cap);
    var steps := Interleave(k, chans, inputs, len, cap);
    var others := Interleave(k, chans[1..], inputs[1..], first.consumed, cap);
    assert steps == [first] + others && others[0] == second;
    OfferCounts(k, chans[0], chans[1], inputs[0][..len], inputs[1][..first.consumed], cap);
    if Clean(k, chans[0].Pos(k.den), |chans[0].magic|, len, cap) && |chans| > 2 {
      Lockstep(k, chans[1..], inputs[1..], first.consumed, cap);
      forall i | 0 <= i < |steps| ensures SameCounts(steps[0], steps[i]) {
        if 0 < i {
          assert steps[i] == others[i - 1] && SameCounts(others[0], others[i - 1]);
        }
      }
    } else if !Clean(k, chans[0].Pos(k.den), |chans[0].magic|, len, cap) {
      assert !SameCounts(steps[0], steps[1]);
    }
  }

  /** Down-sampling, or no rate change, always keeps the channels together. */
  lemma DownSamplingIsClean(k: Kernel, p: nat, queued: nat, len: nat, cap: nat)
    requires k.Valid() && k.den <= k.num
    ensures Clean(k, p, queued, len, cap)
  {
    if cap > 0 {
      assert Pos(k, p, cap) == Pos(k, p, cap - 1) + k.num;
      Monotone(Pos(k, p, cap - 1) + k.den, Pos(k, p, cap), k.den);
      ShiftUp(Pos(k, p, cap - 1), k.den, 1);
    }
  }

  /** So does a call in which the first channel takes all its input. */
  lemma ConsumingAllIsClean(k: Kernel, c: Channel, input: seq<real>, cap: nat)
    requires c.Valid(k) && Process(k, c, input, cap).consumed == |input|
    ensures Clean(k, c.Pos(k.den), |c.magic|, |input|, cap)
  {
    hide Process;
    ProcessCounts(k, c, input, cap);
    var p, total := c.Pos(k.den), |c.magic| + |input|;
    CountExact(k, p, total, Min(cap, Count(k, p, total)));
  }

  /** When up-sampling it can go wrong: twice the rate at the lowest quality, two samples in each channel,
      room for one output.  The first channel emits its output without consuming anything, so the second is
      offered nothing. */
  lemma UpSamplingSplitsChannels(nm: Numerics, x: real)
    ensures var k := KernelOf(nm, Design(0, 1, 2));
            var c := Channel(Zeros(7), [], 0, 0);
            && k.n == 8 && c.Valid(k)
            && var r := Interleave(k, [c, c], [[x, x], [x, x]], 2, 1);
               && |r[0].outs| == 1 && r[0].consumed == 0 && |r[1].outs| == 0
               && !Clean(k, 0, 0, 2, 1)
  {
    var k := KernelOf(nm, Design(0, 1, 2));
    var c := Channel(Zeros(7), [], 0, 0);
    hide Process, Clean, KernelOf;
    assert k.n == 8 && k.num == 1 && k.den == 2;
    ProcessCounts(k, c, [x, x][..2], 1);
    ProcessCounts(k, c, [x, x][..0], 1);
    OfferCounts(k, c, c, [x, x][..2], [x, x][..0], 1);
    assert c.Pos(2) == 0 && Index(k, 0, 1) == 0 && Count(k, 0, 2) == 4 && Count(k, 0, 0) == 0;
    assert [[x, x], [x, x]][1..] == [[x, x]] && [c, c][1..] == [c];
  }

  /** A change of filter length keeps channels together. */
  lemma ResizeTogether(a: Channel, b: Channel, n: nat, n': nat)
    requires 1 <= n && 1 <= n' && |a.hist| == n - 1 && n % 2 == n' % 2 && Together(a, b)
    ensures Together(Resize(a, n, n'), Resize(b, n, n'))
  {}

  /** What channel i is offered: the length given to the loop, or what the channel before it consumed. */
  function Offered(steps: seq<Step>, len: nat, i: nat): nat
    requires i <= |steps|
  {
    if i == 0 then len else steps[i - 1].consumed
  }

  /** The channel loop, channel by channel. */
  lemma {:induction false} InterleaveAt(k: Kernel, chans: seq<Channel>, inputs: seq<seq<real>>, len: nat, cap: nat,
                                        i: nat)
    requires |inputs| == |chans| && i < |chans|
    requires forall j :: 0 <= j < |chans| ==> chans[j].Valid(k) && len <= |inputs[j]|
    ensures var steps := Interleave(k, chans, inputs, len, cap);
            && Offered(steps, len, i) <= len
            && steps[i] == Process(k, chans[i], inputs[i][..Offered(steps, len, i)], cap)
            && steps[i].consumed <= Offered(steps, len, i)
    decreases chans
  {
    hide Process;
    var first := Process(k, chans[0], inputs[0][..len], cap);
    var steps := Interleave(k, chans, inputs, len, cap);
    var others := Interleave(k, chans[1..], inputs[1..], first.consumed, cap);
    assert steps == [first] + others;
    if i > 0 {
      InterleaveAt(k, chans[1..], inputs[1..], first.consumed, cap, i - 1);
    }
  }

  // ---------------------------------------------------------------- a clean call, channel by channel

  /** What is left over can be put apart by lengths alone. */
  lemma SameParts(a: seq<real>, b: seq<real>, a': seq<real>, b': seq<real>, rest: seq<real>)
    requires a + b + rest == a' + b' + rest && |a| == |a'| && |b| == |b'|
    ensures a == a' && b == b'
  {
    assert a == (a + b + rest)[..|a|] && a' == (a' + b' + rest)[..|a|];
    assert b == (a + b + rest)[|a|..|a| + |b|] && b' == (a' + b' + rest)[|a|..|a| + |b|];
  }

  /** A call that is offered less does the same if it counts the same. */
  lemma ShorterOffer(k: Kernel, c: Channel, input: seq<real>, short: nat, cap: nat)
    requires c.Valid(k) && short <= |input|
    requires SameCounts(Process(k, c, input, cap), Process(k, c, input[..short], cap))
    ensures Process(k, c, input, cap) == Process(k, c, input[..short], cap)
  {
    hide Process, Convolve, Count, Index;
    var a, b := Process(k, c, input, cap), Process(k, c, input[..short], cap);
    assert input == input[..short] + input[short..];
    CallOutputs(k, c, input, input[..short], input[short..], cap);
    CallRest(k, c, input, input[..short], input[short..], cap);
    assert input == input + [];
    CallOutputs(k, c, input, input, [], cap);
    CallRest(k, c, input, input, [], cap);
    SameParts(a.next.hist, a.next.magic, b.next.hist, b.next.magic, input[a.consumed..]);
  }

  /** A clean call does to every channel what a call on that channel alone would do with all of its input. */
  lemma Alone(k: Kernel, chans: seq<Channel>, inputs: seq<seq<real>>, len: nat, cap: nat, i: nat)
    requires |inputs| == |chans| && i < |chans| && AllTogether(chans)
    requires forall j :: 0 <= j < |chans| ==> chans[j].Valid(k) && len <= |inputs[j]|
    requires chans[0].Valid(k) && Clean(k, chans[0].Pos(k.den), |chans[0].magic|, len, cap)
    ensures Interleave(k, chans, inputs, len, cap)[i] == Process(k, chans[i], inputs[i][..len], cap)
  {
    hide Process, Clean, Count, Index, Interleave;
    var steps := Interleave(k, chans, inputs, len, cap);
    InterleaveAt(k, chans, inputs, len, cap, i);
    if i > 0 {
      var own := Process(k, chans[i], inputs[i][..len], cap);
      InterleaveAt(k, chans, inputs, len, cap, 0);
      Lockstep(k, chans, inputs, len, cap);
      ProcessCounts(k, chans[0], inputs[0][..len], cap);
      ProcessCounts(k, chans[i], inputs[i][..len], cap);
      SamePosition(k, steps[0].next, own.next);
      assert SameCounts(steps[0], steps[i]) && SameCounts(steps[0], own);
      assert inputs[i][..len][..Offered(steps, len, i)] == inputs[i][..Offered(steps, len, i)];
      ShorterOffer(k, chans[i], inputs[i][..len], Offered(steps, len, i), cap);
    }
  }

  predicate SameLength(inputs: seq<seq<real>>) {
    forall i :: 0 <= i < |inputs| ==> |inputs[i]| == |inputs[0]|
  }

  /** Streams with their first samples taken. */
  function Behind(inputs: seq<seq<real>>, taken: nat): (r: seq<seq<real>>)
    requires SameLength(inputs) && (inputs != [] ==> taken <= |inputs[0]|)
    ensures |r| == |inputs| && SameLength(r)
  {
    seq(|inputs|, i requires 0 <= i < |inputs| => inputs[i][taken..])
  }

  /** The channels after their calls. */
  function Nexts(steps: seq<Step>): (r: seq<Channel>)
    ensures |r| == |steps|
  {
    seq(|steps|, i requires 0 <= i < |steps| => steps[i].next)
  }

  ghost predicate Startable(k: Kernel, chans: seq<Channel>, inputs: seq<seq<real>>) {
    && chans != [] && |inputs| == |chans| && SameLength(inputs)
    && forall i :: 0 <= i < |chans| ==> chans[i].Valid(k)
  }

  /** One interleaved call of a run. */
  function CallTogether(k: Kernel, chans: seq<Channel>, inputs: seq<seq<real>>, call: Call): (r: seq<Step>)
    requires Startable(k, chans, inputs)
    ensures |r| == |chans| && forall i :: 0 <= i < |r| ==> r[i].next.Valid(k)
    ensures r[|r| - 1].consumed <= |inputs[0]|
  {
    var len := Min(call.size, |inputs[0]|);
    InterleaveAt(k, chans, inputs, len, call.cap, |chans| - 1);
    Interleave(k, chans, inputs, len, call.cap)
  }

  /** A run of interleaved calls as seen from one channel.  The caller goes by the counts that come back, which
      are the last channel's: every stream moves on by as many samples, and as many outputs are used. */
  function RunTogether(k: Kernel, chans: seq<Channel>, inputs: seq<seq<real>>, calls: seq<Call>, i: nat): RunResult
    requires Startable(k, chans, inputs) && i < |chans|
    decreases calls
  {
    if calls == [] then RunResult([], inputs[i], chans[i]) else
      var steps := CallTogether(k, chans, inputs, calls[0]);
      var last := steps[|steps| - 1];
      var r := RunTogether(k, Nexts(steps), Behind(inputs, last.consumed), calls[1..], i);
      RunResult(steps[i].outs[..Min(|last.outs|, |steps[i].outs|)] + r.outs, r.rest, r.next)
  }

  /** Every call of the run is clean. */
  ghost predicate CleanRun(k: Kernel, chans: seq<Channel>, inputs: seq<seq<real>>, calls: seq<Call>)
    requires Startable(k, chans, inputs)
    decreases calls
  {
    calls == [] ||
    (var steps := CallTogether(k, chans, inputs, calls[0]);
     && Clean(k, chans[0].Pos(k.den), |chans[0].magic|, Min(calls[0].size, |inputs[0]|), calls[0].cap)
     && CleanRun(k, Nexts(steps), Behind(inputs, steps[|steps| - 1].consumed), calls[1..]))
  }

  /** In a clean call the counts that come back are those of every channel, and the channels stay together. */
  lemma CleanCall(k: Kernel, chans: seq<Channel>, inputs: seq<seq<real>>, call: Call, i: nat)
    requires Startable(k, chans, inputs) && AllTogether(chans) && i < |chans|
    requires Clean(k, chans[0].Pos(k.den), |chans[0].magic|, Min(call.size, |inputs[0]|), call.cap)
    ensures var steps := CallTogether(k, chans, inputs, call);
            && steps[i] == Process(k, chans[i], Presented(inputs[i], call), call.cap)
            && steps[i].consumed == steps[|steps| - 1].consumed && |steps[i].outs| == |steps[|steps| - 1].outs|
            && AllTogether(Nexts(steps))
  {
    hide Process, Clean, Interleave;
    var steps := CallTogether(k, chans, inputs, call);
    Alone(k, chans, inputs, Min(call.size, |inputs[0]|), call.cap, i);
    if |chans| > 1 {
      Lockstep(k, chans, inputs, Min(call.size, |inputs[0]|), call.cap);
      assert SameCounts(steps[0], steps[i]) && SameCounts(steps[0], steps[|steps| - 1]);
    }
  }

  /** In a run of clean interleaved calls every channel does what a run on its own stream would do: no channel
      feels the others. */
  lemma {:induction false} RunAlone(k: Kernel, chans: seq<Channel>, inputs: seq<seq<real>>, calls: seq<Call>, i: nat)
    requires Startable(k, chans, inputs) && AllTogether(chans) && i < |chans| && CleanRun(k, chans, inputs, calls)
    ensures RunTogether(k, chans, inputs, calls, i) == Run(k, chans[i], inputs[i], calls)
    decreases calls
  {
    hide Process, Clean, CallTogether, AllTogether;
    if calls != [] {
      var steps := CallTogether(k, chans, inputs, calls[0]);
      CleanCall(k, chans, inputs, calls[0], i);
      RunAlone(k, Nexts(steps), Behind(inputs, steps[|steps| - 1].consumed), calls[1..], i);
      assert steps[i].outs[..|steps[i].outs|] == steps[i].outs;
    }
  }

  /** In a call that is not clean the first channel fills its output, and all the others, offered what it
      consumed, stop short of that: they emit only the outputs whose window moved.  The counts that come back
      are theirs, so the first channel's outputs behind are lost, and it is out of step by as many. */
  lemma {:induction false} Unclean(k: Kernel, chans: seq<Channel>, inputs: seq<seq<real>>, len: nat, cap: nat, i: nat)
    requires |inputs| == |chans| && 0 < i < |chans| && AllTogether(chans)
    requires forall j :: 0 <= j < |chans| ==> chans[j].Valid(k) && len <= |inputs[j]|
    requires chans[0].Valid(k) && !Clean(k, chans[0].Pos(k.den), |chans[0].magic|, len, cap)
    ensures var p, queued := chans[0].Pos(k.den), |chans[0].magic|;
            var steps, used := Interleave(k, chans, inputs, len, cap), Index(k, p, cap);
            && queued <= used && |steps[0].outs| == cap && Count(k, p, used) < cap
            && |steps[i].outs| == Count(k, p, used)
            && steps[i].consumed == steps[0].consumed == used - queued
            && steps[0].next.Pos(k.den) - steps[i].next.Pos(k.den) == (cap - Count(k, p, used)) * k.num
  {
    hide Process, Clean, Count, Index, Interleave;
    var p, queued := chans[0].Pos(k.den), |chans[0].magic|;
    var steps, used := Interleave(k, chans, inputs, len, cap), Index(k, p, cap);
    NotClean(k, p, queued, len, cap);
    InterleaveAt(k, chans, inputs, len, cap, 0);
    InterleaveAt(k, chans, inputs, len, cap, i);
    ProcessCounts(k, chans[0], inputs[0][..len], cap);
    if i > 1 {
      Unclean(k, chans, inputs, len, cap, i - 1);
    }
    assert Offered(steps, len, i) == used - queued;
    ProcessCounts(k, chans[i], inputs[i][..used - queued], cap);
    Distribute(cap - Count(k, p, used), Count(k, p, used), k.num);
  }

  lemma NotClean(k: Kernel, p: nat, queued: nat, len: nat, cap: nat)
    requires k.Valid() && !Clean(k, p, queued, len, cap)
    ensures var used := Index(k, p, cap);
            && queued <= used < queued + len && cap < Count(k, p, queued + len) && Count(k, p, used) < cap
            && used <= Index(k, p, Count(k, p, used))
  {
    var used := Index(k, p, cap);
    CountExact(k, p, queued + len, cap);
    IndexMonotone(k, p, cap - 1, cap);
    CountExact(k, p, used, cap - 1);
    CountExact(k, p, used, Count(k, p, used));
  }
}
