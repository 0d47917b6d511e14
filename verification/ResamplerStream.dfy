/** The resampler seen as a function on whole streams, independent of how a stream is cut into calls.

    A kernel is a window length, a reduced ratio num/den of input to output rate, and a function
    from a window of n samples and a sub-sample phase to one output sample.  Nothing here uses a law
    of arithmetic on samples, so the results hold for every kernel and every rounding. */
module ResamplerStream {
  import opened Division

  datatype Kernel = Kernel(n: nat, num: nat, den: nat, tap: (seq<real>, int) -> real) {
    predicate Valid() {
      1 <= n && 1 <= num && 1 <= den
    }
  }

  /** One channel: the last n-1 samples consumed, the queue of samples that a shorter filter left
      unread, and the position of the next window (whole samples and den-ths). */
  datatype Channel = Channel(hist: seq<real>, magic: seq<real>, last: nat, frac: nat) {
    predicate Valid(k: Kernel) {
      k.Valid() && |hist| == k.n - 1 && frac < k.den
    }

    function Pos(den: nat): nat {
      MulNonneg(last, den);
      last * den + frac
    }
  }

  /** Position of output i of a run that starts at position p, in den-ths of an input sample. */
  function Pos(k: Kernel, p: int, i: int): int {
    p + i * k.num
  }

  /** Index, in the stream, of the first sample under the window of output i. */
  function Index(k: Kernel, p: int, i: int): int
    requires k.Valid()
  {
    Pos(k, p, i) / k.den
  }

  /** How many outputs have their window at an index below t. */
  function Count(k: Kernel, p: int, t: int): nat
    requires k.Valid()
  {
    if t * k.den <= p then 0 else (t * k.den - p + k.num - 1) / k.num
  }

  /** The output whose window is at position pos of the stream xs. */
  function OutputAt(k: Kernel, xs: seq<real>, pos: int): real
    requires k.Valid()
  {
    var q := pos / k.den;
    if 0 <= q && q + k.n <= |xs| then k.tap(xs[q..q + k.n], pos % k.den) else 0.0
  }

  /** The reference: the first count outputs of one convolution over the whole stream. */
  function Convolve(k: Kernel, xs: seq<real>, p: int, count: nat): (r: seq<real>)
    requires k.Valid()
    ensures |r| == count
  {
    seq(count, i => OutputAt(k, xs, Pos(k, p, i)))
  }

  // ---------------------------------------------------------------- counting outputs

  lemma CountExact(k: Kernel, p: int, t: int, i: nat)
    requires k.Valid()
    ensures i < Count(k, p, t) <==> Index(k, p, i) < t
  {
    Below(Pos(k, p, i), k.den, t);
    if t * k.den <= p {
      MulNonneg(i, k.num);
    } else {
      var a := t * k.den - p + k.num - 1;
      // i < a / num  iff  (i + 1) * num <= a  iff  p + i * num < t * den
      Below(a, k.num, i + 1);
      assert (i + 1) * k.num == i * k.num + k.num;
    }
  }

  lemma IndexMonotone(k: Kernel, p: int, i: int, j: int)
    requires k.Valid() && i <= j
    ensures Index(k, p, i) <= Index(k, p, j)
  {
    MulMonotone(i, j, k.num);
    Monotone(Pos(k, p, i), Pos(k, p, j), k.den);
  }

  lemma IndexNonneg(k: Kernel, p: int, i: nat)
    requires k.Valid() && 0 <= p
    ensures 0 <= Index(k, p, i)
  {
    MulNonneg(i, k.num);
  }

  /** Restarting after i outputs and c consumed samples. */
  lemma Restart(k: Kernel, p: int, i: int, c: int, j: int)
    requires k.Valid()
    ensures Pos(k, Pos(k, p, i) - c * k.den, j) == Pos(k, p, i + j) - c * k.den
    ensures Index(k, Pos(k, p, i) - c * k.den, j) == Index(k, p, i + j) - c
  {
    assert (i + j) * k.num == i * k.num + j * k.num;
    Shift(Pos(k, p, i + j), k.den, c);
  }

  lemma OutputShift(k: Kernel, xs: seq<real>, c: nat, pos: int)
    requires k.Valid() && c <= |xs| && c * k.den <= pos
    ensures OutputAt(k, xs[c..], pos - c * k.den) == OutputAt(k, xs, pos)
  {
    Shift(pos, k.den, c);
    Below(pos, k.den, c);
    var q := pos / k.den;
    if q + k.n <= |xs| {
      assert xs[c..][q - c..q - c + k.n] == xs[q..q + k.n];
    }
  }

  lemma OutputPrefix(k: Kernel, xs: seq<real>, ys: seq<real>, pos: int)
    requires k.Valid() && 0 <= pos && pos / k.den + k.n <= |xs|
    ensures OutputAt(k, xs + ys, pos) == OutputAt(k, xs, pos)
  {
    var q := pos / k.den;
    assert (xs + ys)[q..q + k.n] == xs[q..q + k.n];
  }

  /** Convolving what is left of a stream, from where the first i outputs stopped, continues the convolution. */
  lemma ConvolveRest(k: Kernel, xs: seq<real>, p: int, i: nat, c: nat, j: nat)
    requires k.Valid() && c <= |xs| && 0 <= p && c * k.den <= Pos(k, p, i)
    ensures Convolve(k, xs, p, i + j)
         == Convolve(k, xs, p, i) + Convolve(k, xs[c..], Pos(k, p, i) - c * k.den, j)
  {
    var p' := Pos(k, p, i) - c * k.den;
    forall m | 0 <= m < j
      ensures Convolve(k, xs[c..], p', j)[m] == Convolve(k, xs, p, i + j)[i + m]
    {
      Restart(k, p, i, c, m);
      MulNonneg(m, k.num);
      OutputShift(k, xs, c, Pos(k, p, i + m));
    }
  }

  /** Samples past the last window do not matter. */
  lemma ConvolvePrefix(k: Kernel, xs: seq<real>, ys: seq<real>, p: int, t: nat, count: nat)
    requires k.Valid() && 0 <= p && |xs| == k.n - 1 + t && count <= Count(k, p, t)
    ensures Convolve(k, xs + ys, p, count) == Convolve(k, xs, p, count)
  {
    forall i | 0 <= i < count
      ensures Convolve(k, xs + ys, p, count)[i] == Convolve(k, xs, p, count)[i]
    {
      CountExact(k, p, t, i);
      MulNonneg(i, k.num);
      OutputPrefix(k, xs, ys, Pos(k, p, i));
    }
  }

  lemma CountMonotone(k: Kernel, p: int, s: int, t: int)
    requires k.Valid() && s <= t
    ensures Count(k, p, s) <= Count(k, p, t)
  {
    var n := Count(k, p, t);
    CountExact(k, p, t, n);
    CountExact(k, p, s, n);
  }

  /** Counting on after i outputs and c consumed samples. */
  lemma CountRest(k: Kernel, p: int, i: nat, c: int, t: int)
    requires k.Valid() && i <= Count(k, p, c + t)
    ensures Count(k, Pos(k, p, i) - c * k.den, t) == Count(k, p, c + t) - i
  {
    var p' := Pos(k, p, i) - c * k.den;
    var n, n' := Count(k, p, c + t), Count(k, p', t);
    if n' < n - i {
      CountExact(k, p', t, n');
      CountExact(k, p, c + t, i + n');
      Restart(k, p, i, c, n');
    } else if n - i < n' {
      CountExact(k, p', t, n - i);
      CountExact(k, p, c + t, n);
      Restart(k, p, i, c, n - i);
    }
  }

  /** A run over m samples that is not stopped by cap, followed by a run over t more, counted as one. */
  lemma TwoRuns(k: Kernel, p: int, m: nat, t: nat, cap: nat)
    requires k.Valid() && Count(k, p, m) <= cap
    ensures var n1 := Count(k, p, m);
            var p2 := Pos(k, p, n1) - m * k.den;
            var n2 := Min(cap - n1, Count(k, p2, t));
            var used := Min(Index(k, p2, n2), t);
            && n1 + n2 == Min(cap, Count(k, p, m + t))
            && m + used == Min(Index(k, p, n1 + n2), m + t)
            && Pos(k, p2, n2) - used * k.den == Pos(k, p, n1 + n2) - (m + used) * k.den
  {
    var n1 := Count(k, p, m);
    var p2 := Pos(k, p, n1) - m * k.den;
    var n2 := Min(cap - n1, Count(k, p2, t));
    CountMonotone(k, p, m, m + t);
    CountRest(k, p, n1, m, t);
    Restart(k, p, n1, m, n2);
    Distribute(m, Min(Index(k, p2, n2), t), k.den);
  }

  // ---------------------------------------------------------------- one call

  /** What one call returns: the outputs, the number of input samples taken, the channel afterwards. */
  datatype Step = Step(outs: seq<real>, consumed: nat, next: Channel)

  /** The kernel loop and history update on one block of input; the magic queue is left alone. */
  function Basic(k: Kernel, c: Channel, input: seq<real>, cap: nat): (r: Step)
    requires c.Valid(k)
    ensures r.consumed <= |input| && |r.outs| <= cap && r.next.Valid(k) && r.next.magic == c.magic
  {
    var p := c.Pos(k.den);
    var n := Min(cap, Count(k, p, |input|));
    IndexNonneg(k, p, n);
    var last := Index(k, p, n);
    var used := Min(last, |input|);
    var xs := c.hist + input;
    Step(Convolve(k, xs, p, n), used,
         Channel(xs[used..used + k.n - 1], c.magic, last - used, Pos(k, p, n) % k.den))
  }

  /** A whole call: first the queued samples, then the input with what is left of the capacity. */
  function Process(k: Kernel, c: Channel, input: seq<real>, cap: nat): (r: Step)
    requires c.Valid(k)
    ensures r.consumed <= |input| && |r.outs| <= cap && r.next.Valid(k)
  {
    if c.magic == [] then
      Basic(k, c, input, cap)
    else
      var first := Basic(k, c.(magic := []), c.magic, cap);
      var second := Basic(k, first.next, input, cap - |first.outs|);
      Step(first.outs + second.outs, second.consumed,
           second.next.(magic := c.magic[first.consumed..]))
  }

  lemma BasicPosition(k: Kernel, c: Channel, input: seq<real>, cap: nat)
    requires c.Valid(k)
    ensures var r := Basic(k, c, input, cap);
            r.next.Pos(k.den) == Pos(k, c.Pos(k.den), |r.outs|) - r.consumed * k.den
  {
    var r := Basic(k, c, input, cap);
    NextPosition(Pos(k, c.Pos(k.den), |r.outs|), k.den, r.consumed);
  }

  /** A position less whole samples, as a quotient less those samples and the same remainder. */
  lemma NextPosition(q: int, den: nat, used: int)
    requires 0 < den
    ensures (q / den - used) * den + q % den == q - used * den
  {
    assert q == q / den * den + q % den;
    Distribute(q / den, -used, den);
  }

  /** What a call does to the stream hist ++ magic ++ input, said without splitting it: it emits the next
      outputs of the convolution, as many as fit in cap and have a window that starts below the end,
      and drops from the front the samples that lie before the next window. */
  ghost predicate Streams(k: Kernel, c: Channel, input: seq<real>, cap: nat, r: Step) {
    c.Valid(k) && r.next.Valid(k) && r.consumed <= |input| &&
    var p := c.Pos(k.den);
    var xs := c.hist + c.magic + input;
    var total := |c.magic| + |input|;
    var n := Min(cap, Count(k, p, total));
    var used := Min(Index(k, p, n), total);
    && 0 <= used
    && r.outs == Convolve(k, xs, p, n)
    && r.next.Pos(k.den) == Pos(k, p, n) - used * k.den
    && r.next.hist + r.next.magic + input[r.consumed..] == xs[used..]
    && |c.magic| - |r.next.magic| == Min(used, |c.magic|)
    && r.consumed == used - Min(used, |c.magic|)
  }

  lemma BasicStreams(k: Kernel, c: Channel, input: seq<real>, cap: nat)
    requires c.Valid(k) && c.magic == []
    ensures Streams(k, c, input, cap, Basic(k, c, input, cap))
  {
    BasicPosition(k, c, input, cap);
    var p := c.Pos(k.den);
    var n := Min(cap, Count(k, p, |input|));
    IndexNonneg(k, p, n);
    assert c.hist + c.magic + input == c.hist + input;
    var r := Basic(k, c, input, cap);
    assert r.next.hist + r.next.magic + input[r.consumed..] == (c.hist + input)[r.consumed..];
  }

  lemma QueueNotEmptied(k: Kernel, c: Channel, input: seq<real>, cap: nat)
    requires c.Valid(k) && c.magic != []
    requires cap < Count(k, c.Pos(k.den), |c.magic|)
    ensures Streams(k, c, input, cap, Process(k, c, input, cap))
  {
    hide OutputAt;
    var p, m := c.Pos(k.den), |c.magic|;
    var c0 := c.(magic := []);
    var first := Basic(k, c0, c.magic, cap);
    var used := Index(k, p, cap);
    BasicStreams(k, c0, c.magic, cap);
    CountExact(k, p, m, cap);
    CountMonotone(k, p, m, m + |input|);
    IndexNonneg(k, p, cap);
    assert first.consumed == used < m && first.next.last == 0;
    var p2 := first.next.Pos(k.den);
    Restart(k, p, cap, used, 0);
    var second := Basic(k, first.next, input, 0);
    assert second.outs == [] && second.consumed == 0;
    assert (first.next.hist + input)[..k.n - 1] == first.next.hist;
    assert second.next.Pos(k.den) == p2 by { BasicPosition(k, first.next, input, 0); }
    var xs := c.hist + c.magic + input;
    ConvolvePrefix(k, c.hist + c.magic, input, p, m, cap);
    assert first.outs + [] == first.outs;
    assert first.next.hist + c.magic[used..] == (c.hist + c.magic)[used..];
    assert (c.hist + c.magic)[used..] + input == xs[used..];
  }

  /** Where the two halves of a call stand when the queue runs empty. */
  lemma QueueEmptiedCounts(k: Kernel, c: Channel, input: seq<real>, cap: nat, first: Step, second: Step)
    requires c.Valid(k) && Count(k, c.Pos(k.den), |c.magic|) <= cap
    requires first == Basic(k, c.(magic := []), c.magic, cap)
    requires second == Basic(k, first.next, input, cap - |first.outs|)
    ensures var p, m := c.Pos(k.den), |c.magic|;
            var n := Min(cap, Count(k, p, m + |input|));
            && |first.outs| == Count(k, p, m) && first.consumed == m && first.next.magic == []
            && first.next.Pos(k.den) == Pos(k, p, |first.outs|) - m * k.den
            && |first.outs| + |second.outs| == n
            && m + second.consumed == Min(Index(k, p, n), m + |input|)
            && second.next.Pos(k.den) == Pos(k, p, n) - (m + second.consumed) * k.den
  {
    var p, m := c.Pos(k.den), |c.magic|;
    CountExact(k, p, m, Count(k, p, m));
    BasicPosition(k, c.(magic := []), c.magic, cap);
    BasicPosition(k, first.next, input, cap - |first.outs|);
    TwoRuns(k, p, m, |input|, cap);
  }

  lemma QueueEmptiedOutputs(k: Kernel, c: Channel, input: seq<real>, cap: nat, first: Step, second: Step)
    requires c.Valid(k) && Count(k, c.Pos(k.den), |c.magic|) <= cap
    requires first == Basic(k, c.(magic := []), c.magic, cap)
    requires second == Basic(k, first.next, input, cap - |first.outs|)
    ensures first.outs + second.outs
         == Convolve(k, c.hist + c.magic + input, c.Pos(k.den), |first.outs| + |second.outs|)
    ensures second.next.hist + input[second.consumed..]
         == (c.hist + c.magic + input)[|c.magic| + second.consumed..]
  {
    hide OutputAt, Count;
    var p, m, n1 := c.Pos(k.den), |c.magic|, |first.outs|;
    var xs := c.hist + c.magic + input;
    QueueEmptiedCounts(k, c, input, cap, first, second);
    assert first.next.hist == (c.hist + c.magic)[m..];
    assert first.next.hist + input == xs[m..];
    MulNonneg(first.next.last, k.den);
    ConvolveRest(k, xs, p, n1, m, |second.outs|);
    ConvolvePrefix(k, c.hist + c.magic, input, p, m, n1);
    assert second.next.hist + input[second.consumed..] == (first.next.hist + input)[second.consumed..];
  }

  lemma QueueEmptied(k: Kernel, c: Channel, input: seq<real>, cap: nat)
    requires c.Valid(k) && c.magic != []
    requires Count(k, c.Pos(k.den), |c.magic|) <= cap
    ensures Streams(k, c, input, cap, Process(k, c, input, cap))
  {
    hide Count, Index, OutputAt;
    var first := Basic(k, c.(magic := []), c.magic, cap);
    var second := Basic(k, first.next, input, cap - |first.outs|);
    QueueEmptiedCounts(k, c, input, cap, first, second);
    QueueEmptiedOutputs(k, c, input, cap, first, second);
    var r := Process(k, c, input, cap);
    assert r.next.hist + r.next.magic + input[r.consumed..] == second.next.hist + input[second.consumed..];
  }

  /** A call treats the queue of magic samples and the new input as one uninterrupted stream:
      queued samples are used once, in order, and before any new sample, also when the output
      fills up part-way through the queue. */
  lemma ProcessStreams(k: Kernel, c: Channel, input: seq<real>, cap: nat)
    requires c.Valid(k)
    ensures Streams(k, c, input, cap, Process(k, c, input, cap))
  {
    if c.magic == [] {
      BasicStreams(k, c, input, cap);
    } else {
      var c0 := c.(magic := []);
      var first := Basic(k, c0, c.magic, cap);
      BasicStreams(k, c0, c.magic, cap);
      BasicStreams(k, first.next, input, cap - |first.outs|);
      CountMonotone(k, c.Pos(k.den), |c.magic|, |c.magic| + |input|);
      CountExact(k, c.Pos(k.den), |c.magic|, |first.outs|);
      if cap < Count(k, c.Pos(k.den), |c.magic|) {
        QueueNotEmptied(k, c, input, cap);
      } else {
        QueueEmptied(k, c, input, cap);
      }
    }
  }

  // ---------------------------------------------------------------- runs of calls

  /** One call: how many of the remaining samples are presented, and how many outputs there is room for. */
  datatype Call = Call(size: nat, cap: nat)

  /** The outputs of a run in order, the input not yet taken, and the channel afterwards. */
  datatype RunResult = RunResult(outs: seq<real>, rest: seq<real>, next: Channel)

  function Presented(input: seq<real>, call: Call): seq<real> {
    input[..Min(call.size, |input|)]
  }

  /** Calls one after the other; what a call does not consume is presented again to the next. */
  function Run(k: Kernel, c: Channel, input: seq<real>, calls: seq<Call>): (r: RunResult)
    requires c.Valid(k)
    ensures |r.rest| <= |input| && r.next.Valid(k)
    decreases calls
  {
    if calls == [] then
      RunResult([], input, c)
    else
      var step := Process(k, c, Presented(input, calls[0]), calls[0].cap);
      var r := Run(k, step.next, input[step.consumed..], calls[1..]);
      RunResult(step.outs + r.outs, r.rest, r.next)
  }

  /** How many samples a run moved out of the stream magic ++ input. */
  function Used(c: Channel, input: seq<real>, r: RunResult): int {
    |c.magic| + |input| - |r.next.magic| - |r.rest|
  }

  /** The state of a stream after some outputs: they are the convolution of the whole stream, what is
      left is the stream without its first used samples, and the position has moved by exactly num per output. */
  ghost predicate Streamed(k: Kernel, c: Channel, input: seq<real>, r: RunResult) {
    c.Valid(k) && r.next.Valid(k) &&
    var p, xs, used := c.Pos(k.den), c.hist + c.magic + input, Used(c, input, r);
    && 0 <= used <= |c.magic| + |input|
    && |r.outs| <= Count(k, p, |c.magic| + |input|)
    && r.outs == Convolve(k, xs, p, |r.outs|)
    && r.next.hist + r.next.magic + r.rest == xs[used..]
    && r.next.Pos(k.den) == Pos(k, p, |r.outs|) - used * k.den
  }

  /** What is left of a stream, when more of the stream follows. */
  lemma RestOn(kept: seq<real>, chunk: seq<real>, i: nat, stored: seq<real>, j: nat, later: seq<real>)
    requires i <= |chunk| && j <= |stored| + |chunk| && kept + chunk[i..] == (stored + chunk)[j..]
    ensures kept + (chunk + later)[i..] == (stored + (chunk + later))[j..]
  {
    assert (chunk + later)[i..] == chunk[i..] + later;
    assert stored + (chunk + later) == (stored + chunk) + later;
    assert ((stored + chunk) + later)[j..] == (stored + chunk)[j..] + later;
  }

  lemma CallOutputs(k: Kernel, c: Channel, input: seq<real>, chunk: seq<real>, later: seq<real>, cap: nat)
    requires c.Valid(k) && input == chunk + later
    ensures var outs := Process(k, c, chunk, cap).outs;
            && |outs| <= Count(k, c.Pos(k.den), |c.magic| + |input|)
            && outs == Convolve(k, c.hist + c.magic + input, c.Pos(k.den), |outs|)
  {
    var p, m := c.Pos(k.den), |c.magic|;
    ProcessStreams(k, c, chunk, cap);
    CountMonotone(k, p, m + |chunk|, m + |input|);
    ConvolvePrefix(k, c.hist + c.magic + chunk, later, p, m + |chunk|, |Process(k, c, chunk, cap).outs|);
    assert c.hist + c.magic + chunk + later == c.hist + c.magic + input;
  }

  lemma CallRest(k: Kernel, c: Channel, input: seq<real>, chunk: seq<real>, later: seq<real>, cap: nat)
    requires c.Valid(k) && input == chunk + later
    ensures var step := Process(k, c, chunk, cap);
            var used := |c.magic| - |step.next.magic| + step.consumed;
            && 0 <= used <= |c.magic| + |chunk|
            && step.next.hist + step.next.magic + input[step.consumed..] == (c.hist + c.magic + input)[used..]
            && step.next.Pos(k.den) == Pos(k, c.Pos(k.den), |step.outs|) - used * k.den
  {
    hide Process, Convolve, Count, Index;
    var step := Process(k, c, chunk, cap);
    ProcessStreams(k, c, chunk, cap);
    var used := |c.magic| - |step.next.magic| + step.consumed;
    RestOn(step.next.hist + step.next.magic, chunk, step.consumed, c.hist + c.magic, used, later);
  }

  lemma CallStreamed(k: Kernel, c: Channel, input: seq<real>, call: Call)
    requires c.Valid(k)
    ensures var step := Process(k, c, Presented(input, call), call.cap);
            Streamed(k, c, input, RunResult(step.outs, input[step.consumed..], step.next))
  {
    var chunk := Presented(input, call);
    var later := input[|chunk|..];
    CallOutputs(k, c, input, chunk, later, call.cap);
    CallRest(k, c, input, chunk, later, call.cap);
  }

  lemma StreamedThen(k: Kernel, c: Channel, input: seq<real>, first: RunResult, second: RunResult)
    requires Streamed(k, c, input, first) && Streamed(k, first.next, first.rest, second)
    ensures Streamed(k, c, input, RunResult(first.outs + second.outs, second.rest, second.next))
  {
    var p, xs, u1 := c.Pos(k.den), c.hist + c.magic + input, Used(c, input, first);
    var u2 := Used(first.next, first.rest, second);
    var n1, n2 := |first.outs|, |second.outs|;
    MulNonneg(first.next.last, k.den);
    ConvolveRest(k, xs, p, n1, u1, n2);
    CountRest(k, p, n1, u1, |xs| - (k.n - 1) - u1);
    Restart(k, p, n1, u1, n2);
    Distribute(u1, u2, k.den);
    assert xs[u1..][u2..] == xs[u1 + u2..];
  }

  /** The streaming theorem.  However the input is cut into calls, whatever the output capacities, and with
      unconsumed input presented again, the outputs in order are the first outputs of one convolution over
      the whole stream, no sample is lost or used twice, and the position never drifts. */
  lemma {:induction false} Streaming(k: Kernel, c: Channel, input: seq<real>, calls: seq<Call>)
    requires c.Valid(k)
    ensures Streamed(k, c, input, Run(k, c, input, calls))
    decreases calls
  {
    if calls == [] {
      assert (c.hist + c.magic + input)[0..] == c.hist + c.magic + input;
    } else {
      var step := Process(k, c, Presented(input, calls[0]), calls[0].cap);
      CallStreamed(k, c, input, calls[0]);
      Streaming(k, step.next, input[step.consumed..], calls[1..]);
      StreamedThen(k, c, input, RunResult(step.outs, input[step.consumed..], step.next),
                   Run(k, step.next, input[step.consumed..], calls[1..]));
    }
  }

  /** Two ways of cutting the same stream into calls never disagree: the one that produced less
      produced a prefix of what the other did. */
  lemma SplitIndependence(k: Kernel, c: Channel, input: seq<real>, calls: seq<Call>, calls': seq<Call>)
    requires c.Valid(k)
    requires |Run(k, c, input, calls).outs| <= |Run(k, c, input, calls').outs|
    ensures Run(k, c, input, calls).outs <= Run(k, c, input, calls').outs
    ensures Run(k, c, input, calls').outs
         <= Convolve(k, c.hist + c.magic + input, c.Pos(k.den), Count(k, c.Pos(k.den), |c.magic| + |input|))
  {
    Streaming(k, c, input, calls);
    Streaming(k, c, input, calls');
  }

  /** No call of the run is stopped by its output capacity. */
  ghost predicate OutputNeverLimits(k: Kernel, c: Channel, input: seq<real>, calls: seq<Call>)
    requires c.Valid(k)
    decreases calls
  {
    calls != [] ==>
      var chunk := Presented(input, calls[0]);
      var step := Process(k, c, chunk, calls[0].cap);
      && Count(k, c.Pos(k.den), |c.magic| + |chunk|) <= calls[0].cap
      && OutputNeverLimits(k, step.next, input[step.consumed..], calls[1..])
  }

  lemma CallCount(k: Kernel, c: Channel, input: seq<real>, chunk: seq<real>, cap: nat)
    requires c.Valid(k) && chunk <= input && Count(k, c.Pos(k.den), |c.magic| + |chunk|) <= cap
    ensures var step := Process(k, c, chunk, cap);
            && step.next.magic == [] && step.consumed == |chunk|
            && |step.outs| == Count(k, c.Pos(k.den), |c.magic| + |chunk|)
            && step.next.Pos(k.den) == Pos(k, c.Pos(k.den), |step.outs|) - (|c.magic| + |chunk|) * k.den
  {
    var p, total := c.Pos(k.den), |c.magic| + |chunk|;
    ProcessStreams(k, c, chunk, cap);
    CountExact(k, p, total, Count(k, p, total));
  }

  /** While output is never the limit, the number of outputs is a function of the number of samples
      consumed alone: the number of window positions p, p + num, p + 2 num, ... below used * den. */
  lemma {:induction false} OutputCount(k: Kernel, c: Channel, input: seq<real>, calls: seq<Call>)
    requires c.Valid(k) && calls != [] && OutputNeverLimits(k, c, input, calls)
    ensures var r := Run(k, c, input, calls);
            && r.next.magic == []
            && |r.outs| == Count(k, c.Pos(k.den), Used(c, input, r))
    decreases calls
  {
    hide Process, Count;
    var chunk := Presented(input, calls[0]);
    var step := Process(k, c, chunk, calls[0].cap);
    CallCount(k, c, input, chunk, calls[0].cap);
    var rest := input[step.consumed..];
    if calls[1..] != [] {
      OutputCount(k, step.next, rest, calls[1..]);
      var r := Run(k, step.next, rest, calls[1..]);
      assert Run(k, c, input, calls) == RunResult(step.outs + r.outs, r.rest, r.next);
      assert Used(c, input, Run(k, c, input, calls)) == |c.magic| + |chunk| + Used(step.next, rest, r);
      CountTwice(k, c.Pos(k.den), |c.magic| + |chunk|, Used(step.next, rest, r));
    }
  }

  lemma CountTwice(k: Kernel, p: int, t: nat, u: nat)
    requires k.Valid()
    ensures Count(k, p, t + u) == Count(k, p, t) + Count(k, Pos(k, p, Count(k, p, t)) - t * k.den, u)
  {
    CountMonotone(k, p, t, t + u);
    CountRest(k, p, Count(k, p, t), t, u);
  }
}
