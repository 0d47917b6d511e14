/** Sessions: calls and live changes of rate and filter, one after the other, on one channel. */
module ResamplerSession {
  import opened Division
  import opened ResamplerStream
  import opened ResamplerResize
  import opened ResamplerFilter

  /** What a user of one channel does: present input, or change the kernel, that is filter and ratio. */
  datatype Op = Feed(size: nat, cap: nat) | Retune(kernel: Kernel)

  /** A channel at work on a stream: how much of it was taken, and what is still audible. */
  datatype Live = Live(kernel: Kernel, chan: Channel, taken: nat, lo: int) {
    ghost predicate Valid(stream: seq<real>) {
      && chan.Valid(kernel) && kernel.n % 2 == 0
      && lo <= taken <= |stream|
      && Represents(chan, kernel.n, stream, taken, lo)
    }

    /** The time of the next output, in input samples. */
    function Due(): real
      requires kernel.Valid()
    {
      Time(CentrePos(kernel, chan, taken), kernel.den)
    }
  }

  /** A silent channel is at the start of any stream. */
  lemma SilentIsLive(k: Kernel, stream: seq<real>)
    requires k.Valid() && k.n % 2 == 0
    ensures Live(k, Channel(Zeros(k.n - 1), [], 0, 0), 0, 0).Valid(stream)
  {
    assert Zeros(k.n - 1) + [] == Masked(stream, 0, -(k.n - 1), k.n - 1);
  }

  /** One output, with the kernel that made it, where it is centred on the stream in parts of the kernel's
      denominator, and the oldest sample it could hear. */
  datatype Emission = Emission(value: real, kernel: Kernel, pos: int, lo: int)

  predicate ValidOp(op: Op) {
    op.Retune? ==> op.kernel.Valid() && op.kernel.n % 2 == 0
  }

  predicate ValidOps(ops: seq<Op>) {
    forall i :: 0 <= i < |ops| ==> ValidOp(ops[i])
  }

  predicate ValidLog(log: seq<Emission>) {
    forall i :: 0 <= i < |log| ==> log[i].kernel.Valid()
  }

  /** A position as a time in input samples. */
  function Time(pos: int, den: nat): real
    requires 0 < den
  {
    pos as real / den as real
  }

  function Emissions(outs: seq<real>, k: Kernel, pos: int, lo: int): (r: seq<Emission>)
    ensures |r| == |outs|
  {
    seq(|outs|, i requires 0 <= i < |outs| => Emission(outs[i], k, pos + i * k.num, lo))
  }

  function Values(log: seq<Emission>): (r: seq<real>)
    ensures |r| == |log|
  {
    seq(|log|, i requires 0 <= i < |log| => log[i].value)
  }

  lemma ValuesJoin(a: seq<Emission>, b: seq<Emission>)
    ensures Values(a + b) == Values(a) + Values(b)
  {}

  function FeedStep(stream: seq<real>, s: Live, size: nat, cap: nat): (r: Step)
    requires s.chan.Valid(s.kernel) && s.taken <= |stream|
    ensures r.next.Valid(s.kernel) && s.taken + r.consumed <= |stream|
  {
    Process(s.kernel, s.chan, stream[s.taken..s.taken + Min(size, |stream| - s.taken)], cap)
  }

  /** What a change of kernel does to a channel: the fraction goes to the new grid, then the length changes. */
  function Retuned(c: Channel, k: Kernel, k': Kernel): (r: Channel)
    requires c.Valid(k) && k'.Valid() && k.n % 2 == k'.n % 2
    ensures r.Valid(k')
  {
    Resize(c.(frac := Rescaled(c.frac, k.den, k'.den)), k.n, k'.n)
  }

  /** On the same grid only the length changes, and with the same kernel nothing. */
  lemma RetunedSameGrid(c: Channel, k: Kernel, k': Kernel)
    requires c.Valid(k) && k'.Valid() && k.n % 2 == k'.n % 2 && k.den == k'.den
    ensures Retuned(c, k, k') == Resize(c, k.n, k'.n)
    ensures k.n == k'.n ==> Retuned(c, k, k') == c
  {
    RescaledExact(c.frac, k.den, k'.den);
  }

  function Next(stream: seq<real>, s: Live, op: Op): Live
    requires s.chan.Valid(s.kernel) && s.kernel.n % 2 == 0 && s.taken <= |stream| && ValidOp(op)
  {
    match op
    case Feed(size, cap) =>
      var r := FeedStep(stream, s, size, cap);
      Live(s.kernel, r.next, s.taken + r.consumed, s.lo)
    case Retune(k) =>
      Live(k, Retuned(s.chan, s.kernel, k), s.taken, AudibleFrom(s.chan, s.kernel.n, k.n, s.taken, s.lo))
  }

  function Emit(stream: seq<real>, s: Live, op: Op): (log: seq<Emission>)
    requires s.chan.Valid(s.kernel) && s.taken <= |stream|
    ensures ValidLog(log)
  {
    match op
    case Feed(size, cap) =>
      Emissions(FeedStep(stream, s, size, cap).outs, s.kernel, CentrePos(s.kernel, s.chan, s.taken), s.lo)
    case Retune(_) => []
  }

  // ---------------------------------------------------------------- the ideal clock

  /** The time that the first outputs of a log should have taken: one step of the ratio then in force each. */
  function Elapsed(log: seq<Emission>, i: nat): real
    requires i <= |log| && ValidLog(log)
  {
    if i == 0 then 0.0 else Elapsed(log, i - 1) + Time(log[i - 1].kernel.num, log[i - 1].kernel.den)
  }

  /** What a change of kernel may cost: one step of the new grid, if the grid changes at all. */
  function Grain(den: nat, k: Kernel): real
    requires k.Valid()
  {
    if k.den == den then 0.0 else Time(1, k.den)
  }

  function Cost(den: nat, op: Op): (r: real)
    requires ValidOp(op)
    ensures 0.0 <= r
  {
    match op
    case Feed(_, _) => 0.0
    case Retune(k) => Grain(den, k)
  }

  /** What all changes of a session may cost together. */
  function Rounding(den: nat, ops: seq<Op>): (r: real)
    requires ValidOps(ops)
    ensures 0.0 <= r
    decreases |ops|
  {
    if ops == [] then 0.0 else
      Cost(den, ops[0]) + Rounding(if ops[0].Retune? then ops[0].kernel.den else den, ops[1..])
  }

  /** Every output of the log is its kernel centred on the stream, and late by nothing, early by no more
      than slack, against a clock that advances by the ratio in force at every output. */
  ghost predicate OnTime(stream: seq<real>, log: seq<Emission>, start: real, slack: real) {
    && ValidLog(log)
    && forall i :: 0 <= i < |log| ==>
         && log[i].value == CentredOutput(log[i].kernel, stream, log[i].lo, log[i].pos)
         && start + Elapsed(log, i) - slack <= Time(log[i].pos, log[i].kernel.den) <= start + Elapsed(log, i)
  }

  lemma TimeSum(a: int, b: int, den: nat)
    requires 0 < den
    ensures Time(a + b, den) == Time(a, den) + Time(b, den)
  {}

  lemma TimeOfWhole(q: int, den: nat)
    requires 0 < den
    ensures Time(q * den, den) == q as real
  {
    var d := den as real;
    assert (q * den) as real == q as real * d;
  }

  /** Fractions are ordered as their cross products. */
  lemma TimeOrder(a: int, b: nat, c: int, d: nat)
    requires 0 < b && 0 < d && a * d <= c * b
    ensures Time(a, b) <= Time(c, d)
  {
    var x, y, p, q := Time(a, b), Time(c, d), b as real, d as real;
    assert x * p == a as real && y * q == c as real;
    assert (a * d) as real == a as real * q && (c * b) as real == c as real * p;
    assert x * (p * q) <= y * (p * q) by {
      assert x * (p * q) == x * p * q && y * (p * q) == y * q * p;
    }
    if x > y {
      Scale(y, x, p * q);
    }
  }

  lemma TimeBefore(a: int, b: nat, c: int, d: nat)
    requires 0 < b && 0 < d && a * d < c * b
    ensures Time(a, b) < Time(c, d)
  {
    hide Time;
    TimeOrder(a, b, c, d);
    if Time(a, b) == Time(c, d) {
      TimeCross(a, b, c, d);
    }
  }

  lemma TimeCross(a: int, b: nat, c: int, d: nat)
    requires 0 < b && 0 < d && Time(a, b) == Time(c, d)
    ensures a * d == c * b
  {
    var x, p, q := Time(a, b), b as real, d as real;
    assert x * p == a as real && x * q == c as real;
    assert x * p * q == x * q * p;
    assert (a * d) as real == a as real * q && (c * b) as real == c as real * p;
  }

  lemma Scale(x: real, y: real, z: real)
    requires x < y && 0.0 < z
    ensures x * z < y * z
  {}

  lemma {:induction false} ElapsedSteady(outs: seq<real>, k: Kernel, pos: int, lo: int, i: nat)
    requires k.Valid() && i <= |outs|
    ensures Elapsed(Emissions(outs, k, pos, lo), i) == Time(i * k.num, k.den)
  {
    if i > 0 {
      ElapsedSteady(outs, k, pos, lo, i - 1);
      Distribute(i - 1, 1, k.num);
      TimeSum((i - 1) * k.num, k.num, k.den);
    } else {
      assert 0 * k.num == 0;
    }
  }

  lemma {:induction false} ElapsedJoin(a: seq<Emission>, b: seq<Emission>, i: nat)
    requires ValidLog(a) && ValidLog(b) && i <= |b|
    ensures Elapsed(a + b, |a| + i) == Elapsed(a, |a|) + Elapsed(b, i)
  {
    if i == 0 {
      ElapsedFront(a, b, |a|);
    } else {
      ElapsedJoin(a, b, i - 1);
    }
  }

  lemma {:induction false} ElapsedFront(a: seq<Emission>, b: seq<Emission>, i: nat)
    requires ValidLog(a) && ValidLog(b) && i <= |a|
    ensures Elapsed(a + b, i) == Elapsed(a, i)
  {
    if i > 0 {
      ElapsedFront(a, b, i - 1);
    }
  }

  // ---------------------------------------------------------------- one step

  lemma FeedOnTime(stream: seq<real>, s: Live, size: nat, cap: nat)
    requires s.Valid(stream)
    ensures OnTime(stream, Emit(stream, s, Feed(size, cap)), s.Due(), 0.0)
  {
    hide Process, Represents, CentrePos, CentredOutput, Time;
    var start, fed := CentrePos(s.kernel, s.chan, s.taken), Min(size, |stream| - s.taken);
    var outs := Process(s.kernel, s.chan, stream[s.taken..s.taken + fed], cap).outs;
    forall i | 0 <= i < |outs|
      ensures outs[i] == CentredOutput(s.kernel, stream, s.lo, start + i * s.kernel.num)
    {
      FeedOutputs(s.kernel, s.chan, stream, s.taken, s.lo, fed, cap, i);
    }
    SteadyOnTime(stream, outs, s.kernel, start, s.lo);
  }

  lemma SteadyOnTime(stream: seq<real>, outs: seq<real>, k: Kernel, pos: int, lo: int)
    requires k.Valid()
    requires forall i :: 0 <= i < |outs| ==> outs[i] == CentredOutput(k, stream, lo, pos + i * k.num)
    ensures OnTime(stream, Emissions(outs, k, pos, lo), Time(pos, k.den), 0.0)
  {
    hide CentredOutput, Time, Elapsed;
    var log := Emissions(outs, k, pos, lo);
    forall i | 0 <= i < |log|
      ensures Time(log[i].pos, k.den) == Time(pos, k.den) + Elapsed(log, i)
    {
      ElapsedSteady(outs, k, pos, lo, i);
      TimeSum(pos, i * k.num, k.den);
    }
  }

  lemma FeedStepValid(stream: seq<real>, s: Live, size: nat, cap: nat)
    requires s.Valid(stream)
    ensures var s', log := Next(stream, s, Feed(size, cap)), Emit(stream, s, Feed(size, cap));
            s'.Valid(stream) && s'.Due() == s.Due() + Elapsed(log, |log|)
  {
    hide Process, Represents, CentrePos, Time, Elapsed;
    var fed := Min(size, |stream| - s.taken);
    var outs := FeedStep(stream, s, size, cap).outs;
    FeedRepresents(s.kernel, s.chan, stream, s.taken, s.lo, fed, cap);
    FeedMovesCentre(s.kernel, s.chan, stream, s.taken, fed, cap);
    ElapsedSteady(outs, s.kernel, CentrePos(s.kernel, s.chan, s.taken), s.lo, |outs|);
    TimeSum(CentrePos(s.kernel, s.chan, s.taken), |outs| * s.kernel.num, s.kernel.den);
  }

  /** Where the next window is centred, as whole samples and a fraction. */
  lemma DueParts(k: Kernel, c: Channel, taken: nat)
    requires c.Valid(k)
    ensures Time(CentrePos(k, c, taken), k.den)
         == (c.last + Base(c, k.n, taken) + k.n / 2) as real + Time(c.frac, k.den)
  {
    hide Time;
    var whole := c.last + Base(c, k.n, taken) + k.n / 2;
    Distribute(c.last, Base(c, k.n, taken) + k.n / 2, k.den);
    assert CentrePos(k, c, taken) == whole * k.den + c.frac;
    TimeSum(whole * k.den, c.frac, k.den);
    TimeOfWhole(whole, k.den);
  }

  /** A change of kernel moves the next output back by less than one step of the new grid, and not at all if
      and only if the old fraction is a point of that grid. */
  lemma RetunedDue(k: Kernel, c: Channel, k': Kernel, taken: nat)
    requires c.Valid(k) && k'.Valid() && k.n % 2 == 0 && k'.n % 2 == 0
    ensures var due, due' := Time(CentrePos(k, c, taken), k.den), Time(CentrePos(k', Retuned(c, k, k'), taken), k'.den);
            && due - Time(1, k'.den) < due' <= due
            && (due' == due <==> c.frac * k'.den % k.den == 0)
  {
    hide Time, CentrePos, Resize;
    var f := Rescaled(c.frac, k.den, k'.den);
    RescaledExact(c.frac, k.den, k'.den);
    RetunedWhole(k, c, k', taken);
    DueParts(k, c, taken);
    DueParts(k', Retuned(c, k, k'), taken);
    TimeOrder(f, k'.den, c.frac, k.den);
    TimeBefore(c.frac, k.den, f + 1, k'.den);
    TimeSum(f, 1, k'.den);
    GridPoint(c.frac, k.den, k'.den);
  }

  /** The fraction rounded down is the fraction if and only if nothing is rounded. */
  lemma GridPoint(frac: nat, den: nat, den': nat)
    requires frac < den && 0 < den'
    ensures Time(Rescaled(frac, den, den'), den') == Time(frac, den) <==> frac * den' % den == 0
  {
    hide Time;
    var f := Rescaled(frac, den, den');
    RescaledExact(frac, den, den');
    assert frac * den' == f * den + frac * den' % den;
    if frac * den' % den == 0 {
      TimeOrder(f, den', frac, den);
      TimeOrder(frac, den, f, den');
    } else {
      TimeBefore(f, den', frac, den);
    }
  }

  /** A change that is not exact: half a sample is no point of a grid of thirds, so going from twice to three
      times the rate moves the next output from a half to a third. */
  lemma RateChangeEarly(nm: Numerics, taken: nat)
    ensures var k, k' := KernelOf(nm, Design(0, 1, 2)), KernelOf(nm, Design(0, 1, 3));
            var c := Channel(Zeros(7), [], 0, 1);
            && k.n == 8 && c.Valid(k) && Rescaled(1, 2, 3) == 1
            && Time(CentrePos(k', Retuned(c, k, k'), taken), 3) < Time(CentrePos(k, c, taken), 2)
  {
    hide KernelOf, Time, CentrePos, Retuned, Resize;
    assert KernelOf(nm, Design(0, 1, 2)).n == 8 && KernelOf(nm, Design(0, 1, 3)).n == 8;
    RetunedDue(KernelOf(nm, Design(0, 1, 2)), Channel(Zeros(7), [], 0, 1), KernelOf(nm, Design(0, 1, 3)), taken);
  }

  lemma RetunedWhole(k: Kernel, c: Channel, k': Kernel, taken: nat)
    requires c.Valid(k) && k'.Valid() && k.n % 2 == 0 && k'.n % 2 == 0
    ensures var r := Retuned(c, k, k');
            && r.frac == Rescaled(c.frac, k.den, k'.den)
            && r.last + Base(r, k'.n, taken) + k'.n / 2 == c.last + Base(c, k.n, taken) + k.n / 2
  {
    ResizeKeepsCentre(c.(frac := Rescaled(c.frac, k.den, k'.den)), k.n, k'.n);
  }

  lemma RetuneValid(stream: seq<real>, s: Live, k: Kernel)
    requires s.Valid(stream) && ValidOp(Retune(k))
    ensures var s' := Next(stream, s, Retune(k));
            && s'.Valid(stream)
            && s.Due() - Grain(s.kernel.den, k) <= s'.Due() <= s.Due()
  {
    RetunedDue(s.kernel, s.chan, k, s.taken);
    if k.den == s.kernel.den {
      Unique(s.chan.frac * k.den, k.den, s.chan.frac, 0);
    }
    ResizeRepresents(s.chan.(frac := Rescaled(s.chan.frac, s.kernel.den, k.den)), s.kernel.n, k.n, stream, s.taken,
                     s.lo);
  }

  // ---------------------------------------------------------------- whole sessions

  lemma OnTimeAppend(stream: seq<real>, a: seq<Emission>, b: seq<Emission>, start: real, next: real, grain: real,
                     slack: real)
    requires OnTime(stream, a, start, 0.0) && OnTime(stream, b, next, slack) && 0.0 <= grain && 0.0 <= slack
    requires start + Elapsed(a, |a|) - grain <= next <= start + Elapsed(a, |a|)
    ensures OnTime(stream, a + b, start, grain + slack)
  {
    hide CentredOutput, Time, Elapsed;
    var log := a + b;
    forall i | 0 <= i < |log|
      ensures log[i].value == CentredOutput(log[i].kernel, stream, log[i].lo, log[i].pos)
      ensures start + Elapsed(log, i) - (grain + slack) <= Time(log[i].pos,
                                                                log[i].kernel.den) <= start + Elapsed(log, i)
    {
      if i < |a| {
        ElapsedFront(a, b, i);
        assert log[i] == a[i];
      } else {
        ElapsedJoin(a, b, i - |a|);
        assert log[i] == b[i - |a|];
      }
    }
  }

  /** Where a session ends. */
  function Final(stream: seq<real>, s: Live, ops: seq<Op>): Live
    requires s.Valid(stream) && ValidOps(ops)
    decreases ops
  {
    if ops == [] then s else
      StepValid(stream, s, ops[0]);
      Final(stream, Next(stream, s, ops[0]), ops[1..])
  }

  /** A session is its first step and then the rest. */
  lemma FirstOfSession(stream: seq<real>, s: Live, op: Op, rest: seq<Op>)
    requires s.Valid(stream) && ValidOp(op) && ValidOps(rest)
    ensures Next(stream, s, op).Valid(stream) && ValidOps([op] + rest)
    ensures Final(stream, s, [op] + rest) == Final(stream, Next(stream, s, op), rest)
    ensures Values(Log(stream, s, [op] + rest)) == Values(Emit(stream, s, op)) + Values(Log(stream, Next(stream, s,
                                                                                                         op), rest))
  {
    hide Represents, Next, Emit, Values, ValidOp;
    StepValid(stream, s, op);
    assert ([op] + rest)[1..] == rest;
    ValuesJoin(Emit(stream, s, op), Log(stream, Next(stream, s, op), rest));
  }

  lemma NoSession(stream: seq<real>, s: Live)
    requires s.Valid(stream)
    ensures Final(stream, s, []) == s && Values(Log(stream, s, [])) == []
  {}

  lemma StepValid(stream: seq<real>, s: Live, op: Op)
    requires s.Valid(stream) && ValidOp(op)
    ensures Next(stream, s, op).Valid(stream)
  {
    match op
    case Feed(size, cap) => FeedStepValid(stream, s, size, cap);
    case Retune(k) => RetuneValid(stream, s, k);
  }

  lemma StepOnTime(stream: seq<real>, s: Live, op: Op)
    requires s.Valid(stream) && ValidOp(op)
    ensures var s', log := Next(stream, s, op), Emit(stream, s, op);
            && s'.Valid(stream) && OnTime(stream, log, s.Due(), 0.0)
            && s.Due() + Elapsed(log, |log|) - Cost(s.kernel.den, op) <= s'.Due() <= s.Due() + Elapsed(log, |log|)
            && s'.kernel.den == if op.Retune? then op.kernel.den else s.kernel.den
  {
    match op
    case Feed(size, cap) =>
      FeedOnTime(stream, s, size, cap);
      FeedStepValid(stream, s, size, cap);
    case Retune(k) =>
      RetuneValid(stream, s, k);
  }

  function Log(stream: seq<real>, s: Live, ops: seq<Op>): (log: seq<Emission>)
    requires s.Valid(stream) && ValidOps(ops)
    decreases ops
  {
    if ops == [] then [] else
      StepValid(stream, s, ops[0]);
      Emit(stream, s, ops[0]) + Log(stream, Next(stream, s, ops[0]), ops[1..])
  }

  /** No drift.  In any session of calls, filter changes and rate changes, every output is the kernel then
      in force, centred on the one input stream where a clock that advances by the ratio in force puts it.
      Changes of the filter alone are exact; each change of the ratio's denominator may put the later
      outputs early by less than one step of the new grid, and these steps are all that ever adds up. */
  lemma {:induction false} SessionOnTime(stream: seq<real>, s: Live, ops: seq<Op>)
    requires s.Valid(stream) && ValidOps(ops)
    ensures OnTime(stream, Log(stream, s, ops), s.Due(), Rounding(s.kernel.den, ops))
    decreases ops
  {
    hide Represents, CentrePos, CentredOutput, Next, Emit, Time, Elapsed, Grain;
    if ops != [] {
      hide OnTime;
      var op, rest := ops[0], ops[1..];
      var s', log := Next(stream, s, op), Emit(stream, s, op);
      StepValid(stream, s, op);
      SessionOnTime(stream, s', rest);
      StepOnTime(stream, s, op);
      OnTimeAppend(stream, log, Log(stream, s', rest), s.Due(), s'.Due(), Cost(s.kernel.den, op),
                   Rounding(s'.kernel.den, rest));
    }
  }
}
