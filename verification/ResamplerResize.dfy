/** What a live change of filter length does to a channel, and what it leaves true of the stream. */
module ResamplerResize {
  import opened Division
  import opened ResamplerStream

  function Max(a: int, b: int): int {
    if a <= b then b else a
  }

  function Zeros(n: nat): (r: seq<real>)
    ensures |r| == n
  {
    seq(n, _ => 0.0)
  }

  /** The three branches of the memory update: grow past everything that is stored, grow into the
      queued samples, shrink. */
  function Resize(c: Channel, n: nat, n': nat): (r: Channel)
    requires 1 <= n && 1 <= n' && |c.hist| == n - 1 && n % 2 == n' % 2
    ensures |r.hist| == n' - 1
  {
    var m := |c.magic|;
    if n' > n then
      var stretched := n + 2 * m;
      var block := Zeros(m) + c.hist + c.magic;
      if n' > stretched then
        Channel(Zeros(n' - stretched) + block, [], c.last + (n' - stretched) / 2, c.frac)
      else
        var back := (stretched - n') / 2;
        Channel(block[back..back + n' - 1], block[back + n' - 1..], c.last, c.frac)
    else if n' < n then
      var extra := (n - n') / 2;
      var stored := c.hist + c.magic;
      Channel(stored[extra..extra + n' - 1], stored[extra + n' - 1..], c.last, c.frac)
    else
      c
  }

  /** Twice the distance from the last consumed sample back to the centre of the next window. */
  function Centre(c: Channel, n: nat): int {
    2 * c.last - 2 * |c.magic| - n
  }

  /** The window centre does not move. */
  lemma ResizeKeepsCentre(c: Channel, n: nat, n': nat)
    requires 1 <= n && 1 <= n' && |c.hist| == n - 1 && n % 2 == n' % 2
    ensures Centre(Resize(c, n, n'), n') == Centre(c, n)
    ensures Resize(c, n, n').frac == c.frac
  {}

  /** No stored sample is reordered or duplicated: growing puts zeros in front of everything stored,
      shrinking drops the oldest. */
  lemma ResizeKeepsSamples(c: Channel, n: nat, n': nat)
    requires 1 <= n && 1 <= n' && |c.hist| == n - 1 && n % 2 == n' % 2
    ensures var r := Resize(c, n, n');
            var z := |r.hist| + |r.magic| - |c.hist| - |c.magic|;
            if n <= n'
            then 0 <= z && r.hist + r.magic == Zeros(z) + (c.hist + c.magic)
            else z < 0 && r.hist + r.magic == (c.hist + c.magic)[-z..]
  {
    if n < n' {
      GrowKeepsSamples(c, n, n');
    } else if n == n' {
      assert Zeros(0) + (c.hist + c.magic) == c.hist + c.magic;
    }
  }

  lemma GrowKeepsSamples(c: Channel, n: nat, n': nat)
    requires 1 <= n < n' && |c.hist| == n - 1 && n % 2 == n' % 2
    ensures var r := Resize(c, n, n');
            var z := |r.hist| + |r.magic| - |c.hist| - |c.magic|;
            0 <= z && r.hist + r.magic == Zeros(z) + (c.hist + c.magic)
  {
    hide Zeros;
    var m, stretched := |c.magic|, n + 2 * |c.magic|;
    if n' > stretched {
      MoreZeros(n' - stretched, m, c.hist, c.magic);
    } else {
      var back := (stretched - n') / 2;
      FewerZeros(m, c.hist, c.magic, back, back + n' - 1);
    }
  }

  lemma MoreZeros(a: nat, b: nat, s: seq<real>, t: seq<real>)
    ensures Zeros(a) + (Zeros(b) + s + t) + [] == Zeros(a + b) + (s + t)
  {
    assert Zeros(a + b) == Zeros(a) + Zeros(b);
  }

  lemma SplitDrop(s: seq<real>, i: nat, j: nat)
    requires i <= j <= |s|
    ensures s[i..j] + s[j..] == s[i..]
  {}

  lemma FewerZeros(m: nat, s: seq<real>, t: seq<real>, i: nat, j: nat)
    requires i <= m && i <= j <= m + |s| + |t|
    ensures (Zeros(m) + s + t)[i..j] + (Zeros(m) + s + t)[j..] == Zeros(m - i) + (s + t)
  {
    var all := Zeros(m) + s + t;
    SplitDrop(all, i, j);
    assert Zeros(m)[i..] == Zeros(m - i);
    assert all[i..] == Zeros(m)[i..] + (s + t);
  }

  /** The room a channel needs never grows past what the new filter, or the old contents, needed. */
  lemma ResizeFits(c: Channel, n: nat, n': nat, room: nat)
    requires 1 <= n && 1 <= n' && |c.hist| == n - 1 && n % 2 == n' % 2
    requires n + 2 * |c.magic| <= room + 1 && n' <= room + 1
    ensures n' + 2 * |Resize(c, n, n').magic| <= room + 1
  {}

  // ---------------------------------------------------------------- the stream behind a channel

  /** Samples start .. start + len of a stream, with everything before lo, and outside the stream, silent. */
  function Masked(stream: seq<real>, lo: int, start: int, len: nat): (r: seq<real>)
    ensures |r| == len
  {
    seq(len, i => if 0 <= start + i < |stream| && lo <= start + i then stream[start + i] else 0.0)
  }

  /** Index, in the stream, of the oldest sample a channel stores. */
  function Base(c: Channel, n: nat, taken: nat): int {
    taken - |c.magic| - (n - 1)
  }

  /** After taken samples of the stream the channel holds the most recent ones, silent below lo. */
  ghost predicate Represents(c: Channel, n: nat, stream: seq<real>, taken: nat, lo: int) {
    1 <= n && |c.hist| == n - 1 && taken <= |stream| &&
    c.hist + c.magic == Masked(stream, lo, Base(c, n, taken), n - 1 + |c.magic|)
  }

  /** Position of the centre of the next window on the time axis of the stream, in den-ths. */
  function CentrePos(k: Kernel, c: Channel, taken: nat): int {
    c.Pos(k.den) + (Base(c, k.n, taken) + k.n / 2) * k.den
  }

  /** The reference for one output of a channel whose filter may change length: the kernel in force,
      centred at pos on the stream, hearing nothing older than lo. */
  function CentredOutput(k: Kernel, stream: seq<real>, lo: int, pos: int): real
    requires k.Valid()
  {
    k.tap(Masked(stream, lo, pos / k.den - k.n / 2, k.n), pos % k.den)
  }

  lemma MaskedSlice(stream: seq<real>, lo: int, start: int, len: nat, i: nat, j: nat)
    requires i <= j <= len
    ensures Masked(stream, lo, start, len)[i..j] == Masked(stream, lo, start + i, j - i)
  {}

  lemma MaskedAppend(stream: seq<real>, lo: int, start: int, len: nat, extra: nat)
    requires 0 <= start + len && lo <= start + len && start + len + extra <= |stream|
    ensures Masked(stream, lo, start, len) + stream[start + len..start + len + extra]
         == Masked(stream, lo, start, len + extra)
  {}

  /** Consuming input keeps the channel a view of the stream. */
  lemma FeedRepresents(k: Kernel, c: Channel, stream: seq<real>, taken: nat, lo: int, size: nat, cap: nat)
    requires c.Valid(k) && Represents(c, k.n, stream, taken, lo) && lo <= taken && taken + size <= |stream|
    ensures var r := Process(k, c, stream[taken..taken + size], cap);
            Represents(r.next, k.n, stream, taken + r.consumed, lo)
  {
    ProcessStreams(k, c, stream[taken..taken + size], cap);
    StreamsRepresents(k, c, stream, taken, lo, size, cap, Process(k, c, stream[taken..taken + size], cap));
  }

  lemma StreamsRepresents(k: Kernel, c: Channel, stream: seq<real>, taken: nat, lo: int, size: nat, cap: nat, r: Step)
    requires c.Valid(k) && Represents(c, k.n, stream, taken, lo) && lo <= taken && taken + size <= |stream|
    requires Streams(k, c, stream[taken..taken + size], cap, r)
    ensures Represents(r.next, k.n, stream, taken + r.consumed, lo)
  {
    hide Convolve, Count, Index;
    var chunk := stream[taken..taken + size];
    var used := |c.magic| - |r.next.magic| + r.consumed;
    var base, len := Base(c, k.n, taken), k.n - 1 + |c.magic|;
    MaskedAppend(stream, lo, base, len, size);
    PrefixOfRest(r.next.hist + r.next.magic, chunk[r.consumed..], c.hist + c.magic + chunk, used);
    MaskedSlice(stream, lo, base, len + size, used, used + k.n - 1 + |r.next.magic|);
  }

  lemma PrefixOfRest(kept: seq<real>, rest: seq<real>, all: seq<real>, used: nat)
    requires used <= |all| && kept + rest == all[used..]
    ensures used + |kept| <= |all| && kept == all[used..used + |kept|]
  {
    assert |all[used..]| == |kept| + |rest|;
    assert kept == (kept + rest)[..|kept|] == all[used..][..|kept|];
  }

  /** Every output of a call is the kernel centred on the stream, num den-ths after the one before. */
  lemma FeedOutputs(k: Kernel, c: Channel, stream: seq<real>, taken: nat, lo: int, size: nat, cap: nat, i: nat)
    requires c.Valid(k) && Represents(c, k.n, stream, taken, lo) && lo <= taken && taken + size <= |stream|
    requires i < |Process(k, c, stream[taken..taken + size], cap).outs|
    ensures Process(k, c, stream[taken..taken + size], cap).outs[i]
         == CentredOutput(k, stream, lo, CentrePos(k, c, taken) + i * k.num)
  {
    ProcessStreams(k, c, stream[taken..taken + size], cap);
    StreamsOutputs(k, c, stream, taken, lo, size, cap, Process(k, c, stream[taken..taken + size], cap), i);
  }

  lemma StreamsOutputs(k: Kernel, c: Channel, stream: seq<real>, taken: nat, lo: int, size: nat, cap: nat,
                       r: Step, i: nat)
    requires c.Valid(k) && Represents(c, k.n, stream, taken, lo) && lo <= taken && taken + size <= |stream|
    requires Streams(k, c, stream[taken..taken + size], cap, r) && i < |r.outs|
    ensures r.outs[i] == CentredOutput(k, stream, lo, CentrePos(k, c, taken) + i * k.num)
  {
    hide CentredOutput;
    var p, base, len := c.Pos(k.den), Base(c, k.n, taken), k.n - 1 + |c.magic|;
    CountExact(k, p, |c.magic| + size, i);
    MaskedAppend(stream, lo, base, len, size);
    MulNonneg(i, k.num);
    OutputCentred(k, stream, lo, base, len + size, Pos(k, p, i));
    assert CentrePos(k, c, taken) + i * k.num == Pos(k, p, i) + (base + k.n / 2) * k.den;
  }

  lemma OutputCentred(k: Kernel, stream: seq<real>, lo: int, base: int, len: nat, pos: nat)
    requires k.Valid() && pos / k.den + k.n <= len
    ensures OutputAt(k, Masked(stream, lo, base, len), pos)
         == CentredOutput(k, stream, lo, pos + (base + k.n / 2) * k.den)
  {
    var q := pos / k.den;
    MaskedSlice(stream, lo, base, len, q, q + k.n);
    ShiftUp(pos, k.den, base + k.n / 2);
  }

  lemma FeedMovesCentre(k: Kernel, c: Channel, stream: seq<real>, taken: nat, size: nat, cap: nat)
    requires c.Valid(k) && taken + size <= |stream|
    ensures var r := Process(k, c, stream[taken..taken + size], cap);
            CentrePos(k, r.next, taken + r.consumed) == CentrePos(k, c, taken) + |r.outs| * k.num
  {
    hide Convolve, Process, Index, Count;
    var chunk := stream[taken..taken + size];
    var r := Process(k, c, chunk, cap);
    ProcessStreams(k, c, chunk, cap);
    var used := |c.magic| - |r.next.magic| + r.consumed;
    Distribute(Base(c, k.n, taken) + k.n / 2, used, k.den);
  }

  /** What is still audible after a change of length: growing loses whatever was older than the old filter. */
  function AudibleFrom(c: Channel, n: nat, n': nat, taken: nat, lo: int): int {
    if n' > n then Max(lo, Base(c, n, taken)) else lo
  }

  lemma ResizeRepresents(c: Channel, n: nat, n': nat, stream: seq<real>, taken: nat, lo: int)
    requires Represents(c, n, stream, taken, lo) && 1 <= n' && n % 2 == n' % 2
    ensures Represents(Resize(c, n, n'), n', stream, taken, AudibleFrom(c, n, n', taken, lo))
  {
    ResizeKeepsSamples(c, n, n');
    var base, len := Base(c, n, taken), n - 1 + |c.magic|;
    var r := Resize(c, n, n');
    var z := |r.hist| + |r.magic| - len;
    hide Resize;
    if n < n' {
      MaskedBehindZeros(stream, lo, base, len, z);
    } else if n == n' {
      assert Zeros(0) + Masked(stream, lo, base, len) == Masked(stream, lo, base, len);
    } else {
      MaskedSlice(stream, lo, base, len, -z, len);
    }
  }

  /** Zeros in front of a view of a stream are a longer view that is silent there. */
  lemma MaskedBehindZeros(stream: seq<real>, lo: int, start: int, len: nat, z: nat)
    ensures Zeros(z) + Masked(stream, lo, start, len) == Masked(stream, Max(lo, start), start - z, len + z)
  {}

  /** The fraction of a sample, expressed in the new denominator, with the code's safety net. */
  function Rescaled(frac: nat, den: nat, den': nat): (r: nat)
    requires 0 < den && 0 < den'
    ensures r < den'
  {
    MulNonneg(frac, den');
    var f := frac * den' / den;
    if f >= den' then den' - 1 else f
  }

  /** The safety net is never used, and the new fraction is the old one rounded down: the position
      moves back by less than one step of the new grid, and not at all if the denominator stays. */
  lemma RescaledExact(frac: nat, den: nat, den': nat)
    requires frac < den && 0 < den'
    ensures Rescaled(frac, den, den') == frac * den' / den
    ensures Rescaled(frac, den, den') * den <= frac * den' < (Rescaled(frac, den, den') + 1) * den
    ensures den == den' ==> Rescaled(frac, den, den') == frac
  {
    MulMonotone(frac, den - 1, den');
    MulNonneg(frac, den');
    assert frac * den' < den' * den;
    Below(frac * den', den, den');
    Below(frac * den', den, frac * den' / den + 1);
    if den == den' {
      Unique(frac * den', den, frac, 0);
    }
  }
}
