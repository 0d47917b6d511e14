/** The virtual down-mixer: five surround channels are filtered into two, over a ring buffer of the last
    samples of each channel. */
module Downmix {
  import opened Buffers
  import opened Division

  /** The two builds of the plugin. */
  datatype Build = Default | Powerful

  datatype Tap = Tap(delay: nat, weight: int)

  function Filter(filter: nat): seq<Tap>
    requires filter < 5
  {
    match filter
    case 0 =>
      [Tap(0, -758), Tap(1, 1053), Tap(2, -6569), Tap(3, 28341), Tap(4, -6569), Tap(5, 1053), Tap(6, -758),
       Tap(71, -228), Tap(72, 302), Tap(73, -2022), Tap(74, 9438), Tap(75, -2022), Tap(76, 302), Tap(77, -228),
       Tap(265, -923), Tap(266, 3809), Tap(267, -923), Tap(395, 1130)]
    case 1 =>
      [Tap(8, 207), Tap(9, 2683), Tap(10, 3287), Tap(11, 1459), Tap(12, 2137), Tap(13, 175), Tap(80, 907),
       Tap(81, 1108), Tap(82, 536), Tap(83, 705), Tap(268, 1419), Tap(275, 194), Tap(397, 189), Tap(398, 488),
       Tap(506, -340), Tap(507, 1590), Tap(508, -340)]
    case 2 =>
      [Tap(3, 16384), Tap(125, 298), Tap(126, 3489), Tap(127, 298), Tap(193, -301), Tap(194, 3513),
       Tap(195, -301), Tap(454, 266), Tap(483, -361), Tap(484, 1688), Tap(485, -361)]
    case 3 =>
      [Tap(5, 459), Tap(6, 2501), Tap(7, 4478), Tap(8, 512), Tap(9, 1331), Tap(10, 454), Tap(11, 359),
       Tap(12, 1535), Tap(13, 1061), Tap(14, 217), Tap(128, 583), Tap(129, 1505), Tap(130, 183), Tap(131, 290),
       Tap(135, 266), Tap(200, 438), Tap(201, 167), Tap(202, 392), Tap(203, 473), Tap(445, -188),
       Tap(446, 1506), Tap(447, -188), Tap(484, -175), Tap(485, 1097), Tap(486, -175)]
    case _ =>
      [Tap(0, -530), Tap(1, 651), Tap(2, -4834), Tap(3, 25398), Tap(4, -4834), Tap(5, 651), Tap(6, -530),
       Tap(51, -212), Tap(52, 261), Tap(53, -1941), Tap(54, 10201), Tap(55, -1941), Tap(56, 261),
       Tap(57, -212), Tap(333, -663), Tap(334, 2863), Tap(335, -663), Tap(339, 223), Tap(340, 360),
       Tap(342, 166), Tap(343, 186)]
  }

  const TAP_INDEX: seq<seq<nat>> := [[0, 1], [1, 0], [2, 3], [3, 2], [4, 4]]

  function UsedTaps(build: Build, filter: nat): nat
    requires filter < 5
  {
    match build
    case Default => [14, 10, 1, 10, 7][filter]
    case Powerful => [18, 17, 11, 25, 21][filter]
  }

  function RingSize(build: Build): nat {
    match build
    case Default => 128
    case Powerful => 512
  }

  /** The taps from a channel to an output. */
  function Taps(build: Build, ch: nat, idx: nat): (taps: seq<Tap>)
    requires ch < 5 && idx < 2
  {
    var filter := TAP_INDEX[ch][idx];
    Filter(filter)[..UsedTaps(build, filter)]
  }

  /** Every tap in use reaches back less than the size of the ring buffer, and no two taps of a filter
      reach back the same. */
  lemma TapsWithinRing(build: Build, ch: nat, idx: nat)
    requires ch < 5 && idx < 2
    ensures forall i :: 0 <= i < |Taps(build, ch, idx)| ==> Taps(build, ch, idx)[i].delay < RingSize(build)
    ensures forall i, j :: 0 <= i < j < |Taps(build, ch, idx)| ==>
              Taps(build, ch, idx)[i].delay != Taps(build, ch, idx)[j].delay
  {
    hide Filter, UsedTaps, RingSize;
    var filter, taps := TAP_INDEX[ch][idx], Taps(build, ch, idx);
    LastTap(build, filter);
    forall i, j | 0 <= i < j < |taps| ensures taps[i].delay < taps[j].delay {
      Ascending(filter, i, j);
    }
  }

  /** The taps of every filter are listed by delay. */
  lemma Ascending(filter: nat, i: nat, j: nat)
    requires filter < 5 && i < j < |Filter(filter)|
    ensures Filter(filter)[i].delay < Filter(filter)[j].delay
    decreases j
  {
    hide Filter;
    NextTap(filter, j - 1);
    if i < j - 1 {
      Ascending(filter, i, j - 1);
    }
  }

  lemma NextTap(filter: nat, i: nat)
    requires filter < 5 && i + 1 < |Filter(filter)|
    ensures Filter(filter)[i].delay < Filter(filter)[i + 1].delay
  {
    match filter
    case 0 =>
    case 1 =>
    case 2 =>
    case 3 =>
    case 4 =>
  }

  lemma LastTap(build: Build, filter: nat)
    requires filter < 5
    ensures 0 < UsedTaps(build, filter) <= |Filter(filter)|
    ensures Filter(filter)[UsedTaps(build, filter) - 1].delay < RingSize(build)
  {}

  /** A sample of a stream, silence outside it. */
  function At(x: seq<int>, t: int): int {
    if 0 <= t < |x| then x[t] else 0
  }

  /** The first taps of a filter, applied to a stream at a time. */
  function FilterSum(taps: seq<Tap>, count: nat, x: seq<int>, t: int): int
    requires count <= |taps|
  {
    if count == 0 then 0 else
      FilterSum(taps, count - 1, x, t) + At(x, t - taps[count - 1].delay) * taps[count - 1].weight
  }

  /** The filters of the first channels, together. */
  function MixSum(build: Build, idx: nat, xs: seq<seq<int>>, channels: nat, t: int): int
    requires idx < 2 && channels <= |xs| && channels <= 5
  {
    if channels == 0 then 0 else
      var taps := Taps(build, channels - 1, idx);
      MixSum(build, idx, xs, channels - 1, t) + FilterSum(taps, |taps|, xs[channels - 1], t)
  }

  lemma EmptyMix(build: Build, xs: seq<seq<int>>, t: int)
    ensures MixSum(build, 0, xs, 0, t) == MixSum(build, 1, xs, 0, t) == 0
  {}

  function Clip(v: int): int {
    if v < -32768 then -32768 else if v > 32767 then 32767 else v
  }

  /** Clipping gives the 16-bit sample nearest to a value, and no other is as near. */
  lemma ClipNearest(v: int, w: int)
    requires -32768 <= w <= 32767
    ensures -32768 <= Clip(v) <= 32767
    ensures Abs(Clip(v) - v) <= Abs(w - v) && (w != Clip(v) ==> Abs(Clip(v) - v) < Abs(w - v))
  {}

  /** The reference: what output idx is at a time, from the whole streams. */
  function Output(build: Build, idx: nat, xs: seq<seq<int>>, t: int): int
    requires idx < 2 && |xs| <= 5
  {
    Clip(MixSum(build, idx, xs, |xs|, t) / 16384)
  }

  /** The place d steps before another in the ring. */
  function Back(pos: nat, d: nat, size: nat): (p: nat)
    requires pos < size && d <= size
    ensures p < size
  {
    if d <= pos then pos - d else pos + size - d
  }

  lemma Masked(pos: nat, d: nat, size: nat)
    requires pos < size && d <= size
    ensures (pos + size - d) % size == Back(pos, d, size)
  {
    if d <= pos {
      Unique(pos + size - d, size, 1, pos - d);
    } else {
      Unique(pos + size - d, size, 0, pos + size - d);
    }
  }

  /** Column ch of the ring holds the samples of a stream before time n, the newest behind pos. */
  ghost predicate Holds(rbuf: array2<int>, pos: nat, ch: nat, x: seq<int>, n: nat)
    reads rbuf
  {
    && pos < rbuf.Length0 && ch < rbuf.Length1
    && forall d :: 1 <= d <= rbuf.Length0 ==> rbuf[Back(pos, d, rbuf.Length0), ch] == At(x, n - d)
  }

  /** The same with the sample of time n stored at pos. */
  ghost predicate HoldsNow(rbuf: array2<int>, pos: nat, ch: nat, x: seq<int>, n: nat)
    reads rbuf
  {
    && pos < rbuf.Length0 && ch < rbuf.Length1
    && forall d :: 0 <= d < rbuf.Length0 ==> rbuf[Back(pos, d, rbuf.Length0), ch] == At(x, n - d)
  }

  lemma Advance(rbuf: array2<int>, pos: nat, ch: nat, x: seq<int>, n: nat)
    requires HoldsNow(rbuf, pos, ch, x, n)
    ensures Holds(rbuf, (pos + 1) % rbuf.Length0, ch, x, n + 1)
  {
    var size := rbuf.Length0;
    var next := if pos + 1 < size then pos + 1 else 0;
    Unique(pos + 1, size, if pos + 1 < size then 0 else 1, next);
    forall d | 1 <= d <= size ensures rbuf[Back(next, d, size), ch] == At(x, n + 1 - d) {
      assert Back(next, d, size) == Back(pos, d - 1, size);
    }
  }

  lemma HoldsMore(rbuf: array2<int>, pos: nat, ch: nat, x: seq<int>, more: seq<int>, n: nat)
    requires Holds(rbuf, pos, ch, x, n) && x <= more && n <= |x|
    ensures Holds(rbuf, pos, ch, more, n)
  {
    forall d | 1 <= d <= rbuf.Length0 ensures rbuf[Back(pos, d, rbuf.Length0), ch] == At(more, n - d) {
      assert At(more, n - d) == At(x, n - d);
    }
  }

  /** What an output is over a stretch of time. */
  function Outputs(build: Build, idx: nat, xs: seq<seq<int>>, from: nat, count: nat): (out: seq<int>)
    requires idx < 2 && |xs| <= 5
    ensures |out| == count
  {
    seq(count, k requires 0 <= k < count => Output(build, idx, xs, from + k))
  }

  lemma OutputsJoin(build: Build, idx: nat, xs: seq<seq<int>>, from: nat, count: nat)
    requires idx < 2 && |xs| <= 5
    ensures Outputs(build, idx, xs, 0, from) + Outputs(build, idx, xs, from, count)
            == Outputs(build, idx, xs, 0, from + count)
  {}

  /** Later samples do not change earlier outputs. */
  lemma OutputsKept(build: Build, idx: nat, xs: seq<seq<int>>, more: seq<seq<int>>, n: nat)
    requires idx < 2 && |xs| == |more| <= 5
    requires forall ch :: 0 <= ch < |xs| ==> n <= |xs[ch]| && xs[ch] <= more[ch]
    ensures Outputs(build, idx, xs, 0, n) == Outputs(build, idx, more, 0, n)
  {
    hide MixSum;
    forall k | 0 <= k < n ensures Outputs(build, idx, xs, 0, n)[k] == Outputs(build, idx, more, 0, n)[k] {
      MixKept(build, idx, xs, more, |xs|, k);
    }
  }

  lemma {:induction false} MixKept(build: Build, idx: nat, xs: seq<seq<int>>, more: seq<seq<int>>, channels: nat,
                                   t: nat)
    requires idx < 2 && channels <= |xs| == |more| <= 5
    requires forall ch :: 0 <= ch < |xs| ==> t < |xs[ch]| && xs[ch] <= more[ch]
    ensures MixSum(build, idx, xs, channels, t) == MixSum(build, idx, more, channels, t)
  {
    hide Taps;
    if channels > 0 {
      var taps := Taps(build, channels - 1, idx);
      MixKept(build, idx, xs, more, channels - 1, t);
      FilterKept(taps, |taps|, xs[channels - 1], more[channels - 1], t);
    }
  }

  lemma {:induction false} FilterKept(taps: seq<Tap>, count: nat, x: seq<int>, more: seq<int>, t: nat)
    requires count <= |taps| && t < |x| && x <= more
    ensures FilterSum(taps, count, x, t) == FilterSum(taps, count, more, t)
  {
    if count > 0 {
      FilterKept(taps, count - 1, x, more, t);
      assert At(x, t - taps[count - 1].delay) == At(more, t - taps[count - 1].delay);
    }
  }

  class Mixer {
    const build: Build
    const channels: nat
    const rbuf: array2<int>
    var curpos: nat

    /** The streams of the channels since the plugin was initialised, and their length. */
    ghost var fed: seq<seq<int>>
    ghost var time: nat

    ghost predicate Shaped()
      reads this
    {
      && rbuf.Length0 == RingSize(build) && rbuf.Length1 == 5 && channels <= 5 && curpos < RingSize(build)
    }

    ghost predicate Valid()
      reads this, rbuf
    {
      && Shaped() && |fed| == channels
      && forall ch :: 0 <= ch < channels ==> |fed[ch]| == time && Holds(rbuf, curpos, ch, fed[ch], time)
    }

    /** vdownmix_init: a sixth channel is ignored. */
    constructor (build: Build, channels: nat)
      ensures Valid() && time == 0 && this.build == build && this.channels == if channels > 5 then 5 else channels
      ensures fresh(rbuf)
    {
      this.build := build;
      this.channels := if channels > 5 then 5 else channels;
      curpos := 0;
      rbuf := new int[RingSize(build), 5]((i, j) => 0);
      fed := seq(if channels > 5 then 5 else channels, _ => []);
      time := 0;
    }

    /** The innermost loop. */
    method ApplyFilter(ch: nat, idx: nat, acc: int, ghost x: seq<int>, ghost n: nat) returns (sum: int)
      requires Shaped() && ch < 5 && idx < 2 && HoldsNow(rbuf, curpos, ch, x, n)
      ensures sum == acc + FilterSum(Taps(build, ch, idx), |Taps(build, ch, idx)|, x, n)
    {
      hide Taps;
      sum := acc;
      var taps := Taps(build, ch, idx);
      TapsWithinRing(build, ch, idx);
      for i := 0 to |taps|
        invariant sum == acc + FilterSum(taps, i, x, n)
      {
        Masked(curpos, taps[i].delay, RingSize(build));
        var p := (curpos + RingSize(build) - taps[i].delay) % RingSize(build);
        sum := sum + rbuf[p, ch] * taps[i].weight;
      }
    }

    /** One channel of a frame: its sample is stored, and both outputs accumulate its filters. */
    method MixChannel(ch: nat, sample: int, acc: (int, int), ghost xs: seq<seq<int>>, ghost n: nat)
      returns (sum: (int, int))
      requires Shaped() && ch < |xs| <= 5 && Holds(rbuf, curpos, ch, xs[ch], n)
      requires n < |xs[ch]| && sample == xs[ch][n]
      requires acc == (MixSum(build, 0, xs, ch, n), MixSum(build, 1, xs, ch, n))
      modifies rbuf
      ensures HoldsNow(rbuf, curpos, ch, xs[ch], n)
      ensures forall p, c :: 0 <= p < rbuf.Length0 && 0 <= c < 5 && c != ch ==> rbuf[p, c] == old(rbuf[p, c])
      ensures sum == (MixSum(build, 0, xs, ch + 1, n), MixSum(build, 1, xs, ch + 1, n))
    {
      hide Taps, FilterSum;
      rbuf[curpos, ch] := sample;
      var left := ApplyFilter(ch, 0, acc.0, xs[ch], n);
      var right := ApplyFilter(ch, 1, acc.1, xs[ch], n);
      sum := (left, right);
    }

    /** One frame: the sums of all channels, shifted and clipped. */
    method MixFrame(frame: seq<int>, ghost xs: seq<seq<int>>, ghost n: nat) returns (left: int, right: int)
      requires Shaped() && |frame| == |xs| == channels
      requires forall ch :: 0 <= ch < channels ==> n < |xs[ch]| && frame[ch] == xs[ch][n] && Holds(rbuf, curpos, ch,
                                                                                                   xs[ch], n)
      modifies rbuf, `curpos
      ensures Shaped()
      ensures forall ch :: 0 <= ch < channels ==> Holds(rbuf, curpos, ch, xs[ch], n + 1)
      ensures left == Output(build, 0, xs, n) && right == Output(build, 1, xs, n)
    {
      hide Taps, MixSum;
      var acc := (0, 0);
      EmptyMix(build, xs, n);
      for ch := 0 to channels
        invariant curpos == old(curpos)
        invariant acc == (MixSum(build, 0, xs, ch, n), MixSum(build, 1, xs, ch, n))
        invariant forall c :: 0 <= c < ch ==> HoldsNow(rbuf, curpos, c, xs[c], n)
        invariant forall c :: ch <= c < channels ==> Holds(rbuf, curpos, c, xs[c], n)
      {
        acc := MixChannel(ch, frame[ch], acc, xs, n);
      }
      left, right := Clip(acc.0 / 16384), Clip(acc.1 / 16384);
      forall ch | 0 <= ch < channels ensures Holds(rbuf, (curpos + 1) % RingSize(build), ch, xs[ch], n + 1) {
        Advance(rbuf, curpos, ch, xs[ch], n);
      }
      curpos := (curpos + 1) % RingSize(build);
    }

    /** vdownmix_transfer: what comes out are the next samples of the reference, whatever the size. */
    method Transfer(src: seq<seq<int>>, size: nat, left: array<int>, right: array<int>, offset: nat)
      requires Valid() && channels <= |src| && forall ch :: 0 <= ch < channels ==> |src[ch]| == size
      requires left != right && offset + size <= left.Length && offset + size <= right.Length
      modifies this, rbuf, left, right
      ensures Valid() && time == old(time) + size
      ensures |fed| == |old(fed)| && forall ch :: 0 <= ch < channels ==> fed[ch] == old(fed[ch]) + src[ch]
      ensures left[..] == Patched(old(left[..]), offset, Outputs(build, 0, fed, old(time), size))
      ensures right[..] == Patched(old(right[..]), offset, Outputs(build, 1, fed, old(time), size))
    {
      hide Patched, Output, Holds;
      ghost var was, n := fed, time;
      ghost var xs := seq(channels, ch requires 0 <= ch < channels => was[ch] + src[ch]);
      forall ch | 0 <= ch < channels ensures Holds(rbuf, curpos, ch, xs[ch], n) {
        HoldsMore(rbuf, curpos, ch, was[ch], xs[ch], n);
      }
      ghost var out0, out1 := Outputs(build, 0, xs, n, size), Outputs(build, 1, xs, n, size);
      ghost var was0, was1 := left[..], right[..];
      PatchedParts(was0, offset, []);
      PatchedParts(was1, offset, []);
      assert out0[..0] == [] && out1[..0] == [];
      for k := 0 to size
        invariant Shaped()
        invariant forall ch :: 0 <= ch < channels ==> Holds(rbuf, curpos, ch, xs[ch], n + k)
        invariant left[..] == Patched(was0, offset, out0[..k]) && right[..] == Patched(was1, offset, out1[..k])
      {
        var frame := seq(channels, ch requires 0 <= ch < channels => src[ch][k]);
        var l, r := MixFrame(frame, xs, n + k);
        PatchNext(was0, offset, out0, k);
        PatchNext(was1, offset, out1, k);
        left[offset + k], right[offset + k] := l, r;
      }
      fed, time := xs, n + size;
      assert out0[..size] == out0 && out1[..size] == out1;
    }

    /** Any sequence of transfers: together they give the reference output of the joined streams. */
    method Run(chunks: seq<seq<seq<int>>>, sizes: seq<nat>) returns (left: seq<int>, right: seq<int>)
      requires Valid() && time == 0 && |sizes| == |chunks|
      requires forall i :: 0 <= i < |chunks| ==>
                 |chunks[i]| == channels && forall ch :: 0 <= ch < channels ==> |chunks[i][ch]| == sizes[i]
      modifies this, rbuf
      ensures Valid() && forall ch :: 0 <= ch < channels ==> fed[ch] == Joined(chunks, ch)
      ensures left == Outputs(build, 0, fed, 0, time) && right == Outputs(build, 1, fed, 0, time)
    {
      hide Output, Holds;
      left, right := [], [];
      for i := 0 to |chunks|
        invariant Valid() && forall ch :: 0 <= ch < channels ==> fed[ch] == Joined(chunks[..i], ch)
        invariant left == Outputs(build, 0, fed, 0, time) && right == Outputs(build, 1, fed, 0, time)
      {
        ghost var was := fed;
        var l, r := RunOnce(chunks[i], sizes[i]);
        forall ch | 0 <= ch < channels ensures fed[ch] == Joined(chunks[..i + 1], ch) {
          JoinedNext(chunks, i, ch);
        }
        left, right := left + l, right + r;
      }
      assert chunks[..|chunks|] == chunks;
    }

    method RunOnce(chunk: seq<seq<int>>, size: nat) returns (left: seq<int>, right: seq<int>)
      requires Valid() && |chunk| == channels && forall ch :: 0 <= ch < channels ==> |chunk[ch]| == size
      modifies this, rbuf
      ensures Valid() && time == old(time) + size
      ensures |fed| == |old(fed)| && forall ch :: 0 <= ch < channels ==> fed[ch] == old(fed[ch]) + chunk[ch]
      ensures Outputs(build, 0, old(fed), 0, old(time)) + left == Outputs(build, 0, fed, 0, time)
      ensures Outputs(build, 1, old(fed), 0, old(time)) + right == Outputs(build, 1, fed, 0, time)
    {
      hide Output, Holds;
      var a, b := new int[size], new int[size];
      Transfer(chunk, size, a, b, 0);
      left, right := a[..], b[..];
      OutputsKept(build, 0, old(fed), fed, old(time));
      OutputsKept(build, 1, old(fed), fed, old(time));
      OutputsJoin(build, 0, fed, old(time), size);
      OutputsJoin(build, 1, fed, old(time), size);
    }
  }

  // ---------------------------------------------------------------- the impulse response

  /** All streams are silent but for one value in one of them. */
  ghost predicate Impulse(xs: seq<seq<int>>, ch: nat, s: nat, v: int) {
    && ch < |xs| && s < |xs[ch]|
    && forall c, t :: 0 <= c < |xs| && 0 <= t < |xs[c]| ==> xs[c][t] == if c == ch && t == s then v else 0
  }

  /** The filter from a channel to an output: the fronts feed their own side through filter 0 and the other
      through filter 1, the rears through 2 and 3, and the centre both through 4. */
  function FilterFor(ch: nat, idx: nat): nat {
    if ch == 4 then 4
    else if ch < 2 then (if ch == idx then 0 else 1)
    else if ch - 2 == idx then 2 else 3
  }

  lemma TapsFor(build: Build, ch: nat, idx: nat)
    requires ch < 5 && idx < 2
    ensures UsedTaps(build, FilterFor(ch, idx)) <= |Filter(FilterFor(ch, idx))|
    ensures Taps(build, ch, idx) == Filter(FilterFor(ch, idx))[..UsedTaps(build, FilterFor(ch, idx))]
  {
    hide Filter, UsedTaps;
    LastTap(build, FilterFor(ch, idx));
  }

  lemma {:induction false} FilterSilent(taps: seq<Tap>, count: nat, x: seq<int>, t: int)
    requires count <= |taps| && forall i :: 0 <= i < count ==> At(x, t - taps[i].delay) == 0
    ensures FilterSum(taps, count, x, t) == 0
  {
    if count > 0 {
      FilterSilent(taps, count - 1, x, t);
    }
  }

  lemma {:induction false} FilterHit(taps: seq<Tap>, count: nat, x: seq<int>, t: int, i: nat)
    requires i < count <= |taps|
    requires forall j :: 0 <= j < count && j != i ==> At(x, t - taps[j].delay) == 0
    ensures FilterSum(taps, count, x, t) == At(x, t - taps[i].delay) * taps[i].weight
  {
    if i < count - 1 {
      FilterHit(taps, count - 1, x, t, i);
    } else {
      FilterSilent(taps, count - 1, x, t);
    }
  }

  lemma {:induction false} MixImpulse(build: Build, idx: nat, xs: seq<seq<int>>, channels: nat, t: int, ch: nat, s: nat,
                                      v: int)
    requires idx < 2 && channels <= |xs| <= 5 && Impulse(xs, ch, s, v)
    ensures MixSum(build, idx, xs, channels, t)
            == if ch < channels then FilterSum(Taps(build, ch, idx), |Taps(build, ch, idx)|, xs[ch], t) else 0
  {
    hide Taps, FilterSum;
    if channels > 0 {
      MixImpulse(build, idx, xs, channels - 1, t, ch, s, v);
      if channels - 1 != ch {
        FilterSilent(Taps(build, channels - 1, idx), |Taps(build, channels - 1, idx)|, xs[channels - 1], t);
      }
    }
  }

  predicate NoNearer(y: int, sample: int, x: int) {
    -32768 <= y <= 32767 ==> Abs(sample - x) <= Abs(y - x)
  }

  /** The 16-bit sample nearest to a value. */
  ghost predicate Nearest16(sample: int, x: int) {
    -32768 <= sample <= 32767 && forall y :: NoNearer(y, sample, x)
  }

  /** Every output is the sample nearest to the sum of all taps shifted down by 14 bits, rounding down. */
  lemma OutputNearest(build: Build, idx: nat, xs: seq<seq<int>>, t: int)
    requires idx < 2 && |xs| <= 5
    ensures var sum := MixSum(build, idx, xs, |xs|, t);
            && sum / 0x4000 * 0x4000 <= sum < (sum / 0x4000 + 1) * 0x4000
            && Nearest16(Output(build, idx, xs, t), sum / 0x4000)
  {
    hide MixSum;
    var x := MixSum(build, idx, xs, |xs|, t) / 0x4000;
    ClipNearest(x, 0);
    forall y ensures NoNearer(y, Clip(x), x) {
      if -32768 <= y <= 32767 {
        ClipNearest(x, y);
      }
    }
  }

  /** A tap of the filter from its channel turns the value, as many frames later as it reaches back, into the
      sample nearest to its product shifted down by 14 bits. */
  lemma TapHeard(build: Build, idx: nat, xs: seq<seq<int>>, ch: nat, s: nat, v: int, i: nat)
    requires idx < 2 && |xs| <= 5 && Impulse(xs, ch, s, v) && i < UsedTaps(build, FilterFor(ch, idx))
    ensures i < |Filter(FilterFor(ch, idx))|
    ensures var tap := Filter(FilterFor(ch, idx))[i];
            Nearest16(Output(build, idx, xs, s + tap.delay), v * tap.weight / 0x4000)
  {
    hide Filter, UsedTaps, Taps, FilterSum, MixSum;
    TapsFor(build, ch, idx);
    TapsWithinRing(build, ch, idx);
    var taps := Taps(build, ch, idx);
    assert taps[i] == Filter(FilterFor(ch, idx))[i];
    var t := s + taps[i].delay;
    MixImpulse(build, idx, xs, |xs|, t, ch, s, v);
    forall j | 0 <= j < |taps| && j != i ensures At(xs[ch], t - taps[j].delay) == 0 {
      assert if i < j then taps[i].delay != taps[j].delay else taps[j].delay != taps[i].delay;
    }
    FilterHit(taps, |taps|, xs[ch], t, i);
    assert At(xs[ch], s) == v;
    OutputNearest(build, idx, xs, t);
  }

  /** The sums before they are shifted and clipped are additive in the streams, so impulses determine them. */
  lemma {:induction false} MixAdds(build: Build, idx: nat, xs: seq<seq<int>>, ys: seq<seq<int>>, zs: seq<seq<int>>,
                                   channels: nat, t: int)
    requires idx < 2 && channels <= |xs| == |ys| == |zs| <= 5
    requires forall c :: 0 <= c < |xs| ==> |xs[c]| == |ys[c]| == |zs[c]|
    requires forall c, i :: 0 <= c < |xs| && 0 <= i < |xs[c]| ==> zs[c][i] == xs[c][i] + ys[c][i]
    ensures MixSum(build, idx, zs, channels, t)
            == MixSum(build, idx, xs, channels, t) + MixSum(build, idx, ys, channels, t)
  {
    hide Taps, FilterSum;
    if channels > 0 {
      var taps := Taps(build, channels - 1, idx);
      MixAdds(build, idx, xs, ys, zs, channels - 1, t);
      FilterAdds(taps, |taps|, xs[channels - 1], ys[channels - 1], zs[channels - 1], t);
    }
  }

  lemma {:induction false} FilterAdds(taps: seq<Tap>, count: nat, x: seq<int>, y: seq<int>, z: seq<int>, t: int)
    requires count <= |taps| && |x| == |y| == |z| && forall i :: 0 <= i < |x| ==> z[i] == x[i] + y[i]
    ensures FilterSum(taps, count, z, t) == FilterSum(taps, count, x, t) + FilterSum(taps, count, y, t)
  {
    if count > 0 {
      FilterAdds(taps, count - 1, x, y, z, t);
      var at := t - taps[count - 1].delay;
      Distribute(At(x, at), At(y, at), taps[count - 1].weight);
    }
  }

  /** At any other time there is silence. */
  lemma NoTapHeard(build: Build, idx: nat, xs: seq<seq<int>>, ch: nat, s: nat, v: int, t: nat)
    requires idx < 2 && |xs| <= 5 && Impulse(xs, ch, s, v)
    requires forall i :: 0 <= i < UsedTaps(build, FilterFor(ch, idx)) && i < |Filter(FilterFor(ch, idx))| ==>
               s + Filter(FilterFor(ch, idx))[i].delay != t
    ensures Output(build, idx, xs, t) == 0
  {
    hide Filter, UsedTaps, Taps, FilterSum, MixSum;
    TapsFor(build, ch, idx);
    var taps := Taps(build, ch, idx);
    MixImpulse(build, idx, xs, |xs|, t, ch, s, v);
    forall i | 0 <= i < |taps| ensures At(xs[ch], t - taps[i].delay) == 0 {
      assert taps[i] == Filter(FilterFor(ch, idx))[i];
    }
    FilterSilent(taps, |taps|, xs[ch], t);
  }

  predicate IsInt32(v: int) {
    -0x8000_0000 <= v <= 0x7fff_ffff
  }

  /** The value of an accumulator behind the first taps of a channel. */
  function Partial(build: Build, idx: nat, xs: seq<seq<int>>, ch: nat, count: nat, t: int): int
    requires idx < 2 && ch < |xs| <= 5 && count <= |Taps(build, ch, idx)|
  {
    MixSum(build, idx, xs, ch, t) + FilterSum(Taps(build, ch, idx), count, xs[ch], t)
  }

  function Abs(v: int): nat {
    if v < 0 then -v else v
  }

  function AbsSum(taps: seq<Tap>, count: nat): nat
    requires count <= |taps|
  {
    if count == 0 then 0 else AbsSum(taps, count - 1) + Abs(taps[count - 1].weight)
  }

  /** The sum of the magnitudes of all weights that go into an output. */
  function Gain(build: Build, idx: nat, channels: nat): nat
    requires idx < 2 && channels <= 5
  {
    if channels == 0 then 0 else
      Gain(build, idx, channels - 1) + AbsSum(Taps(build, channels - 1, idx), |Taps(build, channels - 1, idx)|)
  }

  ghost predicate Within(x: seq<int>, m: nat) {
    forall t :: 0 <= t < |x| ==> Abs(x[t]) <= m
  }

  ghost predicate AllWithin(xs: seq<seq<int>>, m: nat) {
    forall ch :: 0 <= ch < |xs| ==> Within(xs[ch], m)
  }

  lemma SumBound(a: int, b: int, p: nat, q: nat, m: nat)
    requires Abs(a) <= m * p && Abs(b) <= m * q
    ensures Abs(a + b) <= m * (p + q)
  {
    Distribute(p, q, m);
  }

  lemma ProductBound(v: int, w: int, m: nat)
    requires Abs(v) <= m
    ensures Abs(v * w) <= m * Abs(w)
  {
    assert Abs(v * w) == Abs(v) * Abs(w) by {
      if w >= 0 { MulSign(v, w); } else { MulSign(v, -w); }
    }
    MulMonotone(Abs(v), m, Abs(w));
  }

  lemma MulSign(v: int, w: nat)
    ensures Abs(v * w) == Abs(v) * w && (-v) * w == -(v * w) && v * (-(w as int)) == -(v * w)
  {
    if v >= 0 { MulNonneg(v, w); } else { MulNonneg(-v, w); }
  }

  lemma {:induction false} FilterBound(taps: seq<Tap>, count: nat, x: seq<int>, t: int, m: nat)
    requires count <= |taps| && Within(x, m)
    ensures Abs(FilterSum(taps, count, x, t)) <= m * AbsSum(taps, count)
    decreases count
  {
    if count > 0 {
      FilterBound(taps, count - 1, x, t, m);
      var w, v := taps[count - 1].weight, At(x, t - taps[count - 1].delay);
      ProductBound(v, w, m);
      SumBound(FilterSum(taps, count - 1, x, t), v * w, AbsSum(taps, count - 1), Abs(w), m);
    }
  }

  lemma {:induction false} AbsSumGrows(taps: seq<Tap>, count: nat)
    requires count <= |taps|
    ensures AbsSum(taps, count) <= AbsSum(taps, |taps|)
    decreases |taps| - count
  {
    if count < |taps| {
      AbsSumGrows(taps, count + 1);
    }
  }

  lemma NoBound(m: nat)
    ensures Abs(0) <= m * 0
  {}

  lemma {:induction false} MixBound(build: Build, idx: nat, xs: seq<seq<int>>, channels: nat, t: int, m: nat)
    requires idx < 2 && channels <= |xs| <= 5 && AllWithin(xs, m)
    ensures Abs(MixSum(build, idx, xs, channels, t)) <= m * Gain(build, idx, channels)
  {
    hide Taps, FilterSum, AbsSum, Abs;
    if channels == 0 {
      NoBound(m);
    } else {
      var taps := Taps(build, channels - 1, idx);
      MixBound(build, idx, xs, channels - 1, t, m);
      FilterBound(taps, |taps|, xs[channels - 1], t, m);
      SumBound(MixSum(build, idx, xs, channels - 1, t), FilterSum(taps, |taps|, xs[channels - 1], t),
               Gain(build, idx, channels - 1), AbsSum(taps, |taps|), m);
    }
  }

  lemma {:induction false} GainGrows(build: Build, idx: nat, channels: nat, all: nat)
    requires idx < 2 && channels <= all <= 5
    ensures Gain(build, idx, channels) <= Gain(build, idx, all)
    decreases all
  {
    hide Taps;
    if channels < all {
      GainGrows(build, idx, channels, all - 1);
    }
  }

  lemma Enough(m: nat, p: nat, q: nat)
    requires p <= q
    ensures m * p <= m * q
  {}

  lemma PartialBound(build: Build, idx: nat, xs: seq<seq<int>>, ch: nat, count: nat, t: int, m: nat)
    requires idx < 2 && ch < |xs| <= 5 && AllWithin(xs, m) && count <= |Taps(build, ch, idx)|
    ensures Abs(Partial(build, idx, xs, ch, count, t)) <= m * Gain(build, idx, |xs|)
  {
    hide Taps, FilterSum, AbsSum, MixSum, Abs;
    var taps := Taps(build, ch, idx);
    MixBound(build, idx, xs, ch, t, m);
    FilterBound(taps, count, xs[ch], t, m);
    AbsSumGrows(taps, count);
    GainGrows(build, idx, ch + 1, |xs|);
    SumBound(MixSum(build, idx, xs, ch, t), FilterSum(taps, count, xs[ch], t), Gain(build, idx, ch), AbsSum(taps,
                                                                                                            count), m);
    Enough(m, Gain(build, idx, ch) + AbsSum(taps, count), Gain(build, idx, |xs|));
  }

  /** The sample that a tap with some delay turns into the largest product. */
  function WorstSample(taps: seq<Tap>, count: nat, d: nat, m: nat): (v: int)
    requires count <= |taps|
    ensures Abs(v) <= m
  {
    if count == 0 then 0
    else if taps[count - 1].delay == d then (if taps[count - 1].weight < 0 then 0 - m else m)
    else WorstSample(taps, count - 1, d, m)
  }

  function WorstStream(taps: seq<Tap>, size: nat, m: nat): (x: seq<int>)
    ensures |x| == size
  {
    seq(size, t requires 0 <= t < size => WorstSample(taps, |taps|, size - 1 - t, m))
  }

  function WorstStreams(build: Build, idx: nat, channels: nat, m: nat): (xs: seq<seq<int>>)
    requires idx < 2 && channels <= 5
    ensures |xs| == channels
  {
    seq(channels, ch requires 0 <= ch < channels => WorstStream(Taps(build, ch, idx), RingSize(build), m))
  }

  lemma {:induction false} WorstFound(taps: seq<Tap>, count: nat, i: nat, m: nat)
    requires i < count <= |taps|
    requires forall a, b :: 0 <= a < b < |taps| ==> taps[a].delay != taps[b].delay
    ensures WorstSample(taps, count, taps[i].delay, m) * taps[i].weight == Abs(taps[i].weight) * m
    decreases count
  {
    if i < count - 1 {
      WorstFound(taps, count - 1, i, m);
    }
  }

  lemma WorstSum(a: int, b: int, p: nat, q: nat, m: nat)
    requires a == m * p && b == m * q
    ensures a + b == m * (p + q)
  {}

  lemma {:induction false} WorstFilter(taps: seq<Tap>, count: nat, size: nat, m: nat)
    requires count <= |taps| && forall i :: 0 <= i < |taps| ==> taps[i].delay < size
    requires forall a, b :: 0 <= a < b < |taps| ==> taps[a].delay != taps[b].delay
    ensures FilterSum(taps, count, WorstStream(taps, size, m), size - 1) == m * AbsSum(taps, count)
  {
    if count > 0 {
      WorstFilter(taps, count - 1, size, m);
      WorstFound(taps, |taps|, count - 1, m);
      var x, d, w := WorstStream(taps, size, m), taps[count - 1].delay, taps[count - 1].weight;
      assert At(x, size - 1 - d) == WorstSample(taps, |taps|, d, m);
      WorstSum(FilterSum(taps, count - 1, x, size - 1), At(x, size - 1 - d) * w, AbsSum(taps, count - 1), Abs(w), m);
    }
  }

  lemma {:induction false} WorstMix(build: Build, idx: nat, channels: nat, all: nat, m: nat)
    requires idx < 2 && channels <= all <= 5
    ensures MixSum(build, idx, WorstStreams(build, idx, all, m), channels, RingSize(build) - 1)
            == m * Gain(build, idx, channels)
    decreases channels
  {
    hide Taps, RingSize, FilterSum, AbsSum, WorstStream;
    if channels > 0 {
      var taps := Taps(build, channels - 1, idx);
      TapsWithinRing(build, channels - 1, idx);
      WorstMix(build, idx, channels - 1, all, m);
      WorstFilter(taps, |taps|, RingSize(build), m);
      WorstSum(m * Gain(build, idx, channels - 1), m * AbsSum(taps, |taps|), Gain(build, idx, channels - 1),
               AbsSum(taps, |taps|), m);
    }
  }

  /** No partial sum leaves the range of the 32-bit accumulator, for any streams of samples up to m, at any
      point of the loops. */
  ghost predicate NeverOverflows(build: Build, idx: nat, channels: nat, m: nat)
    requires idx < 2 && channels <= 5
  {
    forall xs: seq<seq<int>>, ch: nat, count: nat, t: nat ::
      |xs| == channels && AllWithin(xs, m) && ch < channels && count <= |Taps(build, ch, idx)| ==>
        IsInt32(Partial(build, idx, xs, ch, count, t))
  }

  /** That is so exactly while m times the sum of the magnitudes of the weights stays in range. */
  lemma Headroom(build: Build, idx: nat, channels: nat, m: nat)
    requires idx < 2 && channels <= 5
    ensures NeverOverflows(build, idx, channels, m) <==> m * Gain(build, idx, channels) <= 0x7fff_ffff
  {
    hide Taps, RingSize;
    if m * Gain(build, idx, channels) <= 0x7fff_ffff {
      forall xs: seq<seq<int>>, ch: nat, count: nat, t: nat
        | |xs| == channels && AllWithin(xs, m) && ch < channels && count <= |Taps(build, ch, idx)|
        ensures IsInt32(Partial(build, idx, xs, ch, count, t))
      {
        PartialBound(build, idx, xs, ch, count, t, m);
      }
    } else {
      var xs := WorstStreams(build, idx, channels, m);
      WorstWithin(build, idx, channels, m);
      WorstMix(build, idx, channels, channels, m);
      RingNotEmpty(build);
      assert channels > 0;
      assert Partial(build, idx, xs, channels - 1, |Taps(build, channels - 1, idx)|, RingSize(build) - 1)
             == MixSum(build, idx, xs, channels, RingSize(build) - 1);
    }
  }

  lemma RingNotEmpty(build: Build)
    ensures 0 < RingSize(build)
  {}

  lemma WorstWithin(build: Build, idx: nat, channels: nat, m: nat)
    requires idx < 2 && channels <= 5
    ensures AllWithin(WorstStreams(build, idx, channels, m), m)
  {
    hide Taps, RingSize, WorstSample, Abs;
    forall ch | 0 <= ch < channels ensures Within(WorstStreams(build, idx, channels, m)[ch], m) {
      var taps, size := Taps(build, ch, idx), RingSize(build);
      forall t | 0 <= t < size ensures Abs(WorstStream(taps, size, m)[t]) <= m {
        assert WorstStream(taps, size, m)[t] == WorstSample(taps, |taps|, size - 1 - t, m);
      }
    }
  }

  /** With five channels and the default taps, samples up to 15386 are safe, and 15387 is not. */
  lemma DefaultHeadroom(idx: nat, m: nat)
    requires idx < 2
    ensures NeverOverflows(Default, idx, 5, m) <==> m <= 15386
  {
    hide NeverOverflows, Gain;
    Headroom(Default, idx, 5, m);
    DefaultGain(idx);
    if m <= 15386 {
      MulMonotone(m, 15386, 139566);
    } else {
      MulMonotone(15387, m, 139566);
    }
  }

  lemma DefaultGain(idx: nat)
    requires idx < 2
    ensures Gain(Default, idx, 5) == 139566
  {
    hide AbsSum, Filter;
    Weights0();
    Weights1();
    Weights2();
    Weights3();
    Weights4();
    assert Gain(Default, idx, 1) == if idx == 0 then 59643 else 13204;
    assert Gain(Default, idx, 2) == 72847;
    assert Gain(Default, idx, 3) == 72847 + if idx == 0 then 16384 else 12907;
    assert Gain(Default, idx, 4) == 102138;
  }

  lemma Weights0()
    ensures |Filter(0)| > 14 && |Filter(0)[..14]| == 14 && AbsSum(Filter(0)[..14], 14) == 59643
  {
    hide AbsSum;
    NoWeights(Filter(0)[..14]);
    FourWeights(Filter(0)[..14], 0);
    FiveWeights(Filter(0)[..14], 4);
    FiveWeights(Filter(0)[..14], 9);
  }

  lemma Weights1()
    ensures |Filter(1)| > 10 && |Filter(1)[..10]| == 10 && AbsSum(Filter(1)[..10], 10) == 13204
  {
    FiveWeights(Filter(1)[..10], 0);
    FiveWeights(Filter(1)[..10], 5);
  }

  lemma Weights2()
    ensures |Filter(2)| > 1 && |Filter(2)[..1]| == 1 && AbsSum(Filter(2)[..1], 1) == 16384
  {}

  lemma Weights3()
    ensures |Filter(3)| > 10 && |Filter(3)[..10]| == 10 && AbsSum(Filter(3)[..10], 10) == 12907
  {
    FiveWeights(Filter(3)[..10], 0);
    FiveWeights(Filter(3)[..10], 5);
  }

  lemma Weights4()
    ensures |Filter(4)| > 7 && |Filter(4)[..7]| == 7 && AbsSum(Filter(4)[..7], 7) == 37428
  {
    FiveWeights(Filter(4)[..7], 0);
  }

  lemma NoWeights(taps: seq<Tap>)
    ensures AbsSum(taps, 0) == 0
  {}

  lemma FourWeights(taps: seq<Tap>, i: nat)
    requires i + 4 <= |taps|
    ensures AbsSum(taps, i + 4) == AbsSum(taps, i) + Abs(taps[i].weight) + Abs(taps[i + 1].weight)
            + Abs(taps[i + 2].weight) + Abs(taps[i + 3].weight)
  {
    assert AbsSum(taps, i + 3) == AbsSum(taps, i + 2) + Abs(taps[i + 2].weight);
  }

  lemma FiveWeights(taps: seq<Tap>, i: nat)
    requires i + 5 <= |taps|
    ensures AbsSum(taps, i + 5) == AbsSum(taps, i) + Abs(taps[i].weight) + Abs(taps[i + 1].weight)
            + Abs(taps[i + 2].weight) + Abs(taps[i + 3].weight) + Abs(taps[i + 4].weight)
  {
    FourWeights(taps, i);
  }
}
