/** The AAF talker: on every tick of its media clock it sends one period of the application's frames,
    cut into PDUs with sequence numbers, launch times and presentation times. */
module Talker {
  import opened Division

  const NSEC_PER_SEC := 1000000000
  const EPIPE := -32
  const EIO := -5

  lemma ErrorsNegative()
    ensures EPIPE < 0 && EIO < 0 && EPIPE != EIO
  {}

  /** The parameters of a stream: times in nanoseconds, sizes in frames. */
  datatype Config = Config(rate: nat, framesPerPdu: nat, pdusPerPeriod: nat, bufferSize: nat, buffersPerBoundary: nat,
                           uncertainty: nat, mtt: nat) {
    predicate Valid() {
      && 0 < rate <= 192000 && 0 < framesPerPdu && 0 < pdusPerPeriod
      && PeriodSize() <= bufferSize && 0 < bufferSize && 0 < buffersPerBoundary
    }

    /** The period is a whole number of PDUs: aaf_hw_params refuses any other. */
    function PeriodSize(): nat {
      pdusPerPeriod * framesPerPdu
    }

    function Boundary(): nat {
      buffersPerBoundary * bufferSize
    }

    function Period(): nat
      requires 0 < rate
    {
      var p := NSEC_PER_SEC * PeriodSize() / rate;
      assert NSEC_PER_SEC * PeriodSize() == NSEC_PER_SEC * (pdusPerPeriod * framesPerPdu);
      Below(NSEC_PER_SEC * PeriodSize(), rate, 0);
      p
    }

    function PduPeriod(): nat
      requires 0 < rate
    {
      Below(NSEC_PER_SEC * framesPerPdu, rate, 0);
      NSEC_PER_SEC * framesPerPdu / rate
    }
  }

  /** n * floor(x) <= floor(n * x) <= n * floor(x) + n - 1, where a PDU lasts x nanoseconds; and x >= 1. */
  lemma PeriodOfPdus(c: Config)
    requires c.Valid()
    ensures 0 < c.PduPeriod()
    ensures c.pdusPerPeriod * c.PduPeriod() <= c.Period() <= c.pdusPerPeriod * c.PduPeriod() + c.pdusPerPeriod - 1
  {
    var n, x, rate := c.pdusPerPeriod, NSEC_PER_SEC * c.framesPerPdu, c.rate;
    Below(x, rate, 1);
    var q, r := x / rate, x % rate;
    assert x == q * rate + r;
    assert NSEC_PER_SEC * c.PeriodSize() == n * x;
    calc {
      n * x;
      n * (q * rate + r);
      (n * q) * rate + n * r;
    }
    MulNonneg(n, r);
    MulMonotone(r, rate - 1, n);
    assert (n * q) * rate <= n * x;
    assert n * (rate - 1) < n * rate;
    assert n * x < (n * q + n) * rate by { Distribute(n * q, n, rate); }
    Below(n * x, rate, n * q);
    Below(n * x, rate, n * q + n);
  }

  datatype Pdu = Pdu(number: nat, ptime: nat, txtime: nat, frames: seq<int>)

  /** The clock reading of a tick, ticks counted from nought. */
  function TickTime(c: Config, start: nat, tick: nat): nat
    requires 0 < c.rate
  {
    MulNonneg(c.Period(), tick);
    start + c.Period() * tick
  }

  /** When PDU k is launched, if ticks tells at which tick each period was sent. */
  function TxTime(c: Config, start: nat, ticks: seq<nat>, k: nat): nat
    requires c.Valid() && k / c.pdusPerPeriod < |ticks|
  {
    MulNonneg(c.PduPeriod(), k % c.pdusPerPeriod);
    TickTime(c, start, ticks[k / c.pdusPerPeriod]) + c.uncertainty + c.PduPeriod() * (k % c.pdusPerPeriod)
  }

  /** PDU k as the schedule wants it. */
  predicate OnSchedule(c: Config, start: nat, ticks: seq<nat>, app: seq<int>, k: nat, p: Pdu)
    requires c.Valid()
  {
    && k / c.pdusPerPeriod < |ticks|
    && p.number == k % 256
    && p.txtime == TxTime(c, start, ticks, k)
    && p.ptime == p.txtime + c.mtt
    && 0 <= k * c.framesPerPdu && k * c.framesPerPdu + c.framesPerPdu <= |app|
    && p.frames == app[k * c.framesPerPdu..k * c.framesPerPdu + c.framesPerPdu]
  }

  predicate AllOnSchedule(c: Config, start: nat, ticks: seq<nat>, app: seq<int>, sent: seq<Pdu>)
    requires c.Valid()
  {
    forall k :: 0 <= k < |sent| ==> OnSchedule(c, start, ticks, app, k, sent[k])
  }

  lemma OneMoreOnSchedule(c: Config, start: nat, ticks: seq<nat>, app: seq<int>, sent: seq<Pdu>, more: seq<Pdu>)
    requires c.Valid() && AllOnSchedule(c, start, ticks, app, sent)
    requires |more| == |sent| + 1 && more[..|sent|] == sent && OnSchedule(c, start, ticks, app, |sent|, more[|sent|])
    ensures AllOnSchedule(c, start, ticks, app, more)
  {
    hide OnSchedule;
    forall k | 0 <= k < |more| ensures OnSchedule(c, start, ticks, app, k, more[k]) {
      if k < |sent| {
        assert more[k] == sent[k];
      }
    }
  }

  lemma KeepAllOnSchedule(c: Config, start: nat, ticks: seq<nat>, app: seq<int>, sent: seq<Pdu>, later: seq<nat>,
                          more: seq<int>)
    requires c.Valid() && AllOnSchedule(c, start, ticks, app, sent) && ticks <= later && app <= more
    ensures AllOnSchedule(c, start, later, more, sent)
  {
    forall k | 0 <= k < |sent| ensures OnSchedule(c, start, later, more, k, sent[k]) {
      KeepSchedule(c, start, ticks, app, k, sent[k], later, more);
    }
  }

  /** What is on schedule stays so as the application writes more and more ticks go by. */
  lemma KeepSchedule(c: Config, start: nat, ticks: seq<nat>, app: seq<int>, k: nat, p: Pdu, later: seq<nat>,
                     more: seq<int>)
    requires c.Valid() && OnSchedule(c, start, ticks, app, k, p) && ticks <= later && app <= more
    ensures OnSchedule(c, start, later, more, k, p)
  {
    Below(k, c.pdusPerPeriod, 0);
    var i, n := k * c.framesPerPdu, c.framesPerPdu;
    assert more[i..i + n] == app[i..i + n];
  }

  predicate Increasing(s: seq<nat>) {
    forall i, j :: 0 <= i < j < |s| ==> s[i] < s[j]
  }

  /** Launch times increase strictly over the whole run, across periods and across missed ticks: any two
      PDUs are at least one PDU period apart. */
  lemma LaunchOrder(c: Config, start: nat, ticks: seq<nat>, k: nat, l: nat)
    requires c.Valid() && Increasing(ticks) && k < l && l / c.pdusPerPeriod < |ticks|
    ensures k / c.pdusPerPeriod < |ticks|
    ensures TxTime(c, start, ticks, k) + c.PduPeriod() <= TxTime(c, start, ticks, l)
    ensures TxTime(c, start, ticks, k) < TxTime(c, start, ticks, l)
  {
    hide TxTime, Config.Period, Config.PduPeriod;
    Monotone(k, l, c.pdusPerPeriod);
    PeriodOfPdus(c);
    TimeParts(c, start, ticks, k);
    TimeParts(c, start, ticks, l);
    LaunchesInOrder(c.pdusPerPeriod, c.PduPeriod(), c.Period(), ticks, k, l);
  }

  /** The launch time of a PDU, from the tick of its period and its place in the period. */
  lemma TimeParts(c: Config, start: nat, ticks: seq<nat>, k: nat)
    requires c.Valid() && 0 <= k / c.pdusPerPeriod < |ticks|
    ensures TxTime(c, start, ticks, k)
         == start + c.uncertainty + c.Period() * ticks[k / c.pdusPerPeriod] + c.PduPeriod() * (k % c.pdusPerPeriod)
  {
    hide Config.Period, Config.PduPeriod;
  }

  lemma LaunchesInOrder(n: nat, p: nat, t: nat, ticks: seq<nat>, k: nat, l: nat)
    requires 0 < n && n * p <= t && k < l && 0 <= k / n <= l / n < |ticks| && Increasing(ticks)
    ensures t * ticks[k / n] + p * (k % n) + p <= t * ticks[l / n] + p * (l % n)
  {
    if k / n == l / n {
      Rank(k, l, n);
    }
    LaunchesApart(n, p, t, k % n, l % n, ticks[k / n], ticks[l / n]);
  }

  lemma Rank(k: nat, l: nat, n: nat)
    requires 0 < n && k < l && k / n == l / n
    ensures k % n < l % n
  {
    assert k == k / n * n + k % n && l == l / n * n + l % n;
  }

  lemma LaunchesApart(n: nat, p: nat, t: nat, i: nat, i': nat, a: nat, b: nat)
    requires i < n && i' < n && n * p <= t && ((a == b && i < i') || a < b)
    ensures t * a + p * i + p <= t * b + p * i'
  {
    if a == b {
      MulMonotone(i + 1, i', p);
      Distribute(i, 1, p);
    } else {
      MulMonotone(a + 1, b, t);
      Distribute(a, 1, t);
      MulMonotone(i, n - 1, p);
      Distribute(n - 1, 1, p);
      MulNonneg(p, i');
    }
  }

  /** While no tick is missed, the gap between two launches is between one PDU period and that plus one
      nanosecond less than there are PDUs in a period. */
  lemma LaunchGap(c: Config, start: nat, ticks: seq<nat>, k: nat)
    requires c.Valid() && (forall j :: 0 <= j < |ticks| ==> ticks[j] == j) && (k + 1) / c.pdusPerPeriod < |ticks|
    ensures k / c.pdusPerPeriod < |ticks|
    ensures c.PduPeriod() <= TxTime(c, start, ticks, k + 1) - TxTime(c, start, ticks, k)
            <= c.PduPeriod() + c.pdusPerPeriod - 1
  {
    hide TxTime, Config.Period, Config.PduPeriod;
    Monotone(k, k + 1, c.pdusPerPeriod);
    PeriodOfPdus(c);
    Below(k, c.pdusPerPeriod, 0);
    TimeParts(c, start, ticks, k);
    TimeParts(c, start, ticks, k + 1);
    Gap(c.pdusPerPeriod, c.PduPeriod(), c.Period(), k);
  }

  lemma Gap(n: nat, p: nat, t: nat, k: nat)
    requires 0 < n && n * p <= t <= n * p + n - 1
    ensures p <= t * ((k + 1) / n) + p * ((k + 1) % n) - t * (k / n) - p * (k % n) <= p + n - 1
  {
    var j, i := k / n, k % n;
    assert k == j * n + i;
    if i + 1 < n {
      Unique(k + 1, n, j, i + 1);
      GapWithin(p, i);
    } else {
      Distribute(j, 1, n);
      Unique(k + 1, n, j + 1, 0);
      GapAcross(n, p, t, j);
    }
  }

  lemma GapWithin(p: nat, i: nat)
    ensures p * (i + 1) - p * i == p
  {}

  lemma GapAcross(n: nat, p: nat, t: nat, j: nat)
    requires 0 < n
    ensures t * (j + 1) + p * 0 - t * j - p * (n - 1) == t - n * p + p
  {}

  lemma NumbersApart(k: nat, l: nat)
    ensures (l % 256 - k % 256) % 256 == (l - k) % 256
  {
    ShiftUp(l % 256 - k % 256, 256, l / 256 - k / 256);
  }

  lemma TwoLaunches(c: Config, start: nat, ticks: seq<nat>, app: seq<int>, k: nat, l: nat, p: Pdu, q: Pdu)
    requires c.Valid() && Increasing(ticks) && k < l
    requires OnSchedule(c, start, ticks, app, k, p) && OnSchedule(c, start, ticks, app, l, q)
    ensures p.txtime + c.PduPeriod() <= q.txtime && 0 < c.PduPeriod()
    ensures p.ptime - p.txtime == c.mtt && (q.number - p.number) % 256 == (l - k) % 256
    ensures p.txtime == TxTime(c, start, ticks, k) && q.txtime == TxTime(c, start, ticks, l)
    ensures l / c.pdusPerPeriod < |ticks|
  {
    hide TxTime, Config.Period, Config.PduPeriod;
    PeriodOfPdus(c);
    NumbersApart(k, l);
    LaunchOrder(c, start, ticks, k, l);
  }

  /** As many ticks as there were: none was missed. */
  lemma {:induction false} NoneMissed(ticks: seq<nat>)
    requires Increasing(ticks) && forall j :: 0 <= j < |ticks| ==> ticks[j] < |ticks|
    ensures forall j :: 0 <= j < |ticks| ==> ticks[j] == j
  {
    forall j | 0 <= j < |ticks| ensures ticks[j] == j {
      AtLeast(ticks, j);
      AtMost(ticks, j);
    }
  }

  lemma {:induction false} AtLeast(ticks: seq<nat>, j: nat)
    requires Increasing(ticks) && j < |ticks|
    ensures j <= ticks[j]
  {
    if j > 0 {
      AtLeast(ticks, j - 1);
    }
  }

  lemma {:induction false} AtMost(ticks: seq<nat>, j: nat)
    requires Increasing(ticks) && j < |ticks| && forall i :: 0 <= i < |ticks| ==> ticks[i] < |ticks|
    ensures ticks[j] <= j
    decreases |ticks| - j
  {
    if j + 1 < |ticks| {
      AtMost(ticks, j + 1);
    }
  }

  /** The media clock ticks in whole nanoseconds: it keeps the pace of the sample rate for ever if and only
      if a period is a whole number of them. */
  lemma ClockKeepsPace(c: Config)
    requires c.Valid()
    ensures (forall tick: nat :: c.Period() * tick == NSEC_PER_SEC * c.PeriodSize() * tick / c.rate)
            <==> NSEC_PER_SEC * c.PeriodSize() % c.rate == 0
  {
    var x, rate := NSEC_PER_SEC * c.PeriodSize(), c.rate;
    var q, r := x / rate, x % rate;
    assert x == q * rate + r;
    if r == 0 {
      forall tick: nat ensures q * tick == x * tick / rate {
        assert x * tick == (q * tick) * rate + 0 by {
          assert (q * rate) * tick == (q * tick) * rate;
        }
        Unique(x * tick, rate, q * tick, 0);
      }
    } else {
      Unique(x * rate, rate, x, 0);
      assert q * rate != x * rate / rate;
    }
  }

  /** At 44100 Hz that means periods of a multiple of 441 frames. */
  lemma PaceAt44100(c: Config)
    requires c.Valid() && c.rate == 44100
    ensures (forall tick: nat :: c.Period() * tick == NSEC_PER_SEC * c.PeriodSize() * tick / c.rate)
            <==> c.PeriodSize() % 441 == 0
  {
    hide Config.Period, Config.PeriodSize;
    ClockKeepsPace(c);
    Multiple441(c.PeriodSize());
  }

  lemma Multiple441(frames: nat)
    ensures NSEC_PER_SEC * frames % 44100 == 0 <==> frames % 441 == 0
  {
    var q, r := NSEC_PER_SEC * frames / 44100, frames / 441;
    if NSEC_PER_SEC * frames % 44100 == 0 {
      assert 10000000 * frames == 441 * q;
      Unique(frames, 441, 19 * q - 430839 * frames, 0);
    }
    if frames % 441 == 0 {
      assert frames == 441 * r;
      Unique(NSEC_PER_SEC * frames, 44100, 10000000 * r, 0);
    }
  }

  /** A period of 256 frames at 44100 Hz: the second tick is a nanosecond early already. */
  lemma ClockSlips()
    ensures var c := Config(44100, 8, 32, 512, 1, 0, 0);
            c.Valid() && c.Period() * 2 == 11609976 && NSEC_PER_SEC * c.PeriodSize() * 2 / c.rate == 11609977
  {
    var c := Config(44100, 8, 32, 512, 1, 0, 0);
    assert c.PeriodSize() == 256;
    assert c.Period() == 5804988;
  }

  /** The frames from done on are in their places. */
  predicate Stored(ring: seq<int>, app: seq<int>, done: nat) {
    ring != [] && forall i :: done <= i < |app| ==> ring[i % |ring|] == app[i]
  }

  /** The frame buffer holds frames done to |app| of the application's stream, each in its place. */
  ghost predicate Held(ring: array<int>, app: seq<int>, done: nat)
    reads ring
  {
    && 0 < ring.Length && done <= |app| <= done + ring.Length
    && Stored(ring[..], app, done)
  }

  /** What is read from a place of the frame buffer on, wrapping round. */
  predicate ReadFrom(frames: seq<int>, ring: seq<int>, ptr: nat) {
    ring != [] && forall m :: 0 <= m < |frames| ==> frames[m] == ring[(ptr % |ring| + m) % |ring|]
  }

  lemma Apart(i: nat, j: nat, size: nat)
    requires i < j < i + size
    ensures i % size != j % size
  {
    if i % size == j % size {
      var a, b, r := i / size, j / size, i % size;
      assert i == a * size + r && j == b * size + r;
      if a < b {
        MulMonotone(a + 1, b, size);
        Distribute(a, 1, size);
      } else {
        MulMonotone(b, a, size);
      }
    }
  }

  /** snd_pcm_areas_copy_wrap from a position of the frame buffer. */
  method CopyWrap(ring: array<int>, offset: nat, count: nat) returns (frames: seq<int>)
    requires offset < ring.Length
    ensures |frames| == count && forall i :: 0 <= i < count ==> frames[i] == ring[(offset + i) % ring.Length]
  {
    frames := [];
    var at := offset;
    for i := 0 to count
      invariant |frames| == i && at < ring.Length && at == (offset + i) % ring.Length
      invariant forall j :: 0 <= j < i ==> frames[j] == ring[(offset + j) % ring.Length]
    {
      frames := frames + [ring[at]];
      NextPlace(offset + i, ring.Length);
      at := if at + 1 == ring.Length then 0 else at + 1;
    }
  }

  lemma NextPlace(i: nat, size: nat)
    requires 0 < size
    ensures (i + 1) % size == if i % size + 1 == size then 0 else i % size + 1
  {
    var q, r := i / size, i % size;
    assert i == q * size + r;
    if r + 1 == size {
      Distribute(q, 1, size);
      Unique(i + 1, size, q + 1, 0);
    } else {
      Unique(i + 1, size, q, r + 1);
    }
  }

  /** A place of the frame buffer, reckoned from the wrapped pointer, is that of the frame it stands for. */
  lemma PlaceOfFrame(c: Config, hwPtr: nat, wraps: nat, done: nat, x: nat, m: nat)
    requires c.Valid() && 0 < c.bufferSize && hwPtr + wraps * c.Boundary() == done
    ensures ((hwPtr + x) % c.bufferSize + m) % c.bufferSize == (done + x + m) % c.bufferSize
  {
    Regroup(wraps, c.buffersPerBoundary, c.bufferSize);
    SumInRing(hwPtr + x, m, c.bufferSize);
    ShiftUp(hwPtr + x + m, c.bufferSize, wraps * c.buffersPerBoundary);
  }

  lemma SumInRing(y: nat, m: nat, size: nat)
    requires 0 < size
    ensures (y % size + m) % size == (y + m) % size
  {
    var q, r := y / size, y % size;
    assert y == q * size + r;
    ShiftUp(r + m, size, q);
  }

  /** The PDU made from the hardware pointer and the clock is the next of the schedule. */
  lemma NextOnSchedule(c: Config, start: nat, ticks: seq<nat>, app: seq<int>, ring: seq<int>,
                       hwPtr: nat, wraps: nat, done: nat, before: nat, i: nat, p: Pdu)
    requires c.Valid() && |ring| == c.bufferSize && 0 < c.bufferSize && ticks != [] && i < c.pdusPerPeriod
    requires Stored(ring, app, done)
    requires hwPtr + wraps * c.Boundary() == done && done + c.PeriodSize() <= |app|
    requires before == (|ticks| - 1) * c.pdusPerPeriod && done == before * c.framesPerPdu
    requires p.number == (before + i) % 256 && p.ptime == p.txtime + c.mtt
    requires p.txtime == TickTime(c, start, ticks[|ticks| - 1]) + c.uncertainty + c.PduPeriod() * i
    requires 0 <= hwPtr + i * c.framesPerPdu
    requires |p.frames| == c.framesPerPdu && ReadFrom(p.frames, ring, hwPtr + i * c.framesPerPdu)
    ensures OnSchedule(c, start, ticks, app, before + i, p)
  {
    var n, f, k := c.pdusPerPeriod, c.framesPerPdu, before + i;
    Unique(k, n, |ticks| - 1, i);
    Distribute(before, i, f);
    MulMonotone(i + 1, n, f);
    Distribute(i, 1, f);
    MulNonneg(i, f);
    forall m | 0 <= m < f ensures p.frames[m] == app[k * f + m] {
      PlaceOfFrame(c, hwPtr, wraps, done, i * f, m);
    }
  }

  lemma NextNumber(k: nat)
    ensures (k % 256 + 1) % 256 == (k + 1) % 256
  {
    ShiftUp(k % 256 + 1, 256, k / 256);
  }

  /** How far a stream has come: what was written, how much of it was sent, the tick at which each period
      was, and the ticks gone by. */
  datatype Progress = Progress(app: seq<int>, done: nat, ticks: seq<nat>, expirations: nat)

  /** What the application and the poll loop do. */
  datatype Event = Frames(frames: seq<int>) | Expired(expirations: nat)

  /** A number of expirations: a period each, until less than one is left, which costs one more tick. */
  function Periods(size: nat, p: Progress, n: nat): Progress
    decreases n
  {
    if n == 0 then p
    else if |p.app| - p.done < size then p.(expirations := p.expirations + 1)
    else Periods(size, Progress(p.app, p.done + size, p.ticks + [p.expirations], p.expirations + 1), n - 1)
  }

  /** An event while the network does not fail. */
  function Did(c: Config, p: Progress, event: Event): Progress {
    match event
    case Frames(frames) =>
      var room := c.bufferSize - (|p.app| - p.done);
      p.(app := p.app + frames[..if |frames| <= room then |frames| else if room < 0 then 0 else room])
    case Expired(n) => Periods(c.PeriodSize(), p, n)
  }

  lemma {:induction false} DidFirst(c: Config, p: Progress, event: Event, events: seq<Event>)
    ensures DidAll(c, p, [event] + events) == DidAll(c, Did(c, p, event), events)
  {
    var all := [event] + events;
    if events == [] {
      assert all[..|all| - 1] == [] && DidAll(c, p, []) == p;
    } else {
      DidFirst(c, p, event, events[..|events| - 1]);
      assert all[..|all| - 1] == [event] + events[..|events| - 1];
    }
  }

  function DidAll(c: Config, p: Progress, events: seq<Event>): Progress {
    if events == [] then p else Did(c, DidAll(c, p, events[..|events| - 1]), events[|events| - 1])
  }

  // ---------------------------------------------------------------- the network

  /** The next n sends succeed.  When the script of answers is used up, sends do. */
  ghost predicate Worked(link: seq<bool>, n: nat) {
    forall i :: 0 <= i < n && i < |link| ==> link[i]
  }

  /** What is left of the script behind n sends. */
  function Past(link: seq<bool>, n: nat): seq<bool> {
    if n <= |link| then link[n..] else []
  }

  /** Of n sends, one after the other until one fails, k succeeded: all of them, or those before the first
      failure. */
  ghost predicate Sends(before: seq<bool>, n: nat, k: nat, ok: bool, after: seq<bool>) {
    if ok then k == n && Worked(before, n) && after == Past(before, n)
    else k < n && k < |before| && Worked(before, k) && !before[k] && after == Past(before, k + 1)
  }

  /** They succeed exactly if the script says so of all n. */
  lemma SendsExactly(before: seq<bool>, n: nat, k: nat, ok: bool, after: seq<bool>)
    requires Sends(before, n, k, ok, after)
    ensures ok <==> Worked(before, n)
  {}

  lemma SendsThen(first: seq<bool>, a: nat, second: seq<bool>, b: nat, k: nat, ok: bool, third: seq<bool>)
    requires Sends(first, a, a, true, second) && Sends(second, b, k, ok, third)
    ensures Sends(first, a + b, a + k, ok, third)
  {
    forall i | a <= i < a + k && i < |first| ensures first[i] {
      assert first[i] == second[i - a];
    }
  }

  lemma SendsMore(before: seq<bool>, n: nat, k: nat, after: seq<bool>, m: nat)
    requires Sends(before, n, k, false, after) && n <= m
    ensures Sends(before, m, k, false, after)
  {}

  lemma NoSends(link: seq<bool>)
    ensures Sends(link, 0, 0, true, link)
  {}

  lemma OneSend(link: seq<bool>)
    ensures var ok := link == [] || link[0];
            Sends(link, 1, if ok then 1 else 0, ok, if link == [] then [] else link[1..])
  {}

  /** Between two states of a stream the network was asked for the PDUs of the periods between them, up to its
      first failure. */
  ghost predicate SentFor(c: Config, from: Progress, to: Progress, before: seq<bool>, had: nat, ok: bool,
                          after: seq<bool>, has: nat)
  {
    && |from.ticks| <= |to.ticks| && had <= has
    && 0 <= (|to.ticks| - |from.ticks|) * c.pdusPerPeriod
    && Sends(before, (|to.ticks| - |from.ticks|) * c.pdusPerPeriod, has - had, ok, after)
  }

  lemma SentForThen(c: Config, p: Progress, q: Progress, r: Progress, first: seq<bool>, had: nat, second: seq<bool>,
                    middle: nat, ok: bool, third: seq<bool>, has: nat)
    requires SentFor(c, p, q, first, had, true, second, middle) && SentFor(c, q, r, second, middle, ok, third, has)
    ensures SentFor(c, p, r, first, had, ok, third, has)
  {
    var n := c.pdusPerPeriod;
    Distribute(|q.ticks| - |p.ticks|, |r.ticks| - |q.ticks|, n);
    SendsThen(first, (|q.ticks| - |p.ticks|) * n, second, (|r.ticks| - |q.ticks|) * n, has - middle, ok, third);
  }

  lemma SentForMore(c: Config, p: Progress, q: Progress, r: Progress, before: seq<bool>, had: nat, after: seq<bool>,
                    has: nat)
    requires SentFor(c, p, q, before, had, false, after, has) && |q.ticks| <= |r.ticks|
    ensures SentFor(c, p, r, before, had, false, after, has)
  {
    MulMonotone(|q.ticks| - |p.ticks|, |r.ticks| - |p.ticks|, c.pdusPerPeriod);
  }

  lemma SentForNothing(c: Config, p: Progress, q: Progress, link: seq<bool>, had: nat)
    requires |q.ticks| == |p.ticks|
    ensures SentFor(c, p, q, link, had, true, link, had)
  {
    assert 0 * c.pdusPerPeriod == 0;
  }

  lemma {:induction false} PeriodsGrow(size: nat, p: Progress, n: nat)
    ensures |p.ticks| <= |Periods(size, p, n).ticks|
    decreases n
  {
    if n > 0 && size <= |p.app| - p.done {
      PeriodsGrow(size, Progress(p.app, p.done + size, p.ticks + [p.expirations], p.expirations + 1), n - 1);
    }
  }

  lemma {:induction false} DidAllGrows(c: Config, p: Progress, events: seq<Event>, i: nat)
    requires i <= |events|
    ensures |DidAll(c, p, events[..i]).ticks| <= |DidAll(c, p, events).ticks|
    decreases |events|
  {
    if i == |events| {
      assert events[..i] == events;
    } else {
      var before, last := events[..|events| - 1], events[|events| - 1];
      DidAllGrows(c, p, before, i);
      assert before[..i] == events[..i];
      if last.Expired? {
        PeriodsGrow(c.PeriodSize(), DidAll(c, p, before), last.expirations);
      }
    }
  }

  lemma NoneDone(c: Config, p: Progress, events: seq<Event>)
    ensures DidAll(c, p, events[..0]) == p
  {}

  lemma DidNext(c: Config, p: Progress, events: seq<Event>, i: nat)
    requires i < |events|
    ensures DidAll(c, p, events[..i + 1]) == Did(c, DidAll(c, p, events[..i]), events[i])
  {
    assert events[..i + 1][..i] == events[..i];
  }

  lemma PeriodNotEmpty(c: Config)
    requires c.Valid()
    ensures 0 < c.PeriodSize()
  {
    MulMonotone(1, c.pdusPerPeriod, c.framesPerPdu);
  }

  lemma OneMore(m: int, size: nat)
    ensures (m + 1) * size == m * size + size
  {}

  /** As many periods as there are expirations and enough frames for. */
  lemma {:induction false} PeriodsExact(size: nat, p: Progress, n: nat)
    requires 0 < size && p.done <= |p.app|
    ensures var r := Periods(size, p, n);
            var m := |r.ticks| - |p.ticks|;
            && 0 <= m <= n && r.app == p.app && r.done == p.done + m * size && r.done <= |p.app|
            && (m == n <==> n * size <= |p.app| - p.done)
            && r.expirations == p.expirations + if m == n then n else m + 1
    decreases n
  {
    if n > 0 && size <= |p.app| - p.done {
      var q := Progress(p.app, p.done + size, p.ticks + [p.expirations], p.expirations + 1);
      PeriodsExact(size, q, n - 1);
      OneMore(|Periods(size, q, n - 1).ticks| - |q.ticks|, size);
      OneMore(n - 1, size);
    } else if n > 0 {
      MulMonotone(1, n, size);
    }
  }

  /** After i of n expirations. */
  ghost predicate UnderWay(c: Config, start: Progress, before: seq<bool>, had: nat, n: nat, i: nat, p: Progress,
                           after: seq<bool>, has: nat)
  {
    && i <= n && |p.ticks| == |start.ticks| + i && p.app == start.app && p.done <= |p.app|
    && Periods(c.PeriodSize(), p, n - i) == Periods(c.PeriodSize(), start, n)
    && SentFor(c, start, p, before, had, true, after, has)
  }

  lemma UnderWayAtFirst(c: Config, start: Progress, link: seq<bool>, had: nat, n: nat)
    requires start.done <= |start.app|
    ensures UnderWay(c, start, link, had, n, 0, start, link, had)
  {
    assert 0 * c.pdusPerPeriod == 0;
  }

  lemma UnderWayOn(c: Config, start: Progress, before: seq<bool>, had: nat, n: nat, i: nat, p: Progress,
                   middle: seq<bool>, has: nat, after: seq<bool>, now: nat)
    requires UnderWay(c, start, before, had, n, i, p, middle, has) && i < n
    requires c.PeriodSize() <= |p.app| - p.done
    requires has <= now && Sends(middle, c.pdusPerPeriod, now - has, true, after)
    ensures UnderWay(c, start, before, had, n, i + 1, Progress(p.app, p.done + c.PeriodSize(),
                                                               p.ticks + [p.expirations],
                                                               p.expirations + 1), after, now)
  {
    hide Config.PeriodSize;
    Distribute(i, 1, c.pdusPerPeriod);
    SendsThen(before, i * c.pdusPerPeriod, middle, c.pdusPerPeriod, c.pdusPerPeriod, true, after);
  }

  lemma UnderWayDry(c: Config, start: Progress, before: seq<bool>, had: nat, n: nat, i: nat, p: Progress,
                    after: seq<bool>, has: nat)
    requires UnderWay(c, start, before, had, n, i, p, after, has) && i < n
    requires |p.app| - p.done < c.PeriodSize()
    ensures var r := Periods(c.PeriodSize(), start, n);
            && r == p.(expirations := p.expirations + 1) && |r.ticks| == |start.ticks| + i
            && SentFor(c, start, r, before, had, true, after, has)
  {
    hide Config.PeriodSize, Sends;
  }

  lemma UnderWayBroken(c: Config, start: Progress, before: seq<bool>, had: nat, n: nat, i: nat, p: Progress,
                       middle: seq<bool>, has: nat, after: seq<bool>, now: nat)
    requires c.Valid() && UnderWay(c, start, before, had, n, i, p, middle, has) && i < n
    requires c.PeriodSize() <= |p.app| - p.done
    requires has <= now && Sends(middle, c.pdusPerPeriod, now - has, false, after)
    ensures SentFor(c, start, Periods(c.PeriodSize(), start, n), before, had, false, after, now)
  {
    hide Config.PeriodSize;
    PeriodNotEmpty(c);
    PeriodsExact(c.PeriodSize(), p, n - i);
    var r := Periods(c.PeriodSize(), start, n);
    MulMonotone(1, n - i, c.PeriodSize());
    assert i + 1 <= |r.ticks| - |start.ticks| by {
      OnePeriodMore(c.PeriodSize(), p, n - i);
    }
    Distribute(i, 1, c.pdusPerPeriod);
    SendsThen(before, i * c.pdusPerPeriod, middle, c.pdusPerPeriod, now - has, false, after);
    MulMonotone(i + 1, |r.ticks| - |start.ticks|, c.pdusPerPeriod);
    SendsMore(before, (i + 1) * c.pdusPerPeriod, now - had, after, (|r.ticks| - |start.ticks|) * c.pdusPerPeriod);
  }

  lemma OnePeriodMore(size: nat, p: Progress, n: nat)
    requires 0 < n && 0 < size <= |p.app| - p.done
    ensures |p.ticks| < |Periods(size, p, n).ticks|
  {
    PeriodsExact(size, Progress(p.app, p.done + size, p.ticks + [p.expirations], p.expirations + 1), n - 1);
  }

  lemma UnderWayAtLast(c: Config, start: Progress, before: seq<bool>, had: nat, n: nat, p: Progress,
                       after: seq<bool>, has: nat)
    requires UnderWay(c, start, before, had, n, n, p, after, has)
    ensures p == Periods(c.PeriodSize(), start, n) && |p.ticks| == |start.ticks| + n
    ensures SentFor(c, start, p, before, had, true, after, has)
  {}

  class Device {
    const c: Config
    const ring: array<int>

    var hwPtr: nat
    var pduSeq: nat
    var timerStart: nat
    var timerPeriod: nat
    var timerExpirations: nat

    /** What the application wrote, how much of it was sent, and in what PDUs. */
    var app: seq<int>
    var done: nat
    var sent: seq<Pdu>

    /** Whether the next calls of sendmsg succeed; when the list is used up, they do. */
    var link: seq<bool>

    /** The tick at which each period was sent, and how often the hardware pointer wrapped. */
    ghost var ticks: seq<nat>
    ghost var wraps: nat

    ghost function Now(): Progress
      reads `app, `done, `ticks, `timerExpirations
    {
      Progress(app, done, ticks, timerExpirations)
    }

    lemma NowIs()
      ensures Now() == Progress(app, done, ticks, timerExpirations)
    {}

    lemma Extent()
      requires Valid()
      ensures done <= |app| && c.Valid() && 0 < c.rate && 0 < c.PeriodSize() && Scheduled()
    {
      PeriodNotEmpty(c);
    }

    /** Everything sent is as scheduled. */
    ghost predicate Scheduled()
      reads `timerStart, `ticks, `app, `sent
      requires c.Valid()
    {
      AllOnSchedule(c, timerStart, ticks, app, sent)
    }

    ghost predicate Positions()
      reads this
    {
      && hwPtr + wraps * c.Boundary() == done && hwPtr <= c.Boundary()
      && pduSeq == |sent| % 256
      && |sent| == |ticks| * c.pdusPerPeriod && done == |sent| * c.framesPerPdu
    }

    ghost predicate Clocked()
      reads this
      requires c.Valid()
    {
      && (if timerExpirations == 0 then ticks == [] else timerPeriod == c.Period())
      && Increasing(ticks) && forall j :: 0 <= j < |ticks| ==> ticks[j] < timerExpirations
    }

    ghost predicate Valid()
      reads this, ring
    {
      && c.Valid() && ring.Length == c.bufferSize && Held(ring, app, done)
      && Positions() && Clocked() && Scheduled()
    }

    /** aaf_prepare on a new device. */
    constructor (c: Config, link: seq<bool>)
      requires c.Valid()
      ensures Valid() && this.c == c && sent == [] && Now() == Progress([], 0, [], 0) && fresh(ring)
      ensures this.link == link
    {
      this.c, this.link := c, link;
      ring := new int[c.bufferSize];
      hwPtr, pduSeq, timerStart, timerPeriod, timerExpirations := 0, 0, 0, 0, 0;
      app, done, sent, ticks, wraps := [], 0, [], [], 0;
    }

    /** aaf_mclk_start_playback: the first tick is one period away. */
    method Start(now: nat)
      requires Valid() && timerExpirations == 0
      modifies `timerStart, `timerPeriod
      ensures Valid() && timerPeriod == c.Period() && timerStart == now + c.Period()
    {
      timerPeriod := c.Period();
      timerStart := now + timerPeriod;
    }

    /** The application writes as much as fits in the buffer. */
    method Write(frames: seq<int>) returns (taken: nat)
      requires Valid()
      modifies `app, ring
      ensures Valid() && taken == Min(|frames|, c.bufferSize - (|old(app)| - done))
      ensures app == old(app) + frames[..taken]
    {
      taken := Min(|frames|, c.bufferSize - (|app| - done));
      for i := 0 to taken
        invariant Held(ring, app, done) && app == old(app) + frames[..i]
      {
        Put(frames[i]);
      }
      KeepAllOnSchedule(c, timerStart, ticks, old(app), sent, ticks, app);
    }

    method Put(frame: int)
      requires Held(ring, app, done) && |app| - done < ring.Length
      modifies `app, ring
      ensures Held(ring, app, done) && app == old(app) + [frame]
    {
      forall i | done <= i < |app| ensures i % ring.Length != |app| % ring.Length {
        Apart(i, |app|, ring.Length);
      }
      ring[|app| % ring.Length] := frame;
      app := app + [frame];
    }

    /** aaf_mclk_gettime. */
    function GetTime(): nat
      reads `timerStart, `timerPeriod, `timerExpirations
    {
      if timerExpirations == 0 then 0 else
        MulNonneg(timerPeriod, timerExpirations - 1);
        timerStart + timerPeriod * (timerExpirations - 1)
    }

    /** aaf_tx_pdu: one PDU from a place in the buffer.  The sequence number is used up even if sending fails. */
    method TxPdu(ptr: nat, ptime: nat, txtime: nat) returns (res: int)
      requires ring.Length == c.bufferSize && 0 < c.bufferSize
      modifies `pduSeq, `sent, `link
      ensures pduSeq == (old(pduSeq) + 1) % 256
      ensures res == 0 || (res == EIO && sent == old(sent))
      ensures res == 0 <==> old(link) == [] || old(link)[0]
      ensures link == if old(link) == [] then [] else old(link)[1..]
      ensures res == 0 ==>
                && |sent| == |old(sent)| + 1 && sent[..|old(sent)|] == old(sent)
                && sent[|old(sent)|] == Pdu(old(pduSeq), ptime, txtime, sent[|old(sent)|].frames)
                && |sent[|old(sent)|].frames| == c.framesPerPdu
                && ReadFrom(sent[|old(sent)|].frames, ring[..], ptr)
      ensures old(Reliable()) ==> res == 0 && Reliable()
    {
      var frames := CopyWrap(ring, ptr % c.bufferSize, c.framesPerPdu);
      var number := pduSeq;
      pduSeq := (pduSeq + 1) % 256;
      var ok := link == [] || link[0];
      link := if link == [] then [] else link[1..];
      if !ok {
        return EIO;
      }
      sent := sent + [Pdu(number, ptime, txtime, frames)];
      res := 0;
    }

    ghost predicate Reliable()
      reads `link
    {
      forall i :: 0 <= i < |link| ==> link[i]
    }

    /** A period is being sent: its tick is the last, and before counts the PDUs sent by then. */
    ghost predicate Sending(before: nat)
      reads `hwPtr, `timerPeriod, `timerExpirations, `app, `done, `ticks, `wraps, ring
    {
      && c.Valid() && ring.Length == c.bufferSize && Held(ring, app, done)
      && done + c.PeriodSize() <= |app| && hwPtr + wraps * c.Boundary() == done
      && ticks != [] && 0 < timerExpirations && ticks[|ticks| - 1] == timerExpirations - 1
      && timerPeriod == c.Period()
      && before == (|ticks| - 1) * c.pdusPerPeriod && done == before * c.framesPerPdu
    }

    /** One turn of the loop of aaf_tx_pdus. */
    method TxNext(ghost before: nat, ghost i: nat, ptr: nat, ptime: nat, txtime: nat) returns (res: int)
      requires Sending(before) && Scheduled() && i < c.pdusPerPeriod && |sent| == before + i && pduSeq == |sent| % 256
      requires ptr == hwPtr + i * c.framesPerPdu
      requires txtime == GetTime() + c.uncertainty + i * c.PduPeriod() && ptime == txtime + c.mtt
      modifies `pduSeq, `sent, `link
      ensures Sending(before) && Scheduled() && (res == 0 || res == EIO) && old(sent) <= sent
      ensures res == 0 ==> |sent| == before + i + 1 && pduSeq == |sent| % 256
      ensures Sends(old(link), 1, |sent| - |old(sent)|, res == 0, link)
      ensures old(Reliable()) ==> res == 0 && Reliable()
    {
      hide Held, ReadFrom, AllOnSchedule, OnSchedule, Config.Period, Config.PduPeriod, Config.Boundary,
          Config.PeriodSize, Sends;
      OneSend(link);
      res := TxPdu(ptr, ptime, txtime);
      if res == 0 {
        ghost var p := sent[before + i];
        InPlace(before, i, p);
        NextNumber(before + i);
        OneMoreOnSchedule(c, timerStart, ticks, app, old(sent), sent);
      }
    }

    lemma InPlace(before: nat, i: nat, p: Pdu)
      requires Sending(before) && i < c.pdusPerPeriod && 0 <= hwPtr + i * c.framesPerPdu
      requires p.number == (before + i) % 256 && p.ptime == p.txtime + c.mtt
      requires p.txtime == GetTime() + c.uncertainty + i * c.PduPeriod()
      requires |p.frames| == c.framesPerPdu && ReadFrom(p.frames, ring[..], hwPtr + i * c.framesPerPdu)
      ensures OnSchedule(c, timerStart, ticks, app, before + i, p)
    {
      Commute(i, c.PduPeriod());
      hide Config.Period, Config.PduPeriod, Stored, ReadFrom, OnSchedule;
      NextOnSchedule(c, timerStart, ticks, app, ring[..], hwPtr, wraps, done, before, i, p);
    }

    /** aaf_tx_pdus: the PDUs of one period, launched from the current tick on.  Whatever was sent when an
        error ends it is as scheduled. */
    method TxPdus(count: nat) returns (res: int)
      requires c.Valid() && Sending(|sent|) && Scheduled() && count == c.pdusPerPeriod && pduSeq == |sent| % 256
      modifies `pduSeq, `sent, `link
      ensures Scheduled() && old(sent) <= sent && (res == 0 || res == EIO)
      ensures res == 0 ==> |sent| == |old(sent)| + count && pduSeq == |sent| % 256
      ensures Sends(old(link), count, |sent| - |old(sent)|, res == 0, link)
      ensures old(Reliable()) ==> res == 0 && Reliable()
    {
      hide Sending, AllOnSchedule, Config.Period, Config.PduPeriod, Sends;
      NoSends(link);
      var txtime := GetTime() + c.uncertainty;
      var ptime := txtime + c.mtt;
      var ptr := hwPtr;
      ghost var before, base := |sent|, txtime;
      hide GetTime;
      for i := 0 to count
        invariant Sending(before) && Scheduled() && old(sent) <= sent && |sent| == before + i && pduSeq == |sent| % 256
        invariant ptr == hwPtr + i * c.framesPerPdu
        invariant txtime == base + i * c.PduPeriod() && ptime == txtime + c.mtt
        invariant old(Reliable()) ==> Reliable()
        invariant Sends(old(link), i, i, true, link)
      {
        ghost var was, had := link, |sent|;
        res := TxNext(before, i, ptr, ptime, txtime);
        SendsThen(old(link), i, was, 1, |sent| - had, res == 0, link);
        if res < 0 {
          SendsMore(old(link), i + 1, i + |sent| - had, link, count);
          return res;
        }
        Distribute(i, 1, c.framesPerPdu);
        Distribute(i, 1, c.PduPeriod());
        txtime := txtime + c.PduPeriod();
        ptime := ptime + c.PduPeriod();
        ptr := ptr + c.framesPerPdu;
      }
      res := 0;
    }

    /** aaf_inc_ptr on the hardware pointer: it may come to stand on the boundary itself. */
    method IncPtr()
      requires c.Valid() && hwPtr <= c.Boundary() && hwPtr + wraps * c.Boundary() == done
      modifies `hwPtr, `wraps
      ensures hwPtr <= c.Boundary() && hwPtr + wraps * c.Boundary() == done + c.PeriodSize()
    {
      MulMonotone(1, c.buffersPerBoundary, c.bufferSize);
      hwPtr := hwPtr + c.PeriodSize();
      if hwPtr > c.Boundary() {
        Distribute(wraps, 1, c.Boundary());
        hwPtr := hwPtr - c.Boundary();
        wraps := wraps + 1;
      }
    }

    /** aaf_tx_frames: one period, or an underrun if the buffer holds less than that. */
    method TxFrames() returns (res: int)
      requires Valid() && 0 < timerExpirations
      requires forall j :: 0 <= j < |ticks| ==> ticks[j] < timerExpirations - 1
      modifies `hwPtr, `pduSeq, `done, `sent, `link, `ticks, `wraps
      ensures Scheduled() && old(sent) <= sent && old(ticks) <= ticks
      ensures res == 0 || res == EPIPE || res == EIO
      ensures res == EPIPE <==> |app| - old(done) < c.PeriodSize()
      ensures res == EPIPE ==> Valid() && sent == old(sent) && ticks == old(ticks) && done == old(done)
      ensures res == 0 ==> Valid() && ticks == old(ticks) + [timerExpirations - 1]
                           && done == old(done) + c.PeriodSize()
      ensures if res == EPIPE then link == old(link)
              else Sends(old(link), c.pdusPerPeriod, |sent| - |old(sent)|, res == 0, link)
      ensures old(Reliable()) ==> res != EIO && Reliable()
    {
      var available := |app| - done;
      if available < c.PeriodSize() {
        return EPIPE;
      }
      ghost var before := ticks;
      ticks := ticks + [timerExpirations - 1];
      KeepAllOnSchedule(c, timerStart, before, app, sent, ticks, app);
      Unique(c.PeriodSize(), c.framesPerPdu, c.pdusPerPeriod, 0);
      res := TxPdus(c.PeriodSize() / c.framesPerPdu);
      if res < 0 {
        return res;
      }
      IncPtr();
      Distribute(|before|, 1, c.pdusPerPeriod);
      Distribute(|old(sent)|, c.pdusPerPeriod, c.framesPerPdu);
      done := done + c.PeriodSize();
    }

    /** One turn of the loop of aaf_timer_timeout. */
    method Tick() returns (res: int)
      requires Valid() && timerPeriod == c.Period()
      modifies `timerExpirations, `hwPtr, `pduSeq, `done, `sent, `link, `ticks, `wraps
      ensures Scheduled() && old(sent) <= sent && old(ticks) <= ticks
      ensures timerExpirations == old(timerExpirations) + 1 && timerPeriod == c.Period()
      ensures res == 0 || res == EPIPE || res == EIO
      ensures res == EPIPE <==> |app| - old(done) < c.PeriodSize()
      ensures res == EPIPE ==> Valid() && sent == old(sent) && ticks == old(ticks) && done == old(done)
      ensures res == 0 ==>
                Valid() && ticks == old(ticks) + [old(timerExpirations)] && done == old(done) + c.PeriodSize()
      ensures if res == EPIPE then link == old(link)
              else Sends(old(link), c.pdusPerPeriod, |sent| - |old(sent)|, res == 0, link)
      ensures old(Reliable()) ==> res != EIO && Reliable()
    {
      timerExpirations := timerExpirations + 1;
      res := TxFrames();
    }

    /** aaf_timer_timeout: one period for every expiration read from the timer, until one fails.  An
        underrun costs the expirations behind it, but nothing of the stream. */
    method Timeout(expirations: nat) returns (res: int)
      requires Valid() && timerPeriod == c.Period()
      modifies `timerExpirations, `hwPtr, `pduSeq, `done, `sent, `link, `ticks, `wraps
      ensures Scheduled() && old(sent) <= sent && old(ticks) <= ticks
      ensures res == 0 || res == EPIPE || res == EIO
      ensures res != EIO ==> Valid()
      ensures res == 0 ==> timerExpirations == old(timerExpirations) + expirations
                           && |ticks| == |old(ticks)| + expirations
      ensures res == EPIPE ==> timerExpirations - |ticks| == old(timerExpirations) - |old(ticks)| + 1
      ensures res != EIO ==>
                Now() == Periods(c.PeriodSize(), old(Now()), expirations)
                && (res == 0 <==> expirations * c.PeriodSize() <= |app| - old(done))
      ensures SentFor(c, old(Now()), Periods(c.PeriodSize(), old(Now()), expirations), old(link), |old(sent)|,
                      res != EIO,
                      link, |sent|)
      ensures old(Reliable()) ==> Reliable() && res != EIO
    {
      hide *;
      ghost var size, start, was, had := c.PeriodSize(), Now(), link, |sent|;
      Extent();
      NowIs();
      PeriodsExact(size, start, expirations);
      UnderWayAtFirst(c, start, was, had, expirations);
      ErrorsNegative();
      for i := 0 to expirations
        invariant Valid() && timerPeriod == c.Period() && size == c.PeriodSize()
        invariant old(sent) <= sent && start.ticks <= ticks && start.app == app
        invariant UnderWay(c, start, was, had, expirations, i, Now(), link, |sent|)
        invariant old(Reliable()) ==> Reliable()
      {
        ghost var p, l, s := Now(), link, |sent|;
        NowIs();
        res := Tick();
        NowIs();
        if res < 0 {
          if res == EIO {
            UnderWayBroken(c, start, was, had, expirations, i, p, l, s, link, |sent|);
          } else {
            UnderWayDry(c, start, was, had, expirations, i, p, l, s);
          }
          return res;
        }
        UnderWayOn(c, start, was, had, expirations, i, p, l, s, link, |sent|);
      }
      UnderWayAtLast(c, start, was, had, expirations, Now(), link, |sent|);
      NowIs();
      Extent();
      res := 0;
    }

    /** Any run of writes and timer reads up to the first failure of the network: it comes to what the
        reference says, and whatever was sent is on schedule and carries the application's frames in order. */
    method Run(events: seq<Event>) returns (res: int)
      requires Valid() && timerPeriod == c.Period()
      modifies `timerExpirations, `hwPtr, `pduSeq, `done, `sent, `link, `ticks, `wraps, `app, ring
      ensures Scheduled() && old(sent) <= sent && old(app) <= app
      ensures res == 0 || res == EIO
      ensures res == 0 ==> Valid() && Now() == DidAll(c, old(Now()), events) && Payload(sent) == app[..done]
      ensures SentFor(c, old(Now()), DidAll(c, old(Now()), events), old(link), |old(sent)|, res == 0, link, |sent|)
      ensures old(Reliable()) ==> res == 0
    {
      hide Held, OnSchedule, Device.Clocked, Config.Period, Config.PeriodSize, Config.Boundary, Periods, SentFor,
          DidAll;
      var i := 0;
      ghost var start, was, had := Now(), link, |sent|;
      SentForNothing(c, start, start, link, had);
      NoneDone(c, start, events);
      while i < |events|
        invariant i <= |events| && Valid() && timerPeriod == c.Period() && old(sent) <= sent && old(app) <= app
        invariant Now() == DidAll(c, start, events[..i])
        invariant SentFor(c, start, Now(), was, had, true, link, |sent|)
        invariant old(Reliable()) ==> Reliable()
      {
        ghost var p, l, s := Now(), link, |sent|;
        DidNext(c, start, events, i);
        match events[i] {
          case Frames(frames) =>
            var taken := Write(frames);
            SentForNothing(c, p, Now(), link, s);
            SentForThen(c, start, p, Now(), was, had, l, s, true, link, |sent|);
          case Expired(expirations) =>
            res := Timeout(expirations);
            ghost var q := Periods(c.PeriodSize(), p, expirations);
            SentForThen(c, start, p, q, was, had, l, s, res != EIO, link, |sent|);
            if res == EIO {
              DidAllGrows(c, start, events, i + 1);
              SentForMore(c, start, q, DidAll(c, start, events), was, had, link, |sent|);
              return res;
            }
        }
        i := i + 1;
      }
      assert events[..i] == events;
      InOrder(|sent|);
      assert sent[..|sent|] == sent;
      res := 0;
    }

    /** A stream from aaf_prepare on: some frames, the start of the clock, and any run behind it. */
    static method Play(c: Config, link: seq<bool>, frames: seq<int>, now: nat, events: seq<Event>)
      returns (d: Device, res: int)
      requires c.Valid()
      ensures fresh(d) && d.c == c && (res == 0 || res == EIO)
      ensures (forall i :: 0 <= i < |link| ==> link[i]) ==> res == 0
      ensures AllOnSchedule(c, now + c.Period(), d.ticks, d.app, d.sent)
      ensures res == 0 ==>
                && d.Valid() && d.Now() == DidAll(c, Progress([], 0, [], 0), [Frames(frames)] + events)
                && Payload(d.sent) == d.app[..d.done]
      ensures SentFor(c, Progress([], 0, [], 0), DidAll(c, Progress([], 0, [], 0), [Frames(frames)] + events), link, 0,
                      res == 0, d.link, |d.sent|)
    {
      hide Device.Valid, Device.Positions, Device.Clocked, Held, AllOnSchedule, OnSchedule, DidAll, Periods, Payload,
          Config.Period, Config.PeriodSize, Config.Boundary;
      d := new Device(c, link);
      var taken := d.Write(frames);
      d.Start(now);
      DidFirst(c, Progress([], 0, [], 0), Frames(frames), events);
      res := d.Run(events);
    }

    /** The payloads of the PDUs, put together, are the application's stream. */
    lemma {:induction false} InOrder(count: nat)
      requires c.Valid() && Scheduled() && count <= |sent|
      ensures 0 <= count * c.framesPerPdu <= |app|
      ensures Payload(sent[..count]) == app[..count * c.framesPerPdu]
    {
      if count > 0 {
        var f := c.framesPerPdu;
        var lo := (count - 1) * f;
        InOrder(count - 1);
        Distribute(count - 1, 1, f);
        assert OnSchedule(c, timerStart, ticks, app, count - 1, sent[count - 1]);
        OnePayload(sent, count - 1, app, lo, f);
      }
    }

    /** In every reachable state, launches are at least a PDU period apart, presentation follows launch by
        the transit time, and neighbours are numbered modulo 256. */
    lemma Launches(k: nat, l: nat)
      requires Valid() && k < l < |sent|
      ensures sent[k].txtime + c.PduPeriod() <= sent[l].txtime && 0 < c.PduPeriod()
      ensures sent[k].ptime - sent[k].txtime == c.mtt
      ensures (sent[l].number - sent[k].number) % 256 == (l - k) % 256
      ensures |ticks| == timerExpirations && l == k + 1 ==>
                sent[l].txtime - sent[k].txtime <= c.PduPeriod() + c.pdusPerPeriod - 1
    {
      hide OnSchedule, TxTime, Held, Device.Positions, Config.Period, Config.PduPeriod;
      assert OnSchedule(c, timerStart, ticks, app, k, sent[k]) && OnSchedule(c, timerStart, ticks, app, l, sent[l]);
      TwoLaunches(c, timerStart, ticks, app, k, l, sent[k], sent[l]);
      if |ticks| == timerExpirations && l == k + 1 {
        NoneMissed(ticks);
        LaunchGap(c, timerStart, ticks, k);
      }
    }
  }

  /** What the network was given: PDU k of a stream whose clock was started at a time, in terms of the
      configuration alone.  The first tick is one period behind the start. */
  lemma PduOf(c: Config, now: nat, ticks: seq<nat>, app: seq<int>, sent: seq<Pdu>, k: nat)
    requires c.Valid() && 0 < c.rate && 0 < c.pdusPerPeriod && k < |sent|
    requires AllOnSchedule(c, now + c.Period(), ticks, app, sent)
    ensures var n, f := c.pdusPerPeriod, c.framesPerPdu;
            && 0 <= k / n < |ticks| && 0 <= k * f <= k * f + f <= |app|
            && sent[k].txtime == now + c.uncertainty + (ticks[k / n] + 1) * (1_000_000_000 * (n * f) / c.rate)
                                 + k % n * (1_000_000_000 * f / c.rate)
            && sent[k].ptime == sent[k].txtime + c.mtt
            && sent[k].number == k % 256 && sent[k].frames == app[k * f..k * f + f]
  {
    hide Config.Period, Config.PduPeriod, TxTime;
    PeriodsSpelt(c);
    assert OnSchedule(c, now + c.Period(), ticks, app, k, sent[k]);
    TimeParts(c, now + c.Period(), ticks, k);
    OneMore(ticks[k / c.pdusPerPeriod], c.Period());
    Commute(c.Period(), ticks[k / c.pdusPerPeriod]);
    Commute(c.PduPeriod(), k % c.pdusPerPeriod);
  }

  lemma PeriodsSpelt(c: Config)
    requires 0 < c.rate
    ensures c.Period() == 1_000_000_000 * (c.pdusPerPeriod * c.framesPerPdu) / c.rate
    ensures c.PduPeriod() == 1_000_000_000 * c.framesPerPdu / c.rate
  {}

  /** How the expirations were batched does not show: two devices that were started at the same time,
      were given the same stream, and missed no tick, have sent the same. */
  lemma Batching(d: Device, e: Device)
    requires d.Valid() && e.Valid() && d.c == e.c && d.timerStart == e.timerStart && d.app == e.app
    requires |d.ticks| == d.timerExpirations == e.timerExpirations == |e.ticks|
    ensures d.sent == e.sent
  {
    NoneMissed(d.ticks);
    NoneMissed(e.ticks);
    assert d.ticks == e.ticks;
    forall k | 0 <= k < |d.sent| ensures d.sent[k] == e.sent[k] {
      assert OnSchedule(d.c, d.timerStart, d.ticks, d.app, k, d.sent[k]);
      assert OnSchedule(e.c, e.timerStart, e.ticks, e.app, k, e.sent[k]);
    }
  }

  lemma OnePayload(sent: seq<Pdu>, k: nat, app: seq<int>, lo: nat, n: nat)
    requires k < |sent| && lo + n <= |app| && sent[k].frames == app[lo..lo + n] && Payload(sent[..k]) == app[..lo]
    ensures Payload(sent[..k + 1]) == app[..lo + n]
  {
    assert sent[..k + 1][..k] == sent[..k];
    assert app[..lo + n] == app[..lo] + app[lo..lo + n];
  }

  function Payload(sent: seq<Pdu>): seq<int> {
    if sent == [] then [] else Payload(sent[..|sent| - 1]) + sent[|sent| - 1].frames
  }

  const WORD32 := 0x1_0000_0000

  /** The presentation time aaf_mclk_start_capture recovers from the low half that the PDU carries. */
  function Recovered(now: nat, stamp: nat): nat {
    var ptime := now - now % WORD32 + stamp;
    if ptime < now then ptime + WORD32 else ptime
  }

  /** A listener recovers the talker's presentation time if and only if it starts no later than that time
      and less than one turn of the 32-bit timestamp before it. */
  lemma TimestampRecovered(now: nat, ptime: nat)
    ensures Recovered(now, ptime % WORD32) == ptime <==> now <= ptime < now + WORD32
  {}

  /** The test is_ptime_valid makes on a timestamp, apart from the media clock. */
  predicate Expected(stamp: nat, expected: nat, tolerance: nat) {
    var ptime := expected - expected % WORD32 + stamp;
    expected - tolerance <= ptime <= expected + tolerance
  }

  /** A PDU whose presentation time is within the tolerance is recognised if and only if the upper halves
      of that time and of the expected one agree. */
  lemma ExpectedWithinTurn(ptime: nat, expected: nat, tolerance: nat)
    requires tolerance <= expected && 2 * tolerance < WORD32
    requires expected - tolerance <= ptime <= expected + tolerance
    ensures Expected(ptime % WORD32, expected, tolerance) <==> ptime / WORD32 == expected / WORD32
  {}

  /** One whose presentation time is outside the tolerance, but less than half a turn away, is refused. */
  lemma RefusedOutside(ptime: nat, expected: nat, tolerance: nat)
    requires tolerance <= expected && 2 * tolerance < WORD32
    requires expected - WORD32 / 2 < ptime < expected + WORD32 / 2
    requires ptime < expected - tolerance || expected + tolerance < ptime
    ensures !Expected(ptime % WORD32, expected, tolerance)
  {}

  /** A PDU that is 10 nanoseconds late, within a tolerance of 20, but behind a turn of the timestamp: its
      time reads as 5, and it is refused. */
  lemma RefusedBehindTurn()
    ensures var ptime, expected := WORD32 + 5, WORD32 - 5;
            ptime - expected <= 20 && ptime % WORD32 == 5 && !Expected(ptime % WORD32, expected, 20)
  {}
}
