/** The A52 output plugin: one block being filled, one encoded burst being written out. */
module A52 {
  import opened Buffers
  import opened Division
  import opened Wrappers

  const EAGAIN := -11
  const EPIPE := -32
  const EINVAL := -22
  const ESTRPIPE := -86

  /** The encoder is stateful: its answer to a block may depend on every block it was given before.
      None is an encoder error.  An answer longer than a burst is an error too. */
  type Encoder = seq<seq<int>> -> Option<seq<int>>

  predicate Encodes(encode: Encoder, size: nat, attempts: seq<seq<int>>) {
    encode(attempts).Some? && |encode(attempts).value| <= size
  }

  /** The encoder failed on the last block. */
  predicate LastFailed(encode: Encoder, size: nat, attempts: seq<seq<int>>) {
    attempts != [] && !Encodes(encode, size, attempts)
  }

  /** A burst is padded with zeros to the frame size. */
  function Padded(payload: seq<int>, size: nat): (r: seq<int>)
    requires |payload| <= size
    ensures |r| == size
  {
    payload + seq(size - |payload|, _ => 0)
  }

  /** The bursts that came of a history of encoder calls. */
  function Bursts(encode: Encoder, size: nat, attempts: seq<seq<int>>): seq<int> {
    if attempts == [] then [] else
      var before := Bursts(encode, size, attempts[..|attempts| - 1]);
      if Encodes(encode, size, attempts) then before + Padded(encode(attempts).value, size) else before
  }

  /** The blocks they encode. */
  function Blocks(encode: Encoder, size: nat, attempts: seq<seq<int>>): seq<int> {
    if attempts == [] then [] else
      var before := Blocks(encode, size, attempts[..|attempts| - 1]);
      if Encodes(encode, size, attempts) then before + attempts[|attempts| - 1] else before
  }

  /** How many of them there are. */
  function Count(encode: Encoder, size: nat, attempts: seq<seq<int>>): nat {
    if attempts == [] then 0 else
      var before := Count(encode, size, attempts[..|attempts| - 1]);
      if Encodes(encode, size, attempts) then before + 1 else before
  }

  lemma {:induction false} Lengths(encode: Encoder, size: nat, attempts: seq<seq<int>>)
    requires forall i :: 0 <= i < |attempts| ==> |attempts[i]| == size
    ensures |Bursts(encode, size, attempts)| == size * Count(encode, size, attempts)
    ensures |Blocks(encode, size, attempts)| == size * Count(encode, size, attempts)
  {
    if attempts != [] {
      Lengths(encode, size, attempts[..|attempts| - 1]);
      Distribute(Count(encode, size, attempts[..|attempts| - 1]), 1, size);
    }
  }

  /** Every answer of the encoder that fits is in the bursts, in its turn: frame j of its burst is frame j of
      the answer, and zero behind the answer.  Its block is among the blocks at the same place. */
  lemma {:induction false} AnswerCarried(encode: Encoder, size: nat, attempts: seq<seq<int>>, i: nat, j: nat)
    requires forall a :: 0 <= a < |attempts| ==> |attempts[a]| == size
    requires i < |attempts| && encode(attempts[..i + 1]).Some? && |encode(attempts[..i + 1]).value| <= size
    requires j < size
    ensures var answer, at := encode(attempts[..i + 1]).value, size * Count(encode, size, attempts[..i]) + j;
            && 0 <= at < |Bursts(encode, size, attempts)|
            && Bursts(encode, size, attempts)[at] == (if j < |answer| then answer[j] else 0)
            && at < |Blocks(encode, size, attempts)| && Blocks(encode, size, attempts)[at] == attempts[i][j]
    decreases |attempts|
  {
    var before := attempts[..|attempts| - 1];
    Lengths(encode, size, before);
    MulNonneg(size, Count(encode, size, attempts[..i]));
    if i < |before| {
      assert before[..i + 1] == attempts[..i + 1] && before[..i] == attempts[..i];
      AnswerCarried(encode, size, before, i, j);
    } else {
      assert attempts[..i + 1] == attempts && attempts[..i] == before;
    }
  }

  lemma AttemptAdded(encode: Encoder, size: nat, attempts: seq<seq<int>>, block: seq<int>)
    ensures var all := attempts + [block];
            if Encodes(encode, size, all) then
              (Bursts(encode, size, all) == Bursts(encode, size, attempts) + Padded(encode(all).value, size)
               && Blocks(encode, size, all) == Blocks(encode, size, attempts) + block)
            else
              (Bursts(encode, size, all) == Bursts(encode, size, attempts)
               && Blocks(encode, size, all) == Blocks(encode, size, attempts))
  {
    var all := attempts + [block];
    assert all[..|all| - 1] == attempts;
  }

  /** The slave PCM.  Its answers to writes are given: a negative one is an error, any other takes that
      many frames at most.  When there is no answer left, it is busy. */
  class Slave {
    var replies: seq<int>
    var written: seq<int>

    /** How many writes failed for good. */
    ghost var errors: nat

    constructor (replies: seq<int>)
      ensures this.replies == replies && written == [] && errors == 0
    {
      this.replies, written, errors := replies, [], 0;
    }

    method WriteI(data: seq<int>) returns (ret: int)
      modifies this
      ensures ret == if old(replies) == [] then EAGAIN else Min(old(replies)[0], |data|)
      ensures replies == if old(replies) == [] then [] else old(replies)[1..]
      ensures written == if ret > 0 then old(written) + data[..ret] else old(written)
      ensures errors == if ret < 0 && ret != EAGAIN then old(errors) + 1 else old(errors)
    {
      ret := EAGAIN;
      if replies != [] {
        ret := Min(replies[0], |data|);
        replies := replies[1..];
      }
      if ret > 0 {
        written := written + data[..ret];
      }
      if ret < 0 && ret != EAGAIN {
        errors := errors + 1;
      }
    }
  }

  /** How many frames a slave would take before it first refuses. */
  function Willing(replies: seq<int>): nat {
    if replies == [] || replies[0] <= 0 then 0 else replies[0] + Willing(replies[1..])
  }

  /** The error with which it refuses, if that is one: being busy is none. */
  function Refusal(replies: seq<int>): (r: int)
    ensures r <= 0
  {
    if replies == [] then 0
    else if replies[0] > 0 then Refusal(replies[1..])
    else if replies[0] == EAGAIN then 0 else replies[0]
  }

  /** How many pending frames are left when the slave took what it would. */
  function LeftOver(pending: nat, replies: seq<int>): nat {
    if Willing(replies) >= pending then 0 else pending - Willing(replies)
  }

  /** What writing out pending frames returns: an error only if the slave refused one of them with it. */
  function Answer(pending: nat, replies: seq<int>): (r: int)
    ensures r <= 0
  {
    if LeftOver(pending, replies) == 0 then 0 else Refusal(replies)
  }

  /** How many frames the input buffer has room for: one less than it has places while a burst is pending. */
  function Room(size: nat, filled: nat, pending: nat): nat
    requires filled <= size
  {
    if 0 < pending && filled < size then size - filled - 1 else size - filled
  }

  /** The answers left when pending frames were written out. */
  function Rest(pending: nat, replies: seq<int>): seq<int>
    decreases |replies|
  {
    if pending == 0 || replies == [] then replies
    else if 0 < replies[0] < pending then Rest(pending - replies[0], replies[1..])
    else replies[1..]
  }

  /** What some answers to writes come to, if none refuses. */
  function Total(replies: seq<int>): int {
    if replies == [] then 0 else replies[0] + Total(replies[1..])
  }

  /** Writing stops only when all is written or the slave refuses, and no sooner.  The used answers but the
      last are frames taken; if frames are left, they were all taken from the burst, and the last answer is a
      refusal, if there was one left to give.  It is returned unless it only says that the slave is busy. */
  lemma {:induction false} WrittenOutOrRefused(pending: nat, replies: seq<int>)
    ensures |Rest(pending, replies)| <= |replies|
    ensures var used, left := |replies| - |Rest(pending, replies)|, LeftOver(pending, replies);
            && Rest(pending, replies) == replies[used..]
            && (forall i :: 0 <= i < used - 1 ==> 0 < replies[i])
            && (left == 0 <==> pending <= Total(replies[..used]) && (used == 0 || 0 < replies[used - 1]))
            && (left > 0 && used > 0 && replies[used - 1] <= 0 ==>
                  left == pending - Total(replies[..used - 1])
                  && Answer(pending, replies) == if replies[used - 1] == EAGAIN then 0 else replies[used - 1])
            && (left > 0 && (used == 0 || replies[used - 1] > 0) ==>
                  used == |replies| && left == pending - Total(replies) && Answer(pending, replies) == 0)
    decreases |replies|
  {
    if pending > 0 && replies != [] && 0 < replies[0] < pending {
      var p, rs := pending - replies[0], replies[1..];
      WrittenOutOrRefused(p, rs);
      var used := |rs| - |Rest(p, rs)|;
      assert rs[used..] == replies[used + 1..];
      assert replies[..used + 1][1..] == rs[..used];
      if used > 0 {
        assert replies[..used][1..] == rs[..used - 1];
      }
      assert replies[1..][..|rs|] == rs;
      forall i | 0 <= i < used ensures 0 < replies[i] {
        assert i > 0 ==> replies[i] == rs[i - 1];
      }
    } else if pending > 0 && replies != [] {
      assert replies[..1][1..] == [] && replies[..0] == [];
      assert Total(replies[..1]) == replies[0];
    } else {
      assert replies[|replies| - |replies|..] == replies;
    }
  }

  /** The plugin without its buffers: the frames in the input buffer, how many of a burst are pending, the
      answers the slave has still to give, every block the encoder was given, how many writes failed for
      good, and whether one of them was an underrun. */
  datatype Core = Core(buffered: seq<int>, pending: nat, replies: seq<int>, attempts: seq<seq<int>>, errors: nat,
                       xrun: bool) {
    function WrittenOut(): Core {
      var err := Answer(pending, replies);
      Core(buffered, LeftOver(pending, replies), Rest(pending, replies), attempts,
           if err < 0 then errors + 1 else errors, xrun || err == EPIPE)
    }
  }

  /** What taking frames comes to: the plugin, what is returned, and how many were taken. */
  datatype Taken = Taken(core: Core, ret: int, count: nat) {
    function Reported(): nat {
      if ret > 0 then ret else 0
    }
  }

  /** What holds of taking some frames.  A block left over from an earlier failure lets none in.  More are
      taken than reported exactly if they completed a block on which the encoder failed. */
  predicate Sound(encode: Encoder, size: nat, c: Core, len: nat, r: Taken) {
    && |c.buffered| <= size && |r.core.buffered| <= size && c.attempts <= r.core.attempts && c.errors <= r.core.errors
    && r.Reported() <= r.count <= len
    && (|c.buffered| == size ==> r.count == 0 && r.ret <= 0)
    && (r.Reported() < r.count
        <==> |c.buffered| < size && |c.attempts| < |r.core.attempts| && LastFailed(encode, size, r.core.attempts))
  }

  /** Why no more frames are taken: the slave or the encoder failed, or a burst is pending and only the last
      place is free, or a block was left over. */
  predicate Stuck(encode: Encoder, size: nat, c: Core, after: Core) {
    || c.errors < after.errors || (|c.attempts| < |after.attempts| && LastFailed(encode, size, after.attempts))
    || (0 < after.pending && |after.buffered| == size - 1) || |c.buffered| == size
  }

  /** As many frames as are given or there is room for; a full block goes to the encoder. */
  function Accept(encode: Encoder, size: nat, c: Core, data: seq<int>): (r: Taken)
    requires |c.buffered| <= size
    ensures |r.core.buffered| <= size && r.count <= |data| && r.ret <= |data|
    ensures r.ret > 0 ==> r.ret == r.count && |r.core.buffered| < size
  {
    var n := Min(|data|, Room(size, |c.buffered|, c.pending));
    var buffered := c.buffered + data[..n];
    if |buffered| < size then Taken(c.(buffered := buffered), n, n) else
      var tried := c.(buffered := buffered, attempts := c.attempts + [buffered]);
      if Encodes(encode, size, tried.attempts)
      then Taken(tried.(buffered := [], pending := size).WrittenOut(), n, n)
      else Taken(tried, EINVAL, n)
  }

  /** fill_data: nothing while the slave fails. */
  function Fill(encode: Encoder, size: nat, c: Core, data: seq<int>): (r: Taken)
    requires |c.buffered| <= size
    ensures |r.core.buffered| <= size && r.count <= |data| && r.ret <= |data|
    ensures r.ret > 0 ==> r.ret == r.count && |r.core.buffered| < size
  {
    var err := Answer(c.pending, c.replies);
    if err < 0 then Taken(c.WrittenOut(), err, 0) else Accept(encode, size, c.WrittenOut(), data)
  }

  /** a52_transfer: fill_data until the frames are used up or none is reported. */
  function Transferred(encode: Encoder, size: nat, c: Core, data: seq<int>): (r: Taken)
    requires |c.buffered| <= size
    ensures |r.core.buffered| <= size && r.count <= |data| && r.ret <= |data|
    decreases |data|
  {
    var s := Fill(encode, size, c, data);
    if s.ret <= 0 || s.ret == |data| then s else
      Plus(s.ret, s.count, Transferred(encode, size, s.core, data[s.ret..]))
  }

  /** What frames reported and taken before add to a result: an error behind them is not returned. */
  function Plus(ret: nat, count: nat, r: Taken): Taken {
    Taken(r.core, if ret == 0 then r.ret else if r.ret > 0 then ret + r.ret else ret, count + r.count)
  }

  /** An encoder without errors. */
  ghost predicate NeverFails(encode: Encoder, size: nat) {
    forall all: seq<seq<int>> :: all != [] ==> Encodes(encode, size, all)
  }

  lemma AllReported(encode: Encoder, size: nat, c: Core, len: nat, r: Taken)
    requires NeverFails(encode, size) && Sound(encode, size, c, len, r)
    ensures r.Reported() == r.count
  {}

  lemma FillSound(encode: Encoder, size: nat, c: Core, data: seq<int>)
    requires |c.buffered| <= size && 0 < size
    ensures var s := Fill(encode, size, c, data);
            Sound(encode, size, c, |data|, s) && (s.ret <= 0 && data != [] ==> Stuck(encode, size, c, s.core))
  {
    hide Encodes, Answer, LeftOver, Rest;
  }

  /** What fill_data returns: the slave's error, the encoder's error, or the number of frames taken. */
  lemma FillReturns(encode: Encoder, size: nat, c: Core, data: seq<int>)
    requires |c.buffered| <= size && 0 < size
    ensures var s := Fill(encode, size, c, data);
            s.ret == if Answer(c.pending, c.replies) < 0 then Answer(c.pending, c.replies)
                     else if |c.attempts| < |s.core.attempts| && LastFailed(encode, size, s.core.attempts) then EINVAL
                     else s.count
  {
    hide Encodes, Answer, LeftOver, Rest;
  }

  /** What a transfer returns: the result of its first turn if that reports nothing, and otherwise what all
      turns report together; an error in a later turn is not returned. */
  lemma TransferReturns(encode: Encoder, size: nat, c: Core, data: seq<int>)
    requires |c.buffered| <= size
    ensures var s, r := Fill(encode, size, c, data), Transferred(encode, size, c, data);
            && s.ret <= |data| && |s.core.buffered| <= size
            && (s.ret <= 0 || s.ret == |data| ==> r == s)
            && (0 < s.ret < |data| ==>
                  var later := Transferred(encode, size, s.core, data[s.ret..]);
                  && r.ret == s.ret + (if later.ret > 0 then later.ret else 0)
                  && r.count == s.count + later.count && r.core == later.core)
  {}

  lemma {:induction false} TransferredSound(encode: Encoder, size: nat, c: Core, data: seq<int>)
    requires |c.buffered| <= size && 0 < size
    ensures var r := Transferred(encode, size, c, data);
            Sound(encode, size, c, |data|, r) && (r.count < |data| ==> Stuck(encode, size, c, r.core))
    decreases |data|
  {
    hide Fill, LastFailed;
    FillSound(encode, size, c, data);
    var s := Fill(encode, size, c, data);
    if 0 < s.ret < |data| {
      TransferredSound(encode, size, s.core, data[s.ret..]);
      var r := Transferred(encode, size, s.core, data[s.ret..]);
      assert |s.core.attempts| == |r.core.attempts| ==> s.core.attempts == r.core.attempts;
    }
  }

  /** The frames taken are behind those taken before, and those not reported are counted. */
  ghost predicate Counted(encode: Encoder, size: nat, c: Core, had: seq<int>, lost: nat, data: seq<int>, r: Taken,
                          has: seq<int>, loses: nat)
  {
    Sound(encode, size, c, |data|, r) && has == had + data[..r.count] && loses == lost + r.count - r.Reported()
  }

  /** A transfer came to what the reference says. */
  ghost predicate Done(encode: Encoder, size: nat, start: Core, had: seq<int>, lost: nat, data: seq<int>, ret: int,
                       c: Core, has: seq<int>, loses: nat)
  {
    && |start.buffered| <= size
    && var r := Transferred(encode, size, start, data);
       && c == r.core && ret == r.ret && Counted(encode, size, start, had, lost, data, r, has, loses)
       && (r.count < |data| ==> Stuck(encode, size, start, c))
  }

  lemma NoneTaken(encode: Encoder, size: nat, start: Core, had: seq<int>, lost: nat, data: seq<int>, ret: int,
                  c: Core, has: seq<int>, loses: nat)
    requires Done(encode, size, start, had, lost, data, ret, c, has, loses) && |start.buffered| == size
    ensures has == had && ret <= 0
  {
    hide Transferred;
  }

  /** The turns of the loop so far reported and took ret frames, and came to c. */
  ghost predicate Ahead(encode: Encoder, size: nat, start: Core, had: seq<int>, lost: nat, data: seq<int>, ret: nat,
                        c: Core, has: seq<int>, loses: nat)
  {
    && 0 < size && |start.buffered| <= size && |c.buffered| <= size
    && ret <= |data| && (ret == |data| ==> ret == 0)
    && has == had + data[..ret] && loses == lost
    && Transferred(encode, size, start, data) == Plus(ret, ret, Transferred(encode, size, c, data[ret..]))
  }

  lemma AheadAtFirst(encode: Encoder, size: nat, c: Core, had: seq<int>, lost: nat, data: seq<int>)
    requires 0 < size && |c.buffered| <= size
    ensures Ahead(encode, size, c, had, lost, data, 0, c, had, lost)
  {
    assert data[0..] == data;
  }

  /** One turn more. */
  lemma AheadByOne(encode: Encoder, size: nat, start: Core, had: seq<int>, lost: nat, data: seq<int>, ret: nat,
                   c: Core, has: seq<int>, loses: nat, s: Taken, now: seq<int>, losing: nat)
    requires Ahead(encode, size, start, had, lost, data, ret, c, has, loses)
    requires s == Fill(encode, size, c, data[ret..]) && 0 < s.ret && ret + s.ret < |data|
    requires Counted(encode, size, c, has, loses, data[ret..], s, now, losing)
    ensures Ahead(encode, size, start, had, lost, data, ret + s.ret, s.core, now, losing)
  {
    hide Fill, Sound, Stuck;
    assert data[ret..][s.ret..] == data[ret + s.ret..];
    InTwoGoes(had, data, ret, s.count);
  }

  /** The last turn. */
  lemma AheadAtLast(encode: Encoder, size: nat, start: Core, had: seq<int>, lost: nat, data: seq<int>, ret: nat,
                    c: Core, has: seq<int>, loses: nat, s: Taken, now: seq<int>, losing: nat)
    requires Ahead(encode, size, start, had, lost, data, ret, c, has, loses)
    requires s == Fill(encode, size, c, data[ret..]) && (s.ret <= 0 || ret + s.ret == |data|)
    requires Counted(encode, size, c, has, loses, data[ret..], s, now, losing)
    ensures Done(encode, size, start, had, lost, data,
                 if s.ret > 0 then ret + s.ret else if ret > 0 then ret else s.ret,
                 s.core, now, losing)
  {
    hide Fill, Sound, Stuck;
    TransferredSound(encode, size, start, data);
    assert Transferred(encode, size, c, data[ret..]) == s;
    CountFits(encode, size, c, |data| - ret, s);
    InTwoGoes(had, data, ret, s.count);
  }

  lemma CountFits(encode: Encoder, size: nat, c: Core, len: nat, r: Taken)
    requires Sound(encode, size, c, len, r)
    ensures r.count <= len
  {}

  lemma InTwoGoes(had: seq<int>, data: seq<int>, i: nat, n: nat)
    requires i + n <= |data|
    ensures had + data[..i] + data[i..][..n] == had + data[..i + n]
  {}

  /** What the pointer callback returns, with the pending frames already written out. */
  function Position(c: Core, pointer: nat, boundary: nat, state: SlaveState, avail: int, slaveBuffer: nat,
                    word: nat): int
    requires 0 < slaveBuffer && 0 < boundary <= word
  {
    match state
    case Active =>
      if avail < 0 then avail
      else Unsigned(pointer - Behind(slaveBuffer, avail) - c.pending - |c.buffered|, word, boundary)
    case Xrun => EPIPE
    case Suspended => ESTRPIPE
    case Other => 0
  }

  /** What the application and the poll loop do. */
  datatype Event =
    | Write(data: seq<int>)
    | Poll(state: SlaveState, avail: int, slaveBuffer: nat, word: nat)

  predicate Sane(event: Event, boundary: nat) {
    event.Poll? ==> 0 < event.slaveBuffer && boundary <= event.word
  }

  /** What a run comes to: the plugin, its pointer, every frame taken, and what the calls returned. */
  datatype Outcome = Outcome(core: Core, pointer: nat, taken: seq<int>, rets: seq<int>)

  function Happened(encode: Encoder, size: nat, boundary: nat, c: Core, pointer: nat, event: Event): (r: Outcome)
    requires |c.buffered| <= size && 0 < boundary && Sane(event, boundary)
    ensures |r.core.buffered| <= size
  {
    match event
    case Write(data) =>
      var r := Transferred(encode, size, c, data);
      Outcome(r.core, (pointer + r.Reported()) % boundary, data[..r.count], [r.ret])
    case Poll(state, avail, slaveBuffer, word) =>
      var core := if state == Active then c.WrittenOut() else c;
      Outcome(core, pointer, [], [Position(core, pointer, boundary, state, avail, slaveBuffer, word)])
  }

  function Ran(encode: Encoder, size: nat, boundary: nat, c: Core, pointer: nat, events: seq<Event>): (r: Outcome)
    requires |c.buffered| <= size && 0 < boundary
    requires forall i :: 0 <= i < |events| ==> Sane(events[i], boundary)
    ensures |r.core.buffered| <= size
    decreases |events|
  {
    if events == [] then Outcome(c, pointer, [], []) else
      var before := Ran(encode, size, boundary, c, pointer, events[..|events| - 1]);
      var r := Happened(encode, size, boundary, before.core, before.pointer, events[|events| - 1]);
      Outcome(r.core, r.pointer, before.taken + r.taken, before.rets + r.rets)
  }

  lemma RanNone(encode: Encoder, size: nat, boundary: nat, c: Core, pointer: nat, events: seq<Event>)
    requires |c.buffered| <= size && 0 < boundary
    ensures Ran(encode, size, boundary, c, pointer, events[..0]) == Outcome(c, pointer, [], [])
  {}

  lemma RanOne(encode: Encoder, size: nat, boundary: nat, c: Core, pointer: nat, events: seq<Event>, i: nat)
    requires |c.buffered| <= size && 0 < boundary && i < |events|
    requires forall j :: 0 <= j < |events| ==> Sane(events[j], boundary)
    ensures var before := Ran(encode, size, boundary, c, pointer, events[..i]);
            var r := Happened(encode, size, boundary, before.core, before.pointer, events[i]);
            Ran(encode, size, boundary, c, pointer, events[..i + 1])
            == Outcome(r.core, r.pointer, before.taken + r.taken, before.rets + r.rets)
  {
    hide Happened;
    assert events[..i + 1][..i] == events[..i];
  }

  class Plugin {
    const size: nat
    const encode: Encoder
    const boundary: nat
    const slave: Slave
    const inbuf: array<int>
    const outbuf: array<int>

    var remain: nat
    var filled: nat
    var pointer: nat
    var xrun: bool

    /** The state of the encoder: every block it was given. */
    var attempts: seq<seq<int>>

    /** Every frame copied into the input buffer, and how many of them were copied by calls that then
        failed and so did not report them. */
    ghost var accepted: seq<int>
    ghost var unreported: nat

    ghost predicate Buffered()
      reads `remain, `filled, `attempts, `accepted, slave, inbuf, outbuf
    {
      && inbuf.Length == outbuf.Length == size && inbuf != outbuf && 0 < size && 0 < boundary
      && remain <= size && filled <= size
      && (filled == size ==> remain == 0)
      && (forall i :: 0 <= i < |attempts| ==> |attempts[i]| == size)
      && slave.written + outbuf[size - remain..] == Bursts(encode, size, attempts)
      && accepted == Blocks(encode, size, attempts) + inbuf[..filled]
    }

    /** The invariant of every run: no accepted frame and no burst frame is lost, repeated or out of order. */
    ghost predicate Valid()
      reads this, slave, inbuf, outbuf
    {
      Buffered() && unreported <= |accepted| && pointer == (|accepted| - unreported) % boundary
    }

    constructor (size: nat, encode: Encoder, boundary: nat, slave: Slave)
      requires 0 < size && 0 < boundary && slave.written == []
      ensures Valid() && accepted == [] && attempts == [] && unreported == pointer == filled == 0
      ensures Now() == Core([], 0, slave.replies, [], slave.errors, false)
      ensures this.size == size && this.encode == encode && this.boundary == boundary && this.slave == slave
      ensures fresh(inbuf) && fresh(outbuf)
    {
      this.size, this.encode, this.boundary, this.slave := size, encode, boundary, slave;
      inbuf, outbuf := new int[size], new int[size];
      remain, filled, pointer, xrun := 0, 0, 0, false;
      accepted, attempts, unreported := [], [], 0;
    }

    lemma Sizes()
      requires Valid()
      ensures filled <= size == inbuf.Length && 0 < size && 0 < boundary
    {}

    lemma PointerIs()
      requires Valid()
      ensures Counts(pointer, |accepted| - unreported, boundary)
    {}

    ghost function Now(): (c: Core)
      requires filled <= inbuf.Length
      reads `filled, `remain, `attempts, `xrun, slave, inbuf
      ensures |c.buffered| == filled
    {
      Core(inbuf[..filled], remain, slave.replies, attempts, slave.errors, xrun)
    }

    /** Everything handed to the slave, and the part of the current burst still to be written. */
    ghost function Output(): seq<int>
      requires remain <= size == outbuf.Length
      reads this, slave, outbuf
    {
      slave.written + outbuf[size - remain..]
    }

    /** One write of what is left of the burst. */
    method WriteOnce() returns (ret: int)
      requires 0 < remain <= size == outbuf.Length
      modifies `remain, slave
      ensures ret == if old(slave.replies) == [] then EAGAIN else Min(old(slave.replies)[0], old(remain))
      ensures slave.replies == if old(slave.replies) == [] then [] else old(slave.replies)[1..]
      ensures slave.errors == if ret < 0 && ret != EAGAIN then old(slave.errors) + 1 else old(slave.errors)
      ensures remain == old(remain) - (if ret > 0 then ret else 0) && Output() == old(Output())
      ensures old(slave.written) <= slave.written
    {
      var data := outbuf[size - remain..];
      ret := slave.WriteI(data);
      if ret > 0 {
        assert data == data[..ret] + data[ret..];
        assert outbuf[size - (remain - ret)..] == data[ret..];
        remain := remain - ret;
      }
    }

    /** write_out_pending: hands the rest of the burst to the slave, until it is all written or the slave
        first refuses. */
    method WriteOutPending() returns (err: int)
      requires remain <= size == outbuf.Length
      modifies `remain, `xrun, slave
      ensures remain == LeftOver(old(remain), old(slave.replies)) && err == Answer(old(remain), old(slave.replies))
      ensures slave.replies == Rest(old(remain), old(slave.replies))
      ensures remain <= old(remain) && Output() == old(Output()) && old(slave.written) <= slave.written
      ensures xrun == (old(xrun) || err == EPIPE)
      ensures slave.errors == if err < 0 then old(slave.errors) + 1 else old(slave.errors)
    {
      while remain > 0
        invariant remain <= old(remain) && Output() == old(Output()) && old(slave.written) <= slave.written
        invariant LeftOver(remain, slave.replies) == LeftOver(old(remain), old(slave.replies))
        invariant Answer(remain, slave.replies) == Answer(old(remain), old(slave.replies))
        invariant Rest(remain, slave.replies) == Rest(old(remain), old(slave.replies))
        invariant xrun == old(xrun) && slave.errors == old(slave.errors)
        decreases remain
      {
        var ret := WriteOnce();
        if ret < 0 {
          if ret == EPIPE {
            xrun := true;
          }
          if ret == EAGAIN {
            break;
          }
          return ret;
        } else if ret == 0 {
          break;
        }
      }
      err := 0;
    }

    /** convert_data: encodes the full input buffer into a burst.  The output buffer must be empty. */
    method ConvertData() returns (err: int)
      requires Buffered() && filled == size && remain == 0
      modifies `remain, `filled, `attempts, outbuf
      ensures Buffered() && attempts == old(attempts) + [old(inbuf[..])]
      ensures if Encodes(encode, size, attempts)
              then err == 0 && filled == 0 && remain == size
              else err == EINVAL && filled == size && remain == 0
    {
      var block := inbuf[..];
      assert inbuf[..filled] == block && outbuf[size - remain..] == [];
      var result := encode(attempts + [block]);
      AttemptAdded(encode, size, attempts, block);
      attempts := attempts + [block];
      if result.None? || |result.value| > size {
        return EINVAL;
      }
      CopyTo(outbuf, 0, Padded(result.value, size));
      assert outbuf[size - size..] == outbuf[..];
      remain, filled := size, 0;
      err := 0;
    }

    /** fill_data: takes frames into the input buffer, at most up to a full block, and converts a full
        block.  While a burst is pending it stops one frame short of that. */
    method FillData(data: seq<int>) returns (ret: int)
      requires Buffered()
      modifies `remain, `filled, `attempts, `xrun, `accepted, inbuf, outbuf, slave
      ensures Buffered() && old(slave.written) <= slave.written
      ensures var r := Fill(encode, size, old(Now()), data);
              Now() == r.core && ret == r.ret && accepted == old(accepted) + data[..r.count]
    {
      hide Accept, Room, Encodes, Bursts, Blocks;
      ret := WriteOutPending();
      if ret == 0 {
        ret := AcceptData(data);
      }
    }

    /** The rest of fill_data, with the pending frames written out as far as the slave took them. */
    method AcceptData(data: seq<int>) returns (ret: int)
      requires Buffered()
      modifies `remain, `filled, `attempts, `xrun, `accepted, inbuf, outbuf, slave
      ensures Buffered() && old(slave.written) <= slave.written
      ensures var r := Accept(encode, size, old(Now()), data);
              Now() == r.core && ret == r.ret && accepted == old(accepted) + data[..r.count]
    {
      hide Bursts, Blocks;
      var len := size - filled;
      if remain > 0 && len > 0 {
        len := len - 1;
      }
      var taken := Min(|data|, len);
      TakeIn(data[..taken]);
      if filled == size {
        assert inbuf[..filled] == inbuf[..];
        var err := ConvertData();
        if err < 0 {
          return err;
        }
        assert inbuf[..filled] == [];
        var ignored := WriteOutPending();
      }
      ret := taken;
    }

    /** Copies frames behind those already in the input buffer. */
    method TakeIn(data: seq<int>)
      requires Buffered() && filled + |data| <= size && (filled + |data| == size ==> remain == 0)
      modifies `filled, `accepted, inbuf
      ensures Buffered() && filled == old(filled) + |data| && accepted == old(accepted) + data
      ensures inbuf[..filled] == old(inbuf[..filled]) + data
    {
      CopyTo(inbuf, filled, data);
      filled := filled + |data|;
      accepted := accepted + data;
    }

    /** One turn of the loop of a52_transfer: fill_data and the pointer update.  Frames go unreported exactly
        if they completed a block and the encoder failed on it. */
    method TransferStep(data: seq<int>) returns (ret: int)
      requires Valid() && filled <= size == inbuf.Length
      modifies `remain, `filled, `attempts, `xrun, `accepted, `unreported, `pointer, inbuf, outbuf, slave
      ensures Valid() && old(slave.written) <= slave.written && filled <= size
      ensures var r := Fill(encode, size, old(Now()), data);
              && Now() == r.core && ret == r.ret
              && Counted(encode, size, old(Now()), old(accepted), old(unreported), data, r, accepted, unreported)
              && (ret <= 0 && data != [] ==> Stuck(encode, size, old(Now()), Now()))
    {
      hide Fill, Sound, Stuck, Bursts, Blocks, Encodes;
      FillSound(encode, size, Now(), data);
      ret := FillData(data);
      if ret > 0 {
        AdvancePointer(pointer, |old(accepted)| - unreported, ret, boundary);
        pointer := (pointer + ret) % boundary;
      } else {
        unreported := unreported + |accepted| - |old(accepted)|;
      }
    }

    /** a52_transfer: fills blocks until the frames are used up or fill_data takes none.  The frames it
        reports are the frames it took, except those that completed a block on which the encoder failed.
        It takes all of them unless it got stuck, and none if a block was left over from an earlier failure. */
    method Transfer(data: seq<int>) returns (ret: int)
      requires Valid() && filled <= size == inbuf.Length
      modifies `remain, `filled, `attempts, `xrun, `accepted, `unreported, `pointer, inbuf, outbuf, slave
      ensures Valid() && old(slave.written) <= slave.written && filled <= size
      ensures Done(encode, size, old(Now()), old(accepted), old(unreported), data, ret, Now(), accepted, unreported)
      ensures old(filled) == size ==> accepted == old(accepted) && ret <= 0
    {
      hide *;
      Sizes();
      AheadAtFirst(encode, size, Now(), accepted, unreported, data);
      var result, err := 0, 0;
      while true
        invariant Valid() && filled <= size == inbuf.Length && old(slave.written) <= slave.written
        invariant 0 <= result <= |data|
        invariant Ahead(encode, size, old(Now()), old(accepted), old(unreported), data, result, Now(), accepted,
                        unreported)
        decreases |data| - result
      {
        ghost var core, had, lost := Now(), accepted, unreported;
        err := TransferStep(data[result..]);
        ghost var s := Fill(encode, size, core, data[result..]);
        if err <= 0 || err == |data| - result {
          AheadAtLast(encode, size, old(Now()), old(accepted), old(unreported), data, result, core, had, lost, s,
                      accepted, unreported);
        } else {
          AheadByOne(encode, size, old(Now()), old(accepted), old(unreported), data, result, core, had, lost, s,
                     accepted, unreported);
        }
        if err <= 0 {
          break;
        }
        result := result + err;
        if result == |data| {
          break;
        }
      }
      ret := if result > 0 then result else err;
      if old(filled) == size {
        NoneTaken(encode, size, old(Now()), old(accepted), old(unreported), data, ret, Now(), accepted, unreported);
      }
    }

    /** Frames are conserved: the plugin holds what it accepted and has not encoded, and what it encoded
        and has not written. */
    lemma Conserved()
      requires Valid()
      ensures |accepted| == size * Count(encode, size, attempts) + filled
      ensures |slave.written| == size * Count(encode, size, attempts) - remain
    {
      Lengths(encode, size, attempts);
    }

    /** What the slave has got is a prefix of the bursts of the accepted blocks, in order. */
    lemma WrittenInOrder()
      requires Valid()
      ensures slave.written <= Bursts(encode, size, attempts)
      ensures Blocks(encode, size, attempts) <= accepted
    {}

    /** What the slave has got of each burst is the encoder's answer and zeros behind it, to the block of
        accepted frames at the same place. */
    lemma AnswerWritten(i: nat, j: nat)
      requires Valid()
      requires i < |attempts| && encode(attempts[..i + 1]).Some? && |encode(attempts[..i + 1]).value| <= size
      requires j < size && size * Count(encode, size, attempts[..i]) + j < |slave.written|
      ensures var answer, at := encode(attempts[..i + 1]).value, size * Count(encode, size, attempts[..i]) + j;
              && 0 <= at < |accepted| && slave.written[at] == (if j < |answer| then answer[j] else 0)
              && accepted[at] == attempts[i][j]
    {
      AnswerCarried(encode, size, attempts, i, j);
      WrittenInOrder();
    }

    /** a52_pointer, for a word of word values.  The result is the number of frames played, modulo the
        boundary, exactly when the subtraction does not go below zero or the boundary divides the word. */
    method Pointer(state: SlaveState, avail: int, slaveBuffer: nat, word: nat) returns (ret: int)
      requires Valid() && 0 < slaveBuffer && boundary <= word
      modifies `remain, `xrun, slave
      ensures Valid() && old(slave.written) <= slave.written && filled <= size == inbuf.Length
      ensures Now() == if state == Active then old(Now()).WrittenOut() else old(Now())
      ensures ret == Position(Now(), pointer, boundary, state, avail, slaveBuffer, word)
      ensures state == Xrun ==> ret == EPIPE
      ensures state == Suspended ==> ret == ESTRPIPE
      ensures state == Other ==> ret == 0
      ensures state == Active && avail < 0 ==> ret == avail
      ensures state == Active && 0 <= avail && Behind(slaveBuffer, avail) + remain + filled <= word ==>
                var played := |slave.written| - Behind(slaveBuffer, avail) - unreported;
                (ret == played % boundary
                 <==> Behind(slaveBuffer, avail) + remain + filled <= pointer || word % boundary == 0)
      ensures state == Active && 0 <= avail <= slaveBuffer && slaveBuffer - avail + remain + filled <= word ==>
                var played := |slave.written| - (slaveBuffer - avail) - unreported;
                (ret == played % boundary
                 <==> slaveBuffer - avail + remain + filled <= pointer || word % boundary == 0)
    {
      match state {
        case Active =>
        case Xrun => return EPIPE;
        case Suspended => return ESTRPIPE;
        case Other => return 0;
      }
      var ignored := WriteOutPending();
      if avail < 0 {
        return avail;
      }
      var delay := DelayFor(slaveBuffer, avail);
      var x := pointer - delay - remain - filled;
      Conserved();
      PlayedPosition(pointer, |accepted| - unreported, delay + remain + filled, boundary);
      if delay + remain + filled <= word {
        UnsignedExact(x, word, boundary);
      }
      ret := Unsigned(x, word, boundary);
    }

    /** One call of the transfer or the pointer callback. */
    method Handle(event: Event) returns (ret: int)
      requires Valid() && filled <= size == inbuf.Length && 0 < boundary && Sane(event, boundary)
      modifies `remain, `filled, `attempts, `xrun, `accepted, `unreported, `pointer, inbuf, outbuf, slave
      ensures Valid() && old(slave.written) <= slave.written && filled <= size
      ensures var r := Happened(encode, size, boundary, old(Now()), old(pointer), event);
              Now() == r.core && pointer == r.pointer && [ret] == r.rets && accepted == old(accepted) + r.taken
      ensures NeverFails(encode, size) ==> unreported == old(unreported)
    {
      hide Plugin.Valid, Plugin.Buffered, Plugin.Now, Core.WrittenOut, Position, Transferred, Done, Counts, NeverFails,
          Encodes;
      Sizes();
      match event {
        case Write(data) =>
          PointerIs();
          ret := Transfer(data);
          PointerIs();
          DoneHappened(encode, size, boundary, old(Now()), old(pointer), old(accepted), old(unreported), data, ret,
                       Now(), pointer, accepted, unreported);
        case Poll(state, avail, slaveBuffer, word) =>
          ret := Pointer(state, avail, slaveBuffer, word);
      }
      Sizes();
    }

    /** Any run of transfers and pointer queries comes to what the reference says, and loses nothing. */
    method Run(events: seq<Event>) returns (rets: seq<int>)
      requires Valid() && filled <= size == inbuf.Length && 0 < boundary
      requires forall i :: 0 <= i < |events| ==> Sane(events[i], boundary)
      modifies `remain, `filled, `attempts, `xrun, `accepted, `unreported, `pointer, inbuf, outbuf, slave
      ensures Valid() && old(slave.written) <= slave.written <= Bursts(encode, size, attempts) && filled <= size
      ensures var r := Ran(encode, size, boundary, old(Now()), old(pointer), events);
              Now() == r.core && pointer == r.pointer && rets == r.rets && accepted == old(accepted) + r.taken
      ensures |slave.written| + remain + filled == |accepted|
      ensures NeverFails(encode, size) ==> unreported == old(unreported)
    {
      hide *;
      Sizes();
      var i := 0;
      rets := [];
      RanNone(encode, size, boundary, Now(), pointer, events);
      while i < |events|
        invariant 0 <= i <= |events| && Valid() && filled <= size == inbuf.Length
        invariant old(slave.written) <= slave.written
        invariant var r := Ran(encode, size, boundary, old(Now()), old(pointer), events[..i]);
                  Now() == r.core && pointer == r.pointer && rets == r.rets && accepted == old(accepted) + r.taken
        invariant NeverFails(encode, size) ==> unreported == old(unreported)
      {
        RanOne(encode, size, boundary, old(Now()), old(pointer), events, i);
        var ret := Handle(events[i]);
        rets := rets + [ret];
        i := i + 1;
      }
      assert events[..i] == events;
      Conserved();
      WrittenInOrder();
    }
  }

  /** The loop that brings the delay back above zero. */
  method DelayFor(slaveBuffer: nat, avail: nat) returns (delay: nat)
    requires 0 < slaveBuffer
    ensures delay == Behind(slaveBuffer, avail)
  {
    var d := slaveBuffer - avail;
    while d < 0
      invariant d == slaveBuffer - avail || d < slaveBuffer
      invariant d % slaveBuffer == (slaveBuffer - avail) % slaveBuffer
      invariant avail <= slaveBuffer ==> d == slaveBuffer - avail
      decreases -d
    {
      ShiftUp(d, slaveBuffer, 1);
      d := d + slaveBuffer;
    }
    if avail > slaveBuffer {
      Unique(d, slaveBuffer, 0, d);
    }
    delay := d;
  }

  /** The states of the slave that the pointer callback tells apart. */
  datatype SlaveState = Active | Xrun | Suspended | Other

  /** How far the slave is behind what was written, from its free space. */
  function Behind(buffer: nat, avail: nat): nat
    requires 0 < buffer
  {
    if avail <= buffer then buffer - avail else (buffer - avail) % buffer
  }

  /** More free space than the buffer has places can only be whole turns of it more: the distance is brought
      into the buffer by such turns. */
  lemma BehindWithin(buffer: nat, avail: nat)
    requires 0 < buffer
    ensures 0 <= Behind(buffer, avail) <= buffer && (buffer < avail ==> Behind(buffer, avail) < buffer)
    ensures (Behind(buffer, avail) + avail) % buffer == 0
  {
    if buffer < avail {
      var q := (buffer - avail) / buffer;
      Unique(Behind(buffer, avail) + avail, buffer, 1 - q, 0);
    } else {
      Unique(buffer, buffer, 1, 0);
    }
  }

  /** A signed value reduced by an unsigned modulus: it is first taken modulo the word. */
  function Unsigned(x: int, word: nat, modulus: nat): nat
    requires 0 < modulus <= word
  {
    var r := x % word;
    assert 0 <= r;
    r % modulus
  }

  lemma UnsignedExact(x: int, word: nat, modulus: nat)
    requires 0 < modulus <= word && 0 <= x + word && x < word
    ensures Unsigned(x, word, modulus) == x % modulus <==> x >= 0 || word % modulus == 0
  {
    var r := word % modulus;
    if x >= 0 {
      Unique(x, word, 0, x);
    } else {
      Unique(x, word, -1, x + word);
      WrapDown(x, word, modulus);
      SameRemainder(x, r, modulus);
    }
  }

  lemma FirstBlockFails(encode: Encoder, size: nat, data: seq<int>)
    requires 0 < size <= |data| && !Encodes(encode, size, [data[..size]])
    ensures Fill(encode, size, Core([], 0, [], [], 0, false), data)
            == Taken(Core(data[..size], 0, [], [data[..size]], 0, false), EINVAL, size)
    ensures Bursts(encode, size, [data[..size]]) == []
  {
    hide Encodes;
    AttemptAdded(encode, size, [], data[..size]);
    assert [] + data[..size] == data[..size] && [] + [data[..size]] == [data[..size]];
  }

  lemma FirstBlockCounted(encode: Encoder, size: nat, data: seq<int>, r: Taken, has: seq<int>, loses: nat,
                          pointer: nat, boundary: nat)
    requires 0 < size <= |data| && r.count == size && r.ret == EINVAL
    requires Counted(encode, size, Core([], 0, [], [], 0, false), [], 0, data, r, has, loses)
    requires Counts(pointer, |has| - loses, boundary)
    ensures has == data[..size] && loses == size && pointer == 0
  {
    hide Sound;
  }

  /** A step that loses count: the encoder fails on the first block.  Its frames are taken, the caller is told
      of an error, and the pointer stays where it was. */
  method FailingStep(size: nat, boundary: nat, data: seq<int>) returns (ret: int, plugin: Plugin)
    requires 0 < size <= |data| && 0 < boundary
    ensures plugin.Valid() && plugin.size == size && plugin.boundary == boundary
    ensures ret == EINVAL && plugin.accepted == data[..size] && plugin.unreported == size && plugin.pointer == 0
    ensures plugin.filled == size == plugin.inbuf.Length && plugin.slave.written == plugin.slave.replies == []
    ensures plugin.remain == 0 && fresh(plugin) && fresh(plugin.slave)
  {
    hide Plugin.Valid, Plugin.Buffered, Fill, Counted, Sound, Stuck, Counts, Bursts, Blocks;
    var slave := new Slave([]);
    plugin := new Plugin(size, _ => None, boundary, slave);
    FirstBlockFails(plugin.encode, size, data);
    plugin.Sizes();
    ret := plugin.TransferStep(data);
    plugin.PointerIs();
    FirstBlockCounted(plugin.encode, size, data, Fill(plugin.encode, size, Core([], 0, [], [], 0, false), data),
                      plugin.accepted, plugin.unreported, plugin.pointer, boundary);
    plugin.Sizes();
    plugin.WrittenInOrder();
  }

  /** Behind it a position that is wrong, with 64-bit words and the boundary of a buffer of 1536 frames: the
      pointer is at 0, 1536 frames are held and nothing was played. */
  method WrongPosition(slaveBuffer: nat) returns (ret: int, plugin: Plugin)
    requires 0 < slaveBuffer
    ensures plugin.Valid() && plugin.size == 1536 && plugin.boundary == 1536 * 0x10_0000_0000_0000
    ensures plugin.slave.written == [] && plugin.unreported == 1536
    ensures (|plugin.slave.written| - plugin.unreported) % plugin.boundary == 0x6000_0000_0000_0000 - 1536
    ensures ret == 0x4000_0000_0000_0000 - 1536
  {
    var step;
    step, plugin := FailingStep(1536, 0x6000_0000_0000_0000, seq(1536, _ => 7));
    ret := plugin.Pointer(Active, slaveBuffer, slaveBuffer, 0x1_0000_0000_0000_0000);
  }

  lemma WrapDown(x: int, word: nat, modulus: nat)
    requires 0 < modulus
    ensures (x + word) % modulus == (x + word % modulus) % modulus
  {
    var q, r := word / modulus, word % modulus;
    assert word == q * modulus + r;
    ShiftUp(x + r, modulus, q);
  }

  lemma SameRemainder(x: int, r: nat, modulus: nat)
    requires 0 < modulus && r < modulus
    ensures (x + r) % modulus == x % modulus <==> r == 0
  {
    var q, s := x / modulus, x % modulus;
    if s + r < modulus {
      Unique(x + r, modulus, q, s + r);
    } else {
      Unique(x + r, modulus, q + 1, s + r - modulus);
    }
  }

  lemma PlayedPosition(pointer: nat, count: int, held: int, boundary: nat)
    requires 0 < boundary && pointer == count % boundary
    ensures (pointer - held) % boundary == (count - held) % boundary
  {
    ShiftUp(pointer - held, boundary, count / boundary);
  }

  predicate Counts(pointer: nat, count: int, boundary: nat) {
    0 < boundary && pointer == count % boundary
  }

  lemma DoneHappened(encode: Encoder, size: nat, boundary: nat, start: Core, pointer: nat, had: seq<int>, lost: nat,
                     data: seq<int>, ret: int, c: Core, after: nat, has: seq<int>, loses: nat)
    requires Done(encode, size, start, had, lost, data, ret, c, has, loses)
    requires Counts(pointer, |had| - lost, boundary) && Counts(after, |has| - loses, boundary)
    ensures var r := Happened(encode, size, boundary, start, pointer, Write(data));
            c == r.core && after == r.pointer && [ret] == r.rets && has == had + r.taken
    ensures NeverFails(encode, size) ==> loses == lost
  {
    hide Transferred, Stuck;
    var r := Transferred(encode, size, start, data);
    Advanced(pointer, |had| - lost, r.Reported(), after, |has| - loses, boundary);
    if NeverFails(encode, size) {
      AllReported(encode, size, start, |data|, r);
    }
  }

  lemma Advanced(before: nat, count: int, step: nat, pointer: nat, after: int, boundary: nat)
    requires Counts(before, count, boundary) && Counts(pointer, after, boundary) && after == count + step
    ensures pointer == (before + step) % boundary
  {
    AdvancePointer(before, count, step, boundary);
  }

  lemma AdvancePointer(pointer: nat, count: int, step: nat, boundary: nat)
    requires 0 < boundary && pointer == count % boundary
    ensures (pointer + step) % boundary == (count + step) % boundary
  {
    ShiftUp(pointer + step, boundary, count / boundary);
  }
}
