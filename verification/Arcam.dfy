/** The reader of an Arcam amplifier's serial replies: a framing automaton whose state outlives the
    calls that drive it, fed by reads that may return any part of the stream. */
module Arcam {
  import opened Wrappers

  type Byte = b: int | 0 <= b < 256

  const LETTER_A: Byte := 65
  const LETTER_V: Byte := 86
  const UNDERSCORE: Byte := 95
  const OK: Byte := 80
  const END: Byte := 13

  datatype Message = Message(command: Byte, param1: Byte, param2: Byte)

  /** How many bytes of a message were seen, and its fields as far as they were seen. */
  datatype Decoder = Decoder(index: nat, command: Byte, param1: Byte, param2: Byte) {
    function Received(): Message {
      Message(command, param1, param2)
    }
  }

  /** The byte a message may have at a place. */
  predicate Fits(index: nat, b: Byte) {
    match index
    case 0 => b == LETTER_A
    case 1 => b == LETTER_V
    case 2 => b == UNDERSCORE
    case 4 => b == OK
    case 7 => b == END
    case _ => true
  }

  /** One byte: it continues the message, or starts one, or is dropped. */
  function Step(d: Decoder, b: Byte): (e: Decoder)
    requires d.index < 8
    ensures e.index <= d.index + 1
  {
    if !Fits(d.index, b) then d.(index := if b == LETTER_A then 1 else 0)
    else match d.index
      case 3 => d.(index := 4, command := b)
      case 5 => d.(index := 6, param1 := b)
      case 6 => d.(index := 7, param2 := b)
      case i => d.(index := i + 1)
  }

  datatype Progress = Progress(decoder: Decoder, messages: seq<Message>)

  /** The byte-at-a-time automaton over a whole stream: a full message is delivered and the next byte
      starts afresh. */
  function Decode(d: Decoder, bytes: seq<Byte>): (r: Progress)
    requires d.index < 8
    ensures r.decoder.index < 8
    decreases |bytes|
  {
    if bytes == [] then Progress(d, []) else
      var e := Step(d, bytes[0]);
      if e.index < 8 then Decode(e, bytes[1..]) else
        var rest := Decode(e.(index := 0), bytes[1..]);
        Progress(rest.decoder, [e.Received()] + rest.messages)
  }

  lemma DecodeNothing(d: Decoder)
    requires d.index < 8
    ensures Decode(d, []) == Progress(d, [])
  {}

  lemma {:induction false} DecodeJoin(d: Decoder, u: seq<Byte>, v: seq<Byte>)
    requires d.index < 8
    ensures var first := Decode(d, u);
            var second := Decode(first.decoder, v);
            Decode(d, u + v) == Progress(second.decoder, first.messages + second.messages)
    decreases |u|
  {
    if u == [] {
      assert u + v == v;
    } else {
      assert (u + v)[0] == u[0] && (u + v)[1..] == u[1..] + v;
      var e := Step(d, u[0]);
      DecodeJoin(if e.index < 8 then e else e.(index := 0), u[1..], v);
    }
  }

  /** The same automaton over so few bytes that no message can end before the last of them. */
  function Feed(d: Decoder, bytes: seq<Byte>): (e: Decoder)
    requires d.index + |bytes| <= 8
    ensures e.index <= d.index + |bytes|
    decreases |bytes|
  {
    if bytes == [] then d else Feed(Step(d, bytes[0]), bytes[1..])
  }

  lemma {:induction false} FeedIsDecode(d: Decoder, bytes: seq<Byte>)
    requires d.index < 8 && d.index + |bytes| <= 8
    ensures var e := Feed(d, bytes);
            Decode(d, bytes) == if e.index < 8 then Progress(e, []) else Progress(e.(index := 0), [e.Received()])
    decreases |bytes|
  {
    if bytes != [] {
      var e := Step(d, bytes[0]);
      if e.index < 8 {
        FeedIsDecode(e, bytes[1..]);
      } else {
        assert bytes[1..] == [];
      }
    }
  }

  datatype Reply = Fail(errno: int) | Take(count: nat)

  /** How many bytes a read of some size gets when count are ready. */
  function Got(count: nat, size: nat, stream: seq<Byte>): (n: nat)
    ensures n <= count && n <= size && n <= |stream|
  {
    if count <= size && count <= |stream| then count else if size <= |stream| then size else |stream|
  }

  /** The serial port.  How much each read returns, and when it fails, is given; when that is used up, reads
      fail as the last one did. */
  class Port {
    var stream: seq<Byte>
    var replies: seq<Reply>
    var errno: int
    ghost var consumed: seq<Byte>

    constructor (stream: seq<Byte>, replies: seq<Reply>)
      ensures this.stream == stream && this.replies == replies && errno == 0 && consumed == []
    {
      this.stream, this.replies, errno, consumed := stream, replies, 0, [];
    }

    /** The buffer holds what was read.  A read of nothing leaves errno as it was. */
    method Read(size: nat) returns (bytes: int, buffer: seq<Byte>)
      modifies this
      ensures replies == if old(replies) == [] then [] else old(replies)[1..]
      ensures match (if old(replies) == [] then Fail(old(errno)) else old(replies)[0])
              case Fail(e) => bytes == -1 && buffer == [] && errno == e && stream == old(stream)
              case Take(count) =>
                && bytes == Got(count, size, old(stream)) && errno == old(errno)
                && buffer == old(stream)[..bytes] && stream == old(stream)[bytes..]
      ensures consumed == old(consumed) + buffer && consumed + stream == old(consumed + stream)
    {
      var reply := if replies == [] then Fail(errno) else replies[0];
      if replies != [] {
        replies := replies[1..];
      }
      match reply {
        case Fail(e) =>
          errno := e;
          bytes, buffer := -1, [];
        case Take(count) =>
          bytes := Got(count, size, stream);
          buffer := stream[..bytes];
          stream, consumed := stream[bytes..], consumed + buffer;
      }
    }
  }

  /** What a call comes to: what is left of the stream and of the port's replies, the error on record, the
      message if there is one, and the automaton. */
  datatype Outcome = Outcome(stream: seq<Byte>, replies: seq<Reply>, errno: int, message: Option<Message>,
                             decoder: Decoder)

  /** A call: it reads, never more than the current message can still need, until the message is complete
      or a read gives nothing. */
  function Called(d: Decoder, stream: seq<Byte>, replies: seq<Reply>, errno: int): (r: Outcome)
    requires d.index < 8
    ensures r.decoder.index < 8 && (r.message.Some? ==> r.decoder.index == 0)
    ensures replies != [] ==> |r.replies| < |replies|
    decreases |replies|
  {
    if replies == [] then Outcome(stream, [], errno, None, d) else
      match replies[0]
      case Fail(e) => Outcome(stream, replies[1..], e, None, d)
      case Take(count) =>
        var n := Got(count, 8 - d.index, stream);
        var e := Feed(d, stream[..n]);
        if n == 0 then Outcome(stream, replies[1..], errno, None, d)
        else if e.index < 8 then Called(e, stream[n..], replies[1..], errno)
        else Outcome(stream[n..], replies[1..], errno, Some(e.Received()), e.(index := 0))
  }

  /** Calls one after the other: the messages, and what the last one leaves. */
  function CalledMany(d: Decoder, stream: seq<Byte>, replies: seq<Reply>, errno: int, calls: nat)
    : (r: (seq<Message>, Outcome))
    requires d.index < 8
    ensures r.1.decoder.index < 8
  {
    if calls == 0 then ([], Outcome(stream, replies, errno, None, d)) else
      var (before, o) := CalledMany(d, stream, replies, errno, calls - 1);
      var r := Called(o.decoder, o.stream, o.replies, o.errno);
      (before + if r.message.Some? then [r.message.value] else [], r)
  }

  lemma OneCallMore(d: Decoder, stream: seq<Byte>, replies: seq<Reply>, errno: int, calls: nat)
    requires d.index < 8
    ensures CalledMany(d, stream, replies, errno, 0) == ([], Outcome(stream, replies, errno, None, d))
    ensures var (before, o) := CalledMany(d, stream, replies, errno, calls);
            var r := Called(o.decoder, o.stream, o.replies, o.errno);
            CalledMany(d, stream, replies, errno, calls + 1)
            == (before + if r.message.Some? then [r.message.value] else [], r)
  {
    hide Called;
  }

  class Receiver {
    var index: nat
    var command: Byte
    var param1: Byte
    var param2: Byte

    constructor ()
      ensures State() == Decoder(0, 0, 0, 0)
    {
      index, command, param1, param2 := 0, 0, 0, 0;
    }

    function State(): Decoder
      reads this
    {
      Decoder(index, command, param1, param2)
    }

    /** The inner loop: a byte that does not fit is looked at once more as the first of a message. */
    method Consume(buffer: seq<Byte>)
      requires index + |buffer| <= 8
      modifies this
      ensures State() == Feed(old(State()), buffer)
    {
      var cursor := 0;
      while cursor < |buffer|
        invariant cursor <= |buffer| && index + |buffer| - cursor <= 8
        invariant Feed(State(), buffer[cursor..]) == Feed(old(State()), buffer)
        decreases |buffer| - cursor, index
      {
        var b, at := buffer[cursor], index;
        index := index + 1;
        match at {
          case 0 =>
            if b != LETTER_A {
              index := 0;
            }
          case 1 =>
            if b != LETTER_V {
              index := 0;
              continue;
            }
          case 2 =>
            if b != UNDERSCORE {
              index := 0;
              continue;
            }
          case 3 =>
            command := b;
          case 4 =>
            if b != OK {
              index := 0;
              continue;
            }
          case 5 =>
            param1 := b;
          case 6 =>
            param2 := b;
          case 7 =>
            if b != END {
              index := 0;
              continue;
            }
          case _ =>
        }
        cursor := cursor + 1;
      }
    }

    /** A call as it stands: what is left of the port, the message so far and the automaton. */
    function Standing(port: Port, message: Option<Message>): Outcome
      reads this, port
    {
      Outcome(port.stream, port.replies, port.errno, message, State())
    }

    /** One turn of the outer loop: a read, and the automaton on what it gave. */
    method ReadSome(port: Port) returns (bytes: int)
      requires index < 8
      modifies this, port
      ensures index <= 8 && old(port.consumed) <= port.consumed
      ensures port.consumed + port.stream == old(port.consumed + port.stream)
      ensures bytes > 0 ==> |port.stream| < |old(port.stream)|
      ensures bytes <= 0 ==> State() == old(State()) && port.consumed == old(port.consumed)
      ensures Decode(old(State()), port.consumed[|old(port.consumed)|..]) == Reached()
      ensures Called(old(State()), old(port.stream), old(port.replies), old(port.errno))
              == if bytes <= 0 then Standing(port, None) else Outlook(port)
    {
      ghost var start := State();
      var buffer;
      bytes, buffer := port.Read(8 - index);
      assert port.consumed[|old(port.consumed)|..] == buffer;
      if bytes > 0 {
        Consume(buffer);
        FeedIsDecode(start, buffer);
      }
    }

    /** What the automaton has come to within a call. */
    function Reached(): Progress
      reads this
    {
      if index < 8 then Progress(State(), []) else Progress(State().(index := 0), [State().Received()])
    }

    /** What a call will come to from here. */
    function Outlook(port: Port): Outcome
      reads this, port
    {
      if index < 8 then Called(State(), port.stream, port.replies, port.errno)
      else Standing(port, Some(State().Received())).(decoder := State().(index := 0))
    }

    /** arcam_av_receive: reads until a message is complete or a read gives nothing.  The message is the
        one the consumed bytes complete, and then they end with it; what an early return leaves is the
        automaton's state.  Every read asks for no more than the current message can still need. */
    method Receive(port: Port) returns (ret: int, message: Option<Message>)
      requires index < 8
      modifies this, port
      ensures Standing(port, message) == Called(old(State()), old(port.stream), old(port.replies), old(port.errno))
      ensures ret == if message.Some? then 0 else -port.errno
      ensures old(port.consumed) <= port.consumed && port.consumed + port.stream == old(port.consumed + port.stream)
      ensures var bytes := port.consumed[|old(port.consumed)|..];
              Decode(old(State()), bytes) == Progress(State(), if message.Some? then [message.value] else [])
      ensures index < 8 && (message.Some? ==> index == 0)
    {
      hide Called, Decode;
      assert Decode(State(), []) == Reached() by {
        DecodeNothing(State());
      }
      assert port.consumed[|port.consumed|..] == [];
      while index < 8
        invariant index <= 8
        invariant old(port.consumed) <= port.consumed && port.consumed + port.stream == old(port.consumed + port.stream)
        invariant Decode(old(State()), port.consumed[|old(port.consumed)|..]) == Reached()
        invariant Called(old(State()), old(port.stream), old(port.replies), old(port.errno)) == Outlook(port)
        decreases if index < 8 then 1 else 0, |port.stream|
      {
        ghost var before, middle := port.consumed[|old(port.consumed)|..], port.consumed;
        var bytes := ReadSome(port);
        assert port.consumed[|old(port.consumed)|..] == before + port.consumed[|middle|..];
        DecodeJoin(old(State()), before, port.consumed[|middle|..]);
        if bytes <= 0 {
          return -port.errno, None;
        }
      }
      index := 0;
      return 0, Some(Message(command, param1, param2));
    }

    /** Any number of calls, whatever the reads return: the messages are those of the byte-at-a-time
        automaton over the bytes consumed. */
    method ReceiveMany(port: Port, calls: nat) returns (messages: seq<Message>)
      requires index < 8
      modifies this, port
      ensures index < 8 && old(port.consumed) <= port.consumed
      ensures port.consumed + port.stream == old(port.consumed + port.stream)
      ensures Decode(old(State()), port.consumed[|old(port.consumed)|..]) == Progress(State(), messages)
      ensures var (all, o) := CalledMany(old(State()), old(port.stream), old(port.replies), old(port.errno), calls);
              messages == all && Standing(port, o.message) == o
    {
      hide Called, CalledMany, Decode;
      messages := [];
      ghost var start := Standing(port, None);
      OneCallMore(start.decoder, start.stream, start.replies, start.errno, 0);
      DecodeNothing(State());
      assert port.consumed[|port.consumed|..] == [];
      for i := 0 to calls
        invariant index < 8 && old(port.consumed) <= port.consumed
        invariant port.consumed + port.stream == old(port.consumed + port.stream)
        invariant Decode(old(State()), port.consumed[|old(port.consumed)|..]) == Progress(State(), messages)
        invariant var (all, o) := CalledMany(start.decoder, start.stream, start.replies, start.errno, i);
                  messages == all && Standing(port, o.message) == o
      {
        ghost var before, middle := port.consumed[|old(port.consumed)|..], port.consumed;
        OneCallMore(start.decoder, start.stream, start.replies, start.errno, i);
        var ret, message := Receive(port);
        DecodeJoin(old(State()), before, port.consumed[|middle|..]);
        assert port.consumed[|old(port.consumed)|..] == before + port.consumed[|middle|..];
        if message.Some? {
          messages := messages + [message.value];
        }
      }
    }
  }

  /** The first read that a call makes gives nothing exactly if it fails or nothing is there; then the call
      ends without a message, and its result is a success if and only if no error is on record. */
  lemma NothingRead(d: Decoder, stream: seq<Byte>, replies: seq<Reply>, errno: int)
    requires d.index < 8 && replies != []
    requires replies[0].Fail? || replies[0].count == 0 || stream == []
    ensures var r := Called(d, stream, replies, errno);
            && r.message == None && r.decoder == d && r.stream == stream
            && r.errno == if replies[0].Fail? then replies[0].errno else errno
  {}

  /** A read of this kind gave nothing: it failed, was one of nothing, or found the stream used up. */
  predicate Dry(reply: Reply, left: seq<Byte>) {
    reply.Fail? || reply.count == 0 || left == []
  }

  /** A call ends without a message only when its last read gave nothing, or no answers are left.  Only a
      failure changes the error on record. */
  lemma {:induction false} EndsDry(d: Decoder, stream: seq<Byte>, replies: seq<Reply>, errno: int)
    requires d.index < 8
    ensures var r := Called(d, stream, replies, errno);
            var used := |replies| - |r.replies|;
            && 0 <= used && (replies != [] ==> 0 < used)
            && (r.message.None? && 0 < used < |replies| ==> Dry(replies[used - 1], r.stream))
            && r.errno == if r.message.None? && 0 < used
                && replies[used - 1].Fail? then replies[used - 1].errno else errno
    decreases |replies|
  {
    hide Feed, Dry;
    if replies != [] && replies[0].Take? {
      var n := Got(replies[0].count, 8 - d.index, stream);
      var e := Feed(d, stream[..n]);
      if n == 0 {
        GotNothing(replies[0], 8 - d.index, stream);
      } else if e.index < 8 {
        EndsDry(e, stream[n..], replies[1..], errno);
        var used := |replies| - |Called(e, stream[n..], replies[1..], errno).replies|;
        assert used > 1 ==> replies[used - 1] == replies[1..][used - 2];
      }
    } else if replies != [] {
      FailedRead(replies[0], stream);
    }
  }

  lemma GotNothing(reply: Reply, size: nat, stream: seq<Byte>)
    requires reply.Take? && 0 < size && Got(reply.count, size, stream) == 0
    ensures Dry(reply, stream)
  {}

  lemma FailedRead(reply: Reply, stream: seq<Byte>)
    requires reply.Fail?
    ensures Dry(reply, stream)
  {}

  /** A call that finds nothing to read and reports a success all the same. */
  method SilentSuccess() returns (ret: int, message: Option<Message>)
    ensures ret == 0 && message == None
  {
    var port := new Port([], [Take(0)]);
    var receiver := new Receiver();
    NothingRead(Decoder(0, 0, 0, 0), [], [Take(0)], 0);
    ret, message := receiver.Receive(port);
  }

  /** A well-formed reply of the amplifier. */
  datatype Response = Response(command: Byte, status: Byte, param1: Byte, param2: Byte) {
    function Bytes(): seq<Byte> {
      [LETTER_A, LETTER_V, UNDERSCORE, command, status, param1, param2, END]
    }

    function Answer(): seq<Message> {
      if status == OK then [Message(command, param1, param2)] else []
    }
  }

  function Stream(responses: seq<Response>): seq<Byte> {
    if responses == [] then [] else responses[0].Bytes() + Stream(responses[1..])
  }

  function Answers(responses: seq<Response>): seq<Message> {
    if responses == [] then [] else responses[0].Answer() + Answers(responses[1..])
  }

  /** The automaton is not about to take the start of a reply for the contents of one. */
  predicate Synchronised(d: Decoder) {
    d.index in {0, 1, 2, 4, 7}
  }

  /** One well-formed reply, met in any state: its message is delivered exactly if it is an OK reply and
      the automaton was synchronised; nothing else is delivered, and afterwards it is synchronised. */
  lemma OneResponse(d: Decoder, r: Response)
    requires d.index < 8
    ensures Decode(d, r.Bytes()).messages == if Synchronised(d) then r.Answer() else []
    ensures Decode(d, r.Bytes()).decoder.index in {0, 4}
  {
    var s := r.Bytes();
    DecodeJoin(d, s[..3], s[3..]);
    assert s == s[..3] + s[3..];
    Header(d);
    assert s[..3] == [LETTER_A, LETTER_V, UNDERSCORE];
    var e := Decode(d, s[..3]).decoder;
    Body(e, s[3..]);
  }

  lemma Header(d: Decoder)
    requires d.index < 8
    ensures var r := Decode(d, [LETTER_A, LETTER_V, UNDERSCORE]);
            r.messages == [] && r.decoder.index == if Synchronised(d) then 3 else 0
  {
    var a := Step(d, LETTER_A);
    var v := Step(a, LETTER_V);
    var u := Step(v, UNDERSCORE);
    One(d, [LETTER_A, LETTER_V, UNDERSCORE]);
    One(a, [LETTER_V, UNDERSCORE]);
    One(v, [UNDERSCORE]);
  }

  /** The bytes of a reply behind its header. */
  lemma Body(d: Decoder, s: seq<Byte>)
    requires d.index in {0, 3} && |s| == 5 && s[4] == END
    ensures var r := Decode(d, s);
            r.decoder.index in {0, 4}
            && r.messages == if d.index == 3 && s[1] == OK then [Message(s[0], s[2], s[3])] else []
  {
    var d1 := Step(d, s[0]);
    var d2 := Step(d1, s[1]);
    var d3 := Step(d2, s[2]);
    var d4 := Step(d3, s[3]);
    One(d, s);
    One(d1, s[1..]);
    One(d2, s[2..]);
    One(d3, s[3..]);
    One(d4, s[4..]);
  }

  lemma One(d: Decoder, s: seq<Byte>)
    requires d.index < 8 && s != []
    ensures Step(d, s[0]).index < 8 ==> Decode(d, s) == Decode(Step(d, s[0]), s[1..])
    ensures Step(d, s[0]).index == 8 && |s| == 1 ==>
              Decode(d, s) == Progress(Step(d, s[0]).(index := 0), [Step(d, s[0]).Received()])
  {}

  /** Any mixture of OK and error replies, met in any state: exactly the OK ones are delivered, in order,
      except that a decoder that was not synchronised misses the first reply. */
  lemma {:induction false} Mixture(d: Decoder, responses: seq<Response>)
    requires d.index < 8
    ensures Decode(d, Stream(responses)).messages
            == if Synchronised(d) || responses == [] then Answers(responses) else Answers(responses[1..])
    decreases |responses|
  {
    if responses != [] {
      OneResponse(d, responses[0]);
      DecodeJoin(d, responses[0].Bytes(), Stream(responses[1..]));
      Mixture(Decode(d, responses[0].Bytes()).decoder, responses[1..]);
    }
  }

  /** Replies behind a stretch of noise: all OK replies are delivered behind whatever the noise itself
      completes if and only if the first reply is an error or the noise leaves the decoder synchronised. */
  lemma BehindNoise(noise: seq<Byte>, responses: seq<Response>)
    ensures var start := Decoder(0, 0, 0, 0);
            var spoilt := Decode(start, noise);
            Decode(start, noise + Stream(responses)).messages == spoilt.messages + Answers(responses)
            <==> Synchronised(spoilt.decoder) || responses == [] || responses[0].status != OK
  {
    hide Decode, Stream, Answers;
    var start := Decoder(0, 0, 0, 0);
    var spoilt := Decode(start, noise);
    DecodeJoin(start, noise, Stream(responses));
    Mixture(spoilt.decoder, responses);
    if responses != [] {
      FirstMissed(spoilt.messages, responses);
    }
  }

  lemma FirstMissed(before: seq<Message>, responses: seq<Response>)
    requires responses != []
    ensures before + Answers(responses[1..]) == before + Answers(responses) <==> responses[0].status != OK
  {
    assert |Answers(responses)| == |responses[0].Answer()| + |Answers(responses[1..])|;
    assert |before + Answers(responses)| == |before| + |Answers(responses)|;
    if responses[0].status != OK {
      assert Answers(responses) == Answers(responses[1..]);
    }
  }

  /** Three bytes of noise that look like a header, and the OK reply behind them is lost. */
  lemma ReplyLost(r: Response)
    requires r.status == OK
    ensures var noise, start := [LETTER_A, LETTER_V, UNDERSCORE], Decoder(0, 0, 0, 0);
            Decode(start, noise).messages == [] && Decode(start, noise + Stream([r])).messages == []
            && Answers([r]) == [Message(r.command, r.param1, r.param2)]
  {
    var noise, start := [LETTER_A, LETTER_V, UNDERSCORE], Decoder(0, 0, 0, 0);
    hide Decode, Stream;
    Header(start);
    DecodeJoin(start, noise, Stream([r]));
    Mixture(Decode(start, noise).decoder, [r]);
    assert [r][1..] == [];
  }

  // ---------------------------------------------------------------- nothing is made up

  /** The OK reply that delivers a message. */
  function Framed(m: Message): (s: seq<Byte>)
    ensures |s| == 8
  {
    Response(m.command, OK, m.param1, m.param2).Bytes()
  }

  /** The automaton stands behind the first bytes of a frame. */
  predicate Seen(d: Decoder, bytes: seq<Byte>) {
    d.index < 8 && d.index <= |bytes| && bytes[|bytes| - d.index..] == Framed(d.Received())[..d.index]
  }

  /** A byte that fits makes one more byte of the frame certain. */
  lemma OneMoreFits(d: Decoder, b: Byte)
    requires d.index < 8 && Step(d, b).index == d.index + 1
    ensures Framed(Step(d, b).Received())[..d.index + 1] == Framed(d.Received())[..d.index] + [b]
  {
    var e, f, g := Step(d, b), Framed(d.Received()), Framed(Step(d, b).Received());
    assert Fits(d.index, b) || (d.index == 0 && b == LETTER_A);
    forall j | 0 <= j < d.index ensures g[j] == f[j] {}
    assert g[d.index] == b;
  }

  /** One that does not starts a message or is dropped. */
  lemma Misfit(d: Decoder, b: Byte)
    requires d.index < 8 && Step(d, b).index != d.index + 1
    ensures Step(d, b).index == if b == LETTER_A then 1 else 0
    ensures Framed(Step(d, b).Received())[..1] == [LETTER_A]
  {}

  lemma StepSeen(d: Decoder, bytes: seq<Byte>, b: Byte)
    requires Seen(d, bytes)
    ensures var e, all := Step(d, b), bytes + [b];
            if e.index < 8 then Seen(e, all) else 8 <= |all| && all[|all| - 8..] == Framed(e.Received())
  {
    hide Step, Framed;
    var e, all := Step(d, b), bytes + [b];
    if e.index == d.index + 1 {
      OneMoreFits(d, b);
      assert all[|all| - e.index..] == bytes[|bytes| - d.index..] + [b];
      assert e.index == 8 ==> Framed(e.Received())[..8] == Framed(e.Received());
    } else {
      Misfit(d, b);
      assert all[|all| - 1..] == [b] && all[|all|..] == [];
    }
  }

  /** Gaps and frames in turn. */
  function Woven(gaps: seq<seq<Byte>>, messages: seq<Message>): seq<Byte>
    requires |gaps| == |messages|
  {
    if messages == [] then [] else
      var n := |messages| - 1;
      Woven(gaps[..n], messages[..n]) + (gaps[n] + Framed(messages[n]))
  }

  lemma WovenMore(gaps: seq<seq<Byte>>, messages: seq<Message>, gap: seq<Byte>, m: Message)
    requires |gaps| == |messages|
    ensures Woven(gaps + [gap], messages + [m]) == Woven(gaps, messages) + (gap + Framed(m))
  {
    hide Framed;
    assert (gaps + [gap])[..|gaps|] == gaps && (messages + [m])[..|messages|] == messages;
  }

  lemma NothingSeen()
    ensures forall d: Decoder :: d.index == 0 ==> Seen(d, [])
    ensures Woven([], []) == []
  {}

  /** One byte more. */
  lemma OneByteMore(bytes: seq<Byte>, b: Byte)
    ensures var before, after := Decode(Decoder(0, 0, 0, 0), bytes), Decode(Decoder(0, 0, 0, 0), bytes + [b]);
            var e := Step(before.decoder, b);
            && after.decoder == (if e.index < 8 then e else e.(index := 0))
            && after.messages == before.messages + if e.index < 8 then [] else [e.Received()]
  {
    hide Step;
    var d := Decode(Decoder(0, 0, 0, 0), bytes).decoder;
    DecodeJoin(Decoder(0, 0, 0, 0), bytes, [b]);
    One(d, [b]);
    assert [b][1..] == [];
  }

  /** Whatever was read, the messages are those of frames that stand in it one behind the other, none of them
      overlapping another; and the automaton stands behind the first bytes of one more. */
  lemma {:induction false} OnlyFrames(bytes: seq<Byte>) returns (gaps: seq<seq<Byte>>, rest: seq<Byte>)
    ensures var r := Decode(Decoder(0, 0, 0, 0), bytes);
            |gaps| == |r.messages| && bytes == Woven(gaps, r.messages) + rest && Seen(r.decoder, rest)
    decreases |bytes|
  {
    hide *;
    if bytes == [] {
      gaps, rest := [], [];
      NothingSeen();
      DecodeNothing(Decoder(0, 0, 0, 0));
    } else {
      var n := |bytes| - 1;
      gaps, rest := OnlyFrames(bytes[..n]);
      var before := Decode(Decoder(0, 0, 0, 0), bytes[..n]);
      OneByteMore(bytes[..n], bytes[n]);
      assert bytes[..n] + [bytes[n]] == bytes;
      StepSeen(before.decoder, rest, bytes[n]);
      var e, all := Step(before.decoder, bytes[n]), rest + [bytes[n]];
      ghost var woven := Woven(gaps, before.messages);
      assert bytes == woven + all;
      if e.index < 8 {
        assert before.messages + [] == before.messages;
        rest := all;
      } else {
        var gap := all[..|all| - 8];
        assert gap + Framed(e.Received()) == all;
        WovenMore(gaps, before.messages, gap, e.Received());
        NothingSeen();
        assert woven + all + [] == woven + all;
        gaps, rest := gaps + [gap], [];
      }
    }
  }
}
