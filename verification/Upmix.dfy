/** The delay line of the upmix plugin: the rear channels repeat the front ones some time later. */
module Upmix {
  import opened Buffers

  function Zeros(n: nat): (s: seq<int>)
    ensures |s| == n
  {
    seq(n, _ => 0)
  }

  /** What a delay line holds, the oldest sample first. */
  function Queue(line: seq<int>, curpos: nat): (q: seq<int>)
    requires curpos < |line| || |line| == curpos == 0
    ensures |q| == |line|
  {
    line[curpos..] + line[..curpos]
  }

  /** The front samples, delayed. */
  function Delayed(delay: nat, front: seq<int>): (r: seq<int>)
    ensures |r| == delay + |front|
  {
    Zeros(delay) + front
  }

  function Next(pos: nat, length: nat): (r: nat)
    requires pos < length
    ensures r < length && r == if pos + 1 == length then 0 else pos + 1
  {
    (pos + 1) % length
  }

  /** Overwriting the oldest sample puts the new one at the end of the queue. */
  lemma Pushed(line: seq<int>, curpos: nat, x: int)
    requires curpos < |line|
    ensures Queue(line, curpos)[0] == line[curpos]
    ensures Queue(line[curpos := x], Next(curpos, |line|)) == Queue(line, curpos)[1..] + [x]
  {
    var q, new' := Queue(line, curpos), line[curpos := x];
    assert q[1..] == line[curpos + 1..] + line[..curpos];
    assert new'[..curpos + 1] == line[..curpos] + [x] && new'[curpos + 1..] == line[curpos + 1..];
    if curpos + 1 == |line| {
      assert new'[0..] == new';
    }
  }

  /** Reading turns the queue. */
  lemma Rotated(line: seq<int>, curpos: nat)
    requires curpos < |line|
    ensures Queue(line, Next(curpos, |line|)) == Queue(line, curpos)[1..] + [line[curpos]]
  {
    Pushed(line, curpos, line[curpos]);
    assert line[curpos := line[curpos]] == line;
  }

  lemma QueueStep(q: seq<int>, s: seq<int>, p: nat)
    requires p < |q| && p < |s|
    ensures (q[p..] + s[..p])[1..] + [s[p]] == q[p + 1..] + s[..p + 1]
    ensures (q[p..] + s[..p])[0] == q[p]
  {}

  class Mix {
    const delayMs: nat
    const delay: nat
    const lines: seq<array<int>>
    var curpos: nat

    /** What each of the two channels was given since the plugin was initialised. */
    ghost var fed: seq<seq<int>>

    ghost predicate Shaped()
      reads this, lines
    {
      && |lines| == 2 && lines[0] != lines[1] && lines[0].Length == lines[1].Length == delay
      && (curpos < delay || delay == curpos == 0)
      && |fed| == 2 && |fed[0]| == |fed[1]|
      && (delayMs == 0 ==> delay == 0)
    }

    /** The delay lines hold the last samples of the delayed streams. */
    ghost predicate Valid()
      reads this, lines
    {
      Shaped() && forall c :: 0 <= c < 2 ==> Queue(lines[c][..], curpos) == Delayed(delay, fed[c])[|fed[c]|..]
    }

    /** upmix_init. */
    constructor (rate: nat, delayMs: nat)
      ensures Valid() && fed == [[], []] && this.delayMs == delayMs
      ensures delay == if delayMs == 0 then 0 else rate * delayMs / 1000
      ensures fresh(lines)
    {
      this.delayMs := delayMs;
      var d := if delayMs == 0 then 0 else rate * delayMs / 1000;
      delay := d;
      var left := new int[d](_ => 0);
      var right := new int[d](_ => 0);
      lines := [left, right];
      curpos := 0;
      fed := [[], []];
      new;
      assert lines[0][..] == Zeros(d) && lines[1][..] == Zeros(d);
    }

    /** Reads the oldest samples of a line, which stays as it is. */
    method ReadLine(line: array<int>, count: nat, dst: array<int>, offset: nat)
      requires count <= line.Length == delay && (curpos < delay || delay == curpos == 0)
      requires offset + count <= dst.Length && dst != line
      modifies dst
      ensures dst[..] == Patched(old(dst[..]), offset, Queue(line[..], curpos)[..count])
    {
      hide Queue;
      var pos: nat := curpos;
      ghost var q, was := Queue(line[..], curpos), dst[..];
      ghost var head := q[..count];
      for p := 0 to count
        invariant pos < delay || delay == pos == 0
        invariant Queue(line[..], pos) == q[p..] + q[..p]
        invariant dst[..] == Patched(was, offset, q[..p])
      {
        Pushed(line[..], pos, 0);
        Rotated(line[..], pos);
        QueueStep(q, q, p);
        assert head[..p] == q[..p] && head[..p + 1] == q[..p + 1];
        PatchNext(was, offset, head, p);
        dst[offset + p] := line[pos];
        pos := Next(pos, delay);
      }
    }

    /** Replaces the oldest samples of a line by new ones. */
    method WriteLine(line: array<int>, src: seq<int>) returns (pos: nat)
      requires |src| <= line.Length == delay && (curpos < delay || delay == curpos == 0)
      modifies line
      ensures pos < delay || delay == pos == 0
      ensures pos == Turned(curpos, |src|, delay)
      ensures Queue(line[..], pos) == Queue(old(line[..]), curpos)[|src|..] + src
    {
      hide Queue;
      pos := curpos;
      ghost var q := Queue(line[..], curpos);
      for p := 0 to |src|
        invariant pos < delay || delay == pos == 0
        invariant pos == Turned(curpos, p, delay)
        invariant Queue(line[..], pos) == q[p..] + src[..p]
      {
        Pushed(line[..], pos, src[p]);
        QueueStep(q, src, p);
        line[pos] := src[p];
        pos := Next(pos, delay);
      }
      assert src[..|src|] == src;
    }

    /** delayed_copy for one channel. */
    method DelayChannel(line: array<int>, src: seq<int>, dst: array<int>, offset: nat) returns (pos: nat)
      requires line.Length == delay && (curpos < delay || delay == curpos == 0)
      requires offset + |src| <= dst.Length && dst != line
      modifies dst, line
      ensures pos < delay || delay == pos == 0
      ensures pos == Turned(curpos, if delay > |src| then |src| else delay, delay)
      ensures Queue(line[..], pos) == (Queue(old(line[..]), curpos) + src)[|src|..]
      ensures dst[..] == Patched(old(dst[..]), offset, (Queue(old(line[..]), curpos) + src)[..|src|])
    {
      hide Queue, Patched, Turned;
      ghost var q := Queue(line[..], curpos);
      var d := if delay > |src| then |src| else delay;
      ReadLine(line, d, dst, offset);
      CopyTo(dst, offset + d, src[..|src| - d]);
      PatchTwice(old(dst[..]), offset, q[..d], src[..|src| - d]);
      pos := WriteLine(line, src[|src| - d..]);
      ThroughLine(q, src, d);
    }

    /** delayed_copy for a channel that was given before, in terms of its whole stream. */
    method DelayStream(line: array<int>, src: seq<int>, dst: array<int>, offset: nat, ghost before: seq<int>)
      returns (pos: nat)
      requires line.Length == delay && (curpos < delay || delay == curpos == 0)
      requires Queue(line[..], curpos) == Delayed(delay, before)[|before|..]
      requires offset + |src| <= dst.Length && dst != line
      modifies dst, line
      ensures pos < delay || delay == pos == 0
      ensures pos == Turned(curpos, if delay > |src| then |src| else delay, delay)
      ensures Queue(line[..], pos) == Delayed(delay, before + src)[|before + src|..]
      ensures dst[..] == Patched(old(dst[..]), offset, Delayed(delay, before + src)[|before|..|before + src|])
    {
      hide Queue, Patched, Turned, Delayed;
      pos := DelayChannel(line, src, dst, offset);
      Continued(delay, before, src);
    }

    /** delayed_copy: both channels of one transfer.  What comes out is the next part of the delayed
        streams, whatever the size of the transfer. */
    method DelayedCopy(src: seq<seq<int>>, dst: seq<array<int>>, offset: nat)
      requires Valid() && |src| == |dst| == 2 && |src[0]| == |src[1]|
      requires dst[0] != dst[1] && dst[0] !in lines && dst[1] !in lines
      requires forall c :: 0 <= c < 2 ==> offset + |src[c]| <= dst[c].Length
      modifies this, lines, dst
      ensures Valid() && fed == [old(fed[0]) + src[0], old(fed[1]) + src[1]]
      ensures Delivered(offset, old(dst[0][..]), dst[0][..], old(fed[0]), src[0])
      ensures Delivered(offset, old(dst[1][..]), dst[1][..], old(fed[1]), src[1])
    {
      hide Queue, Patched, Turned, Delayed;
      ghost var was := fed;
      fed := [fed[0] + src[0], fed[1] + src[1]];
      if delayMs == 0 {
        NoDelay(was[0], src[0]);
        NoDelay(was[1], src[1]);
        NoLine(lines[0][..], fed[0]);
        NoLine(lines[1][..], fed[1]);
        CopyTo(dst[0], offset, src[0]);
        CopyTo(dst[1], offset, src[1]);
      } else {
        var left := DelayStream(lines[0], src[0], dst[0], offset, was[0]);
        var right := DelayStream(lines[1], src[1], dst[1], offset, was[1]);
        curpos := right;
      }
    }

    /** A rear buffer after a transfer. */
    ghost predicate Delivered(offset: nat, was: seq<int>, now: seq<int>, before: seq<int>, src: seq<int>)
      requires offset + |src| <= |was|
    {
      now == Patched(was, offset, Delayed(delay, before + src)[|before|..|before + src|])
    }

    /** Any sequence of transfers: the rear channels are the front ones, delayed, zeros first. */
    method Run(chunks: seq<seq<seq<int>>>) returns (rear: seq<seq<int>>)
      requires Valid() && fed == [[], []]
      requires forall i :: 0 <= i < |chunks| ==> |chunks[i]| == 2 && |chunks[i][0]| == |chunks[i][1]|
      modifies this, lines
      ensures Valid() && |rear| == 2
      ensures forall c :: 0 <= c < 2 ==> rear[c] == Delayed(delay, Joined(chunks, c))[..|Joined(chunks, c)|]
    {
      hide Queue, Patched, Delayed, Mix.Valid;
      var left, right := [], [];
      for i := 0 to |chunks|
        invariant Valid() && fed == [Joined(chunks[..i], 0), Joined(chunks[..i], 1)]
        invariant left == Delayed(delay, fed[0])[..|fed[0]|] && right == Delayed(delay, fed[1])[..|fed[1]|]
      {
        ghost var was := fed;
        var a, b := RunOnce(chunks[i]);
        left, right := left + a, right + b;
        assert chunks[..i + 1][..i] == chunks[..i];
        Grown(delay, was[0], chunks[i][0]);
        Grown(delay, was[1], chunks[i][1]);
      }
      assert chunks[..|chunks|] == chunks;
      rear := [left, right];
    }

    method RunOnce(chunk: seq<seq<int>>) returns (left: seq<int>, right: seq<int>)
      requires Valid() && |chunk| == 2 && |chunk[0]| == |chunk[1]|
      modifies this, lines
      ensures Valid() && fed == [old(fed[0]) + chunk[0], old(fed[1]) + chunk[1]]
      ensures left == Delayed(delay, fed[0])[|old(fed[0])|..|fed[0]|]
      ensures right == Delayed(delay, fed[1])[|old(fed[1])|..|fed[1]|]
    {
      hide Queue, Delayed;
      var n := |chunk[0]|;
      var first, second := new int[n], new int[n];
      DelayedCopy(chunk, [first, second], 0);
      left, right := first[..], second[..];
    }
  }

  /** The place in a line of some length after a number of steps. */
  function Turned(pos: nat, steps: nat, length: nat): (r: nat)
    requires pos < length || pos == length == 0
    ensures r < length || r == length == 0
  {
    if steps == 0 || length == 0 then pos else
      Next(Turned(pos, steps - 1, length), length)
  }

  /** A line and the samples behind it, cut after the samples. */
  lemma ThroughLine(q: seq<int>, src: seq<int>, d: nat)
    requires d == if |q| > |src| then |src| else |q|
    ensures q[..d] + src[..|src| - d] == (q + src)[..|src|]
    ensures q[d..] + src[|src| - d..] == (q + src)[|src|..]
  {}

  lemma Continued(delay: nat, before: seq<int>, src: seq<int>)
    ensures var q := Delayed(delay, before)[|before|..];
            (q + src)[..|src|] == Delayed(delay, before + src)[|before|..|before| + |src|]
            && (q + src)[|src|..] == Delayed(delay, before + src)[|before| + |src|..]
  {
    assert Delayed(delay, before + src) == Delayed(delay, before) + src;
  }

  lemma NoDelay(before: seq<int>, src: seq<int>)
    ensures Delayed(0, before + src)[|before|..|before + src|] == src
  {}

  lemma NoLine(line: seq<int>, fed: seq<int>)
    requires line == []
    ensures Queue(line, 0) == Delayed(0, fed)[|fed|..]
  {}

  lemma Grown(delay: nat, before: seq<int>, src: seq<int>)
    ensures Delayed(delay, before)[..|before|] + Delayed(delay, before + src)[|before|..|before + src|]
            == Delayed(delay, before + src)[..|before + src|]
  {
    assert Delayed(delay, before + src) == Delayed(delay, before) + src;
  }

  /** Sample n of a rear channel is sample n - delay of its front channel, or silence before that. */
  lemma RearSample(delay: nat, front: seq<int>, n: nat)
    requires n < |front|
    ensures Delayed(delay, front)[..|front|][n] == if n < delay then 0 else front[n - delay]
  {}
}
