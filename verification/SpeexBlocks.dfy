/** The speex plugin: samples go through a DSP that works on whole blocks, with a block's delay. */
module SpeexBlocks {
  import opened Buffers
  import opened Wrappers

  /** The states of the echo canceller and of the preprocessor, where they are in use. */
  datatype Stage<E, P> = Stage(echo: Option<E>, pre: Option<P>) {
    predicate Idle() {
      echo.None? && pre.None?
    }
  }

  /** The DSP library: each function gives the new state and, but for playback, a block.  The preprocessor
      may look at the echo canceller. */
  datatype Dsp<!E, !P> = Dsp(
    capture: (E, seq<int>) -> (E, seq<int>),
    run: (P, Option<E>, seq<int>) -> (P, seq<int>),
    playback: (E, seq<int>) -> E)

  ghost predicate KeepsLength<E(!new), P(!new)>(d: Dsp<E, P>, frames: nat) {
    && (forall e, block :: |block| == frames ==> |d.capture(e, block).1| == frames)
    && (forall p, e, block :: |block| == frames ==> |d.run(p, e, block).1| == frames)
  }

  lemma CaptureLength<E(!new), P(!new)>(d: Dsp<E, P>, frames: nat, e: E, block: seq<int>)
    requires KeepsLength(d, frames) && |block| == frames
    ensures |d.capture(e, block).1| == frames
  {}

  lemma RunLength<E(!new), P(!new)>(d: Dsp<E, P>, frames: nat, p: P, e: Option<E>, block: seq<int>)
    requires KeepsLength(d, frames) && |block| == frames
    ensures |d.run(p, e, block).1| == frames
  {}

  /** What becomes of one block. */
  function Cancel<E, P>(d: Dsp<E, P>, s: Stage<E, P>, block: seq<int>): (Stage<E, P>, seq<int>) {
    var (echo, clean) :=
      if s.echo.None? then (s.echo, block) else
        var (e, b) := d.capture(s.echo.value, block);
        (Some(e), b);
    var (pre, out) :=
      if s.pre.None? then (s.pre, clean) else
        var (p, b) := d.run(s.pre.value, echo, clean);
        (Some(p), b);
    (Stage(if echo.None? then echo else Some(d.playback(echo.value, out)), pre), out)
  }

  /** With an echo canceller and a preprocessor, the block goes through both; what comes out is played back,
      and the preprocessor sees the canceller as it is after the capture. */
  lemma BothStages<E, P>(d: Dsp<E, P>, e: E, p: P, block: seq<int>)
    ensures var (e', clean) := d.capture(e, block);
            var (p', result) := d.run(p, Some(e'), clean);
            Cancel(d, Stage(Some(e), Some(p)), block) == (Stage(Some(d.playback(e', result)), Some(p')), result)
  {}

  /** With an echo canceller alone, its result comes out and is played back. */
  lemma EchoOnly<E, P>(d: Dsp<E, P>, e: E, block: seq<int>)
    ensures var (e', clean) := d.capture(e, block);
            Cancel(d, Stage(Some(e), None), block) == (Stage(Some(d.playback(e', clean)), None), clean)
  {}

  /** With a preprocessor alone, the block goes through it, and nothing is played back. */
  lemma PreprocessOnly<E, P>(d: Dsp<E, P>, p: P, block: seq<int>)
    ensures var (p', result) := d.run(p, None, block);
            Cancel(d, Stage(None, Some(p)), block) == (Stage(None, Some(p')), result)
  {}

  /** The state of the echo canceller before block i. */
  function EchoBefore<E, P>(d: Dsp<E, P>, s: Stage<E, P>, blocks: seq<seq<int>>, i: nat): Option<E>
    requires i <= |blocks|
  {
    Processed(d, s, blocks[..i]).0.echo
  }

  /** Nothing behind the echo canceller hears the microphone but through it: two series of blocks for which
      it gives the same all the way have the same results and leave the same states. */
  lemma {:induction false} HeardThroughCanceller<E, P>(d: Dsp<E, P>, s: Stage<E, P>, blocks: seq<seq<int>>,
                                                       others: seq<seq<int>>)
    requires s.echo.Some? && |blocks| == |others|
    requires forall i :: 0 <= i < |blocks| && EchoBefore(d, s, blocks, i).Some? ==>
               d.capture(EchoBefore(d, s, blocks, i).value, blocks[i])
               == d.capture(EchoBefore(d, s, blocks, i).value, others[i])
    ensures Processed(d, s, blocks) == Processed(d, s, others)
    ensures Processed(d, s, blocks).0.echo.Some?
    decreases |blocks|
  {
    var n := |blocks| - 1;
    if n >= 0 {
      var before := Processed(d, s, blocks[..n]).0;
      forall i | 0 <= i < n && EchoBefore(d, s, blocks[..n], i).Some?
        ensures d.capture(EchoBefore(d, s, blocks[..n], i).value, blocks[..n][i])
             == d.capture(EchoBefore(d, s, blocks[..n], i).value, others[..n][i])
      {
        assert blocks[..n][..i] == blocks[..i] && EchoBefore(d, s, blocks[..n], i) == EchoBefore(d, s, blocks, i);
      }
      HeardThroughCanceller(d, s, blocks[..n], others[..n]);
      assert EchoBefore(d, s, blocks, n) == before.echo;
    }
  }

  /** What becomes of a series of blocks. */
  function Processed<E, P>(d: Dsp<E, P>, s: Stage<E, P>, blocks: seq<seq<int>>): (Stage<E, P>, seq<int>) {
    if blocks == [] then (s, []) else
      var (before, out) := Processed(d, s, blocks[..|blocks| - 1]);
      var (after, last) := Cancel(d, before, blocks[|blocks| - 1]);
      (after, out + last)
  }

  function Flat(blocks: seq<seq<int>>): seq<int> {
    if blocks == [] then [] else Flat(blocks[..|blocks| - 1]) + blocks[|blocks| - 1]
  }

  /** The whole blocks of a stream. */
  function Cut(input: seq<int>, frames: nat): seq<seq<int>>
    requires 0 < frames
  {
    if |input| < frames then [] else [input[..frames]] + Cut(input[frames..], frames)
  }

  lemma {:induction false} CutOfBlocks(blocks: seq<seq<int>>, rest: seq<int>, frames: nat)
    requires 0 < frames && |rest| < frames && forall i :: 0 <= i < |blocks| ==> |blocks[i]| == frames
    ensures Cut(Flat(blocks) + rest, frames) == blocks
  {
    if blocks != [] {
      FlatHead(blocks);
      CutOfBlocks(blocks[1..], rest, frames);
      var s := Flat(blocks) + rest;
      assert s[..frames] == blocks[0] && s[frames..] == Flat(blocks[1..]) + rest;
    }
  }

  lemma {:induction false} FlatHead(blocks: seq<seq<int>>)
    requires blocks != []
    ensures Flat(blocks) == blocks[0] + Flat(blocks[1..])
  {
    var n := |blocks| - 1;
    if n > 0 {
      FlatHead(blocks[..n]);
      assert blocks[..n][1..] == blocks[1..][..n - 1];
    }
  }

  lemma Join(a: seq<int>, b: seq<int>, c: seq<int>)
    ensures a + b + c == a + (b + c)
  {}

  lemma JoinTails(a: seq<int>, b: seq<int>, c: seq<int>)
    requires a <= b <= c
    ensures a <= c && c[|a|..] == b[|a|..] + c[|b|..]
  {}

  lemma SplitSlice(s: seq<int>, i: nat, n: nat)
    requires i + n <= |s|
    ensures s[i..] == s[i..i + n] + s[i + n..]
    ensures s[..i] + s[i..][..n] == s[..i + n]
  {}

  lemma BlockAdded<E, P>(d: Dsp<E, P>, s: Stage<E, P>, blocks: seq<seq<int>>, block: seq<int>)
    ensures var (before, out) := Processed(d, s, blocks);
            var (after, last) := Cancel(d, before, block);
            Processed(d, s, blocks + [block]) == (after, out + last)
    ensures Flat(blocks + [block]) == Flat(blocks) + block
  {
    assert (blocks + [block])[..|blocks|] == blocks;
  }

  /** The reference: a block of silence, then the blocks of the input as the DSP gives them, cut to the
      length of the input. */
  function Latent<E, P>(d: Dsp<E, P>, s: Stage<E, P>, frames: nat, input: seq<int>): seq<int>
    requires 0 < frames
  {
    if s.Idle() then input else
      var out := seq(frames, _ => 0) + Processed(d, s, Cut(input, frames)).1;
      if |input| <= |out| then out[..|input|] else out
  }

  class Plugin<E(!new), P(!new)> {
    const frames: nat
    const dsp: Dsp<E, P>
    const buf: array<int>
    const outbuf: array<int>
    const initial: Stage<E, P>

    var stage: Stage<E, P>
    var filled: nat
    var processed: bool

    /** The blocks that were processed, and everything taken in and given out. */
    ghost var blocks: seq<seq<int>>
    ghost var input: seq<int>
    ghost var output: seq<int>

    /** The buffer the results are in: with an echo canceller one of its own. */
    function DataBuf(): array<int>
      reads this
    {
      if stage.echo.Some? then outbuf else buf
    }

    ghost predicate Shaped()
      reads this, buf, outbuf
    {
      && 0 < frames == buf.Length == outbuf.Length && buf != outbuf && KeepsLength(dsp, frames)
      && (stage.echo.Some? <==> initial.echo.Some?) && (stage.pre.Some? <==> initial.pre.Some?)
      && (forall i :: 0 <= i < |blocks| ==> |blocks[i]| == frames)
      && (processed <==> blocks != [])
      && filled <= frames
    }

    /** The results of the last block that were not given out yet. */
    ghost function Pending(): seq<int>
      requires Shaped()
      reads this, buf, outbuf
    {
      if processed then DataBuf()[filled..] else seq(frames - filled, _ => 0)
    }

    /** What was taken in are whole blocks and the front of the buffer; what was given out lacks only the
        pending results of what the DSP made of those blocks behind a block of silence. */
    ghost predicate Running()
      reads this, buf, outbuf
    {
      && Shaped()
      && stage == Processed(dsp, initial, blocks).0
      && input == Flat(blocks) + buf[..filled]
      && output + Pending() == seq(frames, _ => 0) + Processed(dsp, initial, blocks).1
      && |output| == |input|
    }

    ghost predicate Valid()
      reads this, buf, outbuf
    {
      if initial.Idle() then Shaped() && stage == initial && output == input && blocks == [] && filled == 0
      else Running() && filled < frames
    }

    /** The reset part of spx_init. */
    constructor (frames: nat, dsp: Dsp<E, P>, stage: Stage<E, P>)
      requires 0 < frames && KeepsLength(dsp, frames)
      ensures Valid() && input == output == [] && this.frames == frames && this.dsp == dsp && initial == stage
      ensures fresh(buf) && fresh(outbuf)
    {
      this.frames, this.dsp, this.initial, this.stage := frames, dsp, stage, stage;
      filled, processed := 0, false;
      buf, outbuf := new int[frames](_ => 0), new int[frames](_ => 0);
      blocks, input, output := [], [], [];
    }

    /** The first part of a turn of the loop of spx_transfer: results go out before samples come in,
        because without an echo canceller both live in the same buffer. */
    method Exchange(src: seq<int>, dst: array<int>, offset: nat) returns (out: seq<int>)
      requires Shaped() && filled + |src| <= frames
      requires dst != buf && dst != outbuf && offset + |src| <= dst.Length
      modifies `filled, buf, dst
      ensures Shaped() && filled == old(filled) + |src|
      ensures buf[..filled] == old(buf[..filled]) + src && old(Pending()) == out + Pending() && |out| == |src|
      ensures dst[..] == Patched(old(dst[..]), offset, out)
    {
      hide KeepsLength, Patched;
      ghost var block, results, rest := buf[..], DataBuf()[..], frames - filled;
      out := if processed then DataBuf()[filled..filled + |src|] else seq(|src|, _ => 0);
      SplitSlice(results, filled, |src|);
      assert seq(rest, _ => 0) == seq(|src|, _ => 0) + seq(rest - |src|, _ => 0);
      ghost var later: seq<int> := if processed then results[filled + |src|..] else seq(rest - |src|, _ => 0);
      assert Pending() == out + later;
      CopyTo(dst, offset, out);
      CopyTo(buf, filled, src);
      PatchedParts(block, filled, src);
      filled := filled + |src|;
      assert processed ==> DataBuf()[filled..] == results[filled..];
      assert Pending() == later;
    }

    /** The first part of a turn, with the record of what went in and out. */
    method TakeChunk(src: seq<int>, dst: array<int>, offset: nat)
      requires Running() && filled + |src| <= frames
      requires dst != buf && dst != outbuf && offset + |src| <= dst.Length
      modifies `filled, `input, `output, buf, dst
      ensures Running() && filled == old(filled) + |src| && input == old(input) + src
      ensures |output| == |old(output)| + |src|
      ensures old(output) <= output && dst[..] == Patched(old(dst[..]), offset, output[|old(output)|..])
    {
      hide KeepsLength, Processed, Flat, Patched;
      ghost var was, block := output, buf[..filled];
      var out := Exchange(src, dst, offset);
      input, output := input + src, output + out;
      Join(Flat(blocks), block, src);
      Join(was, out, Pending());
    }

    /** The library calls on a full buffer. */
    method RunDsp()
      requires Shaped()
      modifies `stage, buf, outbuf
      ensures Shaped() && (stage, DataBuf()[..]) == Cancel(dsp, old(stage), old(buf[..]))
    {
      hide KeepsLength, Patched;
      if stage.echo.Some? {
        var r := dsp.capture(stage.echo.value, buf[..]);
        CaptureLength(dsp, frames, stage.echo.value, buf[..]);
        PatchedParts(outbuf[..], 0, r.1);
        CopyTo(outbuf, 0, r.1);
        stage := stage.(echo := Some(r.0));
      }
      var databuf := DataBuf();
      if stage.pre.Some? {
        var r := dsp.run(stage.pre.value, stage.echo, databuf[..]);
        RunLength(dsp, frames, stage.pre.value, stage.echo, databuf[..]);
        PatchedParts(databuf[..], 0, r.1);
        CopyTo(databuf, 0, r.1);
        stage := stage.(pre := Some(r.0));
      }
      if stage.echo.Some? {
        stage := stage.(echo := Some(dsp.playback(stage.echo.value, databuf[..])));
      }
    }

    /** The second part: a full buffer goes through the DSP. */
    method ProcessBlock()
      requires Running() && filled == frames
      modifies `stage, `filled, `processed, `blocks, buf, outbuf
      ensures Running() && filled == 0 && processed && blocks == old(blocks) + [old(buf[..])]
      ensures (stage, Pending()) == Cancel(dsp, old(stage), old(buf[..]))
    {
      hide KeepsLength, Processed, Flat, Cancel;
      ghost var block := buf[..];
      assert buf[..filled] == block && Pending() == [];
      BlockAdded(dsp, initial, blocks, block);
      RunDsp();
      processed, filled := true, 0;
      blocks := blocks + [block];
      assert Pending() == DataBuf()[..] && buf[..0] == [];
      Join(seq(frames, _ => 0), Processed(dsp, initial, blocks[..|blocks| - 1]).1, DataBuf()[..]);
      assert blocks[..|blocks| - 1] == old(blocks);
    }

    /** One turn of the loop of spx_transfer. */
    method Turn(src: seq<int>, dst: array<int>, offset: nat) returns (chunk: nat)
      requires Running() && filled < frames && src != []
      requires dst != buf && dst != outbuf && offset + |src| <= dst.Length
      modifies this, buf, outbuf, dst
      ensures Running() && filled < frames && 0 < chunk <= |src| && input == old(input) + src[..chunk]
      ensures |output| == |old(output)| + chunk
      ensures old(output) <= output && dst[..] == Patched(old(dst[..]), offset, output[|old(output)|..])
    {
      hide KeepsLength, Processed, Flat, Patched, Plugin.Running;
      chunk := |src|;
      if filled + chunk > frames {
        chunk := frames - filled;
      }
      TakeChunk(src[..chunk], dst, offset);
      if filled == frames {
        ProcessBlock();
      }
    }

    /** spx_transfer: chunks that never run past a block.  What comes out next depends only on what went
        in, not on how it was divided into transfers. */
    method Transfer(src: seq<int>, dst: array<int>, offset: nat)
      requires Valid() && dst != buf && dst != outbuf && offset + |src| <= dst.Length
      modifies this, buf, outbuf, dst
      ensures Valid() && input == old(input) + src && |output| == |input|
      ensures old(output) <= output && dst[..] == Patched(old(dst[..]), offset, output[|old(output)|..])
    {
      hide KeepsLength, Processed, Flat, Patched;
      if stage.pre.None? && stage.echo.None? {
        CopyTo(dst, offset, src);
        input, output := input + src, output + src;
      } else {
        ThroughDsp(src, dst, offset);
      }
    }

    /** The loop of spx_transfer. */
    method ThroughDsp(src: seq<int>, dst: array<int>, offset: nat)
      requires Running() && filled < frames
      requires dst != buf && dst != outbuf && offset + |src| <= dst.Length
      modifies this, buf, outbuf, dst
      ensures Running() && filled < frames && input == old(input) + src && |output| == |old(output)| + |src|
      ensures old(output) <= output && dst[..] == Patched(old(dst[..]), offset, output[|old(output)|..])
    {
      hide KeepsLength, Processed, Flat, Patched, Plugin.Running;
      var done: nat := 0;
      ghost var was, before := dst[..], output;
      PatchedParts(was, offset, []);
      assert output[|before|..] == [] && src[..0] == [];
      while done < |src|
        invariant done <= |src| && Running() && filled < frames
        invariant input == old(input) + src[..done]
        invariant before <= output && |output| == |before| + done
        invariant dst[..] == Patched(was, offset, output[|before|..])
      {
        ghost var out, taken := output, done;
        var chunk := Turn(src[done..], dst, offset + done);
        PatchTwice(was, offset, out[|before|..], output[|out|..]);
        JoinTails(before, out, output);
        Join(old(input), src[..taken], src[taken..][..chunk]);
        SplitSlice(src, taken, chunk);
        done := done + chunk;
      }
      assert src[..done] == src;
    }

    /** The samples given out are those of the reference, for whatever was taken in. */
    lemma OutputIsLatent()
      requires Valid()
      ensures output == Latent(dsp, initial, frames, input)
    {
      if !initial.Idle() {
        CutOfBlocks(blocks, buf[..filled], frames);
      }
    }
  }
}
