/** All channels in one flat memory, and the change of filter length for all of them in place. */
module ResamplerChannels {
  import opened Division
  import opened ResamplerStream
  import opened ResamplerResize
  import opened ResamplerMemory
  import opened ResamplerCalls

  /** Start of a channel's part of the sample memory. */
  function Slot(i: nat, alloc: nat): nat {
    MulNonneg(i, alloc);
    i * alloc
  }

  lemma SlotOrder(i: nat, j: nat, alloc: nat)
    requires i < j
    ensures Slot(i, alloc) + alloc <= Slot(j, alloc)
  {
    MulMonotone(i + 1, j, alloc);
    Distribute(i, 1, alloc);
  }

  lemma SlotGrows(i: nat, alloc: nat, alloc': nat)
    requires alloc <= alloc'
    ensures Slot(i, alloc) <= Slot(i, alloc')
  {
    MulMonotone(alloc, alloc', i);
    assert alloc * i == i * alloc && alloc' * i == i * alloc';
  }

  /** The memory has room for what every channel stores, and for what a later growth of the filter
      makes of it: the queue counts twice. */
  ghost predicate Fits(mem: seq<real>, alloc: nat, n: nat, magic: seq<nat>, last: seq<nat>, frac: seq<nat>) {
    && |last| == |frac| == |magic| && |mem| == Slot(|magic|, alloc)
    && 1 <= n && n % 2 == 0
    && n <= alloc + 1
    && forall i :: 0 <= i < |magic| ==> n + 2 * magic[i] <= alloc + 1
  }

  ghost function ChannelOf(mem: seq<real>, alloc: nat, n: nat, magic: seq<nat>, last: seq<nat>, frac: seq<nat>,
                           i: nat): Channel
    requires Fits(mem, alloc, n, magic, last, frac) && i < |magic|
  {
    SlotOrder(i, |magic|, alloc);
    ChannelAt(mem, Slot(i, alloc), n, magic[i], last[i], frac[i])
  }

  ghost function ChannelsOf(mem: seq<real>, alloc: nat, n: nat, magic: seq<nat>, last: seq<nat>, frac: seq<nat>)
    : (r: seq<Channel>)
    requires Fits(mem, alloc, n, magic, last, frac)
    ensures |r| == |magic|
    ensures forall i :: 0 <= i < |r| ==> r[i] == ChannelOf(mem, alloc, n, magic, last, frac, i)
    ensures forall i :: 0 <= i < |r| ==> |r[i].hist| == n - 1
  {
    seq(|magic|, i requires 0 <= i < |magic| => ChannelOf(mem, alloc, n, magic, last, frac, i))
  }

  /** A channel's slot is disjoint from every other. */
  lemma OtherSlot(before: seq<real>, after: seq<real>, ch: nat, i: nat, alloc: nat, n: nat, magic: nat, last: nat,
                  frac: nat)
    requires SameOutside(before, after, Slot(ch, alloc), Slot(ch, alloc) + alloc)
    requires 1 <= n && n - 1 + magic <= alloc && Slot(i, alloc) + alloc <= |before| && i != ch
    ensures ChannelAt(before, Slot(i, alloc), n, magic, last, frac)
         == ChannelAt(after, Slot(i, alloc), n, magic, last, frac)
  {
    if i < ch { SlotOrder(i, ch, alloc); } else { SlotOrder(ch, i, alloc); }
    ChannelSame(before, after, Slot(ch, alloc), Slot(ch, alloc) + alloc, Slot(i, alloc), n, magic, last, frac);
  }

  /** Working inside one channel's slot changes that channel only. */
  lemma OneChannelChanged(before: seq<real>, after: seq<real>, alloc: nat, n: nat,
                          magic: seq<nat>, last: seq<nat>, frac: seq<nat>, ch: nat, magic': nat, last': nat, frac': nat)
    requires Fits(before, alloc, n, magic, last, frac) && ch < |magic| && n + 2 * magic' <= alloc + 1
    requires SameOutside(before, after, Slot(ch, alloc), Slot(ch, alloc) + alloc)
    ensures Slot(ch, alloc) + alloc <= |after|
    ensures Fits(after, alloc, n, magic[ch := magic'], last[ch := last'], frac[ch := frac'])
    ensures ChannelsOf(after, alloc, n, magic[ch := magic'], last[ch := last'], frac[ch := frac'])
         == ChannelsOf(before, alloc, n, magic, last, frac)
              [ch := ChannelAt(after, Slot(ch, alloc), n, magic', last', frac')]
  {
    SlotOrder(ch, |magic|, alloc);
    var l := ChannelsOf(after, alloc, n, magic[ch := magic'], last[ch := last'], frac[ch := frac']);
    var r := ChannelsOf(before, alloc, n, magic, last, frac)
               [ch := ChannelAt(after, Slot(ch, alloc), n, magic', last', frac')];
    forall i | 0 <= i < |magic| ensures l[i] == r[i] {
      SlotOrder(i, |magic|, alloc);
      if i != ch {
        OtherSlot(before, after, ch, i, alloc, n, magic[i], last[i], frac[i]);
      }
    }
  }

  // ---------------------------------------------------------------- growing

  /** Channels from i on have been given their new place and length; those before are where they were. */
  ghost predicate GrownFrom(mem0: seq<real>, mem: seq<real>, i: nat, alloc: nat, alloc': nat, n': nat,
                            olds: seq<Channel>, n: nat, magic: seq<nat>, last: seq<nat>)
    requires 1 <= n && 1 <= n' && n % 2 == n' % 2 && forall j :: 0 <= j < |olds| ==> |olds[j].hist| == n - 1
  {
    && |mem| == |mem0| && |magic| == |last| == |olds| && i <= |olds| && Slot(i, alloc) <= |mem|
    && (forall p :: 0 <= p < Slot(i, alloc) ==> mem[p] == mem0[p])
    && (forall j :: 0 <= j < i ==> magic[j] == |olds[j].magic| && last[j] == olds[j].last)
    && (forall j :: i <= j < |olds| ==> ResizedAt(mem, j, alloc', n', olds, n, magic, last))
  }

  ghost predicate ResizedAt(mem: seq<real>, j: nat, alloc': nat, n': nat,
                          olds: seq<Channel>, n: nat, magic: seq<nat>, last: seq<nat>)
    requires 1 <= n && 1 <= n' && n % 2 == n' % 2 && j < |olds| && |olds[j].hist| == n - 1
  {
    && j < |magic| && j < |last| && n' - 1 + magic[j] <= alloc' && Slot(j, alloc') + alloc' <= |mem|
    && n' + 2 * magic[j] <= alloc' + 1
    && ChannelAt(mem, Slot(j, alloc'), n', magic[j], last[j], olds[j].frac) == Resize(olds[j], n, n')
  }

  /** After one channel has grown, everything already in place stays, and nothing unread was overwritten. */
  lemma GrowStep(mem0: seq<real>, before: seq<real>, after: seq<real>, i: nat, alloc: nat, alloc': nat, n: nat, n': nat,
                 olds: seq<Channel>, magic: seq<nat>, last: seq<nat>, magic': nat, last': nat, room: nat)
    requires 1 <= n && 1 <= n' && n % 2 == n' % 2 && forall j :: 0 <= j < |olds| ==> |olds[j].hist| == n - 1
    requires i < |olds| && alloc <= alloc' && room <= alloc' && Slot(|olds|, alloc') <= |mem0|
    requires GrownFrom(mem0, before, i + 1, alloc, alloc', n', olds, n, magic, last)
    requires SameOutside(before, after, Slot(i, alloc'), Slot(i, alloc') + room)
    requires ResizedAt(after, i, alloc', n', olds, n, magic[i := magic'], last[i := last'])
    ensures GrownFrom(mem0, after, i, alloc, alloc', n', olds, n, magic[i := magic'], last[i := last'])
  {
    SlotGrows(i, alloc, alloc');
    SlotOrder(i, i + 1, alloc);
    var magic1, last1 := magic[i := magic'], last[i := last'];
    forall j | i + 1 <= j < |olds|
      ensures ResizedAt(after, j, alloc', n', olds, n, magic1, last1)
    {
      SlotOrder(i, j, alloc');
      assert ResizedAt(before, j, alloc', n', olds, n, magic, last);
      ChannelSame(before, after, Slot(i, alloc'), Slot(i, alloc') + room, Slot(j, alloc'), n', magic[j], last[j],
                  olds[j].frac);
    }
  }

  function ResizeAll(chans: seq<Channel>, n: nat, n': nat): (r: seq<Channel>)
    requires 1 <= n && 1 <= n' && n % 2 == n' % 2 && forall j :: 0 <= j < |chans| ==> |chans[j].hist| == n - 1
    ensures |r| == |chans|
    ensures forall j :: 0 <= j < |chans| ==> r[j] == Resize(chans[j], n, n')
  {
    seq(|chans|, j requires 0 <= j < |chans| => Resize(chans[j], n, n'))
  }

  lemma AllResized(mem: seq<real>, alloc': nat, n: nat, n': nat, olds: seq<Channel>,
                   magic: seq<nat>, last: seq<nat>, frac: seq<nat>)
    requires 1 <= n && 1 <= n' <= alloc' + 1 && n % 2 == n' % 2 == 0
    requires forall j :: 0 <= j < |olds| ==> |olds[j].hist| == n - 1
    requires |olds| == |magic| == |last| == |frac| && |mem| == Slot(|olds|, alloc')
    requires forall j :: 0 <= j < |olds| ==>
               ResizedAt(mem, j, alloc', n', olds, n, magic, last) && frac[j] == olds[j].frac
    ensures Fits(mem, alloc', n', magic, last, frac)
    ensures ChannelsOf(mem, alloc', n', magic, last, frac) == ResizeAll(olds, n, n')
  {
    assert forall j :: 0 <= j < |magic| ==> n' + 2 * magic[j] <= alloc' + 1 by {
      forall j | 0 <= j < |magic| ensures n' + 2 * magic[j] <= alloc' + 1 {
        assert ResizedAt(mem, j, alloc', n', olds, n, magic, last);
      }
    }
    var l := ChannelsOf(mem, alloc', n', magic, last, frac);
    forall j | 0 <= j < |olds| ensures l[j] == ResizeAll(olds, n, n')[j] {
      assert ResizedAt(mem, j, alloc', n', olds, n, magic, last);
    }
  }

  /** What the loop body for channel i needs: its old contents, still unread, and room for the new. */
  lemma GrowReady(mem0: seq<real>, mem: seq<real>, i: nat, alloc: nat, alloc': nat, n: nat, n': nat,
                  magic0: seq<nat>, last0: seq<nat>, frac: seq<nat>, olds: seq<Channel>, magic: seq<nat>,
                      last: seq<nat>,
                  old0: seq<real>)
    requires Fits(old0, alloc, n, magic0, last0, frac) && olds == ChannelsOf(old0, alloc, n, magic0, last0, frac)
    requires 1 <= n < n' <= alloc' + 1 && n' % 2 == 0 && alloc <= alloc' && old0 <= mem0 && |mem0| == Slot(|olds|,
                                                                                                           alloc')
    requires i < |olds| && GrownFrom(mem0, mem, i + 1, alloc, alloc', n', olds, n, magic, last)
    ensures magic[i] == magic0[i] && last[i] == last0[i] && Slot(i, alloc) <= Slot(i, alloc')
    ensures Slot(i, alloc) + n - 1 + magic[i] <= |mem|
    ensures Stored(olds[i]) == mem[Slot(i, alloc)..Slot(i, alloc) + n - 1 + magic[i]]
    ensures GrowRoom(n, n', magic[i]) <= alloc' && Slot(i, alloc') + alloc' <= |mem|
  {
    SlotGrows(i, alloc, alloc');
    SlotOrder(i, |olds|, alloc);
    SlotOrder(i, i + 1, alloc);
    SlotOrder(i, |olds|, alloc');
    var at, count := Slot(i, alloc), n - 1 + magic[i];
    assert olds[i] == ChannelOf(old0, alloc, n, magic0, last0, frac, i);
    Join(old0, at, at + n - 1, at + count);
    assert mem[at..at + count] == old0[at..at + count];
  }

  lemma GrowDone(i: nat, mem: seq<real>, alloc': nat, n: nat, n': nat, olds: seq<Channel>,
                 magic: seq<nat>, last: seq<nat>, magic': nat, shift: nat)
    requires i < |olds| == |magic| == |last| && 1 <= n < n' <= alloc' + 1 && n % 2 == n' % 2 && |olds[i].hist| == n - 1
    requires n + 2 * |olds[i].magic| <= alloc' + 1 && Slot(i, alloc') + alloc' <= |mem|
    requires last[i] == olds[i].last
    requires var r := Resize(olds[i], n, n');
             && magic' == |r.magic| && shift == r.last - olds[i].last
             && Slot(i, alloc') + n' - 1 + magic' <= |mem|
             && mem[Slot(i, alloc')..Slot(i, alloc') + n' - 1 + magic'] == Stored(r)
    ensures ResizedAt(mem, i, alloc', n', olds, n, magic[i := magic'], last[i := last[i] + shift])
  {
    ResizeFits(olds[i], n, n', alloc');
    ChannelStored(mem, Slot(i, alloc'), n', magic', Resize(olds[i], n, n'));
  }

  /** The body of the loop over channels when the filter grows. */
  method GrowOne(mem: array<real>, i: nat, alloc: nat, alloc': nat, n: nat, n': nat,
                 magic: array<nat>, last: array<nat>, ghost frac: seq<nat>, ghost old0: seq<real>,
                 ghost mem0: seq<real>, ghost magic0: seq<nat>, ghost last0: seq<nat>, ghost olds: seq<Channel>)
    requires Fits(old0, alloc, n, magic0, last0, frac) && olds == ChannelsOf(old0, alloc, n, magic0, last0, frac)
    requires 1 <= n < n' <= alloc' + 1 && n' % 2 == 0 && alloc <= alloc' && magic != last
    requires old0 <= mem0 && |mem0| == Slot(|olds|, alloc')
    requires i < |olds| && GrownFrom(mem0, mem[..], i + 1, alloc, alloc', n', olds, n, magic[..], last[..])
    modifies mem, magic, last
    ensures GrownFrom(mem0, mem[..], i, alloc, alloc', n', olds, n, magic[..], last[..])
  {
    ghost var before, magic1, last1 := mem[..], magic[..], last[..];
    GrowReady(mem0, before, i, alloc, alloc', n, n', magic0, last0, frac, olds, magic1, last1, old0);
    var magic', shift := GrowChannel(mem, Slot(i, alloc), Slot(i, alloc'), n, n', magic[i], olds[i]);
    GrowDone(i, mem[..], alloc', n, n', olds, magic1, last1, magic', shift);
    GrowStep(mem0, before, mem[..], i, alloc, alloc', n, n', olds, magic1, last1, magic', last1[i] + shift,
             GrowRoom(n, n', magic1[i]));
    magic[i], last[i] := magic', last[i] + shift;
    assert magic[..] == magic1[i := magic'] && last[..] == last1[i := last1[i] + shift];
  }

  /** The loop over channels when the filter grows, from the last to the first, with the stride of the
      memory changing from alloc to alloc' on the way. */
  method GrowAll(mem: array<real>, nb: nat, alloc: nat, alloc': nat, n: nat, n': nat,
                 magic: array<nat>, last: array<nat>, ghost frac: seq<nat>, ghost old0: seq<real>)
    requires Fits(old0, alloc, n, magic[..], last[..], frac) && magic.Length == last.Length == nb && magic != last
    requires n < n' <= alloc' + 1 && n' % 2 == 0 && alloc <= alloc'
    requires mem.Length == Slot(nb, alloc') && old0 <= mem[..]
    modifies mem, magic, last
    ensures Fits(mem[..], alloc', n', magic[..], last[..], frac)
    ensures ChannelsOf(mem[..], alloc', n', magic[..], last[..], frac)
         == ResizeAll(ChannelsOf(old0, alloc, n, old(magic[..]), old(last[..]), frac), n, n')
  {
    ghost var magic0, last0, mem0 := magic[..], last[..], mem[..];
    ghost var olds := ChannelsOf(old0, alloc, n, magic0, last0, frac);
    SlotGrows(nb, alloc, alloc');
    var i := nb;
    while 0 < i
      invariant 0 <= i <= nb
      invariant GrownFrom(mem0, mem[..], i, alloc, alloc', n', olds, n, magic[..], last[..])
    {
      i := i - 1;
      GrowOne(mem, i, alloc, alloc', n, n', magic, last, frac, old0, mem0, magic0, last0, olds);
    }
    AllResized(mem[..], alloc', n, n', olds, magic[..], last[..], frac);
  }

  // ---------------------------------------------------------------- shrinking

  /** Channels before i have been given their new length; those from i on are as they were. */
  ghost predicate ShrunkUpTo(mem0: seq<real>, mem: seq<real>, i: nat, alloc: nat, n': nat,
                             olds: seq<Channel>, n: nat, magic: seq<nat>, last: seq<nat>)
    requires 1 <= n && 1 <= n' && n % 2 == n' % 2 && forall j :: 0 <= j < |olds| ==> |olds[j].hist| == n - 1
  {
    && |mem| == |mem0| && |magic| == |last| == |olds| && i <= |olds|
    && (forall p :: Slot(i, alloc) <= p < |mem| ==> mem[p] == mem0[p])
    && (forall j :: i <= j < |olds| ==> magic[j] == |olds[j].magic| && last[j] == olds[j].last)
    && (forall j :: 0 <= j < i ==> ResizedAt(mem, j, alloc, n', olds, n, magic, last))
  }

  lemma ShrinkStep(mem0: seq<real>, before: seq<real>, after: seq<real>, i: nat, alloc: nat, n: nat, n': nat,
                   olds: seq<Channel>, magic: seq<nat>, last: seq<nat>, magic': nat)
    requires 1 <= n && 1 <= n' && n % 2 == n' % 2 && forall j :: 0 <= j < |olds| ==> |olds[j].hist| == n - 1
    requires i < |olds| && Slot(|olds|, alloc) <= |mem0|
    requires ShrunkUpTo(mem0, before, i, alloc, n', olds, n, magic, last)
    requires SameOutside(before, after, Slot(i, alloc), Slot(i, alloc) + alloc)
    requires ResizedAt(after, i, alloc, n', olds, n, magic[i := magic'], last)
    ensures ShrunkUpTo(mem0, after, i + 1, alloc, n', olds, n, magic[i := magic'], last)
  {
    SlotOrder(i, i + 1, alloc);
    var magic1 := magic[i := magic'];
    forall j | 0 <= j < i
      ensures ResizedAt(after, j, alloc, n', olds, n, magic1, last)
    {
      SlotOrder(j, i, alloc);
      assert ResizedAt(before, j, alloc, n', olds, n, magic, last);
      ChannelSame(before, after, Slot(i, alloc), Slot(i, alloc) + alloc, Slot(j, alloc), n', magic[j], last[j],
                  olds[j].frac);
    }
  }

  lemma ShrinkReady(mem: seq<real>, i: nat, alloc: nat, n: nat, n': nat,
                    magic0: seq<nat>, last0: seq<nat>, frac: seq<nat>, olds: seq<Channel>, magic: seq<nat>,
                        last: seq<nat>,
                    mem0: seq<real>)
    requires Fits(mem0, alloc, n, magic0, last0, frac) && olds == ChannelsOf(mem0, alloc, n, magic0, last0, frac)
    requires 1 <= n' < n && n' % 2 == 0
    requires i < |olds| && ShrunkUpTo(mem0, mem, i, alloc, n', olds, n, magic, last)
    ensures magic[i] == magic0[i] && n - 1 + magic[i] <= alloc && Slot(i, alloc) + alloc <= |mem|
    ensures Stored(olds[i]) == mem[Slot(i, alloc)..Slot(i, alloc) + n - 1 + magic[i]]
  {
    SlotOrder(i, |olds|, alloc);
    var at, count := Slot(i, alloc), n - 1 + magic[i];
    assert olds[i] == ChannelOf(mem0, alloc, n, magic0, last0, frac, i);
    Join(mem0, at, at + n - 1, at + count);
    assert mem[at..at + count] == mem0[at..at + count];
  }

  lemma ShrinkDone(i: nat, mem: seq<real>, alloc: nat, n: nat, n': nat, olds: seq<Channel>,
                   magic: seq<nat>, last: seq<nat>, magic': nat)
    requires i < |olds| == |magic| == |last| && 1 <= n' < n <= alloc + 1 && n % 2 == n' % 2 && |olds[i].hist| == n - 1
    requires n + 2 * |olds[i].magic| <= alloc + 1 && Slot(i, alloc) + alloc <= |mem|
    requires last[i] == olds[i].last
    requires var r := Resize(olds[i], n, n');
             && magic' == |r.magic| && r.last == olds[i].last
             && Slot(i, alloc) + n' - 1 + magic' <= |mem|
             && mem[Slot(i, alloc)..Slot(i, alloc) + n' - 1 + magic'] == Stored(r)
    ensures ResizedAt(mem, i, alloc, n', olds, n, magic[i := magic'], last)
  {
    ResizeFits(olds[i], n, n', alloc);
    ChannelStored(mem, Slot(i, alloc), n', magic', Resize(olds[i], n, n'));
  }

  /** The body of the loop over channels when the filter shrinks. */
  method ShrinkOne(mem: array<real>, i: nat, alloc: nat, n: nat, n': nat,
                   magic: array<nat>, ghost last: seq<nat>, ghost frac: seq<nat>,
                   ghost mem0: seq<real>, ghost magic0: seq<nat>, ghost olds: seq<Channel>)
    requires Fits(mem0, alloc, n, magic0, last, frac) && olds == ChannelsOf(mem0, alloc, n, magic0, last, frac)
    requires 1 <= n' < n && n' % 2 == 0
    requires i < |olds| && ShrunkUpTo(mem0, mem[..], i, alloc, n', olds, n, magic[..], last)
    modifies mem, magic
    ensures ShrunkUpTo(mem0, mem[..], i + 1, alloc, n', olds, n, magic[..], last)
  {
    ghost var before, magic1 := mem[..], magic[..];
    ShrinkReady(before, i, alloc, n, n', magic0, last, frac, olds, magic1, last, mem0);
    var magic' := ShrinkChannel(mem, Slot(i, alloc), n, n', magic[i], olds[i]);
    SameWiden(before, mem[..], Slot(i, alloc), Slot(i, alloc) + n - 1 + magic1[i],
              Slot(i, alloc), Slot(i, alloc) + alloc);
    ShrinkDone(i, mem[..], alloc, n, n', olds, magic1, last, magic');
    ShrinkStep(mem0, before, mem[..], i, alloc, n, n', olds, magic1, last, magic');
    magic[i] := magic';
    assert magic[..] == magic1[i := magic'];
  }

  /** The loop over channels when the filter shrinks; the stride stays. */
  method ShrinkAll(mem: array<real>, nb: nat, alloc: nat, n: nat, n': nat,
                   magic: array<nat>, ghost last: seq<nat>, ghost frac: seq<nat>)
    requires Fits(mem[..], alloc, n, magic[..], last, frac) && magic.Length == nb
    requires 1 <= n' < n && n' % 2 == 0
    modifies mem, magic
    ensures Fits(mem[..], alloc, n', magic[..], last, frac)
    ensures ChannelsOf(mem[..], alloc, n', magic[..], last, frac)
         == ResizeAll(ChannelsOf(old(mem[..]), alloc, n, old(magic[..]), last, frac), n, n')
  {
    ghost var magic0, mem0 := magic[..], mem[..];
    ghost var olds := ChannelsOf(mem0, alloc, n, magic0, last, frac);
    var i := 0;
    while i < nb
      invariant 0 <= i <= nb
      invariant ShrunkUpTo(mem0, mem[..], i, alloc, n', olds, n, magic[..], last)
    {
      ShrinkOne(mem, i, alloc, n, n', magic, last, frac, mem0, magic0, olds);
      i := i + 1;
    }
    AllResized(mem[..], alloc, n, n', olds, magic[..], last, frac);
  }

  /** A channel read back from the flat arrays. */
  lemma ReadChannel(mem: seq<real>, alloc: nat, n: nat, magic: seq<nat>, last: seq<nat>, frac: seq<nat>, i: nat)
    requires Fits(mem, alloc, n, magic, last, frac) && i < |magic|
    ensures 1 <= n && Slot(i, alloc) + alloc <= |mem| && n + 2 * magic[i] <= alloc + 1
    ensures ChannelsOf(mem, alloc, n, magic, last, frac)[i]
         == ChannelAt(mem, Slot(i, alloc), n, magic[i], last[i], frac[i])
  {
    SlotOrder(i, |magic|, alloc);
    assert ChannelsOf(mem, alloc, n, magic, last, frac)[i] == ChannelOf(mem, alloc, n, magic, last, frac, i);
  }

  // ---------------------------------------------------------------- the memory part of update_filter

  /** A channel that has not started: silence at its starting position. */
  function SilentAll(chans: seq<Channel>, n: nat): (r: seq<Channel>)
    requires 1 <= n
    ensures |r| == |chans|
    ensures forall i :: 0 <= i < |r| ==> r[i] == Channel(Zeros(n - 1), [], chans[i].last, chans[i].frac)
  {
    seq(|chans|, i requires 0 <= i < |chans| => Channel(Zeros(n - 1), [], chans[i].last, chans[i].frac))
  }

  /** What update_filter does to the channels. */
  function Updated(chans: seq<Channel>, n: nat, n': nat, started: bool): (r: seq<Channel>)
    requires 1 <= n && 1 <= n' && n % 2 == n' % 2 && forall i :: 0 <= i < |chans| ==> |chans[i].hist| == n - 1
    ensures |r| == |chans|
  {
    if started then ResizeAll(chans, n, n') else SilentAll(chans, n')
  }

  lemma Silent(mem: seq<real>, n: nat, magic: seq<nat>, last: seq<nat>, frac: seq<nat>, olds: seq<Channel>)
    requires 1 <= n && Fits(mem, n - 1, n, magic, last, frac) && |olds| == |magic|
    requires forall p :: 0 <= p < |mem| ==> mem[p] == 0.0
    requires forall i :: 0 <= i < |magic| ==> magic[i] == 0 && last[i] == olds[i].last && frac[i] == olds[i].frac
    ensures ChannelsOf(mem, n - 1, n, magic, last, frac) == SilentAll(olds, n)
  {
    var l, r := ChannelsOf(mem, n - 1, n, magic, last, frac), SilentAll(olds, n);
    forall i | 0 <= i < |olds| ensures l[i] == r[i] {
      ReadChannel(mem, n - 1, n, magic, last, frac, i);
      var at := Slot(i, n - 1);
      assert mem[at..at + n - 1] == Zeros(n - 1);
    }
  }

  lemma SilentAtStart(mem: seq<real>, n: nat, zero: seq<nat>)
    requires 1 <= n && n % 2 == 0 && |mem| == Slot(|zero|, n - 1)
    requires (forall p :: 0 <= p < |mem| ==> mem[p] == 0.0) && forall i :: 0 <= i < |zero| ==> zero[i] == 0
    ensures Fits(mem, n - 1, n, zero, zero, zero)
    ensures var chans := ChannelsOf(mem, n - 1, n, zero, zero, zero);
            forall i :: 0 <= i < |chans| ==> chans[i] == Channel(Zeros(n - 1), [], 0, 0)
  {
    Silent(mem, n, zero, zero, zero, ChannelsOf(mem, n - 1, n, zero, zero, zero));
  }

  method SilentMemory(nb: nat, alloc: nat) returns (mem: array<real>)
    ensures fresh(mem) && mem.Length == Slot(nb, alloc)
    ensures forall p :: 0 <= p < mem.Length ==> mem[..][p] == 0.0
  {
    mem := new real[Slot(nb, alloc)];
    Clear(mem, 0, mem.Length);
    assert mem[..] == mem[0..mem.Length] == Zeros(mem.Length);
  }

  lemma CountersOf(mem: seq<real>, alloc: nat, n: nat, magic: seq<nat>, last: seq<nat>, frac: seq<nat>, i: nat)
    requires Fits(mem, alloc, n, magic, last, frac) && i < |magic|
    ensures var c := ChannelsOf(mem, alloc, n, magic, last, frac)[i];
            |c.magic| == magic[i] && c.last == last[i] && c.frac == frac[i]
  {
    ReadChannel(mem, alloc, n, magic, last, frac, i);
  }

  /** Gives every channel its new filter length: fresh silence if nothing was processed yet, otherwise the
      in-place moves, in a larger memory when the new filter needs one. */
  method ReshapeMemory(mem0: array<real>, nb: nat, alloc0: nat, n: nat, n': nat, started: bool,
                       magic: array<nat>, last: array<nat>, ghost frac: seq<nat>)
    returns (mem: array<real>, alloc: nat)
    requires Fits(mem0[..], alloc0, n, magic[..], last[..], frac)
    requires magic.Length == last.Length == nb && magic != last
    requires 1 <= n' && n' % 2 == 0
    requires !started ==> forall i :: 0 <= i < nb ==> magic[i] == 0
    modifies mem0, magic, last
    ensures mem == mem0 || fresh(mem)
    ensures Fits(mem[..], alloc, n', magic[..], last[..], frac)
    ensures ChannelsOf(mem[..], alloc, n', magic[..], last[..], frac)
         == Updated(ChannelsOf(old(mem0[..]), alloc0, n, old(magic[..]), old(last[..]), frac), n, n', started)
    ensures !started ==> forall i :: 0 <= i < nb ==> magic[i] == 0
  {
    hide ChannelsOf, Resize;
    mem, alloc := mem0, alloc0;
    if !started {
      alloc := n' - 1;
      mem := SilentMemory(nb, alloc);
      forall i | 0 <= i < nb { CountersOf(mem0[..], alloc0, n, magic[..], last[..], frac, i); }
      Silent(mem[..], n', magic[..], last[..], frac, ChannelsOf(mem0[..], alloc0, n, magic[..], last[..], frac));
    } else if n' > n {
      if n' - 1 > alloc {
        SlotGrows(nb, alloc0, n' - 1);
        alloc := n' - 1;
        mem := Reallocate(mem0, Slot(nb, alloc));
      }
      GrowAll(mem, nb, alloc0, alloc, n, n', magic, last, frac, mem0[..]);
    } else if n' < n {
      ShrinkAll(mem, nb, alloc, n, n', magic, last[..], frac);
    } else {
      SameLength(ChannelsOf(mem0[..], alloc0, n, magic[..], last[..], frac), n);
    }
  }

  lemma SameLength(chans: seq<Channel>, n: nat)
    requires 1 <= n && forall i :: 0 <= i < |chans| ==> |chans[i].hist| == n - 1
    ensures ResizeAll(chans, n, n) == chans
  {}
}
