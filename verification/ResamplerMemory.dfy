/** In-place moves in the flat sample memory: the loops of update_filter and of the history update. */
module ResamplerMemory {
  import opened Division
  import opened ResamplerStream
  import opened ResamplerResize

  /** Nothing outside lo..hi differs. */
  ghost predicate SameOutside(before: seq<real>, after: seq<real>, lo: int, hi: int) {
    |before| == |after| && forall p :: 0 <= p < |before| && !(lo <= p < hi) ==> after[p] == before[p]
  }

  lemma SameSlice(before: seq<real>, after: seq<real>, lo: int, hi: int, i: nat, j: nat)
    requires SameOutside(before, after, lo, hi) && i <= j <= |before| && (j <= lo || hi <= i)
    ensures before[i..j] == after[i..j]
  {}

  /** A forward copy loop towards lower addresses; source and target may overlap. */
  method MoveDown(mem: array<real>, dst: nat, src: nat, count: nat)
    requires dst <= src && src + count <= mem.Length
    modifies mem
    ensures mem[dst..dst + count] == old(mem[src..src + count])
    ensures SameOutside(old(mem[..]), mem[..], dst, dst + count)
  {
    for j := 0 to count
      invariant mem[dst..dst + j] == old(mem[src..src + j])
      invariant SameOutside(old(mem[..]), mem[..], dst, dst + j)
    {
      assert mem[..][src + j] == old(mem[..])[src + j];
      mem[dst + j] := mem[src + j];
    }
  }

  /** A backward copy loop towards higher addresses; source and target may overlap. */
  method MoveUp(mem: array<real>, dst: nat, src: nat, count: nat)
    requires src <= dst && dst + count <= mem.Length
    modifies mem
    ensures mem[dst..dst + count] == old(mem[src..src + count])
    ensures SameOutside(old(mem[..]), mem[..], dst, dst + count)
  {
    var j := count;
    while 0 < j
      invariant 0 <= j <= count
      invariant mem[dst + j..dst + count] == old(mem[src + j..src + count])
      invariant SameOutside(old(mem[..]), mem[..], dst + j, dst + count)
    {
      j := j - 1;
      assert mem[..][src + j] == old(mem[..])[src + j];
      mem[dst + j] := mem[src + j];
    }
  }

  method Clear(mem: array<real>, dst: nat, count: nat)
    requires dst + count <= mem.Length
    modifies mem
    ensures mem[dst..dst + count] == Zeros(count)
    ensures SameOutside(old(mem[..]), mem[..], dst, dst + count)
  {
    for j := 0 to count
      invariant mem[dst..dst + j] == Zeros(j)
      invariant SameOutside(old(mem[..]), mem[..], dst, dst + j)
    {
      mem[dst + j] := 0.0;
    }
  }

  /** Reallocation keeps the common prefix. */
  method Reallocate(mem: array<real>, length: nat) returns (r: array<real>)
    ensures fresh(r) && r.Length == length
    ensures var kept := Min(length, mem.Length); r[..kept] == mem[..kept]
  {
    r := new real[length];
    var kept := Min(length, mem.Length);
    for j := 0 to kept
      invariant r[..j] == mem[..j]
    {
      r[j] := mem[j];
    }
  }

  /** A copy loop from another buffer, or from further up in the same one. */
  method CopyIn(mem: array<real>, dst: nat, input: array<real>, src: nat, count: nat)
    requires dst + count <= mem.Length && src + count <= input.Length
    requires input != mem || dst + count <= src
    modifies mem
    ensures mem[dst..dst + count] == old(input[src..src + count])
    ensures SameOutside(old(mem[..]), mem[..], dst, dst + count)
  {
    for j := 0 to count
      invariant mem[dst..dst + j] == old(input[src..src + j])
      invariant SameOutside(old(mem[..]), mem[..], dst, dst + j)
    {
      assert input == mem ==> mem[..][src + j] == old(mem[..])[src + j];
      mem[dst + j] := input[src + j];
    }
  }

  /** The history update at the end of a call: shift out the oldest used samples, then append input.
      The input may be the part of the memory that follows the history. */
  method PushHistory(mem: array<real>, base: nat, n: nat, input: array<real>, inOff: nat, inLen: nat, used: nat)
    requires 1 <= n && base + n - 1 <= mem.Length && inOff + inLen <= input.Length && used <= inLen
    requires input != mem || base + n - 1 <= inOff
    modifies mem
    ensures mem[base..base + n - 1]
         == old((mem[base..base + n - 1] + input[inOff..inOff + inLen])[used..used + n - 1])
    ensures SameOutside(old(mem[..]), mem[..], base, base + n - 1)
  {
    hide SameOutside;
    ghost var hist, fed := mem[base..base + n - 1], input[inOff..inOff + inLen];
    if used < n - 1 {
      KeepSome(mem, base, n, input, inOff, inLen, used);
      ShortSlice(hist, fed, used);
    } else {
      LongSlice(hist, fed, used);
      SubSlice(input[..], inOff, inOff + inLen, used - (n - 1), used);
      assert fed[used - (n - 1)..used] == input[inOff + used - (n - 1)..inOff + used];
      CopyIn(mem, base, input, inOff + used - (n - 1), n - 1);
    }
  }

  method KeepSome(mem: array<real>, base: nat, n: nat, input: array<real>, inOff: nat, inLen: nat, used: nat)
    requires used < n - 1 && base + n - 1 <= mem.Length && inOff + inLen <= input.Length && used <= inLen
    requires input != mem || base + n - 1 <= inOff
    modifies mem
    ensures mem[base..base + n - 1]
         == old(mem[base..base + n - 1])[used..] + old(input[inOff..inOff + inLen])[..used]
    ensures SameOutside(old(mem[..]), mem[..], base, base + n - 1)
  {
    hide SameOutside;
    var kept := n - 1 - used;
    ghost var before, fed := mem[..], input[inOff..inOff + used];
    SubSlice(input[..], inOff, inOff + inLen, 0, used);
    assert input[inOff..inOff + inLen][..used] == fed;
    MoveDown(mem, base, base + used, kept);
    ghost var between := mem[..];
    if input == mem {
      SameSlice(before, between, base, base + kept, inOff, inOff + used);
    }
    assert input[inOff..inOff + used] == fed;
    CopyIn(mem, base + kept, input, inOff, used);
    KeptSlices(before, between, mem[..], base, n, used);
  }

  lemma KeptSlices(before: seq<real>, between: seq<real>, after: seq<real>, base: nat, n: nat, used: nat)
    requires used < n - 1 && base + n - 1 <= |before|
    requires SameOutside(before, between, base, base + n - 1 - used)
    requires between[base..base + n - 1 - used] == before[base + used..base + n - 1]
    requires SameOutside(between, after, base + n - 1 - used, base + n - 1)
    ensures after[base..base + n - 1]
         == before[base..base + n - 1][used..] + after[base + n - 1 - used..base + n - 1]
    ensures SameOutside(before, after, base, base + n - 1)
  {
    var mid := base + n - 1 - used;
    SameChain(before, between, after, base, mid, base + n - 1);
    SameSlice(between, after, mid, base + n - 1, base, mid);
    SubSlice(before, base, base + n - 1, used, n - 1);
    assert before[base..base + n - 1][used..] == before[base..base + n - 1][used..n - 1];
    Join(after, base, mid, base + n - 1);
  }

  lemma SameNested(a: seq<real>, b: seq<real>, c: seq<real>, lo: int, hi: int, mid: int)
    requires mid <= hi && SameOutside(a, b, lo, hi) && SameOutside(b, c, lo, mid)
    ensures SameOutside(a, c, lo, hi)
  {}

  lemma SameChain(a: seq<real>, b: seq<real>, c: seq<real>, lo: int, mid: int, hi: int)
    requires lo <= mid <= hi && SameOutside(a, b, lo, mid) && SameOutside(b, c, mid, hi)
    ensures SameOutside(a, c, lo, hi)
  {}

  lemma Join(s: seq<real>, i: nat, j: nat, k: nat)
    requires i <= j <= k <= |s|
    ensures s[i..k] == s[i..j] + s[j..k]
  {}

  lemma SubSlice(s: seq<real>, i: nat, j: nat, a: nat, b: nat)
    requires i <= j <= |s| && a <= b <= j - i
    ensures s[i..j][a..b] == s[i + a..i + b]
  {
    var t, l, r := s[i..j], s[i..j][a..b], s[i + a..i + b];
    forall x | 0 <= x < b - a ensures l[x] == r[x] {
      assert l[x] == t[a + x] == s[i + a + x];
    }
  }

  lemma ShortSlice(hist: seq<real>, input: seq<real>, used: nat)
    requires used <= |hist| && used <= |input|
    ensures (hist + input)[used..used + |hist|] == hist[used..] + input[..used]
  {}

  lemma LongSlice(hist: seq<real>, input: seq<real>, used: nat)
    requires |hist| <= used <= |input|
    ensures (hist + input)[used..used + |hist|] == input[used - |hist|..used]
  {}

  // ---------------------------------------------------------------- change of filter length

  lemma SameWiden(a: seq<real>, b: seq<real>, lo: int, hi: int, lo': int, hi': int)
    requires SameOutside(a, b, lo, hi) && lo' <= lo && hi <= hi'
    ensures SameOutside(a, b, lo', hi')
  {}

  /** Opens a gap of zeros below what is at from, moving it up to to on the way. */
  method MoveUpAndClear(mem: array<real>, from: nat, to: nat, count: nat, gap: nat)
    requires from <= to && to + gap + count <= mem.Length
    modifies mem
    ensures mem[to..to + gap + count] == Zeros(gap) + old(mem[from..from + count])
    ensures SameOutside(old(mem[..]), mem[..], to, to + gap + count)
  {
    ghost var before := mem[..];
    MoveUp(mem, to + gap, from, count);
    ghost var between := mem[..];
    Clear(mem, to, gap);
    GapSlices(before, between, mem[..], to, gap, count);
  }

  lemma GapSlices(before: seq<real>, between: seq<real>, after: seq<real>, to: nat, gap: nat, count: nat)
    requires to + gap + count <= |before|
    requires SameOutside(before, between, to + gap, to + gap + count) && SameOutside(between, after, to, to + gap)
    ensures after[to..to + gap + count] == after[to..to + gap] + between[to + gap..to + gap + count]
    ensures SameOutside(before, after, to, to + gap + count)
  {
    SameSlice(between, after, to, to + gap, to + gap, to + gap + count);
    Join(after, to, to + gap, to + gap + count);
  }

  /** Drops the first samples of what is at at. */
  method MoveDownBy(mem: array<real>, at: nat, count: nat, drop: nat)
    requires drop <= count && at + count <= mem.Length
    modifies mem
    ensures mem[at..at + count - drop] == old(mem[at..at + count])[drop..]
    ensures SameOutside(old(mem[..]), mem[..], at, at + count)
  {
    SubSlice(mem[..], at, at + count, drop, count);
    assert mem[at..at + count][drop..] == mem[at..at + count][drop..count];
    MoveDown(mem, at, at + drop, count - drop);
  }

  /** Everything a channel stores, in order. */
  function Stored(c: Channel): seq<real> {
    c.hist + c.magic
  }

  /** Room, in samples, that growing a channel needs at its new place. */
  function GrowRoom(n: nat, n': nat, magic: nat): nat
    requires 1 <= n && 1 <= n'
  {
    if n' > n + 2 * magic then n' - 1 else n + 2 * magic - 1
  }

  /** The loop body for one channel when the filter grows: first the queued samples are taken back into
      the memory, then either the whole is moved up or part of it becomes queue again. */
  method GrowChannel(mem: array<real>, from: nat, to: nat, n: nat, n': nat, magic: nat, ghost c: Channel)
    returns (magic': nat, shift: nat)
    requires from <= to && 1 <= n < n' && n % 2 == n' % 2 && to + GrowRoom(n, n', magic) <= mem.Length
    requires |c.hist| == n - 1 && |c.magic| == magic
    requires mem[from..from + n - 1 + magic] == Stored(c)
    modifies mem
    ensures var r := Resize(c, n, n');
            && magic' == |r.magic| && shift == r.last - c.last
            && n' - 1 + magic' <= GrowRoom(n, n', magic)
            && mem[to..to + n' - 1 + magic'] == Stored(r)
    ensures SameOutside(old(mem[..]), mem[..], to, to + GrowRoom(n, n', magic))
  {
    hide Resize, Stored, Zeros;
    ghost var before := mem[..];
    MoveUpAndClear(mem, from, to, n - 1 + magic, magic);
    ghost var between := mem[..];
    if n' > n + 2 * magic {
      magic', shift := GrowBeyond(mem, to, n, n', magic, c);
    } else {
      magic', shift := PutBack(mem, to, n, n', magic, c);
    }
    GrowFrame(before, between, mem[..], to, n, n', magic);
  }

  /** The new length exceeds everything stored: more zeros in front, nothing left queued. */
  method GrowBeyond(mem: array<real>, to: nat, n: nat, n': nat, magic: nat, ghost c: Channel)
    returns (magic': nat, shift: nat)
    requires 1 <= n < n' && n % 2 == n' % 2 && n' > n + 2 * magic && to + n' - 1 <= mem.Length
    requires |c.hist| == n - 1 && |c.magic| == magic
    requires mem[to..to + n + 2 * magic - 1] == Zeros(magic) + Stored(c)
    modifies mem
    ensures var r := Resize(c, n, n');
            && magic' == |r.magic| == 0 && shift == r.last - c.last && mem[to..to + n' - 1 + magic'] == Stored(r)
    ensures SameOutside(old(mem[..]), mem[..], to, to + n' - 1)
  {
    hide Resize, Stored, Zeros;
    var stretched := n + 2 * magic;
    MoveUpAndClear(mem, to, to, stretched - 1, n' - stretched);
    magic', shift := 0, (n' - stretched) / 2;
    GrowPast(c, n, n');
  }

  /** Part of what is stored stays queued. */
  method PutBack(mem: array<real>, to: nat, n: nat, n': nat, magic: nat, ghost c: Channel)
    returns (magic': nat, shift: nat)
    requires 1 <= n < n' && n % 2 == n' % 2 && n' <= n + 2 * magic && to + n + 2 * magic - 1 <= mem.Length
    requires |c.hist| == n - 1 && |c.magic| == magic
    requires mem[to..to + n + 2 * magic - 1] == Zeros(magic) + Stored(c)
    modifies mem
    ensures var r := Resize(c, n, n');
            && magic' == |r.magic| && shift == r.last - c.last && n' - 1 + magic' <= n + 2 * magic - 1
            && mem[to..to + n' - 1 + magic'] == Stored(r)
    ensures SameOutside(old(mem[..]), mem[..], to, to + n + 2 * magic - 1)
  {
    hide Resize, Stored, Zeros;
    var stretched := n + 2 * magic;
    magic', shift := (stretched - n') / 2, 0;
    MoveDownBy(mem, to, stretched - 1, magic');
    assert stretched - 1 - magic' == n' - 1 + magic';
    GrowInto(c, n, n');
  }

  lemma GrowFrame(before: seq<real>, between: seq<real>, after: seq<real>, to: nat, n: nat, n': nat, magic: nat)
    requires 1 <= n && 1 <= n'
    requires SameOutside(before, between, to, to + n + 2 * magic - 1)
    requires SameOutside(between, after, to, to + GrowRoom(n, n', magic))
    ensures SameOutside(before, after, to, to + GrowRoom(n, n', magic))
  {}

  lemma GrowPast(c: Channel, n: nat, n': nat)
    requires 1 <= n < n' && n % 2 == n' % 2 && |c.hist| == n - 1 && n' > n + 2 * |c.magic|
    ensures var r, z := Resize(c, n, n'), n' - (n + 2 * |c.magic|);
            && r.magic == [] && r.last == c.last + z / 2
            && Stored(r) == Zeros(z) + (Zeros(|c.magic|) + Stored(c))
  {
    assert Zeros(|c.magic|) + c.hist + c.magic == Zeros(|c.magic|) + Stored(c);
  }

  lemma GrowInto(c: Channel, n: nat, n': nat)
    requires 1 <= n < n' && n % 2 == n' % 2 && |c.hist| == n - 1 && n' <= n + 2 * |c.magic|
    ensures var r, back := Resize(c, n, n'), (n + 2 * |c.magic| - n') / 2;
            var block := Zeros(|c.magic|) + Stored(c);
            && |r.magic| == back && r.last == c.last
            && Stored(r) == block[back..n + 2 * |c.magic| - 1] == block[back..]
  {
    var back, block := (n + 2 * |c.magic| - n') / 2, Zeros(|c.magic|) + Stored(c);
    assert Zeros(|c.magic|) + c.hist + c.magic == block;
    SplitDrop(block, back, back + n' - 1);
    assert block[back..] == block[back..n + 2 * |c.magic| - 1];
  }

  /** The loop body for one channel when the filter shrinks. */
  method ShrinkChannel(mem: array<real>, at: nat, n: nat, n': nat, magic: nat, ghost c: Channel)
    returns (magic': nat)
    requires 1 <= n' < n && n % 2 == n' % 2 && at + n - 1 + magic <= mem.Length
    requires |c.hist| == n - 1 && |c.magic| == magic
    requires mem[at..at + n - 1 + magic] == Stored(c)
    modifies mem
    ensures var r := Resize(c, n, n');
            && magic' == |r.magic| && r.last == c.last
            && n' - 1 + magic' <= n - 1 + magic
            && mem[at..at + n' - 1 + magic'] == Stored(r)
    ensures SameOutside(old(mem[..]), mem[..], at, at + n - 1 + magic)
  {
    hide Resize, Stored, Zeros;
    ghost var before := mem[..];
    var extra := (n - n') / 2;
    magic' := extra + magic;
    SubSlice(before, at, at + n - 1 + magic, extra, n - 1 + magic);
    MoveDown(mem, at, at + extra, n' - 1 + magic');
    SameWiden(before, mem[..], at, at + n' - 1 + magic', at, at + n - 1 + magic);
    ShrinkBy(c, n, n');
  }

  lemma ShrinkBy(c: Channel, n: nat, n': nat)
    requires 1 <= n' < n && n % 2 == n' % 2 && |c.hist| == n - 1
    ensures var r, extra := Resize(c, n, n'), (n - n') / 2;
            && |r.magic| == extra + |c.magic| && r.last == c.last
            && Stored(r) == Stored(c)[extra..n - 1 + |c.magic|]
  {
    var extra, stored := (n - n') / 2, Stored(c);
    SplitDrop(stored, extra, extra + n' - 1);
    assert stored[extra..] == stored[extra..n - 1 + |c.magic|];
  }
}
