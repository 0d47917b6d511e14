/** Writing a stretch of samples into a fixed-size buffer. */
module Buffers {

  /** A buffer with data put in at a place. */
  function Patched<T>(s: seq<T>, at: nat, data: seq<T>): (r: seq<T>)
    requires at + |data| <= |s|
    ensures |r| == |s|
  {
    s[..at] + data + s[at + |data|..]
  }

  lemma PatchNext<T>(s: seq<T>, at: nat, data: seq<T>, i: nat)
    requires at + |data| <= |s| && i < |data|
    ensures Patched(s, at, data[..i])[at + i := data[i]] == Patched(s, at, data[..i + 1])
  {}

  lemma PatchAppend<T>(s: seq<T>, at: nat, data: seq<T>, x: T)
    requires at + |data| < |s|
    ensures Patched(s, at, data)[at + |data| := x] == Patched(s, at, data + [x])
  {}

  lemma PatchTwice<T>(s: seq<T>, at: nat, first: seq<T>, second: seq<T>)
    requires at + |first| + |second| <= |s|
    ensures Patched(Patched(s, at, first), at + |first|, second) == Patched(s, at, first + second)
  {}

  lemma PatchedParts<T>(s: seq<T>, at: nat, data: seq<T>)
    requires at + |data| <= |s|
    ensures Patched(s, at, data)[..at + |data|] == s[..at] + data
    ensures Patched(s, at, data)[at + |data|..] == s[at + |data|..]
    ensures |data| == |s| ==> Patched(s, at, data) == data
    ensures data == [] ==> Patched(s, at, data) == s
  {}

  /** A copy loop. */
  method CopyTo<T>(dst: array<T>, at: nat, src: seq<T>)
    requires at + |src| <= dst.Length
    modifies dst
    ensures dst[..] == Patched(old(dst[..]), at, src)
  {
    ghost var was := dst[..];
    assert Patched(was, at, src[..0]) == was;
    for i := 0 to |src|
      invariant dst[..] == Patched(was, at, src[..i])
    {
      PatchNext(was, at, src, i);
      dst[at + i] := src[i];
    }
    assert src[..|src|] == src;
  }

  /** The samples of one channel over all transfers. */
  function Joined(chunks: seq<seq<seq<int>>>, ch: nat): seq<int>
    requires forall i :: 0 <= i < |chunks| ==> ch < |chunks[i]|
  {
    if chunks == [] then [] else Joined(chunks[..|chunks| - 1], ch) + chunks[|chunks| - 1][ch]
  }

  lemma JoinedNext(chunks: seq<seq<seq<int>>>, i: nat, ch: nat)
    requires i < |chunks| && forall i :: 0 <= i < |chunks| ==> ch < |chunks[i]|
    ensures Joined(chunks[..i + 1], ch) == Joined(chunks[..i], ch) + chunks[i][ch]
  {
    assert chunks[..i + 1][..i] == chunks[..i];
  }
}
