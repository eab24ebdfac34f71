/** memcpy, as the buffers use it: bytes into an array, and bytes out of one. */
module Memory {
  import opened Wire

  /** `d` after `b` is copied into it at `at`. */
  function Copied(d: seq<byte>, at: nat, b: seq<byte>): (r: seq<byte>)
    requires at + |b| <= |d|
    ensures |r| == |d|
  {
    d[..at] + b + d[at + |b|..]
  }

  method CopyIn(dst: array<byte>, at: nat, src: seq<byte>)
    requires at + |src| <= dst.Length
    modifies dst
    ensures dst[..] == Copied(old(dst[..]), at, src)
  {
    for i := 0 to |src|
      invariant dst[..at] == old(dst[..at])
      invariant dst[at..at + i] == src[..i]
      invariant dst[at + i..] == old(dst[at + i..])
    {
      dst[at + i] := src[i];
      assert dst[at..at + i] == src[..i];
    }
    assert dst[..] == dst[..at] + dst[at..at + |src|] + dst[at + |src|..];
  }

  method CopyOut(dst: array<byte>, src: array<byte>, at: nat)
    requires at + dst.Length <= src.Length && dst != src
    modifies dst
    ensures dst[..] == src[at..at + dst.Length]
  {
    for i := 0 to dst.Length
      invariant dst[..i] == src[at..at + i]
    {
      dst[i] := src[at + i];
      assert dst[..i] == src[at..at + i];
    }
  }

  /** Two copies, the second behind the first, at the start of `dst`. */
  method CopyBoth(dst: array<byte>, head: seq<byte>, tail: seq<byte>)
    requires |head| + |tail| <= dst.Length
    modifies dst
    ensures dst[..] == head + tail + old(dst[..])[|head| + |tail|..]
  {
    CopyIn(dst, 0, head);
    CopyIn(dst, |head|, tail);
  }
}
