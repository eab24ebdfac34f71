/**
 The packet cipher: SetEncodingCode chains two XOR passes over the payload and puts a checksum into the
 header, SetDecodingCode undoes them and compares.
 */
module Cipher {
  import opened Wire
  import Bits

  const FIX_KEY: byte := 0x32
  const PACKET_CODE: byte := 0x77

  // ----- exclusive or of bytes -----------------------------------------------------------------

  function Vector(a: byte): bv8 {
    a as bv8
  }

  function Number(x: bv8): byte {
    x as int
  }

  lemma ThereAndBack(x: bv8)
    ensures Vector(Number(x)) == x
  {
  }

  lemma BackAndThere(a: byte)
    ensures Number(Vector(a)) == a
  {
    Bits.ThereAndBack(a);
  }

  function Xor(a: byte, b: byte): byte {
    Number(Vector(a) ^ Vector(b))
  }

  lemma XorTwice(a: byte, b: byte)
    ensures Xor(Xor(a, b), b) == a
  {
    ThereAndBack(Vector(a) ^ Vector(b));
    BackAndThere(a);
    hide Vector, Number;
    assert (Vector(a) ^ Vector(b)) ^ Vector(b) == Vector(a);
  }

  // ----- the two passes ------------------------------------------------------------------------

  /** What the i-th byte is XORed with: the previous byte of the pass, a key and the position, in a BYTE. */
  function Mask(previous: byte, key: byte, i: nat): byte {
    (previous + key + i + 1) % 256
  }

  /** SetEncodingCode from byte `i` on; `e` and `c` are E_n and P_n, the previous bytes of the two passes. */
  function Encode(p: seq<byte>, key: byte, i: nat, e: byte, c: byte): (q: seq<byte>)
    ensures |q| == |p|
  {
    if p == [] then []
    else
      var e' := Xor(p[0], Mask(e, key, i));
      var c' := Xor(e', Mask(c, FIX_KEY, i));
      [c'] + Encode(p[1..], key, i + 1, e', c')
  }

  /** SetDecodingCode from byte `i` on; `c` and `e` are E_n and P_before. */
  function Decode(q: seq<byte>, key: byte, i: nat, c: byte, e: byte): (p: seq<byte>)
    ensures |p| == |q|
  {
    if q == [] then []
    else
      var e' := Xor(q[0], Mask(c, FIX_KEY, i));
      [Xor(e', Mask(e, key, i))] + Decode(q[1..], key, i + 1, q[0], e')
  }

  lemma {:induction false} DecodeOfEncode(p: seq<byte>, key: byte, i: nat, e: byte, c: byte)
    ensures Decode(Encode(p, key, i, e, c), key, i, c, e) == p
  {
    if p != [] {
      var e' := Xor(p[0], Mask(e, key, i));
      var c' := Xor(e', Mask(c, FIX_KEY, i));
      XorTwice(p[0], Mask(e, key, i));
      XorTwice(e', Mask(c, FIX_KEY, i));
      DecodeOfEncode(p[1..], key, i + 1, e', c');
      assert Encode(p, key, i, e, c)[1..] == Encode(p[1..], key, i + 1, e', c');
    }
  }

  lemma {:induction false} EncodeOfDecode(q: seq<byte>, key: byte, i: nat, c: byte, e: byte)
    ensures Encode(Decode(q, key, i, c, e), key, i, e, c) == q
  {
    if q != [] {
      var e' := Xor(q[0], Mask(c, FIX_KEY, i));
      XorTwice(e', Mask(e, key, i));
      XorTwice(q[0], Mask(c, FIX_KEY, i));
      EncodeOfDecode(q[1..], key, i + 1, q[0], e');
      assert Decode(q, key, i, c, e)[1..] == Decode(q[1..], key, i + 1, q[0], e');
    }
  }

  /** With the header's key the two are inverse to each other on payloads of any length. */
  lemma CipherRoundTrip(p: seq<byte>, q: seq<byte>, key: byte)
    ensures Encode(p, key, 0, 0, 0) == q <==> Decode(q, key, 0, 0, 0) == p
  {
    DecodeOfEncode(p, key, 0, 0, 0);
    EncodeOfDecode(q, key, 0, 0, 0);
  }

  // ----- what the cipher computes, byte by byte ------------------------------------------------

  /** `r` is `a` with the bits of `m`, in a BYTE, flipped. */
  predicate Flipped(a: byte, m: nat, r: byte) {
    r == (a as bv8 ^ (m % 256) as bv8) as int
  }

  /** The byte before the i-th, zero at the start. */
  function Before(s: seq<byte>, i: nat): byte
    requires i <= |s|
  {
    if i == 0 then 0 else s[i - 1]
  }

  /** The law of SetEncodingCode: `e` the bytes of its first pass, `q` what it leaves in place of `p`. */
  predicate Ciphers(p: seq<byte>, e: seq<byte>, q: seq<byte>, key: byte) {
    |e| == |q| == |p| && forall i :: 0 <= i < |p| ==>
      Flipped(p[i], Before(e, i) + key + i + 1, e[i]) && Flipped(e[i], Before(q, i) + 0x32 + i + 1, q[i])
  }

  /** The law of SetDecodingCode: `e` the bytes of its first pass, `p` what it leaves in place of `q`. */
  predicate Deciphers(q: seq<byte>, e: seq<byte>, p: seq<byte>, key: byte) {
    |e| == |p| == |q| && forall i :: 0 <= i < |q| ==>
      Flipped(q[i], Before(q, i) + 0x32 + i + 1, e[i]) && Flipped(e[i], Before(e, i) + key + i + 1, p[i])
  }

  lemma XorFlips(a: byte, previous: byte, key: byte, i: nat)
    ensures Flipped(a, previous + key + i + 1, Xor(a, Mask(previous, key, i)))
  {
  }

  /** The bytes of SetEncodingCode's first pass. */
  function FirstPass(p: seq<byte>, key: byte, i: nat, e: byte): (r: seq<byte>)
    ensures |r| == |p|
  {
    if p == [] then []
    else
      var e' := Xor(p[0], Mask(e, key, i));
      [e'] + FirstPass(p[1..], key, i + 1, e')
  }

  lemma {:induction false} EncodeAt(p: seq<byte>, key: byte, i: nat, e: byte, c: byte, k: nat)
    requires k < |p|
    ensures var (es, q) := (FirstPass(p, key, i, e), Encode(p, key, i, e, c));
            && es[k] == Xor(p[k], Mask(if k == 0 then e else es[k - 1], key, i + k))
            && q[k] == Xor(es[k], Mask(if k == 0 then c else q[k - 1], FIX_KEY, i + k))
  {
    hide Xor, Mask;
    if k > 0 {
      var e' := Xor(p[0], Mask(e, key, i));
      EncodeAt(p[1..], key, i + 1, e', Xor(e', Mask(c, FIX_KEY, i)), k - 1);
    }
  }

  /** Encode obeys the law. */
  lemma EncodeLaw(p: seq<byte>, key: byte)
    ensures Ciphers(p, FirstPass(p, key, 0, 0), Encode(p, key, 0, 0, 0), key)
  {
    hide Xor, Mask, Flipped;
    var (e, q) := (FirstPass(p, key, 0, 0), Encode(p, key, 0, 0, 0));
    forall i | 0 <= i < |p|
      ensures Flipped(p[i], Before(e, i) + key + i + 1, e[i]) && Flipped(e[i], Before(q, i) + 0x32 + i + 1, q[i])
    {
      EncodeAt(p, key, 0, 0, 0, i);
      XorFlips(p[i], Before(e, i), key, i);
      XorFlips(e[i], Before(q, i), FIX_KEY, i);
    }
  }

  /** The bytes of SetDecodingCode's first pass. */
  function Undone(q: seq<byte>, i: nat, c: byte): (r: seq<byte>)
    ensures |r| == |q|
  {
    if q == [] then [] else [Xor(q[0], Mask(c, FIX_KEY, i))] + Undone(q[1..], i + 1, q[0])
  }

  lemma {:induction false} DecodeAt(q: seq<byte>, key: byte, i: nat, c: byte, e: byte, k: nat)
    requires k < |q|
    ensures var (es, p) := (Undone(q, i, c), Decode(q, key, i, c, e));
            && es[k] == Xor(q[k], Mask(if k == 0 then c else q[k - 1], FIX_KEY, i + k))
            && p[k] == Xor(es[k], Mask(if k == 0 then e else es[k - 1], key, i + k))
  {
    hide Xor, Mask;
    if k > 0 {
      DecodeAt(q[1..], key, i + 1, q[0], Xor(q[0], Mask(c, FIX_KEY, i)), k - 1);
    }
  }

  /** Decode obeys its law. */
  lemma DecodeLaw(q: seq<byte>, key: byte)
    ensures Deciphers(q, Undone(q, 0, 0), Decode(q, key, 0, 0, 0), key)
  {
    hide Xor, Mask, Flipped;
    var (e, p) := (Undone(q, 0, 0), Decode(q, key, 0, 0, 0));
    forall i | 0 <= i < |q|
      ensures Flipped(q[i], Before(q, i) + 0x32 + i + 1, e[i]) && Flipped(e[i], Before(e, i) + key + i + 1, p[i])
    {
      DecodeAt(q, key, 0, 0, 0, i);
      XorFlips(q[i], Before(q, i), FIX_KEY, i);
      XorFlips(e[i], Before(e, i), key, i);
    }
  }

  lemma FlippedOnce(a: byte, m: nat, r: byte, s: byte)
    requires Flipped(a, m, r) && Flipped(a, m, s)
    ensures r == s
  {
  }

  /** The law leaves no choice. */
  lemma DecipheredOnce(q: seq<byte>, e: seq<byte>, p: seq<byte>, e2: seq<byte>, p2: seq<byte>, key: byte)
    requires Deciphers(q, e, p, key) && Deciphers(q, e2, p2, key)
    ensures e == e2 && p == p2
  {
    hide Flipped;
    forall i | 0 <= i < |q| ensures e[i] == e2[i] {
      FlippedOnce(q[i], Before(q, i) + 0x32 + i + 1, e[i], e2[i]);
    }
    forall i | 0 <= i < |q| ensures p[i] == p2[i] {
      FlippedOnce(e[i], Before(e, i) + key + i + 1, p[i], p2[i]);
    }
  }

  /** The loop of SetEncodingCode. */
  method EncodeInPlace(a: array<byte>, len: nat, key: byte)
    requires len <= a.Length
    modifies a
    ensures a[..len] == Encode(old(a[..len]), key, 0, 0, 0) && a[len..] == old(a[len..])
    ensures exists e :: Ciphers(old(a[..len]), e, a[..len], key)
  {
    hide Xor, Mask, Ciphers;
    ghost var p := a[..len];
    EncodeLaw(p, key);
    var e, c: byte := 0, 0;
    for i := 0 to len
      invariant a[..i] + Encode(p[i..], key, i, e, c) == Encode(p, key, 0, 0, 0)
      invariant forall k :: i <= k < a.Length ==> a[k] == old(a[k])
    {
      assert a[i] == p[i] && p[i..][1..] == p[i + 1..];
      ghost var before := a[..i];
      e := Xor(a[i], Mask(e, key, i));
      a[i] := Xor(e, Mask(c, FIX_KEY, i));
      c := a[i];
      assert a[..i + 1] == before + [c];
      assert before + ([c] + Encode(p[i + 1..], key, i + 1, e, c)) == a[..i + 1] + Encode(p[i + 1..], key, i + 1, e, c);
    }
  }

  /** The loop of SetDecodingCode. */
  method DecodeInPlace(a: array<byte>, len: nat, key: byte)
    requires len <= a.Length
    modifies a
    ensures a[..len] == Decode(old(a[..len]), key, 0, 0, 0) && a[len..] == old(a[len..])
    ensures exists e :: Deciphers(old(a[..len]), e, a[..len], key)
  {
    hide Xor, Mask, Deciphers;
    ghost var q := a[..len];
    DecodeLaw(q, key);
    var c, e: byte := 0, 0;
    for i := 0 to len
      invariant a[..i] + Decode(q[i..], key, i, c, e) == Decode(q, key, 0, 0, 0)
      invariant forall k :: i <= k < a.Length ==> a[k] == old(a[k])
    {
      assert a[i] == q[i] && q[i..][1..] == q[i + 1..];
      ghost var before := a[..i];
      var p := Xor(a[i], Mask(c, FIX_KEY, i));
      c := a[i];
      a[i] := Xor(p, Mask(e, key, i));
      e := p;
      assert a[..i + 1] == before + [a[i]];
      assert before + ([a[i]] + Decode(q[i + 1..], key, i + 1, c, e)) == a[..i + 1] + Decode(q[i + 1..], key, i + 1, c, e);
    }
  }

  // ----- the checksum --------------------------------------------------------------------------

  /** A `char` is signed. */
  function AsChar(b: byte): int {
    if b < 128 then b else b - 256
  }

  function CharSum(p: seq<byte>): int {
    if p == [] then 0 else CharSum(p[..|p| - 1]) + AsChar(p[|p| - 1])
  }

  function ByteSum(p: seq<byte>): nat {
    if p == [] then 0 else ByteSum(p[..|p| - 1]) + p[|p| - 1]
  }

  /** C's remainder: it has the sign of the dividend. */
  function Remainder(x: int, m: int): int
    requires m > 0
  {
    if x >= 0 then x % m else -((-x) % m)
  }

  /** SetEncodingCode: a LONG sum of chars, its remainder by 256, cast to BYTE. */
  function SentChecksum(p: seq<byte>): byte {
    Remainder(CharSum(p), 256) % 256
  }

  /** SetDecodingCode: a DWORD sum of chars, wrapping at 2^32, its remainder by 256. */
  function ReceivedChecksum(p: seq<byte>): byte {
    (CharSum(p) % 0x1_0000_0000) % 256
  }

  /** A sum of chars and the sum of the bytes differ by a multiple of 256. */
  lemma {:induction false} CharsAndBytes(p: seq<byte>) returns (k: nat)
    ensures ByteSum(p) == CharSum(p) + 256 * k
  {
    k := 0;
    if p != [] {
      k := CharsAndBytes(p[..|p| - 1]);
      if p[|p| - 1] >= 128 {
        k := k + 1;
      }
    }
  }

  lemma SameModulo(x: int, y: int, k: int)
    requires x == y + 256 * k
    ensures x % 256 == y % 256
  {
  }

  lemma SentModulo(x: int)
    ensures Remainder(x, 256) % 256 == x % 256
  {
    if x < 0 {
      SameModulo(-((-x) % 256), x, (-x) / 256);
    }
  }

  lemma ReceivedModulo(x: int)
    ensures (x % 0x1_0000_0000) % 256 == x % 256
  {
    SameModulo(x, x % 0x1_0000_0000, 0x100_0000 * (x / 0x1_0000_0000));
  }

  /** Signs, remainders and widths aside, both sides compute the sum of the bytes modulo 256. */
  lemma ChecksumsAgree(p: seq<byte>)
    ensures SentChecksum(p) == ReceivedChecksum(p) == ByteSum(p) % 256
  {
    var k := CharsAndBytes(p);
    SameModulo(ByteSum(p), CharSum(p), k);
    SentModulo(CharSum(p));
    ReceivedModulo(CharSum(p));
  }
}
