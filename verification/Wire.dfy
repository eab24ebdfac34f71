/**
 The values CPacket's stream operators carry, as the bytes memcpy takes from them: little-endian,
 two's complement, with the sizes of the Windows ABI. A float or double is its bit pattern.
 */
module Wire {
  type byte = x: int | 0 <= x < 256

  datatype WireType = Byte | Char | WChar | Short | Word | Int | DWord | Float | Long | Int64 | Double

  datatype Typed = Typed(t: WireType, v: int)

  /** What a variable of the type can hold. */
  type Value = x: Typed | InRange(x) witness Typed(Byte, 0)

  function Size(t: WireType): (n: nat)
    ensures 1 <= n <= 8
  {
    match t
    case Byte => 1
    case Char => 1
    case WChar => 2
    case Short => 2
    case Word => 2
    case Int => 4
    case DWord => 4
    case Float => 4
    case Long => 4
    case Int64 => 8
    case Double => 8
  }

  predicate Signed(t: WireType) {
    t.Char? || t.Short? || t.Int? || t.Long? || t.Int64?
  }

  function Pow256(n: nat): (r: nat)
    ensures r > 0
  {
    if n == 0 then 1 else 256 * Pow256(n - 1)
  }

  predicate InRange(x: Typed) {
    var m: int := Pow256(Size(x.t));
    if Signed(x.t) then -m <= 2 * x.v < m else 0 <= x.v < m
  }

  lemma Powers()
    ensures Pow256(1) == 0x100 && Pow256(2) == 0x1_0000
    ensures Pow256(4) == 0x1_0000_0000 && Pow256(8) == 0x1_0000_0000_0000_0000
  {
    assert Pow256(3) == 256 * Pow256(2);
    assert Pow256(5) == 256 * Pow256(4);
    assert Pow256(7) == 256 * (256 * Pow256(5));
  }

  /** The ranges of the types, as the ABI has them. */
  lemma RangesExactly(v: int)
    ensures InRange(Typed(Byte, v)) <==> 0 <= v <= 255
    ensures InRange(Typed(Char, v)) <==> -128 <= v <= 127
    ensures InRange(Typed(WChar, v)) <==> 0 <= v <= 0xFFFF
    ensures InRange(Typed(Word, v)) <==> 0 <= v <= 0xFFFF
    ensures InRange(Typed(Short, v)) <==> -0x8000 <= v <= 0x7FFF
    ensures InRange(Typed(Int, v)) <==> -0x8000_0000 <= v <= 0x7FFF_FFFF
    ensures InRange(Typed(Long, v)) <==> -0x8000_0000 <= v <= 0x7FFF_FFFF
    ensures InRange(Typed(DWord, v)) <==> 0 <= v <= 0xFFFF_FFFF
    ensures InRange(Typed(Float, v)) <==> 0 <= v <= 0xFFFF_FFFF
    ensures InRange(Typed(Int64, v)) <==> -0x8000_0000_0000_0000 <= v <= 0x7FFF_FFFF_FFFF_FFFF
    ensures InRange(Typed(Double, v)) <==> 0 <= v <= 0xFFFF_FFFF_FFFF_FFFF
  {
    Powers();
    hide Pow256;
  }

  /** The low-order `n` bytes of `u`, lowest first. */
  function LittleEndian(u: nat, n: nat): (b: seq<byte>)
    ensures |b| == n
  {
    if n == 0 then [] else [u % 256] + LittleEndian(u / 256, n - 1)
  }

  function FromLittleEndian(b: seq<byte>): (u: nat)
    ensures u < Pow256(|b|)
  {
    if b == [] then 0 else b[0] + 256 * FromLittleEndian(b[1..])
  }

  lemma {:induction false} NumberRoundTrip(u: nat, n: nat)
    requires u < Pow256(n)
    ensures FromLittleEndian(LittleEndian(u, n)) == u
  {
    if n > 0 {
      NumberRoundTrip(u / 256, n - 1);
      assert LittleEndian(u, n)[1..] == LittleEndian(u / 256, n - 1);
    }
  }

  lemma {:induction false} BytesRoundTrip(b: seq<byte>)
    ensures LittleEndian(FromLittleEndian(b), |b|) == b
  {
    if b != [] {
      BytesRoundTrip(b[1..]);
      assert b == [b[0]] + b[1..];
    }
  }

  /** The object representation of a value. */
  function Bytes(x: Value): (b: seq<byte>)
    ensures |b| == Size(x.t)
  {
    LittleEndian(if x.v < 0 then x.v + Pow256(Size(x.t)) else x.v, Size(x.t))
  }

  /** The value a variable of type `t` has once `b` is copied over it. */
  function Parse(t: WireType, b: seq<byte>): (x: Value)
    requires |b| == Size(t)
    ensures x.t == t
  {
    var u := FromLittleEndian(b);
    var m := Pow256(Size(t));
    Typed(t, if Signed(t) && 2 * u >= m then u - m else u)
  }

  lemma ValueRoundTrip(x: Value)
    ensures Parse(x.t, Bytes(x)) == x
  {
    var m := Pow256(Size(x.t));
    NumberRoundTrip(if x.v < 0 then x.v + m else x.v, Size(x.t));
  }

  /** Every byte string of the right length is the representation of exactly the value it parses to. */
  lemma ReadRoundTrip(t: WireType, b: seq<byte>)
    requires |b| == Size(t)
    ensures Bytes(Parse(t, b)) == b
  {
    BytesRoundTrip(b);
  }
}
