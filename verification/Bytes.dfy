/** Bytes, their bits, and the little-endian fields of the wire format. */
module Bytes {

  type byte = x: int | 0 <= x < 256

  const U16_LIMIT := 0x1_0000
  const U32_LIMIT := 0x1_0000_0000

  // ----- Bits, the most significant first -----

  /** An unsigned machine word or byte by its bits. */
  type Bits = seq<bool>

  function Zeros(n: nat): (s: Bits)
    ensures |s| == n
  {
    seq(n, i => false)
  }

  function Xor(a: Bits, b: Bits): (s: Bits)
    requires |a| == |b|
    ensures |s| == |a|
  {
    seq(|a|, i requires 0 <= i < |a| => a[i] != b[i])
  }

  lemma XorIsZero(a: Bits, b: Bits)
    requires |a| == |b|
    ensures Xor(a, b) == Zeros(|a|) <==> a == b
  {
    if Xor(a, b) == Zeros(|a|) {
      forall i | 0 <= i < |a|
        ensures a[i] == b[i]
      {
        assert !Xor(a, b)[i];
      }
    }
  }

  function BitsOf(n: nat, width: nat): (s: Bits)
    ensures |s| == width
  {
    if width == 0 then [] else BitsOf(n / 2, width - 1) + [n % 2 == 1]
  }

  function ValueOf(s: Bits): nat {
    if s == [] then 0 else 2 * ValueOf(s[..|s| - 1]) + (if s[|s| - 1] then 1 else 0)
  }

  function Pow2(n: nat): nat { if n == 0 then 1 else 2 * Pow2(n - 1) }

  lemma {:induction false} BitsOfValue(s: Bits)
    ensures ValueOf(s) < Pow2(|s|)
    ensures BitsOf(ValueOf(s), |s|) == s
  {
    if s != [] {
      BitsOfValue(s[..|s| - 1]);
    }
  }

  lemma {:induction false} ValueOfBits(n: nat, width: nat)
    requires n < Pow2(width)
    ensures ValueOf(BitsOf(n, width)) == n
  {
    if width > 0 {
      ValueOfBits(n / 2, width - 1);
    }
  }

  function OctetOf(b: byte): (s: Bits)
    ensures |s| == 8
  {
    BitsOf(b, 8)
  }

  function ByteOf(s: Bits): (b: byte)
    requires |s| == 8
    ensures OctetOf(b) == s
  {
    BitsOfValue(s);
    assert Pow2(8) == 256;
    ValueOf(s)
  }

  lemma OctetInjective(a: byte, b: byte)
    requires OctetOf(a) == OctetOf(b)
    ensures a == b
  {
    assert Pow2(8) == 256;
    ValueOfBits(a, 8);
    ValueOfBits(b, 8);
  }

  /** a ^ b on bytes. */
  function XorByte(a: byte, b: byte): (r: byte)
    ensures OctetOf(r) == Xor(OctetOf(a), OctetOf(b))
  {
    ByteOf(Xor(OctetOf(a), OctetOf(b)))
  }

  function XorSeq(a: seq<byte>, e: seq<byte>): (r: seq<byte>)
    requires |a| == |e|
    ensures |r| == |a|
  {
    seq(|a|, i requires 0 <= i < |a| => XorByte(a[i], e[i]))
  }

  // ----- Little-endian fields -----

  function U16(n: int): (bs: seq<byte>)
    requires 0 <= n < U16_LIMIT
    ensures |bs| == 2
  {
    [n % 256, n / 256]
  }

  function FromU16(bs: seq<byte>): (n: int)
    requires |bs| == 2
    ensures 0 <= n < U16_LIMIT
  {
    var low: int, high: int := bs[0], bs[1];
    low + 256 * high
  }

  lemma U16RoundTrip(n: int)
    requires 0 <= n < U16_LIMIT
    ensures FromU16(U16(n)) == n
  {
  }

  lemma U16OfField(bs: seq<byte>)
    requires |bs| == 2
    ensures U16(FromU16(bs)) == bs
  {
  }

  function U32(n: int): (bs: seq<byte>)
    requires 0 <= n < U32_LIMIT
    ensures |bs| == 4
  {
    U16(n % U16_LIMIT) + U16(n / U16_LIMIT)
  }

  function FromU32(bs: seq<byte>): (n: int)
    requires |bs| == 4
    ensures 0 <= n < U32_LIMIT
  {
    FromU16(bs[..2]) + U16_LIMIT * FromU16(bs[2..])
  }

  lemma U32RoundTrip(n: int)
    requires 0 <= n < U32_LIMIT
    ensures FromU32(U32(n)) == n
  {
    U16RoundTrip(n % U16_LIMIT);
    U16RoundTrip(n / U16_LIMIT);
    assert U32(n)[..2] == U16(n % U16_LIMIT) && U32(n)[2..] == U16(n / U16_LIMIT);
  }

  /** A signed 32-bit field, two's complement. */
  function FromI32(bs: seq<byte>): (n: int)
    requires |bs| == 4
    ensures -0x8000_0000 <= n < 0x8000_0000
  {
    var u := FromU32(bs);
    if u < 0x8000_0000 then u else u - U32_LIMIT
  }

  /** The four bytes of a signed 32-bit number. */
  function I32(n: int): (bs: seq<byte>)
    requires -0x8000_0000 <= n < 0x8000_0000
    ensures |bs| == 4
  {
    U32(if n < 0 then n + U32_LIMIT else n)
  }

  lemma I32RoundTrip(n: int)
    requires -0x8000_0000 <= n < 0x8000_0000
    ensures FromI32(I32(n)) == n
  {
    U32RoundTrip(if n < 0 then n + U32_LIMIT else n);
    hide U32, FromU32;
  }

  lemma SliceOfPrefix(s: seq<byte>, n: nat, a: nat, b: nat)
    requires a <= b <= n <= |s|
    ensures s[..n][a..b] == s[a..b]
  {
  }

  /** Copies src into dst from position at on; the byte-copy loops of the C side. */
  method CopyBytes(dst: array<byte>, at: nat, src: seq<byte>)
    requires at + |src| <= dst.Length
    modifies dst
    ensures dst[..] == old(dst[..at]) + src + old(dst[at + |src|..])
  {
    var i := 0;
    while i < |src|
      invariant 0 <= i <= |src|
      invariant dst[..at] == old(dst[..at])
      invariant dst[at..at + i] == src[..i]
      invariant dst[at + |src|..] == old(dst[at + |src|..])
    {
      dst[at + i] := src[i];
      i := i + 1;
    }
    assert dst[..] == dst[..at] + dst[at..at + |src|] + dst[at + |src|..];
  }
}
