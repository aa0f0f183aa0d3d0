/**
 * CRC-16/CCITT-FALSE: generator x^16 + x^12 + x^5 + 1, initial value 0xFFFF, no reflection, no final XOR.
 *
 * Three forms are related here: the table-driven loop the program runs, the bit-serial shift
 * register, and the remainder of a polynomial division over GF(2).
 */
module Crc {
  import opened Bytes

  /** A 16-bit unsigned machine word by its bits. */
  type Word = s: Bits | |s| == 16 
    witness [false, false, false, false, false, false, false, false,
             false, false, false, false, false, false, false, false]

  /** 0x1021, the generator below its leading x^16. */
  const POLY: Word := [false, false, false, true, false, false, false, false,
                       false, false, true, false, false, false, false, true]

  /** 0xFFFF */
  const INIT: Word := [true, true, true, true, true, true, true, true,
                       true, true, true, true, true, true, true, true]

  /** (v << 1) & 0xFFFF */
  function Shl1(v: Word): Word { v[1..] + [false] }

  /** v >> 8 */
  function High(v: Word): (o: Bits)
    ensures |o| == 8
  {
    v[..8]
  }

  /** (v << 8) & 0xFFFF */
  function Shl8(v: Word): Word { v[8..] + Zeros(8) }

  /** A byte at the top of a word: b << 8. */
  function Top(o: Bits): Word
    requires |o| == 8
  {
    o + Zeros(8)
  }

  // ----- Bit-serial register -----

  /** One clock of the register with no input: multiplication by x modulo the generator. */
  function Shift(v: Word): Word {
    if v[0] then Xor(Shl1(v), POLY) else Shl1(v)
  }

  function ShiftTimes(v: Word, n: nat): Word {
    if n == 0 then v else Shift(ShiftTimes(v, n - 1))
  }

  function UpdateBits(crc: Word, o: Bits): Word
    requires |o| == 8
  {
    ShiftTimes(Xor(crc, Top(o)), 8)
  }

  function Update(crc: Word, b: byte): Word {
    UpdateBits(crc, OctetOf(b))
  }

  function CrcFrom(crc: Word, bs: seq<byte>): Word {
    if bs == [] then crc else Update(CrcFrom(crc, bs[..|bs| - 1]), bs[|bs| - 1])
  }

  function Crc16(bs: seq<byte>): Word {
    CrcFrom(INIT, bs)
  }

  lemma {:induction false} CrcFromConcat(crc: Word, a: seq<byte>, b: seq<byte>)
    ensures CrcFrom(crc, a + b) == CrcFrom(CrcFrom(crc, a), b)
  {
    if b == [] {
      assert a + b == a;
    } else {
      assert (a + b)[..|a + b| - 1] == a + b[..|b| - 1];
      CrcFromConcat(crc, a, b[..|b| - 1]);
    }
  }

  // ----- Linearity -----

  lemma ShiftLinear(a: Word, b: Word)
    ensures Shift(Xor(a, b)) == Xor(Shift(a), Shift(b))
  {
    forall i | 0 <= i < 16
      ensures Shift(Xor(a, b))[i] == Xor(Shift(a), Shift(b))[i]
    {
    }
  }

  lemma {:induction false} ShiftTimesLinear(a: Word, b: Word, n: nat)
    ensures ShiftTimes(Xor(a, b), n) == Xor(ShiftTimes(a, n), ShiftTimes(b, n))
  {
    if n > 0 {
      ShiftTimesLinear(a, b, n - 1);
      ShiftLinear(ShiftTimes(a, n - 1), ShiftTimes(b, n - 1));
    }
  }

  lemma {:induction false} ShiftTimesPlus(v: Word, m: nat, n: nat)
    ensures ShiftTimes(v, m + n) == ShiftTimes(ShiftTimes(v, m), n)
  {
    if n > 0 {
      ShiftTimesPlus(v, m, n - 1);
    }
  }

  lemma UpdateLinear(c: Word, d: Word, a: Bits, e: Bits)
    requires |a| == |e| == 8
    ensures UpdateBits(Xor(c, d), Xor(a, e)) == Xor(UpdateBits(c, a), UpdateBits(d, e))
  {
    var x, y := Xor(c, Top(a)), Xor(d, Top(e));
    assert Xor(Xor(c, d), Top(Xor(a, e))) == Xor(x, y);
    ShiftTimesLinear(x, y, 8);
  }

  /** The checksum of a difference is the difference of the checksums. */
  lemma {:induction false} CrcLinear(c: Word, d: Word, a: seq<byte>, e: seq<byte>)
    requires |a| == |e|
    ensures CrcFrom(Xor(c, d), XorSeq(a, e)) == Xor(CrcFrom(c, a), CrcFrom(d, e))
  {
    if a != [] {
      var n := |a| - 1;
      assert XorSeq(a, e)[..n] == XorSeq(a[..n], e[..n]);
      CrcLinear(c, d, a[..n], e[..n]);
      UpdateLinear(CrcFrom(c, a[..n]), CrcFrom(d, e[..n]), OctetOf(a[n]), OctetOf(e[n]));
    }
  }

  // ----- The table and the loops that use it -----

  function TableEntry(o: Bits): Word
    requires |o| == 8
  {
    ShiftTimes(Top(o), 8)
  }

  /** Bits that have not reached the top are only moved. */
  lemma {:induction false} LowBitsMove(o: Bits, n: nat)
    requires |o| == 8 && n <= 8
    ensures ShiftTimes(Zeros(8) + o, n) == Zeros(8 - n) + o + Zeros(n)
  {
    if n > 0 {
      LowBitsMove(o, n - 1);
      assert Shl1(Zeros(9 - n) + o + Zeros(n - 1)) == Zeros(8 - n) + o + Zeros(n);
    }
  }

  /** One table lookup does eight clocks of the register. */
  lemma TableStep(crc: Word, o: Bits)
    requires |o| == 8
    ensures Xor(TableEntry(Xor(High(crc), o)), Shl8(crc)) == UpdateBits(crc, o)
  {
    var high, low := Top(Xor(High(crc), o)), Zeros(8) + crc[8..];
    assert Xor(crc, Top(o)) == Xor(high, low);
    ShiftTimesLinear(high, low, 8);
    LowBitsMove(crc[8..], 8);
    assert Zeros(0) + crc[8..] + Zeros(8) == Shl8(crc);
  }

  ghost predicate IsTable(t: seq<Word>) {
    |t| == 256 && forall i: byte :: t[i] == TableEntry(OctetOf(i))
  }

  /** crc_init: one table row per byte value, filled in place. */
  method CrcInit(table: array<Word>)
    requires table.Length == 256
    modifies table
    ensures IsTable(table[..])
  {
    var i := 0;
    while i < 256
      invariant 0 <= i <= 256
      invariant forall k: byte :: k < i ==> table[k] == TableEntry(OctetOf(k))
    {
      var v: Word := Top(OctetOf(i));
      var j := 0;
      while j < 8
        invariant 0 <= j <= 8
        invariant v == ShiftTimes(Top(OctetOf(i)), j)
      {
        if v[0] {
          v := Xor(Shl1(v), POLY);
        } else {
          v := Shl1(v);
        }
        j := j + 1;
      }
      table[i] := v;
      i := i + 1;
    }
  }

  /** crc16_update: one byte, by table. */
  method Crc16Update(table: array<Word>, crc: Word, b: byte) returns (r: Word)
    requires IsTable(table[..])
    ensures r == Update(crc, b)
  {
    var i := ByteOf(Xor(High(crc), OctetOf(b)));
    TableStep(crc, OctetOf(b));
    assert table[..][i] == TableEntry(OctetOf(i));
    r := Xor(table[i], Shl8(crc));
  }

  /** crc16_block: the whole buffer, by table. */
  method Crc16Block(table: array<Word>, buf: seq<byte>) returns (crc: Word)
    requires IsTable(table[..])
    ensures crc == Crc16(buf)
  {
    crc := INIT;
    var i := 0;
    while i < |buf|
      invariant 0 <= i <= |buf|
      invariant crc == Crc16(buf[..i])
    {
      assert buf[..i + 1][..i] == buf[..i];
      crc := Crc16Update(table, crc, buf[i]);
      i := i + 1;
    }
    assert buf[..|buf|] == buf;
  }

  // ----- The Python twins: integers do not wrap, so every step is masked -----

  /** x & 0xFFFF on an integer of any width from 16 bits up. */
  function Mask16(x: Bits): Word
    requires |x| >= 16
  {
    x[|x| - 16..]
  }

  /** _build_table of frame.py and crc16_reference.py; v << 1 has 17 bits before the mask. */
  method PyBuildTable() returns (t: seq<Word>)
    ensures IsTable(t)
  {
    t := [];
    var i := 0;
    while i < 256
      invariant 0 <= i == |t| <= 256
      invariant forall k: byte :: k < i ==> t[k] == TableEntry(OctetOf(k))
    {
      var v: Word := Top(OctetOf(i));
      var j := 0;
      while j < 8
        invariant 0 <= j <= 8
        invariant v == ShiftTimes(Top(OctetOf(i)), j)
      {
        assert Mask16(Xor(v + [false], [false] + POLY)) == Xor(Shl1(v), POLY);
        if v[0] {
          v := Mask16(Xor(v + [false], [false] + POLY));
        } else {
          v := Mask16(v + [false]);
        }
        j := j + 1;
      }
      t := t + [v];
      i := i + 1;
    }
  }

  /** crc16 of frame.py and crc16_reference.py; crc << 8 has 24 bits before the mask. */
  method PyCrc16(table: seq<Word>, data: seq<byte>) returns (crc: Word)
    requires IsTable(table)
    ensures crc == Crc16(data)
  {
    crc := INIT;
    var n := 0;
    while n < |data|
      invariant 0 <= n <= |data|
      invariant crc == Crc16(data[..n])
    {
      assert data[..n + 1][..n] == data[..n];
      var i := ByteOf(Xor(High(crc), OctetOf(data[n])));
      TableStep(crc, OctetOf(data[n]));
      assert Mask16(Xor(Zeros(8) + table[i], crc + Zeros(8))) == Xor(table[i], Shl8(crc));
      crc := Mask16(Xor(Zeros(8) + table[i], crc + Zeros(8)));
      n := n + 1;
    }
    assert data[..|data|] == data;
  }

  // ----- The register fed bit by bit -----

  function ShiftInBit(c: Word, bit: bool): Word {
    Shift(c[0 := c[0] != bit])
  }

  function ShiftIn(c: Word, bits: Bits): Word
    decreases |bits|
  {
    if bits == [] then c else ShiftIn(ShiftInBit(c, bits[0]), bits[1..])
  }

  lemma {:induction false} ShiftInConcat(c: Word, a: Bits, b: Bits)
    ensures ShiftIn(c, a + b) == ShiftIn(ShiftIn(c, a), b)
    decreases |a|
  {
    if a == [] {
      assert a + b == b;
    } else {
      assert (a + b)[1..] == a[1..] + b;
      ShiftInConcat(ShiftInBit(c, a[0]), a[1..], b);
    }
  }

  function MessageBits(bs: seq<byte>): (s: Bits)
    ensures |s| == 8 * |bs|
  {
    if bs == [] then [] else MessageBits(bs[..|bs| - 1]) + OctetOf(bs[|bs| - 1])
  }

  /** Clocking n times with n bits added at the top is feeding those bits one by one. */
  lemma {:induction false} FeedFromTop(c: Word, s: Bits)
    requires |s| <= 16
    ensures ShiftTimes(Xor(c, s + Zeros(16 - |s|)), |s|) == ShiftIn(c, s)
    decreases |s|
  {
    var w := s + Zeros(16 - |s|);
    if s == [] {
      assert Xor(c, w) == c;
    } else {
      var c', w' := ShiftInBit(c, s[0]), s[1..] + Zeros(17 - |s|);
      FeedFromTop(c', s[1..]);
      assert ShiftTimes(Xor(c, w), 1) == Xor(c', w') by {
        assert ShiftTimes(Xor(c, w), 0) == Xor(c, w);
        assert Shl1(w) == w';
        assert Shift(Xor(c, w)) == Xor(c', w');
      }
      ShiftTimesPlus(Xor(c, w), 1, |s| - 1);
    }
  }

  /** The checksum is what the register holds after the message bits. */
  lemma {:induction false} CrcFeedsBits(c: Word, bs: seq<byte>)
    ensures CrcFrom(c, bs) == ShiftIn(c, MessageBits(bs))
  {
    if bs != [] {
      var n := |bs| - 1;
      CrcFeedsBits(c, bs[..n]);
      FeedFromTop(CrcFrom(c, bs[..n]), OctetOf(bs[n]));
      ShiftInConcat(c, MessageBits(bs[..n]), OctetOf(bs[n]));
    }
  }

  // ----- Division of polynomials over GF(2) -----

  /** Adds q to the leading coefficients of p. */
  function AddLeading(p: Bits, q: Bits): (s: Bits)
    requires |q| <= |p|
    ensures |s| == |p|
  {
    Xor(p, q + Zeros(|p| - |q|))
  }

  /**
   * The remainder of schoolbook long division by x^16 + x^12 + x^5 + 1: while the dividend has
   * more than 16 coefficients, cancel a leading one by subtracting the aligned generator.
   */
  ghost function Remainder(p: Bits): (r: Bits)
    requires |p| >= 16
    ensures |r| == 16
    decreases |p|
  {
    if |p| == 16 then p
    else if p[0] then Remainder(AddLeading(p[1..], POLY))
    else Remainder(p[1..])
  }

  /** Clocking the register divides: the register holds what is left of the leading coefficients. */
  lemma {:induction false} ShiftInDivides(c: Word, bits: Bits)
    ensures Remainder(AddLeading(bits + Zeros(16), c)) == ShiftIn(c, bits)
    decreases |bits|
  {
    var p := AddLeading(bits + Zeros(16), c);
    if bits == [] {
      assert p == c;
    } else {
      var c' := ShiftInBit(c, bits[0]);
      assert (if p[0] then AddLeading(p[1..], POLY) else p[1..]) == AddLeading(bits[1..] + Zeros(16), c');
      ShiftInDivides(c', bits[1..]);
    }
  }

  /**
   * The checksum is the remainder of message * x^16 by the generator, the initial value 0xFFFF
   * being sixteen ones added to the leading coefficients of the dividend.
   */
  lemma CrcIsPolynomialRemainder(bs: seq<byte>)
    ensures Crc16(bs) == Remainder(AddLeading(MessageBits(bs) + Zeros(16), INIT))
  {
    CrcFeedsBits(INIT, bs);
    ShiftInDivides(INIT, MessageBits(bs));
  }
}
