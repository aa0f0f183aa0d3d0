/** Which changes to a frame on the wire the receiver is certain to reject. */
module FrameErrors {
  import opened Bytes
  import opened Crc
  import opened Frame

  /** The register that holds no coefficient. */
  function Zero(): Word { Zeros(16) }

  // ----- Parity -----

  /** The number of 1 bits. */
  function Ones(s: Bits): nat {
    if s == [] then 0 else Ones(s[..|s| - 1]) + (if s[|s| - 1] then 1 else 0)
  }

  /** True when the number of 1 bits is odd. */
  predicate Odd(s: Bits) { Ones(s) % 2 == 1 }

  lemma {:induction false} OnesConcat(a: Bits, b: Bits)
    ensures Ones(a + b) == Ones(a) + Ones(b)
  {
    if b == [] {
      assert a + b == a;
    } else {
      assert (a + b)[..|a + b| - 1] == a + b[..|b| - 1];
      OnesConcat(a, b[..|b| - 1]);
    }
  }

  lemma {:induction false} OddXor(a: Bits, b: Bits)
    requires |a| == |b|
    ensures Odd(Xor(a, b)) == (Odd(a) != Odd(b))
  {
    if a != [] {
      var n := |a| - 1;
      assert Xor(a, b)[..n] == Xor(a[..n], b[..n]);
      OddXor(a[..n], b[..n]);
    }
  }

  lemma {:induction false} OnesOfZeros(n: nat)
    ensures Ones(Zeros(n)) == 0
  {
    if n > 0 {
      assert Zeros(n)[..n - 1] == Zeros(n - 1);
      OnesOfZeros(n - 1);
    }
  }

  lemma OnesOfBit(b: bool)
    ensures Ones([b]) == if b then 1 else 0
  {
    assert [b][..0] == [];
  }

  lemma PolyIsOdd()
    ensures Odd(POLY)
  {
    var parts := Zeros(3) + [true] + Zeros(6) + [true] + Zeros(4);
    assert POLY == parts + [true];
    OnesConcat(parts, [true]);
    OnesConcat(Zeros(3) + [true] + Zeros(6) + [true], Zeros(4));
    OnesConcat(Zeros(3) + [true] + Zeros(6), [true]);
    OnesConcat(Zeros(3) + [true], Zeros(6));
    OnesConcat(Zeros(3), [true]);
    OnesOfZeros(3);
    OnesOfZeros(4);
    OnesOfZeros(6);
    OnesOfBit(true);
  }

  /** Clocking the register conserves parity: the generator has an even number of terms. */
  lemma ShiftKeepsParity(v: Word)
    ensures Odd(Shift(v)) == Odd(v)
  {
    assert v == [v[0]] + v[1..];
    OnesConcat([v[0]], v[1..]);
    OnesOfBit(v[0]);
    OnesConcat(v[1..], [false]);
    OnesOfBit(false);
    OddXor(Shl1(v), POLY);
    PolyIsOdd();
  }

  lemma {:induction false} ShiftTimesKeepsParity(v: Word, n: nat)
    ensures Odd(ShiftTimes(v, n)) == Odd(v)
  {
    if n > 0 {
      ShiftTimesKeepsParity(v, n - 1);
      ShiftKeepsParity(ShiftTimes(v, n - 1));
    }
  }

  lemma {:induction false} CrcKeepsParity(c: Word, bs: seq<byte>)
    ensures Odd(CrcFrom(c, bs)) == (Odd(c) != Odd(MessageBits(bs)))
  {
    if bs != [] {
      var n := |bs| - 1;
      var c', o := CrcFrom(c, bs[..n]), OctetOf(bs[n]);
      CrcKeepsParity(c, bs[..n]);
      UpdateAddsParity(c', o);
      OnesConcat(MessageBits(bs[..n]), o);
    }
  }

  lemma UpdateAddsParity(c: Word, o: Bits)
    requires |o| == 8
    ensures Odd(UpdateBits(c, o)) == (Odd(c) != Odd(o))
  {
    OnesConcat(o, Zeros(8));
    OnesOfZeros(8);
    OddXor(c, Top(o));
    ShiftTimesKeepsParity(Xor(c, Top(o)), 8);
  }

  lemma {:induction false} OnesOfInit(n: nat)
    requires n <= 16
    ensures Ones(INIT[..n]) == n
  {
    if n > 0 {
      assert INIT[..n][..n - 1] == INIT[..n - 1];
      OnesOfInit(n - 1);
    }
  }

  lemma {:induction false} OddConcat(a: seq<byte>, b: seq<byte>)
    ensures Odd(MessageBits(a + b)) == (Odd(MessageBits(a)) != Odd(MessageBits(b)))
  {
    if b == [] {
      assert a + b == a;
    } else {
      var n := |b| - 1;
      assert (a + b)[..|a + b| - 1] == a + b[..n];
      OddConcat(a, b[..n]);
      OnesConcat(MessageBits(a + b[..n]), OctetOf(b[n]));
      OnesConcat(MessageBits(b[..n]), OctetOf(b[n]));
    }
  }

  lemma CrcFieldParity(low: byte, high: byte)
    ensures Odd(MessageBits([low, high])) == Odd(WireCrc(low, high))
  {
    assert MessageBits([low]) == OctetOf(low) && MessageBits([high]) == OctetOf(high);
    assert [low, high] == [low] + [high];
    OddConcat([low], [high]);
    OnesConcat(OctetOf(high), OctetOf(low));
  }

  lemma SealedIsEven(body: seq<byte>, low: byte, high: byte)
    requires WireCrc(low, high) == Crc16(body)
    ensures !Odd(MessageBits(body + [low, high]))
  {
    OddConcat(body, [low, high]);
    CrcFieldParity(low, high);
    CrcKeepsParity(INIT, body);
    OnesOfInit(16);
    assert INIT[..16] == INIT;
  }

  /** A frame that passes the check, reserved byte and CRC included, has an even number of 1 bits. */
  lemma AcceptedFramesAreEven(f: seq<byte>)
    requires CDecode(f).Accepted? && |f| == MIN_SIZE + PayloadLen(f)
    ensures Ones(MessageBits(f)) % 2 == 0
  {
    hide MessageBits, Ones, Crc16, WireCrc;
    var n := |f| - 2;
    assert f == f[..n] + [f[n], f[n + 1]];
    SealedIsEven(f[..n], f[n], f[n + 1]);
  }

  lemma {:induction false} MessageBitsXor(a: seq<byte>, e: seq<byte>)
    requires |a| == |e|
    ensures MessageBits(XorSeq(a, e)) == Xor(MessageBits(a), MessageBits(e))
  {
    if a != [] {
      var n := |a| - 1;
      assert XorSeq(a, e)[..n] == XorSeq(a[..n], e[..n]);
      MessageBitsXor(a[..n], e[..n]);
    }
  }

  /** Any odd number of flipped bits outside the length field is rejected. */
  lemma OddErrorsAreRejected(f: seq<byte>, g: seq<byte>)
    requires CDecode(f).Accepted? && |f| == MIN_SIZE + PayloadLen(f)
    requires |g| == |f| && g[8..10] == f[8..10]
    requires Ones(MessageBits(XorSeq(f, g))) % 2 == 1
    ensures CDecode(g).Rejected? && PyDecode(g).Rejected?
  {
    MessageBitsXor(f, g);
    OddXor(MessageBits(f), MessageBits(g));
    AcceptedFramesAreEven(f);
    if CDecode(g).Accepted? {
      AcceptedFramesAreEven(g);
    }
    DecodersAgree(g);
  }

  // ----- Bursts -----

  lemma {:induction false} ShiftInLinear(c: Word, d: Word, a: Bits, b: Bits)
    requires |a| == |b|
    ensures ShiftIn(Xor(c, d), Xor(a, b)) == Xor(ShiftIn(c, a), ShiftIn(d, b))
    decreases |a|
  {
    if a != [] {
      var c', d' := c[0 := c[0] != a[0]], d[0 := d[0] != b[0]];
      assert Xor(c, d)[0 := Xor(c, d)[0] != (a[0] != b[0])] == Xor(c', d');
      ShiftLinear(c', d');
      assert Xor(a, b)[1..] == Xor(a[1..], b[1..]);
      ShiftInLinear(Shift(c'), Shift(d'), a[1..], b[1..]);
    }
  }

  /** A clock never erases the register. */
  lemma ShiftKeepsNonzero(v: Word)
    requires v != Zero()
    ensures Shift(v) != Zero()
  {
    if Shift(v) == Zero() {
      assert !v[0] by {
        assert Shift(v)[15] == v[0];
      }
      forall i | 0 <= i < 16
        ensures !v[i]
      {
        assert i == 0 || Shift(v)[i - 1] == v[i];
      }
    }
  }

  lemma {:induction false} ShiftInZeros(c: Word, n: nat)
    ensures c == Zero() ==> ShiftIn(c, Zeros(n)) == Zero()
    ensures c != Zero() ==> ShiftIn(c, Zeros(n)) != Zero()
    decreases n
  {
    if n > 0 {
      assert Zeros(n)[1..] == Zeros(n - 1);
      var c' := ShiftInBit(c, false);
      assert c[0 := c[0] != false] == c;
      if c == Zero() {
        assert Shl1(Zero()) == Zero();
      } else {
        ShiftKeepsNonzero(c);
      }
      ShiftInZeros(c', n - 1);
    }
  }

  /** At most sixteen bits return the register to zero only when they are what it held at its top. */
  lemma {:induction false} OnlyItselfCancels(c: Word, p: Bits)
    requires |p| <= 16 && ShiftIn(c, p) == Zero()
    ensures c == p + Zeros(16 - |p|)
    decreases |p|
  {
    if p == [] {
      assert Zero() == Zeros(16);
    } else {
      var c' := ShiftInBit(c, p[0]);
      OnlyItselfCancels(c', p[1..]);
      assert c'[15] == false;
      var d := c[0 := c[0] != p[0]];
      assert Shift(d)[15] == d[0];
      assert c' == Shl1(d);
      forall i | 0 <= i < 16
        ensures c[i] == (p + Zeros(16 - |p|))[i]
      {
        if i > 0 {
          assert Shl1(d)[i - 1] == d[i] == c[i];
        }
      }
    }
  }

  lemma ShortBurstHasChecksum(p: Bits)
    requires |p| <= 16 && p != Zeros(|p|)
    ensures ShiftIn(Zero(), p) != Zero()
  {
    if ShiftIn(Zero(), p) == Zero() {
      OnlyItselfCancels(Zero(), p);
      forall i | 0 <= i < |p|
        ensures p[i] == Zeros(|p|)[i]
      {
        assert (p + Zeros(16 - |p|))[i] == p[i];
      }
      assert false;
    }
  }

  lemma PaddedBurstHasChecksum(k: nat, p: Bits, m: nat)
    requires |p| <= 16 && p != Zeros(|p|)
    ensures ShiftIn(Zero(), Zeros(k) + p + Zeros(m)) != Zero()
  {
    ShiftInZeros(Zero(), k);
    ShortBurstHasChecksum(p);
    ShiftInZeros(ShiftIn(Zero(), p), m);
    ShiftInConcat(Zero(), Zeros(k), p);
    ShiftInConcat(Zero(), Zeros(k) + p, Zeros(m));
  }

  lemma IsolateBurst(s: Bits, j: nat, k: nat) returns (p: Bits, m: nat)
    requires j < |s| && s[j]
    requires forall i :: 0 <= i < |s| && s[i] ==> k <= i < k + 16
    ensures |p| <= 16 && p != Zeros(|p|) && s == Zeros(k) + p + Zeros(m)
  {
    var end := if k + 16 <= |s| then k + 16 else |s|;
    p, m := s[k..end], |s| - end;
    assert p[j - k] && !Zeros(|p|)[j - k];
    forall i | 0 <= i < |s|
      ensures s[i] == (Zeros(k) + p + Zeros(m))[i]
    {
    }
  }

  /** A nonzero error pattern within sixteen consecutive bits has a nonzero checksum. */
  lemma BurstHasChecksum(s: Bits, j: nat, k: nat)
    requires j < |s| && s[j]
    requires forall i :: 0 <= i < |s| && s[i] ==> k <= i < k + 16
    ensures ShiftIn(Zero(), s) != Zero()
  {
    var p, m := IsolateBurst(s, j, k);
    PaddedBurstHasChecksum(k, p, m);
  }

  lemma {:induction false} MessageBitsIndex(bs: seq<byte>, i: nat)
    requires i < 8 * |bs|
    ensures MessageBits(bs)[i] == OctetOf(bs[i / 8])[i % 8]
  {
    var n := |bs| - 1;
    if i < 8 * n {
      MessageBitsIndex(bs[..n], i);
    }
  }

  lemma XorByteIsZero(a: byte, b: byte)
    ensures OctetOf(XorByte(a, b)) == Zeros(8) <==> a == b
  {
    XorIsZero(OctetOf(a), OctetOf(b));
    if OctetOf(a) == OctetOf(b) {
      OctetInjective(a, b);
    }
  }

  lemma ByteDiffersInABit(a: byte, b: byte) returns (j: nat)
    requires a != b
    ensures j < 8 && OctetOf(XorByte(a, b))[j]
  {
    XorByteIsZero(a, b);
    var o := OctetOf(XorByte(a, b));
    assert exists i :: 0 <= i < 8 && o[i] != Zeros(8)[i];
    j :| 0 <= j < 8 && o[j];
  }

  lemma MessagesDifferInABit(a: seq<byte>, b: seq<byte>) returns (i: nat)
    requires |a| == |b| && a != b
    ensures i < 8 * |a| && MessageBits(XorSeq(a, b))[i]
  {
    hide MessageBits, OctetOf, XorByte;
    var k :| 0 <= k < |a| && a[k] != b[k];
    var j := ByteDiffersInABit(a[k], b[k]);
    i := 8 * k + j;
    MessageBitsIndex(XorSeq(a, b), i);
  }

  /** The checksums of two messages differ exactly when the register, fed their difference, ends nonzero. */
  lemma ChecksumsDiffer(a: seq<byte>, b: seq<byte>)
    requires |a| == |b|
    ensures Crc16(a) != Crc16(b) <==> ShiftIn(Zero(), MessageBits(XorSeq(a, b))) != Zero()
  {
    CrcLinear(INIT, INIT, a, b);
    CrcFeedsBits(Zero(), XorSeq(a, b));
    assert Xor(INIT, INIT) == Zero();
    XorIsZero(Crc16(a), Crc16(b));
    assert Zeros(16) == Zero();
  }

  /** The bytes a and b differ within sixteen consecutive bits. */
  ghost predicate DifferInBurst(a: seq<byte>, b: seq<byte>)
    requires |a| == |b|
  {
    a != b && exists k: nat :: DifferWithin(a, b, k)
  }

  ghost predicate DifferWithin(a: seq<byte>, b: seq<byte>, k: nat)
    requires |a| == |b|
  {
    forall i :: 0 <= i < 8 * |a| && MessageBits(XorSeq(a, b))[i] ==> k <= i < k + 16
  }

  lemma BurstChangesChecksum(a: seq<byte>, b: seq<byte>)
    requires |a| == |b| && DifferInBurst(a, b)
    ensures Crc16(a) != Crc16(b)
  {
    var k: nat :| DifferWithin(a, b, k);
    var j := MessagesDifferInABit(a, b);
    BurstHasChecksum(MessageBits(XorSeq(a, b)), j, k);
    ChecksumsDiffer(a, b);
  }

  /**
   * Any burst of at most sixteen bits in the header and payload, at any bit alignment and
   * outside the length field, is rejected.
   */
  lemma BurstsAreRejected(f: seq<byte>, g: seq<byte>)
    requires CDecode(f).Accepted? && |f| == MIN_SIZE + PayloadLen(f)
    requires |g| == |f| && g[8..10] == f[8..10] && g[|f| - 2..] == f[|f| - 2..]
    requires DifferInBurst(f[..|f| - 2], g[..|f| - 2])
    ensures CDecode(g).Rejected? && PyDecode(g).Rejected?
  {
    var n := |f| - 2;
    BurstChangesChecksum(f[..n], g[..n]);
    assert g[n] == g[n..][0] == f[n] && g[n + 1] == g[n..][1] == f[n + 1];
    DecodersAgree(g);
  }

  // ----- Two adjacent bytes, CRC bytes included -----

  /** w is v after one clock, bit by bit. */
  ghost predicate Clocks(v: Bits, w: Bits) {
    && |v| == |w| == 16
    && forall i :: 0 <= i < 16 ==>
         w[i] == ((if i < 15 then v[i + 1] else false) != (v[0] && (i == 3 || i == 10 || i == 15)))
  }

  lemma ShiftClocks(v: Word, n: nat)
    ensures Clocks(ShiftTimes(v, n), ShiftTimes(v, n + 1))
  {
    var x := ShiftTimes(v, n);
    forall i | 0 <= i < 16
      ensures Shift(x)[i] == ((if i < 15 then x[i + 1] else false) != (x[0] && (i == 3 || i == 10 || i == 15)))
    {
    }
  }

  /** The mask 0x89: with 0xA1 it is the one pair of adjacent changes the CRC does not see. */
  const BITS_89: Bits := [true, false, false, false, true, false, false, true]
  const BITS_A1: Bits := [true, false, true, false, false, false, false, true]

  /** Four clocks feed back the four leading bits, unchanged on their way to the top. */
  ghost predicate FourClocks(v: Bits, w: Bits) {
    && |v| == |w| == 16
    && w[0] == (v[4] != v[0]) && w[1] == (v[5] != v[1]) && w[2] == (v[6] != v[2]) && w[3] == (v[7] != v[3])
    && w[4] == v[8] && w[5] == v[9] && w[6] == v[10] && w[7] == (v[11] != v[0])
    && w[8] == (v[12] != v[1]) && w[9] == (v[13] != v[2]) && w[10] == (v[14] != v[3]) && w[11] == v[15]
    && w[12] == v[0] && w[13] == v[1] && w[14] == v[2] && w[15] == v[3]
  }

  lemma Four(v0: Bits, v1: Bits, v2: Bits, v3: Bits, v4: Bits)
    requires Clocks(v0, v1) && Clocks(v1, v2) && Clocks(v2, v3) && Clocks(v3, v4)
    ensures FourClocks(v0, v4)
  {
  }

  /** The table rows whose high byte is zero are those of 0x00 and 0x89. */
  lemma RowsWithoutHighByte(o: Bits, v4: Bits, v8: Bits)
    requires |o| == 8 && FourClocks(o + Zeros(8), v4) && FourClocks(v4, v8)
    requires v8[..8] == Zeros(8)
    ensures o == Zeros(8) || o == BITS_89
  {
    var z := v8[..8];
    assert !(z[0] || z[1] || z[2] || z[3] || z[4] || z[5] || z[6] || z[7]);
    assert o == [o[0], o[1], o[2], o[3], o[4], o[5], o[6], o[7]];
  }

  lemma RowOfZero(o: Bits, v4: Bits, v8: Bits)
    requires o == Zeros(8) && FourClocks(o + Zeros(8), v4) && FourClocks(v4, v8)
    ensures v8 == Zeros(8) + Zeros(8)
  {
    assert o + Zeros(8) == Zeros(16);
    assert v4 == Zeros(16) by { FourClocksOfZero(o + Zeros(8), v4); }
    FourClocksOfZero(v4, v8);
    assert Zeros(16) == Zeros(8) + Zeros(8);
  }

  lemma FourClocksOfZero(v: Bits, w: Bits)
    requires v == Zeros(16) && FourClocks(v, w)
    ensures w == Zeros(16)
  {
    assert forall i :: 0 <= i < 16 ==> !v[i];
    assert w == [w[0], w[1], w[2], w[3], w[4], w[5], w[6], w[7],
                 w[8], w[9], w[10], w[11], w[12], w[13], w[14], w[15]];
  }

  lemma RowOf89(o: Bits, v4: Bits, v8: Bits)
    requires o == BITS_89 && FourClocks(o + Zeros(8), v4) && FourClocks(v4, v8)
    ensures v8 == Zeros(8) + BITS_A1
  {
    assert v8 == [v8[0], v8[1], v8[2], v8[3], v8[4], v8[5], v8[6], v8[7],
                  v8[8], v8[9], v8[10], v8[11], v8[12], v8[13], v8[14], v8[15]];
  }

  lemma TableRowIsLow(o: Bits, l: Bits)
    requires |o| == |l| == 8
    ensures TableEntry(o) == Zeros(8) + l <==> (o == Zeros(8) && l == Zeros(8)) || (o == BITS_89 && l == BITS_A1)
  {
    var v := Top(o);
    ShiftClocks(v, 0);
    ShiftClocks(v, 1);
    ShiftClocks(v, 2);
    ShiftClocks(v, 3);
    ShiftClocks(v, 4);
    ShiftClocks(v, 5);
    ShiftClocks(v, 6);
    ShiftClocks(v, 7);
    TableRowByClocks(o, l, ShiftTimes(v, 0), ShiftTimes(v, 1), ShiftTimes(v, 2), ShiftTimes(v, 3),
                     ShiftTimes(v, 4), ShiftTimes(v, 5), ShiftTimes(v, 6), ShiftTimes(v, 7), ShiftTimes(v, 8));
  }

  lemma TableRowByClocks(o: Bits, l: Bits, v0: Bits, v1: Bits, v2: Bits, v3: Bits, v4: Bits,
                         v5: Bits, v6: Bits, v7: Bits, v8: Bits)
    requires |o| == |l| == 8 && v0 == o + Zeros(8)
    requires Clocks(v0, v1) && Clocks(v1, v2) && Clocks(v2, v3) && Clocks(v3, v4)
    requires Clocks(v4, v5) && Clocks(v5, v6) && Clocks(v6, v7) && Clocks(v7, v8)
    ensures v8 == Zeros(8) + l <==> (o == Zeros(8) && l == Zeros(8)) || (o == BITS_89 && l == BITS_A1)
  {
    Four(v0, v1, v2, v3, v4);
    Four(v4, v5, v6, v7, v8);
    if o == Zeros(8) {
      RowOfZero(o, v4, v8);
    } else if o == BITS_89 {
      RowOf89(o, v4, v8);
    }
    if v8 == Zeros(8) + l {
      assert v8[..8] == Zeros(8) && v8[8..] == l;
      RowsWithoutHighByte(o, v4, v8);
      assert (Zeros(8) + Zeros(8))[8..] == Zeros(8) && (Zeros(8) + BITS_A1)[8..] == BITS_A1;
    }
  }

  /** f with two adjacent bytes changed by the masks d0 and d1. */
  function Flip(f: seq<byte>, i: nat, d0: byte, d1: byte): (g: seq<byte>)
    requires i + 1 < |f|
    ensures |g| == |f|
  {
    f[i := XorByte(f[i], d0)][i + 1 := XorByte(f[i + 1], d1)]
  }

  lemma MaskIsZero(a: byte, d: byte)
    ensures XorByte(a, d) == a <==> d == 0
    ensures OctetOf(d) == Zeros(8) <==> d == 0
  {
    var x, y := OctetOf(a), OctetOf(d);
    OctetOfZero();
    if y == Zeros(8) {
      OctetInjective(d, 0);
    }
    assert y == Xor(x, Xor(x, y)) && Xor(x, x) == Zeros(8) && Xor(x, Zeros(8)) == x;
    if d == 0 {
      OctetInjective(XorByte(a, d), a);
    }
  }

  lemma OctetOfZero()
    ensures OctetOf(0) == Zeros(8)
  {
    assert BitsOf(0, 4) == Zeros(4);
    assert BitsOf(0, 8) == BitsOf(0, 4) + Zeros(4);
  }

  /** The header checks of a frame that has the length, magic, version and length field of an accepted one. */
  lemma OnlyTheCrcDecides(f: seq<byte>, g: seq<byte>)
    requires CDecode(f).Accepted? && |f| == MIN_SIZE + PayloadLen(f)
    requires |g| == |f| && g[8..10] == f[8..10]
    ensures CDecode(g).Accepted? ==> WireCrc(g[|f| - 2], g[|f| - 1]) == Crc16(g[..|f| - 2])
    ensures g[..3] == f[..3] && WireCrc(g[|f| - 2], g[|f| - 1]) == Crc16(g[..|f| - 2]) ==> CDecode(g).Accepted?
  {
    if g[..3] == f[..3] {
      assert g[0] == g[..3][0] && g[1] == g[..3][1] && g[2] == g[..3][2];
    }
  }

  lemma CoveredFlip(f: seq<byte>, i: nat, d0: byte, d1: byte, n: nat)
    requires i + 1 < n <= |f| && (d0 != 0 || d1 != 0)
    ensures Crc16(Flip(f, i, d0, d1)[..n]) != Crc16(f[..n])
  {
    var a, b := f[..n], Flip(f, i, d0, d1)[..n];
    MaskIsZero(f[i], d0);
    MaskIsZero(f[i + 1], d1);
    assert a[i] != b[i] || a[i + 1] != b[i + 1];
    forall j | 0 <= j < 8 * |a| && MessageBits(XorSeq(a, b))[j]
      ensures 8 * i <= j < 8 * i + 16
    {
      MessageBitsIndex(XorSeq(a, b), j);
      XorByteIsZero(a[j / 8], b[j / 8]);
    }
    assert DifferWithin(a, b, 8 * i);
    BurstChangesChecksum(a, b);
  }

  lemma LastByteFlip(body: seq<byte>, b: byte, d: byte)
    ensures Crc16(body + [XorByte(b, d)]) == Xor(Crc16(body + [b]), TableEntry(OctetOf(d)))
  {
    var c := Crc16(body);
    assert (body + [b])[..|body|] == body && (body + [XorByte(b, d)])[..|body|] == body;
    UpdateLinear(c, Zero(), OctetOf(b), OctetOf(d));
    assert Xor(c, Zero()) == c && Xor(Zero(), Top(OctetOf(d))) == Top(OctetOf(d));
  }

  lemma WireFlip(low: byte, high: byte, d: byte)
    ensures WireCrc(XorByte(low, d), high) == Xor(WireCrc(low, high), Zeros(8) + OctetOf(d))
  {
  }

  lemma XorSame(a: Bits, b: Bits, c: Bits)
    requires |a| == |b| == |c|
    ensures Xor(a, b) == Xor(a, c) <==> b == c
  {
    assert b == Xor(a, Xor(a, b)) && c == Xor(a, Xor(a, c));
  }

  lemma BoundaryFlip(f: seq<byte>, d0: byte, d1: byte)
    requires CDecode(f).Accepted? && |f| == MIN_SIZE + PayloadLen(f) && PayloadLen(f) > 0
    ensures var g := Flip(f, |f| - 3, d0, d1);
            WireCrc(g[|f| - 2], g[|f| - 1]) == Crc16(g[..|f| - 2])
            <==> (d0 == 0 && d1 == 0) || (d0 == 0x89 && d1 == 0xA1)
  {
    var n := |f| - 2;
    var g := Flip(f, n - 1, d0, d1);
    var body := f[..n - 1];
    assert f[..n] == body + [f[n - 1]] && g[..n] == body + [XorByte(f[n - 1], d0)];
    LastByteFlip(body, f[n - 1], d0);
    WireFlip(f[n], f[n + 1], d1);
    XorSame(Crc16(f[..n]), Zeros(8) + OctetOf(d1), TableEntry(OctetOf(d0)));
    TableRowIsLow(OctetOf(d0), OctetOf(d1));
    MaskIsZero(0, d0);
    MaskIsZero(0, d1);
    Mask89(d0);
    MaskA1(d1);
  }

  lemma Mask89(d: byte)
    ensures OctetOf(d) == BITS_89 <==> d == 0x89
  {
    assert OctetOf(0x89) == BITS_89;
    if OctetOf(d) == BITS_89 {
      OctetInjective(d, 0x89);
    }
  }

  lemma MaskA1(d: byte)
    ensures OctetOf(d) == BITS_A1 <==> d == 0xA1
  {
    assert OctetOf(0xA1) == BITS_A1;
    if OctetOf(d) == BITS_A1 {
      OctetInjective(d, 0xA1);
    }
  }

  lemma CrcFlip(f: seq<byte>, d0: byte, d1: byte)
    requires CDecode(f).Accepted? && |f| == MIN_SIZE + PayloadLen(f)
    ensures var g := Flip(f, |f| - 2, d0, d1);
            WireCrc(g[|f| - 2], g[|f| - 1]) == Crc16(g[..|f| - 2]) <==> d0 == 0 && d1 == 0
  {
    var n := |f| - 2;
    var g := Flip(f, n, d0, d1);
    assert g[..n] == f[..n];
    MaskIsZero(f[n], d0);
    MaskIsZero(f[n + 1], d1);
    CrcFieldOfWire(f[n], f[n + 1]);
    CrcFieldOfWire(g[n], g[n + 1]);
  }

  /**
   * A change confined to two adjacent bytes of a frame, outside its length field, gets through
   * in exactly one case: the last covered byte changes by 0x89 and the low CRC byte by 0xA1.
   * It exists because the CRC is computed high byte first but sent low byte first.
   */
  lemma AdjacentChangeVerdict(f: seq<byte>, i: nat, d0: byte, d1: byte)
    requires CDecode(f).Accepted? && |f| == MIN_SIZE + PayloadLen(f)
    requires i + 1 < |f| && (i + 1 < 8 || i > 9)
    ensures CDecode(Flip(f, i, d0, d1)).Accepted?
            <==> (d0 == 0 && d1 == 0) || (i == |f| - 3 && d0 == 0x89 && d1 == 0xA1)
  {
    var g := Flip(f, i, d0, d1);
    assert g[8..10] == f[8..10];
    OnlyTheCrcDecides(f, g);
    if d0 == 0 && d1 == 0 {
      MaskIsZero(f[i], 0);
      MaskIsZero(f[i + 1], 0);
      assert g == f;
    } else if i < |f| - 3 {
      CoveredFlip(f, i, d0, d1, |f| - 2);
    } else {
      assert g[..3] == f[..3];
      if i == |f| - 3 {
        BoundaryFlip(f, d0, d1);
      } else {
        CrcFlip(f, d0, d1);
      }
    }
  }
}
