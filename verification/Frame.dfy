/** The serial frame codec: a 10-byte header, up to 512 payload bytes and the CRC, low byte first. */
module Frame {
  import opened Bytes
  import opened Crc

  const MAGIC_0: byte := 0x53
  const MAGIC_1: byte := 0x44
  const VERSION: byte := 1
  const HDR_SIZE := 10
  const CRC_SIZE := 2
  const MIN_SIZE := 12
  const MAX_PAYLOAD := 512
  const MAX_SIZE := 524

  const STATUS_OK: byte := 0x00
  const ERR_NOT_FOUND: byte := 0x01
  const ERR_ACCESS: byte := 0x02
  const ERR_BAD_HANDLE: byte := 0x03
  const ERR_EXISTS: byte := 0x04
  const ERR_IO: byte := 0x05
  const ERR_CRC: byte := 0x06
  const ERR_UNSUPPORTED: byte := 0x08
  const ERR_BAD_PATH: byte := 0x09
  const ERR_PROTOCOL: byte := 0x0A

  const FLAG_NONE: byte := 0x00

  const CMD_PING: byte := 0x01
  const CMD_GET_INFO: byte := 0x02
  const CMD_LIST_DIR: byte := 0x10
  const CMD_LIST_DIR_NEXT: byte := 0x11
  const CMD_OPEN: byte := 0x20
  const CMD_CREATE: byte := 0x21
  const CMD_READ: byte := 0x22
  const CMD_WRITE: byte := 0x23
  const CMD_SEEK: byte := 0x24
  const CMD_CLOSE: byte := 0x25
  const CMD_DELETE: byte := 0x30
  const CMD_RENAME: byte := 0x31
  const CMD_MKDIR: byte := 0x32
  const CMD_RMDIR: byte := 0x33
  const CMD_GET_ATTR: byte := 0x40
  const CMD_SET_ATTR: byte := 0x41
  const CMD_GET_TIME: byte := 0x42
  const CMD_SET_TIME: byte := 0x43
  const CMD_FLUSH: byte := 0x50

  datatype FrameError = ShortFrame | BadMagic | BadVersion | PayloadTooLong | BadCrc

  datatype Decoded =
    | Accepted(cmd: byte, seqNo: byte, flags: byte, status: byte, payload: seq<byte>)
    | Rejected(error: FrameError)

  // ----- Encoding -----

  function Header(cmd: byte, seqNo: byte, flags: byte, status: byte, plen: int): (h: seq<byte>)
    requires 0 <= plen <= MAX_PAYLOAD
    ensures |h| == HDR_SIZE
  {
    [MAGIC_0, MAGIC_1, VERSION, flags, seqNo, cmd, status, 0] + U16(plen)
  }

  /** The CRC as it goes out, low byte first. */
  function CrcField(crc: Word): (f: seq<byte>)
    ensures |f| == CRC_SIZE
  {
    [ByteOf(crc[8..]), ByteOf(crc[..8])]
  }

  function WireCrc(low: byte, high: byte): Word {
    OctetOf(high) + OctetOf(low)
  }

  function Seal(body: seq<byte>): seq<byte> {
    body + CrcField(Crc16(body))
  }

  function Encode(cmd: byte, seqNo: byte, flags: byte, status: byte, payload: seq<byte>): (f: seq<byte>)
    requires |payload| <= MAX_PAYLOAD
    ensures |f| == MIN_SIZE + |payload|
  {
    Seal(Header(cmd, seqNo, flags, status, |payload|) + payload)
  }

  /** frame_encode: fills out[] in place and returns the frame length, or 0 for an oversized payload. */
  method FrameEncode(table: array<Word>, cmd: byte, seqNo: byte, flags: byte, status: byte,
                     payload: seq<byte>, out: array<byte>)
    returns (n: nat)
    requires IsTable(table[..]) && out.Length >= MAX_SIZE
    modifies out
    ensures |payload| > MAX_PAYLOAD ==> n == 0 && out[..] == old(out[..])
    ensures |payload| <= MAX_PAYLOAD ==>
              && n == MIN_SIZE + |payload|
              && out[..n] == Encode(cmd, seqNo, flags, status, payload)
              && out[n..] == old(out[n..])
  {
    if |payload| > MAX_PAYLOAD {
      return 0;
    }
    hide Header, CrcField, Crc16, IsTable;
    var plen := |payload|;
    ghost var was, header := out[..], Header(cmd, seqNo, flags, status, plen);
    PutHeader(cmd, seqNo, flags, status, plen, out);
    CopyBytes(out, HDR_SIZE, payload);
    ghost var now := out[..];
    BodyInPlace(was, header, payload, now);
    assert out[..HDR_SIZE + plen] == now[..HDR_SIZE + plen];
    var crc := Crc16Block(table, out[..HDR_SIZE + plen]);
    PutCrc(crc, HDR_SIZE + plen, out);
    CrcInPlace(now, HDR_SIZE + plen, CrcField(crc), out[..]);
    n := HDR_SIZE + plen + CRC_SIZE;
    assert out[..n] == out[..][..n] && out[n..] == out[..][n..];
  }

  /** The header over the start of a buffer, and the payload behind it. */
  lemma BodyInPlace(was: seq<byte>, header: seq<byte>, payload: seq<byte>, now: seq<byte>)
    requires |header| == HDR_SIZE && |was| >= HDR_SIZE + |payload|
    requires now == (header + was[HDR_SIZE..])[..HDR_SIZE] + payload
                    + (header + was[HDR_SIZE..])[HDR_SIZE + |payload|..]
    ensures now[..HDR_SIZE + |payload|] == header + payload
    ensures now[HDR_SIZE + |payload|..] == was[HDR_SIZE + |payload|..]
  {
  }

  lemma CrcInPlace(now: seq<byte>, at: nat, field: seq<byte>, end: seq<byte>)
    requires |field| == CRC_SIZE && at + CRC_SIZE <= |now|
    requires end == now[..at] + field + now[at + CRC_SIZE..]
    ensures end[..at + CRC_SIZE] == now[..at] + field
    ensures end[at + CRC_SIZE..] == now[at..][CRC_SIZE..]
  {
  }

  method PutHeader(cmd: byte, seqNo: byte, flags: byte, status: byte, plen: int, out: array<byte>)
    requires 0 <= plen <= MAX_PAYLOAD && out.Length >= MAX_SIZE
    modifies out
    ensures out[..] == Header(cmd, seqNo, flags, status, plen) + old(out[HDR_SIZE..])
  {
    out[0], out[1], out[2], out[3] := MAGIC_0, MAGIC_1, VERSION, flags;
    out[4], out[5], out[6], out[7] := seqNo, cmd, status, 0;
    out[8], out[9] := plen % 256, plen / 256;
    assert out[..HDR_SIZE] == Header(cmd, seqNo, flags, status, plen);
    assert out[HDR_SIZE..] == old(out[HDR_SIZE..]);
  }

  method PutCrc(crc: Word, at: nat, out: array<byte>)
    requires at + CRC_SIZE <= out.Length
    modifies out
    ensures out[..] == old(out[..at]) + CrcField(crc) + old(out[at + CRC_SIZE..])
  {
    out[at] := ByteOf(crc[8..]);
    out[at + 1] := ByteOf(crc[..8]);
  }

  // ----- Decoding, once as the C side orders its checks and once as the Python side does -----

  function CDecode(buf: seq<byte>): Decoded {
    if |buf| < HDR_SIZE then Rejected(ShortFrame)
    else if buf[0] != MAGIC_0 || buf[1] != MAGIC_1 then Rejected(BadMagic)
    else if buf[2] != VERSION then Rejected(BadVersion)
    else
      var plen := FromU16(buf[8..10]);
      if plen > MAX_PAYLOAD then Rejected(PayloadTooLong)
      else if |buf| < HDR_SIZE + plen + CRC_SIZE then Rejected(ShortFrame)
      else if WireCrc(buf[HDR_SIZE + plen], buf[HDR_SIZE + plen + 1]) != Crc16(buf[..HDR_SIZE + plen])
      then Rejected(BadCrc)
      else Accepted(buf[5], buf[4], buf[3], buf[6], buf[HDR_SIZE..HDR_SIZE + plen])
  }

  function PyDecode(buf: seq<byte>): Decoded {
    if |buf| < MIN_SIZE then Rejected(ShortFrame)
    else if buf[..2] != [MAGIC_0, MAGIC_1] then Rejected(BadMagic)
    else if buf[2] != VERSION then Rejected(BadVersion)
    else
      var plen := FromU16(buf[8..10]);
      if plen > MAX_PAYLOAD then Rejected(PayloadTooLong)
      else
        var total := HDR_SIZE + plen + CRC_SIZE;
        if |buf| < total then Rejected(ShortFrame)
        else if WireCrc(buf[total - 2], buf[total - 1]) != Crc16(buf[..HDR_SIZE + plen]) then Rejected(BadCrc)
        else Accepted(buf[5], buf[4], buf[3], buf[6], buf[HDR_SIZE..HDR_SIZE + plen])
  }

  /** frame_decode: reads buf[..len] and reports the header fields and where the payload lies. */
  method FrameDecode(table: array<Word>, buf: array<byte>, len: nat) returns (r: Decoded)
    requires IsTable(table[..]) && len <= buf.Length
    ensures r == CDecode(buf[..len])
  {
    if len < HDR_SIZE { return Rejected(ShortFrame); }
    if buf[0] != MAGIC_0 || buf[1] != MAGIC_1 { return Rejected(BadMagic); }
    if buf[2] != VERSION { return Rejected(BadVersion); }
    assert buf[..len][8..10] == [buf[8], buf[9]];
    var plen := FromU16([buf[8], buf[9]]);
    if plen > MAX_PAYLOAD { return Rejected(PayloadTooLong); }
    if len < HDR_SIZE + plen + CRC_SIZE { return Rejected(ShortFrame); }
    var wire := WireCrc(buf[HDR_SIZE + plen], buf[HDR_SIZE + plen + 1]);
    assert buf[..len][..HDR_SIZE + plen] == buf[..HDR_SIZE + plen];
    var computed := Crc16Block(table, buf[..HDR_SIZE + plen]);
    if wire != computed { return Rejected(BadCrc); }
    assert buf[..len][HDR_SIZE..HDR_SIZE + plen] == buf[HDR_SIZE..HDR_SIZE + plen];
    return Accepted(buf[5], buf[4], buf[3], buf[6], buf[HDR_SIZE..HDR_SIZE + plen]);
  }

  // ----- What the codec promises -----

  /** The two decoders differ on exactly the 10- and 11-byte inputs whose header already shows a fault. */
  lemma DecodersAgree(buf: seq<byte>)
    ensures CDecode(buf) == PyDecode(buf) <==>
            !(HDR_SIZE <= |buf| < MIN_SIZE
              && (buf[..3] != [MAGIC_0, MAGIC_1, VERSION] || FromU16(buf[8..10]) > MAX_PAYLOAD))
    ensures CDecode(buf).Accepted? || PyDecode(buf).Accepted? ==> CDecode(buf) == PyDecode(buf)
  {
    if |buf| >= 3 {
      assert buf[..2] == [MAGIC_0, MAGIC_1] <==> buf[0] == MAGIC_0 && buf[1] == MAGIC_1;
      assert buf[..3] == [MAGIC_0, MAGIC_1, VERSION]
        <==> buf[0] == MAGIC_0 && buf[1] == MAGIC_1 && buf[2] == VERSION;
    }
  }

  lemma CrcFieldIsWireCrc(crc: Word)
    ensures WireCrc(CrcField(crc)[0], CrcField(crc)[1]) == crc
  {
  }

  /** Decoding undoes encoding, whatever follows the frame in the buffer. */
  lemma DecodeUndoesEncode(cmd: byte, seqNo: byte, flags: byte, status: byte, payload: seq<byte>, rest: seq<byte>)
    requires |payload| <= MAX_PAYLOAD
    ensures CDecode(Encode(cmd, seqNo, flags, status, payload) + rest) == Accepted(cmd, seqNo, flags, status, payload)
    ensures PyDecode(Encode(cmd, seqNo, flags, status, payload) + rest) == Accepted(cmd, seqNo, flags, status, payload)
  {
    var plen := |payload|;
    var body := Header(cmd, seqNo, flags, status, plen) + payload;
    var buf := Seal(body) + rest;
    assert buf[8..10] == U16(plen);
    U16RoundTrip(plen);
    assert buf[..HDR_SIZE + plen] == body;
    assert buf[HDR_SIZE..HDR_SIZE + plen] == payload;
    CrcFieldIsWireCrc(Crc16(body));
    DecodersAgree(buf);
  }

  function PayloadLen(buf: seq<byte>): int
    requires |buf| >= HDR_SIZE
  {
    FromU16(buf[8..10])
  }

  lemma CrcFieldOfWire(low: byte, high: byte)
    ensures CrcField(WireCrc(low, high)) == [low, high]
  {
    var crc := WireCrc(low, high);
    assert crc[8..] == OctetOf(low) && crc[..8] == OctetOf(high);
    OctetInjective(ByteOf(crc[8..]), low);
    OctetInjective(ByteOf(crc[..8]), high);
  }

  /**
   * Encoding the fields of an accepted frame gives that frame back exactly when its reserved
   * byte is zero; the receiver ignores that byte, but the CRC covers it.
   */
  lemma EncodeUndoesDecode(buf: seq<byte>)
    requires CDecode(buf).Accepted?
    ensures var d := CDecode(buf);
            && |d.payload| == PayloadLen(buf) <= MAX_PAYLOAD
            && MIN_SIZE + |d.payload| <= |buf|
            && (Encode(d.cmd, d.seqNo, d.flags, d.status, d.payload) == buf[..MIN_SIZE + |d.payload|] <==> buf[7] == 0)
  {
    var d := CDecode(buf);
    var plen := |d.payload|;
    var body := Header(d.cmd, d.seqNo, d.flags, d.status, plen) + d.payload;
    assert Seal(body)[7] == 0;
    if buf[7] == 0 {
      assert U16(plen) == buf[8..10];
      assert body == buf[..HDR_SIZE + plen];
      CrcFieldOfWire(buf[HDR_SIZE + plen], buf[HDR_SIZE + plen + 1]);
    }
  }
}
