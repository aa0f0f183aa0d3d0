/** Cutting a byte stream into frames: frame.read_frame, and the resynchronising reader of the daemon. */
module Streams {
  import opened Bytes
  import opened Frame

  datatype ReadResult = Raw(frame: seq<byte>) | ReadError(error: FrameError)

  // ----- frame.read_frame -----

  /** A blocking source that hands out its bytes in chunks whose sizes nobody controls. */
  class ChunkSource {
    var rest: seq<byte>
    var sizes: seq<nat>

    constructor (bytes: seq<byte>, sizes: seq<nat>)
      ensures rest == bytes && this.sizes == sizes
    {
      this.rest, this.sizes := bytes, sizes;
    }

    /** One to n bytes, or none once the bytes that arrive before the timeout are used up. */
    method Read(n: nat) returns (chunk: seq<byte>)
      requires n > 0
      modifies this
      ensures old(rest) == chunk + rest && |chunk| <= n
      ensures chunk == [] <==> old(rest) == []
    {
      var k := n;
      if sizes != [] {
        if 0 < sizes[0] < n { k := sizes[0]; }
        sizes := sizes[1..];
      }
      if |rest| < k { k := |rest|; }
      chunk, rest := rest[..k], rest[k..];
    }
  }

  /** The outcome of reading one frame off a stream, and what is left of the stream. */
  function FirstFrame(s: seq<byte>): (ReadResult, seq<byte>) {
    if |s| < HDR_SIZE then (ReadError(ShortFrame), [])
    else
      var plen := PayloadLen(s);
      if plen > MAX_PAYLOAD then (ReadError(PayloadTooLong), s[HDR_SIZE..])
      else if |s| < MIN_SIZE + plen then (ReadError(ShortFrame), [])
      else (Raw(s[..MIN_SIZE + plen]), s[MIN_SIZE + plen..])
  }

  /** The loop read_frame runs twice: extend buf to n bytes, or report that the source ran dry. */
  method Extend(src: ChunkSource, buf: seq<byte>, n: nat) returns (r: seq<byte>, ok: bool)
    requires |buf| <= n
    modifies src
    ensures r + src.rest == buf + old(src.rest)
    ensures ok == (|buf| + |old(src.rest)| >= n)
    ensures if ok then |r| == n else src.rest == []
  {
    r := buf;
    while |r| < n
      invariant r + src.rest == buf + old(src.rest) && |r| <= n
      decreases n - |r|
    {
      var chunk := src.Read(n - |r|);
      if chunk == [] { return r, false; }
      r := r + chunk;
    }
    return r, true;
  }

  /** However the stream is chunked, exactly the first frame is read and nothing past it is consumed. */
  method ReadFrame(src: ChunkSource) returns (r: ReadResult)
    modifies src
    ensures (r, src.rest) == FirstFrame(old(src.rest))
  {
    ghost var stream := src.rest;
    var buf, ok := Extend(src, [], HDR_SIZE);
    if !ok { return ReadError(ShortFrame); }
    assert stream == buf + src.rest;
    assert stream[8..10] == buf[8..10];
    var plen := FromU16(buf[8..10]);
    if plen > MAX_PAYLOAD { return ReadError(PayloadTooLong); }
    buf, ok := Extend(src, buf, HDR_SIZE + plen + CRC_SIZE);
    assert stream == buf + src.rest;
    if !ok { return ReadError(ShortFrame); }
    return Raw(buf);
  }

  // ----- A stream of frames is cut where its frames end -----

  ghost predicate WholeFrame(f: seq<byte>) {
    |f| >= MIN_SIZE && PayloadLen(f) <= MAX_PAYLOAD && |f| == MIN_SIZE + PayloadLen(f)
  }

  function Concat(fs: seq<seq<byte>>): seq<byte> {
    if fs == [] then [] else fs[0] + Concat(fs[1..])
  }

  /** The frames read off a stream until the first error. */
  function ReadAll(s: seq<byte>): seq<seq<byte>>
    decreases |s|
  {
    var (r, rest) := FirstFrame(s);
    match r
    case ReadError(_) => []
    case Raw(f) => [f] + ReadAll(rest)
  }

  lemma {:induction false} FramesComeBack(fs: seq<seq<byte>>)
    requires forall f :: f in fs ==> WholeFrame(f)
    ensures ReadAll(Concat(fs)) == fs
  {
    if fs != [] {
      var s := Concat(fs);
      assert fs[0] in fs && s == fs[0] + Concat(fs[1..]);
      assert s[8..10] == fs[0][8..10];
      assert s[..|fs[0]|] == fs[0] && s[|fs[0]|..] == Concat(fs[1..]);
      FramesComeBack(fs[1..]);
    }
  }

  lemma EncodedFramesAreWhole(cmd: byte, seqNo: byte, flags: byte, status: byte, payload: seq<byte>)
    requires |payload| <= MAX_PAYLOAD
    ensures WholeFrame(Encode(cmd, seqNo, flags, status, payload))
  {
    var f := Encode(cmd, seqNo, flags, status, payload);
    assert f[8..10] == U16(|payload|);
    U16RoundTrip(|payload|);
  }

  // ----- SerialTransport.read_frame -----

  const RESYNC_MAX := 4096

  /** The serial port: a read waits for n bytes or for the timeout, whichever is first. */
  class SerialPort {
    var rest: seq<byte>

    constructor (bytes: seq<byte>)
      ensures rest == bytes
    {
      rest := bytes;
    }

    method Read(n: nat) returns (chunk: seq<byte>)
      modifies this
      ensures old(rest) == chunk + rest
      ensures |chunk| == if |old(rest)| < n then |old(rest)| else n
    {
      var k := if |rest| < n then |rest| else n;
      chunk, rest := rest[..k], rest[k..];
    }
  }

  datatype Scan = Locked(rest: seq<byte>) | GaveUp(rest: seq<byte>)

  /** The scan for 'S','D'; a second 'S' is consumed with the first instead of being looked at again. */
  function ScanMagic(s: seq<byte>, discarded: nat): Scan
    decreases |s|
  {
    if s == [] then GaveUp([])
    else if s[0] != MAGIC_0 then
      if discarded + 1 >= RESYNC_MAX then GaveUp(s[1..]) else ScanMagic(s[1..], discarded + 1)
    else if |s| == 1 then GaveUp([])
    else if s[1] == MAGIC_1 then Locked(s[2..])
    else ScanMagic(s[2..], discarded + 1)
  }

  /** The length-driven read behind the magic. */
  function AfterMagic(rest: seq<byte>): (ReadResult, seq<byte>) {
    if |rest| < HDR_SIZE - 2 then (ReadError(ShortFrame), [])
    else
      var plen := FromU16(rest[6..8]);
      if plen > MAX_PAYLOAD then (ReadError(ShortFrame), rest[HDR_SIZE - 2..])
      else if |rest| < HDR_SIZE + plen then (ReadError(ShortFrame), [])
      else (Raw([MAGIC_0, MAGIC_1] + rest[..HDR_SIZE + plen]), rest[HDR_SIZE + plen..])
  }

  /** What read_frame returns and leaves, for every stream. */
  function Resynced(s: seq<byte>): (ReadResult, seq<byte>) {
    match ScanMagic(s, 0)
    case GaveUp(rest) => (ReadError(ShortFrame), rest)
    case Locked(rest) => AfterMagic(rest)
  }

  /** The resynchronising loop; true once the magic has been consumed. */
  method SeekMagic(ser: SerialPort) returns (locked: bool)
    modifies ser
    ensures ScanMagic(old(ser.rest), 0) == if locked then Locked(ser.rest) else GaveUp(ser.rest)
  {
    var discarded := 0;
    while true
      invariant ScanMagic(ser.rest, discarded) == ScanMagic(old(ser.rest), 0)
      decreases |ser.rest|
    {
      ghost var s := ser.rest;
      var b0 := ser.Read(1);
      if b0 == [] { return false; }
      if b0[0] != MAGIC_0 {
        assert ser.rest == s[1..];
        discarded := discarded + 1;
        if discarded >= RESYNC_MAX { return false; }
        continue;
      }
      var b1 := ser.Read(1);
      if b1 == [] { return false; }
      assert s == b0 + b1 + ser.rest && ser.rest == s[2..];
      if b1[0] == MAGIC_1 { return true; }
      discarded := discarded + 1;
    }
  }

  method TransportReadFrame(ser: SerialPort) returns (r: ReadResult)
    modifies ser
    ensures (r, ser.rest) == Resynced(old(ser.rest))
  {
    var found := SeekMagic(ser);
    if !found { return ReadError(ShortFrame); }
    ghost var locked := ser.rest;
    var restHdr := ser.Read(HDR_SIZE - 2);
    if |restHdr| < HDR_SIZE - 2 { return ReadError(ShortFrame); }
    var hdr := [MAGIC_0, MAGIC_1] + restHdr;
    assert hdr[8..10] == locked[6..8];
    var plen := FromU16(hdr[8..10]);
    assert ser.rest == locked[8..];
    if plen > MAX_PAYLOAD { return ReadError(ShortFrame); }
    var tail := ser.Read(plen + CRC_SIZE);
    if |tail| < plen + CRC_SIZE { return ReadError(ShortFrame); }
    assert locked == restHdr + tail + ser.rest;
    assert locked[..10 + plen] == restHdr + tail && locked[10 + plen..] == ser.rest;
    assert hdr + tail == [MAGIC_0, MAGIC_1] + (restHdr + tail);
    return Raw(hdr + tail);
  }

  // ----- When garbage in front of a frame is skipped -----

  ghost predicate NoMagic(g: seq<byte>) {
    forall i :: 0 <= i && i + 1 < |g| && g[i] == MAGIC_0 ==> g[i + 1] != MAGIC_1
  }

  /** The number of 'S' bytes at the very end. */
  function TrailingS(g: seq<byte>): nat {
    if g == [] || g[|g| - 1] != MAGIC_0 then 0 else 1 + TrailingS(g[..|g| - 1])
  }

  lemma {:induction false} TrailingBounds(g: seq<byte>)
    ensures TrailingS(g) <= |g|
    ensures g != [] && g[0] != MAGIC_0 ==> TrailingS(g) < |g|
  {
    if g != [] && g[|g| - 1] == MAGIC_0 {
      TrailingBounds(g[..|g| - 1]);
    }
  }

  /** Dropping the first bytes leaves the trailing run alone unless the run reaches into them. */
  lemma {:induction false} TrailingAfterDrop(g: seq<byte>, k: nat)
    requires k <= |g|
    ensures TrailingS(g[k..]) == if TrailingS(g) <= |g| - k then TrailingS(g) else |g| - k
  {
    TrailingBounds(g);
    if k < |g| && g[|g| - 1] == MAGIC_0 {
      var n := |g| - 1;
      assert g[k..][..n - k] == g[..n][k..];
      TrailingAfterDrop(g[..n], k);
    }
  }

  lemma {:induction false} LockingConsumesTwo(s: seq<byte>, discarded: nat)
    ensures ScanMagic(s, discarded).Locked? ==> |ScanMagic(s, discarded).rest| + 2 <= |s|
    decreases |s|
  {
    if s != [] {
      if s[0] != MAGIC_0 {
        LockingConsumesTwo(s[1..], discarded + 1);
      } else if |s| > 1 {
        LockingConsumesTwo(s[2..], discarded + 1);
      }
    }
  }

  lemma {:induction false} ScanSkips(g: seq<byte>, t: seq<byte>, discarded: nat)
    requires NoMagic(g) && discarded + |g| < RESYNC_MAX
    requires |t| >= 2 && t[0] == MAGIC_0 && t[1] == MAGIC_1
    ensures ScanMagic(g + t, discarded) == Locked(t[2..]) <==> TrailingS(g) % 2 == 0
    decreases |g|
  {
    var s := g + t;
    if g == [] {
      assert s == t;
    } else if g[0] != MAGIC_0 {
      assert s[1..] == g[1..] + t;
      TrailingAfterDrop(g, 1);
      TrailingBounds(g);
      ScanSkips(g[1..], t, discarded + 1);
    } else if |g| == 1 {
      assert TrailingS(g) == 1 by { assert g[..0] == []; }
      assert s[2..] == t[1..];
      LockingConsumesTwo(t[1..], discarded + 1);
    } else {
      assert s[2..] == g[2..] + t;
      TrailingAfterDrop(g, 2);
      SecondOfPair(g);
      ScanSkips(g[2..], t, discarded + 1);
    }
  }

  lemma SecondOfPair(g: seq<byte>)
    requires |g| >= 2 && g[0] == MAGIC_0
    ensures TrailingS(g) <= |g| - 2 || TrailingS(g) == |g|
  {
    TrailingBounds(g[1..]);
    TrailingAfterDrop(g, 1);
    TrailingBounds(g);
    if TrailingS(g) == |g| - 1 {
      AllS(g, 1);
    }
  }

  /** A run that covers all but the first k bytes, when those are 'S' too, covers them as well. */
  lemma {:induction false} AllS(g: seq<byte>, k: nat)
    requires |g| > k && TrailingS(g) >= |g| - k && k == 1 && g[0] == MAGIC_0
    ensures TrailingS(g) == |g|
  {
    var n := |g| - 1;
    if n > 1 {
      AllS(g[..n], k);
    } else {
      assert g[..1][..0] == [] && g[..1][0] == MAGIC_0;
      assert TrailingS(g[..1]) == 1;
    }
  }

  /**
   * The daemon finds a frame behind fewer than 4096 bytes of garbage without 'S','D' exactly when
   * the garbage ends in an even number of 'S' bytes; an odd one swallows the frame's own 'S'.
   */
  lemma GarbageIsSkippedIffTrailingRunIsEven(g: seq<byte>, f: seq<byte>, rest: seq<byte>)
    requires NoMagic(g) && |g| < RESYNC_MAX
    requires WholeFrame(f) && f[0] == MAGIC_0 && f[1] == MAGIC_1
    ensures Resynced(g + f + rest) == (Raw(f), rest) <==> TrailingS(g) % 2 == 0
  {
    var t := f + rest;
    assert g + f + rest == g + t;
    ScanSkips(g, t, 0);
    var scan := ScanMagic(g + t, 0);
    if scan.Locked? {
      AfterMagicReads(f, rest, scan.rest);
    }
  }

  lemma AfterMagicReads(f: seq<byte>, rest: seq<byte>, locked: seq<byte>)
    requires WholeFrame(f) && f[0] == MAGIC_0 && f[1] == MAGIC_1
    ensures AfterMagic(locked) == (Raw(f), rest) <==> locked == (f + rest)[2..]
  {
    assert (f + rest)[2..] == f[2..] + rest;
    assert f == [MAGIC_0, MAGIC_1] + f[2..];
    if locked == f[2..] + rest {
      assert locked[6..8] == f[8..10];
      assert locked[..|f| - 2] == f[2..] && locked[|f| - 2..] == rest;
    }
  }

  // ----- When the scan gives up -----

  lemma {:induction false} ScanGivesUp(g: seq<byte>, rest: seq<byte>, discarded: nat)
    requires MAGIC_0 !in g && g != [] && discarded + |g| == RESYNC_MAX
    ensures ScanMagic(g + rest, discarded) == GaveUp(rest)
    decreases |g|
  {
    var s := g + rest;
    assert s[0] == g[0] && g[0] in g;
    assert s[1..] == g[1..] + rest;
    if |g| > 1 {
      forall b | b in g[1..] ensures b in g { }
      ScanGivesUp(g[1..], rest, discarded + 1);
    } else {
      assert g[1..] + rest == rest;
    }
  }

  /** 4096 bytes without an 'S' are dropped, and nothing behind them: the next read starts there. */
  lemma LongGarbageIsDropped(g: seq<byte>, rest: seq<byte>)
    requires MAGIC_0 !in g && |g| == RESYNC_MAX
    ensures Resynced(g + rest) == (ReadError(ShortFrame), rest)
  {
    ScanGivesUp(g, rest, 0);
    hide ScanMagic;
  }

  /** A header that announces more than 512 bytes is dropped, and nothing behind it: the scan goes on there. */
  lemma OversizedHeaderIsDropped(h: seq<byte>, rest: seq<byte>)
    requires |h| == HDR_SIZE && h[0] == MAGIC_0 && h[1] == MAGIC_1 && FromU16(h[8..10]) > MAX_PAYLOAD
    ensures Resynced(h + rest) == (ReadError(ShortFrame), rest)
  {
    var s, behind := h + rest, h[2..] + rest;
    assert s[2..] == behind;
    assert ScanMagic(s, 0) == Locked(behind);
    hide FromU16, ScanMagic;
    assert behind[6..8] == h[8..10] by { assert behind[6] == h[8] && behind[7] == h[9]; }
    assert behind[HDR_SIZE - 2..] == rest;
  }
}
