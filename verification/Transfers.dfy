/** What READ and WRITE requests do to an open file, however often the line makes the daemon execute them. */
module Transfers {
  import opened Bytes
  import opened Options
  import opened Frame
  import opened Os
  import opened Files
  import opened Handles
  import opened FsOps
  import opened ServerRuns
  import opened Rpc

  // ----- Reading -----

  /** The contents behind a handle that can be read. */
  function FileData(s: Server, hid: byte): Option<seq<byte>> {
    var h := GetFile(s.slots, hid);
    if h.None? || !IsOpen(s.os, h.value.fd) || s.os.fds[h.value.fd].writable then None
    else Some(Contents(s.os, h.value.fd))
  }

  /** A READ of more bytes than a reply holds brings as many as it holds. */
  function Limited(count: nat): nat { if count <= MAX_PAYLOAD then count else MAX_PAYLOAD }

  function ReadRequest(hid: byte, count: int, offset: int): (p: seq<byte>)
    requires 0 <= count < U16_LIMIT && 0 <= offset < U32_LIMIT
    ensures |p| == 7
  {
    [hid] + U16(count) + U32(offset)
  }

  function ReadError(s: Server, hid: byte): byte {
    if GetFile(s.slots, hid).None? then ERR_BAD_HANDLE else ERR_IO
  }

  lemma ReadAnswer(s: Server, hid: byte, count: int, offset: int)
    requires 0 <= count < U16_LIMIT && 0 <= offset < U32_LIMIT
    ensures Read(s, ReadRequest(hid, count, offset))
            == (s, if FileData(s, hid).None? then Reply(ReadError(s, hid), [])
                   else Reply(STATUS_OK, ReadAt(FileData(s, hid).value, offset, Limited(count))))
  {
    var p := ReadRequest(hid, count, offset);
    assert p[1..3] == U16(count) && p[3..7] == U32(offset);
    U16RoundTrip(count);
    U32RoundTrip(offset);
    hide U16, U32, FromU16, FromU32, ReadAt;
  }

  /** The explicit-offset READ moves nothing: executed any number of times, it gives the same bytes each time. */
  lemma {:induction false} ReadsAreIdempotent(s: Server, hid: byte, count: int, offset: int, n: nat)
    requires 0 <= count < U16_LIMIT && 0 <= offset < U32_LIMIT
    ensures After(s, CMD_READ, ReadRequest(hid, count, offset), n) == s
    ensures ResultOf(s, CMD_READ, ReadRequest(hid, count, offset), n + 1)
            == if FileData(s, hid).None? then Reply(ReadError(s, hid), [])
               else Reply(STATUS_OK, ReadAt(FileData(s, hid).value, offset, Limited(count)))
  {
    hide Read, ReadAt, FileData, ReadRequest;
    ReadAnswer(s, hid, count, offset);
    if n > 0 {
      ReadsAreIdempotent(s, hid, count, offset, n - 1);
    }
  }

  /** Consecutive reads join up until one comes back short. */
  lemma ReadsJoin(c: seq<byte>, pos: nat, a: nat, b: nat)
    ensures |ReadAt(c, pos, a)| == a ==> ReadAt(c, pos, a + b) == ReadAt(c, pos, a) + ReadAt(c, pos + a, b)
    ensures |ReadAt(c, pos, a)| < a ==> ReadAt(c, pos, a + b) == ReadAt(c, pos, a)
  {
  }

  /** The position-tracked form of READ. */
  function TrackedRequest(hid: byte, count: int): (p: seq<byte>)
    requires 0 <= count < U16_LIMIT
    ensures |p| == 3
  {
    [hid] + U16(count)
  }

  lemma TrackedIsReadOn(s: Server, hid: byte, count: int)
    requires 0 <= count < U16_LIMIT && GetFile(s.slots, hid).Some?
    ensures Read(s, TrackedRequest(hid, count)) == ReadOn(s, hid, Limited(count))
  {
    assert TrackedRequest(hid, count)[1..3] == U16(count);
    U16RoundTrip(count);
    hide U16, FromU16, ReadOn;
  }

  lemma ReadOnAnswer(s: Server, hid: byte, n: nat)
    requires FileData(s, hid).Some?
    requires s.os.fds[GetFile(s.slots, hid).value.fd].pos == GetFile(s.slots, hid).value.offset
    ensures var (s', r) := ReadOn(s, hid, n);
            var at := GetFile(s.slots, hid).value.offset;
            && r == Reply(STATUS_OK, ReadAt(FileData(s, hid).value, at, n))
            && FileData(s', hid) == FileData(s, hid)
            && GetFile(s'.slots, hid) == Some(GetFile(s.slots, hid).value.(offset := at + |r.data|))
  {
    hide ReadAt;
  }

  /** A position-tracked READ sends the bytes from the shadow offset on, and moves it behind them. */
  lemma TrackedReadAnswer(s: Server, hid: byte, count: int)
    requires Good(s) && 0 <= count < U16_LIMIT && FileData(s, hid).Some?
    ensures GetFile(s.slots, hid).Some?
    ensures var (s', r) := Read(s, TrackedRequest(hid, count));
            var at := GetFile(s.slots, hid).value.offset;
            && r == Reply(STATUS_OK, ReadAt(FileData(s, hid).value, at, Limited(count)))
            && FileData(s', hid) == FileData(s, hid) && Good(s')
            && GetFile(s'.slots, hid) == Some(GetFile(s.slots, hid).value.(offset := at + |r.data|))
  {
    hide Good, ReadAt, Read, ReadOn, Balanced, TrackedRequest, FileData, IsOpen;
    FileIsOpen(s, hid);
    FileIsInStep(s, hid);
    ReadKeeps(s, TrackedRequest(hid, count));
    TrackedIsReadOn(s, hid, count);
    ReadOnAnswer(s, hid, Limited(count));
  }

  /**
   * Position-tracked READs each start where the one before ended: two of them are one longer READ, so a
   * repeated one skips what the lost reply held.
   */
  lemma TrackedReadsAdvance(s: Server, hid: byte, a: nat, b: nat)
    requires Good(s) && FileData(s, hid).Some? && a + b <= MAX_PAYLOAD
    ensures var (s1, r1) := Read(s, TrackedRequest(hid, a));
            |r1.data| == a ==>
              r1.data + Read(s1, TrackedRequest(hid, b)).1.data == Read(s, TrackedRequest(hid, a + b)).1.data
  {
    hide Good, ReadAt, Read, FileData, TrackedRequest;
    TrackedReadAnswer(s, hid, a);
    TrackedReadAnswer(s, hid, a + b);
    TrackedReadAnswer(Read(s, TrackedRequest(hid, a)).0, hid, b);
    ReadsJoin(FileData(s, hid).value, GetFile(s.slots, hid).value.offset, a, b);
  }

  // ----- Seeking -----

  function SeekRequest(hid: byte, whence: byte, k: int): (p: seq<byte>)
    requires -0x8000_0000 <= k < 0x8000_0000
    ensures |p| == 6
  {
    [hid, whence] + I32(k)
  }

  /** What SEEK counts from: the start of the file, the shadow offset, or the end. */
  function SeekFrom(s: Server, hid: byte, whence: byte): nat
    requires GetFile(s.slots, hid).Some? && IsOpen(s.os, GetFile(s.slots, hid).value.fd)
  {
    match whence
    case 0 => 0
    case 1 => GetFile(s.slots, hid).value.offset
    case _ => |Contents(s.os, GetFile(s.slots, hid).value.fd)|
  }

  lemma SeekFields(hid: byte, whence: byte, k: int)
    requires -0x8000_0000 <= k < 0x8000_0000
    ensures var p := SeekRequest(hid, whence, k); |p| == 6 && p[0] == hid && p[1] == whence && FromI32(p[2..6]) == k
  {
    hide FromI32, I32;
    assert SeekRequest(hid, whence, k)[2..6] == I32(k);
    I32RoundTrip(k);
  }

  lemma SeekAnswer(s: Server, hid: byte, whence: byte, k: int)
    requires GetFile(s.slots, hid).Some? && whence <= 2 && -0x8000_0000 <= k < 0x8000_0000
    requires var h := GetFile(s.slots, hid).value; IsOpen(s.os, h.fd) && s.os.fds[h.fd].pos == h.offset
    ensures var pos := SeekFrom(s, hid, whence) + k;
            Seek(s, SeekRequest(hid, whence, k))
            == if pos < 0 then (s, Reply(ERR_IO, []))
               else
                 (Moved(s, hid, SetPos(s.os, GetFile(s.slots, hid).value.fd, pos), pos),
                  if pos < U32_LIMIT then Reply(STATUS_OK, U32(pos)) else Reply(ERR_IO, []))
  {
    hide FromI32, U32, SeekRequest, Contents, Moved, SetPos, IsOpen;
    SeekFields(hid, whence, k);
  }

  /**
   * SEEK on an open handle succeeds exactly if the new position is from 0 to 2^32 - 1, and reports it; a position
   * below 0 changes nothing, and one above is taken all the same.
   */
  lemma SeekVerdict(s: Server, hid: byte, whence: byte, k: int)
    requires Good(s) && GetFile(s.slots, hid).Some? && whence <= 2 && -0x8000_0000 <= k < 0x8000_0000
    ensures IsOpen(s.os, GetFile(s.slots, hid).value.fd)
    ensures var (s', r) := Seek(s, SeekRequest(hid, whence, k));
            var pos := SeekFrom(s, hid, whence) + k;
            && (r.status == STATUS_OK <==> 0 <= pos < U32_LIMIT)
            && (r.status == STATUS_OK ==> |r.data| == 4 && FromU32(r.data) == pos)
            && (r.status != STATUS_OK ==> r == Reply(ERR_IO, []))
            && (pos < 0 ==> s' == s)
            && (pos >= 0 ==> GetFile(s'.slots, hid) == Some(GetFile(s.slots, hid).value.(offset := pos)))
            && s'.os.inodes == s.os.inodes && s'.os.tree == s.os.tree && s'.names == s.names
  {
    hide Good, Seek, SeekFrom, SeekRequest, U32, FromU32;
    FileIsInStep(s, hid);
    SeekAnswer(s, hid, whence, k);
    var pos := SeekFrom(s, hid, whence) + k;
    if 0 <= pos < U32_LIMIT { U32RoundTrip(pos); }
  }

  /** On any other request SEEK changes nothing and says why. */
  lemma SeekRefuses(s: Server, p: seq<byte>)
    ensures |p| < 6 || p[1] > 2 ==> Seek(s, p) == (s, Reply(ERR_PROTOCOL, []))
    ensures |p| >= 6 && p[1] <= 2 && GetFile(s.slots, p[0]).None? ==> Seek(s, p) == (s, Reply(ERR_BAD_HANDLE, []))
  {
  }

  lemma SeekKeepsData(s: Server, hid: byte, whence: byte, k: int)
    requires Good(s) && whence <= 2 && -0x8000_0000 <= k < 0x8000_0000 && FileData(s, hid).Some?
    ensures var s' := Seek(s, SeekRequest(hid, whence, k)).0; Good(s') && FileData(s', hid) == FileData(s, hid)
  {
    hide Good, Seek, SeekFrom, SeekRequest, U32, Balanced;
    SeekKeeps(s, SeekRequest(hid, whence, k));
    FileIsInStep(s, hid);
    SeekAnswer(s, hid, whence, k);
  }

  /** A position-tracked READ behind a SEEK that succeeds starts at the position that SEEK reported. */
  lemma SeekThenRead(s: Server, hid: byte, whence: byte, k: int, count: int)
    requires Good(s) && whence <= 2 && -0x8000_0000 <= k < 0x8000_0000 && FileData(s, hid).Some?
    requires 0 <= count <= MAX_PAYLOAD && Seek(s, SeekRequest(hid, whence, k)).1.status == STATUS_OK
    ensures var (s', r) := Seek(s, SeekRequest(hid, whence, k));
            && |r.data| == 4
            && Read(s', TrackedRequest(hid, count)).1
               == Reply(STATUS_OK, ReadAt(FileData(s, hid).value, FromU32(r.data), count))
  {
    hide Good, ReadAt, Read, Seek, FileData, TrackedRequest, SeekRequest, FromU32;
    FileIsOpen(s, hid);
    SeekVerdict(s, hid, whence, k);
    SeekKeepsData(s, hid, whence, k);
    TrackedReadAnswer(Seek(s, SeekRequest(hid, whence, k)).0, hid, count);
  }

  lemma FileIsOpen(s: Server, hid: byte)
    requires FileData(s, hid).Some?
    ensures GetFile(s.slots, hid).Some? && IsOpen(s.os, GetFile(s.slots, hid).value.fd)
    ensures FileData(s, hid).value == Contents(s.os, GetFile(s.slots, hid).value.fd)
  {
  }

  /** SEEK to k bytes before the end, and a READ of k bytes: the last k bytes of the file. */
  lemma LastBytes(s: Server, hid: byte, k: int)
    requires Good(s) && FileData(s, hid).Some? && 0 <= k <= |FileData(s, hid).value| && k <= MAX_PAYLOAD
    requires |FileData(s, hid).value| - k < U32_LIMIT
    ensures var s', c := Seek(s, SeekRequest(hid, 2, -k)).0, FileData(s, hid).value;
            Read(s', TrackedRequest(hid, k)).1 == Reply(STATUS_OK, c[|c| - k..])
  {
    hide Good, Read, Seek, FileData, TrackedRequest, SeekRequest, FromU32, Contents;
    FileIsOpen(s, hid);
    SeekVerdict(s, hid, 2, -k);
    SeekThenRead(s, hid, 2, -k, k);
  }

  /** A READ of n bytes, a SEEK by k from where it ended, and another READ: that starts n + k behind the first. */
  lemma SkipFromHere(s: Server, hid: byte, n: nat, k: int, m: nat)
    requires Good(s) && FileData(s, hid).Some? && n <= MAX_PAYLOAD && m <= MAX_PAYLOAD
    requires -0x8000_0000 <= k < 0x8000_0000 && GetFile(s.slots, hid).Some?
    requires var (c, at) := (FileData(s, hid).value, GetFile(s.slots, hid).value.offset);
             at + n <= |c| && 0 <= at + n + k < U32_LIMIT
    ensures var c, at := FileData(s, hid).value, GetFile(s.slots, hid).value.offset;
            var s1 := Read(s, TrackedRequest(hid, n)).0;
            var s2 := Seek(s1, SeekRequest(hid, 1, k)).0;
            Read(s2, TrackedRequest(hid, m)).1 == Reply(STATUS_OK, ReadAt(c, at + n + k, m))
  {
    hide Good, Read, Seek, FileData, TrackedRequest, SeekRequest, FromU32, Contents, IsOpen;
    var s1 := Read(s, TrackedRequest(hid, n)).0;
    TrackedReadAnswer(s, hid, n);
    FileIsOpen(s1, hid);
    SeekVerdict(s1, hid, 1, k);
    SeekThenRead(s1, hid, 1, k, m);
  }

  // ----- Writing -----

  predicate Writable(s: Server, hid: byte) {
    var h := GetFile(s.slots, hid);
    h.Some? && h.value.flags != MODE_READ_ONLY && IsOpen(s.os, h.value.fd) && s.os.fds[h.value.fd].writable
  }

  /** The server after data has gone through the handle: the file, its position and the shadow offset. */
  function Written(s: Server, hid: byte, data: seq<byte>): Server
    requires Writable(s, hid)
  {
    var h := GetFile(s.slots, hid).value;
    Moved(s, hid, WriteFd(s.os, h.fd, data), h.offset + |data|)
  }

  function FileOf(s: Server, hid: byte): seq<byte>
    requires Writable(s, hid)
  {
    Contents(s.os, GetFile(s.slots, hid).value.fd)
  }

  function PosOf(s: Server, hid: byte): nat
    requires Writable(s, hid)
  {
    s.os.fds[GetFile(s.slots, hid).value.fd].pos
  }

  lemma WrittenVerdict(s: Server, hid: byte, data: seq<byte>)
    requires Writable(s, hid)
    ensures var s' := Written(s, hid, data);
            && Writable(s', hid)
            && FileOf(s', hid) == WriteAt(FileOf(s, hid), PosOf(s, hid), data)
            && PosOf(s', hid) == PosOf(s, hid) + |data|
            && GetFile(s'.slots, hid).value.offset == GetFile(s.slots, hid).value.offset + |data|
  {
    hide WriteAt;
  }

  lemma WriteAnswer(s: Server, hid: byte, data: seq<byte>)
    requires Writable(s, hid)
    ensures Write(s, [hid] + data) == (Written(s, hid, data), Reply(STATUS_OK, []))
  {
    assert ([hid] + data)[1..] == data;
    hide Moved, WriteFd;
  }

  /** The bytes in front of position pos, with a gap filled. */
  function Before(c: seq<byte>, pos: nat): (r: seq<byte>)
    ensures |r| == pos
  {
    if pos <= |c| then c[..pos] else c + Nuls(pos - |c|)
  }

  /** The bytes from position pos on. */
  function Behind(c: seq<byte>, pos: nat): seq<byte> { if pos < |c| then c[pos..] else [] }

  lemma WriteParts(c: seq<byte>, pos: nat, data: seq<byte>)
    requires data != []
    ensures WriteAt(c, pos, data) == Before(c, pos) + data + Behind(c, pos + |data|)
  {
  }

  lemma WrittenOver(left: seq<byte>, a: seq<byte>, right: seq<byte>, n: nat)
    ensures Before(left + a + right, |left + a|) == left + a
    ensures Behind(left + a + right, |left + a| + n) == Behind(right, n)
  {
  }

  lemma BehindBehind(c: seq<byte>, pos: nat, n: nat)
    ensures Behind(Behind(c, pos), n) == Behind(c, pos + n)
  {
  }

  lemma Regrouped(left: seq<byte>, a: seq<byte>, b: seq<byte>, right: seq<byte>)
    ensures left + (a + b) + right == left + a + b + right
  {
  }

  /** Byte by byte: the data where it goes, the old byte elsewhere, and NUL between the old end and the data. */
  lemma WrittenByte(c: seq<byte>, pos: nat, data: seq<byte>, i: nat)
    requires data != [] && i < |WriteAt(c, pos, data)|
    ensures WriteAt(c, pos, data)[i]
            == if pos <= i < pos + |data| then data[i - pos] else if i < |c| then c[i] else 0
  {
  }

  /** Byte by byte: what READ sends is what is in the file from the position on. */
  lemma ReadByte(c: seq<byte>, at: nat, n: nat, i: nat)
    ensures |ReadAt(c, at, n)| == if at + n <= |c| then n else if at <= |c| then |c| - at else 0
    ensures i < |ReadAt(c, at, n)| ==> at + i < |c| && ReadAt(c, at, n)[i] == c[at + i]
  {
  }

  lemma WritesJoinBytes(c: seq<byte>, pos: nat, a: seq<byte>, b: seq<byte>)
    ensures WriteAt(WriteAt(c, pos, a), pos + |a|, b) == WriteAt(c, pos, a + b)
  {
    hide WriteAt, Before, Behind;
    if a == [] {
      WriteEmpty(c, pos);
      assert a + b == b;
    } else if b == [] {
      WriteEmpty(WriteAt(c, pos, a), pos + |a|);
      assert a + b == a;
    } else {
      WriteBehind(c, pos, a, b);
      WriteParts(c, pos, a + b);
      Regrouped(Before(c, pos), a, b, Behind(c, pos + |a + b|));
    }
  }

  lemma WriteEmpty(c: seq<byte>, pos: nat)
    ensures WriteAt(c, pos, []) == c
  {
  }

  lemma WriteBehind(c: seq<byte>, pos: nat, a: seq<byte>, b: seq<byte>)
    requires a != [] && b != []
    ensures WriteAt(WriteAt(c, pos, a), pos + |a|, b) == Before(c, pos) + a + b + Behind(c, pos + |a + b|)
  {
    hide WriteAt, Before, Behind;
    var left, right := Before(c, pos), Behind(c, pos + |a|);
    WriteParts(c, pos, a);
    WriteParts(left + a + right, pos + |a|, b);
    WrittenOver(left, a, right, |b|);
    BehindBehind(c, pos + |a|, |b|);
    assert |left + a| == pos + |a| && |a + b| == |a| + |b|;
  }

  lemma WriteNothing(s: Server, hid: byte)
    requires Writable(s, hid)
    ensures Written(s, hid, []) == s
  {
    assert s.slots[hid := Some(GetFile(s.slots, hid).value)] == s.slots;
  }

  lemma WriteFdsJoin(os: OS, fd: nat, a: seq<byte>, b: seq<byte>)
    requires IsOpen(os, fd)
    ensures var os' := WriteFd(os, fd, a);
            && IsOpen(os', fd) && os'.fds[fd].writable == os.fds[fd].writable
            && WriteFd(os', fd, b) == WriteFd(os, fd, a + b)
  {
    hide WriteAt;
    WritesJoinBytes(Contents(os, fd), os.fds[fd].pos, a, b);
    if a == [] {
      assert a + b == b;
    } else if b == [] {
      assert a + b == a;
    }
  }

  /** Two writes through a handle are one write of the joined bytes. */
  lemma WritesJoin(s: Server, hid: byte, a: seq<byte>, b: seq<byte>)
    requires Writable(s, hid)
    ensures Writable(Written(s, hid, a), hid)
    ensures Written(Written(s, hid, a), hid, b) == Written(s, hid, a + b)
  {
    hide WriteFd, IsOpen;
    WriteFdsJoin(s.os, GetFile(s.slots, hid).value.fd, a, b);
  }

  function Repeat(d: seq<byte>, n: nat): seq<byte> {
    if n == 0 then [] else Repeat(d, n - 1) + d
  }

  /** Every execution of a WRITE request writes its bytes once more. */
  lemma {:induction false} WritesRepeat(s: Server, hid: byte, d: seq<byte>, n: nat)
    requires Writable(s, hid)
    ensures After(s, CMD_WRITE, [hid] + d, n) == Written(s, hid, Repeat(d, n))
    ensures ResultOf(s, CMD_WRITE, [hid] + d, n + 1) == Reply(STATUS_OK, [])
  {
    hide Write, Written;
    WriteNothing(s, hid);
    WritesJoin(s, hid, Repeat(d, n), []);
    WriteAnswer(Written(s, hid, Repeat(d, n)), hid, d);
    if n > 0 {
      WritesRepeat(s, hid, d, n - 1);
      WritesJoin(s, hid, Repeat(d, n - 1), d);
      WriteAnswer(Written(s, hid, Repeat(d, n - 1)), hid, d);
    }
  }

  /** A WRITE through any other handle fails and changes nothing, however often it is executed. */
  lemma {:induction false} UnwritableStays(s: Server, hid: byte, d: seq<byte>, n: nat)
    requires !Writable(s, hid)
    ensures After(s, CMD_WRITE, [hid] + d, n) == s
    ensures ResultOf(s, CMD_WRITE, [hid] + d, n + 1).status != STATUS_OK
  {
    hide WriteFd, Moved;
    if n > 0 {
      UnwritableStays(s, hid, d, n - 1);
    }
  }

  // ----- A buffer in chunks -----

  const CHUNK: nat := MAX_PAYLOAD - 1

  /** How many bytes the first k chunks of a buffer of n bytes hold. */
  function Upto(n: nat, k: nat): (m: nat)
    ensures m <= n && m <= CHUNK * k
  {
    if CHUNK * k < n then CHUNK * k else n
  }

  /** The bytes that go into the file when chunk i of the buffer is written reps[i] times. */
  function Sent(data: seq<byte>, reps: seq<nat>): seq<byte> {
    if reps == [] then []
    else
      var k := |reps| - 1;
      Sent(data, reps[..k]) + Repeat(data[Upto(|data|, k)..Upto(|data|, k + 1)], reps[k])
  }

  ghost predicate Each(reps: seq<nat>, low: nat, high: nat) {
    forall i :: 0 <= i < |reps| ==> low <= reps[i] <= high
  }

  lemma {:induction false} SentOnce(data: seq<byte>, reps: seq<nat>)
    requires Each(reps, 1, 1)
    ensures Sent(data, reps) == data[..Upto(|data|, |reps|)]
  {
    hide Upto, Repeat;
    if reps != [] {
      var k := |reps| - 1;
      SentOnce(data, reps[..k]);
      UptoGrows(|data|, k);
      var a, b := Upto(|data|, k), Upto(|data|, k + 1);
      RepeatOnce(data[a..b]);
      PrefixGrows(data, a, b);
    } else {
      UptoGrows(|data|, 0);
    }
  }

  lemma UptoGrows(n: nat, k: nat)
    ensures Upto(n, k) <= Upto(n, k + 1) && Upto(n, 0) == 0
  {
  }

  lemma RepeatOnce(d: seq<byte>)
    ensures Repeat(d, 1) == d
  {
    assert Repeat(d, 1) == Repeat(d, 0) + d == d;
  }

  lemma PrefixGrows(data: seq<byte>, a: nat, b: nat)
    requires a <= b <= |data|
    ensures data[..a] + data[a..b] == data[..b]
  {
  }

  lemma SentGrows(data: seq<byte>, reps: seq<nat>, r: nat)
    ensures var k := |reps|;
            Sent(data, reps + [r]) == Sent(data, reps) + Repeat(data[Upto(|data|, k)..Upto(|data|, k + 1)], r)
  {
    assert (reps + [r])[..|reps|] == reps;
  }
}
