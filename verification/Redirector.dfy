/** The resident redirector's file arms: read, write, and the registers and SFT they work on. */
module Redirector {
  import opened Bytes
  import opened Options
  import opened Frame
  import opened Files
  import opened FsOps
  import opened ServerRuns
  import opened Rpc
  import opened Transfers

  /** The fields of a system file table entry that the redirector uses. */
  class Sft {
    var openMode: nat
    var startSector: nat // holds the server's handle
    var fileTime: nat    // date in the high word, time in the low word
    var fileSize: nat
    var filePos: nat

    ghost predicate InRange()
      reads this
    {
      startSector < U16_LIMIT && fileTime < U32_LIMIT && fileSize < U32_LIMIT && filePos < U32_LIMIT
    }

    function Handle(): byte
      reads this
    {
      startSector % 256
    }
  }

  function DosError(status: byte): nat {
    if status == STATUS_OK then 0
    else if status == ERR_NOT_FOUND then 2
    else if status == ERR_ACCESS then 5
    else if status == ERR_BAD_HANDLE then 6
    else if status == ERR_EXISTS then 80
    else if status == ERR_IO then 29
    else if status == ERR_CRC then 23
    else if status == 0x07 then 21
    else if status == ERR_UNSUPPORTED then 1
    else if status == ERR_BAD_PATH then 3
    else 2
  }

  /** The statuses and their DOS errors; whatever else comes counts as "file not found". */
  const DOS_ERRORS: seq<(byte, nat)> :=
    [(STATUS_OK, 0), (ERR_NOT_FOUND, 2), (ERR_ACCESS, 5), (ERR_BAD_HANDLE, 6), (ERR_EXISTS, 80), (ERR_IO, 29),
     (ERR_CRC, 23), (0x07, 21), (ERR_UNSUPPORTED, 1), (ERR_BAD_PATH, 3)]

  lemma DosErrors(status: byte)
    ensures forall i :: 0 <= i < |DOS_ERRORS| ==> DosError(DOS_ERRORS[i].0) == DOS_ERRORS[i].1
    ensures (forall i :: 0 <= i < |DOS_ERRORS| ==> DOS_ERRORS[i].0 != status) ==> DosError(status) == 2
  {
    assert DOS_ERRORS[0].0 == STATUS_OK && DOS_ERRORS[1].0 == ERR_NOT_FOUND && DOS_ERRORS[2].0 == ERR_ACCESS
        && DOS_ERRORS[3].0 == ERR_BAD_HANDLE && DOS_ERRORS[4].0 == ERR_EXISTS && DOS_ERRORS[5].0 == ERR_IO
        && DOS_ERRORS[6].0 == ERR_CRC && DOS_ERRORS[7].0 == 0x07 && DOS_ERRORS[8].0 == ERR_UNSUPPORTED
        && DOS_ERRORS[9].0 == ERR_BAD_PATH;
  }

  /** Offsets of 32 bits reach past the end of the file, or as far as is asked for. */
  predicate Addressable(c: seq<byte>, pos: nat, n: nat) {
    |c| < U32_LIMIT || pos + n <= U32_LIMIT
  }

  /** One more chunk, read at the wrapped offset, extends what has been read so far; a short one ends it. */
  lemma ChunkJoins(c: seq<byte>, pos: nat, total: nat, chunk: nat, want: nat)
    requires Addressable(c, pos, want) && pos < U32_LIMIT && 0 < chunk && total + chunk <= want
    requires |ReadAt(c, pos, total)| == total
    ensures var next := ReadAt(c, (pos + total) % U32_LIMIT, chunk);
            && ReadAt(c, pos, total) + next == ReadAt(c, pos, total + |next|)
            && |ReadAt(c, pos, total + |next|)| == total + |next|
            && (|next| < chunk ==> ReadAt(c, pos, want) == ReadAt(c, pos, total + |next|))
  {
    assert (pos + total) % U32_LIMIT == pos + total;
    ReadsJoin(c, pos, total, chunk);
  }

  /** How much of c there is from pos on, up to n. */
  function Available(c: seq<byte>, pos: nat, n: nat): nat {
    if pos >= |c| then 0 else if |c| - pos < n then |c| - pos else n
  }

  lemma AvailableIsRead(c: seq<byte>, pos: nat, n: nat)
    ensures |ReadAt(c, pos, n)| == Available(c, pos, n)
  {
  }

  class Tsr {
    const client: Client
    var ax: nat
    var cx: nat
    var carry: bool

    constructor (client: Client)
      ensures this.client == client
    {
      this.client := client;
      ax, cx, carry := 0, 0, false;
    }

    method Succeed()
      modifies this`ax, this`carry
      ensures ax == 0 && !carry
    {
      ax, carry := 0, false;
    }

    method Fail(error: nat)
      modifies this`ax, this`carry
      ensures ax == error && carry
    {
      ax, carry := error, true;
    }

    /** One READ request and the copy of what it brings; got is the number of bytes, or None after a failure. */
    method ReadChunk(hid: byte, chunk: nat, offset: int, dta: array<byte>, at: nat) returns (got: Option<nat>)
      requires client.Valid() && chunk <= MAX_PAYLOAD && 0 <= offset < U32_LIMIT
      requires at + chunk <= dta.Length && dta !in client.Parts()
      modifies this`ax, this`carry, dta, client.Parts()
      ensures client.Valid() && client.State() == old(client.State())
      ensures dta[..at] == old(dta[..at])
      ensures got.Some? ==>
                && ax == old(ax) && carry == old(carry) && FileData(client.State(), hid).Some?
                && got.value <= chunk
                && dta[at..at + got.value] == ReadAt(FileData(client.State(), hid).value, offset, chunk)
      ensures got.None? ==> carry
      ensures old(client.line.script) == [] ==> client.line.script == []
      ensures Steady(old(client.line.script)) ==>
                Steady(client.line.script) && (got.Some? <==> FileData(client.State(), hid).Some?)
    {
      hide Good, FileData, ReadAt, After, ResultOf, Steady, Lossy;
      ghost var s := client.State();
      var p := ReadRequest(hid, chunk, offset);
      var rc, status, replyLen, n, j := client.SerialRpc(CMD_READ, p);
      ReadsAreIdempotent(s, hid, chunk, offset, n);
      if rc != RpcOk {
        Fail(2);
        return None;
      }
      ReadsAreIdempotent(s, hid, chunk, offset, j - 1);
      if status != STATUS_OK && replyLen == 0 {
        Fail(DosError(status));
        return None;
      }
      CopyBytes(dta, at, client.reply[..replyLen]);
      return Some(replyLen);
    }

    /** The chunk loop: the number of bytes it has put into the DTA, or None after a failure. */
    method ReadLoop(hid: byte, pos: nat, want: nat, dta: array<byte>)
      returns (r: Option<nat>, ghost data: Option<seq<byte>>)
      requires client.Valid() && pos < U32_LIMIT && 0 < want < U16_LIMIT && want <= dta.Length
      requires dta !in client.Parts() && !carry
      modifies this`ax, this`carry, dta, client.Parts()
      ensures client.Valid() && client.State() == old(client.State())
      ensures carry <==> r.None?
      ensures data == FileData(client.State(), hid)
      ensures r.Some? ==> r.value <= want && data.Some?
      ensures r.Some? && Addressable(data.value, pos, want) ==> dta[..r.value] == ReadAt(data.value, pos, want)
      ensures old(client.line.script) == [] ==> client.line.script == []
      ensures Steady(old(client.line.script)) ==> Steady(client.line.script) && (r.Some? <==> data.Some?)
    {
      hide Good, FileData, ReadAt, Addressable, Steady;
      ghost var s := client.State();
      data := FileData(s, hid);
      var total := 0;
      if data.Some? { AvailableIsRead(data.value, pos, 0); }
      while true
        invariant client.Valid() && client.State() == s
        invariant total < want && !carry && (total > 0 ==> data.Some?)
        invariant data.Some? && Addressable(data.value, pos, want) ==> dta[..total] == ReadAt(data.value, pos, total)
        invariant old(client.line.script) == [] ==> client.line.script == []
        invariant Steady(old(client.line.script)) ==> Steady(client.line.script)
        decreases want - total
      {
        var chunk := want - total;
        if chunk > MAX_PAYLOAD { chunk := MAX_PAYLOAD; }
        var got := ReadChunk(hid, chunk, (pos + total) % U32_LIMIT, dta, total);
        if got.None? { return None, data; }
        if Addressable(data.value, pos, want) {
          ChunkJoins(data.value, pos, total, chunk, want);
          assert dta[..total + got.value] == dta[..total] + dta[total..total + got.value];
        }
        total := total + got.value;
        if got.value < chunk || total >= want { return Some(total), data; }
      }
    }

    /**
     * READFIL over any line. When it succeeds the DTA holds exactly the bytes of the file from the current
     * position on, as many as asked for or as there are; CX and the position say so. When it fails, CX and
     * the position are as before. The server is as before in either case. On a line that never loses ten
     * attempts in a row it fails only if the SFT may not read or the handle cannot be read.
     */
    method ReadFile(sft: Sft, dta: array<byte>)
      requires client.Valid() && sft.InRange() && cx < U16_LIMIT && cx <= dta.Length
      requires dta !in client.Parts()
      modifies this, sft`filePos, dta, client.Parts()
      ensures client.Valid() && client.State() == old(client.State())
      ensures sft.openMode % 2 == 1 ==> carry && ax == 5
      ensures old(cx) == 0 && sft.openMode % 2 == 0 ==> !carry
      ensures carry || old(cx) == 0 ==> cx == old(cx) && sft.filePos == old(sft.filePos)
      ensures !carry && old(cx) > 0 ==> FileData(client.State(), sft.Handle()).Some?
      ensures !carry && old(cx) > 0
              && Addressable(FileData(client.State(), sft.Handle()).value, old(sft.filePos), old(cx)) ==>
                var c, pos := FileData(client.State(), sft.Handle()).value, old(sft.filePos);
                && cx == Available(c, pos, old(cx))
                && dta[..cx] == ReadAt(c, pos, old(cx))
                && sft.filePos == (pos + cx) % U32_LIMIT
      ensures old(client.line.script) == [] ==> client.line.script == []
      ensures Steady(old(client.line.script)) ==> Steady(client.line.script)
      ensures Steady(old(client.line.script)) && old(cx) > 0 ==>
                (!carry <==> sft.openMode % 2 == 0 && FileData(client.State(), sft.Handle()).Some?)
    {
      hide Good, FileData, ReadAt, Addressable, Steady;
      Succeed();
      if sft.openMode % 2 == 1 {
        Fail(5);
        return;
      }
      if cx == 0 { return; }
      ghost var data: Option<seq<byte>>;
      var total: Option<nat>;
      total, data := ReadLoop(sft.Handle(), sft.filePos, cx, dta);
      if total.Some? {
        AvailableIsRead(data.value, sft.filePos, cx);
        sft.filePos := (sft.filePos + total.value) % U32_LIMIT;
        cx := total.value;
      }
    }
  
    /** One WRITE request, executed r times. */
    method WriteChunk(hid: byte, chunk: seq<byte>) returns (ok: bool, ghost r: nat)
      requires client.Valid() && |chunk| <= CHUNK && !carry
      modifies this`ax, this`carry, client.Parts()
      ensures client.Valid() && r <= RETRIES && ok == !carry
      ensures ok ==> Writable(old(client.State()), hid) && r >= 1
      ensures client.State() == if Writable(old(client.State()), hid)
                                then Written(old(client.State()), hid, Repeat(chunk, r)) else old(client.State())
      ensures old(client.line.script) == [] ==> client.line.script == [] && (ok ==> r == 1)
      ensures Steady(old(client.line.script)) ==>
                Steady(client.line.script) && (ok <==> Writable(old(client.State()), hid))
    {
      hide Good, Writable, Written, After, ResultOf, Steady, Lossy;
      ghost var s := client.State();
      var rc, status, replyLen, n, j := client.SerialRpc(CMD_WRITE, [hid] + chunk);
      r := n;
      if Writable(s, hid) {
        WritesRepeat(s, hid, chunk, n);
        if rc == RpcOk { WritesRepeat(s, hid, chunk, j - 1); }
      } else {
        UnwritableStays(s, hid, chunk, n);
        if rc == RpcOk { UnwritableStays(s, hid, chunk, j - 1); }
      }
      ok := rc == RpcOk && status == STATUS_OK;
      if !ok { Fail(DosError(status)); }
    }
  
    /** The next chunk of data, and the SFT moved on if it went through. */
    method WriteNext(sft: Sft, data: seq<byte>, written: nat, ghost s: Server, ghost reps: seq<nat>)
      returns (ok: bool, chunk: nat, ghost r: nat)
      requires client.Valid() && sft.InRange() && !carry
      requires written == Upto(|data|, |reps|) < |data|
      requires Progress(s, sft.Handle(), data, reps, client.State())
      modifies this`ax, this`carry, sft`filePos, sft`fileSize, client.Parts()
      ensures client.Valid() && sft.InRange() && r <= RETRIES && ok == !carry
      ensures Progress(s, sft.Handle(), data, reps + [r], client.State())
      ensures ok ==> r >= 1 && Writable(s, sft.Handle()) && chunk > 0
      ensures written + chunk == Upto(|data|, |reps| + 1)
      ensures sft.filePos == if ok then (old(sft.filePos) + chunk) % U32_LIMIT else old(sft.filePos)
      ensures sft.fileSize == if ok && sft.filePos > old(sft.fileSize) then sft.filePos else old(sft.fileSize)
      ensures old(client.line.script) == [] ==> client.line.script == [] && (ok ==> r == 1)
      ensures Steady(old(client.line.script)) ==>
                Steady(client.line.script) && (ok <==> Writable(s, sft.Handle()))
    {
      hide Good, Writable, Progress, Upto, Written, Repeat, Steady;
      chunk := |data| - written;
      if chunk > CHUNK { chunk := CHUNK; }
      NextUpto(|data|, |reps|, written, chunk);
      ghost var before := client.State();
      var piece := data[written..written + chunk];
      assert piece == data[Upto(|data|, |reps|)..Upto(|data|, |reps| + 1)];
      ok, r := WriteChunk(sft.Handle(), piece);
      ProgressStep(s, sft.Handle(), data, reps, piece, r, before, client.State());
      if ok {
        sft.filePos := (sft.filePos + chunk) % U32_LIMIT;
        if sft.filePos > sft.fileSize { sft.fileSize := sft.filePos; }
      }
    }

    /** The chunk loop: 511 bytes of data to a request. */
    method WriteLoop(sft: Sft, data: seq<byte>) returns (written: nat, ghost reps: seq<nat>)
      requires client.Valid() && sft.InRange() && 0 < |data| < U16_LIMIT && !carry
      modifies this`ax, this`carry, sft`filePos, sft`fileSize, client.Parts()
      ensures client.Valid() && sft.InRange() && written <= |data|
      ensures Each(reps, if carry then 0 else 1, RETRIES)
      ensures !carry ==> Writable(old(client.State()), sft.Handle()) && written == |data| == Upto(|data|, |reps|)
      ensures carry ==> |reps| > 0 && written == Upto(|data|, |reps| - 1) && Each(reps[..|reps| - 1], 1, RETRIES)
      ensures Progress(old(client.State()), sft.Handle(), data, reps, client.State())
      ensures Moves(old(sft.filePos), old(sft.fileSize), written, sft.filePos, sft.fileSize)
      ensures old(client.line.script) == [] ==> client.line.script == [] && (!carry ==> Each(reps, 1, 1))
      ensures Steady(old(client.line.script)) ==>
                Steady(client.line.script) && (!carry <==> Writable(old(client.State()), sft.Handle()))
    {
      hide Good, Writable, Progress, Moves, Upto, Steady;
      ghost var s, hid := client.State(), sft.Handle();
      written, reps := 0, [];
      ProgressStarts(s, hid, data);
      MovesStart(sft.filePos, sft.fileSize, |data|);
      while written < |data|
        invariant client.Valid() && sft.InRange() && !carry
        invariant written == Upto(|data|, |reps|) && Each(reps, 1, RETRIES)
        invariant Progress(s, hid, data, reps, client.State())
        invariant written > 0 ==> Writable(s, hid)
        invariant Moves(old(sft.filePos), old(sft.fileSize), written, sft.filePos, sft.fileSize)
        invariant old(client.line.script) == [] ==> client.line.script == [] && Each(reps, 1, 1)
        invariant Steady(old(client.line.script)) ==> Steady(client.line.script)
      {
        ghost var pos, size := sft.filePos, sft.fileSize;
        var ok, chunk, r := WriteNext(sft, data, written, s, reps);
        reps := reps + [r];
        if !ok {
          assert reps[..|reps| - 1] + [r] == reps;
          return;
        }
        MovesStep(old(sft.filePos), old(sft.fileSize), written, pos, size, chunk);
        written := written + chunk;
      }
    }

    /**
     * WRITEFIL over any line. Chunk i of the buffer goes into the file reps[i] times, between once and ten
     * times for every chunk it gets past; without losses the buffer goes in once, whole. CX counts each chunk
     * once, and the SFT's position and size follow it. On a line that never loses ten attempts in a row it
     * fails only if the SFT may not write or the handle cannot be written.
     */
    method WriteFile(sft: Sft, data: seq<byte>) returns (ghost reps: seq<nat>)
      requires client.Valid() && sft.InRange() && |data| == cx < U16_LIMIT
      modifies this, sft`filePos, sft`fileSize, client.Parts()
      ensures client.Valid() && sft.InRange()
      ensures sft.openMode % 2 == 0 || data == [] ==>
                && client.State() == old(client.State()) && reps == [] && cx == old(cx)
                && (carry <==> sft.openMode % 2 == 0) && (carry ==> ax == 5)
      ensures sft.openMode % 2 == 1 && !carry ==>
                && (data != [] ==> Writable(old(client.State()), sft.Handle()))
                && cx == |data| == Upto(|data|, |reps|) && Each(reps, 1, RETRIES)
      ensures sft.openMode % 2 == 1 && carry ==>
                && |reps| > 0 && cx == Upto(|data|, |reps| - 1)
                && Each(reps[..|reps| - 1], 1, RETRIES) && reps[|reps| - 1] <= RETRIES
      ensures Progress(old(client.State()), sft.Handle(), data, reps, client.State())
      ensures sft.openMode % 2 == 1 ==> Moves(old(sft.filePos), old(sft.fileSize), cx, sft.filePos, sft.fileSize)
      ensures old(client.line.script) == [] ==> client.line.script == []
      ensures Steady(old(client.line.script)) ==> Steady(client.line.script)
      ensures Steady(old(client.line.script)) && sft.openMode % 2 == 1 && data != [] ==>
                (!carry <==> Writable(old(client.State()), sft.Handle()))
      ensures old(client.line.script) == [] && sft.openMode % 2 == 1 && data != [] && !carry ==>
                client.State() == Written(old(client.State()), sft.Handle(), data)
    {
      hide Good, Writable, Written, Sent, Repeat, Moves, Progress, Upto, Steady;
      Succeed();
      ProgressStarts(client.State(), sft.Handle(), data);
      MovesStart(sft.filePos, sft.fileSize, |data|);
      reps := [];
      if sft.openMode % 2 == 0 {
        Fail(5);
        return;
      }
      if cx == 0 { return; }
      ghost var s := client.State();
      cx, reps := WriteLoop(sft, data);
      if !carry && old(client.line.script) == [] { AllSentOnce(s, sft.Handle(), data, reps, client.State()); }
    }
  }

  // ----- The invariants of the write loop -----

  ghost predicate Progress(s: Server, hid: byte, data: seq<byte>, reps: seq<nat>, now: Server) {
    now == if Writable(s, hid) then Written(s, hid, Sent(data, reps)) else s
  }

  lemma ProgressStarts(s: Server, hid: byte, data: seq<byte>)
    ensures Progress(s, hid, data, [], s)
  {
    hide Written, Writable;
    if Writable(s, hid) { WriteNothing(s, hid); }
  }

  lemma ProgressStep(s: Server, hid: byte, data: seq<byte>, reps: seq<nat>, piece: seq<byte>, r: nat,
                     now: Server, next: Server)
    requires Progress(s, hid, data, reps, now)
    requires piece == data[Upto(|data|, |reps|)..Upto(|data|, |reps| + 1)]
    requires next == if Writable(now, hid) then Written(now, hid, Repeat(piece, r)) else now
    ensures Progress(s, hid, data, reps + [r], next)
    ensures Writable(now, hid) <==> Writable(s, hid)
  {
    hide Written, Sent, Repeat, Writable;
    if Writable(s, hid) {
      SentGrows(data, reps, r);
      WritesJoin(s, hid, Sent(data, reps), Repeat(piece, r));
    }
  }

  lemma NextUpto(n: nat, k: nat, written: nat, chunk: nat)
    requires written == Upto(n, k) < n && chunk == if n - written > CHUNK then CHUNK else n - written
    ensures Upto(n, k + 1) == written + chunk
  {
  }

  lemma AllSentOnce(s: Server, hid: byte, data: seq<byte>, reps: seq<nat>, now: Server)
    requires Writable(s, hid) && Progress(s, hid, data, reps, now)
    requires Each(reps, 1, 1) && Upto(|data|, |reps|) == |data|
    ensures now == Written(s, hid, data)
  {
    hide Written, Writable, Sent;
    SentOnce(data, reps);
    assert data[..|data|] == data;
  }

  /** The SFT after some bytes have been written: the position has moved, and pushed the size along. */
  predicate Moves(pos0: nat, size0: nat, written: nat, pos: nat, size: nat) {
    && pos == (pos0 + written) % U32_LIMIT
    && (written > 0 && pos0 + written < U32_LIMIT ==> size == if pos > size0 then pos else size0)
    && (written == 0 ==> size == size0)
  }

  lemma MovesStart(pos: nat, size: nat, n: nat)
    requires pos < U32_LIMIT
    ensures Moves(pos, size, 0, pos, size) && Upto(n, 0) == 0
  {
  }

  lemma MovesStep(pos0: nat, size0: nat, written: nat, pos: nat, size: nat, chunk: nat)
    requires Moves(pos0, size0, written, pos, size) && pos0 < U32_LIMIT && chunk > 0
    ensures var pos' := (pos + chunk) % U32_LIMIT;
            Moves(pos0, size0, written + chunk, pos', if pos' > size then pos' else size)
  {
  }
}
