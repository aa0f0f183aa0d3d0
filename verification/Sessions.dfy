/** A program on the DOS side that creates a file and writes it, buffer by buffer. */
module Sessions {
  import opened Bytes
  import opened Options
  import opened Clock
  import opened Files
  import opened Frame
  import opened Handles
  import opened FsOps
  import opened ServerRuns
  import opened Rpc
  import opened Transfers
  import opened Opening
  import opened Redirector
  import opened OpenArms

  /** The handle stands at the end of a file that holds c, and its shadow offset says so. */
  ghost predicate AtEndOf(s: FsOps.Server, hid: byte, c: seq<byte>) {
    Writable(s, hid) && FileOf(s, hid) == c && PosOf(s, hid) == |c| == GetFile(s.slots, hid).value.offset
  }

  /** Whatever goes through such a handle is appended. With Progress, this is what a lossy line leaves behind. */
  lemma WritesAppend(s: FsOps.Server, hid: byte, c: seq<byte>, data: seq<byte>)
    requires AtEndOf(s, hid, c)
    ensures AtEndOf(Written(s, hid, data), hid, c + data)
  {
    hide Writable, Written, FileOf, PosOf;
    WrittenVerdict(s, hid, data);
  }

  /** On a lossy line, chunk i of the buffer is appended reps[i] times. */
  lemma LossyWritesAppend(s: FsOps.Server, hid: byte, c: seq<byte>, data: seq<byte>, reps: seq<nat>, now: FsOps.Server)
    requires AtEndOf(s, hid, c) && Progress(s, hid, data, reps, now)
    ensures AtEndOf(now, hid, c + Sent(data, reps))
  {
    hide Written, Sent;
    WritesAppend(s, hid, c, Sent(data, reps));
  }

  function Joined(buffers: seq<seq<byte>>): seq<byte> {
    if buffers == [] then [] else Joined(buffers[..|buffers| - 1]) + buffers[|buffers| - 1]
  }

  /** The SFT agrees with n bytes written from the start of an empty file. */
  ghost predicate SftAt(sft: Sft, n: nat)
    reads sft
  {
    && sft.openMode % 2 == 1 && sft.InRange() && sft.filePos == n % U32_LIMIT
    && (n < U32_LIMIT ==> sft.fileSize == n)
  }

  lemma SftMoves(n: nat, m: nat, size0: nat, pos: nat, size: nat)
    requires Moves(n % U32_LIMIT, size0, m, pos, size) && (n < U32_LIMIT ==> size0 == n)
    ensures pos == (n + m) % U32_LIMIT && (n + m < U32_LIMIT ==> size == n + m)
  {
  }

  /** The handle writes the file that q names, which was modified just now, and the SFT knows when. */
  ghost predicate OnFile(s: FsOps.Server, hid: byte, q: seq<byte>, fileTime: nat)
    requires q != []
  {
    WritesTo(s, hid, q) && ModifiedNow(s, q) && HoldsStamps(fileTime, s.os)
  }

  lemma WritingOnFile(s: FsOps.Server, hid: byte, q: seq<byte>, fileTime: nat, data: seq<byte>)
    requires q != [] && OnFile(s, hid, q, fileTime)
    ensures Writable(s, hid) && OnFile(Written(s, hid, data), hid, q, fileTime)
    ensures Written(s, hid, data).os.zone == s.os.zone
  {
    WritingWritesTo(s, hid, q, data);
    WritingModifiesNow(s, hid, q, data);
    hide Written, WritesTo, ModifiedNow, StampsAt;
  }

  /** One more buffer. */
  method WriteMore(tsr: Tsr, sft: Sft, buffer: seq<byte>, ghost c: seq<byte>, ghost q: seq<byte>)
    requires tsr.client.Valid() && tsr.client.line.script == [] && |buffer| < U16_LIMIT
    requires AtEndOf(tsr.client.State(), sft.Handle(), c) && SftAt(sft, |c|)
    requires q != [] && OnFile(tsr.client.State(), sft.Handle(), q, sft.fileTime)
    modifies tsr, sft`filePos, sft`fileSize, tsr.client.Parts()
    ensures tsr.client.Valid() && tsr.client.line.script == [] && !tsr.carry
    ensures AtEndOf(tsr.client.State(), sft.Handle(), c + buffer) && SftAt(sft, |c + buffer|)
    ensures OnFile(tsr.client.State(), sft.Handle(), q, sft.fileTime)
    ensures tsr.client.State().os.zone == old(tsr.client.State()).os.zone
  {
    hide Good, Writable, Written, FileOf, PosOf, Moves, Progress, Sent, OnFile, Steady;
    NoLossIsSteady();
    ghost var s, size := tsr.client.State(), sft.fileSize;
    tsr.cx := |buffer|;
    var reps := tsr.WriteFile(sft, buffer);
    if buffer == [] {
      assert c + buffer == c;
    } else {
      WritesAppend(s, sft.Handle(), c, buffer);
      WritingOnFile(s, sft.Handle(), q, sft.fileTime, buffer);
    }
    SftMoves(|c|, |buffer|, size, sft.filePos, sft.fileSize);
  }

  /**
   * CREATE and any sequence of WRITEFIL calls, on a line without losses. It succeeds exactly where the path can
   * be created or emptied. Then the file is the buffers joined, and the SFT's position and size, the server's
   * position and its shadow offset all equal its length; otherwise the slots are as they were.
   */
  method CopyIn(tsr: Tsr, sft: Sft, fn1: seq<byte>, buffers: seq<seq<byte>>)
    requires tsr.client.Valid() && tsr.client.line.script == []
    requires Named(fn1) && |fn1| < FN1_LIMIT && forall b :: b in buffers ==> |b| < U16_LIMIT
    modifies tsr, sft, tsr.client.Parts()
    ensures tsr.client.Valid() && tsr.client.line.script == []
    ensures !tsr.carry <==> CanCreate(old(tsr.client.State()), PathPayload(0, fn1), false)
    ensures tsr.carry ==> tsr.client.State().slots == old(tsr.client.State()).slots
    ensures !tsr.carry ==>
              && AtEndOf(tsr.client.State(), sft.Handle(), Joined(buffers))
              && SftAt(sft, |Joined(buffers)|)
              && OnFile(tsr.client.State(), sft.Handle(), PathPayload(0, fn1), sft.fileTime)
              && tsr.client.State().os.zone == old(tsr.client.State()).os.zone
  {
    hide CreateError, AnsweredBy, Abandoned, Good, Writable, FileOf, PosOf, HasWildcard, AtEndOf, SftAt, LeastFree,
         OnFile, PathPayload, CanCreate, Create, WritesTo, HoldsStamps;
    ghost var s := tsr.client.State();
    CreateFile(tsr, sft, fn1);
    if tsr.carry { return; }
    StartsOnFile(s, fn1, sft.Handle(), sft.fileTime, tsr.client.State());
    StartsEmpty(tsr.client.State(), sft);
    var i := 0;
    while i < |buffers|
      invariant 0 <= i <= |buffers|
      invariant tsr.client.Valid() && tsr.client.line.script == [] && !tsr.carry
      invariant AtEndOf(tsr.client.State(), sft.Handle(), Joined(buffers[..i])) && SftAt(sft, |Joined(buffers[..i])|)
      invariant OnFile(tsr.client.State(), sft.Handle(), PathPayload(0, fn1), sft.fileTime)
      invariant tsr.client.State().os.zone == s.os.zone
    {
      assert buffers[..i + 1][..i] == buffers[..i];
      WriteMore(tsr, sft, buffers[i], Joined(buffers[..i]), PathPayload(0, fn1));
      i := i + 1;
    }
    assert buffers[..i] == buffers;
  }

  lemma StartsOnFile(s: FsOps.Server, fn1: seq<byte>, hid: byte, fileTime: nat, now: FsOps.Server)
    requires Good(s) && |fn1| >= 2 && CanCreate(s, PathPayload(0, fn1), false)
    requires now == Create(s, PathPayload(1, fn1)).0 && WritesTo(now, hid, PathPayload(0, fn1))
    requires HoldsStamps(fileTime, s.os)
    ensures OnFile(now, hid, PathPayload(0, fn1), fileTime) && now.os.zone == s.os.zone
  {
    hide Good, Create, CanCreate, PathPayload, WritesTo, ModifiedNow, StampsAt, AttrOk, GetAttr;
    SameTail(1, fn1);
    CreateWorks(s, fn1, 1);
    CreatedIsFound(s, PathPayload(1, fn1), PathPayload(0, fn1));
  }

  lemma StartsEmpty(s: FsOps.Server, sft: Sft)
    requires ReadyToWrite(s, sft.Handle(), sft.fileSize) && sft.startSector < MAX_HANDLES
    requires sft.filePos == 0 && sft.openMode % 4 == 1 && sft.InRange()
    ensures AtEndOf(s, sft.Handle(), Joined([])) && SftAt(sft, |Joined([])|)
  {
  }

  /** The slice read at pos continues what has been read before it; a short one ends the file. */
  lemma SliceContinues(c: seq<byte>, pos: nat, want: nat)
    requires pos <= |c| && want > 0
    ensures var n := Available(c, pos, want);
            && n <= want && pos + n <= |c| && c[..pos] + ReadAt(c, pos, want) == c[..pos + n]
            && (n < want ==> pos + n == |c|)
  {
  }

  /**
   * READFIL calls until one comes back short, on any line, from the start of a file c below 4 GiB: either one of
   * them fails, or what they brought is the file. None fails on a line that never loses ten attempts in a row.
   */
  method CopyOut(tsr: Tsr, sft: Sft, dta: array<byte>, want: nat, ghost c: seq<byte>)
    returns (ok: bool, data: seq<byte>)
    requires tsr.client.Valid() && sft.InRange() && sft.filePos == 0 && sft.openMode % 2 == 0
    requires 0 < want < U16_LIMIT && want <= dta.Length && dta !in tsr.client.Parts()
    requires FileData(tsr.client.State(), sft.Handle()) == Some(c) && |c| < U32_LIMIT
    modifies tsr, sft`filePos, dta, tsr.client.Parts()
    ensures tsr.client.Valid() && tsr.client.State() == old(tsr.client.State())
    ensures ok ==> data == c && sft.filePos == |data|
    ensures old(tsr.client.line.script) == [] ==> tsr.client.line.script == []
    ensures Steady(old(tsr.client.line.script)) ==> ok && Steady(tsr.client.line.script)
  {
    hide Good, FileData, ReadAt, Available, Steady;
    ghost var s := tsr.client.State();
    data := [];
    while true
      invariant tsr.client.Valid() && tsr.client.State() == s && sft.InRange()
      invariant sft.filePos <= |c| && data == c[..sft.filePos]
      invariant old(tsr.client.line.script) == [] ==> tsr.client.line.script == []
      invariant Steady(old(tsr.client.line.script)) ==> Steady(tsr.client.line.script)
      decreases |c| - sft.filePos
    {
      ghost var pos := sft.filePos;
      tsr.cx := want;
      tsr.ReadFile(sft, dta);
      if tsr.carry { return false, data; }
      SliceContinues(c, pos, want);
      AvailableIsRead(c, pos, want);
      data := data + dta[..tsr.cx];
      assert c[..|c|] == c;
      if tsr.cx < want { return true, data; }
    }
  }

  /** A file that holds c, closed with the stamps of the present, can be opened exactly if its size fits. */
  lemma WrittenCloses(s: FsOps.Server, sft: Sft, q: seq<byte>, c: seq<byte>)
    requires sft.InRange() && sft.openMode % 2 == 1 && IsZone(s.os.zone)
    requires q != [] && AtEndOf(s, sft.Handle(), c) && OnFile(s, sft.Handle(), q, sft.fileTime)
    ensures var s' := Close(s, ClosePayload(sft)).0; Stores(s', q, c) && (CanOpen(s', q) <==> |c| < U32_LIMIT)
  {
    hide WritesTo, ModifiedNow, Stores, Close, CanOpen, IsZone, StampsAt, FromU16, U16, FileOf, PosOf, Writable;
    WritesToStores(s, sft.Handle(), q);
    var stamps, p := StampsAt(s.os.zone, s.os.clock), ClosePayload(sft);
    assert p[1..3] == U16(stamps.0) && p[3..5] == U16(stamps.1);
    U16RoundTrip(stamps.0);
    U16RoundTrip(stamps.1);
    WritableIsThere(s, sft.Handle());
    ClosedCanOpen(s, p, q, c);
  }

  lemma WritableIsThere(s: FsOps.Server, hid: byte)
    requires Writable(s, hid)
    ensures Get(s.slots, hid).Some?
  {
  }

  /** The file behind fn1 holds c once its writer has closed it. */
  method CloseWritten(tsr: Tsr, sft: Sft, ghost q: seq<byte>, ghost c: seq<byte>)
    requires tsr.client.Valid() && tsr.client.line.script == [] && sft.InRange() && sft.openMode % 2 == 1
    requires IsZone(tsr.client.State().os.zone)
    requires q != [] && AtEndOf(tsr.client.State(), sft.Handle(), c)
    requires OnFile(tsr.client.State(), sft.Handle(), q, sft.fileTime)
    modifies tsr`ax, tsr`carry, tsr.client.Parts()
    ensures tsr.client.Valid() && tsr.client.line.script == [] && !tsr.carry
    ensures Stores(tsr.client.State(), q, c)
    ensures CanOpen(tsr.client.State(), q) <==> |c| < U32_LIMIT
  {
    hide Good, AtEndOf, OnFile, Stores, Close, ClosePayload, CanOpen, IsZone;
    WrittenCloses(tsr.client.State(), sft, q, c);
    CloseFile(tsr, sft);
  }

  /** A handle that AL_OPEN took for a path that stores c reads c. */
  lemma OpenedStored(s: FsOps.Server, fn1: seq<byte>, c: seq<byte>, now: FsOps.Server, k: nat)
    requires Good(s) && |fn1| >= 2 && Stores(s, PathPayload(0, fn1), c)
    requires now == Open(s, PathPayload(0, fn1)).0 && TookSlot(s.slots, now.slots, k)
    ensures k < MAX_HANDLES && FileData(now, k) == Some(c)
  {
    hide PathPayload, Good, Stores, FileData, Occupied, Open;
    var p := PathPayload(0, fn1);
    LeadIsFirst(0, fn1);
    OpeningReads(s, p, p, c);
    OpenTakesSlot(s, p);
    assert s.slots[k].None?;
    hide LeastFree;
  }

  /** CREATE, WRITEFIL for each buffer and CLSFIL. */
  method Save(tsr: Tsr, sft: Sft, fn1: seq<byte>, buffers: seq<seq<byte>>)
    requires tsr.client.Valid() && tsr.client.line.script == [] && IsZone(tsr.client.State().os.zone)
    requires Named(fn1) && |fn1| < FN1_LIMIT && forall b :: b in buffers ==> |b| < U16_LIMIT
    modifies tsr, sft, tsr.client.Parts()
    ensures tsr.client.Valid() && tsr.client.line.script == []
    ensures !tsr.carry <==> CanCreate(old(tsr.client.State()), PathPayload(0, fn1), false)
    ensures !tsr.carry ==>
              && Stores(tsr.client.State(), PathPayload(0, fn1), Joined(buffers))
              && (CanOpen(tsr.client.State(), PathPayload(0, fn1)) <==> |Joined(buffers)| < U32_LIMIT)
  {
    hide Good, AtEndOf, OnFile, Stores, HasWildcard, PathPayload, Joined, CanCreate, CanOpen, IsZone;
    CopyIn(tsr, sft, fn1, buffers);
    if !tsr.carry { CloseWritten(tsr, sft, PathPayload(0, fn1), Joined(buffers)); }
  }

  lemma OpenableFits(s: FsOps.Server, q: seq<byte>, c: seq<byte>)
    requires q != [] && Stores(s, q, c) && CanOpen(s, q)
    ensures |c| < U32_LIMIT
  {
    hide Locate, StampsAt, Occupied;
  }

  /** OPEN of a path that stores c, and READFIL to the end. */
  method Load(tsr: Tsr, sft: Sft, fn1: seq<byte>, dta: array<byte>, want: nat, ghost c: seq<byte>)
    returns (ok: bool, data: seq<byte>)
    requires tsr.client.Valid() && tsr.client.line.script == [] && Named(fn1) && |fn1| < FN1_LIMIT
    requires 0 < want < U16_LIMIT && want <= dta.Length && dta !in tsr.client.Parts()
    requires Stores(tsr.client.State(), PathPayload(0, fn1), c)
    modifies tsr, sft, dta, tsr.client.Parts()
    ensures tsr.client.Valid()
    ensures ok <==> CanOpen(old(tsr.client.State()), PathPayload(0, fn1))
    ensures ok ==> data == c
  {
    hide Good, Stores, HasWildcard, PathPayload, FileData, Open, TookSlot, CanOpen, Steady, OpenError, AnsweredBy,
         Abandoned;
    NoLossIsSteady();
    ghost var s := tsr.client.State();
    sft.openMode := 0;
    OpenFile(tsr, sft, fn1);
    if tsr.carry { return false, []; }
    OpenableFits(s, PathPayload(0, fn1), c);
    OpenedStored(s, fn1, c, tsr.client.State(), sft.startSector);
    ok, data := CopyOut(tsr, sft, dta, want, c);
  }

  /**
   * What a program saves is what it loads: CREATE, WRITEFIL for each buffer, CLSFIL, OPEN of the same path,
   * READFIL to the end. On a line without losses this succeeds exactly where the path can be created or emptied
   * and the buffers joined stay below 4 GiB; then the bytes read are the buffers joined.
   */
  method SaveAndLoad(tsr: Tsr, sft: Sft, fn1: seq<byte>, buffers: seq<seq<byte>>, dta: array<byte>, want: nat)
    returns (ok: bool, data: seq<byte>)
    requires tsr.client.Valid() && tsr.client.line.script == [] && IsZone(tsr.client.State().os.zone)
    requires Named(fn1) && |fn1| < FN1_LIMIT && forall b :: b in buffers ==> |b| < U16_LIMIT
    requires 0 < want < U16_LIMIT && want <= dta.Length && dta !in tsr.client.Parts()
    modifies tsr, sft, dta, tsr.client.Parts()
    ensures tsr.client.Valid()
    ensures ok <==> CanCreate(old(tsr.client.State()), PathPayload(0, fn1), false) && |Joined(buffers)| < U32_LIMIT
    ensures ok ==> data == Joined(buffers)
  {
    hide Good, Stores, HasWildcard, PathPayload, Joined, CanCreate, CanOpen, IsZone, OpenError, CreateError;
    Save(tsr, sft, fn1, buffers);
    if tsr.carry { return false, []; }
    ok, data := Load(tsr, sft, fn1, dta, want, Joined(buffers));
  }

  /**
   * An extended open and a WRITEFIL through its SFT, on a line without losses: the WRITEFIL succeeds exactly
   * if the open did, with an action code that does not probe and a mode that writes. What is created or
   * emptied behind a probe cannot be written.
   */
  method SaveExtended(tsr: Tsr, sft: Sft, fn1: seq<byte>, act: nat, data: seq<byte>) returns (ready: bool)
    requires tsr.client.Valid() && tsr.client.line.script == [] && Named(fn1) && |fn1| < FN1_LIMIT
    requires 0 < |data| < U16_LIMIT
    modifies tsr, sft, tsr.client.Parts()
    ensures tsr.client.Valid()
    ensures ready <==> Outcome(old(tsr.client.State()), PathPayload(0, fn1), old(sft.openMode) % 4,
                                HighAction(act), LowAction(act)).Some?
    ensures !tsr.carry <==> ready && !Probes(HighAction(act), LowAction(act)) && old(sft.openMode) % 2 == 1
    ensures ready && tsr.carry ==> tsr.ax == 5
  {
    hide Good, PathPayload, Ready, HighAction, LowAction, Outcome, Steady, Written, Progress, Moves, Writable, FileData,
         HasWildcard, Probes;
    NoLossIsSteady();
    ProbingReads(tsr.client.State(), PathPayload(0, fn1), sft.openMode % 4, HighAction(act), LowAction(act));
    ExtendedOpen(tsr, sft, fn1, act);
    ready := !tsr.carry;
    if ready {
      ReadyMode(old(tsr.client.State()).slots, tsr.client.State(), sft, old(sft.openMode) % 4, tsr.cx);
      tsr.cx := |data|;
      var _ := tsr.WriteFile(sft, data);
    }
  }

  lemma ReadyMode(slots: Slots, s: FsOps.Server, sft: Sft, mode: nat, cx: nat)
    requires Ready(slots, s, sft, mode, cx)
    ensures sft.openMode % 4 == mode && sft.InRange() && (cx != 1 ==> Writable(s, sft.Handle()))
  {
  }

  /** Behind a probe only mode 0 succeeds, and only a probe opens what exists. */
  lemma ProbingReads(s: FsOps.Server, q: seq<byte>, mode: nat, hi: nat, lo: nat)
    requires q != []
    ensures var out := Outcome(s, q, mode, hi, lo);
            && (Probes(hi, lo) && out.Some? ==> mode == MODE_READ_ONLY)
            && (!Probes(hi, lo) && out.Some? ==> out.value == 2)
  {
    hide CanOpen, CanCreate, NamesFile, NamesNothing, Probes;
  }
}
