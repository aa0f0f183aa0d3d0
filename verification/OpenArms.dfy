/** The redirector's open, create and extended-open arms: several requests each, and one handle more or none. */
module OpenArms {
  import opened Bytes
  import opened Options
  import opened Frame
  import opened Clock
  import opened NameMaps
  import opened Os
  import opened PathJail
  import opened Handles
  import opened FsOps
  import opened ServerRuns
  import opened Rpc
  import opened Transfers
  import opened Opening
  import opened FileRuns
  import opened Requests
  import opened Redirector

  const STAR: byte := 0x2A
  const MARK: byte := 0x3F

  /** fn1 up to its terminator; DOS keeps it in a field of 128 bytes. */
  const FN1_LIMIT := 128

  predicate HasWildcard(fn1: seq<byte>) { STAR in fn1 || MARK in fn1 }

  method LenIfNoWildcards(fn1: seq<byte>) returns (r: int)
    ensures r == if HasWildcard(fn1) then -1 else |fn1|
  {
    var i := 0;
    while i < |fn1|
      invariant 0 <= i <= |fn1|
      invariant !HasWildcard(fn1[..i])
    {
      if fn1[i] == MARK || fn1[i] == STAR { return -1; }
      assert fn1[..i + 1] == fn1[..i] + [fn1[i]];
      i := i + 1;
    }
    assert fn1[..i] == fn1;
    return i;
  }

  /** A leading byte, the path behind "X:" and a NUL. */
  function PathPayload(lead: byte, fn1: seq<byte>): (p: seq<byte>)
    requires 2 <= |fn1|
    ensures |p| == |fn1|
  {
    [lead] + fn1[2..] + [0]
  }

  lemma SameTail(lead: byte, fn1: seq<byte>)
    requires 2 <= |fn1|
    ensures PathPayload(0, fn1)[1..] == PathPayload(lead, fn1)[1..]
  {
  }

  /** copy_fn1_path behind the leading byte. */
  method CopyFn1Path(lead: byte, fn1: seq<byte>) returns (p: seq<byte>)
    requires 2 <= |fn1| < FN1_LIMIT
    ensures p == PathPayload(lead, fn1)
  {
    p := [lead];
    var i := 0;
    while i + 2 < |fn1| && 1 + i < 509
      invariant 0 <= i <= |fn1| - 2
      invariant p == [lead] + fn1[2..2 + i]
    {
      p := p + [fn1[i + 2]];
      i := i + 1;
    }
    p := p + [0];
  }

  /** One slot more is occupied, the least free one, by a file handle; nothing else has changed. */
  ghost predicate TookSlot(slots: Slots, slots': Slots, k: nat) {
    k == Free(slots) < MAX_HANDLES && GetFile(slots', k).Some? && slots' == Put(slots, k, GetFile(slots', k))
  }

  /** A call and its reply: one of its own executions' result; without losses, exactly one execution. */
  method Ask(client: Client, cmd: byte, p: seq<byte>) returns (ok: bool, status: byte, replyLen: nat)
    requires client.Valid() && |p| <= MAX_PAYLOAD
    modifies client.Parts()
    ensures client.Valid() && (ok ==> replyLen <= MAX_PAYLOAD)
    ensures Repeated(old(client.State()), cmd, p, client.State())
    ensures ok ==>
              AnsweredBy(old(client.State()), cmd, p, client.State(), Reply(status, client.reply[..replyLen]))
    ensures old(client.line.script) == [] ==>
              && client.line.script == [] && ok
              && client.State() == Dispatch(old(client.State()), cmd, p).0
              && Reply(status, client.reply[..replyLen]) == Dispatch(old(client.State()), cmd, p).1
  {
    hide Good, Dispatch, After, ResultOf;
    ghost var s := client.State();
    var rc, st, len, n, j := client.SerialRpc(cmd, p);
    if old(client.line.script) == [] { OneExecution(s, cmd, p); }
    return rc == RpcOk, st, len;
  }

  lemma OneExecution(s: FsOps.Server, cmd: byte, p: seq<byte>)
    ensures After(s, cmd, p, 1) == Dispatch(s, cmd, p).0 && ResultOf(s, cmd, p, 1) == Dispatch(s, cmd, p).1
  {
    hide Dispatch;
    assert After(s, cmd, p, 0) == s;
  }

  /** The low byte of the open mode. */
  function WithMode(openMode: nat, mode: nat): nat { openMode / 256 * 256 + mode }

  lemma ModeIsLow(openMode: nat, mode: nat)
    requires mode < 4
    ensures WithMode(openMode, mode) % 4 == WithMode(openMode, mode) % 256 == mode
    ensures WithMode(openMode, mode) / 256 == openMode / 256
  {
    LowByte(openMode / 256, mode);
    LowBits(openMode / 256 * 64, mode);
  }

  lemma LowByte(high: nat, low: nat)
    requires low < 4
    ensures (high * 256 + low) / 256 == high && (high * 256 + low) % 256 == low
  {
  }

  lemma LowBits(q: nat, low: nat)
    requires low < 4
    ensures (q * 4 + low) % 4 == low
  {
  }

  ghost predicate AttrOk(r: Reply) { r.status == STATUS_OK && |r.data| >= 9 }

  /** file_time: the date in the high word, the time in the low word. */
  function StampWord(data: seq<byte>): (w: int)
    requires |data| >= 9
    ensures 0 <= w < U32_LIMIT
  {
    U16_LIMIT * FromU16(data[5..7]) + FromU16(data[7..9])
  }

  /** GET_ATTR for fn1, and the size and the stamps in its reply. */
  method AskAttr(client: Client, fn1: seq<byte>) returns (ok: bool, size: int, stamps: int)
    requires client.Valid() && 2 <= |fn1| < FN1_LIMIT
    modifies client.Parts()
    ensures client.Valid() && 0 <= size < U32_LIMIT && 0 <= stamps < U32_LIMIT
    ensures client.State() == old(client.State())
    ensures old(client.line.script) == [] ==>
              var r := GetAttr(old(client.State()), PathPayload(0, fn1)).1;
              && client.line.script == []
              && (ok <==> AttrOk(r)) && (ok ==> size == FromU32(r.data[1..5]) && stamps == StampWord(r.data))
  {
    hide Good, GetAttr, Close, Dispatch, FromU32, PathPayload, StampWord, Repeated, AnsweredBy;
    ghost var s := client.State();
    var p := CopyFn1Path(0, fn1);
    var done, status, replyLen := Ask(client, CMD_GET_ATTR, p);
    PlainHandlers(s, p, 0);
    AttrsChangeNothing(s, p, client.State());
    ok, size, stamps := done && status == STATUS_OK && replyLen >= 9, 0, 0;
    if ok {
      var data := client.reply[..replyLen];
      size, stamps := FromU32(data[1..5]), StampWord(data);
    }
  }

  lemma AttrsChangeNothing(s: FsOps.Server, p: seq<byte>, s': FsOps.Server)
    requires Repeated(s, CMD_GET_ATTR, p, s')
    ensures s' == s
  {
    var n: nat :| n <= RETRIES && s' == After(s, CMD_GET_ATTR, p, n);
    AttrRepeats(s, p, n);
  }

  lemma {:induction false} AttrRepeats(s: FsOps.Server, p: seq<byte>, n: nat)
    ensures After(s, CMD_GET_ATTR, p, n) == s
  {
    hide Dispatch, GetAttr;
    PlainHandlers(s, p, 0);
    if n > 0 { AttrRepeats(s, p, n - 1); }
  }

  /** Closes a handle that could not be used, and fails with error 2. */
  method GiveUp(tsr: Tsr, hid: byte)
    requires tsr.client.Valid()
    modifies tsr`ax, tsr`carry, tsr.client.Parts()
    ensures tsr.client.Valid() && tsr.carry && tsr.ax == 2
    ensures Repeated(old(tsr.client.State()), CMD_CLOSE, [hid], tsr.client.State())
    ensures old(tsr.client.line.script) == [] ==>
              tsr.client.line.script == [] && tsr.client.State() == Close(old(tsr.client.State()), [hid]).0
  {
    hide Good, Close, Dispatch, Repeated, AnsweredBy;
    PlainHandlers(tsr.client.State(), [], hid);
    var _, _, _ := Ask(tsr.client, CMD_CLOSE, [hid]);
    tsr.Fail(2);
  }

  /**
   * The end of every open arm: GET_ATTR to fill the SFT. When that fails, the handle is closed again and
   * the arm fails with error 2.
   */
  method FillSft(tsr: Tsr, sft: Sft, fn1: seq<byte>, hid: byte, mode: nat)
    requires tsr.client.Valid() && 2 <= |fn1| < FN1_LIMIT && !tsr.carry
    modifies tsr`ax, tsr`carry, sft, tsr.client.Parts()
    ensures tsr.client.Valid()
    ensures tsr.carry ==>
              tsr.ax == 2 && Repeated(old(tsr.client.State()), CMD_CLOSE, [hid], tsr.client.State())
    ensures !tsr.carry ==>
              && sft.startSector == hid && sft.filePos == 0 && sft.InRange()
              && sft.openMode == WithMode(old(sft.openMode), mode)
              && tsr.client.State() == old(tsr.client.State())
    ensures old(tsr.client.line.script) == [] ==>
              var s := old(tsr.client.State());
              var r := GetAttr(s, PathPayload(0, fn1)).1;
              && tsr.client.line.script == []
              && (tsr.carry <==> !AttrOk(r))
              && (tsr.carry ==> tsr.client.State() == Close(s, [hid]).0)
              && (!tsr.carry ==> sft.fileSize == FromU32(r.data[1..5]) && sft.fileTime == StampWord(r.data))
  {
    hide Good, GetAttr, Close, Dispatch, FromU32, PathPayload, WithMode, AttrOk, StampWord, Repeated;
    var ok, size, stamps := AskAttr(tsr.client, fn1);
    if !ok {
      GiveUp(tsr, hid);
      return;
    }
    sft.startSector := hid;
    sft.fileSize := size;
    sft.fileTime := stamps;
    sft.filePos := 0;
    sft.openMode := WithMode(sft.openMode, mode);
  }

  /** The request has been executed at most ten times, and after that perhaps a CLOSE of a handle it returned. */
  ghost predicate Abandoned(s: FsOps.Server, cmd: byte, p: seq<byte>, s': FsOps.Server) {
    || Repeated(s, cmd, p, s')
    || exists now, hid: byte ::
         AnsweredBy(s, cmd, p, now, Reply(STATUS_OK, [hid])) && Repeated(now, CMD_CLOSE, [hid], s')
  }

  predicate Named(fn1: seq<byte>) { !HasWildcard(fn1) && |fn1| >= 2 }

  /** One CMD_OPEN or CMD_CREATE; on success the handle in the reply. */
  method AskHandle(client: Client, cmd: byte, p: seq<byte>) returns (ok: bool, status: byte, hid: byte)
    requires client.Valid() && |p| <= MAX_PAYLOAD && cmd in {CMD_OPEN, CMD_CREATE}
    modifies client.Parts()
    ensures client.Valid() && Repeated(old(client.State()), cmd, p, client.State())
    ensures ok ==> AnsweredBy(old(client.State()), cmd, p, client.State(), Reply(STATUS_OK, [hid]))
    ensures old(client.line.script) == [] ==>
              var result := if cmd == CMD_OPEN then Open(old(client.State()), p) else Create(old(client.State()), p);
              && client.line.script == [] && client.State() == result.0 && TakesSlot(old(client.State()), result)
              && status == result.1.status && (ok <==> status == STATUS_OK) && (ok ==> [hid] == result.1.data)
  {
    hide Good, Open, Create, Dispatch, TakesSlot, Repeated, AnsweredBy;
    ghost var s := client.State();
    var done, replyLen;
    done, status, replyLen := Ask(client, cmd, p);
    PlainHandlers(s, p, 0);
    OpenTakesSlot(s, p);
    CreateTakesSlot(s, p);
    ok, hid := done && status == STATUS_OK && replyLen >= 1, 0;
    if old(client.line.script) == [] { TakenIsOneByte(s, if cmd == CMD_OPEN then Open(s, p) else Create(s, p)); }
    if ok {
      hid := client.reply[0];
      assert client.reply[..replyLen][0] == hid;
      HandleIsOneByte(s, cmd, p, client.State(), client.reply[..replyLen]);
    }
  }

  lemma HandleIsOneByte(s: FsOps.Server, cmd: byte, p: seq<byte>, s': FsOps.Server, data: seq<byte>)
    requires cmd in {CMD_OPEN, CMD_CREATE} && AnsweredBy(s, cmd, p, s', Reply(STATUS_OK, data)) && data != []
    ensures data == [data[0]]
  {
    var n: nat, j: nat :|
      1 <= j <= n <= RETRIES && s' == After(s, cmd, p, n) && Reply(STATUS_OK, data) == ResultOf(s, cmd, p, j);
    var before := After(s, cmd, p, j - 1);
    PlainHandlers(before, p, 0);
    OpenTakesSlot(before, p);
    CreateTakesSlot(before, p);
    hide Open, Create, Dispatch, After;
  }

  lemma TakenIsOneByte(s: FsOps.Server, result: (FsOps.Server, Reply))
    requires TakesSlot(s, result)
    ensures result.1.status == STATUS_OK ==> |result.1.data| == 1
  {
  }

  lemma PlainHandlers(s: FsOps.Server, p: seq<byte>, hid: byte)
    ensures Dispatch(s, CMD_GET_ATTR, p) == GetAttr(s, p) && GetAttr(s, p).0 == s
    ensures Dispatch(s, CMD_CLOSE, [hid]) == Close(s, [hid])
    ensures Dispatch(s, CMD_OPEN, p) == Open(s, p) && Dispatch(s, CMD_CREATE, p) == Create(s, p)
  {
    hide Locate;
  }

  /** A handle that reads a file whose size the SFT knows, at the start of it. */
  ghost predicate ReadyToRead(s: FsOps.Server, hid: byte, size: int) {
    FileData(s, hid).Some? && size == |FileData(s, hid).value|
  }

  /** A handle that writes an empty file whose size the SFT knows, at the start of it. */
  ghost predicate ReadyToWrite(s: FsOps.Server, hid: byte, size: int) {
    Writable(s, hid) && FileOf(s, hid) == [] && PosOf(s, hid) == 0
    && GetFile(s.slots, hid).value.offset == 0 && size == 0
  }

  /** After a successful OPEN: what GET_ATTR says fits the handle, and CLOSE gives the slots back. */
  lemma AfterOpen(s: FsOps.Server, fn1: seq<byte>, mode: byte, hid: byte)
    requires Good(s) && |fn1| >= 2
    requires var (s', r) := Open(s, PathPayload(mode, fn1)); r.status == STATUS_OK && r.data == [hid]
    ensures var s' := Open(s, PathPayload(mode, fn1)).0;
            var r := GetAttr(s', PathPayload(0, fn1)).1;
            && Close(s', [hid]).0.slots == s.slots
            && TookSlot(s.slots, s'.slots, hid)
            && (AttrOk(r) ==> |r.data| == 9 && ReadyToRead(s', hid, FromU32(r.data[1..5])))
  {
    var p, q := PathPayload(mode, fn1), PathPayload(0, fn1);
    SameTail(mode, fn1);
    hide Good, Open, GetAttr, Close, FileData, FromU32, LeastFree, PathPayload, TakesSlot, TookSlot;
    OpenTakesSlot(s, p);
    JustTaken(s, Open(s, p), hid);
    SizeAfterOpen(s, p, q);
  }

  /** A handle that was just taken took one slot, and CLOSE gives it back. */
  lemma JustTaken(s: FsOps.Server, result: (FsOps.Server, Reply), hid: byte)
    requires TakesSlot(s, result) && result.1 == Reply(STATUS_OK, [hid])
    ensures Close(result.0, [hid]).0.slots == s.slots
    ensures TookSlot(s.slots, result.0.slots, hid) && hid == Free(s.slots)
  {
    CloseUndoes(s, result);
    hide Close, LeastFree;
  }

  lemma CreatedIsReady(s: FsOps.Server, p: seq<byte>, q: seq<byte>, hid: byte, result: (FsOps.Server, Reply))
    requires Good(s) && result == Create(s, p) && result.1.status == STATUS_OK
    requires hid == Free(s.slots) && |q| == |p| && q[1..] == p[1..]
    ensures var r := GetAttr(result.0, q).1;
            AttrOk(r) ==> |r.data| == 9 && ReadyToWrite(result.0, hid, FromU32(r.data[1..5]))
  {
    hide Good, Create, GetAttr, Writable, FromU32, LeastFree, FileOf, PosOf, Locate;
    SizeAfterCreate(s, p, q);
    CreatedIsEmpty(s, p);
  }

  lemma AfterCreate(s: FsOps.Server, fn1: seq<byte>, mode: byte, hid: byte, result: (FsOps.Server, Reply))
    requires Good(s) && |fn1| >= 2
    requires result == Create(s, PathPayload(mode, fn1)) && result.1 == Reply(STATUS_OK, [hid])
    ensures Close(result.0, [hid]).0.slots == s.slots && WritesTo(result.0, hid, PathPayload(0, fn1))
    ensures TookSlot(s.slots, result.0.slots, hid)
    ensures var r := GetAttr(result.0, PathPayload(0, fn1)).1;
            AttrOk(r) ==> |r.data| == 9 && ReadyToWrite(result.0, hid, FromU32(r.data[1..5]))
  {
    var p, q := PathPayload(mode, fn1), PathPayload(0, fn1);
    SameTail(mode, fn1);
    hide Good, Create, GetAttr, Close, FromU32, LeastFree, PathPayload, TakesSlot, TookSlot, ReadyToWrite, AttrOk,
         WritesTo;
    CreateTakesSlot(s, p);
    JustTaken(s, result, hid);
    CreatedWritesTo(s, p, q);
    CreatedIsReady(s, p, q, hid, result);
  }

  lemma OpenWantsModeZero(s: FsOps.Server, fn1: seq<byte>, mode: byte)
    requires |fn1| >= 2 && mode != 0
    ensures Open(s, PathPayload(mode, fn1)) == (s, Reply(ERR_UNSUPPORTED, []))
  {
  }

  /** OPEN and the GET_ATTR behind it succeed exactly in mode 0 where the path can be opened. */
  lemma OpenWorks(s: FsOps.Server, fn1: seq<byte>, mode: byte)
    requires Good(s) && |fn1| >= 2
    ensures var (s', r) := Open(s, PathPayload(mode, fn1));
            r.status == STATUS_OK && AttrOk(GetAttr(s', PathPayload(0, fn1)).1)
            <==> mode == MODE_READ_ONLY && CanOpen(s, PathPayload(0, fn1))
  {
    hide Good, Open, GetAttr, CanOpen, PathPayload;
    var p, q := PathPayload(mode, fn1), PathPayload(0, fn1);
    SameTail(mode, fn1);
    LeadIsFirst(mode, fn1);
    OpenAndAttrVerdict(s, p, q);
    if Open(s, p).1.status == STATUS_OK { SizeAfterOpen(s, p, q); }
  }

  lemma LeadIsFirst(lead: byte, fn1: seq<byte>)
    requires |fn1| >= 2
    ensures PathPayload(lead, fn1)[0] == lead
  {
  }

  /** CREATE and the GET_ATTR behind it succeed exactly where the path can be created. */
  lemma CreateWorks(s: FsOps.Server, fn1: seq<byte>, lead: byte)
    requires Good(s) && |fn1| >= 2 && lead <= 1
    ensures var (s', r) := Create(s, PathPayload(lead, fn1));
            r.status == STATUS_OK && AttrOk(GetAttr(s', PathPayload(0, fn1)).1)
            <==> CanCreate(s, PathPayload(0, fn1), lead == 0)
  {
    hide Good, Create, GetAttr, CanCreate, PathPayload;
    var p, q := PathPayload(lead, fn1), PathPayload(0, fn1);
    SameTail(lead, fn1);
    LeadIsFirst(lead, fn1);
    CreateAndAttrVerdict(s, p, q);
    if Create(s, p).1.status == STATUS_OK { SizeAfterCreate(s, p, q); }
  }

  /**
   * One slot more than in slots, the SFT's, and the SFT agrees with the handle in it: cx tells whether that
   * reads an existing file or writes an empty one.
   */
  ghost predicate Ready(slots: Slots, s: FsOps.Server, sft: Sft, mode: nat, cx: nat)
    reads sft
  {
    && TookSlot(slots, s.slots, sft.startSector)
    && sft.filePos == 0 && sft.openMode % 4 == mode && sft.InRange()
    && if cx == 1 then ReadyToRead(s, sft.Handle(), sft.fileSize) else ReadyToWrite(s, sft.Handle(), sft.fileSize)
  }

  /** Without losses, the SFT behind a successful OPEN in server state s. */
  method FillOpened(tsr: Tsr, sft: Sft, fn1: seq<byte>, hid: byte, mode: byte, ghost s: FsOps.Server,
                    ghost clean: bool)
    requires tsr.client.Valid() && 2 <= |fn1| < FN1_LIMIT && !tsr.carry && mode < 4 && Good(s)
    requires clean ==>
               && tsr.client.line.script == [] && tsr.client.State() == Open(s, PathPayload(mode, fn1)).0
               && Open(s, PathPayload(mode, fn1)).1 == Reply(STATUS_OK, [hid])
    modifies tsr`ax, tsr`carry, sft, tsr.client.Parts()
    ensures tsr.client.Valid()
    ensures clean ==>
              && tsr.client.line.script == []
              && (!tsr.carry <==> mode == MODE_READ_ONLY && CanOpen(s, PathPayload(0, fn1)))
              && (tsr.carry ==> tsr.client.State().slots == s.slots)
              && (!tsr.carry ==> Ready(s.slots, tsr.client.State(), sft, mode, 1))
    ensures tsr.carry ==>
              tsr.ax == 2 && Repeated(old(tsr.client.State()), CMD_CLOSE, [hid], tsr.client.State())
    ensures !tsr.carry ==> sft.startSector == hid && tsr.client.State() == old(tsr.client.State())
  {
    hide Good, Close, Open, TookSlot, PathPayload, GetAttr, AttrOk, ReadyToRead, WithMode, FromU32, CanOpen, StampWord,
         Repeated;
    if clean { AfterOpen(s, fn1, mode, hid); }
    OpenWorks(s, fn1, mode);
    ModeIsLow(sft.openMode, mode);
    FillSft(tsr, sft, fn1, hid, mode);
  }

  /**
   * AL_OPEN. Without losses it succeeds exactly in mode 0 on a file whose entry packs, with a slot free. Success
   * takes exactly one slot more, which the SFT records, for a handle that reads the file from its start;
   * failure leaves the slots as they were. On any line success means that one of the executions of OPEN returned
   * the handle in the SFT, and failure that a handle it may have returned has been closed again, if the CLOSE got
   * through.
   */
  method OpenFile(tsr: Tsr, sft: Sft, fn1: seq<byte>)
    requires tsr.client.Valid() && |fn1| < FN1_LIMIT
    modifies tsr`ax, tsr`carry, sft, tsr.client.Parts()
    ensures tsr.client.Valid()
    ensures !Named(fn1) ==> tsr.carry && tsr.ax == 3 && tsr.client.State() == old(tsr.client.State())
    ensures !tsr.carry ==>
              AnsweredBy(old(tsr.client.State()), CMD_OPEN, PathPayload(old(sft.openMode) % 4, fn1), tsr.client.State(),
                         Reply(STATUS_OK, [sft.Handle()]))
    ensures tsr.carry && Named(fn1) ==>
              Abandoned(old(tsr.client.State()), CMD_OPEN, PathPayload(old(sft.openMode) % 4, fn1), tsr.client.State())
    ensures old(tsr.client.line.script) == [] && Named(fn1) ==> tsr.client.line.script == []
    ensures old(tsr.client.line.script) == [] && tsr.carry ==>
              tsr.client.State().slots == old(tsr.client.State()).slots
    ensures old(tsr.client.line.script) == [] && !tsr.carry ==>
              && TookSlot(old(tsr.client.State()).slots, tsr.client.State().slots, sft.startSector)
              && sft.filePos == 0 && sft.openMode % 4 == 0 && sft.InRange()
              && ReadyToRead(tsr.client.State(), sft.Handle(), sft.fileSize)
              && tsr.client.State() == Open(old(tsr.client.State()), PathPayload(0, fn1)).0
    ensures old(tsr.client.line.script) == [] && Named(fn1) ==>
              (!tsr.carry <==>
                 old(sft.openMode) % 4 == MODE_READ_ONLY && CanOpen(old(tsr.client.State()), PathPayload(0, fn1)))
    ensures old(tsr.client.line.script) == [] && Named(fn1) && old(sft.openMode) % 4 != 0 ==>
              tsr.carry && tsr.ax == 1
    ensures old(tsr.client.line.script) == [] && Named(fn1) && old(sft.openMode) % 4 == 0 ==>
              OpenError(old(tsr.client.State()), PathPayload(0, fn1), tsr.ax)
  {
    hide Good, GetAttr, Close, OpenError, Open, FromU32, AttrOk, TookSlot, ReadyToRead, TakesSlot, PathPayload,
         WithMode, DosError, CanOpen, AnsweredBy, Repeated;
    tsr.Succeed();
    var len := LenIfNoWildcards(fn1);
    if len < 2 {
      tsr.Fail(3);
      return;
    }
    ghost var s := tsr.client.State();
    var mode := sft.openMode % 4;
    var p := CopyFn1Path(mode, fn1);
    if mode != 0 { OpenWantsModeZero(s, fn1, mode); }
    OpenErrors(s, fn1);
    OpenWorks(s, fn1, mode);
    var ok, status, hid := AskHandle(tsr.client, CMD_OPEN, p);
    if !ok {
      FailedTakesNothing(s, Open(s, p));
      tsr.Fail(DosError(status));
      UnsupportedIsOne();
      return;
    }
    FillOpened(tsr, sft, fn1, hid, mode, s, old(tsr.client.line.script) == []);
  }

  /** The DOS error for a path that cannot be opened: 2, 3 or 5 by what it names, 29 without a slot. */
  ghost predicate OpenError(s: FsOps.Server, q: seq<byte>, ax: nat)
    requires q != []
  {
    && (NamesNothing(s, q) ==> ax == 2) && (Locate(s, q).None? ==> ax == 3) && (NamesDir(s, q) ==> ax == 5)
    && (NamesFile(s, q) && |Occupied(s.slots)| == MAX_HANDLES ==> ax == 29)
  }

  lemma OpenErrors(s: FsOps.Server, fn1: seq<byte>)
    requires |fn1| >= 2
    ensures var q := PathPayload(0, fn1);
            && (Open(s, q).1.status != STATUS_OK ==> OpenError(s, q, DosError(Open(s, q).1.status)))
            && (Open(s, q).1.status == STATUS_OK ==> forall ax: nat :: OpenError(s, q, ax))
  {
    hide Open, PathPayload, Locate, Occupied;
    var q := PathPayload(0, fn1);
    LeadIsFirst(0, fn1);
    OpenRefuses(s, q);
    OpenSucceeds(s, q);
  }

  lemma UnsupportedIsOne()
    ensures DosError(ERR_UNSUPPORTED) == 1
  {
  }

  /** A file_time that holds the date and time of the present. */
  ghost predicate HoldsStamps(fileTime: nat, os: OS) {
    ClockPacks(os) && fileTime == StampsWord(StampsAt(os.zone, os.clock))
  }

  function StampsWord(stamps: (nat, nat)): nat { U16_LIMIT * stamps.0 + stamps.1 }

  lemma StampsAfterCreate(s: FsOps.Server, fn1: seq<byte>, lead: byte)
    requires Good(s) && |fn1| >= 2 && Create(s, PathPayload(lead, fn1)).1.status == STATUS_OK
    ensures var r := GetAttr(Create(s, PathPayload(lead, fn1)).0, PathPayload(0, fn1)).1;
            AttrOk(r) ==> HoldsStamps(StampWord(r.data), s.os)
  {
    hide Good, Create, GetAttr, PathPayload, FromU16, StampsAt;
    SameTail(lead, fn1);
    SizeAfterCreate(s, PathPayload(lead, fn1), PathPayload(0, fn1));
  }

  /** Without losses, the SFT behind a successful CREATE in server state s. */
  method FillCreated(tsr: Tsr, sft: Sft, fn1: seq<byte>, hid: byte, mode: nat, lead: byte, ghost s: FsOps.Server,
                     ghost clean: bool)
    requires tsr.client.Valid() && 2 <= |fn1| < FN1_LIMIT && !tsr.carry && mode < 4 && Good(s)
    requires clean ==>
               && tsr.client.line.script == [] && tsr.client.State() == Create(s, PathPayload(lead, fn1)).0
               && Create(s, PathPayload(lead, fn1)).1 == Reply(STATUS_OK, [hid])
    modifies tsr`ax, tsr`carry, sft, tsr.client.Parts()
    ensures tsr.client.Valid()
    ensures clean ==>
              && tsr.client.line.script == []
              && (!tsr.carry <==> AttrOk(GetAttr(old(tsr.client.State()), PathPayload(0, fn1)).1))
              && (tsr.carry ==>
                    && tsr.client.State().slots == s.slots
                    && tsr.client.State() == Close(old(tsr.client.State()), [hid]).0)
    ensures tsr.carry ==>
              tsr.ax == 2 && Repeated(old(tsr.client.State()), CMD_CLOSE, [hid], tsr.client.State())
    ensures !tsr.carry ==>
              && sft.startSector == hid && sft.filePos == 0 && sft.openMode % 4 == mode && sft.InRange()
              && tsr.client.State() == old(tsr.client.State())
    ensures clean && !tsr.carry ==>
              && TookSlot(s.slots, tsr.client.State().slots, sft.startSector)
              && ReadyToWrite(tsr.client.State(), sft.Handle(), sft.fileSize)
              && WritesTo(tsr.client.State(), sft.Handle(), PathPayload(0, fn1))
              && HoldsStamps(sft.fileTime, s.os)
  {
    hide Good, GetAttr, Close, Create, FromU32, AttrOk, TookSlot, ReadyToWrite, PathPayload, WithMode, WritesTo,
         StampWord, HoldsStamps, Repeated;
    if clean {
      AfterCreate(s, fn1, lead, hid, Create(s, PathPayload(lead, fn1)));
      StampsAfterCreate(s, fn1, lead);
    }
    ModeIsLow(sft.openMode, mode);
    FillSft(tsr, sft, fn1, hid, mode);
  }

  /**
   * AL_CREATE. Without losses it succeeds exactly where the path can be created or emptied. Success takes
   * exactly one slot more, which the SFT records, for a handle that writes an empty file from its start;
   * failure leaves the slots as they were. A file that the path names is emptied in either case, and no other.
   * On any line success means that one of the executions of CREATE returned the handle in the SFT, and failure
   * is as for AL_OPEN.
   */
  method CreateFile(tsr: Tsr, sft: Sft, fn1: seq<byte>)
    requires tsr.client.Valid() && |fn1| < FN1_LIMIT
    modifies tsr`ax, tsr`carry, sft, tsr.client.Parts()
    ensures tsr.client.Valid()
    ensures !Named(fn1) ==> tsr.carry && tsr.ax == 3 && tsr.client.State() == old(tsr.client.State())
    ensures !tsr.carry ==>
              AnsweredBy(old(tsr.client.State()), CMD_CREATE, PathPayload(1, fn1), tsr.client.State(),
                         Reply(STATUS_OK, [sft.Handle()]))
    ensures tsr.carry && Named(fn1) ==>
              Abandoned(old(tsr.client.State()), CMD_CREATE, PathPayload(1, fn1), tsr.client.State())
    ensures old(tsr.client.line.script) == [] && Named(fn1) ==> tsr.client.line.script == []
    ensures old(tsr.client.line.script) == [] && tsr.carry ==>
              tsr.client.State().slots == old(tsr.client.State()).slots
    ensures old(tsr.client.line.script) == [] && !tsr.carry ==>
              && TookSlot(old(tsr.client.State()).slots, tsr.client.State().slots, sft.startSector)
              && sft.filePos == 0 && sft.openMode % 4 == 1 && sft.InRange()
              && ReadyToWrite(tsr.client.State(), sft.Handle(), sft.fileSize)
              && tsr.client.State() == Create(old(tsr.client.State()), PathPayload(1, fn1)).0
              && WritesTo(tsr.client.State(), sft.Handle(), PathPayload(0, fn1))
              && HoldsStamps(sft.fileTime, old(tsr.client.State()).os)
    ensures old(tsr.client.line.script) == [] && Named(fn1) ==>
              (!tsr.carry <==> CanCreate(old(tsr.client.State()), PathPayload(0, fn1), false))
    ensures old(tsr.client.line.script) == [] && Named(fn1) ==>
              EmptiedOnly(old(tsr.client.State()), PathPayload(0, fn1), tsr.client.State())
    ensures old(tsr.client.line.script) == [] && Named(fn1) ==>
              CreateError(old(tsr.client.State()), PathPayload(0, fn1), tsr.ax)
  {
    hide CreateError, Good, GetAttr, Close, Create, FromU32, FromU16, AttrOk, TookSlot, ReadyToWrite, TakesSlot,
         PathPayload, WithMode, DosError, WritesTo, CanCreate, HoldsStamps, EmptiedOnly, AnsweredBy, Repeated;
    tsr.Succeed();
    var len := LenIfNoWildcards(fn1);
    if len < 2 {
      tsr.Fail(3);
      return;
    }
    ghost var s := tsr.client.State();
    var p := CopyFn1Path(1, fn1);
    CreateWorks(s, fn1, 1);
    CreateEmptiesOnly(s, fn1);
    CreateErrors(s, fn1);
    var ok, status, hid := AskHandle(tsr.client, CMD_CREATE, p);
    if !ok {
      FailedTakesNothing(s, Create(s, p));
      tsr.Fail(DosError(status));
      return;
    }
    CloseEmptiesNothing(s, PathPayload(0, fn1), tsr.client.State(), hid);
    FillCreated(tsr, sft, fn1, hid, 1, 1, s, old(tsr.client.line.script) == []);
  }

  /** The DOS error for a path that cannot be created: 3 for a bad path, 2 without its directory, 29 for a directory. */
  ghost predicate CreateError(s: FsOps.Server, q: seq<byte>, ax: nat)
    requires q != []
  {
    && (Locate(s, q).None? ==> ax == 3) && (NamesDir(s, q) ==> ax == 29)
    && (Locate(s, q).Some? && Locate(s, q).value != [] && Parent(Locate(s, q).value) !in s.os.tree ==> ax == 2)
  }

  lemma CreateErrors(s: FsOps.Server, fn1: seq<byte>)
    requires Good(s) && |fn1| >= 2
    ensures var p, q := PathPayload(1, fn1), PathPayload(0, fn1);
            && (Create(s, p).1.status != STATUS_OK ==> CreateError(s, q, DosError(Create(s, p).1.status)))
            && (Create(s, p).1.status == STATUS_OK ==> forall ax: nat :: CreateError(s, q, ax))
  {
    hide Good, Create, PathPayload, Resolve, Occupied, DosPath, AliasFor, GoodTree;
    var p, q := PathPayload(1, fn1), PathPayload(0, fn1);
    LeadIsFirst(1, fn1);
    SameTail(1, fn1);
    SameDosPath(p, q);
    GoodHasTree(s);
    CreateRefuses(s, p);
    CreateSucceeds(s, p);
    if Locate(s, p).Some? && Locate(s, p).value in s.os.tree && Locate(s, p).value != [] {
      NotTheRoot(s.os.tree, Locate(s, p).value);
    }
  }

  /** Of the files there were, the one that the path names is empty now, and the others are as they were. */
  ghost predicate EmptiedOnly(s: FsOps.Server, q: seq<byte>, s': FsOps.Server)
    requires q != []
  {
    forall ino :: ino in s.os.inodes ==>
      ino in s'.os.inodes && s'.os.inodes[ino] == if NamesInode(s, q, ino) then [] else s.os.inodes[ino]
  }

  lemma CreateEmptiesOnly(s: FsOps.Server, fn1: seq<byte>)
    requires Good(s) && |fn1| >= 2
    ensures EmptiedOnly(s, PathPayload(0, fn1), Create(s, PathPayload(1, fn1)).0)
  {
    var p, q := PathPayload(1, fn1), PathPayload(0, fn1);
    SameTail(1, fn1);
    LeadIsFirst(1, fn1);
    SameDosPath(p, q);
    hide Good, Create, Resolve, PathPayload, DosPath;
    forall ino | ino in s.os.inodes
      ensures var inodes := Create(s, p).0.os.inodes;
              ino in inodes && inodes[ino] == if NamesInode(s, q, ino) then [] else s.os.inodes[ino]
    {
      CreateEmpties(s, p, ino);
    }
  }

  lemma CloseEmptiesNothing(s: FsOps.Server, q: seq<byte>, now: FsOps.Server, hid: byte)
    requires q != []
    ensures EmptiedOnly(s, q, now) ==> EmptiedOnly(s, q, Close(now, [hid]).0)
  {
    HandlesKeepContents(now, [hid]);
    hide Close, NamesInode;
  }

  lemma FailedTakesNothing(s: FsOps.Server, result: (FsOps.Server, Reply))
    ensures TakesSlot(s, result) && result.1.status != STATUS_OK ==> result.0.slots == s.slots
  {
  }

  /** AL_CLSFIL. A written file's stamps go along; errors are ignored. */
  method CloseFile(tsr: Tsr, sft: Sft)
    requires tsr.client.Valid() && sft.InRange()
    modifies tsr`ax, tsr`carry, tsr.client.Parts()
    ensures tsr.client.Valid() && !tsr.carry
    ensures old(tsr.client.line.script) == [] ==>
              && tsr.client.line.script == []
              && tsr.client.State() == Close(old(tsr.client.State()), ClosePayload(sft)).0
  {
    hide Good, Close, Dispatch, U16, Repeated, AnsweredBy;
    tsr.Succeed();
    CloseIsDispatched(tsr.client.State(), ClosePayload(sft));
    var _, _, _ := Ask(tsr.client, CMD_CLOSE, ClosePayload(sft));
  }

  function ClosePayload(sft: Sft): (p: seq<byte>)
    requires sft.InRange()
    reads sft
    ensures 1 <= |p| <= 5 && p[0] == sft.Handle()
  {
    if sft.openMode % 2 == 1 then
      [sft.Handle()] + U16(sft.fileTime / U16_LIMIT) + U16(sft.fileTime % U16_LIMIT)
    else [sft.Handle()]
  }

  lemma CloseIsDispatched(s: FsOps.Server, p: seq<byte>)
    ensures Dispatch(s, CMD_CLOSE, p) == Close(s, p)
  {
  }

  // ----- Extended open -----

  /** The action if the file exists, and the action if it is missing. */
  function HighAction(act: nat): nat { act / 16 % 16 }

  function LowAction(act: nat): nat { act % 16 }

  /** Whether an action code probes for the file with CMD_OPEN first. */
  predicate Probes(hi: nat, lo: nat) { hi == 1 || hi == 2 || (hi == 0 && lo == 1) }

  /**
   * What CX says after an extended open: 1 for an existing file opened, 2 for a file created, 3 for one
   * emptied; nothing if it fails.
   */
  ghost function Outcome(s: FsOps.Server, q: seq<byte>, mode: nat, hi: nat, lo: nat): Option<nat>
    requires q != []
  {
    if !Probes(hi, lo) then if lo == 1 && CanCreate(s, q, true) then Some(2) else None
    else if mode != MODE_READ_ONLY then None
    else if NamesFile(s, q) && hi == 2 then if CanCreate(s, q, false) then Some(3) else None
    else if NamesFile(s, q) then if CanOpen(s, q) then Some(1) else None
    else if NamesNothing(s, q) && lo == 1 && CanCreate(s, q, hi != 2) then Some(2)
    else None
  }

  /** The nibbles of an action code. */
  lemma ActionNibbles(rest: nat, hi: nat, lo: nat)
    requires hi < 16 && lo < 16
    ensures HighAction(256 * rest + 16 * hi + lo) == hi && LowAction(256 * rest + 16 * hi + lo) == lo
  {
    assert (256 * rest + 16 * hi + lo) / 16 == 16 * rest + hi;
  }

  /** Every pair of actions, in mode 0: open, create, truncate, or fail. */
  lemma ActionTable(s: FsOps.Server, q: seq<byte>, hi: nat)
    requires q != []
    ensures var reading := if CanOpen(s, q) then Some(1) else None;
            var created := if NamesNothing(s, q) && CanCreate(s, q, true) then Some(2) else None;
            var replaced := if CanCreate(s, q, false) then Some(3) else None;
            && Outcome(s, q, 0, 1, 0) == (if NamesFile(s, q) then reading else None)
            && Outcome(s, q, 0, 1, 1) == Outcome(s, q, 0, 0, 1) == (if NamesFile(s, q) then reading else created)
            && Outcome(s, q, 0, 2, 0) == (if NamesFile(s, q) then replaced else None)
            && Outcome(s, q, 0, 2, 1)
               == (if NamesFile(s, q) then replaced
                   else if NamesNothing(s, q) && CanCreate(s, q, false) then Some(2) else None)
            && Outcome(s, q, 0, 0, 0) == None
            && (hi >= 3 ==> Outcome(s, q, 0, hi, 0) == None && Outcome(s, q, 0, hi, 1) == created)
  {
    hide Locate, Packs, EntryAt, AliasFor, ClockPacks, Occupied;
  }

  /** In another mode only what does not probe gets anywhere: action 1 for a missing file, behind 3 or more. */
  lemma OtherModes(s: FsOps.Server, q: seq<byte>, mode: nat, hi: nat, lo: nat)
    requires q != [] && mode != 0
    ensures Outcome(s, q, mode, hi, lo)
            == if hi >= 3 && lo == 1 && NamesNothing(s, q) && CanCreate(s, q, true) then Some(2) else None
  {
    hide Locate, Packs, EntryAt, AliasFor, ClockPacks, Occupied;
  }

  datatype Probe = Existing(hid: byte) | Emptied | Missing | Refused

  /** What the probe finds, by the status of CMD_OPEN. */
  lemma ProbeVerdict(s: FsOps.Server, fn1: seq<byte>)
    requires |fn1| >= 2
    ensures var q := PathPayload(0, fn1);
            && (Open(s, q).1.status == STATUS_OK <==> NamesFile(s, q) && |Occupied(s.slots)| < MAX_HANDLES)
            && (Open(s, q).1.status == ERR_NOT_FOUND <==> NamesNothing(s, q))
            && (Open(s, q).1.status == ERR_NOT_FOUND ==> Open(s, q).0 == s)
  {
    var q := PathPayload(0, fn1);
    LeadIsFirst(0, fn1);
    hide PathPayload, Locate, Occupied, LeastFree;
    OpenSucceeds(s, q);
  }

  /** A file opened and closed again is as before for whoever creates it anew. */
  lemma ProbedAlike(s: FsOps.Server, fn1: seq<byte>, hid: byte, exclusive: bool)
    requires |fn1| >= 2 && Open(s, PathPayload(0, fn1)).1 == Reply(STATUS_OK, [hid])
    ensures var s2 := Close(Open(s, PathPayload(0, fn1)).0, [hid]).0;
            && s2.slots == s.slots
            && (CanCreate(s2, PathPayload(0, fn1), exclusive) <==> CanCreate(s, PathPayload(0, fn1), exclusive))
  {
    var q := PathPayload(0, fn1);
    hide Resolve, LeastFree, PathPayload, DosPath, AliasFor, StampsAt, Occupied;
    OpenTakesSlot(s, q);
    CloseUndoes(s, Open(s, q));
  }

  /** CMD_OPEN as a probe; a file that is to be truncated is closed again. */
  method ProbeFile(tsr: Tsr, fn1: seq<byte>, mode: byte, hi: nat) returns (r: Probe)
    requires tsr.client.Valid() && 2 <= |fn1| < FN1_LIMIT && !tsr.carry
    modifies tsr`ax, tsr`carry, tsr.client.Parts()
    ensures tsr.client.Valid() && (tsr.carry <==> r.Refused?) && (r.Emptied? ==> hi == 2) && (r.Existing? ==> hi != 2)
    ensures old(tsr.client.line.script) == [] ==>
              var (s', reply) := Open(old(tsr.client.State()), PathPayload(mode, fn1));
              && tsr.client.line.script == []
              && (r.Missing? <==> reply.status == ERR_NOT_FOUND)
              && (r.Refused? <==> reply.status != STATUS_OK && reply.status != ERR_NOT_FOUND)
              && (r.Refused? ==> tsr.client.State().slots == old(tsr.client.State()).slots)
              && (r.Missing? || r.Existing? ==> tsr.client.State() == s')
              && (r.Existing? ==> reply == Reply(STATUS_OK, [r.hid]))
              && (r.Emptied? ==> |reply.data| == 1 && tsr.client.State() == Close(s', reply.data).0)
              && (r.Refused? ==> tsr.ax == DosError(reply.status))
  {
    hide Good, Close, Open, TakesSlot, PathPayload, DosError, AnsweredBy, Repeated;
    ghost var s := tsr.client.State();
    var p := CopyFn1Path(mode, fn1);
    var ok, status, hid := AskHandle(tsr.client, CMD_OPEN, p);
    if !ok {
      FailedTakesNothing(s, Open(s, p));
      if status != STATUS_OK && status != ERR_NOT_FOUND {
        tsr.Fail(DosError(status));
        return Refused;
      }
      return Missing;
    }
    if old(tsr.client.line.script) == [] { TakenIsOneByte(s, Open(s, p)); }
    if hi == 2 {
      PlainHandlers(tsr.client.State(), [], hid);
      hide Dispatch;
      var _, _, _ := Ask(tsr.client, CMD_CLOSE, [hid]);
      return Emptied;
    }
    return Existing(hid);
  }

  /** Without losses, what the first half of an extended open finds in server state s. */
  ghost predicate Found(r: Probe, s: FsOps.Server, q: seq<byte>, mode: nat, hi: nat)
    requires q != []
  {
    if mode != MODE_READ_ONLY then r.Refused?
    else
      && (r.Existing? <==> NamesFile(s, q) && |Occupied(s.slots)| < MAX_HANDLES && hi != 2)
      && (r.Emptied? <==> NamesFile(s, q) && |Occupied(s.slots)| < MAX_HANDLES && hi == 2)
      && (r.Missing? <==> NamesNothing(s, q))
  }

  lemma ProbeFinds(s: FsOps.Server, fn1: seq<byte>, mode: byte, hi: nat, r: Probe)
    requires |fn1| >= 2 && (r.Emptied? ==> hi == 2) && (r.Existing? ==> hi != 2)
    requires var status := Open(s, PathPayload(mode, fn1)).1.status;
             && (r.Missing? <==> status == ERR_NOT_FOUND)
             && (r.Refused? <==> status != STATUS_OK && status != ERR_NOT_FOUND)
    ensures Found(r, s, PathPayload(0, fn1), mode, hi)
    ensures r.Missing? ==> Open(s, PathPayload(mode, fn1)).0 == s
    ensures mode != MODE_READ_ONLY ==>
              r.Refused? && Open(s, PathPayload(mode, fn1)) == (s, Reply(ERR_UNSUPPORTED, []))
  {
    hide Open, PathPayload, NamesFile, NamesNothing, Occupied;
    if mode != MODE_READ_ONLY { OpenWantsModeZero(s, fn1, mode); } else { ProbeVerdict(s, fn1); }
  }

  /** The first half: an existing file is opened, or closed again to be emptied. */
  method OpenExisting(tsr: Tsr, sft: Sft, fn1: seq<byte>, mode: byte, hi: nat) returns (r: Probe)
    requires tsr.client.Valid() && 2 <= |fn1| < FN1_LIMIT && !tsr.carry && mode < 4
    modifies tsr, sft, tsr.client.Parts()
    ensures tsr.client.Valid()
    ensures (r.Emptied? ==> hi == 2) && (r.Refused? ==> tsr.carry)
    ensures r.Missing? || r.Emptied? ==> !tsr.carry && sft.openMode == old(sft.openMode)
    ensures old(tsr.client.line.script) == [] ==>
              && tsr.client.line.script == [] && Found(r, old(tsr.client.State()), PathPayload(0, fn1), mode, hi)
    ensures old(tsr.client.line.script) == [] && (tsr.carry || !r.Existing?) ==>
              tsr.client.State().slots == old(tsr.client.State()).slots
    ensures old(tsr.client.line.script) == [] && r.Existing? ==>
              && (!tsr.carry <==> CanOpen(old(tsr.client.State()), PathPayload(0, fn1)))
              && tsr.cx == 1
              && (!tsr.carry ==> Ready(old(tsr.client.State()).slots, tsr.client.State(), sft, mode, 1))
    ensures old(tsr.client.line.script) == [] && (r.Missing? || r.Emptied?) ==>
              (CanCreate(tsr.client.State(), PathPayload(0, fn1), hi != 2)
               <==> CanCreate(old(tsr.client.State()), PathPayload(0, fn1), hi != 2))
    ensures old(tsr.client.line.script) == [] && mode != MODE_READ_ONLY ==> r.Refused? && tsr.ax == 1
  {
    hide Good, Close, Open, TookSlot, PathPayload, DosError, GetAttr, AttrOk, ReadyToRead, WithMode, FromU32, CanOpen,
         CanCreate, Found, StampWord, Repeated, AnsweredBy;
    ghost var s := tsr.client.State();
    r := ProbeFile(tsr, fn1, mode, hi);
    if old(tsr.client.line.script) == [] { ProbeFinds(s, fn1, mode, hi, r); }
    UnsupportedIsOne();
    match r {
      case Existing(hid) =>
        tsr.cx := 1;
        FillOpened(tsr, sft, fn1, hid, mode, s, old(tsr.client.line.script) == []);
      case Emptied =>
        if old(tsr.client.line.script) == [] { EmptiedAlike(s, fn1, mode, hi, tsr.client.State()); }
      case _ =>
    }
  }

  lemma EmptiedAlike(s: FsOps.Server, fn1: seq<byte>, mode: byte, hi: nat, now: FsOps.Server)
    requires |fn1| >= 2 && hi == 2
    requires var (s', reply) := Open(s, PathPayload(mode, fn1));
             reply.status == STATUS_OK && |reply.data| == 1 && now == Close(s', reply.data).0
    ensures now.slots == s.slots
    ensures CanCreate(now, PathPayload(0, fn1), hi != 2) <==> CanCreate(s, PathPayload(0, fn1), hi != 2)
  {
    hide Open, Close, CanCreate, PathPayload;
    if mode != MODE_READ_ONLY {
      OpenWantsModeZero(s, fn1, mode);
    } else {
      var data := Open(s, PathPayload(0, fn1)).1.data;
      assert data == [data[0]];
      ProbedAlike(s, fn1, data[0], false);
    }
  }

  /** The second half: the file is missing, or is to be emptied. */
  method CreateBranch(tsr: Tsr, sft: Sft, fn1: seq<byte>, mode: byte, hi: nat, lo: nat, emptied: bool)
    requires tsr.client.Valid() && 2 <= |fn1| < FN1_LIMIT && !tsr.carry && mode < 4
    requires emptied ==> hi == 2
    modifies tsr, sft, tsr.client.Parts()
    ensures tsr.client.Valid()
    ensures old(tsr.client.line.script) == [] ==>
              && tsr.client.line.script == []
              && (!tsr.carry <==>
                    (emptied || lo == 1) && CanCreate(old(tsr.client.State()), PathPayload(0, fn1), hi != 2))
              && (tsr.carry ==> tsr.client.State().slots == old(tsr.client.State()).slots)
              && (!tsr.carry ==>
                    && tsr.cx == (if emptied then 3 else 2)
                    && Ready(old(tsr.client.State()).slots, tsr.client.State(), sft, mode, tsr.cx))
  {
    hide Good, Close, Open, Create, TookSlot, TakesSlot, PathPayload, DosError, GetAttr, AttrOk, ReadyToWrite, WithMode,
         FromU32, WritesTo, CanCreate, HoldsStamps, Repeated, AnsweredBy;
    if !emptied && lo != 1 {
      tsr.Fail(2);
      return;
    }
    ghost var s := tsr.client.State();
    var cmode := if hi == 2 then 1 else 0;
    var p := CopyFn1Path(cmode, fn1);
    CreateWorks(s, fn1, cmode);
    var ok, status, hid := AskHandle(tsr.client, CMD_CREATE, p);
    if !ok {
      FailedTakesNothing(s, Create(s, p));
      tsr.Fail(DosError(status));
      return;
    }
    tsr.cx := if emptied then 3 else 2;
    FillCreated(tsr, sft, fn1, hid, mode, cmode, s, old(tsr.client.line.script) == []);
  }

  /** READFIL or WRITEFIL can get somewhere through the SFT. */
  ghost predicate Usable(s: FsOps.Server, sft: Sft)
    reads sft
  {
    || (sft.openMode % 2 == 0 && FileData(s, sft.Handle()).Some?)
    || (sft.openMode % 2 == 1 && Writable(s, sft.Handle()))
  }

  lemma ReadyIsUsable(slots: Slots, s: FsOps.Server, sft: Sft, mode: nat, cx: nat)
    requires Ready(slots, s, sft, mode, cx) && (cx == 1 ==> mode == MODE_READ_ONLY)
    ensures Usable(s, sft) <==> cx == 1 || mode % 2 == 1
  {
    hide TookSlot, FileOf, PosOf, Writable, FileData;
    LowBit(sft.openMode);
    if cx != 1 { WritableIsNotRead(s, sft.Handle()); }
  }

  lemma LowBit(n: nat)
    ensures n % 4 % 2 == n % 2
  {
  }

  lemma WritableIsNotRead(s: FsOps.Server, hid: byte)
    ensures Writable(s, hid) ==> FileData(s, hid).None?
  {
  }

  /**
   * AL_SPOPNFIL. Without losses, for every action code: it succeeds exactly as Outcome says, with CX telling
   * how. Success takes exactly one slot more, which the SFT records, for a handle that reads an existing file
   * or writes an empty one; failure leaves the slots as they were. The SFT keeps the mode it was called with,
   * so a file created or emptied behind a probe can be neither read nor written through it.
   */
  method ExtendedOpen(tsr: Tsr, sft: Sft, fn1: seq<byte>, act: nat)
    requires tsr.client.Valid() && |fn1| < FN1_LIMIT
    modifies tsr, sft, tsr.client.Parts()
    ensures tsr.client.Valid()
    ensures !Named(fn1) ==> tsr.carry && tsr.ax == 3 && tsr.client.State() == old(tsr.client.State())
    ensures old(tsr.client.line.script) == [] && Named(fn1) ==>
              var outcome := Outcome(old(tsr.client.State()), PathPayload(0, fn1), old(sft.openMode) % 4,
                                     HighAction(act), LowAction(act));
              && tsr.client.line.script == [] && (tsr.carry <==> outcome.None?)
              && (!tsr.carry ==>
                    && tsr.cx == outcome.value
                    && Ready(old(tsr.client.State()).slots, tsr.client.State(), sft, old(sft.openMode) % 4, tsr.cx)
                    && (Usable(tsr.client.State(), sft) <==> tsr.cx == 1 || old(sft.openMode) % 2 == 1))
    ensures old(tsr.client.line.script) == [] && tsr.carry ==>
              tsr.client.State().slots == old(tsr.client.State()).slots
    ensures old(tsr.client.line.script) == [] && Named(fn1) && old(sft.openMode) % 4 != MODE_READ_ONLY
            && Probes(HighAction(act), LowAction(act)) ==>
              tsr.carry && tsr.ax == 1
  {
    hide Good, PathPayload, Ready, CanOpen, CanCreate, Usable, NamesFile, NamesNothing, Occupied, Outcome, Found;
    tsr.Succeed();
    var len := LenIfNoWildcards(fn1);
    if len < 2 {
      tsr.Fail(3);
      return;
    }
    ghost var s := tsr.client.State();
    var mode, lo, hi := sft.openMode % 4, LowAction(act), HighAction(act);
    hide HighAction, LowAction, Probes;
    ghost var result := Outcome(s, PathPayload(0, fn1), mode, hi, lo);
    var probe := Missing;
    if Probes(hi, lo) {
      probe := OpenExisting(tsr, sft, fn1, mode, hi);
    }
    if !probe.Refused? && !probe.Existing? {
      CreateBranch(tsr, sft, fn1, mode, hi, lo, probe.Emptied?);
    }
    if old(tsr.client.line.script) == [] {
      OutcomeIs(s, PathPayload(0, fn1), mode, hi, lo, probe);
      if !tsr.carry { ReadyIsUsable(s.slots, tsr.client.State(), sft, mode, tsr.cx); }
    }
  }

  /** The outcome by what the probe found. */
  lemma OutcomeIs(s: FsOps.Server, q: seq<byte>, mode: nat, hi: nat, lo: nat, r: Probe)
    requires q != [] && (if Probes(hi, lo) then Found(r, s, q, mode, hi) else r == Missing)
    ensures var out := Outcome(s, q, mode, hi, lo);
            match r
            case Refused => out == None
            case Existing(_) => out == if CanOpen(s, q) then Some(1) else None
            case Emptied => out == if CanCreate(s, q, false) then Some(3) else None
            case Missing => out == if lo == 1 && CanCreate(s, q, hi != 2) then Some(2) else None
    ensures r.Existing? ==> mode == MODE_READ_ONLY
  {
    hide Locate, Packs, EntryAt, AliasFor, ClockPacks, Occupied;
  }
}
