/** What each command does to the server and what it replies. */
module FsOps {
  import opened Bytes
  import opened Options
  import opened Frame
  import opened NameMaps
  import opened NameMapRuns
  import opened Os
  import opened Trees
  import opened PathJail
  import opened Files
  import opened Handles
  import opened Fcb
  import opened Clock

  const DIR_ENTRY_SIZE := 23
  const MAX_ENTRIES_PER_FRAME := 22
  const SERVER_VERSION: byte := 1

  const MODE_READ_ONLY: nat := 0
  const MODE_WRITE_ONLY: nat := 2

  const ATTR_DIR: byte := 0x10
  const ATTR_ARCHIVE: byte := 0x20

  datatype Server = Server(os: OS, names: MapState, slots: Slots)

  datatype Reply = Reply(status: byte, data: seq<byte>)

  function Fail(s: Server, error: byte): (Server, Reply) { (s, Reply(error, [])) }

  function Done(s: Server, data: seq<byte>): (Server, Reply) { (s, Reply(STATUS_OK, data)) }

  // ----- Paths in payloads -----

  function UntilNul(bs: seq<byte>): seq<byte> {
    if bs == [] || bs[0] == 0 then [] else [bs[0]] + UntilNul(bs[1..])
  }

  /** decode('ascii', errors='replace') */
  function DecodeAscii(bs: seq<byte>): (s: string)
    ensures |s| == |bs|
  {
    seq(|bs|, i requires 0 <= i < |bs| => if bs[i] < 128 then bs[i] as char else '\U{FFFD}')
  }

  function DosPath(payload: seq<byte>): string
    requires payload != []
  {
    DecodeAscii(UntilNul(payload[1..]))
  }

  function Locate(s: Server, payload: seq<byte>): Option<Path>
    requires payload != []
  {
    Resolve(s.os.tree, s.names.data, DosPath(payload))
  }

  // ----- Directory enumeration -----

  /** What struct.pack can take; it raises on anything wider. */
  predicate Packs(e: DirEntry) {
    (e.isDir || e.st.size < U32_LIMIT) && e.st.date < U16_LIMIT && e.st.time < U16_LIMIT
  }

  function AttrOf(e: DirEntry): byte {
    if e.isDir then ATTR_DIR else ATTR_ARCHIVE
  }

  function EncodeEntry(e: DirEntry, more: bool): (r: seq<byte>)
    requires Packs(e)
    ensures |r| == DIR_ENTRY_SIZE
  {
    NameField(e.alias) + [AttrOf(e)] + U16(e.st.date) + U16(e.st.time)
    + U32(if e.isDir then 0 else e.st.size) + [if more then 1 else 0, 0]
  }

  predicate AllPack(entries: seq<DirEntry>, from: nat, to: nat)
    requires from <= to <= |entries|
  {
    forall i :: from <= i < to ==> Packs(entries[i])
  }

  /** Entries from..to, each flagged with whether the listing goes on behind it. */
  function BatchBytes(entries: seq<DirEntry>, from: nat, to: nat): (r: seq<byte>)
    requires from <= to <= |entries| && AllPack(entries, from, to)
    ensures |r| == DIR_ENTRY_SIZE * (to - from)
  {
    if from == to then []
    else BatchBytes(entries, from, to - 1) + EncodeEntry(entries[to - 1], to - 1 < |entries| - 1)
  }

  function BatchEnd(cursor: nat, total: nat): (end: nat)
    requires cursor <= total
    ensures cursor <= end <= total && end <= cursor + MAX_ENTRIES_PER_FRAME
  {
    if cursor + MAX_ENTRIES_PER_FRAME < total then cursor + MAX_ENTRIES_PER_FRAME else total
  }

  /** The next batch and the advanced cursor; an entry that does not pack raises and moves nothing. */
  function EmitBatch(slots: Slots, hid: nat): (Slots, Reply)
    requires GetDir(slots, hid).Some?
  {
    var ds := GetDir(slots, hid).value;
    if ds.cursor >= |ds.entries| then (slots, Reply(STATUS_OK, []))
    else
      var end := BatchEnd(ds.cursor, |ds.entries|);
      if AllPack(ds.entries, ds.cursor, end) then
        (Put(slots, hid, Some(ds.(cursor := end))), Reply(STATUS_OK, BatchBytes(ds.entries, ds.cursor, end)))
      else (slots, Reply(ERR_IO, []))
  }

  function AllocDir(s: Server, dir: Path, entries: seq<DirEntry>): (Server, Reply) {
    var hid := Free(s.slots);
    if hid == MAX_HANDLES then Fail(s, ERR_IO)
    else
      var (slots, r) := EmitBatch(Put(s.slots, hid, Some(DirState(dir, entries, 0))), hid);
      (s.(slots := slots), if r.status == STATUS_OK then Reply(STATUS_OK, [hid] + r.data) else r)
  }

  ghost function Enumerate(s: Server, dir: Path): (Server, Reply)
    requires IsDir(s.os.tree, dir)
  {
    var listing := ListingOf(s.os, dir);
    var entries := ScanDir(s.names.data, dir, listing).1;
    var names := Step(s.names, ScanOp(dir, listing));
    if entries.None? then Fail(s.(names := names), ERR_IO)
    else AllocDir(s.(names := SavedIfDirty(names)), dir, entries.value)
  }

  ghost function ListDirBegin(s: Server, p: seq<byte>): (Server, Reply) {
    if |p| < 2 then Fail(s, ERR_PROTOCOL)
    else
      var dir := Locate(s, p);
      if dir.None? then Fail(s, ERR_BAD_PATH)
      else if !IsDir(s.os.tree, dir.value) then Fail(s, ERR_NOT_FOUND)
      else Enumerate(s, dir.value)
  }

  /** The slot is freed by the request that finds nothing left. */
  function ListDirNext(s: Server, p: seq<byte>): (Server, Reply) {
    if p == [] then Fail(s, ERR_PROTOCOL)
    else if GetDir(s.slots, p[0]).None? then Fail(s, ERR_BAD_HANDLE)
    else
      var (slots, r) := EmitBatch(s.slots, p[0]);
      (s.(slots := if r.status == STATUS_OK && r.data == [] then Put(slots, p[0], None) else slots), r)
  }

  // ----- Open, create, close -----

  /** alloc_file on a descriptor that was just opened, closing it again when no slot is free. */
  function AllocFile(s: Server, path: Path, fd: nat, flags: nat): (Server, Reply) {
    var hid := Free(s.slots);
    if hid == MAX_HANDLES then Fail(s.(os := CloseFd(s.os, fd)), ERR_IO)
    else Done(s.(slots := Put(s.slots, hid, Some(OpenHandle(path, fd, 0, flags)))), [hid])
  }

  function Open(s: Server, p: seq<byte>): (Server, Reply) {
    if |p| < 2 then Fail(s, ERR_PROTOCOL)
    else if p[0] != MODE_READ_ONLY then Fail(s, ERR_UNSUPPORTED)
    else
      var path := Locate(s, p);
      if path.None? then Fail(s, ERR_BAD_PATH)
      else if path.value !in s.os.tree then Fail(s, ERR_NOT_FOUND)
      else if s.os.tree[path.value].Dir? then Fail(s, ERR_ACCESS)
      else AllocFile(s.(os := OpenFd(s.os, path.value, false)), path.value, s.os.nextFd, MODE_READ_ONLY)
  }

  /** The path a CREATE would open for writing, when it gets that far. */
  function CreateTarget(s: Server, p: seq<byte>): Option<Path> {
    if |p| < 2 || p[0] > 1 then None
    else
      var path := Locate(s, p);
      if path.None? || (path.value != [] && Parent(path.value) !in s.os.tree) then None
      else if OpenForWrite(s.os, path.value, p[0] == 0).Opened? then path
      else None
  }

  /** Registers the alias of a created file; raising leaves the descriptor open with no handle to it. */
  ghost function Register(s: Server, os: OS, path: Path, fd: nat): (Server, Reply)
    requires path != []
  {
    var names := Step(s.names, AliasForOp(Last(path), Parent(path)));
    if AliasFor(s.names.data, Last(path), Parent(path)).1.None? then Fail(s.(os := os, names := names), ERR_IO)
    else AllocFile(s.(os := os, names := SavedIfDirty(names)), path, fd, MODE_WRITE_ONLY)
  }

  ghost function Create(s: Server, p: seq<byte>): (Server, Reply) {
    if |p| < 2 then Fail(s, ERR_PROTOCOL)
    else if p[0] > 1 then Fail(s, ERR_UNSUPPORTED)
    else
      var path := Locate(s, p);
      if path.None? then Fail(s, ERR_BAD_PATH)
      else if path.value != [] && Parent(path.value) !in s.os.tree then Fail(s, ERR_NOT_FOUND)
      else
        var opening := OpenForWrite(s.os, path.value, p[0] == 0);
        match opening
        case Exists => Fail(s, ERR_EXISTS)
        case Failed => Fail(s, ERR_IO)
        case Opened(os) =>
          if path.value == [] then Fail(s, ERR_IO) // the root is a directory and never opens
          else Register(s, os, path.value, s.os.nextFd)
  }

  function Release(s: Server, hid: nat): Server
    requires Get(s.slots, hid).Some?
  {
    var h := Get(s.slots, hid).value;
    Server(if h.OpenHandle? then CloseFd(s.os, h.fd) else s.os, s.names, Put(s.slots, hid, None))
  }

  /** What the datetime constructor takes of a DOS date and time. */
  predicate ValidStamp(date: nat, time: nat) { IsLocal(FromDos(date, time)) }

  /** A month or day of 0 counts as 1. */
  function Clamped(date: nat): nat {
    date + (if date / 32 % 16 == 0 then 32 else 0) + (if date % 32 == 0 then 1 else 0)
  }

  /** CLOSE of a written file stamps what is at its path by then, if the request carries a valid date and time. */
  function StampedOnClose(os: OS, h: Handle, p: seq<byte>): OS {
    if h.DirState? || h.flags == MODE_READ_ONLY || |p| < 5 || h.path !in os.tree then os
    else
      var date, time := Clamped(FromU16(p[1..3])), FromU16(p[3..5]);
      if ValidStamp(date, time) then Stamped(os, h.path, date, time) else os
  }

  function Close(s: Server, p: seq<byte>): (Server, Reply) {
    if p == [] then Fail(s, ERR_PROTOCOL)
    else
      var h := Get(s.slots, p[0]);
      if h.None? then Fail(s, ERR_BAD_HANDLE)
      else Done(Release(s.(os := StampedOnClose(s.os, h.value, p)), p[0]), [])
  }

  // ----- Read, write, seek, flush -----

  /** The bytes at a position of an open file for reading; None where the system call fails. */
  function Fetch(os: OS, fd: nat, at: nat, n: nat): (r: Option<seq<byte>>)
    ensures r.Some? ==> |r.value| <= n
  {
    if IsOpen(os, fd) && !os.fds[fd].writable then Some(ReadAt(Contents(os, fd), at, n)) else None
  }

  function Moved(s: Server, hid: nat, os: OS, pos: nat): Server
    requires GetFile(s.slots, hid).Some?
  {
    s.(os := os, slots := Put(s.slots, hid, Some(GetFile(s.slots, hid).value.(offset := pos))))
  }

  function Capped(count: int): nat
    requires 0 <= count
  {
    if count < MAX_PAYLOAD then count else MAX_PAYLOAD
  }

  function Read(s: Server, p: seq<byte>): (Server, Reply) {
    if |p| < 3 then Fail(s, ERR_PROTOCOL)
    else
      var h := GetFile(s.slots, p[0]);
      var n := Capped(FromU16(p[1..3]));
      if h.None? then Fail(s, ERR_BAD_HANDLE)
      else if |p| >= 7 then
        var data := Fetch(s.os, h.value.fd, FromU32(p[3..7]), n);
        if data.None? then Fail(s, ERR_IO) else Done(s, data.value)
      else ReadOn(s, p[0], n)
  }

  /** The position-tracked form. */
  function ReadOn(s: Server, hid: nat, n: nat): (Server, Reply)
    requires GetFile(s.slots, hid).Some?
  {
    var h := GetFile(s.slots, hid).value;
    if !IsOpen(s.os, h.fd) then Fail(s, ERR_IO)
    else
      var pos := s.os.fds[h.fd].pos;
      var data := Fetch(s.os, h.fd, pos, n);
      if data.None? then Fail(s, ERR_IO)
      else Done(Moved(s, hid, SetPos(s.os, h.fd, pos + |data.value|), h.offset + |data.value|), data.value)
  }

  function Write(s: Server, p: seq<byte>): (Server, Reply) {
    if p == [] then Fail(s, ERR_PROTOCOL)
    else
      var h := GetFile(s.slots, p[0]);
      if h.None? then Fail(s, ERR_BAD_HANDLE)
      else if h.value.flags == MODE_READ_ONLY then Fail(s, ERR_ACCESS)
      else if !IsOpen(s.os, h.value.fd) || !s.os.fds[h.value.fd].writable then Fail(s, ERR_IO)
      else Done(Moved(s, p[0], WriteFd(s.os, h.value.fd, p[1..]), h.value.offset + |p[1..]|), [])
  }

  function Flush(s: Server, p: seq<byte>): (Server, Reply) {
    if p == [] then Fail(s, ERR_PROTOCOL)
    else if GetFile(s.slots, p[0]).None? then Fail(s, ERR_BAD_HANDLE)
    else Done(s, [])
  }

  function SeekBase(os: OS, fd: nat, whence: int): nat
    requires IsOpen(os, fd)
  {
    if whence == 0 then 0 else if whence == 1 then os.fds[fd].pos else |Contents(os, fd)|
  }

  /** A position past 32 bits is taken, but cannot be reported. */
  function Seek(s: Server, p: seq<byte>): (Server, Reply) {
    if |p| < 6 || p[1] > 2 then Fail(s, ERR_PROTOCOL)
    else
      var h := GetFile(s.slots, p[0]);
      if h.None? then Fail(s, ERR_BAD_HANDLE)
      else if !IsOpen(s.os, h.value.fd) then Fail(s, ERR_IO)
      else
        var pos := SeekBase(s.os, h.value.fd, p[1]) + FromI32(p[2..6]);
        if pos < 0 then Fail(s, ERR_IO)
        else
          var s' := Moved(s, p[0], SetPos(s.os, h.value.fd, pos), pos);
          if pos < U32_LIMIT then Done(s', U32(pos)) else Fail(s', ERR_IO)
  }

  // ----- Attributes -----

  function EntryAt(os: OS, path: Path): DirEntry
    requires path in os.tree
  {
    DirEntry([], [], StatOf(os, path), os.tree[path].Dir?)
  }

  function AttrBytes(e: DirEntry): (r: seq<byte>)
    requires Packs(e)
    ensures |r| == 9
  {
    [AttrOf(e)] + U32(if e.isDir then 0 else e.st.size) + U16(e.st.date) + U16(e.st.time)
  }

  function GetAttr(s: Server, p: seq<byte>): (Server, Reply) {
    if |p| < 2 then Fail(s, ERR_PROTOCOL)
    else
      var path := Locate(s, p);
      if path.None? then Fail(s, ERR_BAD_PATH)
      else if path.value !in s.os.tree then Fail(s, ERR_NOT_FOUND)
      else if !Packs(EntryAt(s.os, path.value)) then Fail(s, ERR_IO)
      else Done(s, AttrBytes(EntryAt(s.os, path.value)))
  }

  // ----- Changes to the tree -----

  /** The end of DELETE and RMDIR: the entry is gone, its alias is forgotten. */
  ghost function Removed(s: Server, path: Path): (Server, Reply)
    requires path != [] && IsDir(s.os.tree, Parent(path))
  {
    var names := SavedIfDirty(Step(s.names, RemoveOp(Last(path), Parent(path))));
    Done(s.(os := RemoveEntry(s.os, path), names := names), [])
  }

  ghost function Delete(s: Server, p: seq<byte>): (Server, Reply) {
    if |p| < 2 then Fail(s, ERR_PROTOCOL)
    else
      var path := Locate(s, p);
      if path.None? then Fail(s, ERR_BAD_PATH)
      else if path.value !in s.os.tree then Fail(s, ERR_NOT_FOUND)
      else if s.os.tree[path.value].Dir? then Fail(s, ERR_ACCESS)
      else if path.value == [] || !IsDir(s.os.tree, Parent(path.value)) then Fail(s, ERR_IO)
      else Removed(s, path.value)
  }

  /** The root stays. */
  ghost function RemoveDir(s: Server, p: seq<byte>): (Server, Reply) {
    if |p| < 2 then Fail(s, ERR_PROTOCOL)
    else
      var path := Locate(s, p);
      if path.None? then Fail(s, ERR_BAD_PATH)
      else if path.value !in s.os.tree then Fail(s, ERR_NOT_FOUND)
      else if !IsDir(s.os.tree, path.value) || s.os.tree[path.value].listing != [] || path.value == []
      then Fail(s, ERR_ACCESS)
      else if !IsDir(s.os.tree, Parent(path.value)) then Fail(s, ERR_IO)
      else Removed(s, path.value)
  }

  /** The alias for a new entry; raising leaves the entry in place and the map unsaved. */
  ghost function Registered(s: Server, path: Path): (Server, Reply)
    requires path != []
  {
    var names := Step(s.names, AliasForOp(Last(path), Parent(path)));
    if AliasFor(s.names.data, Last(path), Parent(path)).1.None? then Fail(s.(names := names), ERR_IO)
    else Done(s.(names := SavedIfDirty(names)), [])
  }

  ghost function MakeDirectory(s: Server, p: seq<byte>): (Server, Reply) {
    if |p| < 2 then Fail(s, ERR_PROTOCOL)
    else
      var path := Locate(s, p);
      if path.None? then Fail(s, ERR_BAD_PATH)
      else if path.value in s.os.tree then Fail(s, ERR_EXISTS)
      else if path.value != [] && Parent(path.value) !in s.os.tree then Fail(s, ERR_NOT_FOUND)
      else if path.value == [] || !IsDir(s.os.tree, Parent(path.value)) then Fail(s, ERR_IO)
      else Registered(s.(os := MakeDir(s.os, path.value)), path.value)
  }

  /** The bytes behind the first NUL. */
  function AfterNul(bs: seq<byte>): Option<seq<byte>> {
    if bs == [] then None else if bs[0] == 0 then Some(bs[1..]) else AfterNul(bs[1..])
  }

  ghost function Renamed(s: Server, source: Path, target: Path): (Server, Reply)
    requires CanMove(s.os.tree, source, target)
  {
    var names := Step(s.names, RemoveOp(Last(source), Parent(source)));
    Registered(s.(os := MoveEntry(s.os, source, target), names := names), target)
  }

  ghost function Rename(s: Server, p: seq<byte>): (Server, Reply) {
    if AfterNul(p).None? then Fail(s, ERR_PROTOCOL)
    else
      var first, second := UntilNul(p), UntilNul(AfterNul(p).value);
      if first == [] || second == [] then Fail(s, ERR_PROTOCOL)
      else
        var source := Resolve(s.os.tree, s.names.data, DecodeAscii(first));
        var target := Resolve(s.os.tree, s.names.data, DecodeAscii(second));
        if source.None? || target.None? then Fail(s, ERR_BAD_PATH)
        else if source.value !in s.os.tree then Fail(s, ERR_NOT_FOUND)
        else if target.value in s.os.tree then Fail(s, ERR_EXISTS)
        else if target.value != [] && Parent(target.value) !in s.os.tree then Fail(s, ERR_NOT_FOUND)
        else if !CanMove(s.os.tree, source.value, target.value) then Fail(s, ERR_IO)
        else Renamed(s, source.value, target.value)
  }

  // ----- Stamps -----

  /** Permissions are not part of the model, so all SET_ATTR does is to check the request and the path. */
  function SetAttr(s: Server, p: seq<byte>): (Server, Reply) {
    if |p| < 3 || AfterNul(p[1..]).None? || AfterNul(p[1..]).value == [] then Fail(s, ERR_PROTOCOL)
    else
      var path := Locate(s, p);
      if path.None? then Fail(s, ERR_BAD_PATH)
      else if path.value !in s.os.tree then Fail(s, ERR_NOT_FOUND)
      else Done(s, [])
  }

  predicate StampsPack(e: DirEntry) { e.st.date < U16_LIMIT && e.st.time < U16_LIMIT }

  function StampBytes(e: DirEntry): (r: seq<byte>)
    requires StampsPack(e)
    ensures |r| == 4
  {
    U16(e.st.date) + U16(e.st.time)
  }

  function GetTime(s: Server, p: seq<byte>): (Server, Reply) {
    if |p| < 2 then Fail(s, ERR_PROTOCOL)
    else
      var path := Locate(s, p);
      if path.None? then Fail(s, ERR_BAD_PATH)
      else if path.value !in s.os.tree then Fail(s, ERR_NOT_FOUND)
      else if !StampsPack(EntryAt(s.os, path.value)) then Fail(s, ERR_IO)
      else Done(s, StampBytes(EntryAt(s.os, path.value)))
  }

  function SetTime(s: Server, p: seq<byte>): (Server, Reply) {
    if |p| < 7 || AfterNul(p[1..]).None? || |AfterNul(p[1..]).value| < 4 then Fail(s, ERR_PROTOCOL)
    else
      var stamps := AfterNul(p[1..]).value;
      var date, time := FromU16(stamps[..2]), FromU16(stamps[2..4]);
      var path := Locate(s, p);
      if path.None? then Fail(s, ERR_BAD_PATH)
      else if path.value !in s.os.tree then Fail(s, ERR_NOT_FOUND)
      else if !ValidStamp(date, time) then Fail(s, ERR_IO)
      else Done(s.(os := Stamped(s.os, path.value, date, time)), [])
  }

  // ----- Dispatch -----

  ghost function Dispatch(s: Server, cmd: byte, p: seq<byte>): (Server, Reply) {
    if cmd == CMD_PING then Done(s, [])
    else if cmd == CMD_GET_INFO then Done(s, U16(MAX_PAYLOAD) + [SERVER_VERSION, 0])
    else if cmd == CMD_LIST_DIR then ListDirBegin(s, p)
    else if cmd == CMD_LIST_DIR_NEXT then ListDirNext(s, p)
    else if cmd == CMD_OPEN then Open(s, p)
    else if cmd == CMD_CREATE then Create(s, p)
    else if cmd == CMD_READ then Read(s, p)
    else if cmd == CMD_WRITE then Write(s, p)
    else if cmd == CMD_SEEK then Seek(s, p)
    else if cmd == CMD_CLOSE then Close(s, p)
    else if cmd == CMD_DELETE then Delete(s, p)
    else if cmd == CMD_RENAME then Rename(s, p)
    else if cmd == CMD_MKDIR then MakeDirectory(s, p)
    else if cmd == CMD_RMDIR then RemoveDir(s, p)
    else if cmd == CMD_GET_ATTR then GetAttr(s, p)
    else if cmd == CMD_SET_ATTR then SetAttr(s, p)
    else if cmd == CMD_GET_TIME then GetTime(s, p)
    else if cmd == CMD_SET_TIME then SetTime(s, p)
    else if cmd == CMD_FLUSH then Flush(s, p)
    else Fail(s, ERR_UNSUPPORTED)
  }
}
