/** The daemon process: the handlers as they run, and the loop body that serves one frame. */
module Daemon {
  import opened Bytes
  import opened Options
  import opened Frame
  import opened NameMaps
  import opened NameMapRuns
  import opened Os
  import opened Trees
  import opened PathJail
  import opened Files
  import opened Handles
  import opened FsOps
  import opened ServerRuns

  /** The two shared objects, and the system the calls below the handlers go to. */
  class Server {
    const handles: HandleTable
    const namemap: NameMap
    var os: OS

    ghost function State(): FsOps.Server
      reads this, handles, namemap
    {
      FsOps.Server(os, namemap.State(), handles.slots)
    }

    constructor (os: OS, saved: NameData)
      requires GoodFiles(os) && os.fds == map[] && WellFormed(saved)
      ensures State() == FsOps.Server(os, MapState(saved, saved, false), EMPTY_SLOTS) && Good(State())
      ensures fresh(handles) && fresh(namemap)
    {
      StartIsGood(os, saved);
      hide Good, GoodFiles, WellFormed;
      this.os := os;
      handles := new HandleTable();
      namemap := new NameMap(saved);
    }

    /** The entries from the cursor on, packed one by one; the first that does not pack raises. */
    method EmitBatch(hid: nat) returns (r: Reply)
      requires GetDir(handles.slots, hid).Some?
      modifies handles
      ensures (handles.slots, r) == FsOps.EmitBatch(old(handles.slots), hid)
    {
      hide Packs, EncodeEntry;
      var ds := handles.slots[hid].value;
      var total := |ds.entries|;
      if ds.cursor >= total { return Reply(STATUS_OK, []); }
      var end := if ds.cursor + MAX_ENTRIES_PER_FRAME < total then ds.cursor + MAX_ENTRIES_PER_FRAME else total;
      var buf: seq<byte> := [];
      var i := ds.cursor;
      while i < end
        invariant ds.cursor <= i <= end
        invariant AllPack(ds.entries, ds.cursor, i) && buf == BatchBytes(ds.entries, ds.cursor, i)
      {
        if !Packs(ds.entries[i]) { return Reply(ERR_IO, []); }
        buf := buf + EncodeEntry(ds.entries[i], i < total - 1);
        i := i + 1;
      }
      handles.Update(hid, ds.(cursor := end));
      return Reply(STATUS_OK, buf);
    }

    method ListDirBegin(p: seq<byte>) returns (r: Reply)
      requires Good(State())
      modifies this, handles, namemap
      ensures (State(), r) == FsOps.ListDirBegin(old(State()), p)
    {
      hide Resolve, ScanDir, ListingOf, LeastFree, FsOps.EmitBatch, WellFormed, GoodTree, DosPath, Linked, GoodSearches,
           Step;
      if |p| < 2 { return Reply(ERR_PROTOCOL, []); }
      var dir := ResolvePath(os.tree, namemap, DosPath(p));
      if dir.None? { return Reply(ERR_BAD_PATH, []); }
      if !IsDir(os.tree, dir.value) { return Reply(ERR_NOT_FOUND, []); }
      ListingNames(os, dir.value);
      var entries := namemap.Scan(dir.value, ListingOf(os, dir.value));
      if entries.None? { return Reply(ERR_IO, []); }
      namemap.SaveIfDirty();
      var hid := handles.Alloc(DirState(dir.value, entries.value, 0));
      if hid.None? { return Reply(ERR_IO, []); }
      r := EmitBatch(hid.value);
      if r.status == STATUS_OK {
        r := Reply(STATUS_OK, [hid.value] + r.data);
      }
    }

    method ListDirNext(p: seq<byte>) returns (r: Reply)
      modifies handles
      ensures (State(), r) == FsOps.ListDirNext(old(State()), p)
    {
      hide FsOps.EmitBatch;
      if p == [] { return Reply(ERR_PROTOCOL, []); }
      var ds := handles.LookupDir(p[0]);
      if ds.None? { return Reply(ERR_BAD_HANDLE, []); }
      ghost var before := State();
      r := EmitBatch(p[0]);
      EmitKeepsHandle(before.slots, p[0]);
      if r.status == STATUS_OK && r.data == [] {
        var _ := handles.Release(p[0]);
      }
    }

    method AllocFile(path: Path, fd: nat, flags: nat) returns (r: Reply)
      modifies this, handles
      ensures (State(), r) == FsOps.AllocFile(old(State()), path, fd, flags)
    {
      hide LeastFree;
      var hid := handles.Alloc(OpenHandle(path, fd, 0, flags));
      if hid.None? {
        os := CloseFd(os, fd);
        return Reply(ERR_IO, []);
      }
      return Reply(STATUS_OK, [hid.value]);
    }

    method Open(p: seq<byte>) returns (r: Reply)
      modifies this, handles
      ensures (State(), r) == FsOps.Open(old(State()), p)
    {
      hide Resolve, FsOps.AllocFile, DosPath;
      if |p| < 2 { return Reply(ERR_PROTOCOL, []); }
      var mode := p[0];
      if mode != MODE_READ_ONLY { return Reply(ERR_UNSUPPORTED, []); }
      var path := ResolvePath(os.tree, namemap, DosPath(p));
      if path.None? { return Reply(ERR_BAD_PATH, []); }
      if path.value !in os.tree { return Reply(ERR_NOT_FOUND, []); }
      if IsDir(os.tree, path.value) { return Reply(ERR_ACCESS, []); }
      var fd := os.nextFd;
      os := OpenFd(os, path.value, false);
      r := AllocFile(path.value, fd, mode);
    }

    method Create(p: seq<byte>) returns (r: Reply)
      requires Good(State())
      modifies this, handles, namemap
      ensures (State(), r) == FsOps.Create(old(State()), p)
    {
      hide Resolve, FsOps.AllocFile, DosPath, OpenForWrite, Step, AliasFor, WellFormed, GoodFiles, Linked, GoodSearches;
      if |p| < 2 { return Reply(ERR_PROTOCOL, []); }
      if p[0] > 1 { return Reply(ERR_UNSUPPORTED, []); }
      var path := ResolvePath(os.tree, namemap, DosPath(p));
      if path.None? { return Reply(ERR_BAD_PATH, []); }
      if path.value != [] && Parent(path.value) !in os.tree { return Reply(ERR_NOT_FOUND, []); }
      var opening := OpenForWrite(os, path.value, p[0] == 0);
      if opening.Exists? { return Reply(ERR_EXISTS, []); }
      if opening.Failed? || path.value == [] { return Reply(ERR_IO, []); }
      var fd := os.nextFd;
      os := opening.os;
      var alias := namemap.AliasForName(Last(path.value), Parent(path.value));
      if alias.None? { return Reply(ERR_IO, []); }
      namemap.SaveIfDirty();
      r := AllocFile(path.value, fd, MODE_WRITE_ONLY);
    }

    method Close(p: seq<byte>) returns (r: Reply)
      modifies this, handles
      ensures (State(), r) == FsOps.Close(old(State()), p)
    {
      hide FromU16, Clamped, ValidStamp, Stamped;
      if p == [] { return Reply(ERR_PROTOCOL, []); }
      var h := handles.Lookup(p[0]);
      if h.None? { return Reply(ERR_BAD_HANDLE, []); }
      if h.value.OpenHandle? && h.value.flags != MODE_READ_ONLY && |p| >= 5 {
        var date, time := Clamped(FromU16(p[1..3])), FromU16(p[3..5]);
        if h.value.path in os.tree && ValidStamp(date, time) {
          os := Stamped(os, h.value.path, date, time);
        }
      }
      h := handles.Release(p[0]);
      if h.value.OpenHandle? {
        os := CloseFd(os, h.value.fd);
      }
      return Reply(STATUS_OK, []);
    }

    method Read(p: seq<byte>) returns (r: Reply)
      requires Good(State())
      modifies this, handles
      ensures (State(), r) == FsOps.Read(old(State()), p)
    {
      hide FromU16, FromU32, Fetch, Good;
      if |p| < 3 { return Reply(ERR_PROTOCOL, []); }
      var count := FromU16(p[1..3]);
      if count > MAX_PAYLOAD { count := MAX_PAYLOAD; }
      var h := handles.LookupFile(p[0]);
      if h.None? { return Reply(ERR_BAD_HANDLE, []); }
      var fd := h.value.fd;
      FileIsInStep(State(), p[0]);
      if |p| >= 7 {
        var data := Fetch(os, fd, FromU32(p[3..7]), count);
        if data.None? { return Reply(ERR_IO, []); }
        return Reply(STATUS_OK, data.value);
      }
      var data := Fetch(os, fd, os.fds[fd].pos, count);
      if data.None? { return Reply(ERR_IO, []); }
      os := SetPos(os, fd, os.fds[fd].pos + |data.value|);
      handles.Update(p[0], h.value.(offset := h.value.offset + |data.value|));
      return Reply(STATUS_OK, data.value);
    }

    method Write(p: seq<byte>) returns (r: Reply)
      requires Good(State())
      modifies this, handles
      ensures (State(), r) == FsOps.Write(old(State()), p)
    {
      hide Good, WriteAt;
      if |p| < 1 { return Reply(ERR_PROTOCOL, []); }
      var data := p[1..];
      var h := handles.LookupFile(p[0]);
      if h.None? { return Reply(ERR_BAD_HANDLE, []); }
      if h.value.flags == MODE_READ_ONLY { return Reply(ERR_ACCESS, []); }
      FileIsInStep(State(), p[0]);
      os := WriteFd(os, h.value.fd, data);
      handles.Update(p[0], h.value.(offset := h.value.offset + |data|));
      return Reply(STATUS_OK, []);
    }

    method Flush(p: seq<byte>) returns (r: Reply)
      ensures (State(), r) == FsOps.Flush(State(), p)
    {
      if p == [] { return Reply(ERR_PROTOCOL, []); }
      var h := handles.LookupFile(p[0]);
      if h.None? { return Reply(ERR_BAD_HANDLE, []); }
      return Reply(STATUS_OK, []);
    }

    /** The shadow offset is set before the new position is packed, which may raise. */
    method Seek(p: seq<byte>) returns (r: Reply)
      requires Good(State())
      modifies this, handles
      ensures (State(), r) == FsOps.Seek(old(State()), p)
    {
      hide Good, FromI32, U16;
      if |p| < 6 { return Reply(ERR_PROTOCOL, []); }
      var whence, offset := p[1], FromI32(p[2..6]);
      if whence > 2 { return Reply(ERR_PROTOCOL, []); }
      var h := handles.LookupFile(p[0]);
      if h.None? { return Reply(ERR_BAD_HANDLE, []); }
      FileIsInStep(State(), p[0]);
      var newPos := SeekBase(os, h.value.fd, whence) + offset;
      if newPos < 0 { return Reply(ERR_IO, []); }
      os := SetPos(os, h.value.fd, newPos);
      handles.Update(p[0], h.value.(offset := newPos));
      if newPos >= U32_LIMIT { return Reply(ERR_IO, []); }
      return Reply(STATUS_OK, U32(newPos));
    }

    method GetAttr(p: seq<byte>) returns (r: Reply)
      ensures (State(), r) == FsOps.GetAttr(State(), p)
    {
      hide Resolve, DosPath, StatOf, U16, U32;
      if |p| < 2 { return Reply(ERR_PROTOCOL, []); }
      var path := ResolvePath(os.tree, namemap, DosPath(p));
      if path.None? { return Reply(ERR_BAD_PATH, []); }
      if path.value !in os.tree { return Reply(ERR_NOT_FOUND, []); }
      var e := EntryAt(os, path.value);
      if !Packs(e) { return Reply(ERR_IO, []); }
      return Reply(STATUS_OK, AttrBytes(e));
    }

    /** The end of DELETE and RMDIR. */
    method Remove(path: Path) returns (r: Reply)
      requires Good(State()) && path != [] && IsDir(os.tree, Parent(path))
      modifies this, namemap
      ensures (State(), r) == FsOps.Removed(old(State()), path)
    {
      hide Step, Pruned, WellFormed, GoodFiles, Linked, GoodSearches;
      os := RemoveEntry(os, path);
      namemap.RemoveName(Last(path), Parent(path));
      namemap.SaveIfDirty();
      return Reply(STATUS_OK, []);
    }

    method Delete(p: seq<byte>) returns (r: Reply)
      requires Good(State())
      modifies this, namemap
      ensures (State(), r) == FsOps.Delete(old(State()), p)
    {
      hide Good, Resolve, DosPath, FsOps.Removed;
      if |p| < 2 { return Reply(ERR_PROTOCOL, []); }
      var path := ResolvePath(os.tree, namemap, DosPath(p));
      if path.None? { return Reply(ERR_BAD_PATH, []); }
      if path.value !in os.tree { return Reply(ERR_NOT_FOUND, []); }
      if IsDir(os.tree, path.value) { return Reply(ERR_ACCESS, []); }
      if path.value == [] || !IsDir(os.tree, Parent(path.value)) { return Reply(ERR_IO, []); }
      r := Remove(path.value);
    }

    method RemoveDir(p: seq<byte>) returns (r: Reply)
      requires Good(State())
      modifies this, namemap
      ensures (State(), r) == FsOps.RemoveDir(old(State()), p)
    {
      hide Good, Resolve, DosPath, FsOps.Removed;
      if |p| < 2 { return Reply(ERR_PROTOCOL, []); }
      var path := ResolvePath(os.tree, namemap, DosPath(p));
      if path.None? { return Reply(ERR_BAD_PATH, []); }
      if path.value !in os.tree { return Reply(ERR_NOT_FOUND, []); }
      if !IsDir(os.tree, path.value) { return Reply(ERR_ACCESS, []); }
      if os.tree[path.value].listing != [] || path.value == [] { return Reply(ERR_ACCESS, []); }
      if !IsDir(os.tree, Parent(path.value)) { return Reply(ERR_IO, []); }
      r := Remove(path.value);
    }

    /** The end of MKDIR and RENAME: the alias for the new name. */
    method Register(path: Path) returns (r: Reply)
      requires GoodState(namemap.State()) && path != []
      modifies namemap
      ensures (State(), r) == FsOps.Registered(old(State()), path)
    {
      hide Step, AliasFor, WellFormed;
      var alias := namemap.AliasForName(Last(path), Parent(path));
      if alias.None? { return Reply(ERR_IO, []); }
      namemap.SaveIfDirty();
      return Reply(STATUS_OK, []);
    }

    method MakeDirectory(p: seq<byte>) returns (r: Reply)
      requires Good(State())
      modifies this, namemap
      ensures (State(), r) == FsOps.MakeDirectory(old(State()), p)
    {
      GoodParts(State());
      hide Good, GoodState, Resolve, DosPath, FsOps.Registered, MakeDir;
      if |p| < 2 { return Reply(ERR_PROTOCOL, []); }
      var path := ResolvePath(os.tree, namemap, DosPath(p));
      if path.None? { return Reply(ERR_BAD_PATH, []); }
      if path.value in os.tree { return Reply(ERR_EXISTS, []); }
      if path.value != [] && Parent(path.value) !in os.tree { return Reply(ERR_NOT_FOUND, []); }
      if path.value == [] || !IsDir(os.tree, Parent(path.value)) { return Reply(ERR_IO, []); }
      os := MakeDir(os, path.value);
      r := Register(path.value);
    }

    method Rename(p: seq<byte>) returns (r: Reply)
      requires Good(State())
      modifies this, namemap
      ensures (State(), r) == FsOps.Rename(old(State()), p)
    {
      hide Good, GoodState, Resolve, UntilNul, AfterNul, DecodeAscii, FsOps.Registered, MoveEntry, Step, CanMove;
      GoodParts(State());
      var rest := AfterNul(p);
      if rest.None? { return Reply(ERR_PROTOCOL, []); }
      var first, second := UntilNul(p), UntilNul(rest.value);
      if first == [] || second == [] { return Reply(ERR_PROTOCOL, []); }
      var source := ResolvePath(os.tree, namemap, DecodeAscii(first));
      var target := ResolvePath(os.tree, namemap, DecodeAscii(second));
      if source.None? || target.None? { return Reply(ERR_BAD_PATH, []); }
      if source.value !in os.tree { return Reply(ERR_NOT_FOUND, []); }
      if target.value in os.tree { return Reply(ERR_EXISTS, []); }
      if target.value != [] && Parent(target.value) !in os.tree { return Reply(ERR_NOT_FOUND, []); }
      if !CanMove(os.tree, source.value, target.value) { return Reply(ERR_IO, []); }
      MovableHasNames(os.tree, source.value, target.value);
      os := MoveEntry(os, source.value, target.value);
      StepKeepsGood(namemap.State(), RemoveOp(Last(source.value), Parent(source.value)));
      namemap.RemoveName(Last(source.value), Parent(source.value));
      r := Register(target.value);
    }

    method SetAttr(p: seq<byte>) returns (r: Reply)
      ensures (State(), r) == FsOps.SetAttr(State(), p)
    {
      hide Resolve, DosPath, AfterNul;
      if |p| < 3 { return Reply(ERR_PROTOCOL, []); }
      var rest := AfterNul(p[1..]);
      if rest.None? || |rest.value| < 1 { return Reply(ERR_PROTOCOL, []); }
      var path := ResolvePath(os.tree, namemap, DosPath(p));
      if path.None? { return Reply(ERR_BAD_PATH, []); }
      if path.value !in os.tree { return Reply(ERR_NOT_FOUND, []); }
      return Reply(STATUS_OK, []);
    }

    method GetTime(p: seq<byte>) returns (r: Reply)
      ensures (State(), r) == FsOps.GetTime(State(), p)
    {
      hide Resolve, DosPath, StatOf, U16;
      if |p| < 2 { return Reply(ERR_PROTOCOL, []); }
      var path := ResolvePath(os.tree, namemap, DosPath(p));
      if path.None? { return Reply(ERR_BAD_PATH, []); }
      if path.value !in os.tree { return Reply(ERR_NOT_FOUND, []); }
      var e := EntryAt(os, path.value);
      if !StampsPack(e) { return Reply(ERR_IO, []); }
      return Reply(STATUS_OK, StampBytes(e));
    }

    method SetTime(p: seq<byte>) returns (r: Reply)
      modifies this
      ensures (State(), r) == FsOps.SetTime(old(State()), p)
    {
      hide Resolve, DosPath, AfterNul, FromU16, ValidStamp, Stamped;
      if |p| < 7 { return Reply(ERR_PROTOCOL, []); }
      var rest := AfterNul(p[1..]);
      if rest.None? || |rest.value| < 4 { return Reply(ERR_PROTOCOL, []); }
      var date, time := FromU16(rest.value[..2]), FromU16(rest.value[2..4]);
      var path := ResolvePath(os.tree, namemap, DosPath(p));
      if path.None? { return Reply(ERR_BAD_PATH, []); }
      if path.value !in os.tree { return Reply(ERR_NOT_FOUND, []); }
      if !ValidStamp(date, time) { return Reply(ERR_IO, []); }
      os := Stamped(os, path.value, date, time);
      return Reply(STATUS_OK, []);
    }

    method Dispatch(cmd: byte, p: seq<byte>) returns (r: Reply)
      requires Good(State())
      modifies this, handles, namemap
      ensures (State(), r) == FsOps.Dispatch(old(State()), cmd, p)
      ensures Good(State()) && Fits(r)
    {
      DispatchVerdict(State(), cmd, p);
      hide Good, FsOps.ListDirBegin, FsOps.ListDirNext, FsOps.Open, FsOps.Create, FsOps.Read, FsOps.Write, FsOps.Seek,
           FsOps.Close, FsOps.GetAttr, FsOps.Flush, FsOps.Delete, FsOps.Rename, FsOps.MakeDirectory, FsOps.RemoveDir,
           FsOps.SetAttr, FsOps.GetTime, FsOps.SetTime, Balanced, Leaks;
      match cmd
      case 0x01 => r := Reply(STATUS_OK, []);
      case 0x02 => r := Reply(STATUS_OK, U16(MAX_PAYLOAD) + [SERVER_VERSION, 0]);
      case 0x10 => r := ListDirBegin(p);
      case 0x11 => r := ListDirNext(p);
      case 0x20 => r := Open(p);
      case 0x21 => r := Create(p);
      case 0x22 => r := Read(p);
      case 0x23 => r := Write(p);
      case 0x24 => r := Seek(p);
      case 0x25 => r := Close(p);
      case 0x30 => r := Delete(p);
      case 0x31 => r := Rename(p);
      case 0x32 => r := MakeDirectory(p);
      case 0x33 => r := RemoveDir(p);
      case 0x40 => r := GetAttr(p);
      case 0x41 => r := SetAttr(p);
      case 0x42 => r := GetTime(p);
      case 0x43 => r := SetTime(p);
      case 0x50 => r := Flush(p);
      case _ => r := Reply(ERR_UNSUPPORTED, []);
    }

    /**
     * One turn of the main loop on a frame off the wire. A decoded request gets exactly one reply, with its
     * command and sequence number and the handler's result; a bad CRC gets an error reply numbered 0; any
     * other bad frame gets none.
     */
    method Serve(raw: seq<byte>) returns (resp: Option<seq<byte>>)
      requires Good(State())
      modifies this, handles, namemap
      ensures Good(State())
      ensures PyDecode(raw).Rejected? ==> State() == old(State()) && resp == ErrorReply(PyDecode(raw).error)
      ensures PyDecode(raw).Accepted? ==>
                var d := PyDecode(raw);
                var (s', r) := FsOps.Dispatch(old(State()), d.cmd, d.payload);
                && State() == s' && |r.data| <= MAX_PAYLOAD
                && resp == Some(Encode(d.cmd, d.seqNo, FLAG_NONE, r.status, r.data))
                && CDecode(resp.value) == Accepted(d.cmd, d.seqNo, FLAG_NONE, r.status, r.data)
    {
      hide PyDecode, Good, FsOps.Dispatch, Encode, CDecode;
      var d := PyDecode(raw);
      match d
      case Rejected(error) =>
        resp := ErrorReply(error);
      case Accepted(cmd, seqNo, _, _, payload) =>
        var r := Dispatch(cmd, payload);
        var f := Encode(cmd, seqNo, FLAG_NONE, r.status, r.data);
        DecodeUndoesEncode(cmd, seqNo, FLAG_NONE, r.status, r.data, []);
        assert f + [] == f;
        resp := Some(f);
    }
  }

  lemma MovableHasNames(t: Tree, source: NameMaps.Path, target: NameMaps.Path)
    requires CanMove(t, source, target)
    ensures source != [] && target != []
  {
  }

  function ErrorReply(error: FrameError): Option<seq<byte>> {
    if error.BadCrc? then Some(Encode(CMD_PING, 0, FLAG_NONE, ERR_CRC, [])) else None
  }

  lemma EmitKeepsHandle(slots: Slots, hid: nat)
    requires GetDir(slots, hid).Some?
    ensures GetDir(FsOps.EmitBatch(slots, hid).0, hid).Some?
  {
    hide BatchBytes, Packs;
  }
}
