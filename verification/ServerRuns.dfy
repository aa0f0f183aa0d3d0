/** What every request keeps: handles in step with descriptors, the name map well-formed, replies in bounds. */
module ServerRuns {
  import opened Bytes
  import opened Options
  import opened Frame
  import opened Names
  import opened NameMaps
  import opened NameMapRuns
  import opened Os
  import opened Trees
  import opened PathJail
  import opened Files
  import opened Handles
  import opened FsOps

  // ----- The invariant -----

  predicate Owns(slots: Slots, i: nat, fd: nat) {
    i < MAX_HANDLES && GetFile(slots, i).Some? && GetFile(slots, i).value.fd == fd
  }

  ghost predicate Owned(slots: Slots, fd: nat) { exists i: nat :: Owns(slots, i, fd) }

  /** A file handle's shadow offset is its descriptor's position, and its flags tell what the descriptor can do. */
  ghost predicate InStep(h: Handle, os: OS) {
    h.OpenHandle? ==>
      h.fd in os.fds && os.fds[h.fd].pos == h.offset && (os.fds[h.fd].writable <==> h.flags != MODE_READ_ONLY)
  }

  ghost predicate Linked(slots: Slots, os: OS) {
    && (forall i: nat :: i < MAX_HANDLES && slots[i].Some? ==> InStep(slots[i].value, os))
    && (forall i: nat, j: nat, fd: nat :: Owns(slots, i, fd) && Owns(slots, j, fd) ==> i == j)
  }

  /** Every open descriptor belongs to a slot. */
  ghost predicate NoLeaks(slots: Slots, os: OS) {
    forall fd :: fd in os.fds ==> Owned(slots, fd)
  }

  /** An enumeration's cursor is within its snapshot, whose aliases all fit their field. */
  ghost predicate GoodSearch(h: Handle) {
    h.DirState? ==> h.cursor <= |h.entries| && forall e :: e in h.entries ==> ValidAlias(e.alias)
  }

  ghost predicate GoodSearches(slots: Slots) {
    forall i: nat :: i < MAX_HANDLES && slots[i].Some? ==> GoodSearch(slots[i].value)
  }

  ghost predicate Good(s: Server) {
    GoodState(s.names) && GoodFiles(s.os) && Linked(s.slots, s.os) && GoodSearches(s.slots)
  }

  /** A daemon that has just started: nothing open, no handle taken, the name map as saved. */
  lemma StartIsGood(os: OS, saved: NameData)
    requires GoodFiles(os) && os.fds == map[] && WellFormed(saved)
    ensures var s := Server(os, MapState(saved, saved, false), EMPTY_SLOTS); Good(s) && NoLeaks(s.slots, s.os)
  {
    hide GoodFiles, WellFormed;
  }

  // ----- One step of the table and the descriptors -----

  lemma PutElsewhere(slots: Slots, os: OS, k: nat, h: Option<Handle>)
    requires Linked(slots, os) && k < MAX_HANDLES
    requires slots[k].None? || slots[k].value.DirState?
    requires h.None? || h.value.DirState?
    ensures Linked(Put(slots, k, h), os)
    ensures NoLeaks(slots, os) <==> NoLeaks(Put(slots, k, h), os)
  {
    var slots' := Put(slots, k, h);
    forall i: nat, fd: nat
      ensures Owns(slots', i, fd) <==> Owns(slots, i, fd)
    {
    }
    hide Owns;
  }

  /** A fresh descriptor goes into a free slot. */
  lemma PutNewFile(slots: Slots, os: OS, os': OS, k: nat, h: Handle)
    requires Linked(slots, os) && k < MAX_HANDLES && slots[k].None?
    requires h.OpenHandle? && h.fd !in os.fds && h.offset == 0
    requires h.fd in os'.fds && os'.fds == os.fds[h.fd := os'.fds[h.fd]]
    requires InStep(h, os')
    ensures Linked(Put(slots, k, Some(h)), os')
    ensures NoLeaks(slots, os) <==> NoLeaks(Put(slots, k, Some(h)), os')
  {
    var slots' := Put(slots, k, Some(h));
    forall i: nat, fd: nat
      ensures Owns(slots', i, fd) <==> Owns(slots, i, fd) || (i == k && fd == h.fd)
    {
    }
    forall i: nat, fd | Owns(slots, i, fd)
      ensures fd in os.fds && fd != h.fd
    {
      assert InStep(slots[i].value, os);
    }
    OwnedGrows(slots, slots', k, h.fd);
    assert h.fd in os'.fds;
    hide Owns, Owned, InStep;
    assert forall fd :: fd in os'.fds <==> fd in os.fds || fd == h.fd;
  }

  lemma OwnedGrows(slots: Slots, slots': Slots, k: nat, added: nat)
    requires forall i: nat, fd: nat :: Owns(slots', i, fd) <==> Owns(slots, i, fd) || (i == k && fd == added)
    ensures forall fd :: Owned(slots', fd) <==> Owned(slots, fd) || fd == added
  {
    assert Owns(slots', k, added);
    hide Owns;
  }

  lemma OwnedShrinks(slots: Slots, slots': Slots, k: nat, gone: nat)
    requires forall i: nat, fd: nat :: Owns(slots', i, fd) <==> Owns(slots, i, fd) && i != k
    requires forall i: nat, fd: nat :: Owns(slots, i, fd) ==> (i == k <==> fd == gone)
    ensures forall fd :: Owned(slots', fd) <==> Owned(slots, fd) && fd != gone
  {
    hide Owns;
    forall fd | Owned(slots, fd) && fd != gone
      ensures Owned(slots', fd)
    {
      var i: nat :| Owns(slots, i, fd);
      assert Owns(slots', i, fd);
    }
    forall fd | Owned(slots', fd)
      ensures Owned(slots, fd) && fd != gone
    {
      var i: nat :| Owns(slots', i, fd);
      assert Owns(slots, i, fd);
    }
  }

  lemma DropFile(slots: Slots, os: OS, k: nat)
    requires Linked(slots, os) && GetFile(slots, k).Some?
    ensures Linked(Put(slots, k, None), CloseFd(os, GetFile(slots, k).value.fd))
    ensures NoLeaks(slots, os) <==> NoLeaks(Put(slots, k, None), CloseFd(os, GetFile(slots, k).value.fd))
  {
    var gone := GetFile(slots, k).value.fd;
    var slots', os' := Put(slots, k, None), CloseFd(os, gone);
    assert Owns(slots, k, gone);
    forall i: nat, fd: nat
      ensures Owns(slots', i, fd) <==> Owns(slots, i, fd) && i != k
    {
    }
    assert InStep(slots[k].value, os);
    forall i: nat, fd: nat | Owns(slots, i, fd)
      ensures i == k <==> fd == gone
    {
    }
    forall i: nat | i < MAX_HANDLES && slots'[i].Some?
      ensures InStep(slots'[i].value, os')
    {
      assert InStep(slots[i].value, os);
      if slots[i].value.OpenHandle? {
        assert Owns(slots, i, slots[i].value.fd);
      }
    }
    OwnedShrinks(slots, slots', k, gone);
    assert gone in os.fds && Owned(slots, gone);
    hide Owns, Owned, InStep;
    assert forall fd :: fd in os'.fds <==> fd in os.fds && fd != gone;
  }

  /** The descriptor of one handle moves, and its shadow offset with it. */
  lemma MoveFile(slots: Slots, os: OS, os': OS, k: nat, pos: nat)
    requires Linked(slots, os) && GetFile(slots, k).Some?
    requires var fd := GetFile(slots, k).value.fd;
             fd in os.fds && os'.fds == os.fds[fd := os.fds[fd].(pos := pos)]
    ensures Linked(Put(slots, k, Some(GetFile(slots, k).value.(offset := pos))), os')
    ensures NoLeaks(slots, os) <==> NoLeaks(Put(slots, k, Some(GetFile(slots, k).value.(offset := pos))), os')
  {
    var h := GetFile(slots, k).value;
    var slots' := Put(slots, k, Some(h.(offset := pos)));
    forall i: nat, fd: nat
      ensures Owns(slots', i, fd) <==> Owns(slots, i, fd)
    {
    }
    forall i: nat | i < MAX_HANDLES && slots'[i].Some?
      ensures InStep(slots'[i].value, os')
    {
      assert InStep(slots[i].value, os);
      if i != k && slots[i].value.OpenHandle? {
        assert Owns(slots, i, slots[i].value.fd) && Owns(slots, k, h.fd);
      }
    }
    OwnedSame(slots, slots');
    hide Owns, Owned, InStep;
  }

  lemma OwnedSame(slots: Slots, slots': Slots)
    requires forall i: nat, fd: nat :: Owns(slots', i, fd) <==> Owns(slots, i, fd)
    ensures forall fd :: Owned(slots', fd) <==> Owned(slots, fd)
  {
    hide Owns;
  }

  // ----- One request -----

  ghost predicate Balanced(s: Server) { NoLeaks(s.slots, s.os) }

  /** At most 512 bytes, and none with an error. */
  predicate Fits(r: Reply) { |r.data| <= MAX_PAYLOAD && (r.status != STATUS_OK ==> r.data == []) }

  /** What every handler but CREATE keeps. */
  ghost predicate Keeps(s: Server, result: (Server, Reply)) {
    Good(s) ==> Good(result.0) && (Balanced(s) <==> Balanced(result.0)) && Fits(result.1)
  }

  lemma PutSearch(s: Server, k: nat, h: Option<Handle>)
    requires Good(s) && k < MAX_HANDLES
    requires s.slots[k].None? || s.slots[k].value.DirState?
    requires h.None? || (h.value.DirState? && GoodSearch(h.value))
    ensures var s' := s.(slots := Put(s.slots, k, h)); Good(s') && (Balanced(s) <==> Balanced(s'))
  {
    PutElsewhere(s.slots, s.os, k, h);
    hide GoodState, GoodFiles, Linked, NoLeaks, GoodSearch;
  }

  lemma LocatedIsSimple(s: Server, p: seq<byte>)
    requires Good(s) && p != [] && Locate(s, p).Some?
    ensures var path := Locate(s, p).value; path == [] || SimpleName(Last(path))
  {
    hide Resolve, GoodTree;
    ResolvedPathsStayBelowRoot(s.os.tree, s.names.data, DosPath(p));
  }

  lemma GoodParts(s: Server)
    requires Good(s)
    ensures GoodState(s.names) && GoodFiles(s.os) && Linked(s.slots, s.os) && GoodSearches(s.slots)
  {
  }

  lemma NewFdIsFresh(s: Server)
    requires Good(s)
    ensures s.os.nextFd !in s.os.fds
  {
    hide GoodTree, GoodState, Linked, GoodSearches;
  }

  lemma CloseUndoesOpen(s: Server, os: OS, f: Fd)
    requires Good(s) && GoodFiles(os) && os.fds == s.os.fds[s.os.nextFd := f]
    ensures Keeps(s, Fail(s.(os := CloseFd(os, s.os.nextFd)), ERR_IO))
  {
    NewFdIsFresh(s);
    MovesAreGood(os, s.os.nextFd, 0, []);
    assert CloseFd(os, s.os.nextFd).fds == s.os.fds;
    hide GoodState, GoodFiles, GoodSearches, Owned, Owns;
  }

  lemma OpenedGetsSlot(s: Server, os: OS, path: Path, f: Fd, k: nat, flags: nat)
    requires Good(s) && GoodFiles(os) && os.fds == s.os.fds[s.os.nextFd := f]
    requires f.pos == 0 && (f.writable <==> flags != MODE_READ_ONLY)
    requires k < MAX_HANDLES && s.slots[k].None?
    ensures Keeps(s, Done(s.(os := os, slots := Put(s.slots, k, Some(OpenHandle(path, s.os.nextFd, 0, flags)))), [k]))
  {
    NewFdIsFresh(s);
    PutNewFile(s.slots, s.os, os, k, OpenHandle(path, s.os.nextFd, 0, flags));
    hide GoodState, GoodFiles, Linked, NoLeaks, GoodSearch;
  }

  lemma AllocFileKeeps(s: Server, os: OS, path: Path, f: Fd, flags: nat)
    requires Good(s) && GoodFiles(os) && os.fds == s.os.fds[s.os.nextFd := f]
    requires f.pos == 0 && (f.writable <==> flags != MODE_READ_ONLY)
    ensures Keeps(s, AllocFile(s.(os := os), path, s.os.nextFd, flags))
  {
    hide Good, GoodFiles, Keeps, LeastFree;
    if Free(s.slots) == MAX_HANDLES {
      CloseUndoesOpen(s, os, f);
    } else {
      OpenedGetsSlot(s, os, path, f, Free(s.slots), flags);
    }
  }

  lemma OpenKeeps(s: Server, p: seq<byte>)
    ensures Keeps(s, Open(s, p))
  {
    hide Good, Balanced, AllocFile, Locate, GoodFiles;
    if Good(s) && |p| >= 2 && Locate(s, p).Some? && IsFile(s.os.tree, Locate(s, p).value) {
      var path := Locate(s, p).value;
      GoodParts(s);
      OpenFdIsGood(s.os, path, false);
      AllocFileKeeps(s, OpenFd(s.os, path, false), path, Fd(s.os.tree[path].ino, 0, false), MODE_READ_ONLY);
    }
  }

  // CREATE

  /** CREATE raises after it has opened the file: the directory has run out of aliases for the name. */
  ghost predicate RunsOut(s: Server, p: seq<byte>) {
    var path := CreateTarget(s, p);
    && path.Some? && path.value != []
    && AliasFor(s.names.data, Last(path.value), Parent(path.value)).1.None?
  }

  lemma LeakedFd(s: Server, os: OS, f: Fd)
    requires Good(s) && GoodFiles(os) && os.fds == s.os.fds[s.os.nextFd := f]
    ensures Good(s.(os := os)) && !Balanced(s.(os := os))
  {
    NewFdIsFresh(s);
    hide GoodState, GoodFiles, GoodSearches;
    var fd := s.os.nextFd;
    forall i: nat, owned: nat | Owns(s.slots, i, owned)
      ensures owned in s.os.fds
    {
      assert InStep(s.slots[i].value, s.os);
    }
    assert !Owned(s.slots, fd) && fd in os.fds;
  }

  lemma SavedIsGood(m: MapState)
    requires GoodState(m)
    ensures GoodState(SavedIfDirty(m))
  {
    hide WellFormed;
  }

  lemma WithNames(s: Server, names: MapState)
    requires Good(s) && GoodState(names)
    ensures Good(s.(names := names)) && (Balanced(s.(names := names)) <==> Balanced(s))
  {
    hide GoodState, GoodFiles, Linked, GoodSearches, NoLeaks;
  }

  lemma RegisterVerdict(s: Server, os: OS, path: Path, f: Fd)
    requires Good(s) && GoodFiles(os) && os.fds == s.os.fds[s.os.nextFd := f] && f.pos == 0 && f.writable
    requires path != [] && SimpleName(Last(path))
    ensures var (s', r) := Register(s, os, path, s.os.nextFd);
            var raises := AliasFor(s.names.data, Last(path), Parent(path)).1.None?;
            Good(s') && Fits(r) && (Balanced(s') <==> Balanced(s) && !raises)
  {
    hide Good, GoodFiles, Balanced, AllocFile, GoodState, Step, AliasFor;
    var op := AliasForOp(Last(path), Parent(path));
    var names := Step(s.names, op);
    GoodParts(s);
    StepKeepsGood(s.names, op);
    SavedIsGood(names);
    if AliasFor(s.names.data, Last(path), Parent(path)).1.None? {
      LeakedFd(s, os, f);
      WithNames(s.(os := os), names);
    } else {
      WithNames(s, SavedIfDirty(names));
      AllocFileKeeps(s.(names := SavedIfDirty(names)), os, path, f, MODE_WRITE_ONLY);
    }
  }

  lemma CreateVerdict(s: Server, p: seq<byte>)
    requires Good(s)
    ensures var (s', r) := Create(s, p); Good(s') && Fits(r) && (Balanced(s') <==> Balanced(s) && !RunsOut(s, p))
  {
    hide Good, GoodFiles, Balanced, Register, Locate, OpenForWrite, AliasFor, SimpleName;
    if |p| >= 2 && p[0] <= 1 && Locate(s, p).Some? {
      var path := Locate(s, p).value;
      if path == [] || Parent(path) in s.os.tree {
        var opening := OpenForWrite(s.os, path, p[0] == 0);
        if opening.Opened? && path != [] {
          LocatedIsSimple(s, p);
          GoodParts(s);
          OpenForWriteIsGood(s.os, path, p[0] == 0);
          RegisterVerdict(s, opening.os, path, Fd(opening.os.tree[path].ino, 0, true));
        }
      }
    }
  }

  // The handlers that work on a handle

  lemma ReleaseKeeps(s: Server, hid: nat)
    requires Get(s.slots, hid).Some?
    ensures Keeps(s, Done(Release(s, hid), []))
  {
    if Good(s) {
      var h := s.slots[hid].value;
      if h.OpenHandle? {
        DropFile(s.slots, s.os, hid);
        assert InStep(h, s.os);
        MovesAreGood(s.os, h.fd, 0, []);
      } else {
        PutSearch(s, hid, None);
      }
    }
    hide GoodState, GoodFiles, Linked, NoLeaks, GoodSearch, InStep;
  }

  lemma CloseKeeps(s: Server, p: seq<byte>)
    ensures Keeps(s, Close(s, p))
  {
    hide Good, Balanced, Release, StampedOnClose, GoodFiles, GoodState;
    if Good(s) && p != [] && Get(s.slots, p[0]).Some? {
      var h := s.slots[p[0]].value;
      var s1 := s.(os := StampedOnClose(s.os, h, p));
      GoodParts(s);
      StampedOnCloseKeeps(s.os, h, p);
      ElsewhereVerdict(s, s1);
      ReleaseKeeps(s1, p[0]);
    }
  }

  lemma StampedOnCloseKeeps(os: OS, h: Handle, p: seq<byte>)
    requires GoodFiles(os)
    ensures GoodFiles(StampedOnClose(os, h, p)) && StampedOnClose(os, h, p).fds == os.fds
  {
    hide GoodFiles, FromU16, Clamped, ValidStamp, Stamped;
    if h.OpenHandle? && |p| >= 5 && h.path in os.tree {
      StampedIsGood(os, h.path, Clamped(FromU16(p[1..3])), FromU16(p[3..5]));
      StampedKeepsFds(os, h.path, Clamped(FromU16(p[1..3])), FromU16(p[3..5]));
    }
  }

  /** A handler that moves one descriptor and its shadow offset to the same position. */
  lemma MovedKeeps(s: Server, hid: nat, os: OS, pos: nat, r: Reply)
    requires Good(s) && GetFile(s.slots, hid).Some? && GoodFiles(os) && Fits(r)
    requires var fd := GetFile(s.slots, hid).value.fd;
             fd in s.os.fds && os.fds == s.os.fds[fd := s.os.fds[fd].(pos := pos)]
    ensures Keeps(s, (Moved(s, hid, os, pos), r))
  {
    MoveFile(s.slots, s.os, os, hid, pos);
    hide GoodState, GoodFiles, Linked, NoLeaks, GoodSearch;
  }

  /** What a file handle of a good server says about its descriptor. */
  lemma FileIsInStep(s: Server, hid: nat)
    requires Good(s) && GetFile(s.slots, hid).Some?
    ensures var h := GetFile(s.slots, hid).value;
            && IsOpen(s.os, h.fd) && s.os.fds[h.fd].pos == h.offset
            && (s.os.fds[h.fd].writable <==> h.flags != MODE_READ_ONLY)
  {
    assert InStep(s.slots[hid].value, s.os);
    hide GoodState, GoodTree, GoodSearches;
  }

  lemma ReadOnKeeps(s: Server, hid: nat, n: nat)
    requires GetFile(s.slots, hid).Some? && n <= MAX_PAYLOAD
    ensures Keeps(s, ReadOn(s, hid, n))
  {
    hide Good, GoodFiles, Balanced, Fetch, Moved;
    if Good(s) {
      FileIsInStep(s, hid);
      var h := GetFile(s.slots, hid).value;
      var data := Fetch(s.os, h.fd, h.offset, n);
      if data.Some? {
        GoodParts(s);
        var pos := h.offset + |data.value|;
        MovesAreGood(s.os, h.fd, pos, []);
        MovedKeeps(s, hid, SetPos(s.os, h.fd, pos), pos, Reply(STATUS_OK, data.value));
      }
    }
  }

  lemma ReadKeeps(s: Server, p: seq<byte>)
    ensures Keeps(s, Read(s, p))
  {
    hide Good, Balanced, Fetch, ReadOn, FromU16, FromU32;
    if 3 <= |p| < 7 && GetFile(s.slots, p[0]).Some? {
      ReadOnKeeps(s, p[0], Capped(FromU16(p[1..3])));
    }
  }

  lemma WriteKeeps(s: Server, p: seq<byte>)
    ensures Keeps(s, Write(s, p))
  {
    hide Good, GoodFiles, Balanced, Moved, WriteAt;
    if Good(s) && p != [] && GetFile(s.slots, p[0]).Some? {
      FileIsInStep(s, p[0]);
      GoodParts(s);
      var h := GetFile(s.slots, p[0]).value;
      var pos := h.offset + |p[1..]|;
      MovesAreGood(s.os, h.fd, pos, p[1..]);
      MovedKeeps(s, p[0], WriteFd(s.os, h.fd, p[1..]), pos, Reply(STATUS_OK, []));
    }
  }

  lemma SeekKeeps(s: Server, p: seq<byte>)
    ensures Keeps(s, Seek(s, p))
  {
    hide Good, GoodFiles, Balanced, Moved, FromI32, U16;
    if Good(s) && |p| >= 6 && p[1] <= 2 && GetFile(s.slots, p[0]).Some? {
      FileIsInStep(s, p[0]);
      GoodParts(s);
      var h := GetFile(s.slots, p[0]).value;
      var pos := SeekBase(s.os, h.fd, p[1]) + FromI32(p[2..6]);
      if pos >= 0 {
        MovesAreGood(s.os, h.fd, pos, []);
        var os := SetPos(s.os, h.fd, pos);
        MovedKeeps(s, p[0], os, pos, Reply(ERR_IO, []));
        if pos < U32_LIMIT {
          MovedKeeps(s, p[0], os, pos, Reply(STATUS_OK, U32(pos)));
        }
      }
    }
  }

  // Enumeration

  lemma EmitBatchKeeps(s: Server, hid: nat)
    requires Good(s) && GetDir(s.slots, hid).Some?
    ensures var (slots, r) := EmitBatch(s.slots, hid);
            && Good(s.(slots := slots)) && (Balanced(s.(slots := slots)) <==> Balanced(s))
            && Fits(r) && |r.data| < MAX_PAYLOAD
            && GetDir(slots, hid).Some?
  {
    var ds := GetDir(s.slots, hid).value;
    assert GoodSearch(ds);
    hide Good, Balanced, Packs, ValidAlias, BatchBytes;
    if ds.cursor < |ds.entries| {
      PutSearch(s, hid, Some(ds.(cursor := BatchEnd(ds.cursor, |ds.entries|))));
    }
  }

  lemma AllocDirKeeps(s: Server, dir: Path, entries: seq<DirEntry>)
    requires forall e :: e in entries ==> ValidAlias(e.alias)
    ensures Keeps(s, AllocDir(s, dir, entries))
  {
    hide Good, Balanced, EmitBatch, LeastFree;
    var hid := Free(s.slots);
    if Good(s) && hid < MAX_HANDLES {
      var s1 := s.(slots := Put(s.slots, hid, Some(DirState(dir, entries, 0))));
      PutSearch(s, hid, Some(DirState(dir, entries, 0)));
      EmitBatchKeeps(s1, hid);
    }
  }

  lemma ListDirNextKeeps(s: Server, p: seq<byte>)
    ensures Keeps(s, ListDirNext(s, p))
  {
    hide Good, Balanced, EmitBatch;
    if Good(s) && p != [] && GetDir(s.slots, p[0]).Some? {
      EmitBatchKeeps(s, p[0]);
      var (slots, r) := EmitBatch(s.slots, p[0]);
      if r.data == [] {
        PutSearch(s.(slots := slots), p[0], None);
      }
    }
  }

  lemma EntriesFitTheirField(entries: seq<DirEntry>, listing: seq<Listed>, b: Bucket)
    requires EntriesFor(entries, listing, b)
    ensures forall e :: e in entries ==> ValidAlias(e.alias)
  {
    hide ValidAlias, Denotes, Visible;
    forall e | e in entries
      ensures ValidAlias(e.alias)
    {
      var i :| 0 <= i < |entries| && entries[i] == e;
      assert EntryFor(entries[i], Visible(listing)[i], b);
    }
  }

  lemma EnumerateKeeps(s: Server, dir: Path)
    requires IsDir(s.os.tree, dir)
    ensures Keeps(s, Enumerate(s, dir))
  {
    if Good(s) {
      var listing := ListingOf(s.os, dir);
      GoodParts(s);
      ListingNames(s.os, dir);
      hide Good, Balanced, AllocDir, GoodState, ListingOf, ScanDir, SimpleName, GoodTree, ValidAlias, BucketOf;
      StepKeepsGood(s.names, ScanOp(dir, listing));
      ScanIsGood(s, dir, listing);
    }
  }

  lemma ScanIsGood(s: Server, dir: Path, listing: seq<Listed>)
    requires Good(s) && forall e :: e in listing ==> SimpleName(e.name)
    requires GoodState(Step(s.names, ScanOp(dir, listing)))
    ensures var entries := ScanDir(s.names.data, dir, listing).1;
            var names := Step(s.names, ScanOp(dir, listing));
            Keeps(s, if entries.None? then Fail(s.(names := names), ERR_IO)
                     else AllocDir(s.(names := SavedIfDirty(names)), dir, entries.value))
  {
    var names := Step(s.names, ScanOp(dir, listing));
    GoodParts(s);
    ScanVerdict(s.names.data, dir, listing);
    hide Good, Balanced, AllocDir, GoodState, ScanDir, Step, EntriesFor, SimpleName, ValidAlias, BucketOf, SavedIfDirty;
    SavedIsGood(names);
    WithNames(s, names);
    WithNames(s, SavedIfDirty(names));
    var (data, entries) := ScanDir(s.names.data, dir, listing);
    if entries.Some? {
      EntriesFitTheirField(entries.value, listing, BucketOf(data, dir));
      AllocDirKeeps(s.(names := SavedIfDirty(names)), dir, entries.value);
    }
  }

  lemma ListDirBeginKeeps(s: Server, p: seq<byte>)
    ensures Keeps(s, ListDirBegin(s, p))
  {
    hide Good, Balanced, Enumerate, Locate;
    if |p| >= 2 && Locate(s, p).Some? && IsDir(s.os.tree, Locate(s, p).value) {
      EnumerateKeeps(s, Locate(s, p).value);
    }
  }

  // Changes to the tree and the name map

  /** The tree, the file contents and the name map change; descriptors and handles do not. */
  lemma ElsewhereVerdict(s: Server, s': Server)
    requires Good(s) && GoodFiles(s'.os) && GoodState(s'.names) && s'.os.fds == s.os.fds && s'.slots == s.slots
    ensures Good(s') && (Balanced(s') <==> Balanced(s))
  {
    hide GoodState, GoodFiles, GoodSearches, Owned;
  }

  lemma RemovedKeeps(s: Server, path: Path)
    requires path != [] && path in s.os.tree && IsDir(s.os.tree, Parent(path)) && IsLeaf(s.os.tree[path])
    ensures Keeps(s, Removed(s, path))
  {
    hide Good, GoodFiles, Balanced, GoodState, Step, Pruned;
    if Good(s) {
      var op := RemoveOp(Last(path), Parent(path));
      GoodParts(s);
      RemoveEntryIsGood(s.os, path);
      StepKeepsGood(s.names, op);
      SavedIsGood(Step(s.names, op));
      ElsewhereVerdict(s, Removed(s, path).0);
    }
  }

  lemma DeleteKeeps(s: Server, p: seq<byte>)
    ensures Keeps(s, Delete(s, p))
  {
    hide Good, Balanced, Locate, Removed;
    if |p| >= 2 && Locate(s, p).Some? {
      var path := Locate(s, p).value;
      if IsFile(s.os.tree, path) && path != [] && IsDir(s.os.tree, Parent(path)) { RemovedKeeps(s, path); }
    }
  }

  lemma RemoveDirKeeps(s: Server, p: seq<byte>)
    ensures Keeps(s, RemoveDir(s, p))
  {
    hide Good, Balanced, Locate, Removed;
    if |p| >= 2 && Locate(s, p).Some? {
      var path := Locate(s, p).value;
      if path in s.os.tree && IsLeaf(s.os.tree[path]) && path != [] && IsDir(s.os.tree, Parent(path)) {
        RemovedKeeps(s, path);
      }
    }
  }

  /** A changed tree and map, and then the alias of one more name. */
  lemma RegisteredKeeps(s: Server, now: Server, path: Path)
    requires Good(s) && path != [] && SimpleName(Last(path))
    requires GoodFiles(now.os) && GoodState(now.names) && now.os.fds == s.os.fds && now.slots == s.slots
    ensures Keeps(s, Registered(now, path))
  {
    hide Good, GoodFiles, Balanced, GoodState, Step, AliasFor;
    var op := AliasForOp(Last(path), Parent(path));
    StepKeepsGood(now.names, op);
    SavedIsGood(Step(now.names, op));
    ElsewhereVerdict(s, Registered(now, path).0);
  }

  lemma MakeDirectoryKeeps(s: Server, p: seq<byte>)
    ensures Keeps(s, MakeDirectory(s, p))
  {
    hide Good, Balanced, Locate, Registered, GoodFiles, GoodState, SimpleName;
    if Good(s) && |p| >= 2 && Locate(s, p).Some? {
      var path := Locate(s, p).value;
      if path !in s.os.tree && path != [] && IsDir(s.os.tree, Parent(path)) {
        LocatedIsSimple(s, p);
        GoodParts(s);
        MakeDirIsGood(s.os, path);
        RegisteredKeeps(s, s.(os := MakeDir(s.os, path)), path);
      }
    }
  }

  lemma RenamedKeeps(s: Server, source: Path, target: Path)
    requires Good(s) && CanMove(s.os.tree, source, target) && SimpleName(Last(target))
    ensures Keeps(s, Renamed(s, source, target))
  {
    hide Good, Balanced, Registered, GoodFiles, GoodState, SimpleName, Step, Transplanted;
    var op := RemoveOp(Last(source), Parent(source));
    GoodParts(s);
    MoveEntryIsGood(s.os, source, target);
    StepKeepsGood(s.names, op);
    RegisteredKeeps(s, s.(os := MoveEntry(s.os, source, target), names := Step(s.names, op)), target);
  }

  lemma ResolvedIsSimple(s: Server, dosPath: string)
    requires Good(s) && Resolve(s.os.tree, s.names.data, dosPath).Some?
    ensures var path := Resolve(s.os.tree, s.names.data, dosPath).value; path == [] || SimpleName(Last(path))
  {
    hide Resolve, GoodTree;
    ResolvedPathsStayBelowRoot(s.os.tree, s.names.data, dosPath);
  }

  lemma RenameKeeps(s: Server, p: seq<byte>)
    ensures Keeps(s, Rename(s, p))
  {
    hide Good, Balanced, Renamed, Resolve, UntilNul, AfterNul, DecodeAscii, SimpleName;
    if Good(s) && AfterNul(p).Some? {
      var first, second := UntilNul(p), UntilNul(AfterNul(p).value);
      var source := Resolve(s.os.tree, s.names.data, DecodeAscii(first));
      var target := Resolve(s.os.tree, s.names.data, DecodeAscii(second));
      if source.Some? && target.Some? && CanMove(s.os.tree, source.value, target.value) {
        ResolvedIsSimple(s, DecodeAscii(second));
        RenamedKeeps(s, source.value, target.value);
      }
    }
  }

  // ----- Dispatch, and whole runs -----

  ghost predicate Leaks(s: Server, cmd: byte, p: seq<byte>) { cmd == CMD_CREATE && RunsOut(s, p) }

  /**
   * Every request leaves a good server good and is answered within bounds, with no data on an error;
   * a descriptor is lost exactly when CREATE runs out of aliases after it has opened the file.
   */
  lemma DispatchVerdict(s: Server, cmd: byte, p: seq<byte>)
    requires Good(s)
    ensures var (s', r) := Dispatch(s, cmd, p);
            Good(s') && Fits(r) && (Balanced(s') <==> Balanced(s) && !Leaks(s, cmd, p))
  {
    hide Good, Balanced, ListDirBegin, ListDirNext, Open, Create, Read, Write, Seek, Close, GetAttr, Flush, RunsOut,
         Delete, Rename, MakeDirectory, RemoveDir, SetAttr, GetTime, SetTime;
    if cmd == CMD_LIST_DIR { ListDirBeginKeeps(s, p); }
    else if cmd == CMD_LIST_DIR_NEXT { ListDirNextKeeps(s, p); }
    else if cmd == CMD_OPEN { OpenKeeps(s, p); }
    else if cmd == CMD_CREATE { CreateVerdict(s, p); }
    else if cmd == CMD_READ { ReadKeeps(s, p); }
    else if cmd == CMD_WRITE { WriteKeeps(s, p); }
    else if cmd == CMD_SEEK { SeekKeeps(s, p); }
    else if cmd == CMD_CLOSE { CloseKeeps(s, p); }
    else if cmd == CMD_GET_ATTR { GetAttrKeeps(s, p); }
    else if cmd == CMD_FLUSH { FlushKeeps(s, p); }
    else if cmd == CMD_DELETE { DeleteKeeps(s, p); }
    else if cmd == CMD_RENAME { RenameKeeps(s, p); }
    else if cmd == CMD_MKDIR { MakeDirectoryKeeps(s, p); }
    else if cmd == CMD_RMDIR { RemoveDirKeeps(s, p); }
    else if cmd == CMD_SET_ATTR { SetAttrKeeps(s, p); }
    else if cmd == CMD_GET_TIME { GetTimeKeeps(s, p); }
    else if cmd == CMD_SET_TIME { SetTimeKeeps(s, p); }
  }

  lemma GetAttrKeeps(s: Server, p: seq<byte>)
    ensures Keeps(s, GetAttr(s, p))
  {
    hide Good, Balanced, Locate, Packs, StatOf;
  }

  lemma SetAttrKeeps(s: Server, p: seq<byte>)
    ensures Keeps(s, SetAttr(s, p))
  {
    hide Good, Balanced, Locate, AfterNul;
  }

  lemma GetTimeKeeps(s: Server, p: seq<byte>)
    ensures Keeps(s, GetTime(s, p))
  {
    hide Good, Balanced, Locate, StampsPack, StatOf;
  }

  lemma SetTimeKeeps(s: Server, p: seq<byte>)
    ensures Keeps(s, SetTime(s, p))
  {
    hide Good, Balanced, Locate, AfterNul, Stamped, ValidStamp, FromU16, GoodFiles, GoodState;
    if Good(s) && SetTime(s, p).1.status == STATUS_OK {
      var stamps, path := AfterNul(p[1..]).value, Locate(s, p).value;
      var date, time := FromU16(stamps[..2]), FromU16(stamps[2..4]);
      GoodParts(s);
      StampedIsGood(s.os, path, date, time);
      StampedKeepsFds(s.os, path, date, time);
      ElsewhereVerdict(s, s.(os := Stamped(s.os, path, date, time)));
    }
  }

  lemma StampedKeepsFds(os: OS, p: Path, date: nat, time: nat)
    requires p in os.tree
    ensures Stamped(os, p, date, time).fds == os.fds
  {
  }

  lemma FlushKeeps(s: Server, p: seq<byte>)
    ensures Keeps(s, Flush(s, p))
  {
    hide Good, Balanced;
  }

  /**
   * A request, or a change made by other programs on the host or by time: the tree, the file contents and the
   * clock change, but no descriptor, no handle and not the daemon's name map.
   */
  datatype Event = Request(cmd: byte, payload: seq<byte>) | Elsewhere

  ghost predicate Next(s: Server, e: Event, s': Server) {
    match e
    case Request(cmd, p) => s' == Dispatch(s, cmd, p).0
    case Elsewhere =>
      GoodFiles(s'.os) && s'.os.fds == s.os.fds && s'.names == s.names && s'.slots == s.slots
  }

  ghost predicate IsRun(states: seq<Server>, events: seq<Event>) {
    && |states| == |events| + 1
    && forall i :: 0 <= i < |events| ==> Next(states[i], events[i], states[i + 1])
  }

  ghost predicate LeaksAt(states: seq<Server>, events: seq<Event>, i: nat)
    requires i < |events| <= |states|
  {
    events[i].Request? && Leaks(states[i], events[i].cmd, events[i].payload)
  }

  ghost predicate LeakFree(states: seq<Server>, events: seq<Event>)
    requires |events| <= |states|
  {
    forall i :: 0 <= i < |events| ==> !LeaksAt(states, events, i)
  }

  lemma LeakFreePrefix(states: seq<Server>, events: seq<Event>, init: seq<Server>, before: seq<Event>)
    requires |states| == |events| + 1 == |before| + 2 && init == states[..|events|] && before == events[..|before|]
    ensures LeakFree(states, events) <==> LeakFree(init, before) && !LeaksAt(states, events, |before|)
  {
    hide LeaksAt;
    if LeakFree(states, events) {
      forall i | 0 <= i < |before|
        ensures !LeaksAt(init, before, i)
      {
        LeakSame(states, events, init, before, i);
        assert !LeaksAt(states, events, i);
      }
    }
    if LeakFree(init, before) && !LeaksAt(states, events, |before|) {
      forall i | 0 <= i < |events|
        ensures !LeaksAt(states, events, i)
      {
        if i < |before| { LeakSame(states, events, init, before, i); }
      }
    }
  }

  lemma LeakSame(states: seq<Server>, events: seq<Event>, init: seq<Server>, before: seq<Event>, i: nat)
    requires i < |before| <= |init| <= |states| && |before| <= |events| <= |states|
    requires init[i] == states[i] && before[i] == events[i]
    ensures LeaksAt(init, before, i) == LeaksAt(states, events, i)
  {
    hide Leaks;
  }

  lemma NextVerdict(s: Server, e: Event, s': Server)
    requires Good(s) && Next(s, e, s')
    ensures Good(s')
    ensures Balanced(s') <==> Balanced(s) && !(e.Request? && Leaks(s, e.cmd, e.payload))
  {
    if e.Request? {
      hide Good, Balanced, Leaks, Dispatch;
      DispatchVerdict(s, e.cmd, e.payload);
    } else {
      ElsewhereVerdict(s, s');
    }
  }

  /**
   * Over every run, handles stay in step with descriptors and the name map stays well-formed;
   * every descriptor that is open belongs to a handle unless some CREATE ran out of aliases.
   */
  lemma {:induction false} RunVerdict(states: seq<Server>, events: seq<Event>)
    requires IsRun(states, events) && Good(states[0]) && Balanced(states[0])
    ensures forall i :: 0 <= i < |states| ==> Good(states[i])
    ensures Balanced(states[|events|]) <==> LeakFree(states, events)
  {
    hide Good, Balanced, Leaks, Next;
    if events != [] {
      var n := |events| - 1;
      RunVerdict(states[..n + 1], events[..n]);
      assert states[..n + 1][n] == states[n];
      NextVerdict(states[n], events[n], states[n + 1]);
      LeakFreePrefix(states, events, states[..n + 1], events[..n]);
    }
  }
}
