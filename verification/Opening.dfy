/** What OPEN, CREATE, CLOSE and GET_ATTR do to the slots, the descriptors and the file behind a new handle. */
module Opening {
  import opened Bytes
  import opened Options
  import opened Clock
  import opened Frame
  import opened Names
  import opened NameMaps
  import opened NameMapRuns
  import opened Os
  import opened PathJail
  import opened Files
  import opened Trees
  import opened Handles
  import opened FsOps
  import opened ServerRuns
  import opened Transfers
  import opened CreatedPaths

  // ----- One slot more, or none -----

  /** On success exactly one slot more is occupied, by a file handle, and the reply names it; else none. */
  ghost predicate TakesSlot(s: Server, result: (Server, Reply)) {
    var (s', r) := result;
    if r.status == STATUS_OK then
      var k := Free(s.slots);
      && k < MAX_HANDLES && r.data == [k]
      && GetFile(s'.slots, k).Some? && s'.slots == Put(s.slots, k, GetFile(s'.slots, k))
    else s'.slots == s.slots
  }

  lemma OpenTakesSlot(s: Server, p: seq<byte>)
    ensures TakesSlot(s, Open(s, p))
  {
    hide Locate, LeastFree;
  }

  lemma CreateTakesSlot(s: Server, p: seq<byte>)
    ensures TakesSlot(s, Create(s, p))
  {
    hide Locate, LeastFree, OpenForWrite, AliasFor, Step;
  }

  /** Closing a handle that was just taken gives back the slots as they were. */
  lemma CloseUndoes(s: Server, result: (Server, Reply))
    requires TakesSlot(s, result) && result.1.status == STATUS_OK
    ensures Close(result.0, result.1.data).1.status == STATUS_OK
    ensures Close(result.0, result.1.data).0.slots == s.slots
  {
    var k := Free(s.slots);
    assert s.slots[k].None?;
    hide LeastFree;
    assert Put(result.0.slots, k, None) == s.slots;
  }

  // ----- What a path names -----

  ghost predicate NamesFile(s: Server, p: seq<byte>)
    requires p != []
  {
    Locate(s, p).Some? && IsFile(s.os.tree, Locate(s, p).value)
  }

  ghost predicate NamesDir(s: Server, p: seq<byte>)
    requires p != []
  {
    Locate(s, p).Some? && IsDir(s.os.tree, Locate(s, p).value)
  }

  ghost predicate NamesNothing(s: Server, p: seq<byte>)
    requires p != []
  {
    Locate(s, p).Some? && Locate(s, p).value !in s.os.tree
  }

  // ----- When they succeed -----

  /** OPEN succeeds exactly in mode 0 on an existing file with a slot free. */
  lemma OpenSucceeds(s: Server, p: seq<byte>)
    ensures Open(s, p).1.status == STATUS_OK <==>
            && |p| >= 2 && p[0] == MODE_READ_ONLY && Locate(s, p).Some? && IsFile(s.os.tree, Locate(s, p).value)
            && |Occupied(s.slots)| < MAX_HANDLES
  {
    FullTable(s.slots);
    OccupiedBound(s.slots);
    hide Locate, LeastFree, Occupied;
  }

  /**
   * CREATE succeeds exactly for a name in an existing directory that is not itself a directory, does not exist
   * yet in mode 0, and can be given an alias, with a slot free.
   */
  lemma CreateSucceeds(s: Server, p: seq<byte>)
    requires GoodTree(s.os.tree)
    ensures Create(s, p).1.status == STATUS_OK <==>
            && |p| >= 2 && p[0] <= 1 && Locate(s, p).Some? && Locate(s, p).value != []
            && var path := Locate(s, p).value;
            && IsDir(s.os.tree, Parent(path)) && !IsDir(s.os.tree, path)
            && (p[0] == 0 ==> path !in s.os.tree)
            && AliasFor(s.names.data, Last(path), Parent(path)).1.Some?
            && |Occupied(s.slots)| < MAX_HANDLES
  {
    FullTable(s.slots);
    OccupiedBound(s.slots);
    hide Locate, LeastFree, Occupied, AliasFor, Step, Downward;
  }

  lemma OccupiedBound(slots: Slots)
    ensures |Occupied(slots)| <= MAX_HANDLES
  {
    SubsetIsSmaller(Occupied(slots), Below(MAX_HANDLES));
    hide Occupied;
  }

  // ----- The file behind a new handle -----

  /** OPEN gives a readable handle on the file the path names. */
  lemma OpenedIsReadable(s: Server, p: seq<byte>)
    requires Good(s) && Open(s, p).1.status == STATUS_OK
    ensures var s' := Open(s, p).0;
            && Locate(s, p).Some? && IsFile(s'.os.tree, Locate(s, p).value)
            && s'.os.tree == s.os.tree && s'.os.inodes == s.os.inodes && s'.names == s.names
            && s.os.tree[Locate(s, p).value].ino in s.os.inodes
            && FileData(s', Free(s.slots)) == Some(s.os.inodes[s.os.tree[Locate(s, p).value].ino])
  {
    hide Locate, LeastFree, GoodTree, GoodState, Linked, GoodSearches;
  }

  /** CREATE gives a writable handle, at position 0, on a file that is now empty. */
  lemma CreatedIsEmpty(s: Server, p: seq<byte>)
    requires Good(s) && Create(s, p).1.status == STATUS_OK
    ensures var s', hid := Create(s, p).0, Free(s.slots);
            && Locate(s, p).Some? && IsFile(s'.os.tree, Locate(s, p).value)
            && Writable(s', hid) && FileOf(s', hid) == [] && PosOf(s', hid) == 0
            && GetFile(s'.slots, hid).value.offset == 0
            && s'.os.tree[Locate(s, p).value].ino in s'.os.inodes
            && s'.os.inodes[s'.os.tree[Locate(s, p).value].ino] == []
  {
    hide Locate, LeastFree, GoodTree, GoodState, Linked, GoodSearches, AliasFor, Step;
  }

  // ----- GET_ATTR behind OPEN and CREATE -----

  lemma NewEntryGrowsTree(t: Tree, path: Path, node: Node)
    requires path != [] && path !in t && IsDir(t, Parent(path)) && IsLeaf(node)
    ensures TreeGrew(t, Grown(t, path, node), path)
  {
    var t' := Grown(t, path, node);
    GrownListing(t, path, node, Parent(path));
    forall d | d != Parent(path) && d != path
      ensures (IsDir(t', d) <==> IsDir(t, d)) && (IsDir(t, d) ==> t'[d].listing == t[d].listing)
    {
      GrownListing(t, path, node, d);
    }
    hide Grown;
  }

  lemma OpeningGrowsTree(os: OS, path: Path, exclusive: bool)
    requires Upward(os.tree) && OpenForWrite(os, path, exclusive).Opened? && path != []
    ensures TreeGrew(os.tree, OpenForWrite(os, path, exclusive).os.tree, path)
  {
    if path !in os.tree {
      NewEntryGrowsTree(os.tree, path, File(os.nextIno));
      hide TreeGrew, Grown;
    } else {
      assert IsDir(os.tree, Parent(path));
      hide Upward, Parent, Last;
    }
  }

  lemma RegisteringGrowsNames(names: MapState, path: Path)
    requires GoodState(names) && path != [] && SimpleName(Last(path))
    requires AliasFor(names.data, Last(path), Parent(path)).1.Some?
    ensures NamesGrew(names.data, SavedIfDirty(Step(names, AliasForOp(Last(path), Parent(path)))).data, path)
  {
    hide SimpleName, SameName;
    var name, dir := Last(path), Parent(path);
    AliasForVerdict(names.data, name, dir);
    var b := BucketOf(names.data, dir);
    BucketIsGood(names.data, dir);
    AliasInVerdict(b, name);
    hide GoodBucket, AliasIn, BucketOf, WellFormed;
  }

  /** What CREATE hands to the registration, when it succeeds. */
  lemma CreateParts(s: Server, p: seq<byte>)
    requires Create(s, p).1.status == STATUS_OK
    ensures Locate(s, p).Some? && Locate(s, p).value != []
    ensures var path := Locate(s, p).value;
            var opening := OpenForWrite(s.os, path, p[0] == 0);
            && opening.Opened?
            && AliasFor(s.names.data, Last(path), Parent(path)).1.Some?
            && Create(s, p).0.os == opening.os
            && Create(s, p).0.names == SavedIfDirty(Step(s.names, AliasForOp(Last(path), Parent(path))))
  {
    hide Locate, LeastFree, OpenForWrite, AliasFor, Step;
  }

  lemma CreateGrows(s: Server, p: seq<byte>)
    requires Good(s) && Create(s, p).1.status == STATUS_OK
    ensures var s' := Create(s, p).0;
            && Locate(s, p).Some?
            && Grew(s.os.tree, s'.os.tree, s.names.data, s'.names.data, Locate(s, p).value)
            && Clean(s.os.tree, s.names.data) && Clean(s'.os.tree, s'.names.data)
  {
    CreateParts(s, p);
    CreateVerdict(s, p);
    GoodIsClean(s);
    GoodIsClean(Create(s, p).0);
    GoodParts(s);
    CreateIsLong(s, p);
    LocatedIsSimple(s, p);
    GoodFilesHasTree(s.os);
    hide Good, Locate, Create, OpenForWrite, GoodState, AliasFor, Step, SavedIfDirty, Clean, GoodFiles, SimpleName,
         Upward, Parent, Last, RunsOut, Balanced, TreeGrew, NamesGrew;
    OpeningGrowsTree(s.os, Locate(s, p).value, p[0] == 0);
    RegisteringGrowsNames(s.names, Locate(s, p).value);
  }

  lemma GoodFilesHasTree(os: OS)
    requires GoodFiles(os)
    ensures Upward(os.tree)
  {
    hide Upward, Downward;
  }

  lemma GoodIsClean(s: Server)
    requires Good(s)
    ensures Clean(s.os.tree, s.names.data)
  {
    hide GoodTree, WellFormed, Linked, GoodSearches;
  }

  /** The size in a GET_ATTR reply. */
  function SizeIn(r: Reply): nat
    requires |r.data| == 9
  {
    FromU32(r.data[1..5])
  }

  /** The date and the time in it. */
  function StampsIn(r: Reply): (int, int)
    requires |r.data| == 9
  {
    (FromU16(r.data[5..7]), FromU16(r.data[7..9]))
  }

  lemma AttrFields(e: DirEntry)
    requires Packs(e)
    ensures var r := AttrBytes(e);
            && r[0] == (if e.isDir then 0x10 else 0x20)
            && FromU32(r[1..5]) == (if e.isDir then 0 else e.st.size)
            && FromU16(r[5..7]) == e.st.date && FromU16(r[7..9]) == e.st.time
  {
    hide U32, FromU32, U16, FromU16;
    var r, size := AttrBytes(e), if e.isDir then 0 else e.st.size;
    assert r[1..5] == U32(size) && r[5..7] == U16(e.st.date) && r[7..9] == U16(e.st.time);
    U32RoundTrip(size);
    U16RoundTrip(e.st.date);
    U16RoundTrip(e.st.time);
  }

  /** The date of the present fits in 16 bits. */
  predicate ClockPacks(os: OS) { StampsAt(os.zone, os.clock).0 < U16_LIMIT }

  /** What the path names was last modified at the present instant. */
  ghost predicate ModifiedNow(s: Server, p: seq<byte>)
    requires p != []
  {
    && Locate(s, p).Some? && Locate(s, p).value in s.os.tree
    && ModifiedAt(s.os, s.os.tree[Locate(s, p).value].ino) == s.os.clock
  }

  lemma OpenedForWriteNow(os: OS, path: Path, exclusive: bool)
    requires OpenForWrite(os, path, exclusive).Opened?
    ensures var os' := OpenForWrite(os, path, exclusive).os;
            && path in os'.tree && ModifiedAt(os', os'.tree[path].ino) == os.clock == os'.clock && os'.zone == os.zone
  {
  }

  /** The same path, written the same way behind the leading byte, is found again behind CREATE. */
  lemma CreatedIsFound(s: Server, p: seq<byte>, q: seq<byte>)
    requires Good(s) && Create(s, p).1.status == STATUS_OK && |q| == |p| && q[1..] == p[1..]
    ensures |q| >= 2 && Locate(s, p).Some? && Locate(Create(s, p).0, q) == Locate(s, p)
    ensures ModifiedNow(Create(s, p).0, q)
    ensures Create(s, p).0.os.clock == s.os.clock && Create(s, p).0.os.zone == s.os.zone
  {
    hide Good, Create, Grew, Clean, Resolve, OpenForWrite, AliasFor, SavedIfDirty, Step, DosPath;
    CreateGrows(s, p);
    CreateParts(s, p);
    CreateIsLong(s, p);
    var s' := Create(s, p).0;
    SameDosPath(p, q);
    ResolveIsStable(s.os.tree, s'.os.tree, s.names.data, s'.names.data, DosPath(p));
    OpenedForWriteNow(s.os, Locate(s, p).value, p[0] == 0);
  }

  lemma SameDosPath(p: seq<byte>, q: seq<byte>)
    requires p != [] && |q| == |p| && q[1..] == p[1..]
    ensures DosPath(q) == DosPath(p)
  {
  }

  /** GET_ATTR answers with the entry the path names, if that packs. */
  lemma AttrAnswer(s: Server, q: seq<byte>, path: Path)
    requires |q| >= 2 && Locate(s, q) == Some(path) && path in s.os.tree
    ensures var e := EntryAt(s.os, path);
            GetAttr(s, q).1 == if Packs(e) then Reply(STATUS_OK, AttrBytes(e)) else Reply(ERR_IO, [])
  {
    hide Locate, Packs, AttrBytes, EntryAt;
  }

  /**
   * A GET_ATTR for the same path right behind a successful CREATE succeeds exactly if the present has a DOS
   * date, and reports size 0.
   */
  lemma SizeAfterCreate(s: Server, p: seq<byte>, q: seq<byte>)
    requires Good(s) && Create(s, p).1.status == STATUS_OK && |q| == |p| && q[1..] == p[1..]
    ensures GetAttr(Create(s, p).0, q).1.status == STATUS_OK <==> ClockPacks(s.os)
    ensures var r := GetAttr(Create(s, p).0, q).1;
            r.status == STATUS_OK ==>
              |r.data| == 9 && SizeIn(r) == 0 && StampsIn(r) == StampsAt(s.os.zone, s.os.clock)
  {
    hide Good, Create, Locate, Writable, FromU32, FromU16, AttrBytes, GetAttr, StampsAt;
    CreatedIsEmpty(s, p);
    CreatedIsFound(s, p, q);
    var s' := Create(s, p).0;
    var path := Locate(s, p).value;
    AttrAnswer(s', q, path);
    var e := EntryAt(s'.os, path);
    if Packs(e) { AttrFields(e); }
  }

  lemma CreateIsLong(s: Server, p: seq<byte>)
    requires Create(s, p).1.status == STATUS_OK
    ensures |p| >= 2
  {
  }

  /**
   * Behind a successful OPEN it succeeds exactly if the entry packs, and reports the size of what the handle
   * reads.
   */
  lemma SizeAfterOpen(s: Server, p: seq<byte>, q: seq<byte>)
    requires Good(s) && Open(s, p).1.status == STATUS_OK && |q| == |p| && q[1..] == p[1..]
    ensures var s', r := Open(s, p).0, GetAttr(Open(s, p).0, q).1;
            && Locate(s, p).Some? && Locate(s, p).value in s.os.tree
            && FileData(s', Free(s.slots)).Some?
            && (r.status == STATUS_OK <==> Packs(EntryAt(s.os, Locate(s, p).value)))
            && (r.status == STATUS_OK ==> |r.data| == 9 && SizeIn(r) == |FileData(s', Free(s.slots)).value|)
  {
    hide Good, Open, Resolve, FileData, FromU32, AttrBytes, LeastFree, GetAttr, StampsAt, DosPath;
    OpenedIsReadable(s, p);
    OpenIsLong(s, p);
    OpenKeepsTimes(s, p);
    SameDosPath(p, q);
    var s', path := Open(s, p).0, Locate(s, p).value;
    AttrAnswer(s', q, path);
    var e := EntryAt(s'.os, path);
    if Packs(e) { AttrFields(e); }
  }

  lemma OpenKeepsTimes(s: Server, p: seq<byte>)
    ensures Open(s, p).0.os.mtimes == s.os.mtimes && Open(s, p).0.os.zone == s.os.zone
  {
    hide Locate, LeastFree;
  }

  lemma OpenIsLong(s: Server, p: seq<byte>)
    requires Open(s, p).1.status == STATUS_OK
    ensures |p| >= 2
  {
  }

  // ----- When opening and asking for the size succeed together -----

  /** The path names a file with a size below 4 GiB and a date up to 2107, and a slot is free. */
  ghost predicate CanOpen(s: Server, q: seq<byte>)
    requires q != []
  {
    && Locate(s, q).Some? && IsFile(s.os.tree, Locate(s, q).value)
    && Packs(EntryAt(s.os, Locate(s, q).value)) && |Occupied(s.slots)| < MAX_HANDLES
  }

  /** OPEN and the GET_ATTR behind it. */
  ghost predicate OpenAndAttr(s: Server, p: seq<byte>, q: seq<byte>) {
    Open(s, p).1.status == STATUS_OK && GetAttr(Open(s, p).0, q).1.status == STATUS_OK
  }

  lemma OpenAndAttrVerdict(s: Server, p: seq<byte>, q: seq<byte>)
    requires Good(s) && |p| >= 2 && |q| == |p| && q[1..] == p[1..]
    ensures OpenAndAttr(s, p, q) <==> p[0] == MODE_READ_ONLY && CanOpen(s, q)
  {
    hide Good, Open, Resolve, GetAttr, Packs, EntryAt, Occupied, DosPath, FileData;
    SameDosPath(p, q);
    OpenSucceeds(s, p);
    if Open(s, p).1.status == STATUS_OK { SizeAfterOpen(s, p, q); }
  }

  /**
   * The path names something in an existing directory that is no directory itself, not even there if it must
   * be new; the name can be given an alias, a slot is free, and the present has a date up to 2107.
   */
  ghost predicate CanCreate(s: Server, q: seq<byte>, exclusive: bool)
    requires q != []
  {
    && Locate(s, q).Some? && Locate(s, q).value != []
    && var path := Locate(s, q).value;
    && IsDir(s.os.tree, Parent(path)) && !IsDir(s.os.tree, path) && (exclusive ==> path !in s.os.tree)
    && AliasFor(s.names.data, Last(path), Parent(path)).1.Some?
    && |Occupied(s.slots)| < MAX_HANDLES && ClockPacks(s.os)
  }

  /** CREATE and the GET_ATTR behind it. */
  ghost predicate CreateAndAttr(s: Server, p: seq<byte>, q: seq<byte>) {
    Create(s, p).1.status == STATUS_OK && GetAttr(Create(s, p).0, q).1.status == STATUS_OK
  }

  lemma CreateAndAttrVerdict(s: Server, p: seq<byte>, q: seq<byte>)
    requires Good(s) && |p| >= 2 && p[0] <= 1 && |q| == |p| && q[1..] == p[1..]
    ensures CreateAndAttr(s, p, q) <==> CanCreate(s, q, p[0] == 0)
  {
    hide Good, Create, Resolve, GetAttr, Occupied, DosPath, AliasFor, StampsAt;
    SameDosPath(p, q);
    GoodHasTree(s);
    CreateSucceeds(s, p);
    if Create(s, p).1.status == STATUS_OK { SizeAfterCreate(s, p, q); }
  }

  lemma GoodHasTree(s: Server)
    requires Good(s)
    ensures GoodTree(s.os.tree)
  {
    hide GoodTree, GoodState, Linked, GoodSearches;
  }

  // ----- SET_TIME and GET_TIME -----

  /** What a successful SET_TIME did. */
  lemma SetTimeParts(s: Server, p: seq<byte>)
    requires SetTime(s, p).1.status == STATUS_OK
    ensures |p| >= 7 && AfterNul(p[1..]).Some? && |AfterNul(p[1..]).value| >= 4
    ensures Locate(s, p).Some? && Locate(s, p).value in s.os.tree
    ensures var stamps := AfterNul(p[1..]).value;
            && ValidStamp(FromU16(stamps[..2]), FromU16(stamps[2..4]))
            && SetTime(s, p).0
               == s.(os := Stamped(s.os, Locate(s, p).value, FromU16(stamps[..2]), FromU16(stamps[2..4])))
  {
    hide Locate, AfterNul, FromU16, Stamped, ValidStamp;
  }

  /** The local time that SET_TIME asks for, in seconds. */
  function AskedTime(p: seq<byte>): int
    requires p != [] && AfterNul(p[1..]).Some? && |AfterNul(p[1..]).value| >= 4
  {
    var stamps := AfterNul(p[1..]).value;
    Seconds(FromDos(FromU16(stamps[..2]), FromU16(stamps[2..4])))
  }

  /**
   * The stamps that SET_TIME took come back from GET_TIME for the same path exactly if they are a local time
   * that the host's time zone does not skip.
   */
  lemma TimesComeBack(s: Server, p: seq<byte>, q: seq<byte>)
    requires IsZone(s.os.zone) && SetTime(s, p).1.status == STATUS_OK
    requires |q| >= 2 && p != [] && DosPath(q) == DosPath(p)
    ensures AfterNul(p[1..]).Some? && |AfterNul(p[1..]).value| >= 4
    ensures GetTime(SetTime(s, p).0, q).1 == Reply(STATUS_OK, AfterNul(p[1..]).value[..4])
            <==> IsShown(s.os.zone, AskedTime(p))
  {
    hide SetTime, GetTime, Locate, Resolve, AfterNul, FromU16, U16, DosPath, IsZone, IsShown, Seconds, FromDos, IsLocal,
         StampsAt, StampsPack, StampBytes, Stamped, EntryAt;
    SetTimeParts(s, p);
    var path, s' := Locate(s, p).value, SetTime(s, p).0;
    var stamps := AfterNul(p[1..]).value;
    var date, time := FromU16(stamps[..2]), FromU16(stamps[2..4]);
    StampsComeBack(s.os.zone, date, time);
    StampedStat(s.os, path, date, time);
    GetTimeAfter(s, p, q, s', path);
    U16OfField(stamps[..2]);
    U16OfField(stamps[2..4]);
    assert stamps[..2] + stamps[2..4] == stamps[..4];
    StampBytesDiffer(EntryAt(s'.os, path), date, time);
  }

  lemma StampedStat(os: OS, path: Path, date: nat, time: nat)
    requires path in os.tree
    ensures var os' := Stamped(os, path, date, time);
            && os'.tree == os.tree
            && (EntryAt(os', path).st.date, EntryAt(os', path).st.time)
               == StampsAt(os.zone, os.zone.instant(Seconds(FromDos(date, time))))
  {
    hide StampsAt, Seconds, FromDos;
  }

  /** GET_TIME answers with the stamps of what the path names. */
  lemma GetTimeAfter(s: Server, p: seq<byte>, q: seq<byte>, s': Server, path: Path)
    requires p != [] && |q| >= 2 && DosPath(q) == DosPath(p) && Locate(s, p) == Some(path)
    requires s'.os.tree == s.os.tree && s'.names == s.names && path in s.os.tree
    ensures var e := EntryAt(s'.os, path);
            GetTime(s', q).1 == if StampsPack(e) then Reply(STATUS_OK, StampBytes(e)) else Reply(ERR_IO, [])
  {
    hide Resolve, DosPath, StampsPack, StampBytes, EntryAt;
  }

  lemma StampBytesDiffer(e: DirEntry, date: int, time: int)
    requires 0 <= date < U16_LIMIT && 0 <= time < U16_LIMIT
    ensures StampsPack(e) && StampBytes(e) == U16(date) + U16(time) <==> e.st.date == date && e.st.time == time
  {
    U16RoundTrip(date);
    U16RoundTrip(time);
    if StampsPack(e) && StampBytes(e) == U16(date) + U16(time) {
      U16RoundTrip(e.st.date);
      U16RoundTrip(e.st.time);
      assert U16(e.st.date) == StampBytes(e)[..2] == U16(date);
      assert U16(e.st.time) == StampBytes(e)[2..] == U16(time);
    }
    hide U16, FromU16;
  }

  // ----- What is written is read -----

  /** The path in the request names an existing file with these contents. */
  ghost predicate Stores(s: Server, p: seq<byte>, c: seq<byte>)
    requires p != []
  {
    && Locate(s, p).Some? && IsFile(s.os.tree, Locate(s, p).value)
    && s.os.tree[Locate(s, p).value].ino in s.os.inodes && s.os.inodes[s.os.tree[Locate(s, p).value].ino] == c
  }

  /** The handle writes the very file that the path in the request names. */
  ghost predicate WritesTo(s: Server, hid: byte, p: seq<byte>)
    requires p != []
  {
    && Writable(s, hid) && Locate(s, p).Some? && IsFile(s.os.tree, Locate(s, p).value)
    && s.os.tree[Locate(s, p).value].ino == s.os.fds[GetFile(s.slots, hid).value.fd].ino
  }

  lemma WritesToStores(s: Server, hid: byte, p: seq<byte>)
    requires p != [] && WritesTo(s, hid, p)
    ensures Stores(s, p, FileOf(s, hid))
  {
    hide Resolve;
  }

  /** Behind CREATE the handle writes the file that the same path now names. */
  lemma CreatedWritesTo(s: Server, p: seq<byte>, q: seq<byte>)
    requires Good(s) && Create(s, p).1.status == STATUS_OK && |q| == |p| && q[1..] == p[1..]
    ensures q != [] && WritesTo(Create(s, p).0, Free(s.slots), q)
  {
    hide Good, Create, Locate, LeastFree;
    CreatedIsEmpty(s, p);
    CreatedIsFound(s, p, q);
    CreatedFile(s, p);
  }

  /** The new descriptor is on the file at the path. */
  lemma CreatedFile(s: Server, p: seq<byte>)
    requires Good(s) && Create(s, p).1.status == STATUS_OK
    ensures var s', hid := Create(s, p).0, Free(s.slots);
            && Locate(s, p).Some? && IsFile(s'.os.tree, Locate(s, p).value)
            && GetFile(s'.slots, hid).Some? && GetFile(s'.slots, hid).value.fd in s'.os.fds
            && s'.os.fds[GetFile(s'.slots, hid).value.fd].ino == s'.os.tree[Locate(s, p).value].ino
  {
    hide Locate, LeastFree, GoodTree, GoodState, Linked, GoodSearches, AliasFor, Step;
  }

  lemma WritingWritesTo(s: Server, hid: byte, p: seq<byte>, data: seq<byte>)
    requires p != [] && WritesTo(s, hid, p)
    ensures WritesTo(Written(s, hid, data), hid, p)
  {
    hide Resolve, WriteAt;
    WrittenVerdict(s, hid, data);
  }

  /** CLOSE, with or without stamps, leaves every file as it is. */
  lemma ClosingStores(s: Server, q: seq<byte>, p: seq<byte>, c: seq<byte>)
    requires p != [] && Stores(s, p, c)
    ensures Stores(Close(s, q).0, p, c)
  {
    hide Resolve, DosPath, Clamped, ValidStamp, FromU16, Seconds, FromDos;
  }

  lemma WritingModifiesNow(s: Server, hid: byte, p: seq<byte>, data: seq<byte>)
    requires p != [] && Writable(s, hid) && ModifiedNow(s, p)
    ensures var s' := Written(s, hid, data);
            ModifiedNow(s', p) && s'.os.clock == s.os.clock && s'.os.zone == s.os.zone
  {
    hide Resolve, DosPath, WriteAt;
  }

  lemma StampsNeedNoClamp(z: Zone, u: int)
    requires StampsAt(z, u).0 < U16_LIMIT
    ensures Clamped(StampsAt(z, u).0) == StampsAt(z, u).0 && ValidStamp(StampsAt(z, u).0, StampsAt(z, u).1)
  {
    StampsAreLocal(z, u);
    hide StampsAt, DaysIn;
  }

  /** CLOSE with the stamps of the present, on a file modified just now, leaves a date that fits. */
  lemma ClosingFits(s: Server, q: seq<byte>, p: seq<byte>)
    requires p != [] && ModifiedNow(s, p) && IsZone(s.os.zone) && ClockPacks(s.os)
    requires |q| == 5 && (FromU16(q[1..3]), FromU16(q[3..5])) == StampsAt(s.os.zone, s.os.clock)
    ensures var os := Close(s, q).0.os;
            && os.tree == s.os.tree && os.zone == s.os.zone
            && StampsAt(os.zone, ModifiedAt(os, s.os.tree[Locate(s, p).value].ino)).0 < U16_LIMIT
  {
    hide Close, Resolve, DosPath, FromU16, StampsAt, IsZone, Seconds, FromDos, IsLocal, Clamped;
    var ino := s.os.tree[Locate(s, p).value].ino;
    StampsNeedNoClamp(s.os.zone, s.os.clock);
    StampsFitAgain(s.os.zone, s.os.clock);
    CloseModifies(s, q, ino);
  }

  /** What CLOSE may do to a modification time. */
  lemma CloseModifies(s: Server, q: seq<byte>, ino: nat)
    requires |q| == 5
    ensures var os := Close(s, q).0.os;
            && os.tree == s.os.tree && os.zone == s.os.zone
            && (|| ModifiedAt(os, ino) == ModifiedAt(s.os, ino)
                || ModifiedAt(os, ino)
                   == s.os.zone.instant(Seconds(FromDos(Clamped(FromU16(q[1..3])), FromU16(q[3..5])))))
  {
    hide FromU16, Seconds, FromDos, IsLocal, Clamped;
  }

  /** Behind that CLOSE the file can be opened exactly if its size fits in 32 bits. */
  lemma ClosedCanOpen(s: Server, q: seq<byte>, p: seq<byte>, c: seq<byte>)
    requires p != [] && Stores(s, p, c) && ModifiedNow(s, p) && IsZone(s.os.zone) && ClockPacks(s.os)
    requires |q| == 5 && (FromU16(q[1..3]), FromU16(q[3..5])) == StampsAt(s.os.zone, s.os.clock)
    requires Get(s.slots, q[0]).Some?
    ensures Stores(Close(s, q).0, p, c)
    ensures CanOpen(Close(s, q).0, p) <==> |c| < U32_LIMIT
  {
    hide Close, Resolve, DosPath, FromU16, StampsAt, IsZone, Occupied, ClockPacks;
    ClosingFits(s, q, p);
    ClosingStores(s, q, p, c);
    ClosedHasRoom(s, q);
    CloseKeepsNames(s, q);
  }

  lemma CloseKeepsNames(s: Server, q: seq<byte>)
    ensures Close(s, q).0.names == s.names
  {
    hide StampedOnClose;
  }

  /** OPEN of a path in mode 0 reads what the path stores. */
  lemma OpeningReads(s: Server, p: seq<byte>, q: seq<byte>, c: seq<byte>)
    requires Good(s) && |p| >= 2 && |q| == |p| && q[1..] == p[1..] && Stores(s, p, c) && q[0] == MODE_READ_ONLY
    ensures |Occupied(s.slots)| < MAX_HANDLES ==> Open(s, q).1.status == STATUS_OK
    ensures Open(s, q).1.status == STATUS_OK ==> FileData(Open(s, q).0, Free(s.slots)) == Some(c)
  {
    OpenSucceeds(s, q);
    if Open(s, q).1.status == STATUS_OK { OpenedIsReadable(s, q); }
    hide Good, Open, Resolve, FileData, LeastFree, Occupied;
  }

  /**
   * CREATE, WRITE, CLOSE, and OPEN of the same path: the new handle reads exactly what was written. The
   * slot that CLOSE frees is there for OPEN, so OPEN succeeds.
   */
  lemma WrittenIsRead(s: Server, p: seq<byte>, data: seq<byte>, q: seq<byte>, r: seq<byte>)
    requires Good(s) && Create(s, p).1.status == STATUS_OK
    requires q != [] && q[0] == Free(s.slots) && |r| == |p| && r[1..] == p[1..] && r[0] == MODE_READ_ONLY
    ensures Writable(Create(s, p).0, Free(s.slots))
    ensures var s3 := Close(Written(Create(s, p).0, Free(s.slots), data), q).0;
            && Open(s3, r).1.status == STATUS_OK
            && FileData(Open(s3, r).0, Free(s3.slots)) == Some(data)
  {
    var hid: byte := Free(s.slots);
    var s1 := Create(s, p).0;
    CreateIsLong(s, p);
    CreatedIsEmpty(s, p);
    CreatedWritesTo(s, p, r);
    CreateVerdict(s, p);
    var s2 := Written(s1, hid, data);
    WritingWritesTo(s1, hid, r, data);
    WritesToStores(s2, hid, r);
    WrittenIsGood(s1, hid, data);
    WrittenVerdict(s1, hid, data);
    assert WriteAt([], 0, data) == [] + data == data;
    ClosingStores(s2, q, r, data);
    CloseKeeps(s2, q);
    ClosedHasRoom(s2, q);
    hide Good, Create, Written, Close, Open, WritesTo, Stores, RunsOut, Balanced;
    OpeningReads(Close(s2, q).0, r, r, data);
  }

  lemma WrittenIsGood(s: Server, hid: byte, data: seq<byte>)
    requires Good(s) && Writable(s, hid)
    ensures Good(Written(s, hid, data))
  {
    WriteAnswer(s, hid, data);
    WriteKeeps(s, [hid] + data);
    hide Good, Write, Written, Writable, Balanced;
  }

  lemma ClosedHasRoom(s: Server, q: seq<byte>)
    requires q != [] && Get(s.slots, q[0]).Some?
    ensures |Occupied(Close(s, q).0.slots)| < MAX_HANDLES
  {
    var slots := Close(s, q).0.slots;
    assert slots[q[0]].None?;
    hide Close;
    SubsetIsSmaller(Occupied(slots), Below(MAX_HANDLES) - {q[0] as nat});
  }
}
