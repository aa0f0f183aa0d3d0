/** What a lossy line does with requests that are not safe to repeat: OPEN, CREATE, LIST_DIR and LIST_DIR_NEXT. */
module Repeats {
  import opened Bytes
  import opened Options
  import opened Frame
  import opened Names
  import opened NameMaps
  import opened NameMapRuns
  import opened Os
  import opened PathJail
  import opened Files
  import opened Trees
  import opened Handles
  import opened FsOps
  import opened ServerRuns
  import opened Rpc
  import opened Transfers
  import opened CreatedPaths
  import opened Opening
  import opened OpenArms
  import opened FindFiles
  import opened FileRuns
  import opened Listings

  // ----- Slots -----

  /** What was in a slot is still there. */
  ghost predicate KeepsSlots(slots: Slots, slots': Slots) {
    forall i: nat :: i < MAX_HANDLES && slots[i].Some? ==> slots'[i] == slots[i]
  }

  lemma SlotsStay(s: Server, result: (Server, Reply))
    requires TakesSlot(s, result)
    ensures KeepsSlots(s.slots, result.0.slots)
    ensures result.1.status == STATUS_OK ==>
              && Taken(result.0) == Taken(s) + 1
              && Free(s.slots) !in Occupied(s.slots)
              && Occupied(result.0.slots) == Occupied(s.slots) + {Free(s.slots)}
    ensures result.1.status != STATUS_OK ==>
              Taken(result.0) == Taken(s) && Occupied(result.0.slots) == Occupied(s.slots)
  {
    hide LeastFree, Occupied;
    if result.1.status == STATUS_OK {
      var k := Free(s.slots);
      PutOccupies(s.slots, k, GetFile(result.0.slots, k).value);
    }
  }

  /** OPEN and CREATE, executed n times: what was in a slot is still there, and at most n slots are taken. */
  lemma {:induction false} SlotsRepeat(s: Server, cmd: byte, p: seq<byte>, n: nat)
    requires cmd in {CMD_OPEN, CMD_CREATE}
    ensures KeepsSlots(s.slots, After(s, cmd, p, n).slots)
    ensures Taken(s) <= Taken(After(s, cmd, p, n)) <= AtMost(Taken(s) + n, MAX_HANDLES)
  {
    hide Open, Create, TakesSlot, Dispatch, Taken;
    TakenBound(s);
    if n > 0 {
      SlotsRepeat(s, cmd, p, n - 1);
      var before := After(s, cmd, p, n - 1);
      HandleIsTaken(before, cmd, p);
      SlotsStay(before, Dispatch(before, cmd, p));
      TakenBound(Dispatch(before, cmd, p).0);
    }
  }

  lemma TakenBound(s: Server)
    ensures Taken(s) <= MAX_HANDLES
    ensures Taken(s) < MAX_HANDLES <==> Free(s.slots) < MAX_HANDLES
  {
    OccupiedBound(s.slots);
    FullTable(s.slots);
    hide Occupied, LeastFree;
  }

  lemma HandleIsTaken(s: Server, cmd: byte, p: seq<byte>)
    requires cmd in {CMD_OPEN, CMD_CREATE}
    ensures Dispatch(s, cmd, p) == if cmd == CMD_OPEN then Open(s, p) else Create(s, p)
    ensures TakesSlot(s, Dispatch(s, cmd, p))
  {
    OpenTakesSlot(s, p);
    CreateTakesSlot(s, p);
    hide Open, Create, TakesSlot;
  }

  /** Executions after the j-th do not see what was before. */
  lemma {:induction false} AfterSplits(s: Server, cmd: byte, p: seq<byte>, j: nat, n: nat)
    requires j <= n
    ensures After(s, cmd, p, n) == After(After(s, cmd, p, j), cmd, p, n - j)
  {
    hide Dispatch;
    if j < n { AfterSplits(s, cmd, p, j, n - 1); }
  }

  // ----- OPEN -----

  ghost predicate OpensFile(s: Server, p: seq<byte>) {
    |p| >= 2 && p[0] == MODE_READ_ONLY && Locate(s, p).Some? && IsFile(s.os.tree, Locate(s, p).value)
  }

  ghost predicate SameStore(s: Server, s': Server) {
    s'.os.tree == s.os.tree && s'.os.inodes == s.os.inodes && s'.names == s.names
  }

  /** The slots that are new in s' read the file that the path named in s. */
  ghost predicate NewOnesRead(s: Server, p: seq<byte>, s': Server)
    requires OpensFile(s, p)
  {
    var ino := s.os.tree[Locate(s, p).value].ino;
    && ino in s.os.inodes
    && forall hid: byte :: hid in Occupied(s'.slots) && hid !in Occupied(s.slots) ==>
         FileData(s', hid) == Some(s.os.inodes[ino])
  }

  lemma OpenOnce(s: Server, p: seq<byte>)
    requires Good(s) && OpensFile(s, p)
    ensures var (s', r) := Open(s, p);
            && SameStore(s, s')
            && r == if Taken(s) < MAX_HANDLES then Reply(STATUS_OK, [Free(s.slots)]) else Reply(ERR_IO, [])
  {
    TakenBound(s);
    hide Good, Locate, LeastFree, Taken;
  }

  lemma HandleIsOld(s: Server, hid: byte)
    requires Good(s) && GetFile(s.slots, hid).Some?
    ensures GetFile(s.slots, hid).value.fd in s.os.fds
  {
    hide GoodTree, GoodState, GoodSearches;
    assert InStep(s.slots[hid].value, s.os);
  }

  lemma DescriptorStays(os: OS, path: Path, fd: nat)
    requires IsFile(os.tree, path) && os.nextFd !in os.fds && fd in os.fds
    ensures var os' := OpenFd(os, path, false);
            && fd in os'.fds && os'.fds[fd] == os.fds[fd]
            && fd in CloseFd(os', os.nextFd).fds && CloseFd(os', os.nextFd).fds[fd] == os.fds[fd]
  {
  }

  lemma OpensOneDescriptor(s: Server, p: seq<byte>)
    requires OpensFile(s, p)
    ensures var os' := OpenFd(s.os, Locate(s, p).value, false);
            Open(s, p).0.os == if Free(s.slots) < MAX_HANDLES then os' else CloseFd(os', s.os.nextFd)
  {
    hide Locate, LeastFree, OpenFd, CloseFd;
  }

  lemma SameFileData(s: Server, s': Server, hid: byte)
    requires s'.os.inodes == s.os.inodes && Get(s'.slots, hid) == Get(s.slots, hid)
    requires GetFile(s.slots, hid).Some? ==>
               var fd := GetFile(s.slots, hid).value.fd;
               fd in s.os.fds && fd in s'.os.fds && s'.os.fds[fd] == s.os.fds[fd]
    ensures FileData(s', hid) == FileData(s, hid)
  {
  }

  lemma OldOnesRead(s: Server, p: seq<byte>, hid: byte)
    requires Good(s) && OpensFile(s, p) && hid in Occupied(s.slots)
    ensures FileData(Open(s, p).0, hid) == FileData(s, hid)
  {
    var s' := Open(s, p).0;
    assert Get(s'.slots, hid) == Get(s.slots, hid) by {
      OpenTakesSlot(s, p);
      SlotsStay(s, Open(s, p));
      hide Open, TakesSlot, Taken, LeastFree;
    }
    assert SameStore(s, s') by { OpenOnce(s, p); hide Open, Taken; }
    if GetFile(s.slots, hid).Some? {
      var fd := GetFile(s.slots, hid).value.fd;
      HandleIsOld(s, hid);
      NewFdIsFresh(s);
      OpensOneDescriptor(s, p);
      DescriptorStays(s.os, Locate(s, p).value, fd);
    }
    hide Good, Locate, Open, LeastFree, FileData, OpenFd, CloseFd, Occupied;
    SameFileData(s, s', hid);
  }

  lemma OpenAgain(s: Server, p: seq<byte>, s0: Server)
    requires Good(s0) && Good(s) && OpensFile(s0, p) && OpensFile(s, p) && SameStore(s0, s) && NewOnesRead(s0, p, s)
    requires KeepsSlots(s0.slots, s.slots)
    ensures var s' := Open(s, p).0; SameStore(s0, s') && OpensFile(s', p) && NewOnesRead(s0, p, s')
  {
    hide Good, Resolve, Open, FileData, TakesSlot, LeastFree, KeepsSlots;
    OpenOnce(s, p);
    OpenTakesSlot(s, p);
    SlotsStay(s, Open(s, p));
    var s' := Open(s, p).0;
    if Open(s, p).1.status == STATUS_OK { OpenedIsReadable(s, p); }
    forall hid: byte | hid in Occupied(s'.slots) && hid !in Occupied(s0.slots)
      ensures FileData(s', hid) == Some(s0.os.inodes[s0.os.tree[Locate(s0, p).value].ino])
    {
      if hid in Occupied(s.slots) { OldOnesRead(s, p, hid); }
    }
  }

  /**
   * OPEN of a file executed n times: n slots are taken as long as there are any, each for a handle of its own that
   * reads the file, and nothing else changes.
   */
  lemma {:induction false} OpensRepeat(s: Server, p: seq<byte>, n: nat)
    requires Good(s) && OpensFile(s, p)
    ensures var s' := After(s, CMD_OPEN, p, n);
            && Good(s') && SameStore(s, s') && OpensFile(s', p) && KeepsSlots(s.slots, s'.slots)
            && Taken(s') == AtMost(Taken(s) + n, MAX_HANDLES) && NewOnesRead(s, p, s')
  {
    hide Good, Resolve, Open, FileData, TakesSlot, LeastFree, Taken, Dispatch, SameStore, OpensFile, NewOnesRead;
    TakenBound(s);
    if n == 0 {
      NothingNew(s, p);
    } else {
      OpensRepeat(s, p, n - 1);
      var before := After(s, CMD_OPEN, p, n - 1);
      HandleIsTaken(before, CMD_OPEN, p);
      DispatchVerdict(before, CMD_OPEN, p);
      SlotsStay(before, Open(before, p));
      TakenBound(before);
      OpenOnce(before, p);
      OpenAgain(before, p, s);
    }
  }

  lemma NothingNew(s: Server, p: seq<byte>)
    requires Good(s) && OpensFile(s, p)
    ensures NewOnesRead(s, p, s) && SameStore(s, s)
  {
    hide Locate, FileData, GoodTree, GoodState, Linked, GoodSearches;
  }

  /** The j-th of these executions succeeds exactly while there is a slot left. */
  lemma OpenResults(s: Server, p: seq<byte>, j: nat)
    requires Good(s) && OpensFile(s, p) && j >= 1
    ensures ResultOf(s, CMD_OPEN, p, j)
            == if Taken(s) + j <= MAX_HANDLES then Reply(STATUS_OK, [Free(After(s, CMD_OPEN, p, j - 1).slots)])
               else Reply(ERR_IO, [])
  {
    hide Good, Resolve, Open, TakesSlot, LeastFree, Taken, Dispatch, SameStore, OpensFile, NewOnesRead, KeepsSlots;
    var before := After(s, CMD_OPEN, p, j - 1);
    OpensRepeat(s, p, j - 1);
    HandleIsTaken(before, CMD_OPEN, p);
    OpenOnce(before, p);
    TakenBound(s);
    TakenBound(before);
  }

  /** OPEN of anything else fails every time and changes nothing. */
  lemma {:induction false} RefusedOpensRepeat(s: Server, p: seq<byte>, n: nat)
    requires !OpensFile(s, p)
    ensures After(s, CMD_OPEN, p, n) == s && ResultOf(s, CMD_OPEN, p, n + 1).status != STATUS_OK
  {
    hide Dispatch, Locate;
    HandleIsTaken(s, CMD_OPEN, p);
    if n > 0 { RefusedOpensRepeat(s, p, n - 1); }
  }

  /**
   * On any line, the handle that a reply to OPEN brings is in a slot that was free and reads the file the path
   * names. As many slots are taken as there were executions, as long as there were any left; the client knows one.
   */
  lemma OpenedOnAnyLine(s: Server, p: seq<byte>, s': Server, hid: byte)
    requires Good(s) && AnsweredBy(s, CMD_OPEN, p, s', Reply(STATUS_OK, [hid]))
    ensures OpensFile(s, p) && Good(s') && SameStore(s, s') && KeepsSlots(s.slots, s'.slots) && NewOnesRead(s, p, s')
    ensures hid !in Occupied(s.slots) && hid in Occupied(s'.slots)
    ensures exists n: nat ::
              1 <= n <= RETRIES && s' == After(s, CMD_OPEN, p, n) && Taken(s') == AtMost(Taken(s) + n, MAX_HANDLES)
  {
    hide Good, After, ResultOf, Taken, SameStore, OpensFile, NewOnesRead;
    var n: nat, j: nat :|
      1 <= j <= n <= RETRIES && s' == After(s, CMD_OPEN, p, n)
      && Reply(STATUS_OK, [hid]) == ResultOf(s, CMD_OPEN, p, j);
    if !OpensFile(s, p) { RefusedOpensRepeat(s, p, j - 1); }
    OpensRepeat(s, p, n);
    HandleStays(s, CMD_OPEN, p, j, n, hid);
  }

  /** A handle that one of the executions returned is in a slot that was free, and stays there. */
  lemma HandleStays(s: Server, cmd: byte, p: seq<byte>, j: nat, n: nat, hid: byte)
    requires cmd in {CMD_OPEN, CMD_CREATE} && 1 <= j <= n
    requires ResultOf(s, cmd, p, j) == Reply(STATUS_OK, [hid])
    ensures hid !in Occupied(s.slots) && hid in Occupied(After(s, cmd, p, n).slots)
    ensures After(s, cmd, p, j).slots[hid] == After(s, cmd, p, n).slots[hid]
    ensures GetFile(After(s, cmd, p, j).slots, hid).Some?
  {
    hide Open, Create, Dispatch, Taken, LeastFree;
    var before := After(s, cmd, p, j - 1);
    SlotsRepeat(s, cmd, p, j - 1);
    HandleIsTaken(before, cmd, p);
    AfterSplits(s, cmd, p, j, n);
    SlotsRepeat(After(s, cmd, p, j), cmd, p, n - j);
  }

  // ----- CREATE -----

  /** CREATE in mode 1 finds everything it needs but for a free slot. */
  ghost predicate CreatesFile(s: Server, p: seq<byte>) {
    && |p| >= 2 && p[0] == 1 && Locate(s, p).Some? && Locate(s, p).value != []
    && var path := Locate(s, p).value;
    && IsDir(s.os.tree, Parent(path)) && !IsDir(s.os.tree, path)
    && AliasFor(s.names.data, Last(path), Parent(path)).1.Some?
  }

  lemma AliasForAgain(data: NameData, name: string, dir: NameMaps.Path)
    requires AliasFor(data, name, dir).1.Some?
    ensures AliasFor(AliasFor(data, name, dir).0, name, dir).1.Some?
  {
    hide Candidate, FirstFree;
    var b := BucketOf(data, dir);
    var b' := AliasIn(b, name).0;
    if !Knows(b, name) { assert Denotes(b', Candidate(name, FirstFree(b, name, 0)), name); }
    assert BucketOf(AliasFor(data, name, dir).0, dir) == b';
  }

  lemma CreateAgain(s: Server, p: seq<byte>)
    requires Good(s) && CreatesFile(s, p)
    ensures Create(s, p).1.status == STATUS_OK <==> Taken(s) < MAX_HANDLES
    ensures Taken(s) < MAX_HANDLES ==> CreatesFile(Create(s, p).0, p)
  {
    hide Good, Create, Locate, AliasFor, OpenForWrite, TreeGrew, NamesGrew, Clean, Occupied, Writable, FileOf, PosOf,
         GoodTree;
    GoodHasTree(s);
    CreateSucceeds(s, p);
    if Taken(s) < MAX_HANDLES {
      var path := Locate(s, p).value;
      CreatedIsFound(s, p, p);
      CreatedIsEmpty(s, p);
      CreateParts(s, p);
      AliasForAgain(s.names.data, Last(path), Parent(path));
      CreateVerdict(s, p);
      GoodHasTree(Create(s, p).0);
      ParentIsDir(Create(s, p).0.os.tree, path);
    }
  }

  lemma ParentIsDir(t: Tree, path: NameMaps.Path)
    requires GoodTree(t) && path != [] && path in t
    ensures IsDir(t, Parent(path))
  {
    hide Once, Downward;
  }

  /** CREATE in mode 1 executed n times takes n slots as long as there are any. */
  lemma {:induction false} CreatesRepeat(s: Server, p: seq<byte>, n: nat)
    requires Good(s) && CreatesFile(s, p)
    ensures var s' := After(s, CMD_CREATE, p, n);
            && Good(s') && KeepsSlots(s.slots, s'.slots)
            && Taken(s') == AtMost(Taken(s) + n, MAX_HANDLES)
            && (Taken(s') < MAX_HANDLES ==> CreatesFile(s', p))
  {
    hide Good, Create, TakesSlot, LeastFree, Taken, Dispatch, CreatesFile;
    TakenBound(s);
    if n > 0 {
      CreatesRepeat(s, p, n - 1);
      var before := After(s, CMD_CREATE, p, n - 1);
      HandleIsTaken(before, CMD_CREATE, p);
      DispatchVerdict(before, CMD_CREATE, p);
      SlotsStay(before, Create(before, p));
      if Taken(before) < MAX_HANDLES { CreateAgain(before, p); } else { NoRoomToCreate(before, p); }
    }
  }

  lemma NoRoomToCreate(s: Server, p: seq<byte>)
    requires Good(s) && Taken(s) == MAX_HANDLES
    ensures Create(s, p).1.status != STATUS_OK
  {
    GoodHasTree(s);
    FullTableFails(s, p);
    hide *;
  }

  /**
   * On any line, the handle that a reply to CREATE brings is in a slot that was free and writes an empty file from
   * its start. Where the path could be created to begin with, as many slots are taken as there were executions, as
   * long as there were any left; the client knows one.
   */
  lemma CreatedOnAnyLine(s: Server, p: seq<byte>, s': Server, hid: byte)
    requires Good(s) && AnsweredBy(s, CMD_CREATE, p, s', Reply(STATUS_OK, [hid]))
    ensures Good(s') && KeepsSlots(s.slots, s'.slots)
    ensures hid !in Occupied(s.slots) && hid in Occupied(s'.slots) && WritesEmpty(s', hid)
    ensures exists n: nat ::
              && 1 <= n <= RETRIES && s' == After(s, CMD_CREATE, p, n)
              && Taken(s) < Taken(s') <= AtMost(Taken(s) + n, MAX_HANDLES)
              && (CreatesFile(s, p) ==> Taken(s') == AtMost(Taken(s) + n, MAX_HANDLES))
  {
    hide Good, After, ResultOf, Taken, CreatesFile, WritesEmpty;
    var n: nat, j: nat :|
      1 <= j <= n <= RETRIES && s' == After(s, CMD_CREATE, p, n)
      && Reply(STATUS_OK, [hid]) == ResultOf(s, CMD_CREATE, p, j);
    if CreatesFile(s, p) { CreatesRepeat(s, p, n); }
    RunsAreGood(s, CMD_CREATE, p, n);
    SlotsRepeat(s, CMD_CREATE, p, n);
    HandleStays(s, CMD_CREATE, p, j, n, hid);
    CreatedStaysEmpty(s, p, j, n, hid);
    OneMore(s, s', hid);
  }

  /** A handle that writes an empty file from its start. */
  ghost predicate WritesEmpty(s: Server, hid: byte) {
    Writable(s, hid) && FileOf(s, hid) == [] && PosOf(s, hid) == 0 && GetFile(s.slots, hid).value.offset == 0
  }

  lemma CreateFds(s: Server, p: seq<byte>, fd: nat)
    requires fd in s.os.fds && s.os.nextFd !in s.os.fds
    ensures var fds := Create(s, p).0.os.fds; fd in fds && fds[fd] == s.os.fds[fd]
  {
    hide Locate, OpenForWrite, AliasFor, Step, LeastFree, SavedIfDirty;
  }

  lemma EmptyStays(s: Server, p: seq<byte>, ino: nat)
    requires Good(s) && ino in s.os.inodes && s.os.inodes[ino] == []
    ensures var inodes := Create(s, p).0.os.inodes; ino in inodes && inodes[ino] == []
  {
    hide Good, Create, Locate;
    if Touches(s, CMD_CREATE, p, ino) { CreateEmpties(s, p, ino); } else { CreateContents(s, p, ino); }
  }

  /** Another CREATE, of whatever path, leaves it so. */
  lemma StillWritesEmpty(s: Server, p: seq<byte>, hid: byte)
    requires Good(s) && WritesEmpty(s, hid)
    ensures WritesEmpty(Create(s, p).0, hid)
  {
    hide Good, Create, LeastFree, Taken, Occupied, TakesSlot;
    var fd := GetFile(s.slots, hid).value.fd;
    CreateTakesSlot(s, p);
    SlotsStay(s, Create(s, p));
    NewFdIsFresh(s);
    CreateFds(s, p, fd);
    EmptyStays(s, p, s.os.fds[fd].ino);
  }

  lemma {:induction false} CreatesKeepEmpty(s: Server, p: seq<byte>, hid: byte, n: nat)
    requires Good(s) && WritesEmpty(s, hid)
    ensures WritesEmpty(After(s, CMD_CREATE, p, n), hid)
  {
    hide Good, Create, Dispatch, WritesEmpty;
    if n > 0 {
      var before := After(s, CMD_CREATE, p, n - 1);
      CreatesKeepEmpty(s, p, hid, n - 1);
      RunsAreGood(s, CMD_CREATE, p, n - 1);
      HandleIsTaken(before, CMD_CREATE, p);
      StillWritesEmpty(before, p, hid);
    }
  }

  /** The handle that the j-th of n executions returned writes an empty file. */
  lemma CreatedStaysEmpty(s: Server, p: seq<byte>, j: nat, n: nat, hid: byte)
    requires Good(s) && 1 <= j <= n && ResultOf(s, CMD_CREATE, p, j) == Reply(STATUS_OK, [hid])
    ensures WritesEmpty(After(s, CMD_CREATE, p, n), hid)
  {
    hide Good, Create, Dispatch, Locate, Writable, FileOf, PosOf, LeastFree;
    var before := After(s, CMD_CREATE, p, j - 1);
    RunsAreGood(s, CMD_CREATE, p, j - 1);
    RunsAreGood(s, CMD_CREATE, p, j);
    HandleIsTaken(before, CMD_CREATE, p);
    CreatedIsEmpty(before, p);
    AfterSplits(s, CMD_CREATE, p, j, n);
    CreatesKeepEmpty(After(s, CMD_CREATE, p, j), p, hid, n - j);
  }

  lemma {:induction false} RunsAreGood(s: Server, cmd: byte, p: seq<byte>, n: nat)
    requires Good(s)
    ensures Good(After(s, cmd, p, n))
  {
    hide Good, Dispatch;
    if n > 0 {
      RunsAreGood(s, cmd, p, n - 1);
      DispatchVerdict(After(s, cmd, p, n - 1), cmd, p);
    }
  }

  lemma OneMore(s: Server, s': Server, hid: byte)
    requires KeepsSlots(s.slots, s'.slots) && hid !in Occupied(s.slots) && hid in Occupied(s'.slots)
    ensures Taken(s) < Taken(s')
  {
    SubsetIsSmaller(Occupied(s.slots) + {hid as nat}, Occupied(s'.slots));
  }

  /** CREATE in mode 0 creates once: every later execution finds the file there and changes nothing. */
  lemma {:induction false} CreateNewRepeats(s: Server, p: seq<byte>, n: nat)
    requires Good(s) && p != [] && p[0] == 0 && Create(s, p).1.status == STATUS_OK && n >= 1
    ensures After(s, CMD_CREATE, p, n) == Create(s, p).0
    ensures ResultOf(s, CMD_CREATE, p, n + 1) == Reply(ERR_EXISTS, [])
  {
    hide Good, Dispatch, Create;
    var s' := Create(s, p).0;
    HandleIsTaken(s, CMD_CREATE, p);
    HandleIsTaken(s', CMD_CREATE, p);
    CreatedExists(s, p);
    assert After(s, CMD_CREATE, p, 0) == s;
    if n > 1 { CreateNewRepeats(s, p, n - 1); }
  }

  lemma CreatedExists(s: Server, p: seq<byte>)
    requires Good(s) && p != [] && p[0] == 0 && Create(s, p).1.status == STATUS_OK
    ensures Create(Create(s, p).0, p) == (Create(s, p).0, Reply(ERR_EXISTS, []))
  {
    var s' := Create(s, p).0;
    assert |p| >= 2 && Locate(s', p).Some? && Locate(s', p).value != [] && IsFile(s'.os.tree, Locate(s', p).value)
           && Parent(Locate(s', p).value) in s'.os.tree by {
      CreatedIsFound(s, p, p);
      CreatedIsEmpty(s, p);
      CreateVerdict(s, p);
      GoodHasTree(s');
      CreateParts(s, p);
      hide Good, Create, Locate, AliasFor, OpenForWrite, Writable, FileOf, PosOf, GoodTree;
      ParentIsDir(s'.os.tree, Locate(s', p).value);
    }
    hide Good, Locate, AliasFor, Step, LeastFree;
  }

  // ----- Arms that fail -----

  lemma {:induction false} ClosesRepeat(s: Server, hid: byte, n: nat)
    requires GetFile(s.slots, hid).Some?
    ensures After(s, CMD_CLOSE, [hid], n).slots == if n == 0 then s.slots else Put(s.slots, hid, None)
  {
    hide Dispatch;
    assert After(s, CMD_CLOSE, [hid], 0) == s;
    if n > 0 {
      ClosesRepeat(s, hid, n - 1);
      CloseReleases(After(s, CMD_CLOSE, [hid], n - 1), hid);
    }
  }

  lemma CloseReleases(s: Server, hid: byte)
    requires hid < MAX_HANDLES
    ensures Dispatch(s, CMD_CLOSE, [hid]).0.slots == Put(s.slots, hid, None)
  {
    hide StampedOnClose;
  }

  /**
   * An open arm that fails on a lossy line may leave slots taken that no SFT records, up to ten of them; it never
   * gives back or changes one that was taken before.
   */
  lemma AbandonedArmsVerdict(s: Server, cmd: byte, p: seq<byte>, s': Server)
    requires cmd in {CMD_OPEN, CMD_CREATE} && Abandoned(s, cmd, p, s')
    ensures KeepsSlots(s.slots, s'.slots) && Taken(s) <= Taken(s') <= AtMost(Taken(s) + RETRIES, MAX_HANDLES)
  {
    hide After, ResultOf, Taken;
    if Repeated(s, cmd, p, s') {
      var n: nat :| n <= RETRIES && s' == After(s, cmd, p, n);
      SlotsRepeat(s, cmd, p, n);
    } else {
      var now, hid: byte :|
        AnsweredBy(s, cmd, p, now, Reply(STATUS_OK, [hid])) && Repeated(now, CMD_CLOSE, [hid], s');
      var n: nat, j: nat :|
        1 <= j <= n <= RETRIES && now == After(s, cmd, p, n) && Reply(STATUS_OK, [hid]) == ResultOf(s, cmd, p, j);
      var m: nat :| m <= RETRIES && s' == After(now, CMD_CLOSE, [hid], m);
      SlotsRepeat(s, cmd, p, n);
      HandleStays(s, cmd, p, j, n, hid);
      ClosesRepeat(now, hid, m);
      OneLess(s, now, s', hid);
    }
  }

  lemma OneLess(s: Server, now: Server, s': Server, hid: byte)
    requires KeepsSlots(s.slots, now.slots) && hid !in Occupied(s.slots) && hid in Occupied(now.slots)
    requires s'.slots == now.slots || s'.slots == Put(now.slots, hid, None)
    ensures KeepsSlots(s.slots, s'.slots) && Taken(s) <= Taken(s') <= Taken(now)
  {
    SubsetIsSmaller(Occupied(s.slots), Occupied(s'.slots));
    SubsetIsSmaller(Occupied(s'.slots), Occupied(now.slots));
  }

  // ----- LIST_DIR and LIST_DIR_NEXT -----

  /** LIST_DIR executed n times takes n slots as long as there are any, each for a snapshot of its own. */
  lemma {:induction false} ListingsRepeat(s: Server, p: seq<byte>, n: nat)
    requires Good(s) && Lists(s, p)
    ensures var s' := After(s, CMD_LIST_DIR, p, n);
            && Good(s') && Taken(s') == AtMost(Taken(s) + n, MAX_HANDLES)
            && (Taken(s') < MAX_HANDLES ==> Lists(s', p) && SnapshotOf(s', p) == SnapshotOf(s, p))
  {
    hide Good, Dispatch, Lists, SnapshotOf, Taken, Begun, ListDirBegin;
    RoomToList(s, p);
    if n > 0 {
      ListingsRepeat(s, p, n - 1);
      var before := After(s, CMD_LIST_DIR, p, n - 1);
      DispatchVerdict(before, CMD_LIST_DIR, p);
      BeginIsDispatched(before, p);
      ListDirBegins(before, p);
      AgainWhileRoom(before, p, ListDirBegin(before, p).0);
    }
  }

  /** Where the cursor is after n more batches. */
  function Advanced(cursor: nat, n: nat, total: nat): (end: nat)
    requires cursor <= total
    ensures cursor <= end <= total
  {
    AtMost(cursor + MAX_ENTRIES_PER_FRAME * n, total)
  }

  /**
   * LIST_DIR_NEXT executed n times, with entries left every time and batches that pack, sends batch after batch
   * and moves the cursor n batches on: a client that hears one of the results never sees the other n - 1.
   */
  lemma {:induction false} BatchesRepeat(s: Server, hid: byte, entries: seq<DirEntry>, cursor: nat, n: nat)
    requires Enumerating(s.slots, hid, entries, cursor) && cursor <= |entries|
    requires n >= 1 ==> cursor + MAX_ENTRIES_PER_FRAME * (n - 1) < |entries|
    requires AllPack(entries, cursor, Advanced(cursor, n, |entries|))
    ensures var s' := After(s, CMD_LIST_DIR_NEXT, [hid], n);
            && Enumerating(s'.slots, hid, entries, Advanced(cursor, n, |entries|))
            && s'.os == s.os && s'.names == s.names && Occupied(s'.slots) == Occupied(s.slots)
    ensures n >= 1 ==>
              var from := cursor + MAX_ENTRIES_PER_FRAME * (n - 1);
              ResultOf(s, CMD_LIST_DIR_NEXT, [hid], n)
              == Reply(STATUS_OK, BatchBytes(entries, from, BatchEnd(from, |entries|)))
  {
    hide Dispatch, Packs, BatchBytes, ListDirNext, Occupied, Enumerating;
    if n > 0 {
      var from := cursor + MAX_ENTRIES_PER_FRAME * (n - 1);
      BatchesRepeat(s, hid, entries, cursor, n - 1);
      var before := After(s, CMD_LIST_DIR_NEXT, [hid], n - 1);
      assert Advanced(cursor, n - 1, |entries|) == from;
      NextIsDispatched(before, [hid]);
      ListDirNextVerdict(before, hid, entries, from);
      ListDirNextOccupies(before, hid, entries, from);
      ListDirGround(before, [], hid);
    }
  }

  /** A batch that does not pack is tried again every time. */
  lemma {:induction false} StuckRepeats(s: Server, hid: byte, entries: seq<DirEntry>, cursor: nat, n: nat)
    requires Enumerating(s.slots, hid, entries, cursor) && cursor < |entries|
    requires !AllPack(entries, cursor, BatchEnd(cursor, |entries|))
    ensures After(s, CMD_LIST_DIR_NEXT, [hid], n) == s
    ensures ResultOf(s, CMD_LIST_DIR_NEXT, [hid], n + 1).status == ERR_IO
  {
    hide Dispatch, AllPack, Enumerating, ListDirNext;
    NextIsDispatched(s, [hid]);
    ListDirNextVerdict(s, hid, entries, cursor);
    if n > 0 { StuckRepeats(s, hid, entries, cursor, n - 1); }
  }

  /** The execution that finds nothing left says so and frees the slot; later ones find no such handle. */
  lemma {:induction false} EndRepeats(s: Server, hid: byte, entries: seq<DirEntry>, n: nat)
    requires Enumerating(s.slots, hid, entries, |entries|) && n >= 1
    ensures After(s, CMD_LIST_DIR_NEXT, [hid], n) == s.(slots := Put(s.slots, hid, None))
    ensures ResultOf(s, CMD_LIST_DIR_NEXT, [hid], n)
            == if n == 1 then Reply(STATUS_OK, []) else Reply(ERR_BAD_HANDLE, [])
  {
    hide Dispatch;
    NextIsDispatched(s, [hid]);
    assert After(s, CMD_LIST_DIR_NEXT, [hid], 0) == s;
    if n > 1 {
      EndRepeats(s, hid, entries, n - 1);
      NextIsDispatched(After(s, CMD_LIST_DIR_NEXT, [hid], n - 1), [hid]);
    }
  }
}
