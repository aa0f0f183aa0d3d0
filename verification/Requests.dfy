/** When the requests on paths succeed, what they answer when they do not, and what a failure leaves behind. */
module Requests {
  import opened Bytes
  import opened Options
  import opened Clock
  import opened Frame
  import opened Names
  import opened NameMaps
  import opened NameMapRuns
  import opened Os
  import opened PathJail
  import opened Files
  import opened Trees
  import opened Handles
  import opened FsOps
  import opened ServerRuns
  import opened CreatedPaths
  import opened Opening
  import opened Effects
  import opened Transfers
  import opened Texts

  lemma NotTheRoot(t: Tree, path: Path)
    requires GoodTree(t) && path in t && path != []
    ensures IsDir(t, Parent(path))
  {
    hide Downward, Once;
  }

  lemma RootIsDir(t: Tree)
    requires GoodTree(t)
    ensures [] in t && IsDir(t, [])
  {
    hide Upward, Downward, Once;
  }

  // ----- When they succeed -----

  /** DELETE succeeds exactly on a file; a failure says why and changes nothing. */
  lemma DeleteSucceeds(s: Server, p: seq<byte>)
    requires GoodTree(s.os.tree)
    ensures var (s', r) := Delete(s, p);
            && (r.status == STATUS_OK <==> |p| >= 2 && NamesFile(s, p))
            && (r.status == ERR_ACCESS <==> |p| >= 2 && NamesDir(s, p))
            && (r.status == ERR_NOT_FOUND <==> |p| >= 2 && NamesNothing(s, p))
            && (r.status == ERR_BAD_PATH <==> |p| >= 2 && Locate(s, p).None?)
            && (r.status == ERR_PROTOCOL <==> |p| < 2)
            && (r.status != STATUS_OK ==> s' == s)
  {
    hide GoodTree, Locate, RemoveEntry, Step;
    RootIsDir(s.os.tree);
    if |p| >= 2 && NamesFile(s, p) { NotTheRoot(s.os.tree, Locate(s, p).value); }
  }

  /** RMDIR succeeds exactly on a directory that lists nothing, the root apart; a failure changes nothing. */
  lemma RemoveDirSucceeds(s: Server, p: seq<byte>)
    requires GoodTree(s.os.tree)
    ensures var (s', r) := RemoveDir(s, p);
            && (r.status == STATUS_OK <==>
                  && |p| >= 2 && NamesDir(s, p)
                  && Locate(s, p).value != [] && s.os.tree[Locate(s, p).value].listing == [])
            && (r.status == ERR_NOT_FOUND <==> |p| >= 2 && NamesNothing(s, p))
            && (r.status == ERR_BAD_PATH <==> |p| >= 2 && Locate(s, p).None?)
            && (r.status == ERR_PROTOCOL <==> |p| < 2)
            && r.status in {STATUS_OK, ERR_NOT_FOUND, ERR_BAD_PATH, ERR_PROTOCOL, ERR_ACCESS}
            && (r.status != STATUS_OK ==> s' == s)
  {
    hide GoodTree, Locate, RemoveEntry, Step;
    RootIsDir(s.os.tree);
    if |p| >= 2 && NamesDir(s, p) && Locate(s, p).value != [] { NotTheRoot(s.os.tree, Locate(s, p).value); }
  }

  /** There is an alias for the name of a new entry. */
  ghost predicate HasAlias(data: NameData, path: Path)
    requires path != []
  {
    AliasFor(data, Last(path), Parent(path)).1.Some?
  }

  /**
   * MKDIR succeeds exactly for a new name in an existing directory that can be given an alias. Where only the alias
   * is missing it fails and has made the directory; any other failure changes nothing.
   */
  lemma MakeDirectorySucceeds(s: Server, p: seq<byte>)
    requires GoodTree(s.os.tree)
    ensures var (s', r) := MakeDirectory(s, p);
            var fits := |p| >= 2 && NamesNothing(s, p) && IsDir(s.os.tree, Parent(Locate(s, p).value));
            && (r.status == STATUS_OK <==> fits && HasAlias(s.names.data, Locate(s, p).value))
            && (r.status == ERR_EXISTS <==> |p| >= 2 && (NamesFile(s, p) || NamesDir(s, p)))
            && (r.status == ERR_NOT_FOUND <==>
                  |p| >= 2 && NamesNothing(s, p) && Parent(Locate(s, p).value) !in s.os.tree)
            && (r.status == ERR_BAD_PATH <==> |p| >= 2 && Locate(s, p).None?)
            && (r.status == ERR_PROTOCOL <==> |p| < 2)
            && (r.status != STATUS_OK && s'.os != s.os ==> fits && !HasAlias(s.names.data, Locate(s, p).value))
            && (fits ==> s'.os == MakeDir(s.os, Locate(s, p).value))
  {
    hide GoodTree, Locate, MakeDir, Step, AliasFor;
    RootIsDir(s.os.tree);
  }

  /** Both texts of a RENAME are there. */
  predicate TwoTexts(p: seq<byte>) {
    AfterNul(p).Some? && UntilNul(p) != [] && UntilNul(AfterNul(p).value) != []
  }

  /** Both paths pass the gate. */
  predicate BothFound(s: Server, p: seq<byte>) {
    TwoTexts(p) && SourceOf(s, p).Some? && TargetOf(s, p).Some?
  }

  /** The move itself can be made: the source is there and not the root, the target is free and not inside it. */
  ghost predicate Movable(s: Server, p: seq<byte>)
    requires BothFound(s, p)
  {
    var source, target := SourceOf(s, p).value, TargetOf(s, p).value;
    && source in s.os.tree && source != [] && target !in s.os.tree && target != []
    && IsDir(s.os.tree, Parent(target)) && !(source <= target)
  }

  /** The target can be given an alias once the source's is forgotten. */
  ghost predicate TargetHasAlias(s: Server, p: seq<byte>)
    requires BothFound(s, p) && Movable(s, p)
  {
    var source, target := SourceOf(s, p).value, TargetOf(s, p).value;
    HasAlias(RemoveAlias(s.names.data, Last(source), Parent(source)), target)
  }

  lemma MovableCanMove(s: Server, p: seq<byte>)
    requires GoodTree(s.os.tree) && BothFound(s, p)
    ensures Movable(s, p) <==> CanMove(s.os.tree, SourceOf(s, p).value, TargetOf(s, p).value)
  {
    hide GoodTree, SourceOf, TargetOf;
    var source := SourceOf(s, p).value;
    if source in s.os.tree && source != [] { NotTheRoot(s.os.tree, source); }
  }

  /**
   * RENAME succeeds exactly if both paths are given and resolve, the source is there and not the root, the target
   * is not, lies in an existing directory and not below the source, and can be given an alias. Where only the alias
   * is missing it fails and has moved the entry; any other failure changes nothing.
   */
  lemma RenameSucceeds(s: Server, p: seq<byte>)
    requires GoodTree(s.os.tree)
    ensures var (s', r) := Rename(s, p);
            && (r.status == STATUS_OK <==> BothFound(s, p) && Movable(s, p) && TargetHasAlias(s, p))
            && (r.status == ERR_PROTOCOL <==> !TwoTexts(p))
            && (r.status == ERR_BAD_PATH <==> TwoTexts(p) && !BothFound(s, p))
            && (r.status == ERR_EXISTS <==>
                  BothFound(s, p) && SourceOf(s, p).value in s.os.tree && TargetOf(s, p).value in s.os.tree)
            && (r.status == ERR_NOT_FOUND <==>
                  BothFound(s, p)
                  && (SourceOf(s, p).value !in s.os.tree
                      || (TargetOf(s, p).value !in s.os.tree && TargetOf(s, p).value != []
                          && Parent(TargetOf(s, p).value) !in s.os.tree)))
            && (r.status != STATUS_OK && s'.os != s.os ==> BothFound(s, p) && Movable(s, p) && !TargetHasAlias(s, p))
            && (BothFound(s, p) && Movable(s, p) ==>
                  s'.os == MoveEntry(s.os, SourceOf(s, p).value, TargetOf(s, p).value))
  {
    hide GoodTree, Resolve, DecodeAscii, UntilNul, AfterNul, MoveEntry, AliasFor, RemoveAlias;
    RootIsDir(s.os.tree);
    if BothFound(s, p) {
      MovableCanMove(s, p);
    }
  }

  // ----- What a failure leaves in the tree -----

  /** CREATE gets as far as adding a new file, and then finds no alias or no slot. */
  ghost predicate CreatedInVain(s: Server, p: seq<byte>) {
    && |p| >= 2 && p[0] <= 1 && NamesNothing(s, p) && Locate(s, p).value != []
    && IsDir(s.os.tree, Parent(Locate(s, p).value))
    && (!HasAlias(s.names.data, Locate(s, p).value) || |Occupied(s.slots)| == MAX_HANDLES)
  }

  ghost predicate MadeInVain(s: Server, p: seq<byte>) {
    && |p| >= 2 && NamesNothing(s, p) && Locate(s, p).value != []
    && IsDir(s.os.tree, Parent(Locate(s, p).value)) && !HasAlias(s.names.data, Locate(s, p).value)
  }

  ghost predicate MovedInVain(s: Server, p: seq<byte>) {
    BothFound(s, p) && Movable(s, p) && !TargetHasAlias(s, p)
  }

  lemma FailedCreateTree(s: Server, p: seq<byte>)
    requires GoodTree(s.os.tree) && Create(s, p).1.status != STATUS_OK
    ensures Create(s, p).0.os.tree != s.os.tree <==> CreatedInVain(s, p)
  {
    hide GoodTree, Locate, AliasFor, Step, LeastFree, Occupied, SavedIfDirty, Grown;
    RootIsDir(s.os.tree);
    FullTable(s.slots);
    OccupiedBound(s.slots);
    if |p| >= 2 && p[0] <= 1 && NamesNothing(s, p) && Locate(s, p).value != []
       && IsDir(s.os.tree, Parent(Locate(s, p).value)) {
      GrownHasIt(s.os, Locate(s, p).value);
    }
  }

  lemma GrownHasIt(os: OS, path: Path)
    requires path != [] && path !in os.tree && IsDir(os.tree, Parent(path))
    ensures path in NewFile(os, path).tree && path in MakeDir(os, path).tree
  {
  }

  lemma FailedMakeDirectoryTree(s: Server, p: seq<byte>)
    requires GoodTree(s.os.tree) && MakeDirectory(s, p).1.status != STATUS_OK
    ensures MakeDirectory(s, p).0.os.tree != s.os.tree <==> MadeInVain(s, p)
  {
    hide GoodTree, Locate, AliasFor, MakeDirectory, MakeDir;
    RootIsDir(s.os.tree);
    MakeDirectorySucceeds(s, p);
    if MadeInVain(s, p) { GrownHasIt(s.os, Locate(s, p).value); }
  }

  lemma FailedRenameTree(s: Server, p: seq<byte>)
    requires GoodTree(s.os.tree) && Rename(s, p).1.status != STATUS_OK
    ensures Rename(s, p).0.os.tree != s.os.tree <==> MovedInVain(s, p)
  {
    hide GoodTree, SourceOf, TargetOf, TargetHasAlias, Rename, Transplanted, CanMove, Movable, AfterNul;
    RenameSucceeds(s, p);
    if MovedInVain(s, p) {
      MovableCanMove(s, p);
      MovedIsThere(s.os.tree, SourceOf(s, p).value, TargetOf(s, p).value);
    }
  }

  lemma MovedIsThere(t: Tree, source: Path, target: Path)
    requires GoodTree(t) && CanMove(t, source, target)
    ensures target in Transplanted(t, source, target) && target !in t
  {
    hide Upward, Downward, Once, Transplanted;
    MovedAt(t, source, target, target);
    assert source + target[|target|..] == source;
  }

  lemma HandlesKeepTree(s: Server, p: seq<byte>)
    ensures ListDirNext(s, p).0.os == s.os && Read(s, p).0.os.tree == s.os.tree && Write(s, p).0.os.tree == s.os.tree
    ensures Seek(s, p).0.os.tree == s.os.tree && Close(s, p).0.os.tree == s.os.tree && Flush(s, p).0 == s
  {
    hide EmitBatch, Fetch, FromU16, FromU32, FromI32, U32, LeastFree, ValidStamp, Clamped, WriteAt;
  }

  lemma PathsKeepTree(s: Server, p: seq<byte>)
    ensures Open(s, p).0.os.tree == s.os.tree && SetTime(s, p).0.os.tree == s.os.tree
    ensures GetAttr(s, p).0 == SetAttr(s, p).0 == GetTime(s, p).0 == s && ListDirBegin(s, p).0.os == s.os
  {
    hide Locate, FromU16, U32, AfterNul, LeastFree, StatOf, ValidStamp, EmitBatch, ScanDir, ListingOf, Step,
         SavedIfDirty;
  }

  lemma RemovalsKeepTree(s: Server, p: seq<byte>)
    requires GoodTree(s.os.tree)
    ensures Delete(s, p).1.status != STATUS_OK ==> Delete(s, p).0.os.tree == s.os.tree
    ensures RemoveDir(s, p).1.status != STATUS_OK ==> RemoveDir(s, p).0.os.tree == s.os.tree
  {
    hide Delete, RemoveDir, GoodTree;
    DeleteSucceeds(s, p);
    RemoveDirSucceeds(s, p);
  }

  lemma OthersKeepTree(s: Server, cmd: byte, p: seq<byte>)
    requires GoodTree(s.os.tree) && Dispatch(s, cmd, p).1.status != STATUS_OK
    requires cmd !in {CMD_CREATE, CMD_MKDIR, CMD_RENAME}
    ensures Dispatch(s, cmd, p).0.os.tree == s.os.tree
  {
    hide ListDirBegin, ListDirNext, Open, Create, Read, Write, Seek, Close, GetAttr, Flush, Delete, Rename,
         MakeDirectory, RemoveDir, SetAttr, GetTime, SetTime, GoodTree;
    RemovalsKeepTree(s, p);
    HandlesKeepTree(s, p);
    PathsKeepTree(s, p);
  }

  /**
   * A request that fails changes the tree exactly if it is a CREATE of a new file, an MKDIR or a RENAME that can be
   * carried out but for the alias of the new entry, or, for CREATE, the slot.
   */
  lemma FailuresInTheTree(s: Server, cmd: byte, p: seq<byte>)
    requires Good(s) && Dispatch(s, cmd, p).1.status != STATUS_OK
    ensures Dispatch(s, cmd, p).0.os.tree != s.os.tree <==>
              || (cmd == CMD_CREATE && CreatedInVain(s, p))
              || (cmd == CMD_MKDIR && MadeInVain(s, p))
              || (cmd == CMD_RENAME && MovedInVain(s, p))
  {
    hide Good, Dispatch, Create, MakeDirectory, Rename, GoodTree, CreatedInVain, MadeInVain, MovedInVain;
    GoodHasTree(s);
    GrowingHandlers(s, p);
    if cmd == CMD_CREATE { FailedCreateTree(s, p); }
    else if cmd == CMD_MKDIR { FailedMakeDirectoryTree(s, p); }
    else if cmd == CMD_RENAME { FailedRenameTree(s, p); }
    else { OthersKeepTree(s, cmd, p); }
  }

  lemma GrowingHandlers(s: Server, p: seq<byte>)
    ensures Dispatch(s, CMD_CREATE, p) == Create(s, p) && Dispatch(s, CMD_MKDIR, p) == MakeDirectory(s, p)
    ensures Dispatch(s, CMD_RENAME, p) == Rename(s, p)
  {
    hide Create, MakeDirectory, Rename;
  }

  // ----- Attributes and times -----

  /** The attributes, size and stamps of what is at a path fit the reply's fields. */
  ghost predicate AttrFits(os: OS, path: Path)
    requires path in os.tree
  {
    && (IsFile(os.tree, path) && os.tree[path].ino in os.inodes ==> |os.inodes[os.tree[path].ino]| < U32_LIMIT)
    && StampsAt(os.zone, ModifiedAt(os, os.tree[path].ino)).0 < U16_LIMIT
  }

  /**
   * GET_ATTR succeeds exactly on what is there, with a size below 4 GiB and a date up to 2107. Its first byte tells
   * a directory from a file; the size of a directory is 0.
   */
  lemma AttrVerdict(s: Server, p: seq<byte>)
    requires Good(s)
    ensures var (s', r) := GetAttr(s, p);
            && s' == s
            && (r.status == STATUS_OK <==>
                  |p| >= 2 && (NamesFile(s, p) || NamesDir(s, p)) && AttrFits(s.os, Locate(s, p).value))
            && (r.status == ERR_NOT_FOUND <==> |p| >= 2 && NamesNothing(s, p))
            && (r.status == ERR_BAD_PATH <==> |p| >= 2 && Locate(s, p).None?)
            && (r.status == ERR_PROTOCOL <==> |p| < 2)
            && (r.status == STATUS_OK ==>
                  && |r.data| == 9
                  && r.data[0] == (if NamesDir(s, p) then 0x10 else 0x20)
                  && StampsIn(r) == StampsAt(s.os.zone, ModifiedAt(s.os, s.os.tree[Locate(s, p).value].ino))
                  && (NamesDir(s, p) ==> SizeIn(r) == 0)
                  && (NamesFile(s, p) ==>
                        && s.os.tree[Locate(s, p).value].ino in s.os.inodes
                        && SizeIn(r) == |s.os.inodes[s.os.tree[Locate(s, p).value].ino]|))
  {
    hide Good, Locate, StampsAt, FromU16, FromU32, AttrBytes, Packs, EntryAt, AttrFits;
    GoodParts(s);
    if |p| >= 2 && Locate(s, p).Some? && Locate(s, p).value in s.os.tree {
      EntryIs(s.os, Locate(s, p).value);
      if Packs(EntryAt(s.os, Locate(s, p).value)) { AttrFields(EntryAt(s.os, Locate(s, p).value)); }
    }
  }

  lemma EntryIs(os: OS, path: Path)
    requires GoodFiles(os) && path in os.tree
    ensures var e := EntryAt(os, path);
            && (e.isDir <==> IsDir(os.tree, path)) && (Packs(e) <==> AttrFits(os, path))
            && (e.st.date, e.st.time) == StampsAt(os.zone, ModifiedAt(os, os.tree[path].ino))
            && (IsFile(os.tree, path) ==>
                  os.tree[path].ino in os.inodes && e.st.size == |os.inodes[os.tree[path].ino]|)
  {
    hide GoodTree, DosDate, DosTime, LocalOf;
  }

  /** Four bytes of stamps stand behind the path. */
  predicate HasStamps(p: seq<byte>) { |p| >= 7 && AfterNul(p[1..]).Some? && |AfterNul(p[1..]).value| >= 4 }

  /** The calendar reading of the stamps in a SET_TIME request. */
  function AskedLocal(p: seq<byte>): Local
    requires HasStamps(p)
  {
    var stamps := AfterNul(p[1..]).value;
    FromDos(FromU16(stamps[..2]), FromU16(stamps[2..4]))
  }

  /**
   * SET_TIME succeeds exactly on what is there with stamps that are a date and time of the calendar. It sets the
   * modification time of that entry and nothing else; a failure changes nothing.
   */
  lemma SetTimeSucceeds(s: Server, p: seq<byte>)
    ensures var (s', r) := SetTime(s, p);
            && (r.status == STATUS_OK <==>
                  HasStamps(p) && (NamesFile(s, p) || NamesDir(s, p)) && IsLocal(AskedLocal(p)))
            && (r.status == ERR_NOT_FOUND <==> HasStamps(p) && NamesNothing(s, p))
            && (r.status == ERR_BAD_PATH <==> HasStamps(p) && Locate(s, p).None?)
            && (r.status == ERR_PROTOCOL <==> !HasStamps(p))
            && s' == (if r.status != STATUS_OK then s
                      else
                        var ino := s.os.tree[Locate(s, p).value].ino;
                        s.(os := s.os.(mtimes := s.os.mtimes[ino := s.os.zone.instant(Seconds(AskedLocal(p)))])))
  {
    hide Locate, AfterNul, FromU16, FromDos, IsLocal, Seconds;
  }

  /** GET_TIME succeeds exactly on what is there with a date up to 2107, and reports its stamps. */
  lemma GetTimeVerdict(s: Server, p: seq<byte>)
    ensures var (s', r) := GetTime(s, p);
            && s' == s
            && (|p| >= 2 && NamesNothing(s, p) ==> r == Reply(ERR_NOT_FOUND, []))
            && (|p| >= 2 && Locate(s, p).None? ==> r == Reply(ERR_BAD_PATH, []))
            && (|p| < 2 ==> r == Reply(ERR_PROTOCOL, []))
            && (|p| >= 2 && (NamesFile(s, p) || NamesDir(s, p)) ==>
                  var stamps := StampsAt(s.os.zone, ModifiedAt(s.os, s.os.tree[Locate(s, p).value].ino));
                  if stamps.0 < U16_LIMIT then r == Reply(STATUS_OK, U16(stamps.0) + U16(stamps.1))
                  else r == Reply(ERR_IO, []))
  {
    hide Locate, U16, DosDate, DosTime, LocalOf;
  }

  /** SET_ATTR succeeds exactly on what is there, with an attribute byte behind the path. */
  lemma SetAttrVerdict(s: Server, p: seq<byte>)
    ensures var (s', r) := SetAttr(s, p);
            var asked := |p| >= 3 && AfterNul(p[1..]).Some? && AfterNul(p[1..]).value != [];
            && s' == s && r.data == []
            && (r.status == STATUS_OK <==> asked && (NamesFile(s, p) || NamesDir(s, p)))
            && (r.status == ERR_NOT_FOUND <==> asked && NamesNothing(s, p))
            && (r.status == ERR_BAD_PATH <==> asked && Locate(s, p).None?)
            && (r.status == ERR_PROTOCOL <==> !asked)
  {
    hide Locate, AfterNul;
  }

  // ----- Opening, creating, listing: why they fail -----

  /** OPEN, when it does not succeed, says why. */
  lemma OpenRefuses(s: Server, p: seq<byte>)
    ensures var r := Open(s, p).1;
            && (r.status == ERR_PROTOCOL <==> |p| < 2)
            && (r.status == ERR_UNSUPPORTED <==> |p| >= 2 && p[0] != 0)
            && (r.status == ERR_BAD_PATH <==> |p| >= 2 && p[0] == 0 && Locate(s, p).None?)
            && (r.status == ERR_NOT_FOUND <==> |p| >= 2 && p[0] == 0 && NamesNothing(s, p))
            && (r.status == ERR_ACCESS <==> |p| >= 2 && p[0] == 0 && NamesDir(s, p))
            && (r.status == ERR_IO <==>
                  |p| >= 2 && p[0] == 0 && NamesFile(s, p) && |Occupied(s.slots)| == MAX_HANDLES)
  {
    hide Locate, LeastFree, Occupied;
    FullTable(s.slots);
  }

  /** CREATE, when it does not succeed, says why; ERR_IO covers the rest. */
  lemma CreateRefuses(s: Server, p: seq<byte>)
    requires GoodTree(s.os.tree)
    ensures var r := Create(s, p).1;
            && (r.status == ERR_PROTOCOL <==> |p| < 2)
            && (r.status == ERR_UNSUPPORTED <==> |p| >= 2 && p[0] > 1)
            && (r.status == ERR_BAD_PATH <==> |p| >= 2 && p[0] <= 1 && Locate(s, p).None?)
            && (r.status == ERR_NOT_FOUND <==>
                  && |p| >= 2 && p[0] <= 1 && Locate(s, p).Some? && Locate(s, p).value != []
                  && Parent(Locate(s, p).value) !in s.os.tree)
            && (r.status == ERR_EXISTS <==> |p| >= 2 && p[0] == 0 && (NamesFile(s, p) || NamesDir(s, p)))
            && r.status in {STATUS_OK, ERR_PROTOCOL, ERR_UNSUPPORTED, ERR_BAD_PATH, ERR_NOT_FOUND, ERR_EXISTS, ERR_IO}
  {
    hide GoodTree, Locate, LeastFree, AliasFor, Step, NewFile, Truncate;
    RootIsDir(s.os.tree);
    if |p| >= 2 && Locate(s, p).Some? && Locate(s, p).value in s.os.tree && Locate(s, p).value != [] {
      NotTheRoot(s.os.tree, Locate(s, p).value);
    }
  }

  /** LIST_DIR of something that is no directory, and LIST_DIR_NEXT on something that is no enumeration. */
  lemma ListingRefuses(s: Server, p: seq<byte>)
    ensures var r := ListDirBegin(s, p).1;
            && (r.status == ERR_PROTOCOL <==> |p| < 2)
            && (r.status == ERR_BAD_PATH <==> |p| >= 2 && Locate(s, p).None?)
            && (r.status == ERR_NOT_FOUND <==> |p| >= 2 && (NamesFile(s, p) || NamesNothing(s, p)))
            && r.status in {STATUS_OK, ERR_PROTOCOL, ERR_BAD_PATH, ERR_NOT_FOUND, ERR_IO}
    ensures p == [] ==> ListDirNext(s, p) == (s, Reply(ERR_PROTOCOL, []))
    ensures p != [] && GetDir(s.slots, p[0]).None? ==> ListDirNext(s, p) == (s, Reply(ERR_BAD_HANDLE, []))
  {
    hide Locate, LeastFree, ScanDir, ListingOf, Step, Packs, BatchBytes;
  }

  /** READ and WRITE, when they do not succeed, say why and change nothing. */
  lemma TransfersRefuse(s: Server, p: seq<byte>)
    requires Good(s)
    ensures var (s', r) := Read(s, p);
            && (r.status == ERR_PROTOCOL <==> |p| < 3)
            && (r.status == ERR_BAD_HANDLE <==> |p| >= 3 && GetFile(s.slots, p[0]).None?)
            && (r.status == ERR_IO <==> |p| >= 3 && Writable(s, p[0]))
            && (r.status == STATUS_OK <==> |p| >= 3 && FileData(s, p[0]).Some?)
            && (r.status != STATUS_OK ==> s' == s)
    ensures var (s', r) := Write(s, p);
            && (r.status == ERR_PROTOCOL <==> p == [])
            && (r.status == ERR_BAD_HANDLE <==> p != [] && GetFile(s.slots, p[0]).None?)
            && (r.status == ERR_ACCESS <==> p != [] && FileData(s, p[0]).Some?)
            && (r.status == STATUS_OK <==> p != [] && Writable(s, p[0]))
            && (r.status != STATUS_OK ==> s' == s)
  {
    if p != [] && GetFile(s.slots, p[0]).Some? { FileIsInStep(s, p[0]); }
    hide Good, FromU16, FromU32, ReadAt, WriteFd, Moved, Capped;
  }

  /** PING answers with nothing; GET_INFO with the payload limit and the version. Other commands are refused. */
  lemma PlainCommands(s: Server, cmd: byte, p: seq<byte>)
    ensures Dispatch(s, CMD_PING, p) == (s, Reply(STATUS_OK, []))
    ensures var (s', r) := Dispatch(s, CMD_GET_INFO, p);
            s' == s && r.status == STATUS_OK && |r.data| == 4 && FromU16(r.data[..2]) == 512
    ensures cmd !in {CMD_PING, CMD_GET_INFO, CMD_LIST_DIR, CMD_LIST_DIR_NEXT, CMD_OPEN, CMD_CREATE, CMD_READ, CMD_WRITE,
                     CMD_SEEK, CMD_CLOSE, CMD_DELETE, CMD_RENAME, CMD_MKDIR, CMD_RMDIR, CMD_GET_ATTR, CMD_SET_ATTR,
                     CMD_GET_TIME, CMD_SET_TIME, CMD_FLUSH} ==>
              Dispatch(s, cmd, p) == (s, Reply(ERR_UNSUPPORTED, []))
  {
  }

  // ----- Closing -----

  /** A month or day of 0 counts as the first. */
  function FirstAtLeast(l: Local): Local {
    l.(month := if l.month == 0 then 1 else l.month, day := if l.day == 0 then 1 else l.day)
  }

  lemma ClampedReads(date: nat, time: nat)
    requires date < U16_LIMIT
    ensures FromDos(Clamped(date), time) == FirstAtLeast(FromDos(date, time))
  {
    var month, day, year := date / 32 % 16, date % 32, date / 512;
    assert date == 512 * year + 32 * month + day;
    Fields(year, if month == 0 then 1 else month, if day == 0 then 1 else day);
  }

  lemma Fields(year: nat, month: nat, day: nat)
    requires year < 128 && month < 16 && day < 32
    ensures var date := 512 * year + 32 * month + day;
            date / 512 % 128 == year && date / 32 % 16 == month && date % 32 == day
  {
  }

  /** The calendar reading of the stamps in a CLOSE request. */
  function ClosingLocal(p: seq<byte>): Local
    requires |p| >= 5
  {
    FirstAtLeast(FromDos(FromU16(p[1..3]), FromU16(p[3..5])))
  }

  /** CLOSE applies its stamps: a handle that writes, a file still at its path, and a date of the calendar. */
  predicate Stamps(s: Server, p: seq<byte>)
    requires p != []
  {
    && GetFile(s.slots, p[0]).Some? && GetFile(s.slots, p[0]).value.flags != MODE_READ_ONLY
    && GetFile(s.slots, p[0]).value.path in s.os.tree && |p| >= 5 && IsLocal(ClosingLocal(p))
  }

  /**
   * CLOSE succeeds exactly on a handle that is taken. The slot is free then and its descriptor closed; where it
   * stamps, the file's modification time is the instant of the stamps, and otherwise no time changes.
   */
  lemma CloseVerdict(s: Server, p: seq<byte>)
    ensures p == [] ==> Close(s, p) == (s, Reply(ERR_PROTOCOL, []))
    ensures p != [] && Get(s.slots, p[0]).None? ==> Close(s, p) == (s, Reply(ERR_BAD_HANDLE, []))
    ensures p != [] && Get(s.slots, p[0]).Some? ==>
              var (s', r) := Close(s, p);
              var h := Get(s.slots, p[0]).value;
              && r == Reply(STATUS_OK, []) && s'.slots == Put(s.slots, p[0], None) && s'.names == s.names
              && var fds := if h.OpenHandle? then s.os.fds - {h.fd} else s.os.fds;
                 var mtimes := if Stamps(s, p)
                               then s.os.mtimes[s.os.tree[h.path].ino := s.os.zone.instant(Seconds(ClosingLocal(p)))]
                               else s.os.mtimes;
                 s'.os == s.os.(fds := fds, mtimes := mtimes)
  {
    if |p| >= 5 { ClampedReads(FromU16(p[1..3]), FromU16(p[3..5])); }
    hide FromU16, FromDos, IsLocal, Seconds, Clamped, FirstAtLeast;
  }

  function CloseRequest(hid: byte, date: int, time: int): (p: seq<byte>)
    requires 0 <= date < U16_LIMIT && 0 <= time < U16_LIMIT
    ensures |p| == 5
  {
    [hid] + U16(date) + U16(time)
  }

  lemma CloseFields(hid: byte, date: int, time: int)
    requires 0 <= date < U16_LIMIT && 0 <= time < U16_LIMIT
    ensures var p := CloseRequest(hid, date, time);
            |p| == 5 && p[0] == hid && FromU16(p[1..3]) == date && FromU16(p[3..5]) == time
  {
    hide U16, FromU16;
    var p := CloseRequest(hid, date, time);
    assert p[1..3] == U16(date) && p[3..5] == U16(time);
    U16RoundTrip(date);
    U16RoundTrip(time);
  }

  lemma BothFieldsSame(date: int, time: int, stamps: (nat, nat))
    requires 0 <= date < U16_LIMIT && 0 <= time < U16_LIMIT && stamps.0 < U16_LIMIT && stamps.1 < U16_LIMIT
    ensures U16(stamps.0) + U16(stamps.1) == U16(date) + U16(time) <==> stamps == (date, time)
  {
    hide U16, FromU16;
    U16RoundTrip(date);
    U16RoundTrip(time);
    U16RoundTrip(stamps.0);
    U16RoundTrip(stamps.1);
    var a, b := U16(stamps.0) + U16(stamps.1), U16(date) + U16(time);
    assert a[..2] == U16(stamps.0) && a[2..] == U16(stamps.1) && b[..2] == U16(date) && b[2..] == U16(time);
  }

  /**
   * The stamps that CLOSE applied come back from GET_TIME for the file's path exactly if they are a local time that
   * the host's time zone does not skip.
   */
  lemma ClosedTimesComeBack(s: Server, hid: byte, date: nat, time: nat, q: seq<byte>)
    requires IsZone(s.os.zone) && date < U16_LIMIT && time < U16_LIMIT && date / 32 % 16 != 0 && date % 32 != 0
    requires Stamps(s, CloseRequest(hid, date, time))
    requires |q| >= 2 && Locate(s, q) == Some(GetFile(s.slots, hid).value.path)
    ensures GetTime(Close(s, CloseRequest(hid, date, time)).0, q).1 == Reply(STATUS_OK, U16(date) + U16(time))
            <==> IsShown(s.os.zone, Seconds(FromDos(date, time)))
  {
    hide Resolve, DosPath, Close, GetTime, U16, FromU16, IsZone, IsShown, Seconds, IsLocal, StampsAt, CloseRequest;
    var p := CloseRequest(hid, date, time);
    var s' := Close(s, p).0;
    CloseFields(hid, date, time);
    assert ClosingLocal(p) == FromDos(date, time);
    CloseVerdict(s, p);
    GetTimeVerdict(s', q);
    StampsComeBack(s.os.zone, date, time);
    var stamps := StampsAt(s.os.zone, s.os.zone.instant(Seconds(FromDos(date, time))));
    if stamps.0 < U16_LIMIT { BothFieldsSame(date, time, stamps); }
  }

  /** The handle that CREATE gives stands for the path that was created. */
  lemma CreatedHandle(s: Server, p: seq<byte>)
    requires Create(s, p).1.status == STATUS_OK
    ensures Locate(s, p).Some? && Free(s.slots) < MAX_HANDLES
    ensures var h := GetFile(Create(s, p).0.slots, Free(s.slots));
            h.Some? && h.value.path == Locate(s, p).value && h.value.flags != MODE_READ_ONLY
  {
    hide Locate, LeastFree, OpenForWrite, AliasFor, Step;
  }

  /**
   * CREATE, CLOSE with stamps, and GET_TIME of the same path: the stamps come back exactly if they are a local time
   * that is not skipped.
   */
  lemma CreatedTimesComeBack(s: Server, p: seq<byte>, q: seq<byte>, date: nat, time: nat)
    requires Good(s) && Create(s, p).1.status == STATUS_OK && |q| == |p| && q[1..] == p[1..]
    requires IsZone(s.os.zone) && date < U16_LIMIT && time < U16_LIMIT && date / 32 % 16 != 0 && date % 32 != 0
    requires IsLocal(FromDos(date, time)) && Free(s.slots) < MAX_HANDLES
    ensures |q| >= 2
    ensures GetTime(Close(Create(s, p).0, CloseRequest(Free(s.slots), date, time)).0, q).1
            == Reply(STATUS_OK, U16(date) + U16(time))
            <==> IsShown(s.os.zone, Seconds(FromDos(date, time)))
  {
    hide Good, Create, Resolve, DosPath, Close, GetTime, U16, FromU16, IsZone, IsShown, Seconds, IsLocal, CloseRequest,
         FromDos, Writable, FileOf, PosOf, LeastFree;
    var s1, hid := Create(s, p).0, Free(s.slots);
    CreatedHandle(s, p);
    CreatedIsFound(s, p, q);
    CreatedIsEmpty(s, p);
    CloseFields(hid, date, time);
    NothingToRaise(date, time);
    ClosedTimesComeBack(s1, hid, date, time, q);
  }

  lemma NothingToRaise(date: nat, time: nat)
    requires date / 32 % 16 != 0 && date % 32 != 0
    ensures FirstAtLeast(FromDos(date, time)) == FromDos(date, time)
  {
  }

  /** FLUSH succeeds exactly on a file handle, and changes nothing. */
  lemma FlushVerdict(s: Server, p: seq<byte>)
    ensures Flush(s, p).0 == s
    ensures Flush(s, p).1.status == STATUS_OK <==> p != [] && GetFile(s.slots, p[0]).Some?
    ensures Flush(s, p).1.status == ERR_BAD_HANDLE <==> p != [] && GetFile(s.slots, p[0]).None?
  {
  }
}
