/** The daemon killed at any time and started again: what has been saved is there, and stays. */
module Crashes {
  import opened Bytes
  import opened Options
  import opened Frame
  import opened NameMaps
  import opened NameMapRuns
  import opened Os
  import opened Trees
  import opened PathJail
  import opened Files
  import opened Handles
  import opened FsOps
  import opened ServerRuns
  import opened AliasRuns

  /** Killed and started again: nothing is open, no handle is taken, and the map is what the file says. */
  function Restarted(s: Server): Server {
    Server(s.os.(fds := map[]), MapState(s.names.disk, s.names.disk, false), EMPTY_SLOTS)
  }

  lemma RestartedIsGood(s: Server)
    requires Good(s)
    ensures Good(Restarted(s)) && NoLeaks(Restarted(s).slots, Restarted(s).os)
  {
    GoodParts(s);
    StartIsGood(s.os.(fds := map[]), s.names.disk);
    hide WellFormed, GoodTree, Linked, GoodSearches, Good;
  }

  /** The alias stands for this name in memory and on disk. */
  ghost predicate Settled(m: MapState, dir: Path, a: string, n: string) {
    && a in BucketOf(m.data, dir) && BucketOf(m.data, dir)[a] == n
    && a in BucketOf(m.disk, dir) && BucketOf(m.disk, dir)[a] == n
  }

  // ----- What is on disk when the reply goes out -----

  lemma SavedIsSettled(m: MapState, dir: Path, a: string)
    requires GoodState(m) && !m.dirty && a in BucketOf(m.data, dir)
    ensures Settled(m, dir, a, BucketOf(m.data, dir)[a])
  {
    hide WellFormed, BucketOf;
  }

  lemma SuccessIsClean(s: Server, cmd: byte, p: seq<byte>)
    requires cmd in {CMD_LIST_DIR, CMD_CREATE, CMD_MKDIR, CMD_RENAME} && Dispatch(s, cmd, p).1.status == STATUS_OK
    ensures !Dispatch(s, cmd, p).0.names.dirty
  {
    hide Locate, Resolve, AfterNul, UntilNul, DecodeAscii, EmitBatch, LeastFree, ScanDir, ListingOf, Step, AliasFor,
         OpenForWrite, CanMove, MakeDir, MoveEntry;
  }

  /**
   * Behind a successful LIST_DIR, CREATE, MKDIR or RENAME every alias of the map, and so every one that has just
   * been handed out, is on disk before the reply is sent.
   */
  lemma RepliesComeAfterSaving(s: Server, cmd: byte, p: seq<byte>, dir: Path, a: string)
    requires Good(s)
    requires cmd in {CMD_LIST_DIR, CMD_CREATE, CMD_MKDIR, CMD_RENAME} && Dispatch(s, cmd, p).1.status == STATUS_OK
    requires a in BucketOf(Dispatch(s, cmd, p).0.names.data, dir)
    ensures var m := Dispatch(s, cmd, p).0.names; Settled(m, dir, a, BucketOf(m.data, dir)[a])
  {
    hide Good, Dispatch, GoodState, BucketOf, Settled;
    SuccessIsClean(s, cmd, p);
    DispatchVerdict(s, cmd, p);
    GoodParts(Dispatch(s, cmd, p).0);
    SavedIsSettled(Dispatch(s, cmd, p).0.names, dir, a);
  }

  // ----- Whole lives of the daemon, crashes included -----

  /** A request leaves the file alone or writes the whole map. */
  ghost predicate WritesAll(m: MapState, m': MapState) { m'.disk == m.disk || m'.disk == m'.data }

  lemma RegistrationsWriteAll(s: Server, os: OS, path: Path, fd: nat)
    requires path != []
    ensures WritesAll(s.names, Register(s, os, path, fd).0.names) && WritesAll(s.names, Registered(s, path).0.names)
  {
    hide AliasFor, LeastFree;
  }

  lemma ListDirWritesAll(s: Server, p: seq<byte>)
    ensures WritesAll(s.names, ListDirBegin(s, p).0.names)
  {
    hide Locate, EmitBatch, LeastFree, ScanDir, ListingOf;
  }

  lemma CreateWritesAll(s: Server, p: seq<byte>)
    ensures WritesAll(s.names, Create(s, p).0.names)
  {
    hide Locate, OpenForWrite, Register;
    if |p| >= 2 && p[0] <= 1 && Locate(s, p).Some? && Locate(s, p).value != [] {
      var path := Locate(s, p).value;
      var opening := OpenForWrite(s.os, path, p[0] == 0);
      if opening.Opened? { RegistrationsWriteAll(s, opening.os, path, s.os.nextFd); }
    }
  }

  lemma MakeDirectoryWritesAll(s: Server, p: seq<byte>)
    ensures WritesAll(s.names, MakeDirectory(s, p).0.names)
  {
    hide Locate, MakeDir, Registered;
    if |p| >= 2 && Locate(s, p).Some? && Locate(s, p).value != [] {
      var path := Locate(s, p).value;
      if IsDir(s.os.tree, Parent(path)) {
        RegistrationsWriteAll(s.(os := MakeDir(s.os, path)), s.os, path, 0);
      }
    }
  }

  lemma MovesWriteAll(s: Server, source: Path, target: Path)
    requires CanMove(s.os.tree, source, target)
    ensures WritesAll(s.names, Renamed(s, source, target).0.names)
  {
    hide AliasFor, RemoveAlias, MoveEntry;
  }

  lemma RemovalWritesAll(s: Server, path: Path)
    requires path != [] && IsDir(s.os.tree, Parent(path))
    ensures WritesAll(s.names, Removed(s, path).0.names)
  {
    hide RemoveAlias, RemoveEntry;
  }

  lemma RemovalsWriteAll(s: Server, p: seq<byte>)
    ensures WritesAll(s.names, Delete(s, p).0.names) && WritesAll(s.names, RemoveDir(s, p).0.names)
  {
    if |p| >= 2 && Locate(s, p).Some? {
      var path := Locate(s, p).value;
      if path != [] && IsDir(s.os.tree, Parent(path)) { RemovalWritesAll(s, path); }
    }
    hide Locate, Removed;
  }

  lemma RenameWritesAll(s: Server, p: seq<byte>)
    ensures WritesAll(s.names, Rename(s, p).0.names)
  {
    hide Resolve, AfterNul, UntilNul, DecodeAscii, Renamed, CanMove;
    if AfterNul(p).Some? {
      var source := Resolve(s.os.tree, s.names.data, DecodeAscii(UntilNul(p)));
      var target := Resolve(s.os.tree, s.names.data, DecodeAscii(UntilNul(AfterNul(p).value)));
      if source.Some? && target.Some? && CanMove(s.os.tree, source.value, target.value) {
        MovesWriteAll(s, source.value, target.value);
      }
    }
  }

  lemma RequestWritesAll(s: Server, cmd: byte, p: seq<byte>)
    ensures WritesAll(s.names, Dispatch(s, cmd, p).0.names)
  {
    hide ListDirBegin, ListDirNext, Open, Create, Read, Write, Seek, Close, GetAttr, Flush, Delete, Rename,
         MakeDirectory, RemoveDir, SetAttr, GetTime, SetTime;
    OthersKeepNames(s, p);
    ListDirWritesAll(s, p);
    CreateWritesAll(s, p);
    MakeDirectoryWritesAll(s, p);
    RemovalsWriteAll(s, p);
    RenameWritesAll(s, p);
  }

  datatype Happening = Serving(e: Event) | Crash

  ghost predicate Happens(s: Server, h: Happening, s': Server) {
    match h
    case Serving(e) => Next(s, e, s')
    case Crash => s' == Restarted(s)
  }

  ghost predicate IsLife(states: seq<Server>, hs: seq<Happening>) {
    && |states| == |hs| + 1
    && forall i :: 0 <= i < |hs| ==> Happens(states[i], hs[i], states[i + 1])
  }

  ghost predicate ForgetsIn(states: seq<Server>, hs: seq<Happening>, i: nat, dir: Path, a: string)
    requires i < |hs| <= |states|
  {
    hs[i].Serving? && hs[i].e.Request? && Forgets(states[i], hs[i].e.cmd, hs[i].e.payload, dir, a)
  }

  lemma HappeningKeeps(s: Server, h: Happening, s': Server, dir: Path, a: string, n: string)
    requires Good(s) && Happens(s, h, s') && Settled(s.names, dir, a, n)
    requires h.Serving? && h.e.Request? ==> !Forgets(s, h.e.cmd, h.e.payload, dir, a)
    ensures Good(s') && Settled(s'.names, dir, a, n)
  {
    hide Good, Forgets, Dispatch, BucketOf, GoodFiles;
    match h
    case Serving(e) =>
      NextVerdict(s, e, s');
      if e.Request? {
        RequestKeepsAliases(s, e.cmd, e.payload, dir, a);
        RequestWritesAll(s, e.cmd, e.payload);
      }
    case Crash => RestartedIsGood(s);
  }

  /**
   * Over every life of the daemon, with requests, changes by other programs and crashes in any order, an alias
   * that was once on disk stands for the same name for ever, unless some request removes or renames that entry.
   */
  lemma {:induction false} AliasesSurviveCrashes(states: seq<Server>, hs: seq<Happening>, dir: Path, a: string,
                                                 n: string)
    requires IsLife(states, hs) && Good(states[0]) && Settled(states[0].names, dir, a, n)
    requires forall i :: 0 <= i < |hs| ==> !ForgetsIn(states, hs, i, dir, a)
    ensures Good(states[|hs|]) && Settled(states[|hs|].names, dir, a, n)
  {
    hide Good, Forgets, Happens, Settled;
    if hs != [] {
      var k := |hs| - 1;
      var init, before := states[..k + 1], hs[..k];
      forall i | 0 <= i < k
        ensures !ForgetsIn(init, before, i, dir, a)
      {
        assert !ForgetsIn(states, hs, i, dir, a);
      }
      AliasesSurviveCrashes(init, before, dir, a, n);
      assert !ForgetsIn(states, hs, k, dir, a);
      HappeningKeeps(states[k], hs[k], states[k + 1], dir, a, n);
    }
  }
}
