/** Aliases over whole runs of the daemon: which requests keep them, and which one forgets them. */
module AliasRuns {
  import opened Bytes
  import opened Options
  import opened Frame
  import opened Names
  import opened NameMaps
  import opened NameMapRuns
  import opened Os
  import opened Trees
  import opened PathJail
  import opened Files
  import opened Handles
  import opened FsOps
  import opened ServerRuns

  /** Alias a of dir stands for the same real name in both. */
  ghost predicate Survives(m: MapState, m': MapState, dir: Path, a: string) {
    var b, b' := BucketOf(m.data, dir), BucketOf(m'.data, dir);
    a in b && a in b' && b'[a] == b[a]
  }

  lemma OpKeeps(m: MapState, op: Op, dir: Path, a: string)
    requires GoodState(m) && GoodOp(op) && a in BucketOf(m.data, dir)
    requires !Removes(op, BucketOf(m.data, dir)[a], dir)
    ensures Survives(m, Step(m, op), dir, a) && Survives(m, SavedIfDirty(Step(m, op)), dir, a)
  {
    StepKeepsAlias(m, op, BucketOf(m.data, dir)[a], dir, a);
    hide Step, GoodState, BucketOf;
  }

  lemma SurvivesItself(m: MapState, dir: Path, a: string)
    requires a in BucketOf(m.data, dir)
    ensures Survives(m, m, dir, a)
  {
  }

  /** The entry whose alias the request forgets: what DELETE and RMDIR remove, and what RENAME moves. */
  ghost function Forgotten(s: Server, cmd: byte, p: seq<byte>): Option<Path> {
    if cmd == CMD_DELETE && Delete(s, p).1.status == STATUS_OK then Locate(s, p)
    else if cmd == CMD_RMDIR && RemoveDir(s, p).1.status == STATUS_OK then Locate(s, p)
    else if cmd == CMD_RENAME && AfterNul(p).Some? then
      var source := Resolve(s.os.tree, s.names.data, DecodeAscii(UntilNul(p)));
      var target := Resolve(s.os.tree, s.names.data, DecodeAscii(UntilNul(AfterNul(p).value)));
      if source.Some? && target.Some? && CanMove(s.os.tree, source.value, target.value) then source else None
    else None
  }

  ghost predicate Forgets(s: Server, cmd: byte, p: seq<byte>, dir: Path, a: string) {
    var gone, b := Forgotten(s, cmd, p), BucketOf(s.names.data, dir);
    && gone.Some? && gone.value != [] && Parent(gone.value) == dir
    && a in b && SameName(Last(gone.value), b[a])
  }

  lemma LocatedNames(s: Server, dir: Path)
    requires Good(s) && IsDir(s.os.tree, dir)
    ensures GoodOp(ScanOp(dir, ListingOf(s.os, dir)))
  {
    ListingNames(s.os, dir);
    hide ListingOf, SimpleName;
  }

  lemma ListDirKeepsAliases(s: Server, p: seq<byte>, dir: Path, a: string)
    requires Good(s) && a in BucketOf(s.names.data, dir)
    ensures Survives(s.names, ListDirBegin(s, p).0.names, dir, a)
  {
    hide Good, Locate, ListingOf, ScanDir, AllocDir, Step, BucketOf, GoodState;
    if |p| >= 2 && Locate(s, p).Some? && IsDir(s.os.tree, Locate(s, p).value) {
      var d := Locate(s, p).value;
      GoodParts(s);
      LocatedNames(s, d);
      OpKeeps(s.names, ScanOp(d, ListingOf(s.os, d)), dir, a);
      AllocDirKeepsNames(s, d);
    }
  }

  lemma AllocDirKeepsNames(s: Server, d: Path)
    ensures forall s1, entries :: AllocDir(s1, d, entries).0.names == s1.names
  {
    hide EmitBatch, LeastFree;
  }

  lemma CreateKeepsAliases(s: Server, p: seq<byte>, dir: Path, a: string)
    requires Good(s) && a in BucketOf(s.names.data, dir)
    ensures Survives(s.names, Create(s, p).0.names, dir, a)
  {
    hide Good, Locate, OpenForWrite, AliasFor, Step, BucketOf, GoodState, LeastFree, SimpleName, SavedIfDirty, Survives;
    SurvivesItself(s.names, dir, a);
    if |p| >= 2 && Locate(s, p).Some? && Locate(s, p).value != [] {
      var path := Locate(s, p).value;
      GoodParts(s);
      LocatedIsSimple(s, p);
      OpKeeps(s.names, AliasForOp(Last(path), Parent(path)), dir, a);
    }
  }

  lemma MakeDirectoryKeepsAliases(s: Server, p: seq<byte>, dir: Path, a: string)
    requires Good(s) && a in BucketOf(s.names.data, dir)
    ensures Survives(s.names, MakeDirectory(s, p).0.names, dir, a)
  {
    hide Good, Locate, MakeDir, AliasFor, Step, BucketOf, GoodState, SimpleName;
    if |p| >= 2 && Locate(s, p).Some? && Locate(s, p).value != [] {
      var path := Locate(s, p).value;
      GoodParts(s);
      LocatedIsSimple(s, p);
      OpKeeps(s.names, AliasForOp(Last(path), Parent(path)), dir, a);
    }
  }

  lemma RemoveKeepsAliases(s: Server, cmd: byte, p: seq<byte>, dir: Path, a: string)
    requires Good(s) && a in BucketOf(s.names.data, dir) && cmd in {CMD_DELETE, CMD_RMDIR}
    requires !Forgets(s, cmd, p, dir, a)
    ensures Survives(s.names, (if cmd == CMD_DELETE then Delete(s, p) else RemoveDir(s, p)).0.names, dir, a)
  {
    hide Good, Locate, RemoveEntry, Step, BucketOf, GoodState, SameName;
    if |p| >= 2 && Locate(s, p).Some? && Locate(s, p).value != [] {
      var path := Locate(s, p).value;
      var op := RemoveOp(Last(path), Parent(path));
      if !Removes(op, BucketOf(s.names.data, dir)[a], dir) {
        GoodParts(s);
        OpKeeps(s.names, op, dir, a);
      }
    }
  }

  lemma RenamedKeepsAliases(s: Server, source: Path, target: Path, dir: Path, a: string)
    requires Good(s) && a in BucketOf(s.names.data, dir)
    requires CanMove(s.os.tree, source, target) && SimpleName(Last(target))
    requires !(Parent(source) == dir && SameName(Last(source), BucketOf(s.names.data, dir)[a]))
    ensures Survives(s.names, Renamed(s, source, target).0.names, dir, a)
  {
    hide Good, MoveEntry, Step, BucketOf, GoodState, SameName, SimpleName, AliasFor;
    var op := RemoveOp(Last(source), Parent(source));
    GoodParts(s);
    OpKeeps(s.names, op, dir, a);
    StepKeepsGood(s.names, op);
    OpKeeps(Step(s.names, op), AliasForOp(Last(target), Parent(target)), dir, a);
  }

  lemma RenameKeepsAliases(s: Server, p: seq<byte>, dir: Path, a: string)
    requires Good(s) && a in BucketOf(s.names.data, dir) && !Forgets(s, CMD_RENAME, p, dir, a)
    ensures Survives(s.names, Rename(s, p).0.names, dir, a)
  {
    hide Good, Resolve, UntilNul, AfterNul, DecodeAscii, BucketOf, SameName, SimpleName, Renamed;
    if AfterNul(p).Some? {
      var first, second := UntilNul(p), UntilNul(AfterNul(p).value);
      var source := Resolve(s.os.tree, s.names.data, DecodeAscii(first));
      var target := Resolve(s.os.tree, s.names.data, DecodeAscii(second));
      if source.Some? && target.Some? && CanMove(s.os.tree, source.value, target.value) {
        ResolvedIsSimple(s, DecodeAscii(second));
        RenamedKeepsAliases(s, source.value, target.value, dir, a);
      }
    }
  }

  /** The handlers without business in the name map. */
  lemma OthersKeepNames(s: Server, p: seq<byte>)
    ensures ListDirNext(s, p).0.names == s.names && Open(s, p).0.names == s.names && Close(s, p).0.names == s.names
    ensures Read(s, p).0.names == s.names && Write(s, p).0.names == s.names && Seek(s, p).0.names == s.names
    ensures GetAttr(s, p).0.names == s.names && SetAttr(s, p).0.names == s.names && GetTime(s, p).0.names == s.names
    ensures SetTime(s, p).0.names == s.names && Flush(s, p).0.names == s.names
  {
    hide Locate, EmitBatch, Fetch, WriteFd, SetPos, FromU16, FromU32, FromI32, U32, Stamped, AfterNul, LeastFree,
         StatOf;
  }

  /** A request changes what an alias stands for only if it removes or renames that very entry. */
  lemma RequestKeepsAliases(s: Server, cmd: byte, p: seq<byte>, dir: Path, a: string)
    requires Good(s) && a in BucketOf(s.names.data, dir) && !Forgets(s, cmd, p, dir, a)
    ensures Survives(s.names, Dispatch(s, cmd, p).0.names, dir, a)
  {
    hide Good, BucketOf, Forgets, ListDirBegin, ListDirNext, Open, Create, Read, Write, Seek, Close, GetAttr, Flush,
         Delete, Rename, MakeDirectory, RemoveDir, SetAttr, GetTime, SetTime;
    OthersKeepNames(s, p);
    if cmd == CMD_LIST_DIR { ListDirKeepsAliases(s, p, dir, a); }
    else if cmd == CMD_CREATE { CreateKeepsAliases(s, p, dir, a); }
    else if cmd == CMD_MKDIR { MakeDirectoryKeepsAliases(s, p, dir, a); }
    else if cmd == CMD_DELETE || cmd == CMD_RMDIR { RemoveKeepsAliases(s, cmd, p, dir, a); }
    else if cmd == CMD_RENAME { RenameKeepsAliases(s, p, dir, a); }
  }

  ghost predicate ForgetsAt(states: seq<Server>, events: seq<Event>, i: nat, dir: Path, a: string)
    requires i < |events| <= |states|
  {
    events[i].Request? && Forgets(states[i], events[i].cmd, events[i].payload, dir, a)
  }

  /**
   * Over every run of the daemon, whatever other programs do to the tree meanwhile, an alias stands for the
   * same real name at the end as at the start, unless some request removed or renamed that entry.
   */
  lemma {:induction false} AliasesSurviveRuns(states: seq<Server>, events: seq<Event>, dir: Path, a: string)
    requires IsRun(states, events) && Good(states[0]) && a in BucketOf(states[0].names.data, dir)
    requires forall i :: 0 <= i < |events| ==> !ForgetsAt(states, events, i, dir, a)
    ensures Good(states[|events|]) && Survives(states[0].names, states[|events|].names, dir, a)
  {
    hide Good, Forgets, Dispatch, BucketOf, GoodFiles;
    if events != [] {
      var n := |events| - 1;
      var init, before := states[..n + 1], events[..n];
      forall i | 0 <= i < n
        ensures !ForgetsAt(init, before, i, dir, a)
      {
        assert !ForgetsAt(states, events, i, dir, a);
      }
      AliasesSurviveRuns(init, before, dir, a);
      NextVerdict(states[n], events[n], states[n + 1]);
      if events[n].Request? {
        assert !ForgetsAt(states, events, n, dir, a);
        RequestKeepsAliases(states[n], events[n].cmd, events[n].payload, dir, a);
      }
    }
  }
}
