/** Which requests change the contents of which file. */
module FileRuns {
  import opened Bytes
  import opened Options
  import opened Frame
  import opened NameMaps
  import opened NameMapRuns
  import opened Os
  import opened Trees
  import opened PathJail
  import opened Files
  import opened Handles
  import opened FsOps
  import opened ServerRuns
  import opened Opening

  /** A WRITE through a handle on the file, or a truncating CREATE of a path that names it. */
  ghost predicate Touches(s: Server, cmd: byte, p: seq<byte>, ino: nat) {
    || (cmd == CMD_WRITE && p != [] && GetFile(s.slots, p[0]).Some?
        && IsOpen(s.os, GetFile(s.slots, p[0]).value.fd) && s.os.fds[GetFile(s.slots, p[0]).value.fd].ino == ino)
    || (cmd == CMD_CREATE && |p| >= 2 && p[0] == 1 && Locate(s, p).Some?
        && IsFile(s.os.tree, Locate(s, p).value) && s.os.tree[Locate(s, p).value].ino == ino)
  }

  lemma WriteContents(s: Server, p: seq<byte>, ino: nat)
    requires ino in s.os.inodes && !Touches(s, CMD_WRITE, p, ino)
    ensures var os := Write(s, p).0.os; ino in os.inodes && os.inodes[ino] == s.os.inodes[ino]
  {
    hide WriteAt, Locate;
  }

  lemma OpeningContents(os: OS, path: Path, exclusive: bool, ino: nat)
    requires ino in os.inodes && ino < os.nextIno && OpenForWrite(os, path, exclusive).Opened?
    requires !exclusive && IsFile(os.tree, path) ==> os.tree[path].ino != ino
    ensures var os' := OpenForWrite(os, path, exclusive).os; ino in os'.inodes && os'.inodes[ino] == os.inodes[ino]
  {
    hide Grown;
  }

  /** What CREATE leaves of the file contents: all of them, or what opening for writing leaves. */
  lemma CreateInodes(s: Server, p: seq<byte>)
    ensures var os := Create(s, p).0.os;
            || os.inodes == s.os.inodes
            || (&& |p| >= 2 && p[0] <= 1 && Locate(s, p).Some?
                && var opening := OpenForWrite(s.os, Locate(s, p).value, p[0] == 0);
                && opening.Opened? && os.inodes == opening.os.inodes)
  {
    hide Locate, OpenForWrite, AliasFor, Step, LeastFree, SavedIfDirty;
  }

  lemma CreateContents(s: Server, p: seq<byte>, ino: nat)
    requires Good(s) && ino in s.os.inodes && !Touches(s, CMD_CREATE, p, ino)
    ensures var os := Create(s, p).0.os; ino in os.inodes && os.inodes[ino] == s.os.inodes[ino]
  {
    assert ino < s.os.nextIno;
    hide Good, Locate, Create, OpenForWrite;
    CreateInodes(s, p);
    if |p| >= 2 && p[0] <= 1 && Locate(s, p).Some? {
      var path := Locate(s, p).value;
      if OpenForWrite(s.os, path, p[0] == 0).Opened? { OpeningContents(s.os, path, p[0] == 0, ino); }
    }
  }

  lemma HandlesKeepContents(s: Server, p: seq<byte>)
    ensures ListDirNext(s, p).0.os == s.os && Read(s, p).0.os.inodes == s.os.inodes
    ensures Seek(s, p).0.os.inodes == s.os.inodes && Close(s, p).0.os.inodes == s.os.inodes
    ensures Flush(s, p).0 == s
  {
    hide EmitBatch, Fetch, FromU16, FromU32, FromI32, U32, LeastFree, ValidStamp, Clamped;
  }

  lemma PathsKeepContents(s: Server, p: seq<byte>)
    ensures Open(s, p).0.os.inodes == s.os.inodes && SetTime(s, p).0.os.inodes == s.os.inodes
    ensures GetAttr(s, p).0 == SetAttr(s, p).0 == GetTime(s, p).0 == s
  {
    hide Locate, FromU16, U32, AfterNul, LeastFree, StatOf, ValidStamp;
  }

  lemma RemovalsKeepContents(s: Server, p: seq<byte>)
    ensures Delete(s, p).0.os.inodes == s.os.inodes && RemoveDir(s, p).0.os.inodes == s.os.inodes
  {
    hide Locate, Step, SavedIfDirty, Pruned;
  }

  lemma AdditionsKeepContents(s: Server, p: seq<byte>)
    ensures MakeDirectory(s, p).0.os.inodes == s.os.inodes && Rename(s, p).0.os.inodes == s.os.inodes
  {
    hide Locate, Resolve, AfterNul, UntilNul, DecodeAscii, AliasFor, Step, SavedIfDirty, Grown, Transplanted, CanMove;
  }

  lemma ListingKeepsContents(s: Server, p: seq<byte>)
    ensures ListDirBegin(s, p).0.os == s.os
  {
    hide Locate, EmitBatch, LeastFree, ScanDir, ListingOf, Step, SavedIfDirty;
  }

  /** No request changes the contents of a file except a WRITE through a handle on it or a CREATE that truncates it. */
  lemma ContentsVerdict(s: Server, cmd: byte, p: seq<byte>, ino: nat)
    requires Good(s) && ino in s.os.inodes && !Touches(s, cmd, p, ino)
    ensures var os := Dispatch(s, cmd, p).0.os; ino in os.inodes && os.inodes[ino] == s.os.inodes[ino]
  {
    hide Good, Touches, ListDirBegin, ListDirNext, Open, Create, Read, Write, Seek, Close, GetAttr, Flush, Delete,
         Rename, MakeDirectory, RemoveDir, SetAttr, GetTime, SetTime;
    HandlesKeepContents(s, p);
    PathsKeepContents(s, p);
    RemovalsKeepContents(s, p);
    AdditionsKeepContents(s, p);
    ListingKeepsContents(s, p);
    if cmd == CMD_WRITE { WriteContents(s, p, ino); }
    else if cmd == CMD_CREATE { CreateContents(s, p, ino); }
  }

  /** The path in the request names this file. */
  ghost predicate NamesInode(s: Server, p: seq<byte>, ino: nat)
    requires p != []
  {
    Locate(s, p).Some? && IsFile(s.os.tree, Locate(s, p).value) && s.os.tree[Locate(s, p).value].ino == ino
  }

  lemma CreateOpens(s: Server, p: seq<byte>)
    requires GoodFiles(s.os) && |p| >= 2 && p[0] == 1 && Locate(s, p).Some? && IsFile(s.os.tree, Locate(s, p).value)
    ensures Create(s, p).0.os.inodes == s.os.inodes[s.os.tree[Locate(s, p).value].ino := []]
  {
    hide Locate, AliasFor, Step, LeastFree, SavedIfDirty, GoodFiles, OpenForWrite;
    OpeningEmpties(s.os, Locate(s, p).value);
  }

  lemma OpeningEmpties(os: OS, path: Path)
    requires GoodFiles(os) && IsFile(os.tree, path)
    ensures path != [] && Parent(path) in os.tree && OpenForWrite(os, path, false).Opened?
    ensures OpenForWrite(os, path, false).os.inodes == os.inodes[os.tree[path].ino := []]
  {
    hide Downward, Once;
  }

  /** CREATE in mode 1 empties the file that the path names, whether or not it succeeds, and no other. */
  lemma CreateEmpties(s: Server, p: seq<byte>, ino: nat)
    requires Good(s) && |p| >= 2 && p[0] == 1 && ino in s.os.inodes
    ensures var inodes := Create(s, p).0.os.inodes;
            ino in inodes && inodes[ino] == if NamesInode(s, p, ino) then [] else s.os.inodes[ino]
  {
    GoodParts(s);
    hide Good, Create, Locate, GoodFiles;
    if NamesInode(s, p, ino) { CreateOpens(s, p); } else { CreateContents(s, p, ino); }
  }

  lemma FailedWriteChangesNothing(s: Server, p: seq<byte>)
    ensures Write(s, p).1.status != STATUS_OK ==> Write(s, p).0 == s
  {
    hide WriteFd, Moved;
  }

  lemma CreateFailsBehindOpening(s: Server, p: seq<byte>)
    requires Good(s) && |p| >= 2 && p[0] == 1 && Locate(s, p).Some? && IsFile(s.os.tree, Locate(s, p).value)
    ensures var path := Locate(s, p).value;
            && path != []
            && (Create(s, p).1.status != STATUS_OK
                <==> AliasFor(s.names.data, Last(path), Parent(path)).1.None? || |Occupied(s.slots)| == MAX_HANDLES)
  {
    GoodHasTree(s);
    CreateSucceeds(s, p);
    OccupiedBound(s.slots);
    hide Good, Locate, Create, AliasFor, Occupied;
    assert IsDir(s.os.tree, Parent(Locate(s, p).value));
  }

  /**
   * A request that fails changes the contents of a file exactly if it is a CREATE in mode 1 of a file that is not
   * empty, for which there is no alias or no slot left.
   */
  lemma FailedRequestsVerdict(s: Server, cmd: byte, p: seq<byte>, ino: nat)
    requires Good(s) && ino in s.os.inodes && Dispatch(s, cmd, p).1.status != STATUS_OK
    ensures ino in Dispatch(s, cmd, p).0.os.inodes
    ensures Dispatch(s, cmd, p).0.os.inodes[ino] != s.os.inodes[ino] <==>
              && cmd == CMD_CREATE && |p| >= 2 && p[0] == 1 && NamesInode(s, p, ino) && s.os.inodes[ino] != []
              && var path := Locate(s, p).value;
              && path != []
              && (AliasFor(s.names.data, Last(path), Parent(path)).1.None? || |Occupied(s.slots)| == MAX_HANDLES)
  {
    hide Good, Locate, ListDirBegin, ListDirNext, Open, Create, Read, Write, Seek, Close, GetAttr, Flush, Delete,
         Rename, MakeDirectory, RemoveDir, SetAttr, GetTime, SetTime, AliasFor, Occupied;
    FailedWriteChangesNothing(s, p);
    if cmd == CMD_CREATE && |p| >= 2 && p[0] == 1 {
      CreateEmpties(s, p, ino);
      if NamesInode(s, p, ino) { CreateFailsBehindOpening(s, p); }
    } else if cmd != CMD_WRITE {
      ContentsVerdict(s, cmd, p, ino);
    }
  }

  ghost predicate TouchesAt(states: seq<Server>, events: seq<Event>, i: nat, ino: nat)
    requires i < |events| <= |states|
  {
    events[i].Request? && Touches(states[i], events[i].cmd, events[i].payload, ino)
  }

  /** Over every run of requests, a file that none of them touches is at the end what it was at the start. */
  lemma {:induction false} UntouchedFilesStay(states: seq<Server>, events: seq<Event>, ino: nat)
    requires IsRun(states, events) && Good(states[0]) && ino in states[0].os.inodes
    requires forall i :: 0 <= i < |events| ==> events[i].Request? && !TouchesAt(states, events, i, ino)
    ensures var os := states[|events|].os;
            Good(states[|events|]) && ino in os.inodes && os.inodes[ino] == states[0].os.inodes[ino]
  {
    hide Good, Touches, Dispatch;
    if events != [] {
      var n := |events| - 1;
      var init, before := states[..n + 1], events[..n];
      forall i | 0 <= i < n
        ensures before[i].Request? && !TouchesAt(init, before, i, ino)
      {
        assert !TouchesAt(states, events, i, ino);
      }
      UntouchedFilesStay(init, before, ino);
      NextVerdict(states[n], events[n], states[n + 1]);
      assert !TouchesAt(states, events, n, ino);
      ContentsVerdict(states[n], events[n].cmd, events[n].payload, ino);
    }
  }
}
