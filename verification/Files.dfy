/** Open, read, write, seek and close below the handlers. */
module Files {
  import opened Bytes
  import opened NameMaps
  import opened Os
  import opened Trees
  import opened Clock

  // ----- File contents -----

  function Nuls(n: nat): (r: seq<byte>)
    ensures |r| == n
  {
    seq(n, i => 0)
  }

  /** write(2): overwrites, extends, and fills a gap with NULs; writing nothing changes nothing. */
  function WriteAt(c: seq<byte>, pos: nat, data: seq<byte>): (r: seq<byte>)
    ensures data != [] ==> |r| == if pos + |data| > |c| then pos + |data| else |c|
    ensures data == [] || pos == |c| ==> r == c + data
  {
    if data == [] then c
    else
      (if pos <= |c| then c[..pos] else c + Nuls(pos - |c|))
      + data
      + (if pos + |data| < |c| then c[pos + |data|..] else [])
  }

  /** pread(2): at most n bytes from position at on, fewer only at the end. */
  function ReadAt(c: seq<byte>, at: nat, n: nat): (r: seq<byte>)
    ensures |r| <= n
  {
    if at >= |c| then [] else if at + n <= |c| then c[at..at + n] else c[at..]
  }

  // ----- Descriptors -----

  predicate IsOpen(os: OS, fd: nat) { fd in os.fds && os.fds[fd].ino in os.inodes }

  function Contents(os: OS, fd: nat): seq<byte>
    requires IsOpen(os, fd)
  {
    os.inodes[os.fds[fd].ino]
  }

  function OpenFd(os: OS, p: Path, writable: bool): OS
    requires IsFile(os.tree, p)
  {
    os.(fds := os.fds[os.nextFd := Fd(os.tree[p].ino, 0, writable)], nextFd := os.nextFd + 1)
  }

  function CloseFd(os: OS, fd: nat): OS {
    os.(fds := os.fds - {fd})
  }

  function SetPos(os: OS, fd: nat, pos: nat): OS
    requires fd in os.fds
  {
    os.(fds := os.fds[fd := os.fds[fd].(pos := pos)])
  }

  /** The present becomes the modification time. */
  function Touched(os: OS, ino: nat): OS { os.(mtimes := os.mtimes[ino := os.clock]) }

  function WriteFd(os: OS, fd: nat, data: seq<byte>): OS
    requires IsOpen(os, fd)
  {
    if data == [] then os
    else
      var f := os.fds[fd];
      SetPos(Touched(os.(inodes := os.inodes[f.ino := WriteAt(os.inodes[f.ino], f.pos, data)]), f.ino),
             fd, f.pos + |data|)
  }

  // ----- Creating and truncating -----

  function NewFile(os: OS, p: Path): OS
    requires p != [] && IsDir(os.tree, Parent(p))
  {
    Touched(Touched(os.(tree := Grown(os.tree, p, File(os.nextIno)), inodes := os.inodes[os.nextIno := []],
                        nextIno := os.nextIno + 1), os.nextIno), os.tree[Parent(p)].ino)
  }

  function Truncate(os: OS, p: Path): OS
    requires IsFile(os.tree, p)
  {
    Touched(os.(inodes := os.inodes[os.tree[p].ino := []]), os.tree[p].ino)
  }

  datatype Opening = Opened(os: OS) | Exists | Failed

  /** open(O_WRONLY|O_CREAT|...), exclusive or truncating; the new descriptor is the old nextFd. */
  function OpenForWrite(os: OS, p: Path, exclusive: bool): (r: Opening)
    ensures r.Opened? ==> IsOpen(r.os, os.nextFd) && IsFile(r.os.tree, p)
    ensures r.Opened? ==> r.os.fds == os.fds[os.nextFd := Fd(r.os.tree[p].ino, 0, true)]
  {
    if p in os.tree then
      if exclusive then Exists
      else if os.tree[p].Dir? then Failed
      else Opened(OpenFd(Truncate(os, p), p, true))
    else if p == [] || !IsDir(os.tree, Parent(p)) then Failed
    else Opened(OpenFd(NewFile(os, p), p, true))
  }

  // ----- Directories, removal, renaming, stamps -----

  function MakeDir(os: OS, p: Path): OS
    requires p != [] && IsDir(os.tree, Parent(p))
  {
    Touched(Touched(os.(tree := Grown(os.tree, p, Dir(os.nextIno, [])), nextIno := os.nextIno + 1), os.nextIno),
            os.tree[Parent(p)].ino)
  }

  /** unlink and rmdir: the entry goes, an open file's contents stay. */
  function RemoveEntry(os: OS, p: Path): OS
    requires p != [] && IsDir(os.tree, Parent(p))
  {
    Touched(os.(tree := Pruned(os.tree, p)), os.tree[Parent(p)].ino)
  }

  function MoveEntry(os: OS, source: Path, target: Path): OS
    requires CanMove(os.tree, source, target)
  {
    Touched(Touched(os.(tree := Transplanted(os.tree, source, target)), os.tree[Parent(source)].ino),
            os.tree[Parent(target)].ino)
  }

  /** utime: DOS stamps become the instant at which the clock on the wall shows them. */
  function Stamped(os: OS, p: Path, date: nat, time: nat): OS
    requires p in os.tree
  {
    os.(mtimes := os.mtimes[os.tree[p].ino := os.zone.instant(Seconds(FromDos(date, time)))])
  }

  /** Adding or removing an entry stamps its directory with the present, and what is new; nothing else. */
  lemma EntriesStamp(os: OS, p: Path, ino: nat)
    requires p != [] && IsDir(os.tree, Parent(p))
    ensures ModifiedAt(RemoveEntry(os, p), ino)
            == if ino == os.tree[Parent(p)].ino then os.clock else ModifiedAt(os, ino)
    ensures ModifiedAt(NewFile(os, p), ino) == ModifiedAt(MakeDir(os, p), ino)
            == if ino == os.tree[Parent(p)].ino || ino == os.nextIno then os.clock else ModifiedAt(os, ino)
  {
    hide Grown, Pruned;
  }

  /** Moving an entry stamps the two directories, writing and truncating stamp the file; nothing else. */
  lemma ChangesStamp(os: OS, source: Path, target: Path, fd: nat, data: seq<byte>, ino: nat)
    ensures CanMove(os.tree, source, target) ==>
              ModifiedAt(MoveEntry(os, source, target), ino)
              == if ino == os.tree[Parent(source)].ino || ino == os.tree[Parent(target)].ino then os.clock
                 else ModifiedAt(os, ino)
    ensures IsOpen(os, fd) ==>
              ModifiedAt(WriteFd(os, fd, data), ino)
              == if data != [] && ino == os.fds[fd].ino then os.clock else ModifiedAt(os, ino)
    ensures IsFile(os.tree, source) ==>
              ModifiedAt(Truncate(os, source), ino)
              == if ino == os.tree[source].ino then os.clock else ModifiedAt(os, ino)
  {
    hide Transplanted, WriteAt;
  }

  // ----- What the system keeps -----

  ghost predicate GoodFiles(os: OS) {
    && GoodTree(os.tree)
    && (forall p :: IsFile(os.tree, p) ==> os.tree[p].ino in os.inodes)
    && (forall fd :: fd in os.fds ==> fd < os.nextFd && os.fds[fd].ino in os.inodes)
    && (forall ino :: ino in os.inodes ==> ino < os.nextIno)
  }

  lemma NewFileIsGood(os: OS, p: Path)
    requires GoodFiles(os) && p != [] && p !in os.tree && IsDir(os.tree, Parent(p)) && SimpleName(Last(p))
    ensures GoodFiles(NewFile(os, p))
  {
    hide GoodTree, Grown, SimpleName;
    GrownIsGood(os.tree, p, File(os.nextIno));
    var os' := NewFile(os, p);
    forall q | IsFile(os'.tree, q)
      ensures os'.tree[q].ino in os'.inodes
    {
      GrownFile(os.tree, p, File(os.nextIno), q);
    }
  }

  lemma OpenFdIsGood(os: OS, p: Path, writable: bool)
    requires GoodFiles(os) && IsFile(os.tree, p)
    ensures GoodFiles(OpenFd(os, p, writable))
  {
    hide GoodTree;
  }

  lemma TruncateIsGood(os: OS, p: Path)
    requires GoodFiles(os) && IsFile(os.tree, p)
    ensures GoodFiles(Truncate(os, p))
  {
    hide GoodTree;
  }

  lemma OpenForWriteIsGood(os: OS, p: Path, exclusive: bool)
    requires GoodFiles(os) && (p == [] || SimpleName(Last(p)))
    ensures var r := OpenForWrite(os, p, exclusive); r.Opened? ==> GoodFiles(r.os)
  {
    var r := OpenForWrite(os, p, exclusive);
    if r.Opened? {
      if p in os.tree {
        TruncateIsGood(os, p);
        OpenFdIsGood(Truncate(os, p), p, true);
      } else {
        NewFileIsGood(os, p);
        OpenFdIsGood(NewFile(os, p), p, true);
      }
    }
  }

  lemma MovesAreGood(os: OS, fd: nat, pos: nat, data: seq<byte>)
    requires GoodFiles(os) && fd in os.fds
    ensures GoodFiles(CloseFd(os, fd)) && GoodFiles(SetPos(os, fd, pos)) && GoodFiles(WriteFd(os, fd, data))
  {
    hide GoodTree;
  }

  lemma MakeDirIsGood(os: OS, p: Path)
    requires GoodFiles(os) && p != [] && p !in os.tree && IsDir(os.tree, Parent(p)) && SimpleName(Last(p))
    ensures GoodFiles(MakeDir(os, p))
  {
    hide GoodTree, Grown, SimpleName;
    GrownIsGood(os.tree, p, Dir(os.nextIno, []));
    var os' := MakeDir(os, p);
    forall q | IsFile(os'.tree, q)
      ensures os'.tree[q].ino in os'.inodes
    {
      GrownFile(os.tree, p, Dir(os.nextIno, []), q);
    }
  }

  lemma RemoveEntryIsGood(os: OS, p: Path)
    requires GoodFiles(os) && p != [] && p in os.tree && IsLeaf(os.tree[p])
    ensures IsDir(os.tree, Parent(p)) && GoodFiles(RemoveEntry(os, p))
  {
    assert IsDir(os.tree, Parent(p));
    PrunedIsGood(os.tree, p);
    hide GoodTree, Unlisted;
  }

  /** A file after a move was a file before it. */
  lemma MovedFile(t: Tree, source: Path, target: Path, p: Path)
    requires GoodTree(t) && CanMove(t, source, target) && IsFile(Transplanted(t, source, target), p)
    ensures exists q :: IsFile(t, q) && t[q].ino == Transplanted(t, source, target)[p].ino
  {
    hide Transplanted, Downward;
    MovedAt(t, source, target, p);
    var q := if target <= p then Origin(source, target, p) else p;
    assert IsFile(t, q);
  }

  lemma MoveEntryIsGood(os: OS, source: Path, target: Path)
    requires GoodFiles(os) && CanMove(os.tree, source, target) && SimpleName(Last(target))
    ensures GoodFiles(MoveEntry(os, source, target))
  {
    hide GoodTree, Transplanted, CanMove, Upward, SimpleName, Stayed;
    MovedIsGood(os.tree, source, target);
    var os' := MoveEntry(os, source, target);
    forall p | IsFile(os'.tree, p)
      ensures os'.tree[p].ino in os.inodes
    {
      MovedFile(os.tree, source, target, p);
    }
  }

  lemma StampedIsGood(os: OS, p: Path, date: nat, time: nat)
    requires GoodFiles(os) && p in os.tree
    ensures GoodFiles(Stamped(os, p, date, time))
  {
    hide GoodTree, Seconds, FromDos;
  }
}
