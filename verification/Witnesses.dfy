/** Servers and requests that show the failures stated elsewhere: each of them really happens. */
module Witnesses {
  import opened Bytes
  import opened Options
  import opened Names
  import opened NameMaps
  import opened NameMapRuns
  import opened Os
  import opened Clock
  import opened PathJail
  import opened Trees
  import opened Files
  import opened Handles
  import opened Frame
  import opened FsOps
  import Fcb
  import opened Texts
  import opened ServerRuns
  import opened CreatedPaths
  import opened Opening
  import opened Effects
  import opened Redirector
  import opened OpenArms
  import opened FindFiles

  // ----- Requests for a name in the root -----

  /** A name that is one component and nothing else. */
  predicate Plain(s: string) {
    s != "" && s != "." && s != ".." && forall c :: c in s ==> 0x20 <= c as int < 0x80 && !IsSep(c) && c != ':'
  }

  predicate NoLowerCase(s: string) { forall c :: c in s ==> !('a' <= c <= 'z') }

  lemma OneComponent(s: string)
    requires Plain(s)
    ensures Components(s) == [s] && GoodComponent(s) && LastComponent([s]) == s
  {
    assert StripDrive(s) == s by { if |s| >= 2 { assert s[1] in s; } }
    SplitAfterName(s, []);
    assert s + [] == s;
    assert [s][1..] == [] && NonEmpty([s]) == [s] + NonEmpty([]) == [s];
  }

  /** Such a name is looked up in the root. */
  lemma NameResolves(t: Tree, names: NameData, s: string)
    requires Plain(s)
    ensures Resolve(t, names, s) == Some(Append([], RealName(t, names, [], s)))
  {
    hide Components, RealName, Append, GoodComponent, Plain;
    OneComponent(s);
    assert [s][..0] == [] && Walk(t, names, []) == [];
    assert Walk(t, names, [s]) == Append([], RealName(t, names, [], s));
  }

  lemma UpperOf(s: string)
    requires NoLowerCase(s)
    ensures Upper(s) == s
  {
    forall i | 0 <= i < |s|
      ensures Upper(s)[i] == s[i]
    {
      UpperAt(s, i);
      assert s[i] in s;
    }
  }

  /** A daemon that has just started on this tree and this map. */
  function Started(os: OS, names: NameData): Server { Server(os, MapState(names, names, false), EMPTY_SLOTS) }

  function EmptyRoot(z: Zone): OS { OS(map[[] := Dir(0, [])], map[], map[], map[], 1, 0, 0, z) }

  lemma EmptyRootIsGood(z: Zone)
    ensures GoodFiles(EmptyRoot(z))
  {
  }

  /** A consistent tree with nothing open, and what one of its directories lists. */
  ghost predicate Lists(os: OS, dir: Path, listing: seq<string>) {
    GoodFiles(os) && os.fds == map[] && IsDir(os.tree, dir) && os.tree[dir].listing == listing
  }

  lemma GrownKeepsFile(t: Tree, p: Path, node: Node, q: Path)
    requires p != [] && p !in t && IsDir(t, Parent(p))
    ensures IsFile(t, q) ==> IsFile(Grown(t, p, node), q)
    ensures p in Grown(t, p, node) && Grown(t, p, node)[p] == node
  {
  }

  /** One name more in a directory; another directory lists what it did. */
  lemma AddName(os: OS, dir: Path, l: seq<string>, n: string, isDir: bool, other: Path) returns (os': OS)
    requires Lists(os, dir, l) && n !in l && SimpleName(n)
    ensures Lists(os', dir, l + [n]) && (if isDir then Lists(os', dir + [n], []) else IsFile(os'.tree, dir + [n]))
    ensures other != dir && IsDir(os.tree, other) ==> Lists(os', other, os.tree[other].listing)
    ensures IsFile(os.tree, other) ==> IsFile(os'.tree, other)
  {
    hide SimpleName, Grown, Once, Downward, Upward;
    var p := dir + [n];
    assert Parent(p) == dir && Last(p) == n;
    ListedExactly(os.tree, dir, n);
    var node := if isDir then Dir(os.nextIno, []) else File(os.nextIno);
    GrownListing(os.tree, p, node, dir);
    GrownListing(os.tree, p, node, p);
    GrownListing(os.tree, p, node, other);
    GrownKeepsFile(os.tree, p, node, other);
    if isDir {
      os' := MakeDir(os, p);
      MakeDirIsGood(os, p);
    } else {
      os' := NewFile(os, p);
      NewFileIsGood(os, p);
    }
  }

  // ----- A descriptor is lost -----

  /** A bucket in which other names have taken every alias from the plain one to ~n. */
  ghost function FullBucket(name: string, n: nat): Bucket
    requires n < 10000
  {
    (if n == 0 then map[] else FullBucket(name, n - 1))[Candidate(name, n) := "f" + Digits(n)]
  }

  lemma {:induction false} FullBucketHolds(name: string, n: nat, k: nat)
    requires k <= n < 10000
    ensures Candidate(name, k) in FullBucket(name, n)
  {
    hide Candidate;
    if k < n { FullBucketHolds(name, n - 1, k); }
  }

  lemma {:induction false} FullBucketNumber(name: string, n: nat, a: string) returns (k: nat)
    requires n < 10000 && a in FullBucket(name, n)
    ensures k <= n && a == Candidate(name, k) && FullBucket(name, n)[a] == "f" + Digits(k)
  {
    hide Candidate, Digits;
    if a == Candidate(name, n) {
      k := n;
    } else {
      k := FullBucketNumber(name, n - 1, a);
    }
  }

  lemma {:induction false} LowerOf(s: string)
    requires forall c :: c in s ==> !('A' <= c <= 'Z')
    ensures Lower(s) == s
  {
    if s != [] {
      var n := |s| - 1;
      forall c | c in s[..n] ensures !('A' <= c <= 'Z') { assert c in s; }
      LowerOf(s[..n]);
      assert s[n] in s;
    }
  }

  lemma FileNumber(k: nat)
    ensures SimpleName("f" + Digits(k)) && Lower("f" + Digits(k)) == "f" + Digits(k)
    ensures k < 10000 ==> |"f" + Digits(k)| <= 5
  {
    hide Digits;
    LowerOf("f" + Digits(k));
  }

  lemma SameNumber(i: nat, j: nat)
    requires SameName("f" + Digits(i), "f" + Digits(j))
    ensures i == j
  {
    FileNumber(i);
    FileNumber(j);
    hide Digits, Lower;
    assert ("f" + Digits(i))[1..] == Digits(i) && ("f" + Digits(j))[1..] == Digits(j);
    DigitsInjective(i, j);
  }

  lemma FullBucketIsGood(name: string, n: nat)
    requires n < 10000
    ensures GoodBucket(FullBucket(name, n))
  {
    hide Candidate, Digits, SameName, ValidAlias, SimpleName;
    var b := FullBucket(name, n);
    forall x, y | x in b && y in b && SameName(b[x], b[y])
      ensures x == y
    {
      var i := FullBucketNumber(name, n, x);
      var j := FullBucketNumber(name, n, y);
      SameNumber(i, j);
    }
    forall a | a in b
      ensures ValidAlias(a) && SimpleName(b[a])
    {
      var k := FullBucketNumber(name, n, a);
      CandidateIsValid(name, k);
      FileNumber(k);
    }
  }

  /** Whoever is not called f and a number gets no alias from it. */
  lemma FullBucketRaises(name: string)
    requires SimpleName(name) && |name| > 5
    ensures AliasIn(FullBucket(name, LAST_SUFFIX), name).1.None?
  {
    hide Candidate, Digits, SimpleName, GoodBucket;
    var b := FullBucket(name, LAST_SUFFIX);
    FullBucketIsGood(name, LAST_SUFFIX);
    forall a | a in b
      ensures !SameName(b[a], name)
    {
      var k := FullBucketNumber(name, LAST_SUFFIX, a);
      FileNumber(k);
    }
    forall k: nat | k <= LAST_SUFFIX
      ensures Candidate(name, k) in b
    {
      FullBucketHolds(name, LAST_SUFFIX, k);
    }
    hide FullBucket, SameName;
    AliasInVerdict(b, name);
  }

  const LONG := "LONGNAMEX"

  lemma LongIsPlain()
    ensures Plain(LONG) && NoLowerCase(LONG) && SimpleName(LONG)
  {
  }

  lemma DotInside(base: string, ext: string)
    ensures ext != [] ==> '.' in Join83(base, ext)
  {
    if ext != [] { assert Join83(base, ext)[|base|] == '.'; }
  }

  lemma LongIsNoAlias()
    ensures !ValidAlias(LONG)
  {
    if ValidAlias(LONG) {
      var base, ext :| ValidParts(base, ext) && LONG == Join83(base, ext);
      DotInside(base, ext);
    }
  }

  /** In an empty root a name that is no alias in the map is taken as it is. */
  lemma NewNameResolves(s: Server, p: seq<byte>, lead: byte, name: string)
    requires Lists(s.os, [], []) && Plain(name) && NoLowerCase(name)
    requires name !in BucketOf(s.names.data, []) && p == [lead] + Fcb.Ascii(name) + [0]
    ensures |p| >= 2 && Locate(s, p) == Some([name])
  {
    hide BucketOf, Resolve, DecodeAscii, UntilNul, GoodFiles;
    assert p[1..] == Fcb.Ascii(name) + [0] + [];
    TextDecodes(name, []);
    NameResolves(s.os.tree, s.names.data, name);
    UpperOf(name);
    RealNameChooses(s.os.tree, s.names.data, [], name);
    assert DosPath(p) == name;
    assert RealName(s.os.tree, s.names.data, [], name) == name;
    assert Append([], name) == [name];
  }

  /** An empty root that has run out of aliases for a name of nine letters, and the CREATE of that name. */
  lemma LostDescriptor(z: Zone) returns (s: Server, p: seq<byte>)
    ensures Good(s) && Balanced(s) && RunsOut(s, p)
    ensures var (s', r) := Create(s, p); Good(s') && !Balanced(s') && r.status == ERR_IO && s'.slots == s.slots
  {
    hide FullBucket, GoodBucket, SimpleName, Plain, NoLowerCase, ValidAlias, Fcb.Ascii, Locate, AliasIn;
    var b, names := FullBucket(LONG, LAST_SUFFIX), map[[] := FullBucket(LONG, LAST_SUFFIX)];
    LongIsPlain();
    LongIsNoAlias();
    s, p := Started(EmptyRoot(z), names), [1] + Fcb.Ascii(LONG) + [0];
    FullBucketIsGood(LONG, LAST_SUFFIX);
    FullBucketRaises(LONG);
    NotInGoodBucket(b, LONG);
    EmptyRootIsGood(z);
    StartIsGood(s.os, names);
    NewNameResolves(s, p, 1, LONG);
    assert RunsOut(s, p);
    CreateVerdict(s, p);
    RaisingCreate(s, p);
  }

  lemma NotInGoodBucket(b: Bucket, a: string)
    requires GoodBucket(b) && !ValidAlias(a)
    ensures a !in b
  {
  }

  lemma RaisingCreate(s: Server, p: seq<byte>)
    requires RunsOut(s, p)
    ensures Create(s, p).1.status == ERR_IO && Create(s, p).0.slots == s.slots
  {
    hide Locate, OpenForWrite, AliasFor, Step;
  }

  // ----- A renamed directory's alias is lost, or found to be another's -----

  const LONG_FILE := "longfilename"

  /** A directory d with two files in it. */
  ghost predicate TwoFiles(os: OS) { Lists(os, [], ["d"]) && Lists(os, ["d"], [LONG_FILE, "other"]) }

  lemma BuildTwoFiles(z: Zone) returns (os: OS)
    ensures TwoFiles(os) && os.fds == map[] && GoodFiles(os)
  {
    hide GoodFiles;
    EmptyRootIsGood(z);
    os := AddName(EmptyRoot(z), [], [], "d", true, ["d"]);
    assert [] + ["d"] == ["d"];
    os := AddName(os, ["d"], [], LONG_FILE, false, []);
    os := AddName(os, ["d"], [] + [LONG_FILE], "other", false, []);
    assert [] + [LONG_FILE] + ["other"] == [LONG_FILE, "other"];
  }

  /** RENAME "D" to "E". */
  function RenameDToE(): seq<byte> { [0x44, 0, 0x45, 0] }

  lemma RenamesDToE(s: Server)
    requires TwoFiles(s.os) && BucketOf(s.names.data, []) == map[]
    ensures AfterNul(RenameDToE()).Some?
    ensures SourceOf(s, RenameDToE()) == Some(["d"]) && TargetOf(s, RenameDToE()) == Some(["E"])
  {
    hide BucketOf, Resolve, DecodeAscii, UntilNul, AfterNul, TwoFiles;
    assert Fcb.Ascii("D") == [0x44] && Fcb.Ascii("E") == [0x45];
    assert RenameDToE() == Fcb.Ascii("D") + [0] + [0x45, 0] && [0x45, 0] == Fcb.Ascii("E") + [0] + [];
    TextDecodes("D", [0x45, 0]);
    TextDecodes("E", []);
    NameResolves(s.os.tree, s.names.data, "D");
    NameResolves(s.os.tree, s.names.data, "E");
    DAndE(s);
  }

  lemma DAndE(s: Server)
    requires TwoFiles(s.os) && BucketOf(s.names.data, []) == map[]
    ensures Append([], RealName(s.os.tree, s.names.data, [], "D")) == ["d"]
    ensures Append([], RealName(s.os.tree, s.names.data, [], "E")) == ["E"]
  {
    RealNameChooses(s.os.tree, s.names.data, [], "D");
    RealNameChooses(s.os.tree, s.names.data, [], "E");
    UpperOf("D");
    UpperOf("E");
    assert Upper("d") == Upper("d"[..0]) + [UpperChar('d')] == "D";
    hide BucketOf, RealName, Upper;
    assert ["d"][1..] == [];
  }

  lemma RenameSucceeds(s: Server)
    requires Good(s) && TwoFiles(s.os) && BucketOf(s.names.data, []) == map[]
    ensures Rename(s, RenameDToE()).1.status == STATUS_OK
  {
    hide Good, Resolve, DecodeAscii, AfterNul, UntilNul, TwoFiles, AliasFor, RemoveAlias, Transplanted, BucketOf,
         CanMove, WellFormed;
    RenamesDToE(s);
    WellFormedMap(s);
    SmallBucketsNeverRaise(s.names.data, "E", []);
    CanMoveDToE(s.os);
    NothingToForget(s.names.data, "d", []);
    NotEmpty();
  }

  lemma NotEmpty()
    ensures var p := RenameDToE();
            AfterNul(p).Some? && UntilNul(p) != [] && UntilNul(AfterNul(p).value) != []
  {
    assert RenameDToE()[1..][1..] == [0x45, 0];
  }

  lemma CanMoveDToE(os: OS)
    requires TwoFiles(os)
    ensures CanMove(os.tree, ["d"], ["E"]) && ["d"] in os.tree && ["E"] !in os.tree && [] in os.tree
    ensures Last(["d"]) == "d" && Last(["E"]) == "E" && Parent(["d"]) == Parent(["E"]) == []
  {
    assert [] + ["E"] == ["E"];
    ListedExactly(os.tree, [], "E");
  }

  lemma NothingToForget(data: NameData, name: string, dir: Path)
    requires BucketOf(data, dir) == map[]
    ensures RemoveAlias(data, name, dir) == data
  {
  }

  lemma WellFormedMap(s: Server)
    requires Good(s)
    ensures WellFormed(s.names.data)
  {
    hide WellFormed, GoodFiles, Linked, GoodSearches;
  }

  const ALIAS := "LONGFILE"

  /** The map after d has been listed, and with or without a bucket that some earlier E has left behind. */
  function Aliases(there: Bucket): NameData {
    map[["d"] := map[ALIAS := LONG_FILE, "OTHER" := "other"], ["E"] := there]
  }

  lemma AliasesAreGood(there: Bucket)
    requires there == map[] || there == map[ALIAS := "other"]
    ensures WellFormed(Aliases(there)) && BucketOf(Aliases(there), []) == map[]
  {
    hide ValidAlias, SimpleName, SameName;
    AliasIsValid(ALIAS);
    AliasIsValid("OTHER");
    NamesDiffer();
  }

  lemma AliasIsValid(a: string)
    requires 1 <= |a| <= 8 && AllLegal(a)
    ensures ValidAlias(a)
  {
    assert ValidParts(a, []) && a == Join83(a, []);
  }

  lemma NamesDiffer()
    ensures SimpleName(LONG_FILE) && SimpleName("other") && !SameName(LONG_FILE, "other")
    ensures !SameName("other", LONG_FILE)
  {
    assert |Lower(LONG_FILE)| == 12 && |Lower("other")| == 5;
    hide Lower;
  }

  lemma NoneIsCalledSo(a: string)
    requires a == ALIAS
    ensures FirstMatch([LONG_FILE, "other"], a).None? && !Shadowed([LONG_FILE, "other"], a)
  {
    assert |Upper(LONG_FILE)| == 12 && |Upper("other")| == 5 && |Upper(a)| == |a| == 8;
    hide Upper;
    FirstMatchVerdict([LONG_FILE, "other"], a);
  }

  /**
   * The alias of a file leads to it; after the directory has been renamed it leads nowhere, or to another file
   * where an earlier directory of the new name has left that alias behind. The file is there all the same.
   */
  lemma LostAlias(z: Zone, there: Bucket) returns (s: Server, p: seq<byte>)
    requires there == map[] || there == map[ALIAS := "other"]
    ensures Good(s) && Rename(s, p).1.status == STATUS_OK && ["d", LONG_FILE] in s.os.tree
    ensures RealName(s.os.tree, s.names.data, ["d"], ALIAS) == LONG_FILE
    ensures var s' := Rename(s, p).0;
            var found := RealName(s'.os.tree, s'.names.data, ["E"], ALIAS);
            && ["E", LONG_FILE] in s'.os.tree && found != LONG_FILE
            && (["E", found] in s'.os.tree <==> there != map[])
            && (there != map[] ==> found == "other")
  {
    hide Good, GoodFiles, TwoFiles, Rename, SourceOf, TargetOf, AfterNul, RealName, FirstMatch, Shadowed, WellFormed;
    var os := BuildTwoFiles(z);
    s, p := Started(os, Aliases(there)), RenameDToE();
    AliasesAreGood(there);
    StartIsGood(os, Aliases(there));
    RenamesDToE(s);
    RenameSucceeds(s);
    NoneIsCalledSo(ALIAS);
    InTwoFiles(os);
    RenamedAliasVerdict(s, p, ALIAS);
    ghost var found := RealName(Rename(s, p).0.os.tree, Rename(s, p).0.names.data, ["E"], ALIAS);
    assert ["E"] + [LONG_FILE] == ["E", LONG_FILE] && ["d"] + [LONG_FILE] == ["d", LONG_FILE];
    assert ["E"] + [found] == ["E", found] && "other" in [LONG_FILE, "other"] && LONG_FILE != "other";
  }

  lemma InTwoFiles(os: OS)
    requires TwoFiles(os)
    ensures ["d", LONG_FILE] in os.tree && IsDir(os.tree, ["d"]) && os.tree[["d"]].listing == [LONG_FILE, "other"]
  {
    assert ["d"] + [LONG_FILE] == ["d", LONG_FILE];
    ListedExactly(os.tree, ["d"], LONG_FILE);
  }

  // ----- A deleted path is still found -----

  /** DELETE "A" in a root with a and A deletes a, and the same path then leads to A. */
  lemma DeletedIsFound(z: Zone) returns (s: Server, p: seq<byte>)
    ensures Good(s) && Delete(s, p).1.status == STATUS_OK && Locate(s, p) == Some(["a"]) && |p| >= 2
    ensures GetAttr(Delete(s, p).0, p).1.status != ERR_NOT_FOUND
  {
    hide Good, GoodFiles, Removed, Delete, GetAttr, DosPath, Components;
    EmptyRootIsGood(z);
    var os := AddName(EmptyRoot(z), [], [], "a", false, []);
    os := AddName(os, [], [] + ["a"], "A", false, [] + ["a"]);
    assert [] + ["a"] + ["A"] == ["a", "A"] && [] + ["a"] == ["a"];
    s, p := Started(os, map[]), [0, 0x41, 0];
    StartIsGood(os, map[]);
    FindsA(s, p);
    DeletesA(s, p);
    assert Parent(["a"]) == [] && Last(["a"]) == "a";
    assert "A" in os.tree[[]].listing && ShadowedBeside(os.tree[[]].listing, "a", "A");
    DeleteVerdict(s, p, p);
  }

  lemma FindsA(s: Server, p: seq<byte>)
    requires Lists(s.os, [], ["a", "A"]) && s.names.data == map[] && p == [0, 0x41, 0]
    ensures Locate(s, p) == Some(["a"]) && LastComponent(Components(DosPath(p))) == "A"
  {
    hide GoodFiles, Components, DecodeAscii, UntilNul, Resolve, RealName, Upper, BucketOf;
    assert Fcb.Ascii("A") == [0x41] && p[1..] == Fcb.Ascii("A") + [0] + [];
    TextDecodes("A", []);
    OneComponent("A");
    NameResolves(s.os.tree, s.names.data, "A");
    RealNameChooses(s.os.tree, s.names.data, [], "A");
    UpperOf("A");
    UpperAt("a", 0);
    NoBucket(s.names.data);
    assert DosPath(p) == "A" && Upper("a") == "A" && ["a", "A"][0] == "a";
    assert RealName(s.os.tree, s.names.data, [], "A") == "a" && Append([], "a") == ["a"];
  }

  lemma NoBucket(data: NameData)
    ensures data == map[] ==> BucketOf(data, []) == map[]
  {
  }

  lemma DeletesA(s: Server, p: seq<byte>)
    requires |p| >= 2 && Lists(s.os, [], ["a", "A"]) && Locate(s, p) == Some(["a"]) && IsFile(s.os.tree, ["a"])
    ensures Delete(s, p).1.status == STATUS_OK
  {
    hide GoodFiles, Locate, Pruned, Step, SavedIfDirty;
    assert Parent(["a"]) == [];
  }

  // ----- A slot is lost -----

  /** A root with one file of 4 GiB in it. */
  ghost predicate HugeFile(os: OS) {
    && Lists(os, [], ["a"]) && IsFile(os.tree, ["a"])
    && os.tree[["a"]].ino in os.inodes && |os.inodes[os.tree[["a"]].ino]| == U32_LIMIT
  }

  lemma BuildHugeFile(z: Zone) returns (os: OS)
    ensures HugeFile(os)
  {
    EmptyRootIsGood(z);
    os := AddName(EmptyRoot(z), [], [], "a", false, []);
    assert [] + ["a"] == ["a"];
    hide GoodTree;
    var ino := os.tree[["a"]].ino;
    os := os.(inodes := os.inodes[ino := seq(U32_LIMIT, i => 0)]);
  }

  /** LIST_DIR of the root. */
  function ListRoot(): seq<byte> { [0, 0] }

  lemma FindsRoot(s: Server)
    ensures Locate(s, ListRoot()) == Some([])
  {
    assert ListRoot()[1..] == [0];
    assert DosPath(ListRoot()) == "";
    assert Components("") == [];
  }

  lemma HugeListing(os: OS)
    requires HugeFile(os)
    ensures var l := ListingOf(os, []);
            |l| == 1 && l[0].name == "a" && !l[0].isDir && l[0].st.size == U32_LIMIT
  {
    hide GoodFiles, StampsAt;
    assert os.tree[[]].listing == ["a"] && [] + ["a"] == ["a"];
    var names := SortByUpper(["a"]);
    assert names == ["a"];
  }

  lemma ScanOne(data: NameData, dir: Path, e: Listed)
    requires ScanDir(data, dir, [e]).1.Some? && e.name != NAMEMAP_FILE
    ensures var entries := ScanDir(data, dir, [e]).1.value;
            |entries| == 1 && entries[0].st == e.st && entries[0].isDir == e.isDir
  {
    hide AliasFor;
    assert [e][..0] == [];
  }

  lemma HugeSnapshot(s: Server)
    requires Good(s) && HugeFile(s.os) && s.names.data == map[]
    ensures SnapshotOf(s, ListRoot()).Some? && !FirstPacks(SnapshotOf(s, ListRoot()).value)
  {
    hide Good, GoodFiles, Locate, ScanDir, ListingOf;
    FindsRoot(s);
    GoodHasTree(s);
    WellFormedMap(s);
    NoBucket(s.names.data);
    assert |BucketOf(s.names.data, [])| == 0;
    SmallDirectoriesList(s, ListRoot());
    HugeListing(s.os);
    var listing := ListingOf(s.os, []);
    assert listing == [listing[0]];
    ScanOne(s.names.data, [], listing[0]);
    assert !Packs(SnapshotOf(s, ListRoot()).value[0]);
  }

  /** LIST_DIR of a root with a file of 4 GiB fails and leaves a slot taken, although none was before. */
  lemma LostSlot(z: Zone) returns (s: Server, p: seq<byte>)
    ensures Good(s) && Occupied(s.slots) == {}
    ensures var (s', r) := ListDirBegin(s, p); r.status == ERR_IO && Occupied(s'.slots) == {0}
  {
    hide Good, GoodFiles, ListDirBegin, SnapshotOf, FirstPacks;
    var os := BuildHugeFile(z);
    s, p := Started(os, map[]), ListRoot();
    StartIsGood(os, map[]);
    HugeSnapshot(s);
    ListDirVerdict(s, p);
    PutOccupies(s.slots, 0, DirState(Locate(s, p).value, SnapshotOf(s, p).value, 0));
  }

  // ----- A file that is created and cannot be written -----

  const UTC := Zone(u => 0, t => t)

  lemma StartOf1970()
    ensures ClockPacks(EmptyRoot(UTC))
  {
    hide LocalOf, Seconds;
    var l := Local(1970, 1, 1, 0, 0, 0);
    StartOfYear(l);
    LocalOfSeconds(l);
  }

  lemma StartOfYear(l: Local)
    requires l.year == 1970 && l.month == l.day == 1 && l.hour == l.minute == l.second == 0
    ensures Seconds(l) == 0
  {
    assert DaysBefore(l.year) == 0 by { hide DaysBeforeMonth, Seconds, DayOf, IsLocal; }
    hide DaysBefore;
    assert DayOf(l) == 0 && SecondOfDay(l) == 0;
    hide DayOf, SecondOfDay;
  }

  const NEW := "NEW"

  lemma NewIsPlain()
    ensures Plain(NEW) && NoLowerCase(NEW) && SimpleName(NEW) && Fcb.Ascii(NEW) == [0x4E, 0x45, 0x57]
  {
  }

  /**
   * AL_SPOPNFIL of a file that is missing in an empty root, with the action code that fails for an existing file
   * and creates a missing one, and an SFT in mode 0: it is created, so the SFT can neither read nor write it.
   */
  lemma CreatedUnusable() returns (s: Server, fn1: seq<byte>)
    ensures Good(s) && Named(fn1) && Outcome(s, PathPayload(0, fn1), MODE_READ_ONLY, 0, 1) == Some(2)
  {
    hide Good, SimpleName, Plain, NoLowerCase, Fcb.Ascii, Locate, AliasFor, StampsAt, BucketOf, ClockPacks, Occupied,
         PathPayload;
    NewIsPlain();
    s, fn1 := Started(EmptyRoot(UTC), map[]), [0x43, 0x3A, 0x4E, 0x45, 0x57];
    EmptyRootIsGood(UTC);
    StartIsGood(s.os, map[]);
    StartOf1970();
    NoBucket(map[]);
    var q := PathPayload(0, fn1);
    PayloadOf(fn1);
    NewNameResolves(s, q, 0, NEW);
    assert |BucketOf(map[], [])| == 0 && s.names.data == map[];
    SmallBucketsNeverRaise(map[], NEW, []);
    assert Parent([NEW]) == [] && Last([NEW]) == NEW;
    NothingTaken();
  }

  lemma PayloadOf(fn1: seq<byte>)
    requires fn1 == [0x43, 0x3A, 0x4E, 0x45, 0x57]
    ensures PathPayload(0, fn1) == [0] + [0x4E, 0x45, 0x57] + [0]
  {
  }

  lemma NothingTaken()
    ensures Occupied(EMPTY_SLOTS) == {}
  {
  }
}
