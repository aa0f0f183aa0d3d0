/** What a listing says about a directory, and which directory a search lists. */
module Directories {
  import opened Bytes
  import opened Options
  import opened Frame
  import opened Names
  import opened NameMaps
  import opened NameMapRuns
  import opened Os
  import opened Clock
  import opened Fcb
  import opened PathJail
  import opened Files
  import opened FsOps
  import opened ServerRuns
  import opened CreatedPaths
  import opened Opening
  import opened OpenArms
  import opened Listings
  import opened FindFiles
  import opened Texts

  // ----- A scan tells what is there -----

  /** Kind, size and stamps are those of what is at the path. */
  ghost predicate Tells(os: OS, p: NameMaps.Path, st: Stat, isDir: bool) {
    && p in os.tree && (isDir <==> IsDir(os.tree, p))
    && (IsFile(os.tree, p) ==> os.tree[p].ino in os.inodes && st.size == |os.inodes[os.tree[p].ino]|)
    && (st.date, st.time) == StampsAt(os.zone, ModifiedAt(os, os.tree[p].ino))
  }

  lemma ListingTells(os: OS, dir: NameMaps.Path, i: nat)
    requires GoodFiles(os) && IsDir(os.tree, dir) && i < |ListingOf(os, dir)|
    ensures var e := ListingOf(os, dir)[i];
            && e.name == SortByUpper(os.tree[dir].listing)[i] && e.name in os.tree[dir].listing
            && Tells(os, dir + [e.name], e.st, e.isDir)
  {
    hide StampsAt, SortByUpper, Once, Upward;
    ListsOnce(os.tree, dir);
    SortKeepsDistinct(os.tree[dir].listing);
  }

  /** The names of a listing without the map's own file, in order. */
  function Seen(names: seq<string>): seq<string> {
    if names == [] then []
    else
      var n := |names| - 1;
      Seen(names[..n]) + (if names[n] == NAMEMAP_FILE then [] else [names[n]])
  }

  lemma {:induction false} SeenVerdict(names: seq<string>)
    requires Distinct(names) && SortedByUpper(names)
    ensures Distinct(Seen(names)) && SortedByUpper(Seen(names))
    ensures forall n :: n in Seen(names) <==> n in names && n != NAMEMAP_FILE
  {
    hide LexLeq, Upper;
    if names != [] {
      var k := |names| - 1;
      var init, last := names[..k], names[k];
      SeenVerdict(init);
      var s := Seen(init);
      assert last !in init;
      forall i | 0 <= i < |s|
        ensures LexLeq(Upper(s[i]), Upper(last))
      {
        assert s[i] in init;
      }
      assert names == init + [last];
    }
  }

  lemma {:induction false} VisibleIsSeen(listing: seq<Listed>, names: seq<string>)
    requires |names| == |listing| && forall i :: 0 <= i < |names| ==> names[i] == listing[i].name
    ensures |Visible(listing)| == |Seen(names)|
    ensures forall i :: 0 <= i < |Seen(names)| ==> Visible(listing)[i].name == Seen(names)[i]
  {
    if names != [] { VisibleIsSeen(listing[..|names| - 1], names[..|names| - 1]); }
  }

  lemma {:induction false} VisibleIsListed(listing: seq<Listed>, e: Listed)
    requires e in Visible(listing)
    ensures e in listing
  {
    if listing != [] {
      var n := |listing| - 1;
      if e in Visible(listing[..n]) { VisibleIsListed(listing[..n], e); }
    }
  }

  /** What LIST_DIR reports of a directory: the names to see, sorted, and of each what it is. */
  ghost predicate Reports(os: OS, dir: NameMaps.Path, entries: seq<DirEntry>)
    requires IsDir(os.tree, dir)
  {
    var names := Seen(SortByUpper(os.tree[dir].listing));
    && |entries| == |names|
    && forall i :: 0 <= i < |entries| ==>
         entries[i].name == names[i] && Tells(os, dir + [names[i]], entries[i].st, entries[i].isDir)
  }

  /**
   * A scan reports every entry of the directory but the map's own file, each once, in the order of their
   * upper-case names, with its kind, its size and its stamps.
   */
  lemma ScanReports(s: FsOps.Server, dir: NameMaps.Path, entries: seq<DirEntry>)
    requires Good(s) && IsDir(s.os.tree, dir)
    requires ScanDir(s.names.data, dir, ListingOf(s.os, dir)).1 == Some(entries)
    ensures Reports(s.os, dir, entries)
    ensures var names := Seen(SortByUpper(s.os.tree[dir].listing));
            && Distinct(names) && SortedByUpper(names)
            && forall n :: n in names <==> n in s.os.tree[dir].listing && n != NAMEMAP_FILE
  {
    var l := s.os.tree[dir].listing;
    GoodParts(s);
    GoodHasTree(s);
    ListsOnce(s.os.tree, dir);
    SortKeepsDistinct(l);
    SortVerdict(l, "");
    SeenVerdict(SortByUpper(l));
    ListingNames(s.os, dir);
    ScanVerdict(s.names.data, dir, ListingOf(s.os, dir));
    EntriesReport(s.os, dir, entries, BucketOf(ScanDir(s.names.data, dir, ListingOf(s.os, dir)).0, dir));
    hide *;
  }

  lemma ListsOnce(t: Tree, dir: NameMaps.Path)
    requires GoodTree(t) && IsDir(t, dir)
    ensures Distinct(t[dir].listing)
  {
    hide Distinct, Upward, Downward;
  }

  lemma EntriesReport(os: OS, dir: NameMaps.Path, entries: seq<DirEntry>, b: Bucket)
    requires GoodFiles(os) && IsDir(os.tree, dir) && EntriesFor(entries, ListingOf(os, dir), b)
    ensures Reports(os, dir, entries)
  {
    hide GoodFiles, SortByUpper, StampsAt, Tells, Seen, Visible, Denotes, ValidAlias;
    var listing, names := ListingOf(os, dir), SortByUpper(os.tree[dir].listing);
    var v := Visible(listing);
    forall i | 0 <= i < |names|
      ensures names[i] == listing[i].name
    {
      ListingTells(os, dir, i);
    }
    VisibleIsSeen(listing, names);
    forall i | 0 <= i < |entries|
      ensures entries[i].name == Seen(names)[i] && Tells(os, dir + [Seen(names)[i]], entries[i].st, entries[i].isDir)
    {
      assert EntryFor(entries[i], v[i], b);
      VisibleIsListed(listing, v[i]);
      var j :| 0 <= j < |listing| && listing[j] == v[i];
      ListingTells(os, dir, j);
    }
  }

  // ----- A search delivers what is there -----

  /** The found-file block of what is at p, under the alias a. */
  ghost predicate Shows(os: OS, p: NameMaps.Path, a: string, f: Found) {
    && p in os.tree
    && f.fname == FcbOfField(NameField(a)) && f.attr == (if IsDir(os.tree, p) then 0x10 else 0x20)
    && (f.date, f.time) == StampsAt(os.zone, ModifiedAt(os, os.tree[p].ino))
    && (IsDir(os.tree, p) ==> f.size == 0)
    && (IsFile(os.tree, p) ==> os.tree[p].ino in os.inodes && f.size == |os.inodes[os.tree[p].ino]|)
  }

  lemma BlockShows(os: OS, p: NameMaps.Path, e: DirEntry)
    requires Tells(os, p, e.st, e.isDir)
    ensures Shows(os, p, e.alias, FoundOf(e))
  {
    hide StampsAt, FcbOfField, NameField;
  }

  lemma {:induction false} BlocksAre(entries: seq<DirEntry>, q: Query)
    requires |q.tmpl| == 11
    ensures forall f :: f in Blocks(Filter(entries, q)) ==> exists e :: e in entries && Passes(e, q) && f == FoundOf(e)
    ensures forall e :: e in entries && Passes(e, q) ==> FoundOf(e) in Blocks(Filter(entries, q))
  {
    hide Passes, FoundOf;
    if entries != [] {
      BlocksAre(entries[1..], q);
      var e, rest := entries[0], Filter(entries[1..], q);
      assert entries == [e] + entries[1..];
      if Passes(e, q) {
        assert ([e] + rest)[1..] == rest;
      } else {
        assert [] + rest == rest;
      }
    }
  }

  /** A name in the directory that the search is after, under the alias it has once it has been listed. */
  ghost predicate Wanted(s: FsOps.Server, dir: NameMaps.Path, q: Query, n: string, a: string)
    requires IsDir(s.os.tree, dir) && |q.tmpl| == 11
  {
    && n in s.os.tree[dir].listing && n != NAMEMAP_FILE
    && Denotes(BucketOf(ScanDir(s.names.data, dir, ListingOf(s.os, dir)).0, dir), a, n)
    && (IsDir(s.os.tree, dir + [n]) ==> q.attr / 16 % 2 == 1)
    && Matches(q.tmpl, FcbOfField(NameField(a)))
  }

  lemma EntryIsWanted(s: FsOps.Server, dir: NameMaps.Path, q: Query, e: DirEntry)
    requires IsDir(s.os.tree, dir) && |q.tmpl| == 11 && e.name in s.os.tree[dir].listing && e.name != NAMEMAP_FILE
    requires Denotes(BucketOf(ScanDir(s.names.data, dir, ListingOf(s.os, dir)).0, dir), e.alias, e.name)
    requires Tells(s.os, dir + [e.name], e.st, e.isDir)
    ensures Wanted(s, dir, q, e.name, e.alias) <==> Passes(e, q)
  {
    hide ScanDir, ListingOf, StampsAt, FcbOfField, NameField, Matches, BucketOf, SameName;
  }

  /** What LIST_DIR reports of n, and the alias it goes out under. */
  lemma EntryOf(s: FsOps.Server, dir: NameMaps.Path, entries: seq<DirEntry>, e: DirEntry)
    requires Good(s) && IsDir(s.os.tree, dir) && e in entries
    requires ScanDir(s.names.data, dir, ListingOf(s.os, dir)).1 == Some(entries)
    ensures e.name in s.os.tree[dir].listing && e.name != NAMEMAP_FILE
    ensures Denotes(BucketOf(ScanDir(s.names.data, dir, ListingOf(s.os, dir)).0, dir), e.alias, e.name)
    ensures Tells(s.os, dir + [e.name], e.st, e.isDir)
  {
    hide Good, ListingOf, ScanDir, BucketOf, SortByUpper, Tells, Seen, Visible, SameName, LexLeq, WellFormed;
    ScanReports(s, dir, entries);
    ScanIsGood(s, dir);
    var names, b := Seen(SortByUpper(s.os.tree[dir].listing)),
                    BucketOf(ScanDir(s.names.data, dir, ListingOf(s.os, dir)).0, dir);
    var i :| 0 <= i < |entries| && entries[i] == e;
    assert entries[i].name == names[i] && names[i] in names;
    assert EntryFor(entries[i], Visible(ListingOf(s.os, dir))[i], b);
  }

  lemma ScanIsGood(s: FsOps.Server, dir: NameMaps.Path)
    requires Good(s) && IsDir(s.os.tree, dir)
    ensures var (data', entries) := ScanDir(s.names.data, dir, ListingOf(s.os, dir));
            && WellFormed(data')
            && (entries.Some? ==> EntriesFor(entries.value, ListingOf(s.os, dir), BucketOf(data', dir)))
  {
    GoodHasTree(s);
    WellFormedNames(s);
    ListingNames(s.os, dir);
    ScanVerdict(s.names.data, dir, ListingOf(s.os, dir));
    hide *;
  }

  /** Every entry has one alias, so what is wanted under some alias is wanted under the one it goes out under. */
  lemma WantedIsReported(s: FsOps.Server, dir: NameMaps.Path, entries: seq<DirEntry>, q: Query, n: string, a: string)
    returns (e: DirEntry)
    requires Good(s) && IsDir(s.os.tree, dir) && |q.tmpl| == 11 && Wanted(s, dir, q, n, a)
    requires ScanDir(s.names.data, dir, ListingOf(s.os, dir)).1 == Some(entries)
    ensures e in entries && e.name == n && e.alias == a
  {
    hide Good, ListingOf, ScanDir, BucketOf, SortByUpper, Tells, Seen, Denotes, Matches, WellFormed;
    ScanReports(s, dir, entries);
    ScanIsGood(s, dir);
    var names := Seen(SortByUpper(s.os.tree[dir].listing));
    assert n in names;
    var i :| 0 <= i < |names| && names[i] == n;
    e := entries[i];
    EntryOf(s, dir, entries, e);
    var data := ScanDir(s.names.data, dir, ListingOf(s.os, dir)).0;
    BucketIsGood(data, dir);
    KnownAliasUnique(BucketOf(data, dir), a, n);
    KnownAliasUnique(BucketOf(data, dir), e.alias, n);
  }

  /** The blocks of a search are those of the names it is after, and no others. */
  ghost predicate Delivers(s: FsOps.Server, dir: NameMaps.Path, q: Query, all: seq<Found>)
    requires IsDir(s.os.tree, dir) && |q.tmpl| == 11
  {
    && (forall f :: f in all ==> exists n, a :: Wanted(s, dir, q, n, a) && Shows(s.os, dir + [n], a, f))
    && (forall n, a :: Wanted(s, dir, q, n, a) ==> exists f :: f in all && Shows(s.os, dir + [n], a, f))
  }

  /**
   * A search over the snapshot of a directory whose entries all pack delivers the names it is after, each with its
   * kind, size and stamps, and nothing else.
   */
  lemma SearchDelivers(s: FsOps.Server, dir: NameMaps.Path, entries: seq<DirEntry>, q: Query)
    requires Good(s) && IsDir(s.os.tree, dir) && |q.tmpl| == 11
    requires ScanDir(s.names.data, dir, ListingOf(s.os, dir)).1 == Some(entries)
    ensures Delivers(s, dir, q, Blocks(Filter(entries, q)))
  {
    hide Good, ListingOf, ScanDir, BucketOf, Wanted, Shows, FoundOf, Passes, Filter, Denotes, Tells;
    var all := Blocks(Filter(entries, q));
    BlocksAre(entries, q);
    forall f | f in all
      ensures exists n, a :: Wanted(s, dir, q, n, a) && Shows(s.os, dir + [n], a, f)
    {
      var e :| e in entries && Passes(e, q) && f == FoundOf(e);
      EntryOf(s, dir, entries, e);
      EntryIsWanted(s, dir, q, e);
      BlockShows(s.os, dir + [e.name], e);
    }
    forall n, a | Wanted(s, dir, q, n, a)
      ensures exists f :: f in all && Shows(s.os, dir + [n], a, f)
    {
      var e := WantedIsReported(s, dir, entries, q, n, a);
      EntryOf(s, dir, entries, e);
      EntryIsWanted(s, dir, q, e);
      BlockShows(s.os, dir + [e.name], e);
      assert FoundOf(e) in all;
    }
  }

  // ----- The directory that a search names -----

  const COLON: byte := 0x3A

  /** "X:", a directory, a backslash and a file name or pattern. */
  function SearchName(drive: byte, dir: seq<byte>, name: seq<byte>): seq<byte> {
    [drive, COLON] + dir + [BACKSLASH] + name
  }

  lemma {:induction false} LastSlashIs(drive: byte, dir: seq<byte>, name: seq<byte>)
    requires BACKSLASH !in name
    ensures LastSlash(SearchName(drive, dir, name)) == |dir| + 2
  {
    var fn1 := SearchName(drive, dir, name);
    if name == [] {
      assert fn1[|fn1| - 1] == BACKSLASH;
    } else {
      var n := |name| - 1;
      assert fn1[|fn1| - 1] == name[n] && name[n] in name;
      assert fn1[..|fn1| - 1] == SearchName(drive, dir, name[..n]);
      LastSlashIs(drive, dir, name[..n]);
    }
  }

  /** The request names everything between the drive and the last backslash, the backslash included. */
  lemma PayloadNamesDirectory(drive: byte, dir: seq<byte>, name: seq<byte>)
    requires BACKSLASH !in name && |dir| < 63
    ensures DirPayload(SearchName(drive, dir, name)) == [0] + dir + [BACKSLASH] + [0]
  {
    hide LastSlash;
    LastSlashIs(drive, dir, name);
    var fn1 := SearchName(drive, dir, name);
    assert fn1[2..|dir| + 3] == dir + [BACKSLASH];
  }

  lemma {:induction false} SplitBeforeSlash(s: string)
    ensures Split(s + "\\") == Split(s) + [[]]
  {
    var t := s + "\\";
    if s == [] {
      assert t[1..] == [] && t[0] == '\\';
    } else {
      assert t[1..] == s[1..] + "\\" && t[0] == s[0];
      SplitBeforeSlash(s[1..]);
    }
  }

  lemma {:induction false} NonEmptyDrops(parts: seq<string>)
    ensures NonEmpty(parts + [[]]) == NonEmpty(parts)
  {
    if parts == [] {
      assert (parts + [[]])[1..] == [];
    } else {
      assert (parts + [[]])[1..] == parts[1..] + [[]];
      NonEmptyDrops(parts[1..]);
    }
  }

  /** A backslash at the end of a path makes no difference. */
  lemma TrailingSlash(s: string)
    requires |s| >= 2 ==> s[1] != ':'
    ensures Components(s + "\\") == Components(s)
  {
    SplitBeforeSlash(s);
    NonEmptyDrops(Split(s));
    assert StripDrive(s + "\\") == s + "\\" && StripDrive(s) == s;
  }

  lemma {:induction false} AliasPathIsText(aliases: seq<string>)
    requires forall a :: a in aliases ==> ValidAlias(a)
    ensures IsText(AliasPath(aliases))
    ensures |AliasPath(aliases)| >= 2 ==> AliasPath(aliases)[1] != ':'
  {
    if aliases != [] {
      var a, rest := aliases[0], AliasPath(aliases[1..]);
      assert a in aliases;
      forall b | b in aliases[1..] ensures ValidAlias(b) { assert b in aliases; }
      AliasPathIsText(aliases[1..]);
      AliasIsText(a);
      AliasIsGoodComponent(a);
      LegalCharsInAlias(a, 0);
      assert AliasPath(aliases) == "\\" + (a + rest);
      forall c | c in AliasPath(aliases) ensures 0 < c as int < 0x80 { assert c == '\\' || c in a || c in rest; }
    }
  }

  lemma AliasIsText(a: string)
    requires ValidAlias(a)
    ensures IsText(a)
  {
    var base, ext :| ValidParts(base, ext) && a == Join83(base, ext);
    forall c | c in a
      ensures 0 < c as int < 0x80
    {
      assert c in base || c == '.' || c in ext;
    }
  }

  lemma ChainIsValid(names: NameData, aliases: seq<string>, p: NameMaps.Path)
    requires WellFormed(names) && AliasChain(names, aliases, p)
    ensures forall a :: a in aliases ==> ValidAlias(a)
  {
    forall a | a in aliases
      ensures ValidAlias(a)
    {
      var i :| 0 <= i < |aliases| && aliases[i] == a;
      assert aliases[i] in BucketOf(names, p[..i]) && GoodBucket(BucketOf(names, p[..i]));
    }
  }

  /**
   * A search in the directory with these aliases lists exactly that directory: its LIST_DIR request finds the
   * snapshot of the real directory, at every depth, wherever the path fits the request.
   */
  lemma SearchFindsDirectory(s: FsOps.Server, drive: byte, aliases: seq<string>, p: NameMaps.Path, name: seq<byte>)
    requires Good(s) && AliasChain(s.names.data, aliases, p) && IsDir(s.os.tree, p)
    requires BACKSLASH !in name && |AliasPath(aliases)| < 63
    ensures var payload := DirPayload(SearchName(drive, Ascii(AliasPath(aliases)), name));
            && |payload| >= 2 && Locate(s, payload) == Some(p)
            && SnapshotOf(s, payload) == ScanDir(s.names.data, p, ListingOf(s.os, p)).1
  {
    hide Good, AliasChain, ScanDir, ListingOf, Walk, GoodComponent, WellFormed, AliasPath, Ascii, DirPayload,
         Components, DosPath, DecodeAscii, UntilNul, SearchName;
    var path := AliasPath(aliases);
    WellFormedNames(s);
    ChainIsValid(s.names.data, aliases, p);
    AliasPathIsText(aliases);
    AliasesResolve(s.os.tree, s.names.data, aliases, p);
    PayloadNamesDirectory(drive, Ascii(path), name);
    AsciiJoins(path, "\\");
    SlashIsText();
    PathIsRead(0, path + "\\", []);
    TrailingSlash(path);
    var payload := [0] + Ascii(path) + [BACKSLASH] + [0];
    assert payload == [0] + Ascii(path + "\\") + [0] + [];
  }

  /** An arm that opens, creates or asks for "X:" and the aliases of a path asks for exactly that path. */
  lemma ArmNamesPath(s: FsOps.Server, lead: byte, drive: byte, aliases: seq<string>, p: NameMaps.Path)
    requires Good(s) && AliasChain(s.names.data, aliases, p)
    ensures var payload := PathPayload(lead, [drive, COLON] + Ascii(AliasPath(aliases)));
            payload != [] && Locate(s, payload) == Some(p)
  {
    hide Good, AliasChain, Walk, GoodComponent, WellFormed, AliasPath, Ascii, Components, DosPath, DecodeAscii,
         UntilNul;
    var path := AliasPath(aliases);
    WellFormedNames(s);
    ChainIsValid(s.names.data, aliases, p);
    AliasPathIsText(aliases);
    AliasesResolve(s.os.tree, s.names.data, aliases, p);
    PathIsRead(lead, path, []);
    assert ([drive, COLON] + Ascii(path))[2..] == Ascii(path);
    assert [lead] + Ascii(path) + [0] + [] == PathPayload(lead, [drive, COLON] + Ascii(path));
  }

  lemma SlashIsText()
    ensures IsText("\\") && Ascii("\\") == [BACKSLASH]
  {
  }

  /**
   * FINDFIRST and FINDNEXT in the directory with these aliases, until one fails: if every entry packs, they have
   * delivered the names in exactly that directory that the search is after, each with its kind, size and stamps.
   */
  lemma SearchVerdict(s: FsOps.Server, drive: byte, aliases: seq<string>, p: NameMaps.Path, name: seq<byte>, q: Query,
                      entries: seq<DirEntry>)
    requires Good(s) && AliasChain(s.names.data, aliases, p) && IsDir(s.os.tree, p) && |q.tmpl| == 11
    requires BACKSLASH !in name && |AliasPath(aliases)| < 63
    requires SnapshotOf(s, DirPayload(SearchName(drive, Ascii(AliasPath(aliases)), name))) == Some(entries)
    requires AllPack(entries, 0, |entries|)
    ensures Delivers(s, p, q, Blocks(Filter(entries[..Reach(entries, 0)], q)))
  {
    hide Good, AliasChain, ScanDir, ListingOf, AliasPath, Ascii, DirPayload, SearchName, SnapshotOf, Filter, Reach,
         AllPack, Delivers, Locate;
    SearchFindsDirectory(s, drive, aliases, p, name);
    ReachVerdict(entries, 0);
    SearchDelivers(s, p, entries, q);
    assert entries[..|entries|] == entries;
  }
}
