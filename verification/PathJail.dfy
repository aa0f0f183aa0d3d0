/** Resolving a DOS path to a real path below the root. */
module PathJail {
  import opened Options
  import opened Names
  import opened NameMaps
  import opened NameMapRuns
  import opened Os

  predicate IsSep(c: char) { c == '/' || c == '\\' }

  function StripDrive(path: string): string {
    if |path| >= 2 && path[1] == ':' then path[2..] else path
  }

  /** path.split on separators, empty parts kept. */
  function Split(s: string): (parts: seq<string>)
    ensures |parts| >= 1
  {
    if s == [] then [[]]
    else
      var rest := Split(s[1..]);
      if IsSep(s[0]) then [[]] + rest else [[s[0]] + rest[0]] + rest[1..]
  }

  function NonEmpty(parts: seq<string>): (r: seq<string>)
    ensures forall c :: c in r ==> c != [] && c in parts
  {
    if parts == [] then []
    else (if parts[0] == [] then [] else [parts[0]]) + NonEmpty(parts[1..])
  }

  function Components(dosPath: string): seq<string> {
    NonEmpty(Split(StripDrive(dosPath)))
  }

  predicate GoodComponent(c: string) {
    c != ".." && forall ch :: ch in c ==> ch as int >= 0x20
  }

  /** The first listed name that is the given one up to case. */
  function FindIcase(t: Tree, dir: Path, nameUpper: string): (r: Option<string>)
    ensures r.Some? ==> IsDir(t, dir) && r.value in t[dir].listing && Upper(r.value) == nameUpper
  {
    if IsDir(t, dir) then FirstMatch(t[dir].listing, nameUpper) else None
  }

  function FirstMatch(listing: seq<string>, nameUpper: string): (r: Option<string>)
    ensures r.Some? ==> r.value in listing && Upper(r.value) == nameUpper
  {
    if listing == [] then None
    else if Upper(listing[0]) == nameUpper then Some(listing[0])
    else FirstMatch(listing[1..], nameUpper)
  }

  /** The real name a component stands for in a directory: alias first, then any case, then itself. */
  function RealName(t: Tree, names: NameData, current: Path, comp: string): string {
    var alias := RealFor(names, Upper(comp), current);
    if alias.Some? then alias.value
    else
      var found := FindIcase(t, current, Upper(comp));
      if found.Some? then found.value else Upper(comp)
  }

  /** current / name, where "." adds nothing. */
  function Append(current: Path, name: string): Path {
    if name == "." then current else current + [name]
  }

  function Walk(t: Tree, names: NameData, comps: seq<string>): Path {
    if comps == [] then []
    else
      var current := Walk(t, names, comps[..|comps| - 1]);
      Append(current, RealName(t, names, current, comps[|comps| - 1]))
  }

  /** None stands for ErrBadPath. Without symlinks realpath changes nothing, so the last check passes. */
  function Resolve(t: Tree, names: NameData, dosPath: string): Option<Path> {
    var comps := Components(dosPath);
    if forall c :: c in comps ==> GoodComponent(c) then Some(Walk(t, names, comps)) else None
  }

  method FindIcaseLoop(t: Tree, dir: Path, nameUpper: string) returns (r: Option<string>)
    ensures r == FindIcase(t, dir, nameUpper)
  {
    if !IsDir(t, dir) { return None; }
    var listing, i := t[dir].listing, 0;
    while i < |listing|
      invariant 0 <= i <= |listing|
      invariant FirstMatch(listing, nameUpper) == FirstMatch(listing[i..], nameUpper)
    {
      if Upper(listing[i]) == nameUpper { return Some(listing[i]); }
      assert listing[i..][1..] == listing[i + 1..];
      i := i + 1;
    }
    return None;
  }

  method RealNameOf(t: Tree, namemap: NameMap, current: Path, comp: string) returns (r: string)
    ensures r == RealName(t, namemap.data, current, comp)
  {
    var realName := namemap.RealForAlias(Upper(comp), current);
    if realName.None? {
      realName := FindIcaseLoop(t, current, Upper(comp));
    }
    r := if realName.Some? then realName.value else Upper(comp);
    UpperTwice(comp);
  }

  method ResolvePath(t: Tree, namemap: NameMap, dosPath: string) returns (r: Option<Path>)
    ensures r == Resolve(t, namemap.data, dosPath)
  {
    hide Components, RealName, GoodComponent;
    var comps := Components(dosPath);
    var i := 0;
    while i < |comps|
      invariant 0 <= i <= |comps|
      invariant forall k :: 0 <= k < i ==> GoodComponent(comps[k])
    {
      if !GoodComponent(comps[i]) {
        assert comps[i] in comps;
        return None;
      }
      i := i + 1;
    }
    var current: Path := [];
    i := 0;
    while i < |comps|
      invariant 0 <= i <= |comps|
      invariant current == Walk(t, namemap.data, comps[..i])
    {
      assert comps[..i + 1][..i] == comps[..i];
      var name := RealNameOf(t, namemap, current, comps[i]);
      current := Append(current, name);
      i := i + 1;
    }
    assert comps[..i] == comps;
    return Some(current);
  }

  lemma UpperTwice(s: string)
    ensures Upper(Upper(s)) == Upper(s)
  {
    var u := Upper(s);
    forall i | 0 <= i < |s|
      ensures Upper(u)[i] == u[i]
    {
      UpperAt(s, i);
      UpperAt(u, i);
    }
  }

  // ----- The jail -----

  lemma {:induction false} SplitHasNoSep(s: string, c: string)
    requires c in Split(s)
    ensures forall ch :: ch in c ==> !IsSep(ch)
  {
    if s != [] {
      var rest := Split(s[1..]);
      if !IsSep(s[0]) && c == [s[0]] + rest[0] {
        SplitHasNoSep(s[1..], rest[0]);
      } else if c in rest {
        SplitHasNoSep(s[1..], c);
      }
    }
  }

  lemma UpperIsSimple(c: string)
    requires c != [] && c != ".." && c != "." && forall ch :: ch in c ==> !IsSep(ch)
    ensures SimpleName(Upper(c))
  {
    var u := Upper(c);
    forall i | 0 <= i < |c|
      ensures u[i] == '.' <==> c[i] == '.'
      ensures u[i] != '/'
    {
      UpperAt(c, i);
      assert c[i] in c;
    }
    if |c| == 1 { assert c == [c[0]]; }
    if |c| == 2 { assert c == [c[0], c[1]]; }
  }

  ghost predicate PassesGate(c: string) { c != [] && c != ".." && forall ch :: ch in c ==> !IsSep(ch) }

  /** A component that passes the gate names a plain entry, or "." and nothing. */
  lemma ComponentIsPlain(t: Tree, names: NameData, current: Path, c: string)
    requires WellFormed(names) && GoodTree(t)
    requires PassesGate(c)
    ensures var name := RealName(t, names, current, c); name == "." || SimpleName(name)
  {
    if c != "." {
      UpperIsSimple(c);
    } else {
      UpperAt(c, 0);
      assert Upper(c) == ".";
    }
    var alias := RealFor(names, Upper(c), current);
    if alias.Some? {
      assert GoodBucket(BucketOf(names, current));
    }
  }

  /** No accepted path can leave the root: every step goes down to an entry, and none is "..". */
  lemma {:induction false} WalkStaysBelow(t: Tree, names: NameData, comps: seq<string>)
    requires WellFormed(names) && GoodTree(t)
    requires forall c :: c in comps ==> PassesGate(c)
    ensures forall n :: n in Walk(t, names, comps) ==> SimpleName(n)
  {
    hide WellFormed, GoodTree, RealName, PassesGate;
    if comps != [] {
      var init, c := comps[..|comps| - 1], comps[|comps| - 1];
      forall d | d in init ensures PassesGate(d) { assert d in comps; }
      WalkStaysBelow(t, names, init);
      assert c in comps;
      ComponentIsPlain(t, names, Walk(t, names, init), c);
    }
  }

  lemma ResolvedPathsStayBelowRoot(t: Tree, names: NameData, dosPath: string)
    requires WellFormed(names) && GoodTree(t) && Resolve(t, names, dosPath).Some?
    ensures forall n :: n in Resolve(t, names, dosPath).value ==> SimpleName(n)
  {
    var comps := Components(dosPath);
    forall c | c in comps
      ensures PassesGate(c)
    {
      assert GoodComponent(c);
      SplitHasNoSep(StripDrive(dosPath), c);
    }
    WalkStaysBelow(t, names, comps);
  }

  // ----- What a path text says -----

  /** A name without separators is one part, and either slash behind it ends it. */
  lemma SlashesSeparate(name: string, rest: string)
    requires '/' !in name && '\\' !in name
    ensures Split(name) == [name]
    ensures Split(name + "/" + rest) == [name] + Split(rest) == Split(name + "\\" + rest)
  {
    SplitAfterName(name, []);
    SplitAfterName(name, "/" + rest);
    SplitAfterName(name, "\\" + rest);
    assert name + [] == name && name + ("/" + rest) == name + "/" + rest && name + ("\\" + rest) == name + "\\" + rest;
    assert ("/" + rest)[1..] == rest && ("\\" + rest)[1..] == rest;
  }

  /** Empty parts, as repeated, leading and trailing slashes make them, do not count; nor does a drive in front. */
  lemma PartsThatCount(drive: char, path: string, parts: seq<string>, name: string)
    requires name != []
    ensures Components([drive, ':'] + path) == NonEmpty(Split(path))
    ensures |path| < 2 || path[1] != ':' ==> Components(path) == NonEmpty(Split(path))
    ensures NonEmpty([]) == [] && NonEmpty([[]] + parts) == NonEmpty(parts)
    ensures NonEmpty([name] + parts) == [name] + NonEmpty(parts)
  {
    assert ([drive, ':'] + path)[2..] == path;
    var none: string := [];
    assert ([none] + parts)[1..] == parts && ([name] + parts)[1..] == parts;
  }

  /** A path is refused exactly if one of its parts is ".." or has a control character in it. */
  lemma GateVerdict(t: Tree, names: NameData, dosPath: string)
    ensures Resolve(t, names, dosPath).None?
            <==> exists c :: c in Components(dosPath) && (c == ".." || exists ch :: ch in c && ch < ' ')
  {
    hide Components, Walk;
    forall c
      ensures GoodComponent(c) <==> !(c == ".." || exists ch :: ch in c && ch < ' ')
    {
    }
  }

  lemma {:induction false} FirstMatchAt(listing: seq<string>, u: string, i: nat)
    requires i < |listing| && Upper(listing[i]) == u && forall j :: 0 <= j < i ==> Upper(listing[j]) != u
    ensures FirstMatch(listing, u) == Some(listing[i])
  {
    if i > 0 { FirstMatchAt(listing[1..], u, i - 1); }
  }

  /**
   * A part of a path is an alias of the directory, if it is one in any case; else the first entry listed that is
   * the same up to case; else it stands for itself in upper case.
   */
  lemma PartMeans(t: Tree, names: NameData, dir: Path, c: string, i: nat)
    ensures var b, u := BucketOf(names, dir), Upper(c);
            && (u in b ==> RealName(t, names, dir, c) == b[u])
            && (u !in b && IsDir(t, dir) && i < |t[dir].listing| && Upper(t[dir].listing[i]) == u
                && (forall j :: 0 <= j < i ==> Upper(t[dir].listing[j]) != u) ==>
                  RealName(t, names, dir, c) == t[dir].listing[i])
            && (u !in b && (IsDir(t, dir) ==> forall n :: n in t[dir].listing ==> Upper(n) != u) ==>
                  RealName(t, names, dir, c) == u)
  {
    UpperTwice(c);
    var u := Upper(c);
    if IsDir(t, dir) && i < |t[dir].listing| && Upper(t[dir].listing[i]) == u
       && (forall j :: 0 <= j < i ==> Upper(t[dir].listing[j]) != u) {
      FirstMatchAt(t[dir].listing, u, i);
    }
    hide Upper, BucketOf, FirstMatch;
  }

  // ----- Resolution undoes aliasing -----

  /** The DOS path made of the aliases: "\A\B\C". */
  function AliasPath(aliases: seq<string>): string {
    if aliases == [] then [] else "\\" + aliases[0] + AliasPath(aliases[1..])
  }

  /** In every directory on the way to p the alias stands for exactly p's next component. */
  ghost predicate AliasChain(names: NameData, aliases: seq<string>, p: Path) {
    && |aliases| == |p|
    && forall i :: 0 <= i < |p| ==>
         var b := BucketOf(names, p[..i]); aliases[i] in b && b[aliases[i]] == p[i]
  }

  lemma LegalCharsInAlias(a: string, i: nat)
    requires ValidAlias(a) && i < |a|
    ensures !IsSep(a[i]) && a[i] != ':' && a[i] as int >= 0x20
    ensures i == 0 ==> a[i] != '.'
  {
    var base, ext :| ValidParts(base, ext) && a == Join83(base, ext);
    if i < |base| {
      assert a[i] in base;
    } else if i > |base| {
      assert a[i] == ext[i - |base| - 1] && a[i] in ext;
    }
  }

  lemma AliasIsGoodComponent(a: string)
    requires ValidAlias(a)
    ensures GoodComponent(a) && a != [] && a != "."
    ensures forall ch :: ch in a ==> !IsSep(ch)
  {
    AliasIsNotEmpty(a);
    LegalCharsInAlias(a, 0);
    forall i | 0 <= i < |a|
      ensures !IsSep(a[i]) && a[i] as int >= 0x20
    {
      LegalCharsInAlias(a, i);
    }
  }

  lemma {:induction false} SplitAfterName(a: string, rest: string)
    requires forall ch :: ch in a ==> !IsSep(ch)
    requires rest == [] || IsSep(rest[0])
    ensures Split(a + rest) == [a] + (if rest == [] then [] else Split(rest[1..]))
    decreases |a|
  {
    var s := a + rest;
    if a == [] {
      assert s == rest;
    } else {
      assert s[1..] == a[1..] + rest;
      assert a[0] in a;
      forall ch | ch in a[1..] ensures !IsSep(ch) { assert ch in a; }
      SplitAfterName(a[1..], rest);
      assert [a[0]] + a[1..] == a;
    }
  }

  lemma {:induction false} AliasPathComponents(aliases: seq<string>)
    requires forall a :: a in aliases ==> ValidAlias(a)
    ensures aliases != [] ==> NonEmpty(Split(AliasPath(aliases)[1..])) == aliases
  {
    hide ValidAlias, Split, NonEmpty, GoodComponent;
    if aliases != [] {
      var a, rest := aliases[0], AliasPath(aliases[1..]);
      assert a in aliases;
      AliasIsGoodComponent(a);
      assert AliasPath(aliases)[1..] == a + rest;
      SplitAfterName(a, rest);
      forall b | b in aliases[1..] ensures ValidAlias(b) { assert b in aliases; }
      AliasPathComponents(aliases[1..]);
      assert aliases == [a] + aliases[1..];
      if aliases[1..] == [] {
        PartsThatCount('X', [], [], a);
        assert [a] + [] == [a];
      } else {
        PartsThatCount('X', [], Split(rest[1..]), a);
      }
    }
  }

  lemma ComponentsOfAliasPath(aliases: seq<string>)
    requires forall a :: a in aliases ==> ValidAlias(a)
    ensures Components(AliasPath(aliases)) == aliases
  {
    var path := AliasPath(aliases);
    if aliases == [] {
      var parts: seq<string> := [[]];
      assert parts[1..] == [] && NonEmpty(parts) == [];
    } else {
      assert aliases[0] in aliases;
      AliasIsGoodComponent(aliases[0]);
      LegalCharsInAlias(aliases[0], 0);
      assert path[0] == '\\' && path[1] == aliases[0][0];
      AliasPathComponents(aliases);
      var parts := Split(path);
      assert parts == [[]] + Split(path[1..]);
      assert parts[1..] == Split(path[1..]);
    }
  }

  lemma AliasIsFollowed(t: Tree, names: NameData, current: Path, alias: string, name: string)
    requires WellFormed(names)
    requires var b := BucketOf(names, current); alias in b && b[alias] == name
    ensures RealName(t, names, current, alias) == name && SimpleName(name)
  {
    assert GoodBucket(BucketOf(names, current));
    AliasIsUpper(alias);
  }

  lemma ChainPrefix(names: NameData, aliases: seq<string>, p: Path)
    requires AliasChain(names, aliases, p) && p != []
    ensures AliasChain(names, aliases[..|aliases| - 1], Parent(p))
    ensures var b := BucketOf(names, Parent(p)); Last(aliases) in b && b[Last(aliases)] == Last(p)
  {
    hide BucketOf;
    assert forall i :: 0 <= i < |p| - 1 ==> Parent(p)[..i] == p[..i];
  }

  lemma ChainLength(names: NameData, aliases: seq<string>, p: Path)
    requires AliasChain(names, aliases, p)
    ensures |aliases| == |p|
  {
  }

  lemma WalkStep(t: Tree, names: NameData, aliases: seq<string>, p: Path)
    requires aliases != [] && p != []
    requires Walk(t, names, aliases[..|aliases| - 1]) == Parent(p)
    requires RealName(t, names, Parent(p), Last(aliases)) == Last(p) && Last(p) != "."
    ensures Walk(t, names, aliases) == p
  {
    hide RealName;
    assert p == Parent(p) + [Last(p)];
  }

  lemma {:induction false} WalkFollowsAliases(t: Tree, names: NameData, aliases: seq<string>, p: Path)
    requires WellFormed(names) && AliasChain(names, aliases, p)
    ensures Walk(t, names, aliases) == p
  {
    ChainLength(names, aliases, p);
    hide WellFormed, BucketOf, RealName, AliasChain, Parent, Last;
    if aliases != [] {
      ChainPrefix(names, aliases, p);
      WalkFollowsAliases(t, names, aliases[..|aliases| - 1], Parent(p));
      AliasIsFollowed(t, names, Parent(p), Last(aliases), Last(p));
      hide Walk;
      WalkStep(t, names, aliases, p);
    }
  }

  /** At every depth, and even where an alias is also another file's real name, the aliases lead to p. */
  lemma AliasesResolve(t: Tree, names: NameData, aliases: seq<string>, p: Path)
    requires WellFormed(names) && AliasChain(names, aliases, p)
    ensures Resolve(t, names, AliasPath(aliases)) == Some(p)
  {
    forall a | a in aliases
      ensures ValidAlias(a) && GoodComponent(a)
    {
      var i :| 0 <= i < |aliases| && aliases[i] == a;
      assert aliases[i] in BucketOf(names, p[..i]) && GoodBucket(BucketOf(names, p[..i]));
      AliasIsGoodComponent(a);
    }
    ComponentsOfAliasPath(aliases);
    WalkFollowsAliases(t, names, aliases, p);
  }

  // ----- Scanning on the way down makes every path reachable by aliases -----

  ghost predicate CaseDistinct(listing: seq<Listed>) {
    forall x, y :: x in listing && y in listing && SameName(x.name, y.name) ==> x.name == y.name
  }

  /** The map stores the listed names in their on-disk case. */
  ghost predicate Faithful(b: Bucket, listing: seq<Listed>) {
    forall a, e :: a in b && e in listing && SameName(b[a], e.name) ==> b[a] == e.name
  }

  ghost predicate From(b: Bucket, listing: seq<Listed>, a: string, name: string) {
    (a in b && b[a] == name) || exists e :: e in listing && e.name == name
  }

  /** After a scan the bucket holds what it held before and listed names, nothing else. */
  lemma {:induction false} ScanAddsListedNames(data: NameData, dir: Path, listing: seq<Listed>, a: string)
    requires a in BucketOf(ScanDir(data, dir, listing).0, dir)
    ensures From(BucketOf(data, dir), listing, a, BucketOf(ScanDir(data, dir, listing).0, dir)[a])
  {
    hide SameName, Candidate, FirstFree;
    if listing != [] {
      var init, last := listing[..|listing| - 1], listing[|listing| - 1];
      var data1 := ScanDir(data, dir, init).0;
      var b, b1, b' := BucketOf(data, dir), BucketOf(data1, dir), BucketOf(ScanDir(data, dir, listing).0, dir);
      if a in b1 && b1[a] == b'[a] {
        ScanAddsListedNames(data, dir, init, a);
        if !(a in b && b[a] == b'[a]) {
          var e :| e in init && e.name == b'[a];
          assert e in listing;
        }
      } else {
        assert last in listing && last.name == b'[a];
      }
    }
  }

  lemma ScanStaysFaithful(data: NameData, dir: Path, listing: seq<Listed>)
    requires CaseDistinct(listing) && Faithful(BucketOf(data, dir), listing)
    ensures Faithful(BucketOf(ScanDir(data, dir, listing).0, dir), listing)
  {
    hide SameName, ScanDir;
    var b, b' := BucketOf(data, dir), BucketOf(ScanDir(data, dir, listing).0, dir);
    forall a, e | a in b' && e in listing && SameName(b'[a], e.name)
      ensures b'[a] == e.name
    {
      ScanAddsListedNames(data, dir, listing, a);
    }
  }

  /** The directories on the way to p are scanned from the root down. */
  ghost function ScanDown(os: OS, names: NameData, p: Path): NameData
    requires GoodTree(os.tree)
  {
    if p == [] then names
    else
      var dir := Parent(p);
      var above := ScanDown(os, names, dir);
      if IsDir(os.tree, dir) then ScanDir(above, dir, ListingOf(os, dir)).0 else above
  }

  /** What a scan of dir needs to give every entry an alias that leads back to it. */
  ghost predicate ScanIsClean(os: OS, names: NameData, dir: Path) {
    && IsDir(os.tree, dir)
    && CaseDistinct(ListingOf(os, dir))
    && Faithful(BucketOf(names, dir), ListingOf(os, dir))
    && |BucketOf(names, dir)| + |os.tree[dir].listing| <= LAST_SUFFIX
  }

  ghost predicate CleanOnTheWay(os: OS, names: NameData, p: Path) {
    forall i :: 0 <= i < |p| ==> ScanIsClean(os, names, p[..i])
  }

  /** Scanning the directories above leaves the buckets from there down alone. */
  lemma {:induction false} ScanDownKeepsBuckets(os: OS, names: NameData, p: Path, dir: Path)
    requires WellFormed(names) && GoodTree(os.tree) && |p| <= |dir|
    ensures BucketOf(ScanDown(os, names, p), dir) == BucketOf(names, dir)
  {
    hide ScanDir, WellFormed, GoodTree, BucketOf, ListingOf, Extends, EntriesFor;
    if p != [] {
      ScanDownKeepsBuckets(os, names, Parent(p), dir);
      ScanDownIsWellFormed(os, names, Parent(p));
      if IsDir(os.tree, Parent(p)) {
        ListingNames(os, Parent(p));
        ScanVerdict(ScanDown(os, names, Parent(p)), Parent(p), ListingOf(os, Parent(p)));
      }
    }
  }

  lemma ListingLength(os: OS, dir: Path)
    requires IsDir(os.tree, dir)
    ensures |ListingOf(os, dir)| == |os.tree[dir].listing|
  {
    var l := os.tree[dir].listing;
    assert |l| == |multiset(l)| == |multiset(SortByUpper(l))| == |SortByUpper(l)|;
  }

  lemma {:induction false} VisibleKeepsNames(listing: seq<Listed>, e: Listed) returns (i: nat)
    requires e in listing && e.name != NAMEMAP_FILE
    ensures i < |Visible(listing)| && Visible(listing)[i] == e
  {
    var last := listing[|listing| - 1];
    if e == last {
      i := |Visible(listing)| - 1;
    } else {
      i := VisibleKeepsNames(listing[..|listing| - 1], e);
    }
  }

  /** A clean scan of dir has an alias that stands for exactly the given entry. */
  lemma ScanGivesAlias(os: OS, names: NameData, dir: Path, n: string) returns (a: string)
    requires WellFormed(names) && GoodTree(os.tree) && ScanIsClean(os, names, dir)
    requires n in os.tree[dir].listing && n != NAMEMAP_FILE
    ensures var b := BucketOf(ScanDir(names, dir, ListingOf(os, dir)).0, dir); a in b && b[a] == n
  {
    hide ScanDir, SameName, ListingOf, WellFormed, GoodTree, ValidAlias;
    var listing := ListingOf(os, dir);
    ListingNames(os, dir);
    ListingLength(os, dir);
    SmallScansNeverRaise(names, dir, listing);
    ScanVerdict(names, dir, listing);
    ScanStaysFaithful(names, dir, listing);
    var b := BucketOf(ScanDir(names, dir, listing).0, dir);
    var entries := ScanDir(names, dir, listing).1.value;
    var e :| e in listing && e.name == n;
    var i := VisibleKeepsNames(listing, e);
    assert EntryFor(entries[i], Visible(listing)[i], b);
    a := entries[i].alias;
  }

  lemma {:induction false} ScanDownIsWellFormed(os: OS, names: NameData, p: Path)
    requires WellFormed(names) && GoodTree(os.tree)
    ensures WellFormed(ScanDown(os, names, p))
  {
    hide ScanDir, WellFormed, GoodTree;
    if p != [] {
      ScanDownIsWellFormed(os, names, Parent(p));
      if IsDir(os.tree, Parent(p)) {
        ListingNames(os, Parent(p));
        ScanVerdict(ScanDown(os, names, Parent(p)), Parent(p), ListingOf(os, Parent(p)));
      }
    }
  }

  lemma ChainGrows(names: NameData, names': NameData, dir: Path, aliases: seq<string>, a: string, n: string)
    requires AliasChain(names, aliases, dir)
    requires forall d :: d != dir ==> BucketOf(names', d) == BucketOf(names, d)
    requires var b := BucketOf(names', dir); a in b && b[a] == n
    ensures AliasChain(names', aliases + [a], dir + [n])
  {
    hide BucketOf;
    var p := dir + [n];
    forall i | 0 <= i < |p|
      ensures var b := BucketOf(names', p[..i]); (aliases + [a])[i] in b && b[(aliases + [a])[i]] == p[i]
    {
      if i < |dir| {
        assert p[..i] == dir[..i] && dir[..i] != dir;
      } else {
        assert p[..i] == dir;
      }
    }
  }

  lemma ChainStep(os: OS, above: NameData, dir: Path, up: seq<string>, n: string) returns (a: string)
    requires WellFormed(above) && GoodTree(os.tree) && ScanIsClean(os, above, dir)
    requires n in os.tree[dir].listing && n != NAMEMAP_FILE
    requires AliasChain(above, up, dir)
    ensures AliasChain(ScanDir(above, dir, ListingOf(os, dir)).0, up + [a], dir + [n])
  {
    hide ScanDir, WellFormed, AliasChain, BucketOf, ListingOf, EntriesFor, Extends;
    a := ScanGivesAlias(os, above, dir, n);
    ListingNames(os, dir);
    ScanVerdict(above, dir, ListingOf(os, dir));
    ChainGrows(above, ScanDir(above, dir, ListingOf(os, dir)).0, dir, up, a, n);
  }

  lemma CleanAbove(os: OS, names: NameData, p: Path)
    requires p != [] && CleanOnTheWay(os, names, p) && NAMEMAP_FILE !in p
    ensures CleanOnTheWay(os, names, Parent(p)) && ScanIsClean(os, names, Parent(p)) && NAMEMAP_FILE !in Parent(p)
  {
    hide ScanIsClean;
    forall i | 0 <= i < |p| - 1
      ensures ScanIsClean(os, names, Parent(p)[..i])
    {
      assert Parent(p)[..i] == p[..i];
    }
    assert Parent(p) == p[..|p| - 1];
  }

  lemma {:induction false} PathHasChain(os: OS, names: NameData, p: Path) returns (aliases: seq<string>)
    requires WellFormed(names) && GoodTree(os.tree) && p in os.tree && CleanOnTheWay(os, names, p)
    requires NAMEMAP_FILE !in p
    ensures AliasChain(ScanDown(os, names, p), aliases, p)
  {
    hide ScanDir, WellFormed, AliasChain, ListingOf, CaseDistinct, Faithful, BucketOf, Downward, Once;
    if p == [] {
      aliases := [];
      EmptyChain(names);
    } else {
      var dir, above := Parent(p), ScanDown(os, names, Parent(p));
      CleanAbove(os, names, p);
      var up := PathHasChain(os, names, dir);
      ScanDownIsWellFormed(os, names, dir);
      ScanDownKeepsBuckets(os, names, dir, dir);
      assert Last(p) in p;
      var a := ChainStep(os, above, dir, up, Last(p));
      assert dir + [Last(p)] == p;
      aliases := up + [a];
    }
  }

  /**
   * In a tree with case-distinct directories of 9998 names at most, after the directories on the way have been
   * scanned, every existing path but the daemon's own name-map file is reached by a path of 8.3 aliases, and
   * that path resolves to exactly it.
   */
  lemma EveryPathHasAliases(os: OS, names: NameData, p: Path) returns (aliases: seq<string>)
    requires WellFormed(names) && GoodTree(os.tree) && p in os.tree && CleanOnTheWay(os, names, p)
    requires NAMEMAP_FILE !in p
    ensures AliasChain(ScanDown(os, names, p), aliases, p)
    ensures Resolve(os.tree, ScanDown(os, names, p), AliasPath(aliases)) == Some(p)
  {
    hide WellFormed, GoodTree, CleanOnTheWay, ScanDown, AliasChain, Resolve;
    aliases := PathHasChain(os, names, p);
    ScanDownIsWellFormed(os, names, p);
    AliasesResolve(os.tree, ScanDown(os, names, p), aliases, p);
  }

  lemma EmptyChain(names: NameData)
    ensures AliasChain(names, [], [])
  {
  }
}
