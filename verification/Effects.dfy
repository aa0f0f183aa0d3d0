/** What DELETE, RMDIR, MKDIR and RENAME achieve, path by path and for the DOS paths that lead there. */
module Effects {
  import opened Bytes
  import opened Options
  import opened Names
  import opened NameMaps
  import opened NameMapRuns
  import opened Os
  import opened PathJail
  import opened Trees
  import opened Files
  import opened Frame
  import opened FsOps
  import opened ServerRuns
  import opened CreatedPaths
  import opened Opening

  // ----- DELETE and RMDIR -----

  /** The tree and the map before and after path has been removed. */
  ghost predicate Shrank(t: Tree, t': Tree, names: NameData, names': NameData, path: Path) {
    && path != [] && IsDir(t, Parent(path)) && IsDir(t', Parent(path)) && path !in t'
    && t'[Parent(path)].listing == Unlisted(t[Parent(path)].listing, Last(path))
    && (forall d :: d != Parent(path) && d != path ==> (d in t' <==> d in t) && (d in t ==> t'[d] == t[d]))
    && BucketOf(names', Parent(path)) == Without(BucketOf(names, Parent(path)), Last(path))
    && (forall d :: d != Parent(path) ==> BucketOf(names', d) == BucketOf(names, d))
  }

  /** A removal takes away the entry and its alias, and leaves everything else, open files included. */
  lemma RemovedVerdict(s: Server, path: Path)
    requires Good(s) && path != [] && path in s.os.tree && IsDir(s.os.tree, Parent(path)) && IsLeaf(s.os.tree[path])
    ensures var s' := Removed(s, path).0;
            && Shrank(s.os.tree, s'.os.tree, s.names.data, s'.names.data, path)
            && Clean(s.os.tree, s.names.data) && Clean(s'.os.tree, s'.names.data)
            && s'.os.inodes == s.os.inodes && s'.os.fds == s.os.fds && s'.slots == s.slots
  {
    hide Good, Clean, Unlisted, GoodState, WellFormed, BucketOf, RemoveAlias, IsLeaf, Balanced, Without;
    GoodIsClean(s);
    RemovedKeeps(s, path);
    GoodIsClean(Removed(s, path).0);
    CleanHasNames(s.os.tree, s.names.data);
    RemoveAliasVerdict(s.names.data, Last(path), Parent(path));
    PrunedListing(s.os.tree, path, Parent(path));
  }

  lemma CleanHasNames(t: Tree, names: NameData)
    requires Clean(t, names)
    ensures WellFormed(names)
  {
  }

  /** The last component that is not ".". */
  function LastComponent(comps: seq<string>): string {
    if comps == [] then []
    else if comps[|comps| - 1] == "." then LastComponent(comps[..|comps| - 1])
    else comps[|comps| - 1]
  }

  /** What a component finds in a directory that no longer holds what it found there before. */
  lemma ChooseAgain(b: Bucket, listing: seq<string>, n: string, c: string)
    requires GoodBucket(b) && Choose(b, listing, Upper(c)) == n
    ensures Choose(Without(b, n), Unlisted(listing, n), Upper(c)) == Choose(map[], Unlisted(listing, n), Upper(c))
  {
    hide FirstMatch, Unlisted;
    var u := Upper(c);
    WithoutVerdict(b, n);
    hide GoodBucket, Without;
    if u in b && b[u] == n { assert SameName(b[u], n); }
  }

  lemma {:induction false} WalkAfterRemoval(t: Tree, t': Tree, names: NameData, names': NameData, path: Path,
                                            comps: seq<string>)
    requires Shrank(t, t', names, names', path) && Clean(t, names) && Clean(t', names')
    requires forall c :: c in comps ==> PassesGate(c)
    requires Walk(t, names, comps) == path
    ensures Walk(t', names', comps)
            == Parent(path) + [Choose(map[], t'[Parent(path)].listing, Upper(LastComponent(comps)))]
  {
    hide Clean, PassesGate, RealName, Unlisted, Without, Choose, BucketOf;
    var init, c := comps[..|comps| - 1], comps[|comps| - 1];
    forall d | d in init ensures PassesGate(d) { assert d in comps; }
    assert c in comps;
    var cur, dir := Walk(t, names, init), Parent(path);
    if c == "." {
      DotIsNothing(t, names, cur);
      DotIsNothing(t', names', Walk(t', names', init));
      WalkAfterRemoval(t, t', names, names', path, init);
    } else {
      ComponentIsNamed(t, names, cur, c);
      assert cur == dir && RealName(t, names, dir, c) == Last(path);
      WalkAbove(t, t', names, names', dir, init);
      RealNameChooses(t, names, dir, c);
      RealNameChooses(t', names', dir, c);
      CleanBelow(t, names, dir);
      ChooseAgain(BucketOf(names, dir), t[dir].listing, Last(path), c);
      ComponentIsNamed(t', names', dir, c);
    }
  }

  /** A listed name is the component up to case. */
  ghost predicate Shadowed(listing: seq<string>, c: string) { exists m :: m in listing && Upper(m) == Upper(c) }

  /** A listed name other than n is the component up to case. */
  ghost predicate ShadowedBeside(listing: seq<string>, n: string, c: string) {
    exists m :: m in listing && m != n && Upper(m) == Upper(c)
  }

  lemma ShadowedWithout(listing: seq<string>, n: string, c: string)
    ensures Shadowed(Unlisted(listing, n), c) <==> ShadowedBeside(listing, n, c)
  {
    hide Unlisted;
  }

  lemma {:induction false} FirstMatchVerdict(listing: seq<string>, u: string)
    ensures FirstMatch(listing, u).Some? <==> exists m :: m in listing && Upper(m) == u
  {
    if listing != [] {
      FirstMatchVerdict(listing[1..], u);
      assert listing == [listing[0]] + listing[1..];
    }
  }

  lemma ListedExactly(t: Tree, dir: Path, n: string)
    requires GoodTree(t) && IsDir(t, dir)
    ensures dir + [n] in t <==> n in t[dir].listing
  {
    hide SimpleName, Once;
    assert Parent(dir + [n]) == dir && Last(dir + [n]) == n;
  }

  lemma ChosenIsThere(t: Tree, dir: Path, c: string)
    requires GoodTree(t) && IsDir(t, dir)
    ensures dir + [Choose(map[], t[dir].listing, Upper(c))] in t <==> Shadowed(t[dir].listing, c)
  {
    var listing := t[dir].listing;
    FirstMatchVerdict(listing, Upper(c));
    UpperTwice(c);
    ListedExactly(t, dir, Choose(map[], listing, Upper(c)));
    hide GoodTree, FirstMatch;
  }

  /** Whether the DOS path of a removed entry still leads to something. */
  lemma RemovedIsGone(s: Server, p: seq<byte>, q: seq<byte>, path: Path)
    requires Good(s) && p != [] && Locate(s, p) == Some(path) && |q| >= 2 && DosPath(q) == DosPath(p)
    requires path != [] && path in s.os.tree && IsDir(s.os.tree, Parent(path)) && IsLeaf(s.os.tree[path])
    ensures var s' := Removed(s, path).0;
            && path !in s'.os.tree
            && (GetAttr(s', q).1.status == ERR_NOT_FOUND
                <==> !ShadowedBeside(s.os.tree[Parent(path)].listing, Last(path),
                                     LastComponent(Components(DosPath(p)))))
  {
    hide Good, Clean, Shrank, Removed, Components, GoodComponent, PassesGate, Shadowed, ShadowedBeside, GoodTree,
         DosPath, Choose, Packs, AttrBytes, EntryAt, Walk, IsLeaf;
    var s', comps := Removed(s, path).0, Components(DosPath(p));
    RemovedVerdict(s, path);
    CleanTree(s'.os.tree, s'.names.data);
    GatesPass(DosPath(p), comps);
    WalkAfterRemoval(s.os.tree, s'.os.tree, s.names.data, s'.names.data, path, comps);
    ShrankDir(s.os.tree, s'.os.tree, s.names.data, s'.names.data, path);
    ChosenIsThere(s'.os.tree, Parent(path), LastComponent(comps));
    ShadowedWithout(s.os.tree[Parent(path)].listing, Last(path), LastComponent(comps));
  }

  lemma CleanTree(t: Tree, names: NameData)
    requires Clean(t, names)
    ensures GoodTree(t)
  {
  }

  lemma ShrankDir(t: Tree, t': Tree, names: NameData, names': NameData, path: Path)
    requires Shrank(t, t', names, names', path)
    ensures path != [] && IsDir(t', Parent(path)) && path !in t'
    ensures t'[Parent(path)].listing == Unlisted(t[Parent(path)].listing, Last(path))
  {
  }

  /**
   * After DELETE the DOS path is not found, unless another name in the directory was its last component up to
   * case; whoever still has the file open keeps its contents.
   */
  lemma DeleteVerdict(s: Server, p: seq<byte>, q: seq<byte>)
    requires Good(s) && Delete(s, p).1.status == STATUS_OK && |q| >= 2 && DosPath(q) == DosPath(p)
    ensures Locate(s, p).Some? && Locate(s, p).value != []
    ensures var s', path := Delete(s, p).0, Locate(s, p).value;
            && IsFile(s.os.tree, path) && IsDir(s.os.tree, Parent(path)) && path !in s'.os.tree
            && s'.os.inodes == s.os.inodes && s'.os.fds == s.os.fds
            && (GetAttr(s', q).1.status == ERR_NOT_FOUND
                <==> !ShadowedBeside(s.os.tree[Parent(path)].listing, Last(path),
                                     LastComponent(Components(DosPath(p)))))
  {
    hide Good, Resolve, Removed, GetAttr, ShadowedBeside, Components, DosPath;
    var path := Locate(s, p).value;
    RemovedVerdict(s, path);
    RemovedIsGone(s, p, q, path);
  }

  /** The same after RMDIR. */
  lemma RemoveDirVerdict(s: Server, p: seq<byte>, q: seq<byte>)
    requires Good(s) && RemoveDir(s, p).1.status == STATUS_OK && |q| >= 2 && DosPath(q) == DosPath(p)
    ensures Locate(s, p).Some? && Locate(s, p).value != []
    ensures var s', path := RemoveDir(s, p).0, Locate(s, p).value;
            && IsDir(s.os.tree, path) && IsDir(s.os.tree, Parent(path)) && path !in s'.os.tree
            && (GetAttr(s', q).1.status == ERR_NOT_FOUND
                <==> !ShadowedBeside(s.os.tree[Parent(path)].listing, Last(path),
                                     LastComponent(Components(DosPath(p)))))
  {
    hide Good, Resolve, Removed, GetAttr, ShadowedBeside, Components, DosPath;
    RemovedIsGone(s, p, q, Locate(s, p).value);
  }

  // ----- Names that run out of aliases -----

  /** The last component that counts is what the last name of the path was found by. */
  lemma {:induction false} LastNameFound(t: Tree, names: NameData, comps: seq<string>)
    requires Clean(t, names) && (forall c :: c in comps ==> PassesGate(c)) && Walk(t, names, comps) != []
    ensures var path := Walk(t, names, comps);
            Last(path) == RealName(t, names, Parent(path), LastComponent(comps)) && LastComponent(comps) in comps
  {
    hide Clean, PassesGate, RealName;
    var init, c := comps[..|comps| - 1], comps[|comps| - 1];
    forall d | d in init ensures PassesGate(d) { assert d in comps; }
    assert c in comps;
    var cur := Walk(t, names, init);
    if c == "." {
      DotIsNothing(t, names, cur);
      LastNameFound(t, names, init);
    } else {
      ComponentIsNamed(t, names, cur, c);
      assert Parent(cur + [RealName(t, names, cur, c)]) == cur;
    }
  }

  /** alias_for never raises for a name found by an 8.3 component. */
  lemma FoundByAlias(t: Tree, names: NameData, dir: Path, c: string)
    requires Clean(t, names) && ValidAlias(Upper(c)) && SimpleName(RealName(t, names, dir, c))
    ensures AliasFor(names, RealName(t, names, dir, c), dir).1.Some?
  {
    var b, u, n := BucketOf(names, dir), Upper(c), RealName(t, names, dir, c);
    UpperTwice(c);
    assert u in b ==> Denotes(b, u, n) && Knows(b, n);
    if u !in b {
      PlainCandidate(n, u);
      assert FirstFree(b, n, 0) == 0;
    }
    hide Clean, ValidAlias, Candidate, FirstMatch;
  }

  /** So CREATE of a path whose last component is an 8.3 name, as DOS sends them, never loses a descriptor. */
  lemma PlainNamesNeverRunOut(s: Server, p: seq<byte>)
    requires Good(s) && |p| >= 2 && ValidAlias(Upper(LastComponent(Components(DosPath(p)))))
    ensures !RunsOut(s, p)
  {
    hide Good, Components, DosPath, Walk, RealName, OpenForWrite, ValidAlias, AliasFor, GoodComponent, LastComponent;
    if CreateTarget(s, p).Some? && CreateTarget(s, p).value != [] {
      var comps := Components(DosPath(p));
      GoodIsClean(s);
      GatesPass(DosPath(p), comps);
      LocatedIsSimple(s, p);
      hide Clean, PassesGate;
      LastNameFound(s.os.tree, s.names.data, comps);
      FoundByAlias(s.os.tree, s.names.data, Parent(CreateTarget(s, p).value), LastComponent(comps));
    }
  }

  // ----- MKDIR -----

  lemma MakeDirectoryParts(s: Server, p: seq<byte>)
    requires MakeDirectory(s, p).1.status == STATUS_OK
    ensures |p| >= 2 && Locate(s, p).Some? && Locate(s, p).value != []
    ensures var path := Locate(s, p).value;
            && path !in s.os.tree && IsDir(s.os.tree, Parent(path))
            && AliasFor(s.names.data, Last(path), Parent(path)).1.Some?
            && MakeDirectory(s, p).0.os == MakeDir(s.os, path)
            && MakeDirectory(s, p).0.names == SavedIfDirty(Step(s.names, AliasForOp(Last(path), Parent(path))))
  {
    hide Locate, AliasFor, Step, MakeDir;
  }

  lemma MakeDirGrows(os: OS, path: Path)
    requires path != [] && path !in os.tree && IsDir(os.tree, Parent(path))
    ensures var t' := MakeDir(os, path).tree;
            TreeGrew(os.tree, t', path) && IsDir(t', path) && t'[path].listing == []
  {
    var node := Dir(os.nextIno, []);
    NewEntryGrowsTree(os.tree, path, node);
    GrownListing(os.tree, path, node, path);
    hide TreeGrew, Grown;
  }

  /** After MKDIR the DOS path leads to a directory that lists nothing. */
  lemma MakeDirectoryVerdict(s: Server, p: seq<byte>, q: seq<byte>)
    requires Good(s) && MakeDirectory(s, p).1.status == STATUS_OK && q != [] && DosPath(q) == DosPath(p)
    ensures p != [] && Locate(s, p).Some? && Locate(s, p).value !in s.os.tree
    ensures var s' := MakeDirectory(s, p).0;
            && Locate(s', q) == Locate(s, p) && IsDir(s'.os.tree, Locate(s, p).value)
            && ListingOf(s'.os, Locate(s, p).value) == []
  {
    hide Good, MakeDirectory, Resolve, MakeDir, AliasFor, Step, SavedIfDirty, DosPath, Clean, TreeGrew, NamesGrew,
         GoodState, GoodFiles, SimpleName, Balanced;
    MakeDirectoryParts(s, p);
    var s', path := MakeDirectory(s, p).0, Locate(s, p).value;
    MakeDirectoryKeeps(s, p);
    GoodIsClean(s);
    GoodIsClean(s');
    GoodParts(s);
    LocatedIsSimple(s, p);
    MakeDirGrows(s.os, path);
    RegisteringGrowsNames(s.names, path);
    ResolveIsStable(s.os.tree, s'.os.tree, s.names.data, s'.names.data, DosPath(p));
  }

  // ----- RENAME -----

  function SourceOf(s: Server, p: seq<byte>): Option<Path> {
    Resolve(s.os.tree, s.names.data, DecodeAscii(UntilNul(p)))
  }

  function TargetOf(s: Server, p: seq<byte>): Option<Path>
    requires AfterNul(p).Some?
  {
    Resolve(s.os.tree, s.names.data, DecodeAscii(UntilNul(AfterNul(p).value)))
  }

  lemma RenameParts(s: Server, p: seq<byte>)
    requires Rename(s, p).1.status == STATUS_OK
    ensures AfterNul(p).Some? && SourceOf(s, p).Some? && TargetOf(s, p).Some?
    ensures var source, target := SourceOf(s, p).value, TargetOf(s, p).value;
            && CanMove(s.os.tree, source, target)
            && Rename(s, p).0.os == MoveEntry(s.os, source, target)
            && Rename(s, p).0.names
               == SavedIfDirty(Step(Step(s.names, RemoveOp(Last(source), Parent(source))),
                                    AliasForOp(Last(target), Parent(target))))
  {
    hide AfterNul, UntilNul, DecodeAscii, Resolve, AliasFor, RemoveAlias, SavedIfDirty, MoveEntry, CanMove, Changed;
  }

  lemma RenamedBuckets(names: MapState, source: Path, target: Path, d: Path)
    requires GoodState(names) && source != [] && target != [] && SimpleName(Last(target))
    requires d != Parent(source) && d != Parent(target)
    ensures BucketOf(SavedIfDirty(Step(Step(names, RemoveOp(Last(source), Parent(source))),
                                       AliasForOp(Last(target), Parent(target)))).data, d)
            == BucketOf(names.data, d)
  {
    hide BucketOf, WellFormed, AliasFor, RemoveAlias, SimpleName, SameName;
    RemoveAliasVerdict(names.data, Last(source), Parent(source));
    AliasForVerdict(RemoveAlias(names.data, Last(source), Parent(source)), Last(target), Parent(target));
  }

  /**
   * After RENAME the target and everything below it are what the source and everything below it were, and
   * nothing is left where they were. Only the two parents' aliases have changed: those of a renamed directory
   * stay under its old path.
   */
  lemma RenameVerdict(s: Server, p: seq<byte>, rest: Path, d: Path)
    requires Good(s) && Rename(s, p).1.status == STATUS_OK
    ensures AfterNul(p).Some? && SourceOf(s, p).Some? && TargetOf(s, p).Some?
    ensures SourceOf(s, p).value != [] && TargetOf(s, p).value != []
    ensures var t, t', source, target := s.os.tree, Rename(s, p).0.os.tree, SourceOf(s, p).value, TargetOf(s, p).value;
            && source in t && target !in t && target in t'
            && (target + rest in t' <==> source + rest in t)
            && (source + rest in t ==> t'[target + rest] == t[source + rest])
            && source + rest !in t'
            && Rename(s, p).0.os.inodes == s.os.inodes
            && (d != Parent(source) && d != Parent(target) ==>
                  BucketOf(Rename(s, p).0.names.data, d) == BucketOf(s.names.data, d))
  {
    RenameParts(s, p);
    GoodParts(s);
    GoodFilesHasTree(s.os);
    hide Good, Rename, AfterNul, SourceOf, TargetOf, BucketOf, SavedIfDirty, Step, GoodState, GoodFiles, Upward,
         Transplanted, SimpleName;
    var t, source, target := s.os.tree, SourceOf(s, p).value, TargetOf(s, p).value;
    TargetIsSimple(s, p);
    if d != Parent(source) && d != Parent(target) { RenamedBuckets(s.names, source, target, d); }
    assert Origin(source, target, target + rest) == source + rest;
    assert Origin(source, target, target) == source;
    MovedAt(t, source, target, target + rest);
    MovedAt(t, source, target, target);
    MovedAt(t, source, target, source + rest);
    NotBelowEachOther(t, source, target, rest);
  }

  lemma TargetIsSimple(s: Server, p: seq<byte>)
    requires Good(s) && AfterNul(p).Some? && TargetOf(s, p).Some?
    ensures TargetOf(s, p).value == [] || SimpleName(Last(TargetOf(s, p).value))
  {
    hide Good, AfterNul, UntilNul, DecodeAscii;
    ResolvedIsSimple(s, DecodeAscii(UntilNul(AfterNul(p).value)));
  }

  /** A free target has nothing above the source, so nothing arrives where the source was. */
  lemma NotBelowEachOther(t: Tree, source: Path, target: Path, rest: Path)
    requires Upward(t) && CanMove(t, source, target)
    ensures !(target <= source + rest)
  {
    if target <= source + rest {
      if |target| <= |source| {
        assert source[..|target|] == (source + rest)[..|target|] == target;
        PrefixExists(t, source, |target|);
      }
    }
  }

  /**
   * An alias a of the entry n of a directory, after the directory has been renamed. Its bucket stays behind
   * under the old path. By the new path a leads to n exactly if a bucket that is there already says so or, where
   * that does not know a, if n is the first listed name equal to a up to case (or is a itself, and not listed). It
   * leads to an entry at all exactly if what that bucket has for a is listed or, where it does not know a, some
   * listed name equals a up to case.
   */
  lemma RenamedAliasVerdict(s: Server, p: seq<byte>, a: string)
    requires Good(s) && Rename(s, p).1.status == STATUS_OK
    requires AfterNul(p).Some? && SourceOf(s, p).Some? && TargetOf(s, p).Some?
    requires IsDir(s.os.tree, SourceOf(s, p).value) && a in BucketOf(s.names.data, SourceOf(s, p).value)
    ensures var s', source, target := Rename(s, p).0, SourceOf(s, p).value, TargetOf(s, p).value;
            var there, listing := BucketOf(s.names.data, target), s.os.tree[source].listing;
            var n, found := BucketOf(s.names.data, source)[a], RealName(s'.os.tree, s'.names.data, target, a);
            && RealName(s.os.tree, s.names.data, source, a) == n
            && BucketOf(s'.names.data, source) == BucketOf(s.names.data, source)
            && (target + [n] in s'.os.tree <==> source + [n] in s.os.tree)
            && found == Choose(there, listing, a)
            && (found == n <==>
                  if a in there then there[a] == n
                  else if FirstMatch(listing, a).Some? then FirstMatch(listing, a).value == n
                  else n == a)
            && (target + [found] in s'.os.tree <==> if a in there then there[a] in listing else Shadowed(listing, a))
  {
    hide Good, Rename, AfterNul, SourceOf, TargetOf, BucketOf, Clean, GoodTree, FirstMatch, RealName, Shadowed;
    var s', source, target := Rename(s, p).0, SourceOf(s, p).value, TargetOf(s, p).value;
    var there, listing := BucketOf(s.names.data, target), s.os.tree[source].listing;
    var n, found := BucketOf(s.names.data, source)[a], RealName(s'.os.tree, s'.names.data, target, a);
    RenameVerdict(s, p, [], source);
    RenameVerdict(s, p, [n], target);
    RenameVerdict(s, p, [found], target);
    assert source + [] == source && target + [] == target;
    NotOwnParents(s, p);
    AliasIsUpperHere(s, source, a);
    RealNameChooses(s.os.tree, s.names.data, source, a);
    RealNameChooses(s'.os.tree, s'.names.data, target, a);
    GoodIsClean(s);
    CleanTree(s.os.tree, s.names.data);
    ListedExactly(s.os.tree, source, found);
    MeaningIsListed(there, listing, a);
  }

  lemma MeaningIsListed(b: Bucket, listing: seq<string>, a: string)
    requires Upper(a) == a
    ensures Choose(b, listing, a) in listing <==> if a in b then b[a] in listing else Shadowed(listing, a)
  {
    FirstMatchVerdict(listing, a);
    hide FirstMatch;
  }

  lemma NotOwnParents(s: Server, p: seq<byte>)
    requires Good(s) && Rename(s, p).1.status == STATUS_OK
    ensures AfterNul(p).Some? && SourceOf(s, p).Some? && TargetOf(s, p).Some?
    ensures var source, target := SourceOf(s, p).value, TargetOf(s, p).value;
            && source != [] && target != []
            && source != Parent(source) && source != Parent(target)
            && target != Parent(source) && target != Parent(target)
  {
    RenameParts(s, p);
    hide Good, Rename, AfterNul, SourceOf, TargetOf, MoveEntry, SavedIfDirty, Step;
  }

  lemma AliasIsUpperHere(s: Server, dir: Path, a: string)
    requires Good(s) && a in BucketOf(s.names.data, dir)
    ensures Upper(a) == a
  {
    GoodIsClean(s);
    CleanHasNames(s.os.tree, s.names.data);
    BucketIsGood(s.names.data, dir);
    AliasIsUpper(a);
    hide Good, WellFormed, BucketOf;
  }
}
