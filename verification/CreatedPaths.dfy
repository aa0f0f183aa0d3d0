/** A path still leads to the same place after CREATE or MKDIR has added its entry and registered its alias. */
module CreatedPaths {
  import opened Options
  import opened Names
  import opened NameMaps
  import opened NameMapRuns
  import opened Os
  import opened PathJail
  import opened Files
  import opened Trees

  /** Names added at the end of a listing do not change what was found before them. */
  lemma {:induction false} FirstMatchGrows(listing: seq<string>, n: string, u: string)
    ensures FirstMatch(listing + [n], u)
            == if FirstMatch(listing, u).Some? then FirstMatch(listing, u) else if Upper(n) == u then Some(n) else None
  {
    if listing == [] {
      assert ([n])[1..] == [];
      assert listing + [n] == [n];
    } else {
      assert (listing + [n])[1..] == listing[1..] + [n];
      FirstMatchGrows(listing[1..], n, u);
    }
  }

  /** What CREATE and MKDIR may do to a directory: register an alias for the name, and list the name. */
  ghost predicate AddsAlias(b: Bucket, b': Bucket, n: string) {
    b' == b || exists a :: a !in b && b' == b[a := n]
  }

  predicate AddsListing(listing: seq<string>, listing': seq<string>, n: string) {
    listing' == listing || listing' == listing + [n]
  }

  function Choose(b: Bucket, listing: seq<string>, u: string): string {
    if u in b then b[u]
    else if FirstMatch(listing, u).Some? then FirstMatch(listing, u).value
    else u
  }

  /** A component that led to the name still does. */
  lemma ChooseIsStable(b: Bucket, b': Bucket, listing: seq<string>, listing': seq<string>, n: string, c: string)
    requires AddsAlias(b, b', n) && AddsListing(listing, listing', n) && Choose(b, listing, Upper(c)) == n
    ensures Choose(b', listing', Upper(c)) == n
  {
    UpperTwice(c);
    FirstMatchGrows(listing, n, Upper(c));
  }

  lemma RealNameChooses(t: Tree, names: NameData, cur: Path, c: string)
    requires IsDir(t, cur)
    ensures RealName(t, names, cur, c) == Choose(BucketOf(names, cur), t[cur].listing, Upper(c))
  {
    UpperTwice(c);
    hide BucketOf, FirstMatch;
  }

  ghost predicate CleanDir(b: Bucket, listing: seq<string>) {
    GoodBucket(b) && forall n :: n in listing ==> SimpleName(n)
  }

  /** "." stays where it is. */
  lemma DotStays(b: Bucket, listing: seq<string>)
    requires CleanDir(b, listing)
    ensures Choose(b, listing, Upper(".")) == "."
  {
    UpperAt(".", 0);
    assert Upper(".") == ".";
    if "." in b {
      AliasIsGoodComponent(".");
    }
    if FirstMatch(listing, ".").Some? {
      var n := FirstMatch(listing, ".").value;
      UpperAt(n, 0);
    }
  }

  ghost predicate TreeGrew(t: Tree, t': Tree, path: Path)
    requires path != []
  {
    && IsDir(t, Parent(path)) && IsDir(t', Parent(path))
    && AddsListing(t[Parent(path)].listing, t'[Parent(path)].listing, Last(path))
    && forall d :: d != Parent(path) && d != path ==>
         (IsDir(t', d) <==> IsDir(t, d)) && (IsDir(t, d) ==> t'[d].listing == t[d].listing)
  }

  ghost predicate NamesGrew(names: NameData, names': NameData, path: Path)
    requires path != []
  {
    && AddsAlias(BucketOf(names, Parent(path)), BucketOf(names', Parent(path)), Last(path))
    && forall d :: d != Parent(path) ==> BucketOf(names', d) == BucketOf(names, d)
  }

  /** The tree and the map before and after CREATE or MKDIR of path. */
  ghost predicate Grew(t: Tree, t': Tree, names: NameData, names': NameData, path: Path) {
    path != [] && TreeGrew(t, t', path) && NamesGrew(names, names', path)
  }

  ghost predicate Clean(t: Tree, names: NameData) { WellFormed(names) && GoodTree(t) }

  lemma CleanBelow(t: Tree, names: NameData, dir: Path)
    requires Clean(t, names) && IsDir(t, dir)
    ensures CleanDir(BucketOf(names, dir), t[dir].listing)
  {
    hide GoodBucket, SimpleName;
    BucketIsGood(names, dir);
  }

  lemma ComponentIsStable(t: Tree, t': Tree, names: NameData, names': NameData, path: Path, cur: Path, c: string)
    requires Grew(t, t', names, names', path) && Clean(t, names) && Clean(t', names') && PassesGate(c)
    requires Append(cur, RealName(t, names, cur, c)) <= path
    ensures RealName(t', names', cur, c) == RealName(t, names, cur, c)
  {
    hide Clean, AddsAlias, AddsListing, Choose, PassesGate, GoodBucket, SimpleName;
    if cur == Parent(path) {
      RealNameChooses(t, names, cur, c);
      RealNameChooses(t', names', cur, c);
      hide RealName;
      CleanBelow(t, names, cur);
      CleanBelow(t', names', cur);
      LastStep(t, names, path, cur, c);
      if c == "." {
        DotStays(BucketOf(names, cur), t[cur].listing);
        DotStays(BucketOf(names', cur), t'[cur].listing);
      } else {
        ChooseIsStable(BucketOf(names, cur), BucketOf(names', cur), t[cur].listing, t'[cur].listing, Last(path), c);
      }
    } else if cur == path {
      if c != "." { ComponentIsNamed(t, names, cur, c); }
      DotIsNothing(t, names, cur);
      DotIsNothing(t', names', cur);
    }
  }

  lemma DotIsNothing(t: Tree, names: NameData, cur: Path)
    requires Clean(t, names)
    ensures RealName(t, names, cur, ".") == "."
  {
    hide GoodBucket, SimpleName, BucketOf, Choose;
    if IsDir(t, cur) {
      CleanBelow(t, names, cur);
      RealNameChooses(t, names, cur, ".");
      DotStays(BucketOf(names, cur), t[cur].listing);
    } else {
      hide Clean;
      NoDir(t, names, cur, ".");
      BucketIsGood(names, cur);
      DotStays(BucketOf(names, cur), []);
    }
  }

  lemma NoDir(t: Tree, names: NameData, cur: Path, c: string)
    requires Clean(t, names) && !IsDir(t, cur)
    ensures WellFormed(names) && RealName(t, names, cur, c) == Choose(BucketOf(names, cur), [], Upper(c))
  {
    UpperTwice(c);
    hide BucketOf, WellFormed, GoodTree;
  }

  lemma LastStep(t: Tree, names: NameData, path: Path, cur: Path, c: string)
    requires path != [] && cur == Parent(path) && Clean(t, names) && PassesGate(c)
    requires Append(cur, RealName(t, names, cur, c)) <= path
    ensures c == "." || RealName(t, names, cur, c) == Last(path)
  {
    if c != "." {
      var n := RealName(t, names, cur, c);
      ComponentIsNamed(t, names, cur, c);
      hide RealName, Clean, SimpleName, PassesGate;
      assert (cur + [n])[|cur|] == path[|cur|];
    }
  }

  lemma ComponentIsNamed(t: Tree, names: NameData, cur: Path, c: string)
    requires Clean(t, names) && PassesGate(c) && c != "."
    ensures RealName(t, names, cur, c) != "."
  {
    UpperIsSimple(c);
    if Upper(c) in BucketOf(names, cur) {
      assert GoodBucket(BucketOf(names, cur));
    }
    hide GoodBucket, ValidAlias;
  }

  lemma {:induction false} WalkIsStable(t: Tree, t': Tree, names: NameData, names': NameData, path: Path,
                                        comps: seq<string>)
    requires Grew(t, t', names, names', path) && Clean(t, names) && Clean(t', names')
    requires forall c :: c in comps ==> PassesGate(c)
    requires Walk(t, names, comps) <= path
    ensures Walk(t', names', comps) == Walk(t, names, comps)
  {
    hide Grew, Clean, PassesGate, RealName;
    if comps != [] {
      var init, c := comps[..|comps| - 1], comps[|comps| - 1];
      var cur := Walk(t, names, init);
      forall d | d in init ensures PassesGate(d) { assert d in comps; }
      assert cur <= Walk(t, names, comps);
      WalkIsStable(t, t', names, names', path, init);
      assert c in comps;
      ComponentIsStable(t, t', names, names', path, cur, c);
    }
  }

  /** The path that CREATE resolved resolves to the same place afterwards. */
  lemma ResolveIsStable(t: Tree, t': Tree, names: NameData, names': NameData, dosPath: string)
    requires Clean(t, names) && Clean(t', names') && Resolve(t, names, dosPath).Some?
    requires Grew(t, t', names, names', Resolve(t, names, dosPath).value)
    ensures Resolve(t', names', dosPath) == Resolve(t, names, dosPath)
  {
    var comps := Components(dosPath);
    GatesPass(dosPath, comps);
    hide Components, PassesGate, Grew, Clean, GoodComponent;
    WalkIsStable(t, t', names, names', Walk(t, names, comps), comps);
  }

  // ----- Changes at a directory and below do not change the way to it -----

  /** Everything above the depth of dir is the same. */
  ghost predicate SameAbove(t: Tree, t': Tree, names: NameData, names': NameData, dir: Path) {
    forall d: Path :: |d| < |dir| ==>
      (d in t' <==> d in t) && (d in t ==> t'[d] == t[d]) && BucketOf(names', d) == BucketOf(names, d)
  }

  lemma {:induction false} WalkAbove(t: Tree, t': Tree, names: NameData, names': NameData, dir: Path,
                                     comps: seq<string>)
    requires SameAbove(t, t', names, names', dir) && Clean(t, names) && Clean(t', names')
    requires forall c :: c in comps ==> PassesGate(c)
    requires |Walk(t, names, comps)| <= |dir|
    ensures Walk(t', names', comps) == Walk(t, names, comps)
  {
    hide Clean, PassesGate, RealName;
    if comps != [] {
      var init, c := comps[..|comps| - 1], comps[|comps| - 1];
      forall d | d in init ensures PassesGate(d) { assert d in comps; }
      assert c in comps;
      var cur := Walk(t, names, init);
      WalkAbove(t, t', names, names', dir, init);
      if c == "." {
        DotIsNothing(t, names, cur);
        DotIsNothing(t', names', cur);
      } else {
        ComponentIsNamed(t, names, cur, c);
        SameStep(t, t', names, names', cur, c);
      }
    }
  }

  lemma SameStep(t: Tree, t': Tree, names: NameData, names': NameData, cur: Path, c: string)
    requires (cur in t' <==> cur in t) && (cur in t ==> t'[cur] == t[cur])
    requires BucketOf(names', cur) == BucketOf(names, cur)
    ensures RealName(t', names', cur, c) == RealName(t, names, cur, c)
  {
    hide BucketOf;
  }

  lemma GatesPass(dosPath: string, comps: seq<string>)
    requires comps == Components(dosPath) && forall c :: c in comps ==> GoodComponent(c)
    ensures forall c :: c in comps ==> PassesGate(c)
  {
    forall c | c in comps
      ensures PassesGate(c)
    {
      assert GoodComponent(c);
      SplitHasNoSep(StripDrive(dosPath), c);
    }
  }

  /** New aliases in a directory leave the way to it alone. */
  lemma ResolveToScanned(t: Tree, names: NameData, names': NameData, dosPath: string, dir: Path)
    requires Clean(t, names) && Clean(t, names') && Resolve(t, names, dosPath) == Some(dir)
    requires forall d :: d != dir ==> BucketOf(names', d) == BucketOf(names, d)
    ensures Resolve(t, names', dosPath) == Some(dir)
  {
    var comps := Components(dosPath);
    GatesPass(dosPath, comps);
    hide Components, PassesGate, Clean, GoodComponent, BucketOf, Walk;
    WalkAbove(t, t, names, names', dir, comps);
  }
}
