/** The operating system below the daemon: a symlink-free tree, file contents and open descriptors. */
module Os {
  import opened Bytes
  import opened Names
  import opened NameMaps
  import opened Clock

  /** Everything has an inode; a directory lists its entries in iteration order. */
  datatype Node = Dir(ino: nat, listing: seq<string>) | File(ino: nat)

  type Tree = map<Path, Node>

  datatype Fd = Fd(ino: nat, pos: nat, writable: bool)

  /**
   * File contents and modification times go by inode. Inode and descriptor numbers are handed out from
   * counters; only their identity matters. The clock is the present instant.
   */
  datatype OS = OS(tree: Tree, inodes: map<nat, seq<byte>>, mtimes: map<nat, int>, fds: map<nat, Fd>,
                   nextIno: nat, nextFd: nat, clock: int, zone: Zone)

  predicate IsDir(t: Tree, p: Path) { p in t && t[p].Dir? }

  predicate IsFile(t: Tree, p: Path) { p in t && t[p].File? }

  function Parent(p: Path): Path
    requires p != []
  {
    p[..|p| - 1]
  }

  function Last(p: Path): string
    requires p != []
  {
    p[|p| - 1]
  }

  /** Everything but the root is listed in its parent directory. */
  ghost predicate Upward(t: Tree) {
    forall p :: p in t && p != [] ==> IsDir(t, Parent(p)) && Last(p) in t[Parent(p)].listing
  }

  /** Everything listed exists. */
  ghost predicate Downward(t: Tree) {
    forall p, n :: IsDir(t, p) && n in t[p].listing ==> p + [n] in t && SimpleName(n)
  }

  ghost predicate Distinct(l: seq<string>) { forall i, j :: 0 <= i < j < |l| ==> l[i] != l[j] }

  /** No directory lists a name twice. */
  ghost predicate Once(t: Tree) { forall p :: IsDir(t, p) ==> Distinct(t[p].listing) }

  ghost predicate GoodTree(t: Tree) { IsDir(t, []) && Upward(t) && Downward(t) && Once(t) }

  // ----- Directory listings, sorted by upper-case name as scan_dir sorts them -----

  predicate LexLeq(a: string, b: string) {
    a == [] || (b != [] && (a[0] < b[0] || (a[0] == b[0] && LexLeq(a[1..], b[1..]))))
  }

  /** Stable insertion: behind every element whose key is not greater. */
  function Insert(s: seq<string>, x: string): (r: seq<string>)
    ensures multiset(r) == multiset(s) + multiset{x}
  {
    if s == [] then [x]
    else
      var n := |s| - 1;
      assert s == s[..n] + [s[n]];
      if LexLeq(Upper(s[n]), Upper(x)) then s + [x] else Insert(s[..n], x) + [s[n]]
  }

  function SortByUpper(s: seq<string>): (r: seq<string>)
    ensures multiset(r) == multiset(s)
  {
    if s == [] then []
    else
      var n := |s| - 1;
      assert s == s[..n] + [s[n]];
      Insert(SortByUpper(s[..n]), s[n])
  }

  lemma {:induction false} LexTotal(a: string, b: string)
    ensures LexLeq(a, b) || LexLeq(b, a)
    ensures LexLeq(a, b) && LexLeq(b, a) ==> a == b
  {
    if a != [] && b != [] && a[0] == b[0] {
      LexTotal(a[1..], b[1..]);
      assert a == [a[0]] + a[1..] && b == [b[0]] + b[1..];
    }
  }

  lemma {:induction false} LexTransitive(a: string, b: string, c: string)
    requires LexLeq(a, b) && LexLeq(b, c)
    ensures LexLeq(a, c)
  {
    if a != [] && a[0] == b[0] == c[0] { LexTransitive(a[1..], b[1..], c[1..]); }
  }

  /** Upper-case names in non-decreasing order. */
  ghost predicate SortedByUpper(s: seq<string>) {
    forall i, j :: 0 <= i < j < |s| ==> LexLeq(Upper(s[i]), Upper(s[j]))
  }

  /** The names whose upper-case form is u, in order. */
  function WithUpper(s: seq<string>, u: string): seq<string> {
    if s == [] then []
    else WithUpper(s[..|s| - 1], u) + (if Upper(s[|s| - 1]) == u then [s[|s| - 1]] else [])
  }

  lemma {:induction false} InsertSorts(s: seq<string>, x: string)
    requires SortedByUpper(s)
    ensures SortedByUpper(Insert(s, x))
  {
    hide LexLeq, Upper;
    if s != [] {
      var n := |s| - 1;
      LexTotal(Upper(s[n]), Upper(x));
      if LexLeq(Upper(s[n]), Upper(x)) {
        forall i | 0 <= i < n
          ensures LexLeq(Upper(s[i]), Upper(x))
        {
          LexTransitive(Upper(s[i]), Upper(s[n]), Upper(x));
        }
      } else {
        InsertSorts(s[..n], x);
        var r := Insert(s[..n], x);
        forall i | 0 <= i < |r|
          ensures LexLeq(Upper(r[i]), Upper(s[n]))
        {
          assert r[i] in multiset(r);
          assert r[i] == x || r[i] in s[..n];
        }
      }
    }
  }

  lemma {:induction false} InsertIsStable(s: seq<string>, x: string, u: string)
    ensures WithUpper(Insert(s, x), u) == WithUpper(s, u) + (if Upper(x) == u then [x] else [])
  {
    hide LexLeq, Upper, WithUpper;
    WithUpperStep(s, x, u);
    if s != [] {
      var n := |s| - 1;
      if !LexLeq(Upper(s[n]), Upper(x)) {
        LexTotal(Upper(x), Upper(x));
        InsertIsStable(s[..n], x, u);
        WithUpperStep(s[..n], s[n], u);
        WithUpperStep(Insert(s[..n], x), s[n], u);
        assert s[..n] + [s[n]] == s;
      }
    } else {
      assert [] + [x] == [x];
    }
  }

  lemma WithUpperStep(s: seq<string>, x: string, u: string)
    ensures WithUpper(s + [x], u) == WithUpper(s, u) + (if Upper(x) == u then [x] else [])
  {
    hide Upper;
    assert (s + [x])[..|s|] == s;
  }

  /** The listing is sorted by upper-case name, and names equal up to case keep their order. */
  lemma {:induction false} SortVerdict(s: seq<string>, u: string)
    ensures SortedByUpper(SortByUpper(s)) && WithUpper(SortByUpper(s), u) == WithUpper(s, u)
  {
    hide LexLeq, Upper, Insert, SortedByUpper;
    if s == [] {
      EmptyIsSorted();
    } else {
      var n := |s| - 1;
      SortVerdict(s[..n], u);
      InsertSorts(SortByUpper(s[..n]), s[n]);
      InsertIsStable(SortByUpper(s[..n]), s[n], u);
    }
  }

  lemma EmptyIsSorted()
    ensures SortedByUpper([])
  {
  }

  lemma {:induction false} DistinctCounts(l: seq<string>)
    ensures Distinct(l) <==> forall n :: multiset(l)[n] <= 1
  {
    if l != [] {
      var k := |l| - 1;
      var init, last := l[..k], l[k];
      assert l == init + [last];
      DistinctCounts(init);
      if Distinct(l) {
        assert Distinct(init);
        assert last !in init;
        assert multiset(init)[last] == 0;
      } else if Distinct(init) {
        assert last in init;
        assert multiset(l)[last] >= 2;
      } else {
        var n :| multiset(init)[n] > 1;
        assert multiset(l)[n] > 1;
      }
    }
  }

  lemma SortKeepsDistinct(l: seq<string>)
    requires Distinct(l)
    ensures Distinct(SortByUpper(l)) && |SortByUpper(l)| == |l|
    ensures forall n :: n in SortByUpper(l) <==> n in l
  {
    hide Distinct;
    DistinctCounts(l);
    DistinctCounts(SortByUpper(l));
    assert |multiset(SortByUpper(l))| == |multiset(l)|;
    forall n
      ensures n in SortByUpper(l) <==> n in l
    {
      assert n in SortByUpper(l) <==> n in multiset(SortByUpper(l));
      assert n in l <==> n in multiset(l);
    }
  }

  function ModifiedAt(os: OS, ino: nat): int { if ino in os.mtimes then os.mtimes[ino] else 0 }

  function StatOf(os: OS, p: Path): Stat
    requires p in os.tree
  {
    var ino := os.tree[p].ino;
    var stamps := StampsAt(os.zone, ModifiedAt(os, ino));
    Stat(if IsFile(os.tree, p) && ino in os.inodes then |os.inodes[ino]| else 0, stamps.0, stamps.1)
  }

  /** What a scan of the directory sees: each entry with its stat, in sorted order. */
  function ListingOf(os: OS, dir: Path): (r: seq<Listed>)
    requires IsDir(os.tree, dir)
  {
    var names := SortByUpper(os.tree[dir].listing);
    seq(|names|, i requires 0 <= i < |names| =>
      var p := dir + [names[i]];
      if p in os.tree then Listed(names[i], StatOf(os, p), os.tree[p].Dir?)
      else Listed(names[i], Stat(0, 0, 0), false))
  }

  lemma ListingNames(os: OS, dir: Path)
    requires GoodTree(os.tree) && IsDir(os.tree, dir)
    ensures forall e :: e in ListingOf(os, dir) ==> e.name in os.tree[dir].listing && SimpleName(e.name)
    ensures forall n :: n in os.tree[dir].listing ==> exists e :: e in ListingOf(os, dir) && e.name == n
  {
    var l := os.tree[dir].listing;
    var names := SortByUpper(l);
    forall e | e in ListingOf(os, dir)
      ensures e.name in l && SimpleName(e.name)
    {
      var i :| 0 <= i < |names| && ListingOf(os, dir)[i] == e;
      assert names[i] in multiset(names);
      assert e.name in multiset(l);
    }
    forall n | n in l
      ensures exists e :: e in ListingOf(os, dir) && e.name == n
    {
      assert n in multiset(l);
      assert n in multiset(names);
      var i :| 0 <= i < |names| && names[i] == n;
      assert ListingOf(os, dir)[i].name == n;
    }
  }
}
