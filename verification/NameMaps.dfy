/** The persistent map from 8.3 aliases to real names, one bucket per directory. */
module NameMaps {
  import opened Options
  import opened Names

  /** A directory or file by its components from the served root. */
  type Path = seq<string>

  /** alias -> real name */
  type Bucket = map<string, string>

  type NameData = map<Path, Bucket>

  const NAMEMAP_FILE := ".serialdfs-namemap.json"

  /** The loop gives up once it has made suffix 9999, so ~9998 is the last it can hand out. */
  const LAST_SUFFIX: nat := 9998

  datatype Stat = Stat(size: nat, date: nat, time: nat)

  /** What a directory scan sees of one entry. */
  datatype Listed = Listed(name: string, st: Stat, isDir: bool)

  datatype DirEntry = DirEntry(alias: string, name: string, st: Stat, isDir: bool)

  /** A name a directory entry can have. */
  predicate SimpleName(name: string) {
    name != "" && name != "." && name != ".." && '/' !in name
  }

  function BucketOf(data: NameData, dir: Path): Bucket {
    if dir in data then data[dir] else map[]
  }

  function RealFor(data: NameData, alias: string, dir: Path): Option<string> {
    var b := BucketOf(data, dir);
    if Upper(alias) in b then Some(b[Upper(alias)]) else None
  }

  // ----- Well-formed maps -----

  ghost predicate GoodBucket(b: Bucket) {
    && (forall x, y :: x in b && y in b && SameName(b[x], b[y]) ==> x == y)
    && (forall a :: a in b ==> ValidAlias(a) && SimpleName(b[a]))
  }

  ghost predicate WellFormed(data: NameData) {
    forall d :: d in data ==> GoodBucket(data[d])
  }

  /** The two maps answer every look-up alike; an empty bucket counts as none. */
  ghost predicate SameAliases(x: NameData, y: NameData) {
    forall d :: BucketOf(x, d) == BucketOf(y, d)
  }

  // ----- alias_for -----

  ghost predicate Denotes(b: Bucket, a: string, name: string) { a in b && SameName(b[a], name) }

  ghost predicate Knows(b: Bucket, name: string) { exists a :: Denotes(b, a, name) }

  /** The alias the bucket has for the name; a good bucket has only one. */
  ghost function KnownAlias(b: Bucket, name: string): (a: string)
    requires Knows(b, name)
    ensures Denotes(b, a, name)
  {
    var a :| Denotes(b, a, name); a
  }

  /** The first candidate from n on that is not taken, or LAST_SUFFIX + 1. */
  function FirstFree(b: Bucket, name: string, n: nat): (k: nat)
    requires n <= LAST_SUFFIX + 1
    ensures n <= k <= LAST_SUFFIX + 1
    ensures k <= LAST_SUFFIX ==> Candidate(name, k) !in b
    decreases LAST_SUFFIX + 1 - n
  {
    if n > LAST_SUFFIX || Candidate(name, n) !in b then n else FirstFree(b, name, n + 1)
  }

  lemma {:induction false} SkippedIsTaken(b: Bucket, name: string, n: nat, i: nat)
    requires n <= LAST_SUFFIX && n <= i < FirstFree(b, name, n)
    ensures Candidate(name, i) in b
    decreases LAST_SUFFIX + 1 - n
  {
    hide Candidate;
    if n < i {
      SkippedIsTaken(b, name, n + 1, i);
    }
  }

  /** The new bucket and the alias, or none where the source raises NameMapError. */
  ghost function AliasIn(b: Bucket, name: string): (Bucket, Option<string>) {
    if Knows(b, name) then (b, Some(KnownAlias(b, name)))
    else
      var k := FirstFree(b, name, 0);
      if k > LAST_SUFFIX then (b, None)
      else (b[Candidate(name, k) := name], Some(Candidate(name, k)))
  }

  ghost function AliasFor(data: NameData, name: string, dir: Path): (NameData, Option<string>) {
    var (b, r) := AliasIn(BucketOf(data, dir), name);
    (data[dir := b], r)
  }

  ghost function Without(b: Bucket, name: string): Bucket {
    if Knows(b, name) then b - {KnownAlias(b, name)} else b
  }

  ghost function RemoveAlias(data: NameData, name: string, dir: Path): NameData {
    var b := Without(BucketOf(data, dir), name);
    if !Knows(BucketOf(data, dir), name) then data
    else if |b| == 0 then data - {dir}
    else data[dir := b]
  }

  /** A scan gives every listed entry its alias, in order, and stops where alias_for raises. */
  ghost function ScanDir(data: NameData, dir: Path, listing: seq<Listed>): (NameData, Option<seq<DirEntry>>) {
    if listing == [] then (data, Some([]))
    else
      var init, last := listing[..|listing| - 1], listing[|listing| - 1];
      var (data1, entries) := ScanDir(data, dir, init);
      if entries.None? || last.name == NAMEMAP_FILE then (data1, entries)
      else
        var (data2, alias) := AliasFor(data1, last.name, dir);
        if alias.None? then (data2, None)
        else (data2, Some(entries.value + [DirEntry(alias.value, last.name, last.st, last.isDir)]))
  }

  // ----- What one call promises -----

  lemma KnownAliasUnique(b: Bucket, a: string, name: string)
    requires GoodBucket(b) && Denotes(b, a, name)
    ensures Knows(b, name) && KnownAlias(b, name) == a
  {
  }

  ghost predicate TakenUpTo(b: Bucket, name: string, n: nat)
    requires n < 10000
  {
    forall k: nat :: k <= n ==> Candidate(name, k) in b
  }

  /**
   * alias_for raises exactly when the name is new and the plain candidate and ~1 to ~9998 are all
   * taken. Otherwise the alias denotes a name equal up to case, and an alias the bucket did not
   * hold before is a valid 8.3 name that was free.
   */
  lemma AliasInVerdict(b: Bucket, name: string)
    requires GoodBucket(b) && SimpleName(name)
    ensures var (b', r) := AliasIn(b, name);
            && GoodBucket(b')
            && (r.None? <==> !Knows(b, name) && TakenUpTo(b, name, LAST_SUFFIX))
            && (r.None? || Knows(b, name) ==> b' == b)
            && (r.Some? ==> ValidAlias(r.value) && Denotes(b', r.value, name))
            && (r.Some? && !Knows(b, name) ==> r.value !in b && b' == b[r.value := name])
  {
    if !Knows(b, name) {
      var k := FirstFree(b, name, 0);
      forall i: nat | i < k
        ensures Candidate(name, i) in b
      {
        SkippedIsTaken(b, name, 0, i);
      }
      if k <= LAST_SUFFIX {
        CandidateIsValid(name, k);
        forall x | x in b
          ensures !SameName(b[x], name)
        {
          assert !Denotes(b, x, name);
        }
        GoodBucketGrows(b, Candidate(name, k), name);
      }
    }
  }

  /** A new name is given the first candidate that is not taken. */
  lemma LeastCandidate(b: Bucket, name: string, k: nat)
    requires !Knows(b, name) && k <= LAST_SUFFIX && Candidate(name, k) !in b
    requires forall i: nat :: i < k ==> Candidate(name, i) in b
    ensures AliasIn(b, name) == (b[Candidate(name, k) := name], Some(Candidate(name, k)))
  {
    hide Candidate;
    var n := FirstFree(b, name, 0);
    if k < n { SkippedIsTaken(b, name, 0, k); }
  }

  /** alias_for keeps the map well-formed, changes its own directory only, and its alias looks the name up. */
  lemma AliasForVerdict(data: NameData, name: string, dir: Path)
    requires WellFormed(data) && SimpleName(name)
    ensures var (data', r) := AliasFor(data, name, dir);
            && WellFormed(data')
            && BucketOf(data', dir) == AliasIn(BucketOf(data, dir), name).0
            && (forall d :: d != dir ==> BucketOf(data', d) == BucketOf(data, d))
            && (r.Some? ==>
                  var found := RealFor(data', r.value, dir);
                  found.Some? && SameName(found.value, name))
  {
    AliasInVerdict(BucketOf(data, dir), name);
    var (b', r) := AliasIn(BucketOf(data, dir), name);
    BucketPut(data, dir, b');
    if r.Some? {
      AliasIsUpper(r.value);
    }
  }

  lemma BucketPut(data: NameData, dir: Path, b: Bucket)
    requires WellFormed(data) && GoodBucket(b)
    ensures WellFormed(data[dir := b]) && WellFormed(data - {dir})
    ensures forall d :: BucketOf(data[dir := b], d) == if d == dir then b else BucketOf(data, d)
    ensures forall d :: BucketOf(data - {dir}, d) == if d == dir then map[] else BucketOf(data, d)
  {
    forall d
      ensures BucketOf(data[dir := b], d) == if d == dir then b else BucketOf(data, d)
    {
    }
  }

  lemma GoodBucketGrows(b: Bucket, a: string, name: string)
    requires GoodBucket(b) && a !in b && ValidAlias(a) && SimpleName(name)
    requires forall x :: x in b ==> !SameName(b[x], name)
    ensures GoodBucket(b[a := name])
  {
  }

  lemma {:induction false} CandidatesAreKeys(b: Bucket, name: string, n: nat)
    requires n < 10000 && forall k: nat :: k <= n ==> Candidate(name, k) in b
    ensures SuffixedCandidates(name, n) <= b.Keys
  {
    if n > 0 {
      CandidatesAreKeys(b, name, n - 1);
    }
  }

  lemma SubsetIsSmaller<T>(a: set<T>, b: set<T>)
    requires a <= b
    ensures |a| <= |b|
  {
    assert b == a + (b - a);
  }

  lemma BucketHoldsCandidates(b: Bucket, name: string, n: nat)
    requires n < 10000 && TakenUpTo(b, name, n)
    ensures |b| >= n
  {
    CandidatesAreKeys(b, name, n);
    SuffixedCandidatesCount(name, n);
    SubsetIsSmaller(SuffixedCandidates(name, n), b.Keys);
    assert |b| == |b.Keys|;
  }

  /** A directory with fewer than 9998 registered names never runs out of aliases. */
  lemma SmallBucketsNeverRaise(data: NameData, name: string, dir: Path)
    requires WellFormed(data) && SimpleName(name) && |BucketOf(data, dir)| < LAST_SUFFIX
    ensures AliasFor(data, name, dir).1.Some?
  {
    AliasInVerdict(BucketOf(data, dir), name);
    if TakenUpTo(BucketOf(data, dir), name, LAST_SUFFIX) {
      BucketHoldsCandidates(BucketOf(data, dir), name, LAST_SUFFIX);
    }
  }

  lemma WithoutVerdict(b: Bucket, name: string)
    requires GoodBucket(b)
    ensures var b' := Without(b, name);
            && GoodBucket(b') && !Knows(b', name)
            && (forall a :: a in b' <==> a in b && !SameName(b[a], name))
            && (forall a :: a in b' ==> b'[a] == b[a])
  {
    if Knows(b, name) {
      forall a | a in b && SameName(b[a], name)
        ensures a == KnownAlias(b, name)
      {
        KnownAliasUnique(b, a, name);
      }
    } else {
      forall a | a in b
        ensures !SameName(b[a], name)
      {
        assert !Denotes(b, a, name);
      }
    }
  }

  /** remove_alias forgets exactly the names equal to the given one up to case. */
  lemma RemoveAliasVerdict(data: NameData, name: string, dir: Path)
    requires WellFormed(data)
    ensures var data' := RemoveAlias(data, name, dir);
            && WellFormed(data')
            && BucketOf(data', dir) == Without(BucketOf(data, dir), name)
            && (forall d :: d != dir ==> BucketOf(data', d) == BucketOf(data, d))
  {
    var b := BucketOf(data, dir);
    WithoutVerdict(b, name);
    BucketPut(data, dir, Without(b, name));
    if Knows(b, name) && |Without(b, name)| == 0 {
      assert Without(b, name) == map[];
    }
  }
}
