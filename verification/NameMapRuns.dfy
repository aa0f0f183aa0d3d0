/** The name map as the daemon keeps it: in memory, dirty or saved, over any run of operations. */
module NameMapRuns {
  import opened Options
  import opened Names
  import opened NameMaps

  /** The in-memory map, the saved file, and the dirty flag. */
  datatype MapState = MapState(data: NameData, disk: NameData, dirty: bool)

  datatype Op =
    | AliasForOp(name: string, dir: Path)
    | RemoveOp(name: string, dir: Path)
    | ScanOp(dir: Path, listing: seq<Listed>)
    | SaveAndRestart

  ghost function Changed(s: MapState, data: NameData, dir: Path): MapState {
    MapState(data, s.disk, s.dirty || BucketOf(data, dir) != BucketOf(s.data, dir))
  }

  ghost function SavedIfDirty(s: MapState): MapState {
    if s.dirty then MapState(s.data, s.data, false) else s
  }

  ghost function Step(s: MapState, op: Op): MapState {
    match op
    case AliasForOp(name, dir) => Changed(s, AliasFor(s.data, name, dir).0, dir)
    case RemoveOp(name, dir) => Changed(s, RemoveAlias(s.data, name, dir), dir)
    case ScanOp(dir, listing) => Changed(s, ScanDir(s.data, dir, listing).0, dir)
    case SaveAndRestart => var t := SavedIfDirty(s); MapState(t.disk, t.disk, false)
  }

  ghost function Run(s: MapState, ops: seq<Op>): MapState {
    if ops == [] then s else Step(Run(s, ops[..|ops| - 1]), ops[|ops| - 1])
  }

  ghost predicate GoodOp(op: Op) {
    match op
    case AliasForOp(name, _) => SimpleName(name)
    case ScanOp(_, listing) => forall e :: e in listing ==> SimpleName(e.name)
    case _ => true
  }

  /** Both copies are well-formed, and a clean flag means the file holds every alias. */
  ghost predicate GoodState(s: MapState) {
    WellFormed(s.data) && WellFormed(s.disk) && (!s.dirty ==> SameAliases(s.data, s.disk))
  }

  // ----- Scanning -----

  ghost predicate Extends(b: Bucket, b': Bucket) {
    forall a :: a in b ==> a in b' && b'[a] == b[a]
  }

  /** The listed entries a scan reports: all but the map file itself. */
  function Visible(listing: seq<Listed>): (v: seq<Listed>) {
    if listing == [] then []
    else
      var last := listing[|listing| - 1];
      Visible(listing[..|listing| - 1]) + (if last.name == NAMEMAP_FILE then [] else [last])
  }

  ghost predicate EntryFor(e: DirEntry, l: Listed, b: Bucket) {
    e.name == l.name && e.st == l.st && e.isDir == l.isDir && Denotes(b, e.alias, e.name) && ValidAlias(e.alias)
  }

  /** One entry per visible name, in order, each under an alias that denotes it. */
  ghost predicate EntriesFor(entries: seq<DirEntry>, listing: seq<Listed>, b: Bucket) {
    var v := Visible(listing);
    |entries| == |v| && forall i :: 0 <= i < |v| ==> EntryFor(entries[i], v[i], b)
  }

  lemma EntriesForExtends(entries: seq<DirEntry>, listing: seq<Listed>, b: Bucket, b': Bucket)
    requires EntriesFor(entries, listing, b) && Extends(b, b')
    ensures EntriesFor(entries, listing, b')
  {
    hide SameName;
    var v := Visible(listing);
    forall i | 0 <= i < |v|
      ensures EntryFor(entries[i], v[i], b')
    {
      assert EntryFor(entries[i], v[i], b);
    }
  }

  lemma {:induction false} ScanVerdict(data: NameData, dir: Path, listing: seq<Listed>)
    requires WellFormed(data) && forall e :: e in listing ==> SimpleName(e.name)
    ensures var (data', entries) := ScanDir(data, dir, listing);
            && WellFormed(data')
            && Extends(BucketOf(data, dir), BucketOf(data', dir))
            && (forall d :: d != dir ==> BucketOf(data', d) == BucketOf(data, d))
            && (entries.Some? ==> EntriesFor(entries.value, listing, BucketOf(data', dir)))
  {
    hide AliasIn, WellFormed;
    if listing != [] {
      var init, last := listing[..|listing| - 1], listing[|listing| - 1];
      ScanVerdict(data, dir, init);
      var (data1, entries) := ScanDir(data, dir, init);
      if entries.Some? && last.name != NAMEMAP_FILE {
        assert last in listing;
        ScanOne(data1, dir, init, last, entries.value);
      }
    }
  }

  /** alias_for registers one name at most. */
  lemma AliasForAddsOne(data: NameData, name: string, dir: Path)
    requires WellFormed(data) && SimpleName(name)
    ensures |BucketOf(AliasFor(data, name, dir).0, dir)| <= |BucketOf(data, dir)| + 1
  {
    var b, b' := BucketOf(data, dir), AliasIn(BucketOf(data, dir), name).0;
    AliasForVerdict(data, name, dir);
    BucketIsGood(data, dir);
    AliasInVerdict(b, name);
    hide GoodBucket, AliasIn, WellFormed, SimpleName;
    if b' != b { assert b'.Keys == b.Keys + {AliasIn(b, name).1.value}; }
    assert |b'| == |b'.Keys| && |b| == |b.Keys|;
  }

  lemma EmptyBucketIsGood()
    ensures GoodBucket(map[])
  {
  }

  lemma BucketIsGood(data: NameData, dir: Path)
    requires WellFormed(data)
    ensures GoodBucket(BucketOf(data, dir))
  {
    EmptyBucketIsGood();
    hide GoodBucket;
  }

  /** A scan never raises where the registered names and the listed entries are 9998 at most together. */
  lemma {:induction false} SmallScansNeverRaise(data: NameData, dir: Path, listing: seq<Listed>)
    requires WellFormed(data) && (forall e :: e in listing ==> SimpleName(e.name))
    requires |BucketOf(data, dir)| + |listing| <= LAST_SUFFIX
    ensures ScanDir(data, dir, listing).1.Some?
    ensures |BucketOf(ScanDir(data, dir, listing).0, dir)| <= |BucketOf(data, dir)| + |listing|
  {
    hide WellFormed, AliasFor, BucketOf, SimpleName;
    if listing != [] {
      var init, last := listing[..|listing| - 1], listing[|listing| - 1];
      assert last in listing && forall e :: e in init ==> e in listing;
      SmallScansNeverRaise(data, dir, init);
      ScanVerdict(data, dir, init);
      var data1 := ScanDir(data, dir, init).0;
      SmallBucketsNeverRaise(data1, last.name, dir);
      AliasForAddsOne(data1, last.name, dir);
    }
  }

  /** A name that has an alias keeps it. */
  lemma KnownStays(data: NameData, dir: Path, name: string, a: string)
    requires WellFormed(data) && Denotes(BucketOf(data, dir), a, name)
    ensures AliasFor(data, name, dir) == (data, Some(a))
  {
    var b := BucketOf(data, dir);
    BucketIsGood(data, dir);
    KnownAliasUnique(b, a, name);
    assert dir in data && data[dir := data[dir]] == data;
    hide WellFormed, GoodBucket, SameName;
  }

  lemma {:induction false} KnownScan(data: NameData, dir: Path, listing: seq<Listed>, entries: seq<DirEntry>)
    requires WellFormed(data) && EntriesFor(entries, listing, BucketOf(data, dir))
    ensures ScanDir(data, dir, listing) == (data, Some(entries))
    decreases |listing|
  {
    hide WellFormed, AliasFor, BucketOf, Denotes, ValidAlias;
    if listing != [] {
      var init, last := listing[..|listing| - 1], listing[|listing| - 1];
      if last.name == NAMEMAP_FILE {
        KnownScan(data, dir, init, entries);
      } else {
        var n := |entries| - 1;
        assert EntryFor(entries[n], Visible(listing)[n], BucketOf(data, dir));
        forall i | 0 <= i < n
          ensures EntryFor(entries[..n][i], Visible(init)[i], BucketOf(data, dir))
        {
          assert EntryFor(entries[i], Visible(listing)[i], BucketOf(data, dir));
        }
        KnownScan(data, dir, init, entries[..n]);
        KnownStays(data, dir, last.name, entries[n].alias);
        assert entries == entries[..n] + [entries[n]];
      }
    }
  }

  /** A second scan of the same directory reports the same entries under the same aliases and changes nothing. */
  lemma RescanIsSame(data: NameData, dir: Path, listing: seq<Listed>)
    requires WellFormed(data) && (forall e :: e in listing ==> SimpleName(e.name))
    requires ScanDir(data, dir, listing).1.Some?
    ensures var (data', entries) := ScanDir(data, dir, listing); ScanDir(data', dir, listing) == (data', entries)
  {
    ScanVerdict(data, dir, listing);
    KnownScan(ScanDir(data, dir, listing).0, dir, listing, ScanDir(data, dir, listing).1.value);
    hide *;
  }

  lemma AliasForExtends(data: NameData, name: string, dir: Path)
    requires WellFormed(data) && SimpleName(name)
    ensures var (data', r) := AliasFor(data, name, dir);
            && WellFormed(data')
            && Extends(BucketOf(data, dir), BucketOf(data', dir))
            && (forall d :: d != dir ==> BucketOf(data', d) == BucketOf(data, d))
            && (r.Some? ==> Denotes(BucketOf(data', dir), r.value, name) && ValidAlias(r.value))
  {
    AliasForVerdict(data, name, dir);
    AliasInVerdict(BucketOf(data, dir), name);
    hide WellFormed, GoodBucket, SameName;
  }

  lemma AppendEntry(entries: seq<DirEntry>, init: seq<Listed>, e: DirEntry, last: Listed, b: Bucket)
    requires EntriesFor(entries, init, b) && EntryFor(e, last, b) && last.name != NAMEMAP_FILE
    ensures EntriesFor(entries + [e], init + [last], b)
  {
    hide EntryFor;
    assert (init + [last])[..|init + [last]| - 1] == init;
    assert Visible(init + [last]) == Visible(init) + [last];
  }

  lemma ScanOne(data: NameData, dir: Path, init: seq<Listed>, last: Listed, entries: seq<DirEntry>)
    requires WellFormed(data) && SimpleName(last.name) && last.name != NAMEMAP_FILE
    requires EntriesFor(entries, init, BucketOf(data, dir))
    ensures var (data', r) := AliasFor(data, last.name, dir);
            && WellFormed(data')
            && Extends(BucketOf(data, dir), BucketOf(data', dir))
            && (forall d :: d != dir ==> BucketOf(data', d) == BucketOf(data, d))
            && (r.Some? ==> EntriesFor(entries + [DirEntry(r.value, last.name, last.st, last.isDir)], init + [last],
                                       BucketOf(data', dir)))
  {
    hide AliasFor, BucketOf, WellFormed, SameName, Visible, EntriesFor;
    AliasForExtends(data, last.name, dir);
    var (data', r) := AliasFor(data, last.name, dir);
    if r.Some? {
      EntriesForExtends(entries, init, BucketOf(data, dir), BucketOf(data', dir));
      var e := DirEntry(r.value, last.name, last.st, last.isDir);
      AppendEntry(entries, init, e, last, BucketOf(data', dir));
    }
  }

  // ----- Aliases are sticky -----

  ghost predicate Removes(op: Op, name: string, dir: Path) {
    op.RemoveOp? && op.dir == dir && SameName(op.name, name)
  }

  lemma ChangedIsGood(s: MapState, data: NameData, dir: Path)
    requires GoodState(s) && WellFormed(data)
    requires forall d :: d != dir ==> BucketOf(data, d) == BucketOf(s.data, d)
    ensures GoodState(Changed(s, data, dir))
  {
    hide WellFormed;
  }

  lemma StepKeepsGood(s: MapState, op: Op)
    requires GoodState(s) && GoodOp(op)
    ensures GoodState(Step(s, op))
  {
    match op
    case AliasForOp(name, dir) =>
      AliasForExtends(s.data, name, dir);
      ChangedIsGood(s, AliasFor(s.data, name, dir).0, dir);
    case RemoveOp(name, dir) =>
      RemoveAliasVerdict(s.data, name, dir);
      ChangedIsGood(s, RemoveAlias(s.data, name, dir), dir);
    case ScanOp(dir, listing) =>
      ScanVerdict(s.data, dir, listing);
      ChangedIsGood(s, ScanDir(s.data, dir, listing).0, dir);
    case SaveAndRestart =>
  }

  /** An operation on directory d leaves the bucket of dir alone or extends it, unless it removes. */
  lemma StepExtends(s: MapState, op: Op, dir: Path)
    requires GoodState(s) && GoodOp(op) && !op.RemoveOp?
    ensures Extends(BucketOf(s.data, dir), BucketOf(Step(s, op).data, dir))
  {
    match op
    case AliasForOp(name, d) => AliasForExtends(s.data, name, d);
    case ScanOp(d, listing) => ScanVerdict(s.data, d, listing);
    case SaveAndRestart =>
  }

  lemma RemoveKeepsOthers(data: NameData, removed: string, d: Path, name: string, dir: Path, a: string)
    requires WellFormed(data) && Denotes(BucketOf(data, dir), a, name)
    requires d != dir || !SameName(removed, name)
    ensures Denotes(BucketOf(RemoveAlias(data, removed, d), dir), a, name)
    ensures BucketOf(RemoveAlias(data, removed, d), dir)[a] == BucketOf(data, dir)[a]
  {
    RemoveAliasVerdict(data, removed, d);
    if d == dir {
      var b := BucketOf(data, dir);
      assert GoodBucket(b);
      WithoutVerdict(b, removed);
    }
  }

  lemma StepKeepsAlias(s: MapState, op: Op, name: string, dir: Path, a: string)
    requires GoodState(s) && GoodOp(op) && !Removes(op, name, dir)
    requires Denotes(BucketOf(s.data, dir), a, name)
    ensures Denotes(BucketOf(Step(s, op).data, dir), a, name)
    ensures BucketOf(Step(s, op).data, dir)[a] == BucketOf(s.data, dir)[a]
  {
    if op.RemoveOp? {
      RemoveKeepsOthers(s.data, op.name, op.dir, name, dir, a);
    } else {
      StepExtends(s, op, dir);
      hide Step, GoodState, SameName;
    }
  }

  /**
   * Over any run of operations, saves and restarts included, an alias keeps denoting its name and
   * the real name behind it never changes, unless a name equal to it up to case is removed from
   * that directory. The map stays well-formed: names pairwise distinct up to case, aliases valid.
   */
  lemma {:induction false} AliasesAreSticky(s: MapState, ops: seq<Op>, name: string, dir: Path, a: string)
    requires GoodState(s) && Denotes(BucketOf(s.data, dir), a, name)
    requires forall op :: op in ops ==> GoodOp(op) && !Removes(op, name, dir)
    ensures var t := Run(s, ops);
            && GoodState(t)
            && Denotes(BucketOf(t.data, dir), a, name)
            && BucketOf(t.data, dir)[a] == BucketOf(s.data, dir)[a]
            && AliasFor(t.data, name, dir).1 == Some(a)
  {
    hide Step, AliasIn;
    if ops == [] {
      AliasIsKnown(s.data, name, dir, a);
    } else {
      var op := ops[|ops| - 1];
      AliasesAreSticky(s, ops[..|ops| - 1], name, dir, a);
      assert op in ops;
      var t := Run(s, ops[..|ops| - 1]);
      StepKeepsGood(t, op);
      StepKeepsAlias(t, op, name, dir, a);
      AliasIsKnown(Step(t, op).data, name, dir, a);
    }
  }

  lemma AliasIsKnown(data: NameData, name: string, dir: Path, a: string)
    requires WellFormed(data) && Denotes(BucketOf(data, dir), a, name)
    ensures AliasFor(data, name, dir).1 == Some(a)
  {
    var b := BucketOf(data, dir);
    assert GoodBucket(b);
    KnownAliasUnique(b, a, name);
  }

  // ----- The object -----

  lemma {:induction false} ScanStops(data: NameData, dir: Path, listing: seq<Listed>, i: nat)
    requires i <= |listing| && ScanDir(data, dir, listing[..i]).1.None?
    ensures ScanDir(data, dir, listing) == ScanDir(data, dir, listing[..i])
    decreases |listing| - i
  {
    hide AliasFor;
    if i == |listing| {
      assert listing[..i] == listing;
    } else {
      assert listing[..i + 1][..i] == listing[..i];
      ScanStops(data, dir, listing, i + 1);
    }
  }

  lemma ExtendsTwice(b0: Bucket, b1: Bucket, b2: Bucket)
    requires Extends(b0, b1) && Extends(b1, b2)
    ensures b0 != b1 || b1 != b2 <==> b0 != b2
  {
  }

  /** Scanning one more entry: the alias for it, and the dirty flag that goes with it. */
  lemma ScanStep(s: MapState, dir: Path, listing: seq<Listed>, i: nat)
    requires WellFormed(s.data) && i < |listing| && forall e :: e in listing ==> SimpleName(e.name)
    requires ScanDir(s.data, dir, listing[..i]).1.Some?
    ensures var t := Step(s, ScanOp(dir, listing[..i]));
            var (data', entries) := ScanDir(s.data, dir, listing[..i + 1]);
            var e := listing[i];
            && WellFormed(data')
            && (e.name == NAMEMAP_FILE ==>
                  Step(s, ScanOp(dir, listing[..i + 1])) == t && entries == ScanDir(s.data, dir, listing[..i]).1)
            && (e.name != NAMEMAP_FILE ==>
                  var alias := AliasFor(t.data, e.name, dir).1;
                  && Step(s, ScanOp(dir, listing[..i + 1])) == Step(t, AliasForOp(e.name, dir))
                  && entries == if alias.None? then None
                                else Some(ScanDir(s.data, dir, listing[..i]).1.value
                                          + [DirEntry(alias.value, e.name, e.st, e.isDir)]))
  {
    hide AliasFor, WellFormed, EntriesFor, Denotes, ValidAlias, BucketOf;
    assert listing[..i + 1][..i] == listing[..i];
    ScanVerdict(s.data, dir, listing[..i]);
    ScanVerdict(s.data, dir, listing[..i + 1]);
    var data1 := ScanDir(s.data, dir, listing[..i]).0;
    assert listing[i] in listing;
    AliasForExtends(data1, listing[i].name, dir);
    ExtendsTwice(BucketOf(s.data, dir), BucketOf(data1, dir),
                 BucketOf(AliasFor(data1, listing[i].name, dir).0, dir));
  }

  class NameMap {
    var data: NameData
    var disk: NameData
    var dirty: bool

    ghost function State(): MapState
      reads this
    {
      MapState(data, disk, dirty)
    }

    /** Starts from the saved file. */
    constructor (saved: NameData)
      ensures State() == MapState(saved, saved, false)
    {
      data, disk, dirty := saved, saved, false;
    }

    method RealForAlias(alias: string, dir: Path) returns (r: Option<string>)
      ensures r == RealFor(data, alias, dir)
    {
      r := RealFor(data, alias, dir);
    }

    /** The loops that look for a name among the bucket's items, in whatever order they come. */
    method Find(b: Bucket, name: string) returns (r: Option<string>)
      ensures r.Some? <==> Knows(b, name)
      ensures r.Some? ==> Denotes(b, r.value, name)
    {
      var todo := b.Keys;
      while todo != {}
        invariant todo <= b.Keys
        invariant forall a :: a in b.Keys - todo ==> !Denotes(b, a, name)
        decreases |todo|
      {
        var a :| a in todo;
        if SameName(b[a], name) {
          assert Denotes(b, a, name);
          return Some(a);
        }
        todo := todo - {a};
      }
      return None;
    }

    /** The collision loop: the plain candidate, then ~1, ~2, ... until one is free. */
    method FreshAlias(bucket: Bucket, name: string) returns (r: Option<string>)
      requires !Knows(bucket, name)
      ensures r == AliasIn(bucket, name).1
    {
      hide Candidate, SameName;
      var candidate, n := Candidate(name, 0), 1;
      while candidate in bucket && !SameName(bucket[candidate], name)
        invariant 1 <= n <= LAST_SUFFIX + 1 && candidate == Candidate(name, n - 1)
        invariant FirstFree(bucket, name, 0) == FirstFree(bucket, name, n - 1)
        decreases LAST_SUFFIX + 1 - n
      {
        candidate := Candidate(name, n);
        n := n + 1;
        if n > 9999 {
          return None;
        }
      }
      assert !Denotes(bucket, candidate, name);
      return Some(candidate);
    }

    method AliasForName(name: string, dir: Path) returns (r: Option<string>)
      requires WellFormed(data)
      modifies this
      ensures State() == Step(old(State()), AliasForOp(name, dir))
      ensures r == AliasFor(old(data), name, dir).1
    {
      hide Candidate, SameName, FirstFree, ValidAlias, WellFormed, GoodBucket;
      BucketIsGood(data, dir);
      if dir !in data {
        data := data[dir := map[]];
      }
      var bucket := data[dir];
      r := Find(bucket, name);
      if r.Some? {
        KnownAliasUnique(bucket, r.value, name);
      } else {
        r := FreshAlias(bucket, name);
        if r.Some? {
          data := data[dir := bucket[r.value := name]];
          dirty := true;
        }
      }
    }

    method RemoveName(name: string, dir: Path)
      requires WellFormed(data)
      modifies this
      ensures State() == Step(old(State()), RemoveOp(name, dir))
    {
      hide SameName, ValidAlias;
      var bucket := BucketOf(data, dir);
      assert GoodBucket(bucket);
      var alias := Find(bucket, name);
      if alias.Some? {
        AliasIsNotEmpty(alias.value);
      }
      if alias.Some? && alias.value != "" {
        KnownAliasUnique(bucket, alias.value, name);
        bucket := bucket - {alias.value};
        if |bucket| == 0 {
          data := data - {dir};
        } else {
          data := data[dir := bucket];
        }
        dirty := true;
      }
    }

    method Scan(dir: Path, listing: seq<Listed>) returns (r: Option<seq<DirEntry>>)
      requires WellFormed(data) && forall e :: e in listing ==> SimpleName(e.name)
      modifies this
      ensures State() == Step(old(State()), ScanOp(dir, listing))
      ensures r == ScanDir(old(data), dir, listing).1
    {
      hide WellFormed, AliasFor;
      ghost var s0 := State();
      var results: seq<DirEntry> := [];
      var i := 0;
      while i < |listing|
        invariant 0 <= i <= |listing|
        invariant ScanDir(s0.data, dir, listing[..i]).1 == Some(results)
        invariant State() == Step(s0, ScanOp(dir, listing[..i]))
        invariant WellFormed(data)
      {
        var entry := listing[i];
        ScanStep(s0, dir, listing, i);
        if entry.name != NAMEMAP_FILE {
          var alias := AliasForName(entry.name, dir);
          if alias.None? {
            ScanStops(s0.data, dir, listing, i + 1);
            return None;
          }
          results := results + [DirEntry(alias.value, entry.name, entry.st, entry.isDir)];
        }
        i := i + 1;
      }
      assert listing[..i] == listing;
      return Some(results);
    }

    method SaveIfDirty()
      modifies this
      ensures State() == SavedIfDirty(old(State()))
    {
      if dirty {
        disk, dirty := data, false;
      }
    }
  }
}
