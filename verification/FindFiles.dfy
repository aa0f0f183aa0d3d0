/** FINDFIRST and FINDNEXT: a client-side batch cache over the server's cursor. */
module FindFiles {
  import opened Bytes
  import opened Options
  import opened Frame
  import opened Fcb
  import opened NameMaps
  import opened NameMapRuns
  import opened Os
  import opened Handles
  import opened FsOps
  import opened ServerRuns
  import opened Rpc
  import opened PathJail
  import opened CreatedPaths
  import opened Opening
  import opened Redirector
  import opened OpenArms
  import opened Listings

  const DIR_BATCH_MAX := 22

  // ----- The server's side -----

  /** What LIST_DIR enumerates: the directory's visible entries at the time of the request. */
  ghost function SnapshotOf(s: FsOps.Server, p: seq<byte>): Option<seq<DirEntry>> {
    if |p| < 2 || Locate(s, p).None? || !IsDir(s.os.tree, Locate(s, p).value) then None
    else ScanDir(s.names.data, Locate(s, p).value, ListingOf(s.os, Locate(s, p).value)).1
  }

  ghost predicate FirstPacks(entries: seq<DirEntry>) { AllPack(entries, 0, BatchEnd(0, |entries|)) }

  /** An enumeration in a slot: its snapshot and its cursor. */
  ghost predicate Enumerating(slots: Slots, hid: byte, entries: seq<DirEntry>, cursor: nat) {
    var d := GetDir(slots, hid);
    d.Some? && d.value.entries == entries && d.value.cursor == cursor
  }

  /**
   * LIST_DIR succeeds exactly on a directory whose aliases can all be made, with a slot free and the first
   * batch packing; it then takes one slot and sends the first batch behind the handle. When it fails, the
   * slots are as they were, except that a first batch which does not pack leaves its slot taken.
   */
  lemma ListDirVerdict(s: FsOps.Server, p: seq<byte>)
    ensures var (s', r) := ListDirBegin(s, p);
            var entries, k := SnapshotOf(s, p), Free(s.slots);
            && (r.status == STATUS_OK <==> entries.Some? && k < MAX_HANDLES && FirstPacks(entries.value))
            && (r.status == STATUS_OK ==>
                  var end := BatchEnd(0, |entries.value|);
                  && r.data == [k] + BatchBytes(entries.value, 0, end)
                  && Enumerating(s'.slots, k, entries.value, end))
            && (r.status != STATUS_OK ==>
                  if entries.Some? && k < MAX_HANDLES && !FirstPacks(entries.value) then
                    && r.status == ERR_IO
                    && s'.slots == Put(s.slots, k, Some(DirState(Locate(s, p).value, entries.value, 0)))
                  else s'.slots == s.slots)
  {
    hide Locate, ScanDir, ListingOf, Step, LeastFree, Packs, BatchBytes;
    if SnapshotOf(s, p).Some? && Free(s.slots) < MAX_HANDLES {
      FirstBatch(s.slots, Locate(s, p).value, SnapshotOf(s, p).value);
    }
  }

  /** A directory with 9998 registered names and entries at most always has a snapshot to list. */
  lemma SmallDirectoriesList(s: FsOps.Server, p: seq<byte>)
    requires WellFormed(s.names.data) && GoodTree(s.os.tree)
    requires |p| >= 2 && Locate(s, p).Some? && IsDir(s.os.tree, Locate(s, p).value)
    requires var dir := Locate(s, p).value;
             |BucketOf(s.names.data, dir)| + |s.os.tree[dir].listing| <= LAST_SUFFIX
    ensures SnapshotOf(s, p).Some?
  {
    var dir := Locate(s, p).value;
    ListingNames(s.os, dir);
    ListingLength(s.os, dir);
    SmallScansNeverRaise(s.names.data, dir, ListingOf(s.os, dir));
    hide *;
  }

  /** LIST_DIR registers aliases and touches nothing else below the slots; LIST_DIR_NEXT not even those. */
  lemma ListDirGround(s: FsOps.Server, p: seq<byte>, hid: byte)
    ensures var (s', r) := ListDirBegin(s, p);
            && s'.os == s.os
            && (r.status == STATUS_OK ==>
                  && |p| >= 2 && Locate(s, p).Some? && IsDir(s.os.tree, Locate(s, p).value)
                  && s'.names.data == ScanDir(s.names.data, Locate(s, p).value, ListingOf(s.os, Locate(s, p).value)).0)
    ensures ListDirNext(s, [hid]).0.os == s.os && ListDirNext(s, [hid]).0.names == s.names
  {
    hide Locate, ScanDir, ListingOf, LeastFree, EmitBatch;
  }

  /** Whatever becomes of a LIST_DIR, the aliases its scan has handed out are kept, and saved unless the scan raised. */
  lemma ListDirNames(s: FsOps.Server, p: seq<byte>)
    requires |p| >= 2 && Locate(s, p).Some? && IsDir(s.os.tree, Locate(s, p).value)
    ensures var s', dir := ListDirBegin(s, p).0, Locate(s, p).value;
            var (data, entries) := ScanDir(s.names.data, dir, ListingOf(s.os, dir));
            && s'.names.data == data
            && (entries.None? ==> s'.names.disk == s.names.disk)
            && (entries.Some? ==> !s'.names.dirty)
  {
    hide Locate, ScanDir, ListingOf, LeastFree, EmitBatch;
  }

  /** Listing a directory again finds the same snapshot, as long as nothing else happens. */
  lemma ListsAgain(s: FsOps.Server, p: seq<byte>, s': FsOps.Server)
    requires Good(s) && Good(s') && |p| >= 2 && Locate(s, p).Some? && IsDir(s.os.tree, Locate(s, p).value)
    requires SnapshotOf(s, p).Some? && s'.os == s.os
    requires s'.names.data == ScanDir(s.names.data, Locate(s, p).value, ListingOf(s.os, Locate(s, p).value)).0
    ensures SnapshotOf(s', p) == SnapshotOf(s, p)
  {
    var dir := Locate(s, p).value;
    GoodIsClean(s);
    GoodIsClean(s');
    GoodHasTree(s);
    WellFormedNames(s);
    ListingNames(s.os, dir);
    ScanVerdict(s.names.data, dir, ListingOf(s.os, dir));
    RescanIsSame(s.names.data, dir, ListingOf(s.os, dir));
    hide Good, Resolve, ScanDir, ListingOf, DosPath, Clean, WellFormed, GoodTree;
    ResolveToScanned(s.os.tree, s.names.data, s'.names.data, DosPath(p), dir);
  }

  lemma WellFormedNames(s: FsOps.Server)
    requires Good(s)
    ensures WellFormed(s.names.data)
  {
    hide WellFormed, Linked, GoodSearches;
  }

  /** A batch, sent or raised on, leaves the same slots occupied. */
  lemma EmitKeepsOccupied(slots: Slots, hid: nat)
    requires GetDir(slots, hid).Some?
    ensures Occupied(EmitBatch(slots, hid).0) == Occupied(slots)
  {
    hide AllPack, BatchBytes;
  }

  /** LIST_DIR takes one slot more when it succeeds, and gives none back when it fails. */
  lemma ListDirOccupies(s: FsOps.Server, p: seq<byte>)
    ensures var (s', r) := ListDirBegin(s, p);
            && Occupied(s.slots) <= Occupied(s'.slots)
            && (r.status == STATUS_OK ==>
                  && r.data != [] && r.data[0] !in Occupied(s.slots)
                  && Occupied(s'.slots) == Occupied(s.slots) + {r.data[0] as nat})
  {
    hide Locate, ScanDir, ListingOf, Step, LeastFree, EmitBatch, Occupied, SavedIfDirty;
    if SnapshotOf(s, p).Some? && Free(s.slots) < MAX_HANDLES {
      var k, d := Free(s.slots), DirState(Locate(s, p).value, SnapshotOf(s, p).value, 0);
      PutOccupies(s.slots, k, d);
      EmitKeepsOccupied(Put(s.slots, k, Some(d)), k);
    }
  }

  lemma ListDirNextOccupies(s: FsOps.Server, hid: byte, entries: seq<DirEntry>, cursor: nat)
    requires Enumerating(s.slots, hid, entries, cursor) && cursor < |entries|
    ensures Occupied(ListDirNext(s, [hid]).0.slots) == Occupied(s.slots)
  {
    hide Occupied, EmitBatch;
    EmitKeepsOccupied(s.slots, hid);
    EmitVerdict(s.slots, hid, entries, cursor);
    if AllPack(entries, cursor, BatchEnd(cursor, |entries|)) { BatchIsNotEmpty(entries, cursor); }
  }

  lemma BatchIsNotEmpty(entries: seq<DirEntry>, cursor: nat)
    requires cursor < |entries| && AllPack(entries, cursor, BatchEnd(cursor, |entries|))
    ensures BatchBytes(entries, cursor, BatchEnd(cursor, |entries|)) != []
  {
    hide BatchBytes, AllPack;
  }

  /** One batch: the entries from the cursor on, and the cursor behind them, or an error and nothing moved. */
  lemma EmitVerdict(slots: Slots, hid: nat, entries: seq<DirEntry>, cursor: nat)
    requires hid < MAX_HANDLES && Enumerating(slots, hid, entries, cursor) && cursor <= |entries|
    ensures var (slots', r) := EmitBatch(slots, hid);
            var end := BatchEnd(cursor, |entries|);
            if AllPack(entries, cursor, end) then
              r == Reply(STATUS_OK, BatchBytes(entries, cursor, end)) && Enumerating(slots', hid, entries, end)
            else r.status == ERR_IO && slots' == slots
  {
    hide Packs;
  }

  lemma FirstBatch(slots: Slots, dir: NameMaps.Path, entries: seq<DirEntry>)
    requires Free(slots) < MAX_HANDLES
    ensures var k, end := Free(slots), BatchEnd(0, |entries|);
            var slots1 := Put(slots, k, Some(DirState(dir, entries, 0)));
            var (slots', r) := EmitBatch(slots1, k);
            && GetDir(slots1, k) == Some(DirState(dir, entries, 0)) && slots1 != slots
            && (FirstPacks(entries) ==>
                  r == Reply(STATUS_OK, BatchBytes(entries, 0, end)) && Enumerating(slots', k, entries, end))
            && (!FirstPacks(entries) ==> r.status == ERR_IO && slots' == slots1)
  {
    var k := Free(slots);
    assert slots[k].None?;
    var slots1 := Put(slots, k, Some(DirState(dir, entries, 0)));
    assert slots1[k] != slots[k];
    hide AllPack, LeastFree, EmitBatch, BatchBytes;
    EmitVerdict(slots1, k, entries, 0);
  }

  /** LIST_DIR_NEXT with entries left: the next batch and the advanced cursor, or an error and nothing moved. */
  lemma ListDirNextVerdict(s: FsOps.Server, hid: byte, entries: seq<DirEntry>, cursor: nat)
    requires Enumerating(s.slots, hid, entries, cursor) && cursor < |entries|
    ensures var (s', r) := ListDirNext(s, [hid]);
            var end := BatchEnd(cursor, |entries|);
            if AllPack(entries, cursor, end) then
              r == Reply(STATUS_OK, BatchBytes(entries, cursor, end)) && Enumerating(s'.slots, hid, entries, end)
            else r.status == ERR_IO && s' == s
  {
    EmitVerdict(s.slots, hid, entries, cursor);
    hide AllPack, EmitBatch, BatchBytes;
    assert cursor < BatchEnd(cursor, |entries|);
  }

  // ----- The client's side -----

  /** The search block DOS keeps between calls, and the found file behind it. */
  class Dta {
    var tmpl: seq<byte>
    var attr: byte
    var dirEntry: nat
    var found: Found

    constructor ()
    {
      tmpl, attr, dirEntry, found := [], 0, 0, Found([], 0, 0, 0, 0);
    }
  }

  /** Where a search stands: the snapshot, and how much of it the client has passed. */
  class Finder {
    const tsr: Tsr
    const batch: array<byte>
    var count: nat
    var idx: nat
    var more: bool
    var hid: byte
    ghost var base: nat // the position in the snapshot of the first cached entry

    constructor (tsr: Tsr)
      requires tsr.client.Valid() && tsr.client.line.script == []
      ensures this.tsr == tsr && Valid() && fresh(batch)
    {
      hide Good;
      this.tsr, batch := tsr, new byte[DIR_BATCH_MAX * DIR_ENTRY_SIZE];
      count, idx, more, hid, base := 0, 0, false, 0, 0;
    }

    ghost predicate Valid()
      reads tsr.client.Parts(), tsr.client.crcTable
    {
      && tsr.client.Valid() && tsr.client.line.script == []
      && batch.Length == DIR_BATCH_MAX * DIR_ENTRY_SIZE && batch !in tsr.client.Parts()
    }

    /** The cache holds the snapshot's entries base..base+count, and knows whether that is all. */
    ghost predicate Cached(entries: seq<DirEntry>)
      reads this, batch
    {
      && idx <= count <= DIR_BATCH_MAX && DIR_ENTRY_SIZE * count <= batch.Length
      && base + count <= |entries| && AllPack(entries, base, base + count)
      && batch[..DIR_ENTRY_SIZE * count] == BatchBytes(entries, base, base + count)
      && (more <==> base + count < |entries|)
    }

    /** Copies a reply's entries into the cache. */
    method LoadBatch(src: seq<byte>, ghost entries: seq<DirEntry>, ghost start: nat, ghost end: nat)
      requires batch.Length == DIR_BATCH_MAX * DIR_ENTRY_SIZE
      requires start <= end <= |entries| && end - start <= DIR_BATCH_MAX && AllPack(entries, start, end)
      requires src == BatchBytes(entries, start, end) && (start == end ==> end == |entries|)
      modifies this, batch
      ensures Cached(entries) && base == start && base + count == end && idx == 0 && hid == old(hid)
    {
      hide AllPack, EncodeEntry, BatchBytes;
      BatchCount(|src|, end - start);
      var n := |src| / DIR_ENTRY_SIZE;
      if n > DIR_BATCH_MAX { n := DIR_BATCH_MAX; }
      assert src[..n * DIR_ENTRY_SIZE] == src;
      CopyBytes(batch, 0, src);
      assert batch[..|src|] == src;
      base, count, idx := start, n, 0;
      assert base + count == end && |src| == DIR_ENTRY_SIZE * count;
      more := LastIsMore(entries, src);
    }

    /** Whether the last cached entry says that the listing goes on. */
    method LastIsMore(ghost entries: seq<DirEntry>, ghost src: seq<byte>) returns (r: bool)
      requires base + count <= |entries| && AllPack(entries, base, base + count)
      requires src == BatchBytes(entries, base, base + count) && (count == 0 ==> base == |entries|)
      requires |src| == DIR_ENTRY_SIZE * count <= batch.Length && batch[..|src|] == src
      ensures r <==> base + count < |entries|
    {
      hide AllPack, EncodeEntry, BatchBytes;
      r := false;
      if count > 0 {
        LastFlagOf(entries, base, base + count, src);
        var at := (count - 1) * DIR_ENTRY_SIZE + 21;
        assert batch[..|src|][at] == src[at];
        r := batch[at] == 1;
      }
    }

    /** The cached entry at index i. */
    method EntryBytes(i: nat, ghost entries: seq<DirEntry>) returns (e: seq<byte>)
      requires Cached(entries) && i < count
      ensures Packs(entries[base + i]) && e == EncodeEntry(entries[base + i], base + i < |entries| - 1)
    {
      hide Packs, EncodeEntry;
      BatchAt(entries, base, base + count, i);
      hide BatchBytes;
      assert DIR_ENTRY_SIZE * (i + 1) <= DIR_ENTRY_SIZE * count;
      SliceOfPrefix(batch[..], DIR_ENTRY_SIZE * count, DIR_ENTRY_SIZE * i, DIR_ENTRY_SIZE * (i + 1));
      assert batch[..][..DIR_ENTRY_SIZE * count] == batch[..DIR_ENTRY_SIZE * count];
      e := batch[DIR_ENTRY_SIZE * i..DIR_ENTRY_SIZE * (i + 1)];
    }

    /** Scans the cache from idx for the first entry that passes, and leaves idx behind it. */
    method ScanBatch(q: Query, ghost entries: seq<DirEntry>) returns (e: Option<seq<byte>>)
      requires Cached(entries) && |q.tmpl| == 11
      modifies this`idx
      ensures Cached(entries)
      ensures var k := NextHit(entries, base + old(idx), base + count, q);
              && base + idx == (if k == base + count then k else k + 1)
              && FindsAt(e, entries, k, base + count)
    {
      hide Packs, AllPack, EncodeEntry, Passes, BatchBytes, FoundIn, FoundOf, NextHit;
      NothingBehind(entries, base + count, q);
      while idx < count
        invariant Cached(entries)
        invariant NextHit(entries, base + old(idx), base + count, q) == NextHit(entries, base + idx, base + count, q)
      {
        NextHitStep(entries, base + idx, base + count, q);
        var b := EntryBytes(idx, entries);
        var hit := PassesFilters(b, q, entries[base + idx], base + idx < |entries| - 1);
        idx := idx + 1;
        FoundInEntry(entries[base + idx - 1], base + idx - 1 < |entries| - 1);
        if hit { return Some(b); }
      }
      return None;
    }

    /** The snapshot goes on behind the cache, and the server stands there too. */
    ghost predicate Searching(entries: seq<DirEntry>)
      reads this, batch, tsr.client.Parts(), tsr.client.crcTable
    {
      Valid() && Cached(entries) && Enumerating(tsr.client.State().slots, hid, entries, base + count)
    }

    /** One LIST_DIR_NEXT. It fails where the server raises on the batch, and then nothing has moved. */
    method FetchMore(ghost entries: seq<DirEntry>) returns (ok: bool)
      requires Searching(entries) && more
      modifies this, batch, tsr.client.Parts()
      ensures Searching(entries) && hid == old(hid) && SameGround(old(tsr.client.State()), tsr.client.State())
      ensures ok <==> AllPack(entries, old(base + count), BatchEnd(old(base + count), |entries|))
      ensures ok ==> idx == 0 && base == old(base + count) && base + count == BatchEnd(base, |entries|)
      ensures !ok ==> base == old(base) && count == old(count) && idx == old(idx)
    {
      hide Good, Packs, BatchBytes, ListDirNext, Dispatch, Occupied;
      ghost var s, cursor := tsr.client.State(), base + count;
      ListDirNextVerdict(s, hid, entries, cursor);
      ListDirNextOccupies(s, hid, entries, cursor);
      ListDirGround(s, [], hid);
      NextIsDispatched(s, [hid]);
      var done, status, replyLen := Ask(tsr.client, CMD_LIST_DIR_NEXT, [hid]);
      if !done || status != STATUS_OK { return false; }
      assert replyLen > 0; // with entries left the reply is never empty, which would end the search too
      var src := tsr.client.reply[..replyLen];
      LoadBatch(src, entries, cursor, BatchEnd(cursor, |entries|));
      return true;
    }

    /** Once through the search loop: scan the cache, and fetch more if it held no hit. */
    method SearchOnce(q: Query, ghost entries: seq<DirEntry>, ghost limit: nat)
      returns (e: Option<seq<byte>>, goOn: bool)
      requires Searching(entries) && |q.tmpl| == 11 && limit == Reach(entries, base + count)
      modifies this, batch, tsr.client.Parts()
      ensures Searching(entries) && hid == old(hid) && limit == Reach(entries, base + count)
      ensures SameGround(old(tsr.client.State()), tsr.client.State())
      ensures goOn ==>
                && base + count > old(base + count)
                && NextHit(entries, base + idx, limit, q) == NextHit(entries, old(base + idx), limit, q)
      ensures !goOn ==>
                var k := NextHit(entries, old(base + idx), limit, q);
                FindsAt(e, entries, k, limit) && (e.Some? ==> base + idx == k + 1)
    {
      hide Good, AllPack, BatchBytes, Enumerating, Valid, FoundIn, FoundOf, Passes, Occupied, NextHit, Reach;
      ghost var pos, cursor := base + idx, base + count;
      ReachStep(entries, cursor);
      NextHitSplits(entries, pos, cursor, limit, q);
      e := ScanBatch(q, entries);
      if e.Some? { return e, false; }
      NothingBehind(entries, cursor, q);
      if !more { return None, false; }
      goOn := FetchMore(entries);
      return None, goOn;
    }

    /** The search loop; it ends because every fetch moves the cursor on. */
    method Search(q: Query, ghost entries: seq<DirEntry>) returns (e: Option<seq<byte>>)
      requires Searching(entries) && |q.tmpl| == 11
      modifies this, batch, tsr.client.Parts()
      ensures Searching(entries) && hid == old(hid) && SameGround(old(tsr.client.State()), tsr.client.State())
      ensures var k := NextHit(entries, old(base + idx), Reach(entries, old(base + count)), q);
              && FindsAt(e, entries, k, Reach(entries, old(base + count)))
              && (e.Some? ==> base + idx == k + 1)
      ensures Reach(entries, base + count) == Reach(entries, old(base + count))
    {
      hide Good, AllPack, BatchBytes, Enumerating, Valid, FindsAt, NextHit, Reach, Occupied;
      ghost var limit, pos := Reach(entries, base + count), base + idx;
      var goOn := true;
      e := None;
      while goOn
        invariant Searching(entries) && hid == old(hid) && Reach(entries, base + count) == limit
        invariant SameGround(old(tsr.client.State()), tsr.client.State())
        invariant goOn ==> NextHit(entries, pos, limit, q) == NextHit(entries, base + idx, limit, q)
        invariant !goOn ==>
                    var k := NextHit(entries, pos, limit, q);
                    FindsAt(e, entries, k, limit) && (e.Some? ==> base + idx == k + 1)
        decreases goOn, limit - base - count
      {
        e, goOn := SearchOnce(q, entries, limit);
      }
    }

    /** The client has passed the entries before next, and the DTA can resume there. */
    ghost predicate Holds(dta: Dta, entries: seq<DirEntry>, q: Query, next: nat)
      reads this, batch, dta, tsr.client.Parts(), tsr.client.crcTable
    {
      && Searching(entries) && base + idx == next && Reach(entries, base + count) == Reach(entries, 0)
      && |q.tmpl| == 11 && dta.dirEntry == idx && dta.tmpl == q.tmpl && dta.attr == q.attr
    }

    /** The arms' common end: search on, then report the entry and where to resume, or fail. */
    method Report(dta: Dta, error: nat, q: Query, ghost entries: seq<DirEntry>)
      requires Searching(entries) && |q.tmpl| == 11 && dta.tmpl == q.tmpl && dta.attr == q.attr && !tsr.carry
      requires Reach(entries, base + count) == Reach(entries, 0)
      modifies this, batch, dta`dirEntry, dta`found, tsr`ax, tsr`carry, tsr.client.Parts()
      ensures Searching(entries) && Valid() && SameGround(old(tsr.client.State()), tsr.client.State())
      ensures var k := NextHit(entries, old(base + idx), Reach(entries, 0), q);
              && (tsr.carry <==> k == Reach(entries, 0))
              && (tsr.carry ==> tsr.ax == error)
              && (!tsr.carry ==> dta.found == FoundOf(entries[k]) && Holds(dta, entries, q, k + 1))
    {
      hide Good, AllPack, BatchBytes, Enumerating, Valid, Reach, NextHit, FoundIn, FoundOf, Occupied;
      var e := Search(q, entries);
      if e.None? {
        tsr.Fail(error);
        return;
      }
      dta.found := FoundIn(e.value);
      dta.dirEntry := idx;
    }

    /** AL_FINDNEXT: the next entry that passes, or error 18. */
    method FindNext(dta: Dta, ghost entries: seq<DirEntry>, ghost q: Query, ghost next: nat)
      requires Holds(dta, entries, q, next)
      modifies this, batch, dta`dirEntry, dta`found, tsr`ax, tsr`carry, tsr.client.Parts()
      ensures Searching(entries) && Valid() && SameGround(old(tsr.client.State()), tsr.client.State())
      ensures var k := NextHit(entries, next, Reach(entries, 0), q);
              && (tsr.carry <==> k == Reach(entries, 0))
              && (tsr.carry ==> tsr.ax == 18)
              && (!tsr.carry ==> dta.found == FoundOf(entries[k]) && Holds(dta, entries, q, k + 1))
    {
      hide Good, AllPack, BatchBytes, Enumerating, Valid, Reach, NextHit, FoundOf, Occupied;
      tsr.Succeed();
      idx := dta.dirEntry;
      Report(dta, 18, Query(dta.tmpl, dta.attr), entries);
    }

    /** LIST_DIR, and the cache filled from its reply. */
    method Begin(p: seq<byte>) returns (ok: bool, ghost entries: seq<DirEntry>)
      requires Valid() && |p| <= MAX_PAYLOAD
      modifies this, batch, tsr.client.Parts()
      ensures Valid()
      ensures ok <==> Lists(old(tsr.client.State()), p)
      ensures Begun(old(tsr.client.State()), p, tsr.client.State())
      ensures ok ==>
                && entries == SnapshotOf(old(tsr.client.State()), p).value
                && Searching(entries) && base == idx == 0 && Reach(entries, base + count) == Reach(entries, 0)
    {
      hide Good, ListDirBegin, SnapshotOf, BatchBytes, Packs, Dispatch, LeastFree, Begun;
      ghost var s := tsr.client.State();
      ListDirVerdict(s, p);
      ListDirBegins(s, p);
      BeginIsDispatched(s, p);
      var done, status, replyLen := Ask(tsr.client, CMD_LIST_DIR, p);
      if !done || status != STATUS_OK || replyLen < 1 { return false, []; }
      entries := SnapshotOf(s, p).value;
      ghost var end := BatchEnd(0, |entries|);
      assert tsr.client.reply[..replyLen][0] == tsr.client.reply[0];
      assert tsr.client.reply[..replyLen][1..] == tsr.client.reply[1..replyLen];
      hid := tsr.client.reply[0];
      assert ([hid] + BatchBytes(entries, 0, end))[1..] == BatchBytes(entries, 0, end);
      LoadBatch(tsr.client.reply[1..replyLen], entries, 0, end);
      return true, entries;
    }

    /**
     * AL_FINDFIRST: the first entry of a new snapshot that passes, or error 2. srchTmpl and srchAttr are
     * DOS's template and attribute for the search.
     */
    method FindFirst(dta: Dta, fn1: seq<byte>, q: Query) returns (ghost entries: seq<DirEntry>)
      requires Valid() && 2 <= |fn1| < FN1_LIMIT && LastSlash(fn1) <= DIR_PATH_MAX && |q.tmpl| == 11
      modifies this, batch, dta, tsr`ax, tsr`carry, tsr.client.Parts()
      ensures Valid()
      ensures if !Lists(old(tsr.client.State()), DirPayload(fn1)) then tsr.carry && tsr.ax == 2
              else
                var k := NextHit(entries, 0, Reach(entries, 0), q);
                && entries == SnapshotOf(old(tsr.client.State()), DirPayload(fn1)).value && Searching(entries)
                && (tsr.carry <==> k == Reach(entries, 0))
                && (tsr.carry ==> tsr.ax == 2)
                && (!tsr.carry ==> dta.found == FoundOf(entries[k]) && Holds(dta, entries, q, k + 1))
      ensures Begun(old(tsr.client.State()), DirPayload(fn1), tsr.client.State())
    {
      hide Good, Lists, SnapshotOf, Reach, NextHit, FoundOf, Searching, Valid, LastSlash, DirPayload, Holds, Begun;
      ghost var s := tsr.client.State();
      tsr.Succeed();
      var p := DirRequest(fn1);
      var ok;
      ok, entries := Begin(p);
      if !ok {
        tsr.Fail(2);
        return;
      }
      ghost var now := tsr.client.State();
      FirstReport(dta, q, entries);
      StillBegun(s, p, now, tsr.client.State());
    }

    /** The DTA set up for the search, and its first entry. */
    method FirstReport(dta: Dta, q: Query, ghost entries: seq<DirEntry>)
      requires Searching(entries) && |q.tmpl| == 11 && !tsr.carry && base == idx == 0
      requires Reach(entries, base + count) == Reach(entries, 0)
      modifies this, batch, dta, tsr`ax, tsr`carry, tsr.client.Parts()
      ensures Searching(entries) && Valid() && SameGround(old(tsr.client.State()), tsr.client.State())
      ensures var k := NextHit(entries, 0, Reach(entries, 0), q);
              && (tsr.carry <==> k == Reach(entries, 0))
              && (tsr.carry ==> tsr.ax == 2)
              && (!tsr.carry ==> dta.found == FoundOf(entries[k]) && Holds(dta, entries, q, k + 1))
    {
      hide Good, Reach, NextHit, FoundOf, Searching, Valid, Holds, Occupied;
      dta.tmpl := q.tmpl;
      dta.attr := q.attr;
      Report(dta, 2, q, entries);
    }
  }

  /** LIST_DIR takes a slot and registers aliases if it succeeds, and gives no slot back if it fails. */
  ghost predicate Begun(s: FsOps.Server, p: seq<byte>, s': FsOps.Server) {
    && Occupied(s.slots) <= Occupied(s'.slots)
    && (Lists(s, p) ==> |Occupied(s'.slots)| == |Occupied(s.slots)| + 1 && Rescannable(s, p, s'))
  }

  lemma ListDirBegins(s: FsOps.Server, p: seq<byte>)
    ensures Begun(s, p, ListDirBegin(s, p).0)
  {
    hide ListDirBegin, Locate, Occupied, SnapshotOf, FirstPacks, LeastFree, ScanDir, ListingOf;
    ListDirVerdict(s, p);
    ListDirOccupies(s, p);
    ListDirGround(s, p, 0);
  }

  /** The same tree, map and occupied slots. */
  ghost predicate SameGround(s: FsOps.Server, s': FsOps.Server) {
    s'.os == s.os && s'.names == s.names && Occupied(s'.slots) == Occupied(s.slots)
  }

  lemma StillBegun(s: FsOps.Server, p: seq<byte>, now: FsOps.Server, s': FsOps.Server)
    requires Begun(s, p, now) && SameGround(now, s')
    ensures Begun(s, p, s')
  {
    hide Occupied, Locate, ScanDir, ListingOf, Lists;
  }

  /** The server after LIST_DIR, but for its slots. */
  ghost predicate Rescannable(s: FsOps.Server, p: seq<byte>, s': FsOps.Server) {
    && s'.os == s.os && |p| >= 2 && Locate(s, p).Some? && IsDir(s.os.tree, Locate(s, p).value)
    && s'.names.data == ScanDir(s.names.data, Locate(s, p).value, ListingOf(s.os, Locate(s, p).value)).0
  }

  ghost predicate Lists(s: FsOps.Server, p: seq<byte>) {
    SnapshotOf(s, p).Some? && Free(s.slots) < MAX_HANDLES && FirstPacks(SnapshotOf(s, p).value)
  }

  lemma BeginIsDispatched(s: FsOps.Server, p: seq<byte>)
    ensures Dispatch(s, CMD_LIST_DIR, p) == ListDirBegin(s, p)
  {
    hide ListDirBegin;
  }

  // ----- The directory part of fn1 -----

  /** The last backslash the buffer for the directory part has room for. */
  const DIR_PATH_MAX := 65

  /** The last index from 2 on that holds a backslash, or 2. */
  function LastSlash(fn1: seq<byte>): (i: nat)
    requires |fn1| >= 2
    ensures 2 <= i && (i < |fn1| || i == 2)
  {
    if |fn1| == 2 || |fn1| == 3 then 2
    else if fn1[|fn1| - 1] == BACKSLASH then |fn1| - 1
    else LastSlash(fn1[..|fn1| - 1])
  }

  /** A drive byte, the directory with its backslash, of which at most 63 bytes go out, and a NUL. */
  function DirPayload(fn1: seq<byte>): (p: seq<byte>)
    requires |fn1| >= 2
    ensures |p| <= 65
  {
    var last := LastSlash(fn1);
    var dir := if last < |fn1| then fn1[2..last + 1] else [];
    [0] + (if |dir| <= 63 then dir else dir[..63]) + [0]
  }

  /** get_dir_path, and the copy of its result into the request. */
  method DirRequest(fn1: seq<byte>) returns (p: seq<byte>)
    requires 2 <= |fn1| < FN1_LIMIT && LastSlash(fn1) <= DIR_PATH_MAX
    ensures p == DirPayload(fn1)
  {
    var lastSlash, i := 2, 2;
    while i < |fn1|
      invariant 2 <= i <= |fn1| && lastSlash == LastSlash(fn1[..i])
    {
      assert fn1[..i + 1][..i] == fn1[..i];
      if fn1[i] == BACKSLASH { lastSlash := i; }
      i := i + 1;
    }
    assert fn1[..i] == fn1;
    var dir := if lastSlash < |fn1| then fn1[2..lastSlash + 1] else [];
    p := [0];
    i := 0;
    while i < |dir| && i < 63
      invariant 0 <= i <= |dir| && i <= 63 && p == [0] + dir[..i]
    {
      p := p + [dir[i]];
      i := i + 1;
    }
    p := p + [0];
  }

  // ----- A whole search -----

  function Blocks(entries: seq<DirEntry>): seq<Found> {
    if entries == [] then [] else [FoundOf(entries[0])] + Blocks(entries[1..])
  }

  /**
   * FINDFIRST and FINDNEXT until one fails, as DIR does it: the entries of the snapshot that pass, in order
   * and each once; all of them exactly if every entry of the snapshot packs. The server still holds the
   * enumeration in a slot of its own afterwards. Nothing is found where LIST_DIR fails.
   */
  method FindAll(finder: Finder, dta: Dta, fn1: seq<byte>, q: Query)
    returns (all: seq<Found>, ghost entries: seq<DirEntry>)
    requires finder.Valid() && 2 <= |fn1| < FN1_LIMIT && LastSlash(fn1) <= DIR_PATH_MAX && |q.tmpl| == 11
    modifies finder, finder.batch, dta, finder.tsr`ax, finder.tsr`carry, finder.tsr.client.Parts()
    ensures finder.Valid() && finder.tsr.carry
    ensures Begun(old(finder.tsr.client.State()), DirPayload(fn1), finder.tsr.client.State())
    ensures if !Lists(old(finder.tsr.client.State()), DirPayload(fn1)) then all == []
            else
              && entries == SnapshotOf(old(finder.tsr.client.State()), DirPayload(fn1)).value
              && finder.Searching(entries)
              && all == Blocks(Filter(entries[..Reach(entries, 0)], q))
  {
    hide Good, Lists, SnapshotOf, Reach, FoundOf, Finder.Holds, Finder.Valid, Finder.Searching, LastSlash,
         NextHit, Delivered, Begun, Occupied;
    ghost var s := finder.tsr.client.State();
    ghost var found := Lists(finder.tsr.client.State(), DirPayload(fn1));
    all := [];
    entries := finder.FindFirst(dta, fn1, q);
    ghost var limit, next, now := Reach(entries, 0), 0, finder.tsr.client.State();
    ghost var k := NextHit(entries, 0, limit, q);
    NothingDelivered(entries, limit, q);
    if finder.tsr.carry {
      if found { AllDelivered(all, entries, next, limit, q); }
      return;
    }
    while !finder.tsr.carry
      invariant finder.Valid() && finder.Searching(entries) && next <= limit && k == NextHit(entries, next, limit, q)
      invariant finder.tsr.carry <==> k == limit
      invariant k < limit ==> dta.found == FoundOf(entries[k]) && finder.Holds(dta, entries, q, k + 1)
      invariant Delivered(all, entries, next, limit, q) && SameGround(now, finder.tsr.client.State())
      decreases limit - next
    {
      AnotherDelivered(all, entries, next, limit, q);
      all := all + [dta.found];
      next := k + 1;
      k := NextHit(entries, next, limit, q);
      finder.FindNext(dta, entries, q, next);
    }
    AllDelivered(all, entries, next, limit, q);
    StillBegun(s, DirPayload(fn1), now, finder.tsr.client.State());
  }

  /**
   * The same search run again and again, each time to its end: it finds the same while slots are free, and
   * nothing ever after, because none of the searches gives its slot back.
   */
  method FindMany(finder: Finder, dta: Dta, fn1: seq<byte>, q: Query, n: nat) returns (all: seq<seq<Found>>)
    requires finder.Valid() && 2 <= |fn1| < FN1_LIMIT && LastSlash(fn1) <= DIR_PATH_MAX && |q.tmpl| == 11
    requires Lists(finder.tsr.client.State(), DirPayload(fn1))
    modifies finder, finder.batch, dta, finder.tsr`ax, finder.tsr`carry, finder.tsr.client.Parts()
    ensures finder.Valid() && |all| == n && Taken(old(finder.tsr.client.State())) < MAX_HANDLES
    ensures Taken(finder.tsr.client.State()) == AtMost(Taken(old(finder.tsr.client.State())) + n, MAX_HANDLES)
    ensures var s := old(finder.tsr.client.State());
            forall i :: 0 <= i < n ==> all[i] == FoundNow(Taken(s) + i, SnapshotOf(s, DirPayload(fn1)).value, q)
  {
    hide Good, Lists, SnapshotOf, Reach, FoundOf, Finder.Valid, Finder.Searching, LastSlash, Taken, Begun, Rescannable,
         Blocks, Filter, DirPayload;
    ghost var p, s0 := DirPayload(fn1), finder.tsr.client.State();
    RoomToList(s0, p);
    all := [];
    while |all| < n
      invariant finder.Valid() && |all| <= n
      invariant Taken(finder.tsr.client.State()) == AtMost(Taken(s0) + |all|, MAX_HANDLES)
      invariant Taken(s0) + |all| < MAX_HANDLES ==>
                  && Lists(finder.tsr.client.State(), p)
                  && SnapshotOf(finder.tsr.client.State(), p) == SnapshotOf(s0, p)
      invariant forall i :: 0 <= i < |all| ==> all[i] == FoundNow(Taken(s0) + i, SnapshotOf(s0, p).value, q)
    {
      ghost var s := finder.tsr.client.State();
      ValidIsGood(finder);
      if Taken(s) == MAX_HANDLES { NoRoomToList(s, p); }
      var found, entries := FindAll(finder, dta, fn1, q);
      ValidIsGood(finder);
      AgainWhileRoom(s, p, finder.tsr.client.State());
      all := all + [found];
    }
  }

  ghost function Taken(s: FsOps.Server): nat { |Occupied(s.slots)| }

  function AtMost(n: nat, limit: nat): nat { if n < limit then n else limit }

  /** What a search finds with so many slots taken. */
  ghost function FoundNow(taken: nat, entries: seq<DirEntry>, q: Query): seq<Found>
    requires |q.tmpl| == 11
  {
    if taken < MAX_HANDLES then Blocks(Filter(entries[..Reach(entries, 0)], q)) else []
  }

  lemma RoomToList(s: FsOps.Server, p: seq<byte>)
    requires Lists(s, p)
    ensures Taken(s) < MAX_HANDLES && SnapshotOf(s, p).Some?
  {
    OccupiedBound(s.slots);
    FullTable(s.slots);
    hide SnapshotOf, FirstPacks, Occupied;
  }

  lemma NoRoomToList(s: FsOps.Server, p: seq<byte>)
    requires Taken(s) == MAX_HANDLES
    ensures !Lists(s, p)
  {
    FullTable(s.slots);
    hide SnapshotOf, FirstPacks, Occupied;
  }

  lemma ValidIsGood(finder: Finder)
    requires finder.Valid()
    ensures Good(finder.tsr.client.State())
  {
    hide Good;
  }

  /** After a search one slot more is taken, and the same directory can be listed again while there are others. */
  lemma AgainWhileRoom(s: FsOps.Server, p: seq<byte>, s': FsOps.Server)
    requires Good(s) && Good(s') && Begun(s, p, s')
    ensures Taken(s) <= Taken(s') <= MAX_HANDLES
    ensures Lists(s, p) ==> Taken(s') == Taken(s) + 1 && SnapshotOf(s', p) == SnapshotOf(s, p)
    ensures Lists(s, p) && Taken(s') < MAX_HANDLES ==> Lists(s', p)
  {
    hide Good, SnapshotOf, FirstPacks, Occupied, Locate, ScanDir, ListingOf;
    SubsetIsSmaller(Occupied(s.slots), Occupied(s'.slots));
    OccupiedBound(s'.slots);
    FullTable(s'.slots);
    if Lists(s, p) { ListsAgain(s, p, s'); }
  }

  /** With every slot taken nothing more can be opened, created or listed. */
  lemma FullTableFails(s: FsOps.Server, p: seq<byte>)
    requires GoodTree(s.os.tree) && |Occupied(s.slots)| == MAX_HANDLES
    ensures Open(s, p).1.status != STATUS_OK && Create(s, p).1.status != STATUS_OK
    ensures ListDirBegin(s, p).1.status != STATUS_OK
  {
    FullTable(s.slots);
    OpenSucceeds(s, p);
    CreateSucceeds(s, p);
    ListDirVerdict(s, p);
    hide *;
  }

  /** What has been delivered and what is still to come make up the whole. */
  ghost predicate Delivered(all: seq<Found>, entries: seq<DirEntry>, next: nat, limit: nat, q: Query)
    requires next <= limit <= |entries| && |q.tmpl| == 11
  {
    all + Blocks(Hits(entries, next, limit, q)) == Blocks(Hits(entries, 0, limit, q))
  }

  lemma NothingDelivered(entries: seq<DirEntry>, limit: nat, q: Query)
    requires limit <= |entries| && |q.tmpl| == 11
    ensures Delivered([], entries, 0, limit, q)
  {
  }

  lemma AnotherDelivered(all: seq<Found>, entries: seq<DirEntry>, next: nat, limit: nat, q: Query)
    requires next <= limit <= |entries| && |q.tmpl| == 11
    requires Delivered(all, entries, next, limit, q) && NextHit(entries, next, limit, q) < limit
    ensures var k := NextHit(entries, next, limit, q);
            Delivered(all + [FoundOf(entries[k])], entries, k + 1, limit, q)
  {
    hide FoundOf, NextHit;
    var k := NextHit(entries, next, limit, q);
    var rest := Hits(entries, k + 1, limit, q);
    assert ([entries[k]] + rest)[1..] == rest;
  }

  lemma AllDelivered(all: seq<Found>, entries: seq<DirEntry>, next: nat, limit: nat, q: Query)
    requires next <= limit <= |entries| && |q.tmpl| == 11
    requires Delivered(all, entries, next, limit, q) && NextHit(entries, next, limit, q) == limit
    ensures all == Blocks(Filter(entries[..limit], q))
  {
    hide FoundOf, NextHit, Filter;
    HitsAreFiltered(entries, 0, limit, q);
    assert entries[0..limit] == entries[..limit];
  }

  lemma NothingBehind(entries: seq<DirEntry>, i: nat, q: Query)
    requires i <= |entries| && |q.tmpl| == 11
    ensures NextHit(entries, i, i, q) == i
  {
  }

  lemma NextIsDispatched(s: FsOps.Server, p: seq<byte>)
    ensures Dispatch(s, CMD_LIST_DIR_NEXT, p) == ListDirNext(s, p)
  {
  }

  /** The bytes of the entry at k, or none at the limit. */
  ghost predicate FindsAt(e: Option<seq<byte>>, entries: seq<DirEntry>, k: nat, limit: nat)
    requires k <= limit <= |entries|
  {
    && (e.Some? <==> k < limit)
    && (e.Some? ==> |e.value| == DIR_ENTRY_SIZE && FoundIn(e.value) == FoundOf(entries[k]))
  }

  /** The attribute filter, then the template against the entry's FCB name. */
  method PassesFilters(b: seq<byte>, q: Query, ghost e: DirEntry, ghost flag: bool) returns (hit: bool)
    requires |q.tmpl| == 11 && Packs(e) && b == EncodeEntry(e, flag)
    ensures hit == Passes(e, q)
  {
    EntryFields(e, flag);
    AttrMatchMeaning(e, q.attr);
    hide Packs, EncodeEntry, Matches, AttrMatch, FcbOfField, NameField;
    if !AttrMatch(b[12], q.attr) { return false; }
    var fcbname := new byte[11];
    Name83ToFcb(fcbname, b[..12]);
    hit := FcbMatch(q.tmpl, fcbname);
  }

  lemma BatchCount(len: nat, n: nat)
    requires len == DIR_ENTRY_SIZE * n
    ensures len / DIR_ENTRY_SIZE == n
  {
  }

  /** The flag in a batch's last entry tells whether the listing goes on behind it. */
  lemma LastFlagOf(entries: seq<DirEntry>, start: nat, end: nat, src: seq<byte>)
    requires start < end <= |entries| && AllPack(entries, start, end) && src == BatchBytes(entries, start, end)
    ensures |src| == DIR_ENTRY_SIZE * (end - start)
    ensures src[(end - start - 1) * DIR_ENTRY_SIZE + 21] == if end < |entries| then 1 else 0
  {
    BatchAt(entries, start, end, end - start - 1);
    LastFlag(entries[end - 1], end - 1 < |entries| - 1, src, end - start - 1);
  }

  lemma LastFlag(e: DirEntry, flag: bool, src: seq<byte>, i: nat)
    requires Packs(e) && |src| == DIR_ENTRY_SIZE * (i + 1)
    requires src[DIR_ENTRY_SIZE * i..DIR_ENTRY_SIZE * (i + 1)] == EncodeEntry(e, flag)
    ensures src[i * DIR_ENTRY_SIZE + 21] == if flag then 1 else 0
  {
    EntryFields(e, flag);
    hide EncodeEntry, NameField, U16, U32;
    assert src[DIR_ENTRY_SIZE * i..DIR_ENTRY_SIZE * (i + 1)][21] == src[i * DIR_ENTRY_SIZE + 21];
  }
}
