/** Directory entries as the client sees them, and what a search over a snapshot should find. */
module Listings {
  import opened Bytes
  import opened Options
  import opened Fcb
  import opened NameMaps
  import opened Handles
  import opened FsOps
  import opened ServerRuns

  // ----- One entry -----

  /** The found-file block DOS gets for an entry. */
  datatype Found = Found(fname: seq<byte>, attr: byte, time: int, date: int, size: int)

  function FcbOf(e: DirEntry): (r: seq<byte>)
    ensures |r| == 11
  {
    FcbOfField(NameField(e.alias))
  }

  function FoundOf(e: DirEntry): Found {
    Found(FcbOf(e), AttrOf(e), e.st.time, e.st.date, if e.isDir then 0 else e.st.size)
  }

  /** Hidden, system, volume and directory bits of the entry must be among those searched for. */
  predicate AttrMatch(entry: byte, search: byte) {
    && (entry / 2 % 2 == 1 ==> search / 2 % 2 == 1)
    && (entry / 4 % 2 == 1 ==> search / 4 % 2 == 1)
    && (entry / 8 % 2 == 1 ==> search / 8 % 2 == 1)
    && (entry / 16 % 2 == 1 ==> search / 16 % 2 == 1)
  }

  /** In bits: of 2, 4, 8 and 16, the entry has none that the search has not. */
  lemma AttrBits(entry: byte, search: byte)
    ensures AttrMatch(entry, search) <==> forall i :: 3 <= i <= 6 && OctetOf(entry)[i] ==> OctetOf(search)[i]
  {
    OctetBits(entry);
    OctetBits(search);
    hide OctetOf;
  }

  lemma OctetBits(b: byte)
    ensures var o := OctetOf(b);
            && o[6] == (b / 2 % 2 == 1) && o[5] == (b / 4 % 2 == 1) && o[4] == (b / 8 % 2 == 1)
            && o[3] == (b / 16 % 2 == 1)
  {
    BitsSplit(b, 7);
    BitsSplit(b / 2, 6);
    BitsSplit(b / 4, 5);
    BitsSplit(b / 8, 4);
    BitsSplit(b / 16, 3);
    hide BitsOf;
    assert b / 2 / 2 == b / 4 && b / 4 / 2 == b / 8 && b / 8 / 2 == b / 16;
  }

  lemma BitsSplit(n: nat, width: nat)
    ensures BitsOf(n, width + 1) == BitsOf(n / 2, width) + [n % 2 == 1]
  {
  }

  /** Of what the server sends, files always pass and directories when they are searched for. */
  lemma AttrMatchMeaning(e: DirEntry, search: byte)
    ensures AttrMatch(AttrOf(e), search) <==> (e.isDir ==> search / 16 % 2 == 1)
  {
  }

  datatype Query = Query(tmpl: seq<byte>, attr: byte)

  /** What a search is after: files, directories if asked for, with a name that matches. */
  ghost predicate Passes(e: DirEntry, q: Query)
    requires |q.tmpl| == 11
  {
    (e.isDir ==> q.attr / 16 % 2 == 1) && Matches(q.tmpl, FcbOf(e))
  }

  /** The fields of an entry sit where the client looks for them. */
  lemma EntryFields(e: DirEntry, more: bool)
    requires Packs(e)
    ensures var r := EncodeEntry(e, more);
            && r[..12] == NameField(e.alias) && r[12] == AttrOf(e)
            && r[13..15] == U16(e.st.date) && r[15..17] == U16(e.st.time)
            && r[17..21] == U32(if e.isDir then 0 else e.st.size)
            && r[21] == if more then 1 else 0
  {
    hide U16, U32, NameField;
    var name, attr, date, time := NameField(e.alias), [AttrOf(e)], U16(e.st.date), U16(e.st.time);
    var size, tail := U32(if e.isDir then 0 else e.st.size), [if more then 1 else 0, 0];
    var r := name + attr + date + time + size + tail;
    assert r == EncodeEntry(e, more);
  }

  /** found_file as it is filled from the 23 bytes of an entry. */
  function FoundIn(r: seq<byte>): Found
    requires |r| == DIR_ENTRY_SIZE
  {
    Found(FcbOfField(r[..12]), r[12], FromU16(r[15..17]), FromU16(r[13..15]), FromU32(r[17..21]))
  }

  lemma FoundInEntry(e: DirEntry, more: bool)
    requires Packs(e)
    ensures FoundIn(EncodeEntry(e, more)) == FoundOf(e)
  {
    EntryFields(e, more);
    U16RoundTrip(e.st.date);
    U16RoundTrip(e.st.time);
    U32RoundTrip(if e.isDir then 0 else e.st.size);
    hide U16, U32, FromU16, FromU32, NameField, FcbOfField, EncodeEntry;
  }

  // ----- One batch -----

  lemma {:induction false} BatchAt(entries: seq<DirEntry>, lo: nat, hi: nat, j: nat)
    requires lo <= hi <= |entries| && AllPack(entries, lo, hi) && j < hi - lo
    ensures var r := BatchBytes(entries, lo, hi);
            && |r| == DIR_ENTRY_SIZE * (hi - lo)
            && r[DIR_ENTRY_SIZE * j..DIR_ENTRY_SIZE * (j + 1)] == EncodeEntry(entries[lo + j], lo + j < |entries| - 1)
    decreases hi
  {
    hide EncodeEntry, Packs;
    if j < hi - lo - 1 {
      BatchAt(entries, lo, hi - 1, j);
      var init := BatchBytes(entries, lo, hi - 1);
      assert DIR_ENTRY_SIZE * (j + 1) <= |init|;
      assert BatchBytes(entries, lo, hi)[DIR_ENTRY_SIZE * j..DIR_ENTRY_SIZE * (j + 1)]
        == init[DIR_ENTRY_SIZE * j..DIR_ENTRY_SIZE * (j + 1)];
    }
  }

  // ----- Searching a snapshot -----

  /** The first entry in i..limit that passes, or limit. */
  ghost function NextHit(entries: seq<DirEntry>, i: nat, limit: nat, q: Query): (k: nat)
    requires i <= limit <= |entries| && |q.tmpl| == 11
    ensures i <= k <= limit
    decreases limit - i
  {
    if i == limit || Passes(entries[i], q) then i else NextHit(entries, i + 1, limit, q)
  }

  lemma NextHitStep(entries: seq<DirEntry>, i: nat, limit: nat, q: Query)
    requires i < limit <= |entries| && |q.tmpl| == 11
    ensures NextHit(entries, i, limit, q) == if Passes(entries[i], q) then i else NextHit(entries, i + 1, limit, q)
  {
    hide Passes;
  }

  /** A search that runs over a batch boundary goes on behind it. */
  lemma {:induction false} NextHitSplits(entries: seq<DirEntry>, i: nat, mid: nat, limit: nat, q: Query)
    requires i <= mid <= limit <= |entries| && |q.tmpl| == 11
    ensures NextHit(entries, i, limit, q)
            == if NextHit(entries, i, mid, q) < mid then NextHit(entries, i, mid, q)
               else NextHit(entries, mid, limit, q)
    decreases mid - i
  {
    hide Passes;
    if i < mid {
      NextHitSplits(entries, i + 1, mid, limit, q);
    }
  }

  /** The entries that pass, in order. */
  ghost function Filter(entries: seq<DirEntry>, q: Query): seq<DirEntry>
    requires |q.tmpl| == 11
  {
    if entries == [] then []
    else (if Passes(entries[0], q) then [entries[0]] else []) + Filter(entries[1..], q)
  }

  /** What hit after hit delivers from position i on, up to limit. */
  ghost function Hits(entries: seq<DirEntry>, i: nat, limit: nat, q: Query): seq<DirEntry>
    requires i <= limit <= |entries| && |q.tmpl| == 11
    decreases limit - i
  {
    var k := NextHit(entries, i, limit, q);
    if k == limit then [] else [entries[k]] + Hits(entries, k + 1, limit, q)
  }

  lemma {:induction false} HitsAreFiltered(entries: seq<DirEntry>, i: nat, limit: nat, q: Query)
    requires i <= limit <= |entries| && |q.tmpl| == 11
    ensures Hits(entries, i, limit, q) == Filter(entries[i..limit], q)
    decreases limit - i
  {
    hide Passes;
    if i < limit {
      assert entries[i..limit][1..] == entries[i + 1..limit];
      HitsAreFiltered(entries, i + 1, limit, q);
    }
  }

  // ----- How far an enumeration gets -----

  /**
   * The batch boundary an enumeration from cursor c reaches: the end, unless an entry that does not pack
   * makes the server raise on its batch each time it is asked.
   */
  function Reach(entries: seq<DirEntry>, c: nat): (r: nat)
    requires c <= |entries|
    ensures c <= r <= |entries|
    decreases |entries| - c
  {
    if c < |entries| && AllPack(entries, c, BatchEnd(c, |entries|)) then Reach(entries, BatchEnd(c, |entries|)) else c
  }

  lemma ReachStep(entries: seq<DirEntry>, c: nat)
    requires c <= |entries|
    ensures Reach(entries, c)
            == if c < |entries| && AllPack(entries, c, BatchEnd(c, |entries|))
               then Reach(entries, BatchEnd(c, |entries|))
               else c
  {
  }

  /** An enumeration reaches the end exactly if every entry packs. */
  lemma {:induction false} ReachVerdict(entries: seq<DirEntry>, c: nat)
    requires c <= |entries|
    ensures Reach(entries, c) == |entries| <==> AllPack(entries, c, |entries|)
    decreases |entries| - c
  {
    hide Packs;
    if c < |entries| && AllPack(entries, c, BatchEnd(c, |entries|)) {
      ReachVerdict(entries, BatchEnd(c, |entries|));
    }
  }
}
