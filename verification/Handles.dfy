/** The bounded table of open handles, ids 0 to 15. */
module Handles {
  import opened Options
  import opened NameMaps

  const MAX_HANDLES: nat := 16

  /** The offset shadows the position of the descriptor; flags: 0 read-only, 1 read-write, 2 write-only. */
  datatype Handle =
    | OpenHandle(path: Path, fd: nat, offset: nat, flags: nat)
    | DirState(path: Path, entries: seq<DirEntry>, cursor: nat)

  const EMPTY_SLOTS: seq<Option<Handle>> :=
    [None, None, None, None, None, None, None, None, None, None, None, None, None, None, None, None]

  type Slots = s: seq<Option<Handle>> | |s| == MAX_HANDLES witness EMPTY_SLOTS

  // ----- What the operations do to the table -----

  /** The least free slot at or above i, or MAX_HANDLES. */
  function LeastFree(slots: Slots, i: nat): (k: nat)
    requires i <= MAX_HANDLES
    ensures i <= k <= MAX_HANDLES
    ensures forall j :: i <= j < k ==> slots[j].Some?
    ensures k < MAX_HANDLES ==> slots[k].None?
    decreases MAX_HANDLES - i
  {
    if i < MAX_HANDLES && slots[i].Some? then LeastFree(slots, i + 1) else i
  }

  function Free(slots: Slots): (k: nat)
    ensures k <= MAX_HANDLES
  {
    LeastFree(slots, 0)
  }

  function Get(slots: Slots, hid: int): Option<Handle> {
    if 0 <= hid < MAX_HANDLES then slots[hid] else None
  }

  function GetFile(slots: Slots, hid: int): (h: Option<Handle>)
    ensures h.Some? ==> 0 <= hid < MAX_HANDLES && slots[hid] == h && h.value.OpenHandle?
  {
    if Get(slots, hid).Some? && Get(slots, hid).value.OpenHandle? then slots[hid] else None
  }

  function GetDir(slots: Slots, hid: int): (h: Option<Handle>)
    ensures h.Some? ==> 0 <= hid < MAX_HANDLES && slots[hid] == h && h.value.DirState?
  {
    if Get(slots, hid).Some? && Get(slots, hid).value.DirState? then slots[hid] else None
  }

  function Put(slots: Slots, hid: nat, h: Option<Handle>): Slots
    requires hid < MAX_HANDLES
  {
    slots[hid := h]
  }

  ghost function Occupied(slots: Slots): set<nat> {
    set i | 0 <= i < MAX_HANDLES && slots[i].Some?
  }

  lemma FullTable(slots: Slots)
    ensures Free(slots) == MAX_HANDLES <==> |Occupied(slots)| == MAX_HANDLES
  {
    hide Below;
    var k := Free(slots);
    if k == MAX_HANDLES {
      assert Occupied(slots) == Below(MAX_HANDLES);
    } else {
      SubsetIsSmaller(Occupied(slots), Below(MAX_HANDLES) - {k});
    }
  }

  lemma PutOccupies(slots: Slots, k: nat, h: Handle)
    requires k < MAX_HANDLES && slots[k].None?
    ensures Occupied(Put(slots, k, Some(h))) == Occupied(slots) + {k} && k !in Occupied(slots)
    ensures Put(Put(slots, k, Some(h)), k, None) == slots
  {
    var slots' := Put(slots, k, Some(h));
    forall i
      ensures i in Occupied(slots') <==> i in Occupied(slots) + {k}
    {
    }
    assert Put(slots', k, None) == slots;
  }

  /** Allocation fails exactly on a full table; it takes one slot, the least free one, and freeing it undoes it. */
  lemma AllocVerdict(slots: Slots, h: Handle)
    ensures var k := Free(slots);
            && (k == MAX_HANDLES <==> |Occupied(slots)| == MAX_HANDLES)
            && (k < MAX_HANDLES ==>
                  && k !in Occupied(slots) && (forall i: nat :: i < k ==> i in Occupied(slots))
                  && Occupied(Put(slots, k, Some(h))) == Occupied(slots) + {k}
                  && Get(Put(slots, k, Some(h)), k) == Some(h)
                  && Put(Put(slots, k, Some(h)), k, None) == slots)
  {
    hide LeastFree;
    FullTable(slots);
    if Free(slots) < MAX_HANDLES {
      PutOccupies(slots, Free(slots), h);
    }
  }

  ghost function Below(n: nat): (s: set<nat>)
    ensures |s| == n && forall i :: i in s <==> 0 <= i < n
  {
    if n == 0 then {} else Below(n - 1) + {n - 1}
  }

  // ----- The table -----

  class HandleTable {
    var slots: Slots

    constructor ()
      ensures slots == EMPTY_SLOTS
    {
      slots := EMPTY_SLOTS;
    }

    /** None stands for NoFreeHandles. */
    method Alloc(h: Handle) returns (hid: Option<nat>)
      modifies this
      ensures var k := Free(old(slots));
              if k == MAX_HANDLES then hid == None && slots == old(slots)
              else hid == Some(k) && slots == Put(old(slots), k, Some(h))
    {
      var i := 0;
      while i < MAX_HANDLES
        invariant 0 <= i <= MAX_HANDLES
        invariant slots == old(slots) && Free(slots) == LeastFree(slots, i)
      {
        if slots[i].None? {
          slots := slots[i := Some(h)];
          return Some(i);
        }
        i := i + 1;
      }
      return None;
    }

    /** None stands for BadHandle, here and below. */
    method Lookup(hid: int) returns (h: Option<Handle>)
      ensures h == Get(slots, hid)
    {
      if hid < 0 || hid >= MAX_HANDLES || slots[hid].None? { return None; }
      return slots[hid];
    }

    method LookupFile(hid: int) returns (h: Option<Handle>)
      ensures h == GetFile(slots, hid)
    {
      h := Lookup(hid);
      if h.Some? && !h.value.OpenHandle? { return None; }
    }

    method LookupDir(hid: int) returns (h: Option<Handle>)
      ensures h == GetDir(slots, hid)
    {
      h := Lookup(hid);
      if h.Some? && !h.value.DirState? { return None; }
    }

    /** An assignment to the fields of the handle in a slot. */
    method Update(hid: nat, h: Handle)
      requires Get(slots, hid).Some?
      modifies this
      ensures slots == Put(old(slots), hid, Some(h))
    {
      slots := slots[hid := Some(h)];
    }

    /** The released handle, whose descriptor the caller closes; a bad id releases nothing. */
    method Release(hid: int) returns (h: Option<Handle>)
      modifies this
      ensures h == Get(old(slots), hid)
      ensures slots == if h.Some? then Put(old(slots), hid, None) else old(slots)
    {
      if hid < 0 || hid >= MAX_HANDLES || slots[hid].None? { return None; }
      h := slots[hid];
      slots := slots[hid := None];
    }
  }
}
