/** The redirector's arms that are one request each: delete, rename, directories, and seeking from the end. */
module PathArms {
  import opened Bytes
  import opened Options
  import opened Frame
  import opened NameMaps
  import opened Os
  import opened PathJail
  import opened Files
  import opened Handles
  import opened FsOps
  import opened ServerRuns
  import opened Rpc
  import opened Transfers
  import opened Opening
  import opened Effects
  import opened Redirector
  import opened OpenArms
  import opened Texts
  import opened Requests

  /** A request whose reply carries nothing but its status. */
  method AskStatus(tsr: Tsr, cmd: byte, p: seq<byte>)
    requires tsr.client.Valid() && |p| <= MAX_PAYLOAD && !tsr.carry
    modifies tsr`ax, tsr`carry, tsr.client.Parts()
    ensures tsr.client.Valid() && Repeated(old(tsr.client.State()), cmd, p, tsr.client.State())
    ensures old(tsr.client.line.script) == [] ==>
              var (s', r) := Dispatch(old(tsr.client.State()), cmd, p);
              && tsr.client.line.script == [] && tsr.client.State() == s'
              && (tsr.carry <==> r.status != STATUS_OK) && (tsr.carry ==> tsr.ax == DosError(r.status))
  {
    hide Good, Dispatch, Repeated, AnsweredBy, DosError;
    var done, status, _ := Ask(tsr.client, cmd, p);
    if !done || status != STATUS_OK { tsr.Fail(DosError(status)); }
  }

  lemma PathHandlers(s: FsOps.Server, p: seq<byte>)
    ensures Dispatch(s, CMD_DELETE, p) == Delete(s, p) && Dispatch(s, CMD_RMDIR, p) == RemoveDir(s, p)
    ensures Dispatch(s, CMD_MKDIR, p) == MakeDirectory(s, p) && Dispatch(s, CMD_RENAME, p) == Rename(s, p)
    ensures Dispatch(s, CMD_SEEK, p) == Seek(s, p)
  {
    hide Delete, RemoveDir, MakeDirectory, Rename, Seek;
  }

  lemma ServerHasTree(client: Client)
    requires client.Valid()
    ensures GoodTree(client.State().os.tree)
  {
    hide Good, GoodTree;
    GoodHasTree(client.State());
  }

  /** AL_DELETE. Without losses it succeeds exactly on a file, and otherwise fails with DOS error 2, 3 or 5. */
  method DeleteFile(tsr: Tsr, fn1: seq<byte>)
    requires tsr.client.Valid() && |fn1| < FN1_LIMIT
    modifies tsr`ax, tsr`carry, tsr.client.Parts()
    ensures tsr.client.Valid()
    ensures |fn1| < 2 ==> tsr.carry && tsr.ax == 2 && tsr.client.State() == old(tsr.client.State())
    ensures old(tsr.client.line.script) == [] && |fn1| >= 2 ==>
              var s, q := old(tsr.client.State()), PathPayload(0, fn1);
              && tsr.client.line.script == [] && tsr.client.State() == Delete(s, q).0
              && (!tsr.carry <==> NamesFile(s, q))
              && (NamesNothing(s, q) ==> tsr.ax == 2)
              && (NamesDir(s, q) ==> tsr.ax == 5)
              && (Locate(s, q).None? ==> tsr.ax == 3)
  {
    hide Good, GoodTree, Dispatch, Delete, PathPayload, Locate, Repeated;
    tsr.Succeed();
    if |fn1| < 2 {
      tsr.Fail(2);
      return;
    }
    var p := CopyFn1Path(0, fn1);
    ServerHasTree(tsr.client);
    PathHandlers(tsr.client.State(), p);
    DeleteSucceeds(tsr.client.State(), p);
    AskStatus(tsr, CMD_DELETE, p);
  }

  /** AL_RMDIR. Without losses it succeeds exactly on a directory that lists nothing, the root apart. */
  method RemoveDirectory(tsr: Tsr, fn1: seq<byte>)
    requires tsr.client.Valid() && |fn1| < FN1_LIMIT
    modifies tsr`ax, tsr`carry, tsr.client.Parts()
    ensures tsr.client.Valid()
    ensures |fn1| < 2 ==> tsr.carry && tsr.ax == 3 && tsr.client.State() == old(tsr.client.State())
    ensures old(tsr.client.line.script) == [] && |fn1| >= 2 ==>
              var s, q := old(tsr.client.State()), PathPayload(0, fn1);
              && tsr.client.line.script == [] && tsr.client.State() == RemoveDir(s, q).0
              && (!tsr.carry <==>
                    NamesDir(s, q) && Locate(s, q).value != [] && s.os.tree[Locate(s, q).value].listing == [])
              && (NamesNothing(s, q) ==> tsr.ax == 2)
              && (Locate(s, q).None? ==> tsr.ax == 3)
              && (tsr.carry && (NamesFile(s, q) || NamesDir(s, q)) ==> tsr.ax == 5)
  {
    hide Good, GoodTree, Dispatch, RemoveDir, PathPayload, Locate, Repeated;
    tsr.Succeed();
    if |fn1| < 2 {
      tsr.Fail(3);
      return;
    }
    var p := CopyFn1Path(0, fn1);
    ServerHasTree(tsr.client);
    PathHandlers(tsr.client.State(), p);
    RemoveDirSucceeds(tsr.client.State(), p);
    AskStatus(tsr, CMD_RMDIR, p);
  }

  /** AL_MKDIR. Without losses it succeeds exactly for a new name, with an alias left, in an existing directory. */
  method CreateDirectory(tsr: Tsr, fn1: seq<byte>)
    requires tsr.client.Valid() && |fn1| < FN1_LIMIT
    modifies tsr`ax, tsr`carry, tsr.client.Parts()
    ensures tsr.client.Valid()
    ensures |fn1| < 2 ==> tsr.carry && tsr.ax == 3 && tsr.client.State() == old(tsr.client.State())
    ensures old(tsr.client.line.script) == [] && |fn1| >= 2 ==>
              var s, q := old(tsr.client.State()), PathPayload(0, fn1);
              && tsr.client.line.script == [] && tsr.client.State() == MakeDirectory(s, q).0
              && (NamesNothing(s, q) ==> Locate(s, q).value != [])
              && (!tsr.carry <==>
                    && NamesNothing(s, q) && IsDir(s.os.tree, Parent(Locate(s, q).value))
                    && HasAlias(s.names.data, Locate(s, q).value))
              && (NamesFile(s, q) || NamesDir(s, q) ==> tsr.ax == 80)
              && (Locate(s, q).None? ==> tsr.ax == 3)
              && (NamesNothing(s, q) && Parent(Locate(s, q).value) !in s.os.tree ==> tsr.ax == 2)
  {
    hide Good, GoodTree, Dispatch, MakeDirectory, PathPayload, Locate, Repeated, AliasFor;
    tsr.Succeed();
    if |fn1| < 2 {
      tsr.Fail(3);
      return;
    }
    var p := CopyFn1Path(0, fn1);
    ServerHasTree(tsr.client);
    RootIsDir(tsr.client.State().os.tree);
    PathHandlers(tsr.client.State(), p);
    MakeDirectorySucceeds(tsr.client.State(), p);
    AskStatus(tsr, CMD_MKDIR, p);
  }

  /** Both paths behind their drives, each with a NUL. */
  function RenamePayload(fn1: seq<byte>, fn2: seq<byte>): (p: seq<byte>)
    requires |fn1| >= 2 && |fn2| >= 2
    ensures |p| == |fn1| + |fn2| - 2
  {
    fn1[2..] + [0] + (fn2[2..] + [0])
  }

  /** The server reads both paths back. */
  lemma RenameTexts(s: FsOps.Server, fn1: seq<byte>, fn2: seq<byte>)
    requires |fn1| >= 2 && |fn2| >= 2 && 0 !in fn1 && 0 !in fn2
    ensures var p := RenamePayload(fn1, fn2);
            && AfterNul(p).Some? && UntilNul(p) == fn1[2..] && UntilNul(AfterNul(p).value) == fn2[2..]
            && (TwoTexts(p) <==> |fn1| > 2 && |fn2| > 2)
            && SourceOf(s, p) == Resolve(s.os.tree, s.names.data, DecodeAscii(fn1[2..]))
            && TargetOf(s, p) == Resolve(s.os.tree, s.names.data, DecodeAscii(fn2[2..]))
  {
    hide Resolve, UntilNul, AfterNul;
    UntilNulOf(fn1[2..], fn2[2..] + [0]);
    UntilNulOf(fn2[2..], []);
    assert fn2[2..] + [0] + [] == fn2[2..] + [0];
    assert fn1[2..] + [0] + (fn2[2..] + [0]) == RenamePayload(fn1, fn2);
  }

  /** AL_RENAME. Without losses it succeeds exactly as RENAME does with the two paths. */
  method RenameFile(tsr: Tsr, fn1: seq<byte>, fn2: seq<byte>)
    requires tsr.client.Valid() && |fn1| < FN1_LIMIT && |fn2| < FN1_LIMIT
    modifies tsr`ax, tsr`carry, tsr.client.Parts()
    ensures tsr.client.Valid()
    ensures |fn1| < 2 || |fn2| < 2 ==> tsr.carry && tsr.ax == 3 && tsr.client.State() == old(tsr.client.State())
    ensures old(tsr.client.line.script) == [] && |fn1| >= 2 && |fn2| >= 2 ==>
              var s, p := old(tsr.client.State()), RenamePayload(fn1, fn2);
              && tsr.client.line.script == [] && tsr.client.State() == Rename(s, p).0
              && (!tsr.carry <==> BothFound(s, p) && Movable(s, p) && TargetHasAlias(s, p))
              && (TwoTexts(p) && !BothFound(s, p) ==> tsr.ax == 3)
              && (BothFound(s, p) && SourceOf(s, p).value !in s.os.tree ==> tsr.ax == 2)
              && (BothFound(s, p) && SourceOf(s, p).value in s.os.tree && TargetOf(s, p).value in s.os.tree ==>
                    tsr.ax == 80)
  {
    hide Good, GoodTree, Dispatch, Rename, SourceOf, TargetOf, TargetHasAlias, Movable, AfterNul, UntilNul, Repeated,
         BothFound, TwoTexts;
    tsr.Succeed();
    if |fn1| < 2 || |fn2| < 2 {
      tsr.Fail(3);
      return;
    }
    var first := CopyFn1Path(0, fn1);
    var second := CopyFn1Path(0, fn2);
    var p := first[1..] + second[1..];
    assert p == RenamePayload(fn1, fn2);
    ServerHasTree(tsr.client);
    PathHandlers(tsr.client.State(), p);
    RenameArm(tsr.client.State(), p);
    AskStatus(tsr, CMD_RENAME, p);
  }

  lemma RenameArm(s: FsOps.Server, p: seq<byte>)
    requires GoodTree(s.os.tree)
    ensures var r := Rename(s, p).1;
            && (r.status == STATUS_OK <==> BothFound(s, p) && Movable(s, p) && TargetHasAlias(s, p))
            && (TwoTexts(p) && !BothFound(s, p) ==> DosError(r.status) == 3)
            && (BothFound(s, p) && SourceOf(s, p).value !in s.os.tree ==> DosError(r.status) == 2)
            && (BothFound(s, p) && SourceOf(s, p).value in s.os.tree && TargetOf(s, p).value in s.os.tree ==>
                  DosError(r.status) == 80)
  {
    hide GoodTree, Rename, SourceOf, TargetOf, TargetHasAlias, Movable, AfterNul, UntilNul, TwoTexts;
    RenameSucceeds(s, p);
  }

  /** AL_CHDIR. It changes nothing on the server; without losses it succeeds exactly on a directory dated up to 2107. */
  method ChangeDirectory(tsr: Tsr, fn1: seq<byte>)
    requires tsr.client.Valid() && |fn1| < FN1_LIMIT
    modifies tsr`ax, tsr`carry, tsr.client.Parts()
    ensures tsr.client.Valid() && tsr.client.State() == old(tsr.client.State()) && (tsr.carry ==> tsr.ax == 3)
    ensures |fn1| < 2 ==> tsr.carry
    ensures old(tsr.client.line.script) == [] && |fn1| >= 2 ==>
              var s, q := old(tsr.client.State()), PathPayload(0, fn1);
              && tsr.client.line.script == []
              && (!tsr.carry <==> NamesDir(s, q) && AttrFits(s.os, Locate(s, q).value))
  {
    hide Good, GetAttr, Dispatch, PathPayload, Locate, Repeated, AnsweredBy, AttrFits, NamesDir;
    tsr.Succeed();
    if |fn1| < 2 {
      tsr.Fail(3);
      return;
    }
    ghost var s := tsr.client.State();
    var p := CopyFn1Path(0, fn1);
    var done, status, replyLen := Ask(tsr.client, CMD_GET_ATTR, p);
    PlainHandlers(s, p, 0);
    AttrsChangeNothing(s, p, tsr.client.State());
    ChangeArm(s, p);
    if !done || status != STATUS_OK || replyLen < 1 {
      tsr.Fail(3);
      return;
    }
    assert tsr.client.reply[..replyLen][0] == tsr.client.reply[0];
    if tsr.client.reply[0] / 16 % 2 == 0 { tsr.Fail(3); }
  }

  lemma ChangeArm(s: FsOps.Server, p: seq<byte>)
    requires Good(s) && |p| >= 2
    ensures var r := GetAttr(s, p).1;
            && (r.status == STATUS_OK && r.data != [] && r.data[0] / 16 % 2 != 0
                <==> NamesDir(s, p) && AttrFits(s.os, Locate(s, p).value))
            && (r.status == STATUS_OK ==> r.data != [])
  {
    hide Good, GetAttr, Locate, AttrFits, SizeIn, StampsIn;
    AttrVerdict(s, p);
  }

  /** The signed number in a pair of registers. */
  function Signed(high: nat, low: nat): int
    requires high < U16_LIMIT && low < U16_LIMIT
  {
    var n := U16_LIMIT * high + low;
    if n < 0x8000_0000 then n else n - U32_LIMIT
  }

  lemma SignedIsI32(high: nat, low: nat)
    requires high < U16_LIMIT && low < U16_LIMIT
    ensures -0x8000_0000 <= Signed(high, low) < 0x8000_0000
    ensures U16(low) + U16(high) == I32(Signed(high, low))
  {
    hide U16;
    var n := U16_LIMIT * high + low;
    assert n % U16_LIMIT == low && n / U16_LIMIT == high;
  }

  /** A handle on an open file, whose end and k add up to a position of 32 bits. */
  predicate EndsWithin(s: FsOps.Server, hid: byte, k: int) {
    && GetFile(s.slots, hid).Some? && IsOpen(s.os, GetFile(s.slots, hid).value.fd)
    && 0 <= |Contents(s.os, GetFile(s.slots, hid).value.fd)| + k < U32_LIMIT
  }

  function FromEnd(s: FsOps.Server, hid: byte, k: int): int
    requires EndsWithin(s, hid, k)
  {
    |Contents(s.os, GetFile(s.slots, hid).value.fd)| + k
  }

  ghost predicate StandsAt(s: FsOps.Server, hid: byte, pos: nat) {
    GetFile(s.slots, hid).Some? && GetFile(s.slots, hid).value.offset == pos
  }

  lemma SeekArm(s: FsOps.Server, hid: byte, cx: nat, dx: nat)
    requires Good(s) && cx < U16_LIMIT && dx < U16_LIMIT
    ensures var (s', r) := Seek(s, [hid, 2] + U16(dx) + U16(cx));
            && (r.status == STATUS_OK <==> EndsWithin(s, hid, Signed(cx, dx)))
            && (r.status == STATUS_OK ==>
                  && |r.data| == 4 && FromU32(r.data) == FromEnd(s, hid, Signed(cx, dx))
                  && StandsAt(s', hid, FromU32(r.data)))
  {
    hide Good, Seek, FromU32, U16, I32, Signed, Contents;
    SignedIsI32(cx, dx);
    var p := [hid, 2] + U16(dx) + U16(cx);
    assert p == SeekRequest(hid, 2, Signed(cx, dx));
    if GetFile(s.slots, hid).Some? { SeekVerdict(s, hid, 2, Signed(cx, dx)); } else { SeekRefuses(s, p); }
  }

  /** CMD_SEEK, and the position in its reply. */
  method AskSeek(client: Client, p: seq<byte>) returns (pos: Option<nat>)
    requires client.Valid() && |p| <= MAX_PAYLOAD
    modifies client.Parts()
    ensures client.Valid() && (pos.Some? ==> pos.value < U32_LIMIT)
    ensures old(client.line.script) == [] ==>
              var (s', r) := Seek(old(client.State()), p);
              && client.line.script == [] && client.State() == s'
              && (pos.Some? <==> r.status == STATUS_OK && |r.data| >= 4)
              && (pos.Some? ==> pos.value == FromU32(r.data[..4]))
  {
    hide Good, Seek, Dispatch, Repeated, AnsweredBy, FromU32;
    PathHandlers(client.State(), p);
    var done, status, replyLen := Ask(client, CMD_SEEK, p);
    if !done || status != STATUS_OK || replyLen < 4 { return None; }
    assert client.reply[..replyLen][..4] == client.reply[..4];
    return Some(FromU32(client.reply[..4]));
  }

  lemma Words(n: int)
    requires 0 <= n < U32_LIMIT
    ensures n == U16_LIMIT * (n / U16_LIMIT) + n % U16_LIMIT && 0 <= n / U16_LIMIT < U16_LIMIT
  {
  }

  /**
   * AL_SKFMEND, with the offset in CX and DX. Without losses it succeeds exactly on an open file where the end and
   * the offset add up to a position of 32 bits; the SFT and the registers then hold it, and so does the server.
   */
  method SeekFromEnd(tsr: Tsr, sft: Sft, dx: nat) returns (dx': nat)
    requires tsr.client.Valid() && tsr.cx < U16_LIMIT && dx < U16_LIMIT
    modifies tsr`ax, tsr`carry, sft`filePos, tsr.client.Parts()
    ensures tsr.client.Valid()
    ensures tsr.carry ==> tsr.ax == 2 && sft.filePos == old(sft.filePos) && dx' == dx
    ensures !tsr.carry ==> sft.filePos == U16_LIMIT * dx' + tsr.ax && tsr.ax < U16_LIMIT && dx' < U16_LIMIT
    ensures old(tsr.client.line.script) == [] ==>
              var s, hid, k := old(tsr.client.State()), sft.Handle(), Signed(old(tsr.cx), dx);
              && tsr.client.line.script == [] && (!tsr.carry <==> EndsWithin(s, hid, k))
              && tsr.client.State() == Seek(s, [hid, 2] + U16(dx) + U16(old(tsr.cx))).0
              && (!tsr.carry ==> sft.filePos == FromEnd(s, hid, k) && StandsAt(tsr.client.State(), hid, sft.filePos))
  {
    hide Good, Seek, FromU32, U16, Signed, EndsWithin, FromEnd, StandsAt;
    tsr.Succeed();
    dx' := dx;
    SeekArm(tsr.client.State(), sft.Handle(), tsr.cx, dx);
    var pos := AskSeek(tsr.client, [sft.Handle(), 2] + U16(dx) + U16(tsr.cx));
    if pos.None? {
      tsr.Fail(2);
      return;
    }
    Words(pos.value);
    assert old(tsr.client.line.script) == [] ==>
        var data := Seek(old(tsr.client.State()), [sft.Handle(), 2] + U16(dx) + U16(tsr.cx)).1.data;
        data[..4] == data;
    sft.filePos := pos.value;
    tsr.ax := pos.value % U16_LIMIT;
    dx' := pos.value / U16_LIMIT;
  }
}
