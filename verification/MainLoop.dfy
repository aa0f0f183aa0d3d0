/** The daemon's main loop: frames cut off the wire, decoded, dispatched and answered. */
module MainLoop {
  import opened Bytes
  import opened Options
  import opened Frame
  import opened Streams
  import opened FsOps
  import opened ServerRuns
  import opened Daemon

  datatype Request = Request(cmd: byte, seqNo: byte, payload: seq<byte>)

  /** What the daemon does with the outcome of one read_frame, and the frame it sends, if any. */
  ghost function Turn(s: FsOps.Server, r: ReadResult): (FsOps.Server, seq<seq<byte>>)
    requires Good(s)
    ensures Good(Turn(s, r).0)
  {
    match r
    case ReadError(_) => (s, [])
    case Raw(f) =>
      match PyDecode(f)
      case Rejected(error) => (s, if ErrorReply(error).Some? then [ErrorReply(error).value] else [])
      case Accepted(cmd, seqNo, _, _, p) =>
        DispatchVerdict(s, cmd, p);
        var (s', reply) := Dispatch(s, cmd, p);
        (s', [Encode(cmd, seqNo, FLAG_NONE, reply.status, reply.data)])
  }

  lemma {:induction false} ScanShrinks(s: seq<byte>, discarded: nat)
    requires s != []
    ensures |ScanMagic(s, discarded).rest| < |s|
    decreases |s|
  {
    if s[0] != MAGIC_0 {
      if |s| > 1 { ScanShrinks(s[1..], discarded + 1); }
    } else if |s| > 2 {
      ScanShrinks(s[2..], discarded + 1);
    }
  }

  /** Every read uses up something. */
  lemma ResyncedShrinks(s: seq<byte>)
    requires s != []
    ensures |Resynced(s).1| < |s|
  {
    ScanShrinks(s, 0);
    hide ScanMagic, FromU16;
  }

  /** The daemon after a stream has been used up, and the frames it has sent. */
  ghost function Served(s: FsOps.Server, stream: seq<byte>): (r: (FsOps.Server, seq<seq<byte>>))
    requires Good(s)
    ensures Good(r.0)
    decreases |stream|
  {
    if stream == [] then (s, [])
    else
      ResyncedShrinks(stream);
      var (r, rest) := Resynced(stream);
      var (s1, first) := Turn(s, r);
      var (s2, others) := Served(s1, rest);
      (s2, first + others)
  }

  /** The loop, until the line is silent. */
  method ServeAll(server: Daemon.Server, ser: SerialPort) returns (sent: seq<seq<byte>>)
    requires Good(server.State())
    modifies server, server.handles, server.namemap, ser
    ensures (server.State(), sent) == Served(old(server.State()), old(ser.rest)) && ser.rest == []
  {
    hide Good, Turn, Resynced, PyDecode;
    ghost var all := Served(server.State(), ser.rest);
    sent := [];
    while ser.rest != []
      invariant Good(server.State())
      invariant all.0 == Served(server.State(), ser.rest).0 && all.1 == sent + Served(server.State(), ser.rest).1
      decreases |ser.rest|
    {
      ghost var s, stream := server.State(), ser.rest;
      ResyncedShrinks(stream);
      var r := TransportReadFrame(ser);
      var out := ServeOne(server, r);
      Joins(sent, out, Served(server.State(), ser.rest).1);
      sent := sent + out;
    }
    assert sent + [] == sent;
  }

  lemma Joins(a: seq<seq<byte>>, b: seq<seq<byte>>, c: seq<seq<byte>>)
    ensures a + (b + c) == a + b + c
  {
  }

  /** One turn of the loop. */
  method ServeOne(server: Daemon.Server, r: ReadResult) returns (sent: seq<seq<byte>>)
    requires Good(server.State())
    modifies server, server.handles, server.namemap
    ensures Good(server.State()) && (server.State(), sent) == Turn(old(server.State()), r)
  {
    hide Good, PyDecode, Encode, CDecode, FsOps.Dispatch;
    match r
    case ReadError(_) => return [];
    case Raw(f) =>
      var resp := server.Serve(f);
      sent := if resp.Some? then [resp.value] else [];
  }

  // ----- Silence -----

  /** The daemon over bursts of bytes with silence between them, each longer than the timeout of a read. */
  ghost function ServedBursts(s: FsOps.Server, bursts: seq<seq<byte>>): (r: (FsOps.Server, seq<seq<byte>>))
    requires Good(s)
    ensures Good(r.0)
    decreases |bursts|
  {
    if bursts == [] then (s, [])
    else
      var n := |bursts| - 1;
      var (s1, before) := ServedBursts(s, bursts[..n]);
      var (s2, last) := Served(s1, bursts[n]);
      (s2, before + last)
  }

  /** The loop over a line that falls silent again and again. */
  method ServeBursts(server: Daemon.Server, ser: SerialPort, bursts: seq<seq<byte>>) returns (sent: seq<seq<byte>>)
    requires Good(server.State())
    modifies server, server.handles, server.namemap, ser
    ensures (server.State(), sent) == ServedBursts(old(server.State()), bursts)
  {
    hide Good, Served;
    sent := [];
    var i := 0;
    while i < |bursts|
      invariant 0 <= i <= |bursts| && Good(server.State())
      invariant (server.State(), sent) == ServedBursts(old(server.State()), bursts[..i])
    {
      ser.rest := bursts[i];
      var out := ServeAll(server, ser);
      assert bursts[..i + 1][..i] == bursts[..i];
      sent, i := sent + out, i + 1;
    }
    assert bursts[..i] == bursts;
  }

  // ----- A stream of requests -----

  function Wire(reqs: seq<Request>): seq<byte>
    requires forall r :: r in reqs ==> |r.payload| <= MAX_PAYLOAD
  {
    if reqs == [] then [] else FrameOf(reqs[0]) + Wire(reqs[1..])
  }

  function FrameOf(r: Request): seq<byte>
    requires |r.payload| <= MAX_PAYLOAD
  {
    Encode(r.cmd, r.seqNo, FLAG_NONE, STATUS_OK, r.payload)
  }

  /** One request executed, and the reply under its own command and number. */
  ghost function Answer(s: FsOps.Server, q: Request): (FsOps.Server, seq<byte>)
    requires Good(s)
    ensures Good(Answer(s, q).0)
  {
    DispatchVerdict(s, q.cmd, q.payload);
    var (s', r) := Dispatch(s, q.cmd, q.payload);
    (s', Encode(q.cmd, q.seqNo, FLAG_NONE, r.status, r.data))
  }

  /** Each request is executed once, in order, and answered. */
  ghost function Answered(s: FsOps.Server, reqs: seq<Request>): (r: (FsOps.Server, seq<seq<byte>>))
    requires Good(s)
    ensures Good(r.0)
    decreases |reqs|
  {
    hide Good, Answer;
    if reqs == [] then (s, [])
    else
      var (s1, f) := Answer(s, reqs[0]);
      var (s2, others) := Answered(s1, reqs[1..]);
      (s2, [f] + others)
  }

  lemma FrameStarts(r: Request)
    requires |r.payload| <= MAX_PAYLOAD
    ensures var f := FrameOf(r); f != [] && WholeFrame(f) && f[0] == MAGIC_0 && f[1] == MAGIC_1
  {
    EncodedFramesAreWhole(r.cmd, r.seqNo, FLAG_NONE, STATUS_OK, r.payload);
    hide WholeFrame;
  }

  lemma TurnOnRequest(s: FsOps.Server, q: Request)
    requires Good(s) && |q.payload| <= MAX_PAYLOAD
    ensures Turn(s, Raw(FrameOf(q))) == (Answer(s, q).0, [Answer(s, q).1])
  {
    hide Good, Dispatch, Encode, PyDecode, CDecode;
    DispatchVerdict(s, q.cmd, q.payload);
    DecodeUndoesEncode(q.cmd, q.seqNo, FLAG_NONE, STATUS_OK, q.payload, []);
    assert FrameOf(q) + [] == FrameOf(q);
  }

  lemma CutFrameReads(q: Request, k: nat)
    requires |q.payload| <= MAX_PAYLOAD && 0 < k < |FrameOf(q)|
    ensures Resynced(FrameOf(q)[..k]) == (ReadError(ShortFrame), [])
  {
    hide FrameOf, FromU16, U16;
    var f := FrameOf(q);
    FrameHeader(q);
    if k >= HDR_SIZE {
      var rest := f[..k][2..];
      assert rest[6] == f[8] && rest[7] == f[9];
      assert rest[6..8] == f[8..10];
      U16RoundTrip(|q.payload|);
    }
  }

  /**
   * A frame that arrives damaged is answered with the notice numbered 0 if its CRC is wrong, and not at all if
   * something else is. Nothing is executed, and what is behind it is served as if it had not been there.
   */
  lemma DamagedFrameIsPassed(s: FsOps.Server, f: seq<byte>, rest: seq<byte>)
    requires Good(s) && WholeFrame(f) && f[0] == MAGIC_0 && f[1] == MAGIC_1 && PyDecode(f).Rejected?
    ensures var notice := if PyDecode(f) == Rejected(BadCrc) then [Encode(CMD_PING, 0, FLAG_NONE, ERR_CRC, [])] else [];
            Served(s, f + rest) == (Served(s, rest).0, notice + Served(s, rest).1)
  {
    hide Good, Resynced, PyDecode, Encode, Served;
    assert [] + f + rest == f + rest;
    GarbageIsSkippedIffTrailingRunIsEven([], f, rest);
    ServedStep(s, f + rest, f, rest);
  }

  /** Silence in the middle of a frame: what had arrived of it is dropped, and nothing is executed. */
  lemma CutFrameIsDropped(s: FsOps.Server, q: Request, k: nat)
    requires Good(s) && |q.payload| <= MAX_PAYLOAD && k < |FrameOf(q)|
    ensures Served(s, FrameOf(q)[..k]) == (s, [])
  {
    hide Good, Turn, Resynced, FrameOf;
    var cut := FrameOf(q)[..k];
    if cut != [] {
      CutFrameReads(q, k);
      TurnOnError(s);
      var out := Served(s, []).1;
      assert [] + out == out == [];
    }
  }

  lemma FrameHeader(q: Request)
    requires |q.payload| <= MAX_PAYLOAD
    ensures var f := FrameOf(q);
            && |f| == MIN_SIZE + |q.payload| && f[0] == MAGIC_0 && f[1] == MAGIC_1
            && f[8..10] == U16(|q.payload|)
  {
    hide U16;
  }

  lemma TurnOnError(s: FsOps.Server)
    requires Good(s)
    ensures Turn(s, ReadError(ShortFrame)) == (s, [])
  {
    hide Good;
  }

  /**
   * A stream of encoded requests, behind garbage that hides no frame and before a last one that is cut off, is cut
   * up, executed and answered one by one; the last one is not executed.
   */
  lemma {:induction false} AnsweredUpToTheCut(s: FsOps.Server, g: seq<byte>, reqs: seq<Request>, q: Request, k: nat)
    requires Good(s) && reqs != [] && forall r :: r in reqs ==> |r.payload| <= MAX_PAYLOAD
    requires |q.payload| <= MAX_PAYLOAD && k < |FrameOf(q)|
    requires NoMagic(g) && |g| < RESYNC_MAX && TrailingS(g) % 2 == 0
    ensures Served(s, g + Wire(reqs) + FrameOf(q)[..k]) == Answered(s, reqs)
    decreases |reqs|
  {
    hide Good, Answer, Turn, Resynced, FrameOf, WholeFrame;
    var f, cut := FrameOf(reqs[0]), FrameOf(q)[..k];
    var rest := Wire(reqs[1..]) + cut;
    FrameStarts(reqs[0]);
    GarbageIsSkippedIffTrailingRunIsEven(g, f, rest);
    assert g + Wire(reqs) + cut == g + f + rest;
    TurnOnRequest(s, reqs[0]);
    ServedStep(s, g + f + rest, f, rest);
    if reqs[1..] != [] {
      forall r | r in reqs[1..] ensures |r.payload| <= MAX_PAYLOAD { assert r in reqs; }
      assert [] + Wire(reqs[1..]) + cut == rest;
      AnsweredUpToTheCut(Answer(s, reqs[0]).0, [], reqs[1..], q, k);
    } else {
      assert rest == cut;
      CutFrameIsDropped(Answer(s, reqs[0]).0, q, k);
    }
  }

  /** Without a cut, all of them are executed and answered. */
  lemma RequestsAreAnswered(s: FsOps.Server, g: seq<byte>, reqs: seq<Request>)
    requires Good(s) && reqs != [] && forall r :: r in reqs ==> |r.payload| <= MAX_PAYLOAD
    requires NoMagic(g) && |g| < RESYNC_MAX && TrailingS(g) % 2 == 0
    ensures Served(s, g + Wire(reqs)) == Answered(s, reqs)
  {
    hide Good, Answer, Turn, Resynced, FrameOf, WholeFrame, Served, Answered;
    assert reqs[0] in reqs;
    FrameStarts(reqs[0]);
    AnsweredUpToTheCut(s, g, reqs, reqs[0], 0);
    assert g + Wire(reqs) + FrameOf(reqs[0])[..0] == g + Wire(reqs);
  }

  lemma ServedStep(s: FsOps.Server, stream: seq<byte>, f: seq<byte>, rest: seq<byte>)
    requires Good(s) && Resynced(stream) == (Raw(f), rest) && f != []
    ensures var (s1, first) := Turn(s, Raw(f));
            var (s2, others) := Served(s1, rest);
            Served(s, stream) == (s2, first + others)
  {
    assert stream != [];
    hide Good, Turn, Resynced;
  }

  /** One reply to each request, in order, under its own command and number. */
  lemma {:induction false} AnswersMatch(s: FsOps.Server, reqs: seq<Request>, i: nat)
    requires Good(s) && i < |reqs|
    ensures |Answered(s, reqs).1| == |reqs|
    ensures var d := CDecode(Answered(s, reqs).1[i]); d.Accepted? && d.cmd == reqs[i].cmd && d.seqNo == reqs[i].seqNo
    decreases |reqs|
  {
    hide Good, Answer, CDecode;
    AnswerDecodes(s, reqs[0]);
    if |reqs| > 1 {
      AnswersMatch(Answer(s, reqs[0]).0, reqs[1..], if i > 0 then i - 1 else 0);
    }
  }

  lemma AnswerDecodes(s: FsOps.Server, q: Request)
    requires Good(s)
    ensures var d := CDecode(Answer(s, q).1); d.Accepted? && d.cmd == q.cmd && d.seqNo == q.seqNo
  {
    hide Good, Dispatch, Encode, CDecode, PyDecode;
    DispatchVerdict(s, q.cmd, q.payload);
    var r := Dispatch(s, q.cmd, q.payload).1;
    DecodeUndoesEncode(q.cmd, q.seqNo, FLAG_NONE, r.status, r.data, []);
    assert Answer(s, q).1 + [] == Answer(s, q).1;
  }

  /** The bursts of a line: requests one behind the other, and at the end perhaps one that is cut off. */
  datatype Burst = Burst(reqs: seq<Request>, last: Request, k: nat)

  predicate Sendable(b: Burst) {
    && (forall r :: r in b.reqs ==> |r.payload| <= MAX_PAYLOAD)
    && |b.last.payload| <= MAX_PAYLOAD && b.k < |FrameOf(b.last)|
  }

  function BytesOf(b: Burst): seq<byte>
    requires Sendable(b)
  {
    Wire(b.reqs) + FrameOf(b.last)[..b.k]
  }

  function Sending(bursts: seq<Burst>): (r: seq<seq<byte>>)
    requires forall b :: b in bursts ==> Sendable(b)
    ensures |r| == |bursts|
  {
    if bursts == [] then [] else Sending(bursts[..|bursts| - 1]) + [BytesOf(bursts[|bursts| - 1])]
  }

  /** The requests that arrived whole. */
  function WholeOnes(bursts: seq<Burst>): seq<Request> {
    if bursts == [] then [] else WholeOnes(bursts[..|bursts| - 1]) + bursts[|bursts| - 1].reqs
  }

  /**
   * Over a line that falls silent again and again, in the middle of frames or between them, exactly the requests
   * that arrived whole are executed and answered, each once and in order.
   */
  lemma {:induction false} WholeRequestsAreAnswered(s: FsOps.Server, bursts: seq<Burst>)
    requires Good(s) && forall b :: b in bursts ==> Sendable(b)
    ensures ServedBursts(s, Sending(bursts)) == Answered(s, WholeOnes(bursts))
    decreases |bursts|
  {
    hide Good, Sendable, Served, BytesOf;
    if bursts != [] {
      var n := |bursts| - 1;
      var init, b := bursts[..n], bursts[n];
      forall c | c in init ensures Sendable(c) { assert c in bursts; }
      assert b in bursts;
      WholeRequestsAreAnswered(s, init);
      assert Sending(bursts)[..n] == Sending(init);
      BurstIsAnswered(Answered(s, WholeOnes(init)).0, b);
      AnsweredJoins(s, WholeOnes(init), b.reqs);
    }
  }

  lemma BurstIsAnswered(s: FsOps.Server, b: Burst)
    requires Good(s) && Sendable(b)
    ensures Served(s, BytesOf(b)) == Answered(s, b.reqs)
  {
    hide Good, Served, FrameOf, Answer;
    if b.reqs == [] {
      assert BytesOf(b) == FrameOf(b.last)[..b.k];
      CutFrameIsDropped(s, b.last, b.k);
    } else {
      assert [] + Wire(b.reqs) + FrameOf(b.last)[..b.k] == BytesOf(b);
      AnsweredUpToTheCut(s, [], b.reqs, b.last, b.k);
    }
  }

  lemma {:induction false} AnsweredJoins(s: FsOps.Server, a: seq<Request>, b: seq<Request>)
    requires Good(s)
    ensures var (s1, first) := Answered(s, a);
            && Good(s1)
            && Answered(s, a + b) == (Answered(s1, b).0, first + Answered(s1, b).1)
    decreases |a|
  {
    hide Good, Answer;
    if a == [] {
      assert a + b == b;
      var out := Answered(s, b).1;
      assert [] + out == out;
    } else {
      AnsweredJoins(Answer(s, a[0]).0, a[1..], b);
      assert (a + b)[1..] == a[1..] + b;
      var (s1, f) := Answer(s, a[0]);
      var (s2, others) := Answered(s1, a[1..]);
      Joins([f], others, Answered(s2, b).1);
    }
  }
}
