/** serial_rpc: one call over a lossy line, with up to ten attempts. */
module Rpc {
  import opened Bytes
  import opened Options
  import opened Crc
  import opened Frame
  import opened FsOps
  import opened ServerRuns
  import opened Daemon

  const RETRIES: nat := 10

  // ----- Executing one request several times -----

  ghost function After(s: FsOps.Server, cmd: byte, p: seq<byte>, n: nat): FsOps.Server
  {
    if n == 0 then s else Dispatch(After(s, cmd, p, n - 1), cmd, p).0
  }

  /** The result of the j-th execution, counted from 1. */
  ghost function ResultOf(s: FsOps.Server, cmd: byte, p: seq<byte>, j: nat): Reply
    requires j >= 1
  {
    Dispatch(After(s, cmd, p, j - 1), cmd, p).1
  }

  /** The request has been executed at most ten times. */
  ghost predicate Repeated(s: FsOps.Server, cmd: byte, p: seq<byte>, s': FsOps.Server) {
    exists n: nat :: n <= RETRIES && s' == After(s, cmd, p, n)
  }

  /** The request has been executed one to ten times, and r is the result of one of these executions. */
  ghost predicate AnsweredBy(s: FsOps.Server, cmd: byte, p: seq<byte>, s': FsOps.Server, r: Reply) {
    exists n: nat, j: nat :: 1 <= j <= n <= RETRIES && s' == After(s, cmd, p, n) && r == ResultOf(s, cmd, p, j)
  }

  // ----- What one attempt hears -----

  /** The reply the client takes from the bytes that reach it during an attempt, if any. */
  function Hear(heard: seq<byte>, seqNo: byte): Option<Reply> {
    if |heard| < HDR_SIZE || heard[0] != MAGIC_0 || heard[1] != MAGIC_1 then None
    else
      var bodyLen := PayloadLen(heard);
      if bodyLen > MAX_PAYLOAD || |heard| < MIN_SIZE + bodyLen then None
      else
        match CDecode(heard[..MIN_SIZE + bodyLen])
        case Rejected(_) => None
        case Accepted(_, q, _, status, data) => if q == seqNo then Some(Reply(status, data)) else None
  }

  function ReplyFrame(cmd: byte, seqNo: byte, r: Reply): seq<byte>
    requires |r.data| <= MAX_PAYLOAD
  {
    Encode(cmd, seqNo, FLAG_NONE, r.status, r.data)
  }

  /** A reply that arrives whole is taken exactly if it carries the current number. */
  lemma ReplyIsHeard(cmd: byte, q: byte, r: Reply, seqNo: byte)
    requires |r.data| <= MAX_PAYLOAD
    ensures Hear(ReplyFrame(cmd, q, r), seqNo) == if q == seqNo then Some(r) else None
  {
    var f := ReplyFrame(cmd, q, r);
    DecodeUndoesEncode(cmd, q, FLAG_NONE, r.status, r.data, []);
    assert f + [] == f;
    EncodeUndoesDecode(f);
    FrameStart(cmd, q, r);
    hide CDecode, Encode;
    assert f[..MIN_SIZE + |r.data|] == f;
  }

  lemma FrameStart(cmd: byte, q: byte, r: Reply)
    requires |r.data| <= MAX_PAYLOAD
    ensures var f := ReplyFrame(cmd, q, r); f[0] == MAGIC_0 && f[1] == MAGIC_1
  {
  }

  /** The daemon's own error reply, numbered 0, is never taken: no call is numbered 0. */
  lemma ErrorReplyIsNotHeard(seqNo: byte)
    requires seqNo != 0
    ensures Hear(ErrorReply(BadCrc).value, seqNo).None?
  {
    ReplyIsHeard(CMD_PING, 0, Reply(ERR_CRC, []), seqNo);
  }

  // ----- The line -----

  /** What reaches the client during an attempt. */
  datatype Hearing =
    | Junk(bytes: seq<byte>)  // nothing, noise, a damaged frame, an error reply or a reply to another call
    | Older(i: nat)           // a late reply to an earlier attempt of this call
    | Newest                  // the reply to this attempt, if the request got through

  /** One attempt: whether the daemon gets the request, and what the client hears. */
  datatype Fate = Fate(executed: bool, hearing: Hearing)

  const CLEAN := Fate(true, Newest)

  /** The next attempt gets through both ways. */
  predicate Clear(script: seq<Fate>) { script == [] || script[0] == CLEAN }

  /** What is left of a script after n attempts. */
  function Rest(script: seq<Fate>, n: nat): seq<Fate> {
    if n < |script| then script[n..] else []
  }

  /** None of the next n attempts gets through both ways. */
  predicate Lossy(script: seq<Fate>, n: nat) { n <= |script| && CLEAN !in script[..n] }

  /** Of any ten attempts in a row, one at least gets through both ways. */
  ghost predicate Steady(script: seq<Fate>) {
    forall n :: 0 <= n <= |script| ==> !Lossy(script[n..], RETRIES)
  }

  lemma NoLossIsSteady()
    ensures Steady([])
  {
  }

  lemma SteadyRest(script: seq<Fate>, n: nat)
    requires Steady(script)
    ensures Steady(Rest(script, n)) && !Lossy(script, RETRIES)
  {
    hide Lossy;
    assert script[0..] == script;
    var rest := Rest(script, n);
    forall m | 0 <= m <= |rest|
      ensures !Lossy(rest[m..], RETRIES)
    {
      if n < |script| {
        assert rest[m..] == script[n + m..];
      } else {
        assert rest[m..] == script[|script|..];
      }
    }
  }

  lemma StartOf(script: seq<Fate>)
    ensures Rest(script, 0) == script && Lossy(script, 0)
  {
  }

  lemma RestStep(script: seq<Fate>, n: nat, now: seq<Fate>, next: seq<Fate>)
    requires now == Rest(script, n) && next == Rest(now, 1)
    ensures next == Rest(script, n + 1)
    ensures Lossy(script, n) && !Clear(now) ==> Lossy(script, n + 1)
  {
    if n < |script| { assert script[..n + 1] == script[..n] + [now[0]]; }
  }

  /**
   * The line and the daemon behind it. The script decides the fate of each attempt and ends in a loss-free
   * line. Junk that the client would take for a reply to the current call is not delivered: damage to a frame
   * is detected, and a reply to another call with the same number is not late enough to meet this one.
   */
  class Line {
    const daemon: Daemon.Server
    var script: seq<Fate>
    var replies: seq<seq<byte>> // to the current call, in the order of its executions
    var incoming: seq<byte>
    var sent: nat               // frames the client has put on the line

    ghost function State(): FsOps.Server
      reads daemon, daemon.handles, daemon.namemap
    {
      daemon.State()
    }

    constructor (daemon: Daemon.Server, script: seq<Fate>)
      ensures this.daemon == daemon && this.script == script && replies == [] && incoming == [] && sent == 0
    {
      this.daemon, this.script := daemon, script;
      replies, incoming, sent := [], [], 0;
    }

    /** From here on, late replies to earlier calls are junk. */
    method NewCall()
      modifies this
      ensures replies == [] && script == old(script) && sent == old(sent)
    {
      replies := [];
    }

    method Drain()
      modifies this
      ensures incoming == [] && script == old(script) && replies == old(replies) && sent == old(sent)
    {
      incoming := [];
    }

    ghost predicate Replied(cmd: byte, seqNo: byte, log: seq<Reply>)
      reads this
    {
      && |replies| == |log|
      && forall i :: 0 <= i < |log| ==>
           |log[i].data| <= MAX_PAYLOAD && replies[i] == ReplyFrame(cmd, seqNo, log[i])
    }

    method Send(frame: seq<byte>, ghost cmd: byte, seqNo: byte, ghost p: seq<byte>, ghost log: seq<Reply>)
      returns (ghost log': seq<Reply>)
      requires |p| <= MAX_PAYLOAD && frame == Encode(cmd, seqNo, FLAG_NONE, STATUS_OK, p)
      requires Good(State()) && Replied(cmd, seqNo, log)
      modifies this, daemon, daemon.handles, daemon.namemap
      ensures Good(State()) && Replied(cmd, seqNo, log') && sent == old(sent) + 1
      ensures script == Rest(old(script), 1)
      ensures
        || (State() == old(State()) && log' == log && old(script) != [])
        || (State() == Dispatch(old(State()), cmd, p).0 && log' == log + [Dispatch(old(State()), cmd, p).1])
      ensures Hear(incoming, seqNo).Some? ==> Hear(incoming, seqNo).value in log'
      ensures Clear(old(script)) ==>
                && log' == log + [Dispatch(old(State()), cmd, p).1]
                && Hear(incoming, seqNo) == Some(log'[|log|])
    {
      hide Good, Dispatch, Encode, PyDecode, CDecode;
      var fate := CLEAN;
      if script != [] {
        fate, script := script[0], script[1..];
      }
      sent := sent + 1;
      log' := log;
      if fate.executed {
        DecodeUndoesEncode(cmd, seqNo, FLAG_NONE, STATUS_OK, p, []);
        assert frame + [] == frame;
        ghost var r := Dispatch(daemon.State(), cmd, p).1;
        var resp := daemon.Serve(frame);
        log' := log' + [r];
        replies := replies + [resp.value];
      }
      match fate.hearing {
        case Junk(bytes) =>
          incoming := if Hear(bytes, seqNo).None? then bytes else [];
        case Older(i) =>
          incoming := if i < |replies| then replies[i] else [];
          if i < |replies| { ReplyIsHeard(cmd, seqNo, log'[i], seqNo); }
        case Newest =>
          incoming := if fate.executed then replies[|replies| - 1] else [];
          if fate.executed { ReplyIsHeard(cmd, seqNo, log'[|log'| - 1], seqNo); }
      }
    }

    /** Reads up to n bytes into buf from position at on; fewer than n means a timeout. */
    method Receive(buf: array<byte>, at: nat, n: nat) returns (got: nat)
      requires at + n <= buf.Length
      modifies buf, this
      ensures got == (if |old(incoming)| < n then |old(incoming)| else n)
      ensures old(incoming) == buf[at..at + got] + incoming
      ensures buf[..at] == old(buf[..at])
      ensures script == old(script) && replies == old(replies) && sent == old(sent)
    {
      got := if |incoming| < n then |incoming| else n;
      CopyBytes(buf, at, incoming[..got]);
      incoming := incoming[got..];
    }
  }

  // ----- The client -----

  datatype ReturnCode = RpcOk | RpcTimeout | RpcPayloadTooLong

  function NextSeq(seqNo: byte): byte {
    if seqNo == 255 then 1 else seqNo + 1
  }

  class Client {
    const line: Line
    const crcTable: array<Word>
    const tx: array<byte>
    const rx: array<byte>
    const reply: array<byte>
    var seqNo: byte

    ghost function Parts(): set<object> {
      {this, tx, rx, reply, line, line.daemon, line.daemon.handles, line.daemon.namemap}
    }

    ghost predicate Valid()
      reads Parts(), crcTable
    {
      && tx.Length == rx.Length == MAX_SIZE && reply.Length == MAX_PAYLOAD
      && tx != rx && tx != reply && rx != reply
      && IsTable(crcTable[..]) && Good(line.State())
    }

    ghost function State(): FsOps.Server
      reads line.daemon, line.daemon.handles, line.daemon.namemap
    {
      line.State()
    }

    constructor (line: Line)
      requires Good(line.State())
      ensures Valid() && this.line == line && seqNo == 0
      ensures fresh(tx) && fresh(rx) && fresh(reply) && fresh(crcTable)
    {
      this.line, seqNo := line, 0;
      tx, rx, reply := new byte[MAX_SIZE], new byte[MAX_SIZE], new byte[MAX_PAYLOAD];
      crcTable := new Word[256](_ => INIT);
      new;
      CrcInit(crcTable);
    }

    /** The header, when it is whole and sane: the length of the body it announces. */
    method ReceiveHeader() returns (bodyLen: Option<nat>)
      requires rx.Length == MAX_SIZE
      modifies rx, line
      ensures bodyLen.None? ==> Hear(old(line.incoming), seqNo).None?
      ensures bodyLen.Some? ==>
                && old(line.incoming) == rx[..HDR_SIZE] + line.incoming
                && rx[0] == MAGIC_0 && rx[1] == MAGIC_1
                && bodyLen.value == PayloadLen(old(line.incoming)) <= MAX_PAYLOAD
      ensures line.script == old(line.script) && line.replies == old(line.replies) && line.sent == old(line.sent)
    {
      hide CDecode, FromU16;
      var got := line.Receive(rx, 0, HDR_SIZE);
      if got < HDR_SIZE { return None; }
      assert rx[..][..HDR_SIZE] == rx[..HDR_SIZE];
      if rx[0] != MAGIC_0 || rx[1] != MAGIC_1 { return None; }
      assert old(line.incoming)[8..10] == [rx[8], rx[9]];
      var n := FromU16([rx[8], rx[9]]);
      if n > MAX_PAYLOAD { return None; }
      return Some(n);
    }

    /** The receiving half of one attempt: header, length, body, full decode, stale drop. */
    method ReceiveReply() returns (r: Option<Reply>)
      requires rx.Length == MAX_SIZE && IsTable(crcTable[..])
      modifies rx, line
      ensures r == Hear(old(line.incoming), seqNo)
      ensures line.script == old(line.script) && line.replies == old(line.replies) && line.sent == old(line.sent)
    {
      hide CDecode, PayloadLen, IsTable;
      ghost var heard := line.incoming;
      var bodyLen := ReceiveHeader();
      if bodyLen.None? { return None; }
      ghost var header := rx[..HDR_SIZE];
      assert heard[0] == header[0] && heard[1] == header[1];
      var n := bodyLen.value + CRC_SIZE;
      var got := line.Receive(rx, HDR_SIZE, n);
      if got < n { return None; }
      TwoReads(heard, header, rx[HDR_SIZE..HDR_SIZE + n], line.incoming);
      assert rx[..HDR_SIZE + n] == header + rx[HDR_SIZE..HDR_SIZE + n];
      var d := FrameDecode(crcTable, rx, HDR_SIZE + n);
      if d.Rejected? || d.seqNo != seqNo { return None; }
      return Some(Reply(d.status, d.payload));
    }

    /** Drain, send, receive: once through the loop of serial_rpc. */
    method Attempt(cmd: byte, ghost p: seq<byte>, txLen: nat, ghost s0: FsOps.Server, ghost log: seq<Reply>)
      returns (r: Option<Reply>, ghost log': seq<Reply>)
      requires Valid() && |p| <= MAX_PAYLOAD && txLen <= MAX_SIZE
      requires tx[..txLen] == Encode(cmd, seqNo, FLAG_NONE, STATUS_OK, p)
      requires line.Replied(cmd, seqNo, log) && Results(s0, cmd, p, log) && State() == After(s0, cmd, p, |log|)
      modifies rx, line, line.daemon, line.daemon.handles, line.daemon.namemap
      ensures Valid() && line.sent == old(line.sent) + 1 && |log'| <= |log| + 1
      ensures line.Replied(cmd, seqNo, log') && Results(s0, cmd, p, log') && State() == After(s0, cmd, p, |log'|)
      ensures r.Some? ==> r.value in log' && |r.value.data| <= MAX_PAYLOAD
      ensures line.script == Rest(old(line.script), 1)
      ensures Clear(old(line.script)) ==> |log'| == |log| + 1 && r == Some(log'[|log|])
    {
      hide Good, Dispatch, Encode, Hear, IsTable, Results, After, ReplyFrame;
      line.Drain();
      log' := line.Send(tx[..txLen], cmd, seqNo, p, log);
      ResultsGrow(s0, cmd, p, log, log');
      r := ReceiveReply();
    }

    /**
     * At most ten attempts, each executing the request at most once, until one is heard. RpcOk reports the
     * result of one of this call's own executions; if the first attempt gets through, the first and only one.
     * The call ends with the first attempt that gets through both ways, and times out only if none of ten does.
     */
    method SerialRpc(cmd: byte, p: seq<byte>)
      returns (rc: ReturnCode, status: byte, replyLen: nat, ghost n: nat, ghost j: nat)
      requires Valid()
      modifies Parts()
      ensures Valid() && seqNo == NextSeq(old(seqNo))
      ensures n <= RETRIES && State() == After(old(State()), cmd, p, n)
      ensures rc == RpcPayloadTooLong <==> |p| > MAX_PAYLOAD
      ensures if |p| > MAX_PAYLOAD then n == 0 && line.sent == old(line.sent)
              else n <= line.sent - old(line.sent) <= 10
      ensures rc == RpcOk ==>
                && 1 <= j <= n && replyLen <= MAX_PAYLOAD
                && Reply(status, reply[..replyLen]) == ResultOf(old(State()), cmd, p, j)
      ensures line.script == Rest(old(line.script), line.sent - old(line.sent))
      ensures rc == RpcTimeout ==> line.sent == old(line.sent) + 10 && Lossy(old(line.script), RETRIES)
      ensures rc == RpcOk ==> line.sent > old(line.sent) && Lossy(old(line.script), line.sent - old(line.sent) - 1)
      ensures Clear(old(line.script)) && |p| <= MAX_PAYLOAD ==> rc == RpcOk && n == j == 1
      ensures Steady(old(line.script)) ==> Steady(line.script) && (|p| <= MAX_PAYLOAD ==> rc == RpcOk)
    {
      hide Good, Dispatch, Encode, Hear, IsTable, Results, ReplyFrame, Steady, Lossy, Rest, Clear, ResultOf;
      ghost var script := line.script;
      StartOf(script);
      if Steady(script) { SteadyRest(script, 0); }
      seqNo := (seqNo + 1) % 256;
      if seqNo == 0 { seqNo := 1; }
      var txLen := FrameEncode(crcTable, cmd, seqNo, FLAG_NONE, STATUS_OK, p, tx);
      if txLen == 0 { return RpcPayloadTooLong, 0, 0, 0, 0; }
      line.NewCall();
      ghost var log: seq<Reply>;
      rc, status, replyLen, log, j := AttemptLoop(cmd, p, txLen);
      n := |log|;
      if Steady(script) { SteadyRest(script, line.sent - old(line.sent)); }
    }

    method AttemptLoop(cmd: byte, ghost p: seq<byte>, txLen: nat)
      returns (rc: ReturnCode, status: byte, replyLen: nat, ghost log: seq<Reply>, ghost j: nat)
      requires Valid() && |p| <= MAX_PAYLOAD && txLen <= MAX_SIZE
      requires tx[..txLen] == Encode(cmd, seqNo, FLAG_NONE, STATUS_OK, p) && line.replies == []
      modifies rx, reply, line, line.daemon, line.daemon.handles, line.daemon.namemap
      ensures Valid() && rc != RpcPayloadTooLong
      ensures |log| <= line.sent - old(line.sent) <= RETRIES && State() == After(old(State()), cmd, p, |log|)
      ensures rc == RpcOk ==>
                && 1 <= j <= |log| && replyLen <= MAX_PAYLOAD
                && Reply(status, reply[..replyLen]) == ResultOf(old(State()), cmd, p, j)
      ensures line.script == Rest(old(line.script), line.sent - old(line.sent))
      ensures rc == RpcTimeout ==> line.sent == old(line.sent) + 10 && Lossy(old(line.script), RETRIES)
      ensures rc == RpcOk ==> line.sent > old(line.sent) && Lossy(old(line.script), line.sent - old(line.sent) - 1)
      ensures Clear(old(line.script)) ==> rc == RpcOk && |log| == j == 1
    {
      hide Good, Dispatch, Encode, Hear, IsTable, Results, ReplyFrame, Clear, Lossy, Rest;
      ghost var script := line.script;
      StartOf(script);
      ghost var s0 := State();
      log := NoResults(s0, cmd, p);
      hide After, ResultOf;
      var attempt := 0;
      while attempt < RETRIES
        invariant attempt <= RETRIES && |log| <= attempt == line.sent - old(line.sent)
        invariant Valid() && tx[..txLen] == Encode(cmd, seqNo, FLAG_NONE, STATUS_OK, p)
        invariant line.Replied(cmd, seqNo, log) && Results(s0, cmd, p, log) && State() == After(s0, cmd, p, |log|)
        invariant line.script == Rest(script, attempt) && Lossy(script, attempt)
        invariant Clear(script) ==> attempt == 0 && log == []
      {
        var r: Option<Reply>;
        ghost var now := line.script;
        r, log := Attempt(cmd, p, txLen, s0, log);
        RestStep(script, attempt, now, line.script);
        attempt := attempt + 1;
        if r.Some? {
          CopyBytes(reply, 0, r.value.data);
          j := WhichResult(s0, cmd, p, log, r.value);
          return RpcOk, r.value.status, |r.value.data|, log, j;
        }
      }
      return RpcTimeout, 0, 0, log, 0;
    }
  }

  lemma NoResults(s: FsOps.Server, cmd: byte, p: seq<byte>) returns (log: seq<Reply>)
    ensures log == [] && Results(s, cmd, p, log) && After(s, cmd, p, 0) == s
  {
    log := [];
  }

  lemma WhichResult(s: FsOps.Server, cmd: byte, p: seq<byte>, log: seq<Reply>, r: Reply) returns (j: nat)
    requires Results(s, cmd, p, log) && r in log
    ensures 1 <= j <= |log| && r == ResultOf(s, cmd, p, j)
  {
    hide ResultOf;
    var i :| 0 <= i < |log| && log[i] == r;
    j := i + 1;
  }

  ghost predicate Results(s: FsOps.Server, cmd: byte, p: seq<byte>, log: seq<Reply>)
  {
    forall i :: 0 <= i < |log| ==> log[i] == ResultOf(s, cmd, p, i + 1)
  }

  lemma ResultsGrow(s: FsOps.Server, cmd: byte, p: seq<byte>, log: seq<Reply>, log': seq<Reply>)
    requires Results(s, cmd, p, log)
    requires log' == log || log' == log + [Dispatch(After(s, cmd, p, |log|), cmd, p).1]
    ensures Results(s, cmd, p, log')
    ensures After(s, cmd, p, |log| + 1) == Dispatch(After(s, cmd, p, |log|), cmd, p).0
  {
    hide Dispatch;
  }

  lemma TwoReads(heard: seq<byte>, header: seq<byte>, body: seq<byte>, rest: seq<byte>)
    requires heard == header + (body + rest)
    ensures heard[..|header| + |body|] == header + body
  {
  }
}
