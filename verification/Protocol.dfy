/** The whole protocol as a step system: client, a line that loses and delays frames in both directions, daemon. */
module Protocol {
  import opened Bytes
  import opened Options
  import opened Frame
  import opened FsOps
  import Daemon
  import opened Rpc

  const WINDOW := 255

  datatype Call = Call(cmd: byte, payload: seq<byte>)

  /** Frames on the line. The call is a tag for the proof; the client looks at the number only. */
  datatype Up = Up(call: nat, seqNo: byte, request: Call)

  datatype Down = ReplyTo(call: nat, seqNo: byte, reply: Reply) | ErrorNotice

  /** One execution by the daemon: of which call, in which state, with which result. */
  datatype Exec = Exec(call: nat, before: Server, result: Reply)

  datatype Taken = Taken(call: nat, reply: Reply)

  /**
   * calls lists every call begun; the last one is outstanding while active. log and taken are histories: all
   * executions, and all replies the client has accepted.
   */
  datatype Sys = Sys(calls: seq<Call>, active: bool, attempts: nat, up: seq<Up>, down: seq<Down>,
                     server: Server, log: seq<Exec>, taken: seq<Taken>)

  /** The number of the k-th call: 1 to 255, over and over, never 0. */
  function SeqOf(k: nat): (q: byte)
    requires k >= 1
    ensures q != 0
  {
    (k - 1) % WINDOW + 1
  }

  /** This is the counter of serial_rpc. */
  lemma SeqOfCounts(k: nat)
    requires k >= 1
    ensures SeqOf(1) == NextSeq(0) && SeqOf(k + 1) == NextSeq(SeqOf(k))
  {
  }

  /** Two calls have the same number exactly if they are a multiple of 255 calls apart. */
  lemma SameSeq(j: nat, k: nat)
    requires 1 <= j <= k
    ensures SeqOf(j) == SeqOf(k) <==> (k - j) % WINDOW == 0
  {
  }

  function SeqIn(f: Down): byte {
    match f
    case ReplyTo(_, seqNo, _) => seqNo
    case ErrorNotice => 0
  }

  // ----- The steps -----

  datatype Step =
    | Begin(call: Call)
    | Transmit          // the first attempt or, after a timeout, another
    | LoseUp(i: nat)
    | LoseDown(i: nat)
    | Serve
    | Damage            // the daemon finds a bad CRC and answers with number 0
    | Receive
    | GiveUp

  ghost predicate Enabled(s: Sys, step: Step) {
    match step
    case Begin(call) => !s.active
    case Transmit => s.active && s.calls != [] && s.attempts < RETRIES
    case LoseUp(i) => i < |s.up|
    case LoseDown(i) => i < |s.down|
    case Serve => s.up != []
    case Damage => s.up != []
    case Receive => s.active && s.down != []
    case GiveUp => s.active && s.attempts == RETRIES
  }

  function Remove<T>(s: seq<T>, i: nat): seq<T>
    requires i < |s|
  {
    s[..i] + s[i + 1..]
  }

  ghost function Next(s: Sys, step: Step): Sys
    requires Enabled(s, step)
  {
    match step
    case Begin(call) => s.(calls := s.calls + [call], active := true, attempts := 0)
    case Transmit =>
      var k := |s.calls|;
      s.(attempts := s.attempts + 1, up := s.up + [Up(k, SeqOf(k), s.calls[k - 1])])
    case LoseUp(i) => s.(up := Remove(s.up, i))
    case LoseDown(i) => s.(down := Remove(s.down, i))
    case Serve =>
      var f := s.up[0];
      var (server, r) := Dispatch(s.server, f.request.cmd, f.request.payload);
      s.(up := s.up[1..], server := server, log := s.log + [Exec(f.call, s.server, r)],
         down := s.down + [ReplyTo(f.call, f.seqNo, r)])
    case Damage => s.(up := s.up[1..], down := s.down + [ErrorNotice])
    case Receive =>
      var f := s.down[0];
      if Accepts(s) then
        s.(down := s.down[1..], active := false,
           taken := s.taken + [Taken(|s.calls|, if f.ReplyTo? then f.reply else Reply(ERR_CRC, []))])
      else s.(down := s.down[1..])
    case GiveUp => s.(active := false)
  }

  /** The frame at the head of the line carries the number of the outstanding call. */
  predicate Accepts(s: Sys) {
    s.active && s.down != [] && s.calls != [] && SeqIn(s.down[0]) == SeqOf(|s.calls|)
  }

  ghost function Start(server: Server): Sys {
    Sys([], false, 0, [], [], server, [], [])
  }

  ghost predicate IsRun(states: seq<Sys>, steps: seq<Step>) {
    && |states| == |steps| + 1
    && forall i :: 0 <= i < |steps| ==> Enabled(states[i], steps[i]) && states[i + 1] == Next(states[i], steps[i])
  }

  /** No frame is received 255 or more calls after its own. */
  ghost predicate OnTime(s: Sys) {
    s.down != [] && s.down[0].ReplyTo? ==> |s.calls| - s.down[0].call < WINDOW
  }

  ghost predicate Timely(states: seq<Sys>, steps: seq<Step>)
    requires |states| > |steps|
  {
    forall i :: 0 <= i < |steps| && steps[i].Receive? ==> OnTime(states[i])
  }

  // ----- The invariant -----

  /** The history holds an execution of call k with this result. */
  ghost predicate Executed(log: seq<Exec>, k: nat, r: Reply) {
    exists i :: 0 <= i < |log| && log[i].call == k && log[i].result == r
  }

  ghost predicate UpOk(calls: seq<Call>, f: Up) {
    1 <= f.call <= |calls| && f.seqNo == SeqOf(f.call) && f.request == calls[f.call - 1]
  }

  ghost predicate DownOk(calls: seq<Call>, log: seq<Exec>, f: Down) {
    f.ReplyTo? ==> 1 <= f.call <= |calls| && f.seqNo == SeqOf(f.call) && Executed(log, f.call, f.reply)
  }

  /** The result is what the daemon gives for that call's own request. */
  ghost predicate ExecOk(calls: seq<Call>, e: Exec) {
    && 1 <= e.call <= |calls|
    && e.result == Dispatch(e.before, calls[e.call - 1].cmd, calls[e.call - 1].payload).1
  }

  ghost predicate Frames(s: Sys) {
    && (forall f :: f in s.up ==> UpOk(s.calls, f))
    && (forall f :: f in s.down ==> DownOk(s.calls, s.log, f))
    && (forall e :: e in s.log ==> ExecOk(s.calls, e))
    && (s.active ==> s.calls != [])
  }

  ghost predicate Fresh(s: Sys) {
    forall t :: t in s.taken ==> Executed(s.log, t.call, t.reply)
  }

  lemma ExecutedGrows(log: seq<Exec>, e: Exec, k: nat, r: Reply)
    requires Executed(log, k, r) || (e.call == k && e.result == r)
    ensures Executed(log + [e], k, r)
  {
    if Executed(log, k, r) {
      var i :| 0 <= i < |log| && log[i].call == k && log[i].result == r;
      assert (log + [e])[i] == log[i];
    } else {
      assert (log + [e])[|log|] == e;
    }
  }

  lemma MoreCalls(calls: seq<Call>, log: seq<Exec>, c: Call)
    ensures forall f :: UpOk(calls, f) ==> UpOk(calls + [c], f)
    ensures forall f :: DownOk(calls, log, f) ==> DownOk(calls + [c], log, f)
    ensures forall e :: ExecOk(calls, e) ==> ExecOk(calls + [c], e)
  {
    hide Dispatch, Executed, SeqOf;
  }

  lemma MoreLog(calls: seq<Call>, log: seq<Exec>, e: Exec, f: Down)
    requires DownOk(calls, log, f)
    ensures DownOk(calls, log + [e], f)
  {
    if f.ReplyTo? { ExecutedGrows(log, e, f.call, f.reply); }
    hide Executed, SeqOf;
  }

  lemma ServeKeepsFrames(s: Sys)
    requires Frames(s) && Enabled(s, Serve)
    ensures Frames(Next(s, Serve))
  {
    hide Dispatch, DownOk;
    var s', f := Next(s, Serve), s.up[0];
    assert UpOk(s.calls, f);
    var e := s'.log[|s.log|];
    var d := s'.down[|s.down|];
    assert ExecOk(s.calls, e);
    ExecutedGrows(s.log, e, e.call, e.result);
    NewReplyOk(s.calls, s'.log, d);
    forall d' | d' in s'.down
      ensures DownOk(s.calls, s'.log, d')
    {
      if d' in s.down { MoreLog(s.calls, s.log, e, d'); }
    }
    hide UpOk, ExecOk, Executed;
  }

  lemma NewReplyOk(calls: seq<Call>, log: seq<Exec>, d: Down)
    requires d.ReplyTo? && 1 <= d.call <= |calls| && d.seqNo == SeqOf(d.call) && Executed(log, d.call, d.reply)
    ensures DownOk(calls, log, d)
  {
  }

  lemma StepKeepsFrames(s: Sys, step: Step)
    requires Frames(s) && Enabled(s, step)
    ensures Frames(Next(s, step))
  {
    if step.Serve? {
      ServeKeepsFrames(s);
    } else if step.Begin? {
      MoreCalls(s.calls, s.log, step.call);
      hide UpOk, DownOk, ExecOk;
    } else {
      hide DownOk, ExecOk, Dispatch, SeqOf;
    }
  }

  // ----- Fresh replies -----

  /**
   * A frame is accepted exactly if it is a reply to the outstanding call or to one a multiple of 255 calls
   * ago; the daemon's error notice never is.
   */
  lemma AcceptVerdict(s: Sys)
    requires Frames(s) && Enabled(s, Receive)
    ensures Accepts(s) <==> s.down[0].ReplyTo? && (|s.calls| - s.down[0].call) % WINDOW == 0
    ensures Accepts(s) && OnTime(s) ==> s.down[0].call == |s.calls|
  {
    hide ExecOk, UpOk, Executed;
    var f := s.down[0];
    assert DownOk(s.calls, s.log, f);
    if f.ReplyTo? { SameSeq(f.call, |s.calls|); }
  }

  /** The bytes of a frame on its way down. */
  function FrameBytes(calls: seq<Call>, f: Down): seq<byte>
    requires f.ReplyTo? ==> 1 <= f.call <= |calls| && |f.reply.data| <= MAX_PAYLOAD
  {
    match f
    case ReplyTo(k, seqNo, reply) => ReplyFrame(calls[k - 1].cmd, seqNo, reply)
    case ErrorNotice => Daemon.ErrorReply(BadCrc).value
  }

  /** This step takes a frame exactly where the client hears its bytes as a reply to the outstanding call. */
  lemma AcceptingIsHearing(s: Sys)
    requires Frames(s) && Enabled(s, Receive)
    requires s.down[0].ReplyTo? ==> |s.down[0].reply.data| <= MAX_PAYLOAD
    ensures s.down[0].ReplyTo? ==> 1 <= s.down[0].call <= |s.calls|
    ensures Hear(FrameBytes(s.calls, s.down[0]), SeqOf(|s.calls|))
            == if Accepts(s) then Some(s.down[0].reply) else None
  {
    hide ExecOk, UpOk, Executed, ReplyFrame, Hear, SeqOf;
    var f := s.down[0];
    assert DownOk(s.calls, s.log, f);
    match f
    case ReplyTo(k, seqNo, reply) => ReplyIsHeard(s.calls[k - 1].cmd, seqNo, reply, SeqOf(|s.calls|));
    case ErrorNotice => ErrorReplyIsNotHeard(SeqOf(|s.calls|));
  }

  lemma StepKeepsFresh(s: Sys, step: Step)
    requires Frames(s) && Fresh(s) && Enabled(s, step) && (step.Receive? ==> OnTime(s))
    ensures Fresh(Next(s, step))
  {
    var s' := Next(s, step);
    if step.Receive? {
      AcceptVerdict(s);
      assert DownOk(s.calls, s.log, s.down[0]);
      hide Executed, ExecOk, UpOk, SeqOf;
    } else if step.Serve? {
      forall t | t in s'.taken
        ensures Executed(s'.log, t.call, t.reply)
      {
        ExecutedGrows(s.log, s'.log[|s.log|], t.call, t.reply);
      }
      hide Dispatch, Frames;
    } else {
      hide Executed, ExecOk, UpOk, Frames;
    }
  }

  /**
   * Over every run in which no reply is received 255 or more calls late: each reply the client has accepted
   * for call k is the result of an execution of call k, and every execution of a call is of its own request.
   */
  lemma {:induction false} RepliesAreFresh(server: Server, states: seq<Sys>, steps: seq<Step>)
    requires IsRun(states, steps) && states[0] == Start(server) && Timely(states, steps)
    ensures Frames(states[|steps|]) && Fresh(states[|steps|])
  {
    hide Enabled, Next, Frames, Fresh, OnTime;
    if steps == [] {
      StartIsFresh(server);
    } else {
      var n := |steps| - 1;
      RepliesAreFresh(server, states[..n + 1], steps[..n]);
      StepKeepsFrames(states[n], steps[n]);
      StepKeepsFresh(states[n], steps[n]);
    }
  }

  lemma StartIsFresh(server: Server)
    ensures Frames(Start(server)) && Fresh(Start(server))
  {
  }

  // ----- Ten executions at most, in call order -----

  ghost function LogTags(log: seq<Exec>): seq<nat> { seq(|log|, i requires 0 <= i < |log| => log[i].call) }

  function UpTags(up: seq<Up>): seq<nat> { seq(|up|, i requires 0 <= i < |up| => up[i].call) }

  /** The calls of all executions so far, then those of the frames still on their way to the daemon. */
  ghost function Order(s: Sys): seq<nat> { LogTags(s.log) + UpTags(s.up) }

  ghost predicate Sorted(a: seq<nat>) { forall i, j :: 0 <= i < j < |a| ==> a[i] <= a[j] }

  function Times(a: seq<nat>, x: nat): nat {
    if a == [] then 0 else Times(a[..|a| - 1], x) + (if a[|a| - 1] == x then 1 else 0)
  }

  lemma {:induction false} TimesConcat(a: seq<nat>, b: seq<nat>, x: nat)
    ensures Times(a + b, x) == Times(a, x) + Times(b, x)
  {
    if b == [] {
      assert a + b == a;
    } else {
      assert (a + b)[..|a + b| - 1] == a + b[..|b| - 1];
      TimesConcat(a, b[..|b| - 1], x);
    }
  }

  lemma {:induction false} TimesNone(a: seq<nat>, x: nat)
    requires x !in a
    ensures Times(a, x) == 0
  {
    if a != [] {
      assert a[|a| - 1] in a;
      TimesNone(a[..|a| - 1], x);
    }
  }

  lemma TimesWithout(a: seq<nat>, i: nat, x: nat)
    requires i < |a|
    ensures Times(Remove(a, i), x) <= Times(a, x)
  {
    assert a == a[..i] + ([a[i]] + a[i + 1..]);
    TimesConcat(a[..i], [a[i]] + a[i + 1..], x);
    TimesConcat([a[i]], a[i + 1..], x);
    TimesConcat(a[..i], a[i + 1..], x);
  }

  /** At most ten of every call, and of the outstanding one no more than its attempts. */
  ghost predicate Bounded(a: seq<nat>, k: nat, attempts: nat) {
    && attempts <= RETRIES && (forall i :: 0 <= i < |a| ==> 1 <= a[i] <= k)
    && (forall x :: Times(a, x) <= RETRIES) && Times(a, k) <= attempts
  }

  ghost predicate InOrder(s: Sys) { Sorted(Order(s)) && Bounded(Order(s), |s.calls|, s.attempts) }

  lemma AppendKeeps(a: seq<nat>, k: nat, attempts: nat)
    requires Sorted(a) && Bounded(a, k, attempts) && k >= 1 && attempts < RETRIES
    ensures Sorted(a + [k]) && Bounded(a + [k], k, attempts + 1)
  {
    forall x: nat
      ensures Times(a + [k], x) == Times(a, x) + (if x == k then 1 else 0)
    {
      assert (a + [k])[..|a|] == a;
    }
    hide Times;
    assert forall i :: 0 <= i < |a| ==> (a + [k])[i] == a[i] && 1 <= a[i] <= k;
  }

  lemma RemoveKeeps(a: seq<nat>, i: nat, k: nat, attempts: nat)
    requires Sorted(a) && Bounded(a, k, attempts) && i < |a|
    ensures Sorted(Remove(a, i)) && Bounded(Remove(a, i), k, attempts)
  {
    hide Times;
    var r := Remove(a, i);
    forall x: nat
      ensures Times(r, x) <= RETRIES && Times(r, k) <= attempts
    {
      TimesWithout(a, i, x);
      TimesWithout(a, i, k);
    }
    assert forall j :: 0 <= j < |r| ==> r[j] == if j < i then a[j] else a[j + 1];
  }

  lemma BeginKeeps(a: seq<nat>, k: nat, attempts: nat)
    requires Bounded(a, k, attempts)
    ensures Bounded(a, k + 1, 0)
  {
    hide Times;
    TimesNone(a, k + 1);
  }

  /** What a step does to the order: a call is added at its end, one drops out, or nothing changes. */
  lemma OrderAfter(s: Sys, step: Step)
    requires Enabled(s, step)
    ensures var s', a := Next(s, step), Order(s);
            match step
            case Transmit => Order(s') == a + [|s.calls|]
            case LoseUp(i) => Order(s') == Remove(a, |s.log| + i)
            case Damage => Order(s') == Remove(a, |s.log|)
            case _ => Order(s') == a
  {
    hide Dispatch, SeqOf;
  }

  lemma StepKeepsOrder(s: Sys, step: Step)
    requires InOrder(s) && Enabled(s, step)
    ensures InOrder(Next(s, step))
  {
    hide Sorted, Bounded, Dispatch, SeqOf;
    OrderAfter(s, step);
    var a, k := Order(s), |s.calls|;
    match step
    case Begin(_) => BeginKeeps(a, k, s.attempts);
    case Transmit => AppendKeeps(a, k, s.attempts);
    case LoseUp(i) => RemoveKeeps(a, |s.log| + i, k, s.attempts);
    case Damage => RemoveKeeps(a, |s.log|, k, s.attempts);
    case _ =>
  }

  /** Over every run, the daemon executes the calls in their order, and none of them more than ten times. */
  lemma {:induction false} TenExecutionsAtMost(server: Server, states: seq<Sys>, steps: seq<Step>, k: nat)
    requires IsRun(states, steps) && states[0] == Start(server)
    ensures InOrder(states[|steps|])
    ensures var tags := LogTags(states[|steps|].log); Sorted(tags) && Times(tags, k) <= 10
  {
    hide Enabled, Next, InOrder;
    if steps == [] {
      StartIsInOrder(server);
    } else {
      var n := |steps| - 1;
      TenExecutionsAtMost(server, states[..n + 1], steps[..n], k);
      StepKeepsOrder(states[n], steps[n]);
    }
    LogInOrder(states[|steps|], k);
  }

  lemma StartIsInOrder(server: Server)
    ensures InOrder(Start(server))
  {
    assert Order(Start(server)) == [];
  }

  lemma LogInOrder(s: Sys, k: nat)
    requires InOrder(s)
    ensures Sorted(LogTags(s.log)) && Times(LogTags(s.log), k) <= RETRIES
  {
    hide Times;
    var a, n := Order(s), |s.log|;
    TimesConcat(LogTags(s.log), UpTags(s.up), k);
    forall i, j | 0 <= i < j < n
      ensures LogTags(s.log)[i] <= LogTags(s.log)[j]
    {
      assert a[i] <= a[j];
    }
  }

  // ----- The window is exact -----

  ghost predicate RunTo(server: Server, states: seq<Sys>, steps: seq<Step>, s: Sys) {
    IsRun(states, steps) && states[0] == Start(server) && states[|steps|] == s
  }

  lemma Extend(server: Server, states: seq<Sys>, steps: seq<Step>, s: Sys, step: Step)
    returns (states': seq<Sys>, steps': seq<Step>)
    requires RunTo(server, states, steps, s) && Enabled(s, step)
    ensures RunTo(server, states', steps', Next(s, step))
  {
    hide Enabled, Next;
    states', steps' := states + [Next(s, step)], steps + [step];
    forall i | 0 <= i < |steps'|
      ensures Enabled(states'[i], steps'[i]) && states'[i + 1] == Next(states'[i], steps'[i])
    {
      if i < |steps| {
        assert states'[i] == states[i] && states'[i + 1] == states[i + 1] && steps'[i] == steps[i];
      }
    }
  }

  /** The outstanding call loses its remaining attempts and gives up. */
  lemma {:induction false} LoseAttempts(server: Server, states: seq<Sys>, steps: seq<Step>, s: Sys)
    returns (states': seq<Sys>, steps': seq<Step>)
    requires RunTo(server, states, steps, s) && s.active && s.calls != [] && s.up == [] && s.attempts <= RETRIES
    ensures RunTo(server, states', steps', s.(active := false, attempts := RETRIES))
    decreases RETRIES - s.attempts
  {
    hide RunTo;
    if s.attempts == RETRIES {
      states', steps' := Extend(server, states, steps, s, GiveUp);
    } else {
      states', steps' := Extend(server, states, steps, s, Transmit);
      var s1 := Next(s, Transmit);
      states', steps' := Extend(server, states', steps', s1, LoseUp(0));
      assert Next(s1, LoseUp(0)) == s.(attempts := s.attempts + 1);
      states', steps' := LoseAttempts(server, states', steps', s.(attempts := s.attempts + 1));
    }
  }

  function Again(c: Call, n: nat): seq<Call> {
    if n == 0 then [] else Again(c, n - 1) + [c]
  }

  lemma {:induction false} AgainIsLong(c: Call, n: nat)
    ensures |Again(c, n)| == n
  {
    if n > 0 { AgainIsLong(c, n - 1); }
  }

  /** n calls in a row come to nothing. */
  lemma {:induction false} LoseCalls(server: Server, states: seq<Sys>, steps: seq<Step>, s: Sys, c: Call, n: nat)
    returns (states': seq<Sys>, steps': seq<Step>)
    requires RunTo(server, states, steps, s) && !s.active && s.up == [] && s.attempts == RETRIES
    ensures RunTo(server, states', steps', s.(calls := s.calls + Again(c, n)))
  {
    hide RunTo;
    if n == 0 {
      assert s.calls + [] == s.calls;
      states', steps' := states, steps;
    } else {
      states', steps' := LoseCalls(server, states, steps, s, c, n - 1);
      var s1 := s.(calls := s.calls + Again(c, n - 1));
      states', steps' := Extend(server, states', steps', s1, Begin(c));
      states', steps' := LoseAttempts(server, states', steps', Next(s1, Begin(c)));
      assert s.calls + Again(c, n) == s1.calls + [c];
    }
  }

  /** A first call whose request has been served and whose reply is on its way. */
  lemma OneReplyPending(server: Server, c: Call) returns (states: seq<Sys>, steps: seq<Step>, s: Sys)
    ensures RunTo(server, states, steps, s)
    ensures s.active && s.calls == [c] && s.up == [] && s.attempts == 1
    ensures |s.down| == 1 && s.down[0].ReplyTo? && s.down[0].call == 1 && s.down[0].seqNo == SeqOf(1)
  {
    hide Dispatch;
    s := Start(server);
    states, steps := [s], [];
    states, steps := Extend(server, states, steps, s, Begin(c));
    s := Next(s, Begin(c));
    hide RunTo;
    states, steps := Extend(server, states, steps, s, Transmit);
    s := Next(s, Transmit);
    states, steps := Extend(server, states, steps, s, Serve);
    s := Next(s, Serve);
  }

  /**
   * A run in which call 256 accepts the reply to call 1: that reply is 255 calls late, one more than the
   * window allows, and carries the same number.
   */
  lemma StaleReplyIsAccepted(server: Server, c: Call) returns (states: seq<Sys>, steps: seq<Step>, s: Sys)
    ensures RunTo(server, states, steps, s)
    ensures Enabled(s, Receive) && Accepts(s) && s.down[0].ReplyTo? && s.down[0].call == 1
    ensures |s.calls| == WINDOW + 1 && !OnTime(s)
  {
    hide RunTo;
    states, steps, s := OneReplyPending(server, c);
    states, steps := LoseAttempts(server, states, steps, s);
    s := s.(active := false, attempts := RETRIES);
    states, steps := LoseCalls(server, states, steps, s, c, WINDOW - 1);
    AgainIsLong(c, WINDOW - 1);
    s := s.(calls := s.calls + Again(c, WINDOW - 1));
    states, steps := Extend(server, states, steps, s, Begin(c));
    s := Next(s, Begin(c));
    SameSeq(1, |s.calls|);
  }
}
