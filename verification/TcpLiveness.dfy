/**
 Progress of the calls that share a TCP connection: over the machine of TcpPairing, calls keep moving
 until each has returned, unless the server drops a reply that is too large for a frame
 (`let _ = write_frame_async` in src/server.rs). Its caller then waits holding the mutex.
 */
module TcpLiveness {
  import opened Wrappers
  import opened Bytes
  import opened Tlv
  import opened TlvRoundTrip
  import opened TlvNormalForm
  import opened Leb128
  import opened Crypto
  import opened Frames
  import opened Requests
  import opened Dispatch
  import opened TcpPairing

  /** The calls that have not returned. */
  function Pending(s: State): set<CallId> { set id | id in s.calls && !s.calls[id].phase.Returned? }

  /** Steps of the calls under way and of the server loop: new calls and a broken connection come from outside. */
  predicate Inner(step: Step) { !step.Start? && !step.Disconnect? }

  ghost predicate CanMove(s: State) { exists step :: Inner(step) && Enabled(s, step) }

  /** The server waits for a request and has answered all; the call holding the mutex waits for an answer. */
  predicate Wedged(e: Env, s: State) {
    s.server == Reading && Outstanding(s) && |s.wire| == |s.answers| && Owed(e, s) == []
  }

  // ── Progress ───────────────────────────────────────────────

  lemma RequestReadable(e: Env, c: Call)
    requires GoodEnv(e) && GoodPayload(c.req.payload) && RequestBytes(e, c).Ok?
    ensures Readable(RequestBytes(e, c).value)
  {
    hide RequestBytes;
    RequestArrives(e, c);
    UnreadableRequest(e, RequestBytes(e, c).value);
  }

  lemma UnreadableRequest(e: Env, stream: seq<byte>)
    ensures !Readable(stream) ==> ReceiveRequest(e.a, Some(e.key), stream).0.Err?
  {
  }

  lemma ReplyReadable(e: Env, ans: Answer, seqno: u32)
    requires GoodEnv(e) && GoodPayload(ans.resp.payload) && ReplyBytes(e, ans, seqno) != []
    ensures Readable(ReplyBytes(e, ans, seqno))
  {
    hide ReplyBytes;
    var bytes := ReplyBytes(e, ans, seqno);
    ReplyArrives(e, ans, seqno, []);
    assert bytes + [] == bytes;
    UnreadableReply(e, bytes);
  }

  lemma UnreadableReply(e: Env, stream: seq<byte>)
    ensures !Readable(stream) ==> ReceiveResponse(e.a, Some(e.key), stream).0.Err?
  {
  }

  /** A step for every state that is not wedged. */
  lemma NextStep(e: Env, s: State) returns (step: Step)
    requires GoodEnv(e) && Inv(e, s) && Pending(s) != {} && !Wedged(e, s)
    ensures Inner(step) && Enabled(s, step)
  {
    hide RequestBytes, ReplyBytes, Seen, GoodPayload, Readable, HistoryOk;
    var id :| id in Pending(s);
    var nonce: Nonce := seq(NONCE_SIZE, _ => 0);
    if s.server == Checking {
      step := Check(false, nonce);
    } else if s.server == Handling {
      step := Reply(None, nonce);
    } else if s.holder == None {
      step := Acquire(id);
    } else if s.calls[s.holder.value].phase.Holding? {
      step := Write(s.holder.value);
    } else if s.server == Closed {
      step := Read(s.holder.value);
    } else {
      step := NextExchange(e, s);
    }
  }

  /** With a request on the wire, either it or its reply has arrived. */
  lemma NextExchange(e: Env, s: State) returns (step: Step)
    requires GoodEnv(e) && Inv(e, s) && s.server == Reading && Outstanding(s) && !Wedged(e, s)
    ensures Inner(step) && Enabled(s, step)
  {
    hide RequestBytes, ReplyBytes, Seen, GoodPayload, Readable;
    var c := s.calls[s.holder.value];
    if |s.received| < |s.wire| {
      RequestReadable(e, c);
      step := Receive;
    } else {
      ReplyReadable(e, s.answers[c.phase.at], c.seqno);
      step := Read(s.holder.value);
    }
  }

  lemma WedgedStuck(e: Env, s: State, step: Step)
    requires Inv(e, s) && Wedged(e, s) && Inner(step)
    ensures !Enabled(s, step)
  {
    hide RequestBytes, ReplyBytes, Seen, GoodPayload, HistoryOk;
    EmptyNotReadable();
  }

  /** While a call is under way, some step of the calls or the server is possible exactly if it is not wedged. */
  lemma Progress(e: Env, s: State)
    requires GoodEnv(e) && Inv(e, s) && Pending(s) != {}
    ensures CanMove(s) <==> !Wedged(e, s)
  {
    hide Inv, Enabled, Wedged, Inner;
    if Wedged(e, s) {
      forall step | Inner(step) ensures !Enabled(s, step) {
        WedgedStuck(e, s, step);
      }
    } else {
      var step := NextStep(e, s);
    }
  }

  // ── Every step but a new call gets closer to the end ───────

  function HolderRank(s: State): nat {
    if s.holder == None then 2 else if Outstanding(s) then 0 else 1
  }

  /** The server's way from one request to the next; a request not yet read is worth three steps. */
  function ServerRank(s: State): nat {
    var unread := if |s.received| < |s.wire| then 3 else 0;
    match s.server
    case Closed => 0
    case Reading => 1 + unread
    case Checking => 2 + unread
    case Handling => 3
  }

  function Measure(s: State): nat { 18 * |Pending(s)| + 6 * HolderRank(s) + ServerRank(s) }

  /** The server's steps bring it closer to its next read; a request it reads was on the wire. */
  lemma ServerShrinks(e: Env, s: State, step: Step)
    requires Inv(e, s) && Enabled(s, step) && (step.Check? || step.Receive? || step.Reply? || step.Disconnect?)
    ensures ServerRank(Apply(e, s, step)) < ServerRank(s)
  {
    hide RequestBytes, ReplyBytes, Seen, GoodPayload, Readable, TcpAnswer, ReceiveRequest, HistoryOk, Pending;
    EmptyNotReadable();
  }

  /** A step that returns a call gives the mutex up and leaves the server alone. */
  lemma ReturnShrinks(e: Env, s: State, step: Step)
    requires MutexOk(s) && Enabled(s, step) && (step.Read? || step.WriteFails?)
    ensures Measure(Apply(e, s, step)) < Measure(s)
  {
    hide RequestBytes, ReplyBytes, Readable, ReceiveResponse, Owed;
    assert Pending(Apply(e, s, step)) == Pending(s) - {step.id};
  }

  lemma StepShrinks(e: Env, s: State, step: Step)
    requires Inv(e, s) && Enabled(s, step) && !step.Start?
    ensures Measure(Apply(e, s, step)) < Measure(s)
  {
    hide RequestBytes, ReplyBytes, Readable, CallsOk, HistoryOk, StreamsOk, Paired, TcpAnswer, ReceiveRequest,
         ReceiveResponse, Owed;
    if step.Read? || step.WriteFails? {
      ReturnShrinks(e, s, step);
    } else {
      assert Pending(Apply(e, s, step)) == Pending(s);
      if !step.Acquire? && !step.Write? {
        ServerShrinks(e, s, step);
      }
    }
  }

  predicate NoStart(steps: seq<Step>) { forall i :: 0 <= i < |steps| ==> !steps[i].Start? }

  lemma {:induction false} RunShrinks(e: Env, s: State, steps: seq<Step>)
    requires GoodEnv(e) && Inv(e, s) && Legal(e, s, steps) && NoStart(steps)
    ensures |steps| + Measure(Run(e, s, steps)) <= Measure(s)
    decreases |steps|
  {
    hide Apply, Enabled, Inv, Measure;
    if steps == [] {
    } else {
      Keeps(e, s, steps[0]);
      StepShrinks(e, s, steps[0]);
      RunShrinks(e, Apply(e, s, steps[0]), steps[1..]);
    }
  }

  /**
   However the calls under way interleave, they are over after a bounded number of steps, and until
   the last has returned a step is possible unless the connection is wedged.
   */
  lemma CallsEnd(e: Env, before: seq<Step>, after: seq<Step>)
    requires GoodEnv(e) && Legal(e, INITIAL, before)
    requires Legal(e, Run(e, INITIAL, before), after) && NoStart(after)
    ensures var s := Run(e, INITIAL, before);
            var t := Run(e, s, after);
            && |after| <= 18 * |Pending(s)| + 17
            && (Pending(t) != {} ==> (CanMove(t) <==> !Wedged(e, t)))
  {
    hide Run, Legal, Inv, Pending, CanMove, Wedged;
    RunInv(e, before);
    var s := Run(e, INITIAL, before);
    RunShrinks(e, s, after);
    RunKeeps(e, s, after);
    if Pending(Run(e, s, after)) != {} {
      Progress(e, Run(e, s, after));
    }
  }

  // ── When a connection is wedged ────────────────────────────

  /** A reply is dropped exactly if it does not fit. */
  lemma DroppedExactly(e: Env, ans: Answer, seqno: u32)
    requires GoodEnv(e) && GoodPayload(ans.resp.payload)
    ensures ReplyBytes(e, ans, seqno) == [] <==> !ReplyFits(ans.resp.payload)
  {
    ResponseOutcome(e.a, Some(e.key), ans.nonce, seqno, ans.resp, []);
  }

  /** The wait for a reply is endless exactly if the reply did not fit. */
  lemma WedgedExactly(e: Env, s: State)
    requires GoodEnv(e) && Inv(e, s)
    requires s.server == Reading && Outstanding(s) && |s.wire| == |s.answers|
    ensures Wedged(e, s) <==> !ReplyFits(s.answers[|s.answers| - 1].resp.payload)
  {
    hide RequestBytes, ReplyBytes, Seen, GoodPayload, ReplyFits;
    var c := s.calls[s.holder.value];
    DroppedExactly(e, s.answers[c.phase.at], c.seqno);
  }

  /** Every reply that a handler hands to the loop fits. */
  predicate HandlersFit(steps: seq<Step>) {
    forall i :: 0 <= i < |steps| && steps[i].Reply? && steps[i].outcome.Some? ==>
                  ReplyFits(steps[i].outcome.value.payload)
  }

  /** Handlers that answer over TCP; streaming ones are refused. */
  predicate NoSyncHandler(e: Env) { forall op :: op in e.handlers ==> e.handlers[op] != Sync }

  predicate AnswersFit(s: State) { forall j :: 0 <= j < |s.answers| ==> ReplyFits(s.answers[j].resp.payload) }

  lemma OwnAnswers(e: Env, opcode: u16, seqno: u32, outcome: Option<Response>)
    requires NoSyncHandler(e)
    ensures ReplyFits(TcpAnswer(e.handlers, opcode, seqno, outcome).payload)
  {
    hide ReplyFits;
    AnswersGood(e.handlers, opcode, seqno, None);
  }

  lemma StepFits(e: Env, s: State, step: Step)
    requires AnswersFit(s) && Enabled(s, step)
    requires NoSyncHandler(e) || (step.Reply? && step.outcome.Some? ==> ReplyFits(step.outcome.value.payload))
    ensures AnswersFit(Apply(e, s, step))
  {
    hide RequestBytes, ReplyBytes, Seen, GoodPayload, ReplyFits, Readable, TcpAnswer, ReceiveRequest, ReceiveResponse;
    if step.Reply? {
      var (req, seqno) := s.received[|s.received| - 1];
      AnswersGood(e.handlers, req.opcode, seqno, step.outcome);
      if NoSyncHandler(e) {
        OwnAnswers(e, req.opcode, seqno, step.outcome);
      }
    }
  }

  lemma {:induction false} RunFits(e: Env, s: State, steps: seq<Step>)
    requires AnswersFit(s) && Legal(e, s, steps) && (HandlersFit(steps) || NoSyncHandler(e))
    ensures AnswersFit(Run(e, s, steps))
    decreases |steps|
  {
    hide Apply, Enabled, AnswersFit, ReplyFits;
    if steps == [] {
    } else {
      StepFits(e, s, steps[0]);
      RunFits(e, Apply(e, s, steps[0]), steps[1..]);
    }
  }

  /** If every handler's replies fit, a run that can go no further has returned every call. */
  lemma AllCallsReturn(e: Env, steps: seq<Step>)
    requires GoodEnv(e) && Legal(e, INITIAL, steps) && (HandlersFit(steps) || NoSyncHandler(e))
    ensures var s := Run(e, INITIAL, steps);
            !Wedged(e, s) && (!CanMove(s) ==> Pending(s) == {})
  {
    hide Run, Legal, Pending, CanMove, ReplyFits, RequestBytes, ReplyBytes;
    RunInv(e, steps);
    RunFits(e, INITIAL, steps);
    var s := Run(e, INITIAL, steps);
    if Wedged(e, s) {
      WedgedExactly(e, s);
    }
    if Pending(s) != {} {
      Progress(e, s);
    }
  }

  // ── A wedge lasts ──────────────────────────────────────────

  predicate NoDisconnect(steps: seq<Step>) { forall i :: 0 <= i < |steps| ==> !steps[i].Disconnect? }

  lemma WedgedStep(e: Env, s: State, step: Step)
    requires Inv(e, s) && Wedged(e, s) && Enabled(s, step) && !step.Disconnect?
    ensures Wedged(e, Apply(e, s, step)) && Pending(s) <= Pending(Apply(e, s, step))
  {
    hide RequestBytes, ReplyBytes, Seen, GoodPayload, HistoryOk;
    if Inner(step) {
      WedgedStuck(e, s, step);
    }
  }

  /** Until the connection breaks, no call on a wedged connection returns, later ones included. */
  lemma {:induction false} WedgeLasts(e: Env, s: State, steps: seq<Step>)
    requires GoodEnv(e) && Inv(e, s) && Wedged(e, s) && Legal(e, s, steps) && NoDisconnect(steps)
    ensures Wedged(e, Run(e, s, steps)) && Pending(s) <= Pending(Run(e, s, steps))
    decreases |steps|
  {
    hide Apply, Enabled, Inv, Wedged, Pending;
    if steps == [] {
    } else {
      Keeps(e, s, steps[0]);
      WedgedStep(e, s, steps[0]);
      WedgeLasts(e, Apply(e, s, steps[0]), steps[1..]);
    }
  }

  // ── A wedge can happen ─────────────────────────────────────

  function NoNonce(): Nonce { seq(NONCE_SIZE, _ => 0) }

  function Huge(): Response {
    Response(Success, Some([Entry([], Value.Bytes(seq(MAX_FRAME_SIZE, _ => 0)))]), 0)
  }

  lemma HugeReply()
    ensures GoodPayload(Huge().payload) && !ReplyFits(Huge().payload)
  {
    var v := Value.Bytes(seq(MAX_FRAME_SIZE, _ => 0));
    var entry := Entry([], v);
    var m := Map([entry]);
    EncodeEntriesOne(entry);
    TaggedLength(0x01, entry.key);
    TaggedLength(TypeByte(v), Payload(v));
    TaggedLength(TypeByte(m), Payload(m));
    VarintAtMostTen(|entry.key|);
    VarintAtMostTen(|Payload(v)|);
    VarintAtMostTen(|Payload(m)|);
  }

  function FirstCall(op: u16): Call { Call(0, Request(op, None), NoNonce(), Waiting) }

  /** The first call of a connection has written its request and the server waits for it. */
  function Asked(e: Env, op: u16): State
    requires RequestBytes(e, FirstCall(op)).Ok?
  {
    INITIAL.(calls := map[0 := FirstCall(op).(phase := Sent(0))], nextSeq := 1, holder := Some(0),
             toServer := RequestBytes(e, FirstCall(op)).value, server := Reading, wire := [0])
  }

  lemma FirstCallFits(e: Env, op: u16)
    requires GoodEnv(e)
    ensures RequestBytes(e, FirstCall(op)).Ok?
  {
    hide Send;
    RequestOutcome(e.a, Some(e.key), NoNonce(), 0, FirstCall(op).req, []);
  }

  lemma Asking(e: Env, op: u16) returns (steps: seq<Step>)
    requires GoodEnv(e)
    ensures RequestBytes(e, FirstCall(op)).Ok?
    ensures Legal(e, INITIAL, steps) && Run(e, INITIAL, steps) == Asked(e, op)
  {
    steps := [];
    assert Legal(e, INITIAL, steps) && Run(e, INITIAL, steps) == INITIAL;
    var c := FirstCall(op);
    FirstCallFits(e, op);
    hide Legal, Run, RequestBytes, ReplyBytes;
    RunMore(e, INITIAL, steps, Start(0, c.req, NoNonce()));
    steps := steps + [Start(0, c.req, NoNonce())];
    assert Run(e, INITIAL, steps) == INITIAL.(calls := map[0 := c], nextSeq := 1);
    RunMore(e, INITIAL, steps, Acquire(0));
    steps := steps + [Acquire(0)];
    RunMore(e, INITIAL, steps, Write(0));
    steps := steps + [Write(0)];
    RunMore(e, INITIAL, steps, Check(false, NoNonce()));
    steps := steps + [Check(false, NoNonce())];
  }

  lemma ReceivesIt(e: Env, op: u16)
    requires GoodEnv(e) && RequestBytes(e, FirstCall(op)).Ok?
    ensures Enabled(Asked(e, op), Receive)
    ensures var s := Apply(e, Asked(e, op), Receive);
            && s.server == Handling && s.received == [(Request(op, Seen(None)), 0)]
            && s.calls == Asked(e, op).calls && s.holder == Some(0) && s.wire == [0] && s.answers == []
  {
    var c := FirstCall(op);
    assert GoodPayload(c.req.payload);
    hide Send, RequestBytes, ReplyBytes, Readable, ReceiveRequest, GoodPayload, Seen;
    RequestReadable(e, c);
    RequestArrives(e, c);
  }

  lemma ReplyLost(e: Env, s: State, op: u16)
    requires GoodEnv(e) && op in e.handlers && e.handlers[op] == Sync
    requires s.server == Handling && s.received == [(Request(op, Seen(None)), 0)] && s.answers == []
    requires s.calls == map[0 := FirstCall(op).(phase := Sent(0))] && s.holder == Some(0) && s.wire == [0]
    ensures var reply, check := Reply(Some(Huge()), NoNonce()), Check(false, NoNonce());
            && Enabled(s, reply) && Enabled(Apply(e, s, reply), check)
            && Wedged(e, Apply(e, Apply(e, s, reply), check))
  {
    hide ReplyBytes, Huge, GoodPayload, ReplyFits, Seen;
    HugeReply();
    DroppedExactly(e, Answer(Huge(), NoNonce(), Some(Huge())), 0);
  }

  /** Any handler can wedge the connection with its first reply. */
  lemma WedgeReachable(e: Env, op: u16) returns (steps: seq<Step>)
    requires GoodEnv(e) && op in e.handlers && e.handlers[op] == Sync
    ensures Legal(e, INITIAL, steps) && Wedged(e, Run(e, INITIAL, steps))
  {
    hide Legal, Run, Apply, Enabled, Wedged, RequestBytes;
    steps := Asking(e, op);
    ReceivesIt(e, op);
    RunMore(e, INITIAL, steps, Receive);
    steps := steps + [Receive];
    ReplyLost(e, Run(e, INITIAL, steps), op);
    RunMore(e, INITIAL, steps, Reply(Some(Huge()), NoNonce()));
    steps := steps + [Reply(Some(Huge()), NoNonce())];
    RunMore(e, INITIAL, steps, Check(false, NoNonce()));
    steps := steps + [Check(false, NoNonce())];
  }

  ghost predicate WedgedAfter(e: Env, steps: seq<Step>) {
    Legal(e, INITIAL, steps) && Wedged(e, Run(e, INITIAL, steps))
  }

  /** Some run wedges a connection exactly if the server has a handler that answers over TCP. */
  lemma WedgesExactly(e: Env)
    requires GoodEnv(e)
    ensures (exists steps :: WedgedAfter(e, steps)) <==> !NoSyncHandler(e)
  {
    hide Legal, Run, Wedged;
    if NoSyncHandler(e) {
      forall steps | WedgedAfter(e, steps) ensures false {
        AllCallsReturn(e, steps);
      }
    } else {
      var op :| op in e.handlers && e.handlers[op] == Sync;
      var steps := WedgeReachable(e, op);
      assert WedgedAfter(e, steps);
    }
  }
}
