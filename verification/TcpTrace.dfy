/**
 What the calls of a connection get, told by the steps of the run alone: which call was started with
 which request, and what the handler returned for it.
 */
module TcpTrace {
  import opened Wrappers
  import opened Bytes
  import opened Requests
  import opened Dispatch
  import opened TcpPairing

  function Starts(steps: seq<Step>): nat {
    if steps == [] then 0
    else Starts(steps[..|steps| - 1]) + if steps[|steps| - 1].Start? then 1 else 0
  }

  function Replies(steps: seq<Step>): nat {
    if steps == [] then 0
    else Replies(steps[..|steps| - 1]) + if steps[|steps| - 1].Reply? then 1 else 0
  }

  // ── Calls and answers come from steps ──────────────────────

  /** The a-th step started this call; its number is how many calls came before, modulo 2^32. */
  predicate StartedAt(steps: seq<Step>, id: CallId, c: Call, a: nat) {
    && a < |steps| && steps[a] == Start(id, c.req, c.nonce)
    && c.seqno == Starts(steps[..a]) % 0x1_0000_0000
  }

  ghost predicate CallTraced(steps: seq<Step>, id: CallId, c: Call) { exists a: nat :: StartedAt(steps, id, c, a) }

  ghost predicate CallsTraced(steps: seq<Step>, s: State) {
    && s.nextSeq == Starts(steps) % 0x1_0000_0000
    && forall id :: id in s.calls ==> CallTraced(steps, id, s.calls[id])
  }

  lemma StartsMore(steps: seq<Step>, step: Step)
    ensures Starts(steps + [step]) == Starts(steps) + if step.Start? then 1 else 0
  {
    assert (steps + [step])[..|steps|] == steps;
  }

  /** A step starts its own call and leaves what the others were started with. */
  lemma CallKept(e: Env, s: State, step: Step)
    requires Enabled(s, step)
    ensures var t := Apply(e, s, step);
            && t.nextSeq == (if step.Start? then (s.nextSeq + 1) % 0x1_0000_0000 else s.nextSeq)
            && (forall id :: id in t.calls ==> id in s.calls || (step.Start? && step.id == id))
            && (forall id :: id in s.calls ==> id in t.calls && SameCall(s.calls[id], t.calls[id]))
            && (step.Start? ==> step.id !in s.calls && step.id in t.calls
                                && SameCall(t.calls[step.id], Call(s.nextSeq, step.req, step.nonce, Waiting)))
  {
    hide RequestBytes, ReplyBytes, ReceiveRequest, ReceiveResponse, TcpAnswer, Readable, GoodPayload, Owed;
  }

  predicate SameCall(c: Call, d: Call) { c.seqno == d.seqno && c.req == d.req && c.nonce == d.nonce }

  lemma CallStep(steps: seq<Step>, step: Step, id: CallId, c: Call, d: Call)
    requires CallTraced(steps, id, c) && SameCall(c, d)
    ensures CallTraced(steps + [step], id, d)
  {
    var more := steps + [step];
    var a: nat :| StartedAt(steps, id, c, a);
    assert more[..a] == steps[..a];
    assert StartedAt(more, id, d, a);
  }

  lemma CallsStep(e: Env, steps: seq<Step>, s: State, step: Step)
    requires CallsTraced(steps, s) && Enabled(s, step)
    ensures CallsTraced(steps + [step], Apply(e, s, step))
  {
    hide Apply, Enabled, CallTraced;
    var more, t := steps + [step], Apply(e, s, step);
    CallKept(e, s, step);
    StartsMore(steps, step);
    assert more[..|steps|] == steps;
    forall id | id in t.calls ensures CallTraced(more, id, t.calls[id]) {
      if id in s.calls {
        CallStep(steps, step, id, s.calls[id], t.calls[id]);
      } else {
        CallNew(steps, step, id, t.calls[id]);
      }
    }
  }

  lemma CallNew(steps: seq<Step>, step: Step, id: CallId, c: Call)
    requires step == Start(id, c.req, c.nonce) && c.seqno == Starts(steps) % 0x1_0000_0000
    ensures CallTraced(steps + [step], id, c)
  {
    assert (steps + [step])[..|steps|] == steps;
    assert StartedAt(steps + [step], id, c, |steps|);
  }

  /** The b-th step was the reply with this place; the request it answers was the last one read. */
  ghost predicate RepliedAt(e: Env, steps: seq<Step>, j: nat, outcome: Option<Response>, read: (Request, u32), b: nat) {
    && b < |steps| && steps[b].Reply? && steps[b].outcome == outcome && Replies(steps[..b]) == j
    && Legal(e, INITIAL, steps[..b])
    && var received := Run(e, INITIAL, steps[..b]).received;
       received != [] && received[|received| - 1] == read
  }

  ghost predicate AnswersTraced(e: Env, steps: seq<Step>, s: State) {
    && |s.answers| == Replies(steps) <= |s.received|
    && forall j :: 0 <= j < |s.answers| ==> AnswerTraced(e, steps, j, s.answers[j].outcome, s.received[j])
  }

  ghost predicate AnswerTraced(e: Env, steps: seq<Step>, j: nat, outcome: Option<Response>, read: (Request, u32)) {
    exists b: nat :: RepliedAt(e, steps, j, outcome, read, b)
  }

  lemma RepliesMore(steps: seq<Step>, step: Step)
    ensures Replies(steps + [step]) == Replies(steps) + if step.Reply? then 1 else 0
  {
    assert (steps + [step])[..|steps|] == steps;
  }

  lemma AnswerStep(e: Env, steps: seq<Step>, step: Step, j: nat, outcome: Option<Response>, read: (Request, u32))
    requires AnswerTraced(e, steps, j, outcome, read)
    ensures AnswerTraced(e, steps + [step], j, outcome, read)
  {
    hide Run, Legal;
    var more := steps + [step];
    var b: nat :| RepliedAt(e, steps, j, outcome, read, b);
    assert more[..b] == steps[..b];
    assert RepliedAt(e, more, j, outcome, read, b);
  }

  lemma AnswerNew(e: Env, steps: seq<Step>, step: Step, j: nat, read: (Request, u32))
    requires Legal(e, INITIAL, steps) && step.Reply? && Replies(steps) == j
    requires var received := Run(e, INITIAL, steps).received; received != [] && received[|received| - 1] == read
    ensures AnswerTraced(e, steps + [step], j, step.outcome, read)
  {
    hide Run, Legal;
    assert (steps + [step])[..|steps|] == steps;
    assert RepliedAt(e, steps + [step], j, step.outcome, read, |steps|);
  }

  /** Answers and requests read are only ever added. */
  lemma AnswersKept(e: Env, s: State, step: Step)
    requires Inv(e, s) && Enabled(s, step)
    ensures var t := Apply(e, s, step);
            && s.received <= t.received
            && (if step.Reply? then
                  && |t.answers| == |s.answers| + 1 && s.answers <= t.answers
                  && t.answers[|s.answers|].outcome == step.outcome
                  && |s.received| == |s.answers| + 1
                else t.answers == s.answers)
  {
    hide RequestBytes, ReplyBytes, ReceiveRequest, ReceiveResponse, TcpAnswer, Readable, GoodPayload, Owed, Seen,
         CallsOk, HistoryOk, MutexOk, Paired;
  }

  lemma AnswersStep(e: Env, steps: seq<Step>, step: Step)
    requires Legal(e, INITIAL, steps) && Enabled(Run(e, INITIAL, steps), step)
    requires Inv(e, Run(e, INITIAL, steps)) && AnswersTraced(e, steps, Run(e, INITIAL, steps))
    ensures AnswersTraced(e, steps + [step], Apply(e, Run(e, INITIAL, steps), step))
  {
    var s := Run(e, INITIAL, steps);
    var t := Apply(e, s, step);
    AnswersKept(e, s, step);
    RepliesMore(steps, step);
    hide Run, Legal, Inv, Apply, Enabled, AnswerTraced;
    forall j | 0 <= j < |t.answers|
      ensures AnswerTraced(e, steps + [step], j, t.answers[j].outcome, t.received[j])
    {
      if j < |s.answers| {
        AnswerStep(e, steps, step, j, s.answers[j].outcome, s.received[j]);
      } else {
        AnswerNew(e, steps, step, j, s.received[j]);
      }
    }
  }

  lemma {:induction false} RunTraced(e: Env, steps: seq<Step>)
    requires GoodEnv(e) && Legal(e, INITIAL, steps)
    ensures CallsTraced(steps, Run(e, INITIAL, steps)) && AnswersTraced(e, steps, Run(e, INITIAL, steps))
    decreases |steps|
  {
    if steps == [] {
    } else {
      hide Run, Legal, Inv, Apply, Enabled, CallsTraced, AnswersTraced;
      var init, last := steps[..|steps| - 1], steps[|steps| - 1];
      assert steps == init + [last];
      RunLast(e, INITIAL, steps);
      RunTraced(e, init);
      RunInv(e, init);
      CallsStep(e, init, Run(e, INITIAL, init), last);
      AnswersStep(e, init, last);
    }
  }

  // ── What a call gets ───────────────────────────────────────

  predicate Returns(s: State, id: CallId, resp: Response) {
    id in s.calls && s.calls[id].phase.Returned? && s.calls[id].phase.result == Ok(resp)
  }

  /**
   The call was started by the a-th step, and the b-th step is the handler's answer to it: the request
   the server had read was the one started, up to normal form, and status, payload and sequence number
   of the response follow from it and from what the handler returned.
   */
  ghost predicate OwnAnswer(e: Env, steps: seq<Step>, id: CallId, resp: Response, a: nat, b: nat) {
    && a < |steps| && steps[a].Start? && steps[a].id == id
    && b < |steps| && steps[b].Reply? && Legal(e, INITIAL, steps[..b])
    && var req, seqno, before := steps[a].req, Starts(steps[..a]) % 0x1_0000_0000, Run(e, INITIAL, steps[..b]);
       && before.received != []
       && before.received[|before.received| - 1] == (Request(req.opcode, Seen(req.payload)), seqno)
       && HandledAs(e.handlers, req.opcode, steps[b].outcome, resp.status, resp.payload)
       && resp.seqno == seqno
  }

  /** The b-th step's reply is the one that answers this call and no other. */
  ghost predicate AnsweredBy(e: Env, steps: seq<Step>, id: CallId, b: nat)
    requires Legal(e, INITIAL, steps) && b <= |steps|
  {
    var s := Run(e, INITIAL, steps);
    && Replies(steps[..b]) < |s.wire| && s.wire[Replies(steps[..b])] == id
    && forall k :: 0 <= k < |s.wire| && s.wire[k] == id ==> k == Replies(steps[..b])
  }

  /**
   In every interleaving of any number of calls, a call that returns a response returns the answer to
   its own request, or the expiry notice with number 0. Two calls never share an answer: each step that
   answers stands for one place in wire order, and each place belongs to one call.
   */
  lemma CallsGetTheirHandlersAnswers(e: Env, steps: seq<Step>, id: CallId, resp: Response)
    requires GoodEnv(e) && Legal(e, INITIAL, steps) && Returns(Run(e, INITIAL, steps), id, resp)
    ensures resp == Response(SessionExpired, None, 0)
            || exists a: nat, b: nat :: OwnAnswer(e, steps, id, resp, a, b) && AnsweredBy(e, steps, id, b)
  {
    hide Run, Legal, Seen, HandledAs, Inv;
    RunInv(e, steps);
    RunTraced(e, steps);
    var s := Run(e, INITIAL, steps);
    PairedMeans(e, s, id);
    if resp != Response(SessionExpired, None, 0) {
      var c := s.calls[id];
      var j: nat :| AnswerFor(e, s, id, c, resp, j);
      var a: nat :| StartedAt(steps, id, c, a);
      var b: nat :| RepliedAt(e, steps, j, s.answers[j].outcome, s.received[j], b);
      assert OwnAnswer(e, steps, id, resp, a, b) && AnsweredBy(e, steps, id, b);
    }
  }

  // ── Nothing is lost while the connection stands ────────────

  /** A read hands the call its whole reply, whatever state the connection is in. */
  lemma ReadReturns(e: Env, s: State, id: CallId)
    requires GoodEnv(e) && Inv(e, s) && Enabled(s, Read(id))
    requires Owed(e, s) != [] && Owed(e, s) <= s.toClient
    ensures var t := Apply(e, s, Read(id));
            && s.calls[id].phase.at < |s.answers|
            && Returns(t, id, Answered(s.answers[s.calls[id].phase.at], s.calls[id].seqno))
            && s.toClient == Owed(e, s) + t.toClient
  {
    hide Inv, Seen, ReceiveResponse, ReplyBytes, Readable;
    ReadOutcome(e, s, id);
  }

  /** Returned calls were too large to send, or have a response. */
  predicate NothingLost(e: Env, s: State) {
    && (forall id :: id in s.calls ==> GoodPayload(s.calls[id].req.payload))
    && (s.server == Closed
        || forall id :: id in s.calls && s.calls[id].phase.Returned? ==>
             (s.calls[id].phase.result.Ok? <==> RequestBytes(e, s.calls[id]).Ok?))
  }

  lemma LosesNothing(e: Env, s: State, step: Step)
    requires GoodEnv(e) && Inv(e, s) && Enabled(s, step) && NothingLost(e, s)
    ensures NothingLost(e, Apply(e, s, step))
  {
    hide Send, RequestPlaintext, ReplyBytes, ReceiveRequest, ReceiveResponse, TcpAnswer, Readable, GoodPayload, Seen,
         HistoryOk, Paired;
    if step.Read? && s.server != Closed {
      ReadOutcome(e, s, step.id);
      assert Owed(e, s) <= s.toClient;
    }
  }

  lemma {:induction false} RunLosesNothing(e: Env, steps: seq<Step>)
    requires GoodEnv(e) && Legal(e, INITIAL, steps)
    ensures NothingLost(e, Run(e, INITIAL, steps))
    decreases |steps|
  {
    if steps == [] {
    } else {
      hide Run, Legal, Inv, Apply, Enabled, NothingLost;
      var init := steps[..|steps| - 1];
      RunLast(e, INITIAL, steps);
      RunLosesNothing(e, init);
      RunInv(e, init);
      LosesNothing(e, Run(e, INITIAL, init), steps[|steps| - 1]);
    }
  }

  /**
   Until the server closes, a call that has returned has a response, unless its request was too large
   for a frame.
   */
  lemma OpenConnectionAnswers(e: Env, steps: seq<Step>, id: CallId)
    requires GoodEnv(e) && Legal(e, INITIAL, steps) && Run(e, INITIAL, steps).server != Closed
    requires id in Run(e, INITIAL, steps).calls && Run(e, INITIAL, steps).calls[id].phase.Returned?
    ensures exists a: nat :: a < |steps| && steps[a].Start? && steps[a].id == id
                        && ((exists resp :: Returns(Run(e, INITIAL, steps), id, resp))
                            <==> 2 + |PayloadSuffix(steps[a].req.payload)| <= 1_048_544)
  {
    hide Run, Legal, Inv, PayloadSuffix;
    RunLosesNothing(e, steps);
    RunTraced(e, steps);
    RunInv(e, steps);
    var s := Run(e, INITIAL, steps);
    var c := s.calls[id];
    var a: nat :| StartedAt(steps, id, c, a);
    RequestOutcome(e.a, Some(e.key), c.nonce, c.seqno, c.req, []);
    assert steps[a].Start? && steps[a].id == id && steps[a].req == c.req;
    if c.phase.result.Ok? {
      assert Returns(s, id, c.phase.result.value);
    }
  }
}
