/**
 Many client calls share one TCP connection (`do_tcp` in src/client.rs) and one server loop answers
 it (`handle_tcp_connection` in src/server.rs). A sequence number is drawn before the mutex is
 taken, so wire order and number order can differ. The protocol is a state machine over bytes in
 flight; its steps interleave in any order.
 */
module TcpPairing {
  import opened Wrappers
  import opened Bytes
  import opened Crypto
  import opened Frames
  import opened Requests
  import opened Dispatch

  type CallId = nat

  /** The cipher, the session key both sides hold and the handlers registered. */
  datatype Env = Env(a: Aead, key: seq<byte>, handlers: Handlers)

  ghost predicate GoodEnv(e: Env) { Lawful(e.a) && |e.key| == KEY_SIZE }

  // ── State ──────────────────────────────────────────────────

  /** `at` is the place of the call's frame in wire order. */
  datatype Phase =
    | Waiting
    | Holding
    | Sent(at: nat)
    | Returned(result: Result<Response, RequestError>, place: Option<nat>)

  datatype Call = Call(seqno: u32, req: Request, nonce: Nonce, phase: Phase)

  /** A response, and what the handler returned if one ran. */
  datatype Answer = Answer(resp: Response, nonce: Nonce, outcome: Option<Response>)

  datatype Server = Checking | Reading | Handling | Closed

  /**
   `holder` owns the mutex. `wire`, `received`, `answers` record, in order, the calls that wrote, what
   the server read and what it answered; `expiry` records the unsolicited expiry notice and `taken`
   that a call has consumed it.
   */
  datatype State = State(
    calls: map<CallId, Call>,
    nextSeq: u32,
    holder: Option<CallId>,
    toServer: seq<byte>,
    toClient: seq<byte>,
    server: Server,
    wire: seq<CallId>,
    received: seq<(Request, u32)>,
    answers: seq<Answer>,
    expiry: Option<Nonce>,
    taken: bool)

  // ── Steps ──────────────────────────────────────────────────

  datatype Step =
    | Start(id: CallId, req: Request, nonce: Nonce)
    | Acquire(id: CallId)
    | Write(id: CallId)
    | WriteFails(id: CallId)
    | Read(id: CallId)
    | Check(expired: bool, nonce: Nonce)
    | Receive
    | Reply(outcome: Option<Response>, nonce: Nonce)
    | Disconnect(arriving: nat)

  const ExpiredResponse := Response(SessionExpired, None, 0)

  function RequestBytes(e: Env, c: Call): Result<seq<byte>, RequestError> {
    Send(e.a, Some(e.key), c.nonce, c.seqno, RequestPlaintext(c.req))
  }

  /** A reply too large for a frame is dropped: nothing is written. */
  function ReplyBytes(e: Env, ans: Answer, seqno: u32): seq<byte> {
    match Send(e.a, Some(e.key), ans.nonce, seqno, ResponsePlaintext(ans.resp))
    case Ok(bytes) => bytes
    case Err(_) => []
  }

  /** Enough bytes have arrived for a frame read to return. */
  predicate Readable(stream: seq<byte>) {
    |stream| >= 4 &&
    var len := FromBE(stream[..4]);
    len > MAX_FRAME_SIZE || |stream| - 4 >= len
  }

  predicate InPhase(s: State, id: CallId, p: Phase) { id in s.calls && s.calls[id].phase == p }

  function SetPhase(s: State, id: CallId, p: Phase): State
    requires id in s.calls
  {
    s.(calls := s.calls[id := s.calls[id].(phase := p)])
  }

  predicate Enabled(s: State, step: Step) {
    match step
    case Start(id, req, _) => id !in s.calls && GoodPayload(req.payload)
    case Acquire(id) => InPhase(s, id, Waiting) && s.holder == None
    case Write(id) => InPhase(s, id, Holding)
    case WriteFails(id) => InPhase(s, id, Holding) && s.server == Closed
    case Read(id) =>
      id in s.calls && s.calls[id].phase.Sent? && (s.server == Closed || Readable(s.toClient))
    case Check(_, _) => s.server == Checking
    case Receive => s.server == Reading && Readable(s.toServer)
    case Reply(outcome, _) =>
      s.server == Handling && s.received != [] && (outcome.Some? ==> GoodPayload(outcome.value.payload))
    case Disconnect(arriving) => s.server != Closed && arriving <= |s.toClient|
  }

  /** Bytes of the reply the holder has yet to read. */
  function Owed(e: Env, s: State): seq<byte> {
    if s.holder.Some? && s.holder.value in s.calls
       && var c := s.calls[s.holder.value]; c.phase.Sent? && c.phase.at < |s.answers|
    then
      var c := s.calls[s.holder.value];
      ReplyBytes(e, s.answers[c.phase.at], c.seqno)
    else []
  }

  function Apply(e: Env, s: State, step: Step): State
    requires Enabled(s, step)
  {
    match step
    case Start(id, req, nonce) =>
      var c := Call(s.nextSeq, req, nonce, Waiting);
      var sent := RequestBytes(e, c);
      s.(nextSeq := (s.nextSeq + 1) % TWO32,
         calls := s.calls[id := if sent.Ok? then c else c.(phase := Returned(Err(sent.error), None))])
    case Acquire(id) => SetPhase(s, id, Holding).(holder := Some(id))
    case Write(id) =>
      var sent := RequestBytes(e, s.calls[id]);
      SetPhase(s, id, Sent(|s.wire|)).(
        wire := s.wire + [id],
        toServer := s.toServer + if sent.Ok? then sent.value else [])
    case WriteFails(id) => SetPhase(s, id, Returned(Err(BadFrame(Io)), None)).(holder := None)
    case Read(id) =>
      var (r, rest) := ReceiveResponse(e.a, Some(e.key), s.toClient);
      SetPhase(s, id, Returned(r, Some(s.calls[id].phase.at))).(
        holder := None, toClient := rest,
        taken := s.taken || (r.Ok? && Owed(e, s) == []))
    case Check(expired, nonce) =>
      if expired then
        s.(server := Closed, expiry := Some(nonce),
           toClient := s.toClient + ReplyBytes(e, Answer(ExpiredResponse, nonce, None), 0))
      else s.(server := Reading)
    case Receive =>
      var (r, rest) := ReceiveRequest(e.a, Some(e.key), s.toServer);
      (match r
       case Ok(read) => s.(server := Handling, toServer := rest, received := s.received + [read])
       case Err(_) => s.(server := Closed, toServer := rest))
    case Reply(outcome, nonce) =>
      var (req, seqno) := s.received[|s.received| - 1];
      var ans := Answer(TcpAnswer(e.handlers, req.opcode, seqno, outcome), nonce, outcome);
      s.(server := Checking, answers := s.answers + [ans],
         toClient := s.toClient + ReplyBytes(e, ans, seqno))
    case Disconnect(arriving) => s.(server := Closed, toClient := s.toClient[..arriving])
  }

  // ── Invariant ──────────────────────────────────────────────

  /** Bytes of an expiry notice nobody has read yet. */
  function Notice(e: Env, s: State): seq<byte> {
    if s.expiry.Some? && !s.taken then ReplyBytes(e, Answer(ExpiredResponse, s.expiry.value, None), 0) else []
  }

  /** What a call's request looks like to the server. */
  function Arrived(c: Call): (Request, u32) {
    (Request(c.req.opcode, Seen(c.req.payload)), c.seqno)
  }

  /** The answer a call with this number gets to see. */
  function Answered(ans: Answer, seqno: u32): Response {
    Response(ans.resp.status, Seen(ans.resp.payload), seqno)
  }

  predicate OnWire(s: State, id: CallId, j: nat) {
    && j < |s.wire| && s.wire[j] == id && id in s.calls
    && (s.calls[id].phase == Sent(j) || (s.calls[id].phase.Returned? && s.calls[id].phase.place == Some(j)))
  }

  /**
   A response handed to a call answers that call's own request under its own number, or is the
   expiry notice.
   */
  predicate Paired(s: State, id: CallId) {
    id in s.calls && s.calls[id].phase.Returned? && s.calls[id].phase.result.Ok? ==>
      var c := s.calls[id];
      var resp := c.phase.result.value;
      || resp == ExpiredResponse
      || (&& c.phase.place.Some?
          && var j := c.phase.place.value;
             && OnWire(s, id, j) && j < |s.answers| && j < |s.received|
             && s.received[j] == Arrived(c)
             && resp == Answered(s.answers[j], c.seqno))
  }

  /** One call holds the mutex, from before its write until after its read. */
  predicate MutexOk(s: State) {
    && (s.holder.Some? ==> s.holder.value in s.calls
                           && (var p := s.calls[s.holder.value].phase; p.Holding? || p.Sent?))
    && (forall id :: id in s.calls && (s.calls[id].phase.Holding? || s.calls[id].phase.Sent?) ==>
                       s.holder == Some(id))
  }

  predicate CallsOk(e: Env, s: State) {
    && (forall id :: id in s.calls && !s.calls[id].phase.Returned? ==>
                       RequestBytes(e, s.calls[id]).Ok? && GoodPayload(s.calls[id].req.payload))
    && (forall id :: id in s.calls && s.calls[id].phase.Sent? ==> OnWire(s, id, s.calls[id].phase.at))
  }

  /** The answer is what the loop makes of this request and the handler's outcome. */
  predicate AnswersRequest(e: Env, ans: Answer, read: (Request, u32)) {
    ans.resp == TcpAnswer(e.handlers, read.0.opcode, read.1, ans.outcome)
  }

  predicate HistoryOk(e: Env, s: State) {
    && |s.answers| <= |s.received| <= |s.wire|
    && (forall j :: 0 <= j < |s.wire| ==> OnWire(s, s.wire[j], j))
    && (forall j :: 0 <= j < |s.received| ==> s.received[j] == Arrived(s.calls[s.wire[j]]))
    && (forall j :: 0 <= j < |s.answers| ==>
          GoodPayload(s.answers[j].resp.payload) && AnswersRequest(e, s.answers[j], s.received[j]))
  }

  /** A call is now between its write and its read. */
  predicate Outstanding(s: State) {
    s.holder.Some? && s.holder.value in s.calls && s.calls[s.holder.value].phase.Sent?
  }

  /** While the server runs at most one request is outstanding, and the streams hold just its bytes. */
  predicate OpenOk(e: Env, s: State)
    requires CallsOk(e, s)
  {
    && s.expiry == None && !s.taken
    && s.toClient == Owed(e, s)
    && |s.received| == |s.answers| + (if s.server == Handling then 1 else 0)
    && (if Outstanding(s) then
          && s.calls[s.holder.value].phase.at == |s.wire| - 1
          && |s.wire| - 1 <= |s.answers|
          && s.toServer == (if |s.received| < |s.wire| then RequestBytes(e, s.calls[s.holder.value]).value else [])
        else
          |s.wire| == |s.answers| && s.toServer == [])
  }

  predicate StreamsOk(e: Env, s: State)
    requires CallsOk(e, s)
  {
    if s.server == Closed then s.toClient <= Owed(e, s) + Notice(e, s) else OpenOk(e, s)
  }

  predicate Inv(e: Env, s: State) {
    && MutexOk(s) && CallsOk(e, s) && HistoryOk(e, s) && StreamsOk(e, s)
    && forall id :: id in s.calls ==> Paired(s, id)
  }

  // ── Bytes of one exchange ──────────────────────────────────

  lemma RequestArrives(e: Env, c: Call)
    requires GoodEnv(e) && GoodPayload(c.req.payload) && RequestBytes(e, c).Ok?
    ensures var bytes := RequestBytes(e, c).value;
            && bytes != []
            && ReceiveRequest(e.a, Some(e.key), bytes) == (Ok(Arrived(c)), [])
  {
    RequestOutcome(e.a, Some(e.key), c.nonce, c.seqno, c.req, []);
    var bytes := RequestBytes(e, c).value;
    assert bytes + [] == bytes;
    EmptyRequest(e);
  }

  lemma EmptyRequest(e: Env)
    ensures ReceiveRequest(e.a, Some(e.key), []).0.Err?
  {
  }

  lemma ReplyArrives(e: Env, ans: Answer, seqno: u32, rest: seq<byte>)
    requires GoodEnv(e) && GoodPayload(ans.resp.payload) && ReplyBytes(e, ans, seqno) != []
    ensures ReceiveResponse(e.a, Some(e.key), ReplyBytes(e, ans, seqno) + rest) ==
            (Ok(Answered(ans, seqno)), rest)
  {
    ResponseOutcome(e.a, Some(e.key), ans.nonce, seqno, ans.resp, rest);
  }

  lemma ReplyCut(e: Env, ans: Answer, seqno: u32, k: nat)
    requires GoodEnv(e) && GoodPayload(ans.resp.payload) && k < |ReplyBytes(e, ans, seqno)|
    ensures ReceiveResponse(e.a, Some(e.key), ReplyBytes(e, ans, seqno)[..k]) == (Err(BadFrame(Io)), [])
    ensures !Readable(ReplyBytes(e, ans, seqno)[..k])
  {
    hide ReceiveResponse;
    var bytes := ReplyBytes(e, ans, seqno);
    BodyArrives(e.a, Some(e.key), ans.nonce, seqno, ResponsePlaintext(ans.resp), []);
    var body: seq<byte> :| |body| <= MAX_FRAME_SIZE - 4 && bytes == Layout(4 + |body|, seqno, body);
    LayoutCut(e, seqno, body, k);
  }

  lemma LayoutCut(e: Env, seqno: u32, body: seq<byte>, k: nat)
    requires |body| <= MAX_FRAME_SIZE - 4 && k < |Layout(4 + |body|, seqno, body)|
    ensures var cut := Layout(4 + |body|, seqno, body)[..k];
            ReceiveResponse(e.a, Some(e.key), cut) == (Err(BadFrame(Io)), []) && !Readable(cut)
  {
    hide Layout;
    LayoutParts(4 + |body|, seqno, body, []);
    var bytes := Layout(4 + |body|, seqno, body);
    assert bytes + [] == bytes;
    if k >= 4 {
      assert bytes[..k][..4] == bytes[..4];
    }
  }

  // ── Every step keeps the invariant ─────────────────────────

  /** Pairing is about calls that have returned and about the past. */
  lemma PairedKept(s: State, t: State)
    requires forall id :: id in s.calls ==> Paired(s, id)
    requires forall id :: id in t.calls && t.calls[id].phase.Returned? && t.calls[id].phase.result.Ok? ==>
                            id in s.calls && t.calls[id] == s.calls[id]
    requires s.wire <= t.wire && s.received <= t.received && s.answers <= t.answers
    ensures forall id :: id in t.calls ==> Paired(t, id)
  {
    hide Seen;
    forall id | id in t.calls ensures Paired(t, id) {
      if id in s.calls { assert Paired(s, id); }
    }
  }

  lemma KeepsStart(e: Env, s: State, id: CallId, req: Request, nonce: Nonce)
    requires GoodEnv(e) && Inv(e, s) && Enabled(s, Start(id, req, nonce))
    ensures Inv(e, Apply(e, s, Start(id, req, nonce)))
  {
    hide RequestBytes, ReplyBytes, Seen, Send, GoodPayload, TcpAnswer, Paired;
    var t := Apply(e, s, Start(id, req, nonce));
    assert MutexOk(t) && CallsOk(e, t);
    assert HistoryOk(e, t);
    assert Owed(e, t) == Owed(e, s) && StreamsOk(e, t);
    PairedKept(s, t);
  }

  lemma KeepsAcquire(e: Env, s: State, id: CallId)
    requires GoodEnv(e) && Inv(e, s) && Enabled(s, Acquire(id))
    ensures Inv(e, Apply(e, s, Acquire(id)))
  {
    hide RequestPlaintext, ReplyBytes, Seen, Send, GoodPayload, TcpAnswer, Paired;
    var t := Apply(e, s, Acquire(id));
    forall j | 0 <= j < |t.wire| ensures OnWire(t, t.wire[j], j) {
      if j < |s.wire| { assert OnWire(s, s.wire[j], j); }
    }
    PairedKept(s, t);
  }

  lemma KeepsWrite(e: Env, s: State, id: CallId)
    requires GoodEnv(e) && Inv(e, s) && Enabled(s, Write(id))
    ensures Inv(e, Apply(e, s, Write(id)))
  {
    hide RequestPlaintext, ReplyBytes, Seen, Send, GoodPayload, TcpAnswer, Paired;
    var t := Apply(e, s, Write(id));
    forall j | 0 <= j < |t.wire| ensures OnWire(t, t.wire[j], j) {
      if j < |s.wire| { assert OnWire(s, s.wire[j], j); }
    }
    PairedKept(s, t);
  }

  lemma KeepsWriteFails(e: Env, s: State, id: CallId)
    requires GoodEnv(e) && Inv(e, s) && Enabled(s, WriteFails(id))
    ensures Inv(e, Apply(e, s, WriteFails(id)))
  {
    hide RequestBytes, ReplyBytes, Seen, Send, GoodPayload, TcpAnswer, Paired;
    var t := Apply(e, s, WriteFails(id));
    PairedKept(s, t);
  }

  lemma KeepsCheck(e: Env, s: State, expired: bool, nonce: Nonce)
    requires GoodEnv(e) && Inv(e, s) && Enabled(s, Check(expired, nonce))
    ensures Inv(e, Apply(e, s, Check(expired, nonce)))
  {
    hide RequestBytes, ReplyBytes, Seen, Send, GoodPayload, TcpAnswer, Paired;
    var t := Apply(e, s, Check(expired, nonce));
    PairedKept(s, t);
  }

  lemma KeepsDisconnect(e: Env, s: State, arriving: nat)
    requires GoodEnv(e) && Inv(e, s) && Enabled(s, Disconnect(arriving))
    ensures Inv(e, Apply(e, s, Disconnect(arriving)))
  {
    hide RequestBytes, ReplyBytes, Seen, Send, GoodPayload, TcpAnswer, Paired;
    var t := Apply(e, s, Disconnect(arriving));
    assert t.toClient <= s.toClient <= Owed(e, t) + Notice(e, t);
    PairedKept(s, t);
  }

  /** What a call can read: its own reply, the expiry notice, or too little. */
  lemma ReadOutcome(e: Env, s: State, id: CallId)
    requires GoodEnv(e) && Inv(e, s) && Enabled(s, Read(id))
    ensures var c := s.calls[id];
            var owed := Owed(e, s);
            var (r, rest) := ReceiveResponse(e.a, Some(e.key), s.toClient);
            && s.holder == Some(id)
            && (s.server != Closed ==> owed != [] && rest == [])
            && (if owed != [] && owed <= s.toClient then
                  && c.phase.at < |s.answers|
                  && r == Ok(Answered(s.answers[c.phase.at], c.seqno))
                  && rest == s.toClient[|owed|..]
                else if owed == [] && Notice(e, s) != [] && s.toClient == Notice(e, s) then
                  r == Ok(ExpiredResponse) && rest == []
                else r.Err? && rest == [])
  {
    hide RequestBytes, ReplyBytes, Seen, Send, GoodPayload, ReceiveResponse, Readable;
    var c, owed, notice := s.calls[id], Owed(e, s), Notice(e, s);
    if owed != [] && owed <= s.toClient {
      var rest := s.toClient[|owed|..];
      assert s.toClient == owed + rest;
      ReplyArrives(e, s.answers[c.phase.at], c.seqno, rest);
    } else if owed != [] {
      assert s.toClient == owed[..|s.toClient|];
      ReplyCut(e, s.answers[c.phase.at], c.seqno, |s.toClient|);
    } else {
      assert [] + notice == notice;
      EmptyNotReadable();
      if s.toClient == notice && notice != [] {
        NoticeRead(e, s);
      } else if notice != [] {
        assert s.toClient == notice[..|s.toClient|];
        NoticeCut(e, s, |s.toClient|);
      } else {
        assert s.toClient == [];
        NothingToRead(e);
      }
    }
  }

  lemma EmptyNotReadable()
    ensures !Readable([])
  {
  }

  lemma NothingToRead(e: Env)
    ensures ReceiveResponse(e.a, Some(e.key), []) == (Err(BadFrame(Io)), [])
  {
  }

  lemma NoticeRead(e: Env, s: State)
    requires GoodEnv(e) && Notice(e, s) != []
    ensures ReceiveResponse(e.a, Some(e.key), Notice(e, s)) == (Ok(ExpiredResponse), [])
  {
    hide ReceiveResponse, ReplyBytes;
    var ans := Answer(ExpiredResponse, s.expiry.value, None);
    ReplyArrives(e, ans, 0, []);
    assert ReplyBytes(e, ans, 0) + [] == ReplyBytes(e, ans, 0);
  }

  lemma NoticeCut(e: Env, s: State, k: nat)
    requires GoodEnv(e) && k < |Notice(e, s)|
    ensures ReceiveResponse(e.a, Some(e.key), Notice(e, s)[..k]) == (Err(BadFrame(Io)), [])
  {
    hide ReceiveResponse, ReplyBytes, Readable;
    ReplyCut(e, Answer(ExpiredResponse, s.expiry.value, None), 0, k);
  }

  lemma ReadKeepsStreams(e: Env, s: State, id: CallId)
    requires GoodEnv(e) && Inv(e, s) && Enabled(s, Read(id))
    ensures CallsOk(e, Apply(e, s, Read(id))) && StreamsOk(e, Apply(e, s, Read(id)))
  {
    hide RequestBytes, ReplyBytes, Seen, GoodPayload, ReceiveResponse, Readable, Paired;
    ReadOutcome(e, s, id);
    assert MutexOk(Apply(e, s, Read(id)));
    assert CallsOk(e, Apply(e, s, Read(id)));
  }

  lemma KeepsRead(e: Env, s: State, id: CallId)
    requires GoodEnv(e) && Inv(e, s) && Enabled(s, Read(id))
    ensures Inv(e, Apply(e, s, Read(id)))
  {
    hide RequestBytes, ReplyBytes, Seen, GoodPayload, ReceiveResponse, Readable, StreamsOk;
    var t := Apply(e, s, Read(id));
    ReadOutcome(e, s, id);
    ReadKeepsStreams(e, s, id);
    forall j | 0 <= j < |t.wire| ensures OnWire(t, t.wire[j], j) {
      assert OnWire(s, s.wire[j], j);
    }
    assert MutexOk(t) && HistoryOk(e, t);
    forall i | i in t.calls ensures Paired(t, i) {
      assert Paired(s, i);
    }
  }

  lemma KeepsReceive(e: Env, s: State)
    requires GoodEnv(e) && Inv(e, s) && Enabled(s, Receive)
    ensures Inv(e, Apply(e, s, Receive))
  {
    hide RequestBytes, ReplyBytes, Seen, Send, GoodPayload, ReceiveRequest, Paired;
    var t := Apply(e, s, Receive);
    assert Outstanding(s) && |s.received| < |s.wire|;
    var c := s.calls[s.holder.value];
    RequestArrives(e, c);
    PairedKept(s, t);
  }

  lemma KeepsReply(e: Env, s: State, outcome: Option<Response>, nonce: Nonce)
    requires GoodEnv(e) && Inv(e, s) && Enabled(s, Reply(outcome, nonce))
    ensures Inv(e, Apply(e, s, Reply(outcome, nonce)))
  {
    hide RequestBytes, ReplyBytes, Seen, Send, GoodPayload, TcpAnswer, Paired, StreamsOk;
    var t := Apply(e, s, Reply(outcome, nonce));
    var (req, seqno) := s.received[|s.received| - 1];
    AnswersGood(e.handlers, req.opcode, seqno, outcome);
    ReplyKeepsStreams(e, s, outcome, nonce);
    PairedKept(s, t);
  }

  lemma ReplyKeepsStreams(e: Env, s: State, outcome: Option<Response>, nonce: Nonce)
    requires Inv(e, s) && Enabled(s, Reply(outcome, nonce))
    ensures var t := Apply(e, s, Reply(outcome, nonce));
            CallsOk(e, t) && StreamsOk(e, t) && |s.received| == |s.answers| + 1
  {
    hide RequestBytes, ReplyBytes, Seen, Send, GoodPayload, TcpAnswer, Paired, MutexOk;
    var t := Apply(e, s, Reply(outcome, nonce));
    assert CallsOk(e, t) by { hide HistoryOk, StreamsOk; }
    if Outstanding(s) {
      var c := s.calls[s.holder.value];
      assert OnWire(s, s.holder.value, c.phase.at);
      assert s.received[|s.answers|] == Arrived(s.calls[s.wire[|s.answers|]]);
    }
  }

  lemma Keeps(e: Env, s: State, step: Step)
    requires GoodEnv(e) && Inv(e, s) && Enabled(s, step)
    ensures Inv(e, Apply(e, s, step))
  {
    hide *;
    match step
    case Start(id, req, nonce) => KeepsStart(e, s, id, req, nonce);
    case Acquire(id) => KeepsAcquire(e, s, id);
    case Write(id) => KeepsWrite(e, s, id);
    case WriteFails(id) => KeepsWriteFails(e, s, id);
    case Read(id) => KeepsRead(e, s, id);
    case Check(expired, nonce) => KeepsCheck(e, s, expired, nonce);
    case Receive => KeepsReceive(e, s);
    case Reply(outcome, nonce) => KeepsReply(e, s, outcome, nonce);
    case Disconnect(arriving) => KeepsDisconnect(e, s, arriving);
  }

  // ── Runs ───────────────────────────────────────────────────

  const INITIAL := State(map[], 0, None, [], [], Checking, [], [], [], None, false)

  /** Every step is possible when its turn comes. */
  predicate Legal(e: Env, s: State, steps: seq<Step>)
    decreases |steps|
  {
    steps == [] || (Enabled(s, steps[0]) && Legal(e, Apply(e, s, steps[0]), steps[1..]))
  }

  function Run(e: Env, s: State, steps: seq<Step>): State
    requires Legal(e, s, steps)
    decreases |steps|
  {
    if steps == [] then s else Run(e, Apply(e, s, steps[0]), steps[1..])
  }

  lemma {:induction false} RunKeeps(e: Env, s: State, steps: seq<Step>)
    requires GoodEnv(e) && Inv(e, s) && Legal(e, s, steps)
    ensures Inv(e, Run(e, s, steps))
    decreases |steps|
  {
    hide Apply, Enabled, Inv;
    if steps == [] {
    } else {
      Keeps(e, s, steps[0]);
      RunKeeps(e, Apply(e, s, steps[0]), steps[1..]);
    }
  }

  lemma {:induction false} RunMore(e: Env, s: State, steps: seq<Step>, step: Step)
    requires Legal(e, s, steps) && Enabled(Run(e, s, steps), step)
    ensures Legal(e, s, steps + [step]) && Run(e, s, steps + [step]) == Apply(e, Run(e, s, steps), step)
    decreases |steps|
  {
    hide Apply, Enabled;
    if steps == [] {
      var last := Apply(e, s, step);
      assert Legal(e, last, []) && Run(e, last, []) == last;
      assert [step][1..] == [];
    } else {
      RunMore(e, Apply(e, s, steps[0]), steps[1..], step);
      assert (steps + [step])[1..] == steps[1..] + [step];
    }
  }

  /** A run up to its last step. */
  lemma {:induction false} RunLast(e: Env, s: State, steps: seq<Step>)
    requires Legal(e, s, steps) && steps != []
    ensures var init, last := steps[..|steps| - 1], steps[|steps| - 1];
            && Legal(e, s, init) && Enabled(Run(e, s, init), last)
            && Run(e, s, steps) == Apply(e, Run(e, s, init), last)
    decreases |steps|
  {
    hide Apply, Enabled;
    var next := Apply(e, s, steps[0]);
    if |steps| == 1 {
      assert steps[1..] == [] && steps[..0] == [];
      assert Run(e, next, []) == next;
    } else {
      RunLast(e, next, steps[1..]);
      assert steps[..|steps| - 1][1..] == steps[1..][..|steps| - 2];
    }
  }

  lemma RunInv(e: Env, steps: seq<Step>)
    requires GoodEnv(e) && Legal(e, INITIAL, steps)
    ensures Inv(e, Run(e, INITIAL, steps))
  {
    RunKeeps(e, INITIAL, steps);
  }

  /**
   In every interleaving of any number of calls, each call that returns a response returns the
   server's answer to its own request under its own sequence number, or the expiry notice with
   number 0; no two calls share an answer.
   */
  lemma EveryCallGetsItsOwnAnswer(e: Env, steps: seq<Step>, id: CallId)
    requires GoodEnv(e) && Legal(e, INITIAL, steps)
    ensures var s := Run(e, INITIAL, steps);
            GotOwnAnswer(e, s, id)
  {
    hide Run, Legal;
    RunInv(e, steps);
    var s := Run(e, INITIAL, steps);
    if id in s.calls && s.calls[id].phase.Returned? && s.calls[id].phase.result.Ok? {
      PairedMeans(e, s, id);
    }
  }

  ghost predicate GotOwnAnswer(e: Env, s: State, id: CallId) {
    id in s.calls && s.calls[id].phase.Returned? && s.calls[id].phase.result.Ok? ==>
      var c := s.calls[id];
      var resp := c.phase.result.value;
      || resp == Response(SessionExpired, None, 0)
      || exists j: nat :: AnswerFor(e, s, id, c, resp, j)
  }

  /**
   The j-th request on the wire is this call's only one, was read as sent, and `resp` is what its
   opcode's handler made of it.
   */
  ghost predicate AnswerFor(e: Env, s: State, id: CallId, c: Call, resp: Response, j: nat)
    requires c.phase.Returned?
  {
    && j < |s.wire| && j < |s.received| && j < |s.answers|
    && s.wire[j] == id && (forall k :: 0 <= k < |s.wire| && s.wire[k] == id ==> k == j)
    && s.received[j] == (Request(c.req.opcode, Seen(c.req.payload)), c.seqno)
    && HandledAs(e.handlers, c.req.opcode, s.answers[j].outcome, resp.status, resp.payload)
    && resp.seqno == c.seqno && c.phase.place == Some(j)
  }

  lemma PairedMeans(e: Env, s: State, id: CallId)
    requires Inv(e, s)
    ensures GotOwnAnswer(e, s, id)
  {
    hide RequestBytes, ReplyBytes, Seen, StreamsOk, TcpAnswer;
    assert id in s.calls ==> Paired(s, id);
    if id in s.calls && s.calls[id].phase.Returned? && s.calls[id].phase.result.Ok? {
      var c := s.calls[id];
      if c.phase.result.value != ExpiredResponse {
        var j := c.phase.place.value;
        forall k | 0 <= k < |s.wire| && s.wire[k] == id ensures k == j {
          assert OnWire(s, s.wire[k], k);
        }
        AnswerSeen(e.handlers, c.req.opcode, c.seqno, s.answers[j].outcome);
        assert AnswerFor(e, s, id, c, c.phase.result.value, j);
      }
    }
  }

  /** At most one request is outstanding while the server runs, and it answers only what it read. */
  lemma AtMostOneOutstanding(e: Env, steps: seq<Step>)
    requires GoodEnv(e) && Legal(e, INITIAL, steps)
    ensures var s := Run(e, INITIAL, steps);
            && |s.answers| <= |s.received| <= |s.wire|
            && (s.server != Closed ==> |s.wire| <= |s.answers| + 1)
            && (forall i, j ::
                  (i in s.calls && s.calls[i].phase.Sent? && j in s.calls && s.calls[j].phase.Sent?) ==> i == j)
  {
    hide Run, Legal, RequestBytes, ReplyBytes;
    RunInv(e, steps);
  }
}
