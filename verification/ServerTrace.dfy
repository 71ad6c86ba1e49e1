/**
 The server's promises told by the steps of a run alone: how much time passed between a connection's
 handshake and a request, under which key the request was read, and how long a token lives.
 */
module ServerTrace {
  import opened Wrappers
  import opened Bytes
  import opened Crypto
  import opened Requests
  import opened Stores
  import opened ServerRuns

  // ── Time ───────────────────────────────────────────────────

  function TickOf(step: Step): nat { if step.Tick? then step.elapsed else 0 }

  /** The time that passes in a run. */
  function Ticks(steps: seq<Step>): nat {
    if steps == [] then 0 else Ticks(steps[..|steps| - 1]) + TickOf(steps[|steps| - 1])
  }

  lemma TicksMore(steps: seq<Step>, step: Step)
    ensures Ticks(steps + [step]) == Ticks(steps) + TickOf(step)
  {
    assert (steps + [step])[..|steps|] == steps;
  }

  lemma ClockStep(e: Env, s: State, step: Step)
    requires Enabled(e, s, step)
    ensures Apply(e, s, step).now == s.now + TickOf(step)
  {
    hide Build, NextId, Sessions, Issued, Validated, Collected, Retained, ReceiveRequest;
  }

  lemma {:induction false} ClockIsTicks(e: Env, s: State, steps: seq<Step>)
    requires Legal(e, s, steps)
    ensures Run(e, s, steps).now == s.now + Ticks(steps)
    decreases |steps|
  {
    if steps == [] {
    } else {
      hide Run, Legal, Apply, Enabled;
      var init := steps[..|steps| - 1];
      RunLast(e, s, steps);
      ClockIsTicks(e, s, init);
      ClockStep(e, Run(e, s, init), steps[|steps| - 1]);
    }
  }

  // ── Sessions come from handshakes ──────────────────────────

  /** The i-th step established this session, at the time its fields record. */
  predicate EstablishedAt(steps: seq<Step>, sess: Session, i: nat) {
    && i < |steps| && steps[i] == Establish(sess.id, sess.apiKeyId, sess.key)
    && sess.createdAt == sess.lastUsed == Ticks(steps[..i])
  }

  ghost predicate SessionTraced(steps: seq<Step>, sess: Session) { exists i: nat :: EstablishedAt(steps, sess, i) }

  lemma SessionTracedMore(steps: seq<Step>, step: Step, sess: Session)
    requires SessionTraced(steps, sess)
    ensures SessionTraced(steps + [step], sess)
  {
    var i: nat :| EstablishedAt(steps, sess, i);
    assert (steps + [step])[..i] == steps[..i];
    assert EstablishedAt(steps + [step], sess, i);
  }

  lemma SessionTracedNew(steps: seq<Step>, sess: Session)
    requires sess.createdAt == sess.lastUsed == Ticks(steps)
    ensures SessionTraced(steps + [Establish(sess.id, sess.apiKeyId, sess.key)], sess)
  {
    var more := steps + [Establish(sess.id, sess.apiKeyId, sess.key)];
    assert more[..|steps|] == steps;
    assert EstablishedAt(more, sess, |steps|);
  }

  ghost predicate SessionsTraced(e: Env, steps: seq<Step>, s: State) {
    forall sid :: sid in Sessions(e, s) ==> Sessions(e, s)[sid].id == sid && SessionTraced(steps, Sessions(e, s)[sid])
  }

  lemma SessionsStep(e: Env, steps: seq<Step>, s: State, step: Step)
    requires Enabled(e, s, step) && s.now == Ticks(steps) && SessionsTraced(e, steps, s)
    ensures SessionsTraced(e, steps + [step], Apply(e, s, step))
  {
    hide Apply, Enabled, Sessions, SessionTraced, Ticks;
    SessionsAfter(e, s, step);
    var before, after := Sessions(e, s), Sessions(e, Apply(e, s, step));
    forall sid | sid in after ensures after[sid].id == sid && SessionTraced(steps + [step], after[sid]) {
      if step.Establish? && step.sid == sid {
        SessionTracedNew(steps, after[sid]);
      } else {
        assert after[sid] == before[sid];
        SessionTracedMore(steps, step, before[sid]);
      }
    }
  }

  lemma {:induction false} RunSessionsTraced(e: Env, steps: seq<Step>)
    requires Legal(e, INITIAL, steps)
    ensures SessionsTraced(e, steps, Run(e, INITIAL, steps))
    decreases |steps|
  {
    if steps == [] {
    } else {
      hide Run, Legal, Apply, Enabled, SessionsTraced;
      var init, last := steps[..|steps| - 1], steps[|steps| - 1];
      assert steps == init + [last];
      RunLast(e, INITIAL, steps);
      RunSessionsTraced(e, init);
      ClockIsTicks(e, INITIAL, init);
      SessionsStep(e, init, Run(e, INITIAL, init), last);
    }
  }

  // ── The expiry check ───────────────────────────────────────

  /** No more than the configured times have passed since the i-th step. */
  predicate Fresh(e: Env, steps: seq<Step>, i: nat, now: nat)
    requires i <= |steps|
  {
    && now <= Ticks(steps[..i]) + e.config.maxLifetime
    && now <= Ticks(steps[..i]) + e.config.idleTimeout
  }

  /**
   A stream is refused at its check exactly when its session is stored and was established longer ago
   than its lifetime or the idle timeout: nothing refreshes either.
   */
  lemma CheckedExactly(e: Env, steps: seq<Step>, t: nat)
    requires Legal(e, INITIAL, steps) && Enabled(e, Run(e, INITIAL, steps), StreamChecks(t))
    ensures var s := Run(e, INITIAL, steps);
            var sid, phase := s.streams[t].sid, Apply(e, s, StreamChecks(t)).streams[t].phase;
            if sid !in Sessions(e, s) then phase == Checked
            else exists i: nat :: EstablishedAt(steps, Sessions(e, s)[sid], i)
                                  && phase == if Fresh(e, steps, i, Ticks(steps)) then Checked else Refused
  {
    hide Run, Legal, Ticks, Sessions;
    RunSessionsTraced(e, steps);
    ClockIsTicks(e, INITIAL, steps);
    var s := Run(e, INITIAL, steps);
    var sid := s.streams[t].sid;
    if sid in Sessions(e, s) {
      assert SessionTraced(steps, Sessions(e, s)[sid]);
      var i: nat :| EstablishedAt(steps, Sessions(e, s)[sid], i);
    }
  }

  // ── Dispatched requests ────────────────────────────────────

  /** The j-th step checked this stream against a session established by the i-th, not too long before. */
  ghost predicate FoundAt(e: Env, steps: seq<Step>, t: nat, f: Found, i: nat, j: nat) {
    && i < j < |steps| && steps[j] == StreamChecks(t)
    && EstablishedAt(steps, f.session, i) && f.time == Ticks(steps[..j]) && Fresh(e, steps, i, f.time)
  }

  ghost predicate FoundTraced(e: Env, steps: seq<Step>, t: nat, f: Found) {
    exists i: nat, j: nat :: FoundAt(e, steps, t, f, i, j)
  }

  lemma FoundTracedMore(e: Env, steps: seq<Step>, step: Step, t: nat, f: Found)
    requires FoundTraced(e, steps, t, f)
    ensures FoundTraced(e, steps + [step], t, f)
  {
    var i: nat, j: nat :| FoundAt(e, steps, t, f, i, j);
    var more := steps + [step];
    assert more[..i] == steps[..i] && more[..j] == steps[..j];
    assert FoundAt(e, more, t, f, i, j);
  }

  lemma FoundTracedNew(e: Env, steps: seq<Step>, t: nat, f: Found)
    requires SessionTraced(steps, f.session) && f.time == Ticks(steps)
    requires !Expired(e.config, f.session, f.time) && !IdleDead(e.config, f.session, f.time)
    ensures FoundTraced(e, steps + [StreamChecks(t)], t, f)
  {
    var i: nat :| EstablishedAt(steps, f.session, i);
    var more := steps + [StreamChecks(t)];
    assert more[..i] == steps[..i] && more[..|steps|] == steps;
    assert FoundAt(e, more, t, f, i, |steps|);
  }

  /** The k-th step read this stream's request under the session's key, and its opcode has a handler. */
  ghost predicate ReadAt(e: Env, steps: seq<Step>, t: nat, key: seq<byte>, opcode: u16, k: nat) {
    && k < |steps| && steps[k].StreamReads? && steps[k].t == t && opcode in e.handlers
    && exists req: Request, seqno: u32 ::
         req.opcode == opcode && ReceiveRequest(e.a, Some(key), steps[k].bytes).0 == Ok((req, seqno))
  }

  ghost predicate ReadTraced(e: Env, steps: seq<Step>, t: nat, key: seq<byte>, opcode: u16) {
    exists k: nat :: ReadAt(e, steps, t, key, opcode, k)
  }

  lemma ReadTracedMore(e: Env, steps: seq<Step>, step: Step, t: nat, key: seq<byte>, opcode: u16)
    requires ReadTraced(e, steps, t, key, opcode)
    ensures ReadTraced(e, steps + [step], t, key, opcode)
  {
    hide ReceiveRequest;
    var k: nat :| ReadAt(e, steps, t, key, opcode, k);
    assert (steps + [step])[k] == steps[k];
    assert ReadAt(e, steps + [step], t, key, opcode, k);
  }

  lemma ReadTracedNew(e: Env, steps: seq<Step>, t: nat, bytes: seq<byte>, key: seq<byte>, req: Request, seqno: u32)
    requires ReceiveRequest(e.a, Some(key), bytes).0 == Ok((req, seqno)) && req.opcode in e.handlers
    ensures ReadTraced(e, steps + [StreamReads(t, bytes)], t, key, req.opcode)
  {
    hide ReceiveRequest;
    assert ReadAt(e, steps + [StreamReads(t, bytes)], t, key, req.opcode, |steps|);
  }

  ghost predicate StreamTraced(e: Env, steps: seq<Step>, t: nat, st: Stream) {
    && (exists m: nat :: m < |steps| && steps[m] == StreamStarts(t, st.sid))
    && (st.found.Some? ==> FoundTraced(e, steps, t, st.found.value))
    && (st.phase.Dispatched? ==>
          st.found.Some? && ReadTraced(e, steps, t, st.found.value.session.key, st.phase.opcode))
  }

  lemma StreamStep(e: Env, steps: seq<Step>, s: State, step: Step, t: nat)
    requires Enabled(e, s, step) && s.now == Ticks(steps) && SessionsTraced(e, steps, s)
    requires t in Apply(e, s, step).streams
    requires t in s.streams ==> StreamOk(e, s, s.streams[t]) && StreamTraced(e, steps, t, s.streams[t])
    ensures StreamTraced(e, steps + [step], t, Apply(e, s, step).streams[t])
  {
    hide Build, NextId, Sessions, Issued, Validated, Collected, Retained, ReceiveRequest, FoundTraced, ReadTraced,
         SessionTraced, Ticks;
    var more := steps + [step];
    var st := Apply(e, s, step).streams[t];
    assert forall m :: 0 <= m < |steps| ==> more[m] == steps[m];
    assert more[|steps|] == step;
    if t in s.streams && s.streams[t].found.Some? {
      FoundTracedMore(e, steps, step, t, s.streams[t].found.value);
      if s.streams[t].phase.Dispatched? {
        ReadTracedMore(e, steps, step, t, s.streams[t].found.value.session.key, s.streams[t].phase.opcode);
      }
    }
    if step == StreamChecks(t) && st.found.Some? && st.phase == Checked {
      CheckTraced(e, steps, s, t);
    }
    if step.StreamReads? && step.t == t && st.phase.Dispatched? {
      NothingDecodesUnderEmptyKey(e.a, step.bytes);
      var (req, seqno) := ReceiveRequest(e.a, Some(s.streams[t].phase.key), step.bytes).0.value;
      ReadTracedNew(e, steps, t, step.bytes, s.streams[t].phase.key, req, seqno);
    }
  }

  lemma CheckTraced(e: Env, steps: seq<Step>, s: State, t: nat)
    requires Enabled(e, s, StreamChecks(t)) && s.now == Ticks(steps) && SessionsTraced(e, steps, s)
    requires s.streams[t].found.Some? ==> FoundTraced(e, steps, t, s.streams[t].found.value)
    ensures var st := Apply(e, s, StreamChecks(t)).streams[t];
            st.found.Some? ==> FoundTraced(e, steps + [StreamChecks(t)], t, st.found.value)
  {
    hide Build, Sessions, FoundTraced, SessionTraced, Ticks, Expired, IdleDead;
    if s.streams[t].found.Some? {
      FoundTracedMore(e, steps, StreamChecks(t), t, s.streams[t].found.value);
    }
    var sid := s.streams[t].sid;
    if sid in Sessions(e, s) {
      var f := Found(Sessions(e, s)[sid], s.now);
      if !Expired(e.config, f.session, f.time) && !IdleDead(e.config, f.session, f.time) {
        FoundTracedNew(e, steps, t, f);
      }
    }
  }

  ghost predicate StreamsTraced(e: Env, steps: seq<Step>, s: State) {
    forall t :: t in s.streams ==> StreamTraced(e, steps, t, s.streams[t])
  }

  lemma StreamsStep(e: Env, steps: seq<Step>, s: State, step: Step)
    requires Enabled(e, s, step) && s.now == Ticks(steps) && SessionsTraced(e, steps, s)
    requires Inv(e, s) && StreamsTraced(e, steps, s)
    ensures StreamsTraced(e, steps + [step], Apply(e, s, step))
  {
    hide Apply, Enabled, StreamOk, StreamTraced, SessionsTraced, IdsOk, OthersEmpty, Ticks;
    forall t | t in Apply(e, s, step).streams ensures StreamTraced(e, steps + [step], t, Apply(e, s, step).streams[t]) {
      StreamStep(e, steps, s, step, t);
    }
  }

  lemma {:induction false} RunStreamsTraced(e: Env, steps: seq<Step>)
    requires Legal(e, INITIAL, steps)
    ensures StreamsTraced(e, steps, Run(e, INITIAL, steps))
    decreases |steps|
  {
    if steps == [] {
    } else {
      hide Run, Legal, Apply, Enabled, SessionsTraced, StreamsTraced, Inv;
      var init, last := steps[..|steps| - 1], steps[|steps| - 1];
      assert steps == init + [last];
      RunLast(e, INITIAL, steps);
      RunStreamsTraced(e, init);
      RunSessionsTraced(e, init);
      RunInv(e, init);
      ClockIsTicks(e, INITIAL, init);
      StreamsStep(e, init, Run(e, INITIAL, init), last);
    }
  }

  /** All of a dispatched request's history. */
  ghost predicate Admitted(e: Env, steps: seq<Step>, t: nat, opcode: u16, sid: u64, i: nat, j: nat, k: nat) {
    && i < j < |steps| && k < |steps|
    && (exists m: nat :: m < |steps| && steps[m] == StreamStarts(t, sid))
    && steps[i].Establish? && steps[i].sid == sid
    && steps[j] == StreamChecks(t)
    && Ticks(steps[..j]) <= Ticks(steps[..i]) + e.config.maxLifetime
    && Ticks(steps[..j]) <= Ticks(steps[..i]) + e.config.idleTimeout
    && ReadAt(e, steps, t, steps[i].key, opcode, k)
  }

  /**
   A request stream that reached a handler was opened under a session whose handshake had finished, was
   checked no later than the session's lifetime and idle timeout after that handshake, and carried a
   request for this handler's opcode that opened under the key of that handshake.
   */
  lemma DispatchedWasAdmitted(e: Env, steps: seq<Step>, t: nat)
    requires Legal(e, INITIAL, steps)
    ensures var s := Run(e, INITIAL, steps);
            t in s.streams && s.streams[t].phase.Dispatched? ==>
              exists i: nat, j: nat, k: nat ::
                Admitted(e, steps, t, s.streams[t].phase.opcode, s.streams[t].sid, i, j, k)
  {
    hide Run, Legal, Ticks, ReceiveRequest, IdsOk, OthersEmpty, Build, Apply, Enabled, Sessions;
    RunInv(e, steps);
    RunStreamsTraced(e, steps);
    var s := Run(e, INITIAL, steps);
    if t in s.streams && s.streams[t].phase.Dispatched? {
      var st := s.streams[t];
      assert StreamTraced(e, steps, t, st) && StreamOk(e, s, st);
      var f := st.found.value;
      var i: nat, j: nat :| FoundAt(e, steps, t, f, i, j);
      var k: nat :| ReadAt(e, steps, t, f.session.key, st.phase.opcode, k);
      assert Admitted(e, steps, t, st.phase.opcode, st.sid, i, j, k);
    }
  }

  // ── And back: a good request is dispatched ─────────────────

  /** The steps that act on this stream. */
  predicate About(step: Step, t: nat) {
    match step
    case StreamStarts(t', _) => t' == t
    case StreamChecks(t') => t' == t
    case StreamTakesKey(t') => t' == t
    case StreamReads(t', _) => t' == t
    case _ => false
  }

  lemma StreamWaits(e: Env, s: State, step: Step, t: nat)
    requires Enabled(e, s, step) && !About(step, t) && t in s.streams
    ensures t in Apply(e, s, step).streams && Apply(e, s, step).streams[t] == s.streams[t]
  {
    hide Build, NextId, Sessions, Issued, Validated, Collected, Retained, ReceiveRequest;
  }

  lemma {:induction false} StreamWaitsRun(e: Env, s: State, steps: seq<Step>, t: nat)
    requires Legal(e, s, steps) && t in s.streams && forall i :: 0 <= i < |steps| ==> !About(steps[i], t)
    ensures t in Run(e, s, steps).streams && Run(e, s, steps).streams[t] == s.streams[t]
    decreases |steps|
  {
    hide Apply, Enabled, About;
    if steps == [] {
    } else {
      StreamWaits(e, s, steps[0], t);
      StreamWaitsRun(e, Apply(e, s, steps[0]), steps[1..], t);
    }
  }

  /** A stream that has its key reads a client's request and hands it to the opcode's handler, if there is one. */
  lemma ClientRequestRead(e: Env, s: State, t: nat, nonce: Nonce, seqno: u32, req: Request, rest: seq<byte>)
    requires Lawful(e.a) && t in s.streams && s.streams[t].phase.Keyed? && |s.streams[t].phase.key| == 32
    requires GoodPayload(req.payload) && 2 + |PayloadSuffix(req.payload)| <= 1_048_544
    ensures var sent := Send(e.a, Some(s.streams[t].phase.key), nonce, seqno, RequestPlaintext(req));
            && sent.Ok? && Enabled(e, s, StreamReads(t, sent.value + rest))
            && t in Apply(e, s, StreamReads(t, sent.value + rest)).streams
            && Apply(e, s, StreamReads(t, sent.value + rest)).streams[t].phase ==
               if req.opcode in e.handlers then Dispatched(req.opcode) else Refused
  {
    hide Send, RequestPlaintext, ReceiveRequest, Seen, GoodPayload, PayloadSuffix, Build;
    RequestOutcome(e.a, Some(s.streams[t].phase.key), nonce, seqno, req, rest);
  }

  lemma EstablishedKey(steps: seq<Step>, sess: Session, i: nat)
    requires EstablishedAt(steps, sess, i)
    ensures i < |steps| && steps[i].Establish? && steps[i].key == sess.key
  {
  }

  lemma CheckPassed(e: Env, steps: seq<Step>, s: State, t: nat, i: nat)
    requires Enabled(e, s, StreamChecks(t)) && s.now == Ticks(steps) && s.streams[t].sid in Sessions(e, s)
    requires EstablishedAt(steps, Sessions(e, s)[s.streams[t].sid], i) && Fresh(e, steps, i, Ticks(steps))
    ensures t in s.streams
    ensures var sid := s.streams[t].sid;
            var checked := Apply(e, s, StreamChecks(t));
            && t in checked.streams
            && checked.streams[t] == Stream(sid, Checked, Some(Found(Sessions(e, s)[sid], s.now)))
  {
    hide Ticks, Build, Sessions;
  }

  lemma KeyTaken(e: Env, s: State, t: nat, f: Found)
    requires Inv(e, s) && Enabled(e, s, StreamTakesKey(t)) && s.streams[t].sid in Sessions(e, s)
    requires s.streams[t].found == Some(f)
    ensures var keyed := Apply(e, s, StreamTakesKey(t));
            t in keyed.streams && keyed.streams[t].phase == Keyed(f.session.key)
  {
    hide Build, Sessions, IdsOk, OthersEmpty;
    assert StreamOk(e, s, s.streams[t]);
  }

  /**
   A stream whose session is stored and fresh at its check, and still stored when it takes the key,
   hands a client's request to its handler, whatever happens in between.
   */
  lemma LiveRequestDispatched(e: Env, before: seq<Step>, t: nat, waits: seq<Step>, more: seq<Step>, i: nat,
                              nonce: Nonce, seqno: u32, req: Request, rest: seq<byte>)
    requires Lawful(e.a) && Legal(e, INITIAL, before)
    requires var s := Run(e, INITIAL, before);
             && Enabled(e, s, StreamChecks(t)) && s.streams[t].sid in Sessions(e, s)
             && EstablishedAt(before, Sessions(e, s)[s.streams[t].sid], i) && Fresh(e, before, i, Ticks(before))
             && |before[i].key| == 32
             && Legal(e, Apply(e, s, StreamChecks(t)), waits)
             && var u := Run(e, Apply(e, s, StreamChecks(t)), waits);
                && Enabled(e, u, StreamTakesKey(t)) && s.streams[t].sid in Sessions(e, u)
                && Legal(e, Apply(e, u, StreamTakesKey(t)), more)
    requires forall k :: 0 <= k < |waits| ==> !About(waits[k], t)
    requires forall k :: 0 <= k < |more| ==> !About(more[k], t)
    requires GoodPayload(req.payload) && 2 + |PayloadSuffix(req.payload)| <= 1_048_544
    ensures var u := Run(e, Apply(e, Run(e, INITIAL, before), StreamChecks(t)), waits);
            var v := Run(e, Apply(e, u, StreamTakesKey(t)), more);
            var sent := Send(e.a, Some(before[i].key), nonce, seqno, RequestPlaintext(req));
            && sent.Ok? && Enabled(e, v, StreamReads(t, sent.value + rest))
            && t in Apply(e, v, StreamReads(t, sent.value + rest)).streams
            && Apply(e, v, StreamReads(t, sent.value + rest)).streams[t].phase ==
               if req.opcode in e.handlers then Dispatched(req.opcode) else Refused
  {
    hide Run, Legal, Inv, Apply, Enabled, Ticks, Send, RequestPlaintext, GoodPayload, PayloadSuffix, About, Sessions,
         Fresh, EstablishedAt;
    RunInv(e, before);
    ClockIsTicks(e, INITIAL, before);
    var s := Run(e, INITIAL, before);
    var checked := Apply(e, s, StreamChecks(t));
    CheckPassed(e, before, s, t, i);
    Keeps(e, s, StreamChecks(t));
    RunKeeps(e, checked, waits);
    StreamWaitsRun(e, checked, waits, t);
    var u := Run(e, checked, waits);
    KeyTaken(e, u, t, Found(Sessions(e, s)[s.streams[t].sid], s.now));
    var keyed := Apply(e, u, StreamTakesKey(t));
    StreamWaitsRun(e, keyed, more, t);
    EstablishedKey(before, Sessions(e, s)[s.streams[t].sid], i);
    var v := Run(e, keyed, more);
    ClientRequestRead(e, v, t, nonce, seqno, req, rest);
  }

  // ── Tokens ─────────────────────────────────────────────────

  /** Every validation of this token in the run found the session with the listeners. */
  ghost predicate FoundOpen(e: Env, s: State, steps: seq<Step>, id: TokenId, sid: u64) {
    forall k :: 0 <= k < |steps| && steps[k] == ValidateToken(id) ==> OpenAfter(e, s, steps[..k], sid)
  }

  ghost predicate OpenAfter(e: Env, s: State, steps: seq<Step>, sid: u64) {
    Legal(e, s, steps) && sid in Sessions(e, Run(e, s, steps))
  }

  lemma FoundOpenMore(e: Env, s: State, steps: seq<Step>, step: Step, id: TokenId, sid: u64)
    ensures FoundOpen(e, s, steps + [step], id, sid) <==>
            FoundOpen(e, s, steps, id, sid) && (step == ValidateToken(id) ==> OpenAfter(e, s, steps, sid))
  {
    hide OpenAfter;
    var more := steps + [step];
    assert more[..|steps|] == steps && more[|steps|] == step;
    forall k | 0 <= k < |steps| ensures more[k] == steps[k] && more[..k] == steps[..k] {
    }
  }

  /** What one step does to a token that it does not issue. */
  lemma TokenAfter(e: Env, s: State, step: Step, id: TokenId)
    requires Enabled(e, s, step) && !(step.IssueToken? && step.id == id)
    requires MediaLast(e.build) && Watched(e) == Some(Listening(e))
    ensures var tokens, after := s.tokens, Apply(e, s, step).tokens;
            && (id !in tokens ==> id !in after)
            && (id in tokens ==>
                  var tok := tokens[id];
                  && (id in after ==> after[id].issuedAt == tok.issuedAt && after[id].sessionId == tok.sessionId
                                      && after[id].track == tok.track && after[id].hls == tok.hls)
                  && (step == ValidateToken(id) && tok.sessionId !in Sessions(e, s) ==> id !in after)
                  && (id !in after ==>
                        || s.now > tok.issuedAt + e.tokenTtl
                        || (step == ValidateToken(id) && tok.sessionId !in Sessions(e, s))))
  {
    hide Build, NextId, Sessions, Retained, ReceiveRequest, MediaLast, Validated, Valid, Listening, Watched;
    if step.ValidateToken? {
      assert Alive(e, s) == Knows(Sessions(e, s)) by { WatchedIsListening(e, s); }
      ValidatedMeans(s.tokens, step.id, e.tokenTtl, s.now, Alive(e, s), id);
    }
  }

  lemma WatchedIsListening(e: Env, s: State)
    requires Watched(e) == Some(Listening(e))
    ensures Alive(e, s) == Knows(Sessions(e, s))
  {
    hide Build;
  }

  /** A token as issued, or forgotten because its time was up or its session was found closed. */
  ghost predicate TokenSo(e: Env, s: State, steps: seq<Step>, t: State, id: TokenId, tok: Token) {
    if id in t.tokens then
      && t.tokens[id].issuedAt == tok.issuedAt && t.tokens[id].sessionId == tok.sessionId
      && t.tokens[id].track == tok.track && t.tokens[id].hls == tok.hls
      && FoundOpen(e, s, steps, id, tok.sessionId)
    else t.now > tok.issuedAt + e.tokenTtl || !FoundOpen(e, s, steps, id, tok.sessionId)
  }

  lemma {:induction false} TokenRun(e: Env, s: State, steps: seq<Step>, id: TokenId)
    requires Legal(e, s, steps) && id in s.tokens
    requires MediaLast(e.build) && Watched(e) == Some(Listening(e))
    requires forall i :: 0 <= i < |steps| && steps[i].IssueToken? ==> steps[i].id != id
    ensures TokenSo(e, s, steps, Run(e, s, steps), id, s.tokens[id])
    decreases |steps|
  {
    if steps == [] {
    } else {
      hide Run, Legal, Apply, Enabled, MediaLast, Watched, Listening, Sessions, FoundOpen;
      var init, last := steps[..|steps| - 1], steps[|steps| - 1];
      assert steps == init + [last];
      RunLast(e, s, steps);
      var tok, u := s.tokens[id], Run(e, s, init);
      TokenRun(e, s, init, id);
      TokenAfter(e, u, last, id);
      ClockStep(e, u, last);
      FoundOpenMore(e, s, init, last, id, tok.sessionId);
    }
  }

  /**
   A token issued after any run validates after any later run exactly if `with_media` came last, no more
   than its time to live has passed since, the listeners hold its session, and they held it whenever the
   token was validated. It keeps the track and the URL it was issued with.
   */
  lemma TokenLifetime(e: Env, before: seq<Step>, id: TokenId, sid: u64, track: seq<byte>, hls: seq<byte>,
                      after: seq<Step>)
    requires Legal(e, INITIAL, before) && Watched(e).Some?
    requires Legal(e, Apply(e, Run(e, INITIAL, before), IssueToken(id, sid, track, hls)), after)
    requires forall i :: 0 <= i < |after| && after[i].IssueToken? ==> after[i].id != id
    ensures var s := Apply(e, Run(e, INITIAL, before), IssueToken(id, sid, track, hls));
            var t := Run(e, s, after);
            && (Valid(t.tokens, id, e.tokenTtl, t.now, Alive(e, t)) <==>
                  && MediaLast(e.build) && Ticks(after) <= e.tokenTtl
                  && sid in Sessions(e, t) && FoundOpen(e, s, after, id, sid))
            && (Valid(t.tokens, id, e.tokenTtl, t.now, Alive(e, t)) ==>
                  t.tokens[id].track == track && t.tokens[id].hls == hls)
  {
    hide Run, Legal, Build, MediaLast, Ticks, FoundOpen, Sessions, At;
    var issue := IssueToken(id, sid, track, hls);
    var s := Apply(e, Run(e, INITIAL, before), issue);
    var t := Run(e, s, after);
    ValidatorWatchesSessions(e.build);
    ClockIsTicks(e, s, after);
    if MediaLast(e.build) {
      TokenRun(e, s, after, id);
      WatchedIsListening(e, t);
    } else {
      RunMore(e, INITIAL, before, issue);
      EmptyWatched(e, before, issue, after);
    }
  }

  lemma EmptyWatched(e: Env, before: seq<Step>, step: Step, after: seq<Step>)
    requires Legal(e, INITIAL, before) && Enabled(e, Run(e, INITIAL, before), step)
    requires Legal(e, Apply(e, Run(e, INITIAL, before), step), after)
    requires Watched(e).Some? && !MediaLast(e.build)
    ensures At(Run(e, Apply(e, Run(e, INITIAL, before), step), after), Watched(e).value) == map[]
  {
    hide Run, Legal, Build, MediaLast, Apply, Enabled, IdsOk, StreamOk;
    RunInv(e, before);
    Keeps(e, Run(e, INITIAL, before), step);
    RunKeeps(e, Apply(e, Run(e, INITIAL, before), step), after);
    ValidatorWatchesSessions(e.build);
  }
}
