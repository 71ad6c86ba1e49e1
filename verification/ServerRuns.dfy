/**
 One server over time (src/server.rs): both accept loops, session inserts and deletes, the session
 garbage collector, QUIC request streams that outlive their connection, and media tokens bound to
 sessions. Every step may come between any two others.
 */
module ServerRuns {
  import opened Wrappers
  import opened Bytes
  import opened Crypto
  import opened Requests
  import opened Stores

  // ── Building the server ────────────────────────────────────

  datatype BuildStep = WithMedia | WithSessionConfig | Other

  /** Stores are numbered as they are created; the media validator captures one of them. */
  datatype Built = Built(sessions: nat, validator: Option<nat>, created: nat)

  /** Builder calls, the last one last; `Server::new` creates the first store. */
  function Build(steps: seq<BuildStep>): (b: Built)
    ensures b.sessions < b.created
    ensures b.validator.Some? ==> b.validator.value < b.created
  {
    if steps == [] then Built(0, None, 1)
    else
      var b := Build(steps[..|steps| - 1]);
      match steps[|steps| - 1]
      case WithMedia => b.(validator := Some(b.sessions))
      case WithSessionConfig => b.(sessions := b.created, created := b.created + 1)
      case Other => b
  }

  /** `with_media` is called after every `with_session_config`. */
  predicate MediaLast(steps: seq<BuildStep>) {
    exists i :: 0 <= i < |steps| && steps[i] == WithMedia
                && forall j :: i < j < |steps| ==> steps[j] != WithSessionConfig
  }

  /** The AEAD, the settings in force once built, the opcodes handled and the builder calls made. */
  datatype Env = Env(a: Aead, config: SessionConfig, tokenTtl: nat, handlers: set<u16>, build: seq<BuildStep>)

  /** The number of the store that the listeners fill. */
  function Listening(e: Env): nat { Build(e.build).sessions }

  /** The number of the store that the media validator looks at, if media is enabled. */
  function Watched(e: Env): Option<nat> { Build(e.build).validator }

  // ── State ──────────────────────────────────────────────────

  datatype Conn = Handshaking | Open | Gone

  /** The session a request stream found at its expiry check, and when. */
  datatype Found = Found(session: Session, time: Instant)

  /** `handle_request_stream` between its separate accesses to the store. */
  datatype Phase = Started | Checked | Keyed(key: seq<byte>) | Dispatched(opcode: u16) | Refused

  datatype Stream = Stream(sid: u64, phase: Phase, found: Option<Found>)

  /** `stores` holds every session store created; `removed` records the ids that left the listeners' one. */
  datatype State = State(
    now: Instant,
    accepts: nat,
    conns: map<u64, Conn>,
    stores: map<nat, map<u64, Session>>,
    removed: set<u64>,
    streams: map<nat, Stream>,
    tokens: Tokens)

  const INITIAL := State(0, 0, map[], map[], {}, map[], map[])

  function At(s: State, n: nat): map<u64, Session> { if n in s.stores then s.stores[n] else map[] }

  /** The sessions of the listeners. */
  function Sessions(e: Env, s: State): map<u64, Session> { At(s, Listening(e)) }

  function WithSessions(e: Env, s: State, sessions: map<u64, Session>): State {
    s.(stores := s.stores[Listening(e) := sessions])
  }

  /** `next_id.fetch_add(1)` on a counter that starts at 1 and wraps. */
  function NextId(accepts: nat): u64 { (1 + accepts) % TWO64 }

  // ── Steps ──────────────────────────────────────────────────

  datatype Step =
    | Tick(elapsed: nat)
    | Accept
    | HandshakeFails(sid: u64)
    | Establish(sid: u64, apiKeyId: seq<byte>, key: seq<byte>)
    | Close(sid: u64)
    | CollectSessions
    | StreamStarts(t: nat, sid: u64)
    | StreamChecks(t: nat)
    | StreamTakesKey(t: nat)
    | StreamReads(t: nat, bytes: seq<byte>)
    | IssueToken(id: TokenId, sid: u64, track: seq<byte>, hls: seq<byte>)
    | ValidateToken(id: TokenId)
    | CollectTokens

  /** Runs have at most 2^64 accepts: `NewIdExactly` says why. Tokens need media to be enabled. */
  predicate Enabled(e: Env, s: State, step: Step) {
    match step
    case Accept => s.accepts < TWO64
    case HandshakeFails(sid) => sid in s.conns && s.conns[sid].Handshaking?
    case Establish(sid, _, _) => sid in s.conns && s.conns[sid].Handshaking?
    case Close(sid) => sid in s.conns && s.conns[sid].Open?
    case StreamStarts(t, sid) => t !in s.streams && sid in s.conns && s.conns[sid].Open?
    case StreamChecks(t) => t in s.streams && s.streams[t].phase.Started?
    case StreamTakesKey(t) => t in s.streams && s.streams[t].phase.Checked?
    case StreamReads(t, _) => t in s.streams && s.streams[t].phase.Keyed?
    case IssueToken(_, _, _, _) => Watched(e).Some?
    case ValidateToken(_) => Watched(e).Some?
    case CollectTokens => Watched(e).Some?
    case _ => true
  }

  /** What the media validator answers. */
  function Alive(e: Env, s: State): u64 -> bool
    requires Watched(e).Some?
  {
    Knows(At(s, Watched(e).value))
  }

  function Apply(e: Env, s: State, step: Step): State
    requires Enabled(e, s, step)
  {
    match step
    case Tick(elapsed) => s.(now := s.now + elapsed)
    case Accept => s.(accepts := s.accepts + 1, conns := s.conns[NextId(s.accepts) := Handshaking])
    case HandshakeFails(sid) => s.(conns := s.conns[sid := Gone])
    case Establish(sid, aid, key) =>
      WithSessions(e, s, Sessions(e, s)[sid := Session(sid, aid, key, s.now, s.now)]).(conns := s.conns[sid := Open])
    case Close(sid) =>
      WithSessions(e, s, Sessions(e, s) - {sid}).(
        conns := s.conns[sid := Gone],
        removed := s.removed + (Sessions(e, s).Keys * {sid}))
    case CollectSessions =>
      var kept := Retained(e.config, Sessions(e, s), s.now);
      WithSessions(e, s, kept).(removed := s.removed + (Sessions(e, s).Keys - kept.Keys))
    case StreamStarts(t, sid) => s.(streams := s.streams[t := Stream(sid, Started, None)])
    case StreamChecks(t) =>
      var st := s.streams[t];
      var after :=
        if st.sid !in Sessions(e, s) then st.(phase := Checked)
        else
          var sess := Sessions(e, s)[st.sid];
          if Expired(e.config, sess, s.now) || IdleDead(e.config, sess, s.now) then st.(phase := Refused)
          else st.(phase := Checked, found := Some(Found(sess, s.now)));
      s.(streams := s.streams[t := after])
    case StreamTakesKey(t) =>
      var st := s.streams[t];
      var key := if st.sid in Sessions(e, s) then Sessions(e, s)[st.sid].key else [];
      s.(streams := s.streams[t := st.(phase := Keyed(key))])
    case StreamReads(t, bytes) =>
      var st := s.streams[t];
      var after :=
        match ReceiveRequest(e.a, Some(st.phase.key), bytes).0
        case Ok((req, _)) => if req.opcode in e.handlers then Dispatched(req.opcode) else Refused
        case Err(_) => Refused;
      s.(streams := s.streams[t := st.(phase := after)])
    case IssueToken(id, sid, track, hls) => s.(tokens := Issued(s.tokens, id, sid, track, hls, s.now))
    case ValidateToken(id) => s.(tokens := Validated(s.tokens, id, e.tokenTtl, s.now, Alive(e, s)))
    case CollectTokens => s.(tokens := Collected(s.tokens, e.tokenTtl, s.now))
  }

  predicate Legal(e: Env, s: State, steps: seq<Step>)
    decreases |steps|
  {
    steps == [] || (Enabled(e, s, steps[0]) && Legal(e, Apply(e, s, steps[0]), steps[1..]))
  }

  function Run(e: Env, s: State, steps: seq<Step>): State
    requires Legal(e, s, steps)
    decreases |steps|
  {
    if steps == [] then s else Run(e, Apply(e, s, steps[0]), steps[1..])
  }

  // ── Invariant ──────────────────────────────────────────────

  /** Ids come from the counter; a session is stored only while its connection is open, and never again after. */
  ghost predicate IdsOk(e: Env, s: State) {
    && s.accepts <= TWO64
    && (forall sid :: sid in s.conns <==> exists n :: 0 <= n < s.accepts && sid == NextId(n))
    && (forall sid :: sid in Sessions(e, s) ==> sid in s.conns && s.conns[sid].Open? && Sessions(e, s)[sid].id == sid)
    && (forall sid :: sid in s.conns && s.conns[sid].Open? ==> (sid in Sessions(e, s) <==> sid !in s.removed))
    && (forall sid :: sid in s.removed ==> sid in s.conns && !s.conns[sid].Handshaking?)
  }

  /** What the expiry check found is what the key came from. */
  predicate StreamOk(e: Env, s: State, st: Stream) {
    && st.sid in s.conns && !s.conns[st.sid].Handshaking?
    && (st.found.Some? ==>
          var f := st.found.value;
          && f.session.id == st.sid
          && !Expired(e.config, f.session, f.time) && !IdleDead(e.config, f.session, f.time)
          && (st.sid in Sessions(e, s) ==> Sessions(e, s)[st.sid] == f.session))
    && match st.phase
       case Started => true
       case Refused => true
       case Checked => st.found == None ==> st.sid !in Sessions(e, s)
       case Keyed(key) => key == [] || (st.found.Some? && key == st.found.value.session.key)
       case Dispatched(_) => st.found.Some?
  }

  /** Only the listeners' store is ever filled. */
  predicate OthersEmpty(e: Env, s: State) {
    forall n :: n in s.stores && n != Listening(e) ==> s.stores[n] == map[]
  }

  ghost predicate Inv(e: Env, s: State) {
    && IdsOk(e, s) && OthersEmpty(e, s)
    && forall t :: t in s.streams ==> StreamOk(e, s, s.streams[t])
  }

  /** The counter gives 2^64 different ids before one repeats. */
  lemma IdsDistinct(m: nat, n: nat)
    requires m < n < TWO64
    ensures NextId(m) != NextId(n)
  {
  }

  /** No request decodes under the key a missing session leaves behind. */
  lemma NothingDecodesUnderEmptyKey(a: Aead, bytes: seq<byte>)
    ensures ReceiveRequest(a, Some([]), bytes).0.Err?
  {
  }

  // ── Every step keeps the invariant ─────────────────────────

  lemma AcceptKeepsIds(e: Env, s: State)
    requires IdsOk(e, s) && Enabled(e, s, Accept)
    ensures IdsOk(e, Apply(e, s, Accept))
    ensures NextId(s.accepts) !in s.conns
  {
    hide Build, Sessions;
    SessionsAfter(e, s, Accept);
    var t, newId := Apply(e, s, Accept), NextId(s.accepts);
    forall n | 0 <= n < s.accepts ensures NextId(n) != newId {
      IdsDistinct(n, s.accepts);
    }
    forall sid ensures sid in t.conns <==> exists n :: 0 <= n < t.accepts && sid == NextId(n) {
      if sid in s.conns {
        var n :| 0 <= n < s.accepts && sid == NextId(n);
        assert n < t.accepts;
      } else if sid == newId {
        assert s.accepts < t.accepts;
      }
    }
  }

  /** What the three steps that write the listeners' store leave in it. */
  lemma SessionsAfter(e: Env, s: State, step: Step)
    requires Enabled(e, s, step)
    ensures Sessions(e, Apply(e, s, step)) ==
            match step
            case Establish(sid, aid, key) => Sessions(e, s)[sid := Session(sid, aid, key, s.now, s.now)]
            case Close(sid) => Sessions(e, s) - {sid}
            case CollectSessions => Retained(e.config, Sessions(e, s), s.now)
            case _ => Sessions(e, s)
  {
    hide Build, NextId, Retained, Issued, Validated, Collected, ReceiveRequest;
  }

  lemma KeepsIds(e: Env, s: State, step: Step)
    requires IdsOk(e, s) && Enabled(e, s, step)
    ensures IdsOk(e, Apply(e, s, step))
  {
    hide Build, NextId, Sessions, Issued, Validated, Collected, ReceiveRequest;
    SessionsAfter(e, s, step);
    var t := Apply(e, s, step);
    if step.Accept? {
      AcceptKeepsIds(e, s);
    } else if step.HandshakeFails? || step.Establish? || step.Close? {
      hide Apply;
      ConnKeepsIds(e, s, step);
    } else {
      assert t.accepts == s.accepts && t.conns == s.conns;
    }
  }

  /** The steps that move one connection on. */
  lemma ConnKeepsIds(e: Env, s: State, step: Step)
    requires IdsOk(e, s) && Enabled(e, s, step)
    requires step.HandshakeFails? || step.Establish? || step.Close?
    ensures IdsOk(e, Apply(e, s, step))
  {
    hide Build, NextId, Sessions, Issued, Validated, Collected, ReceiveRequest;
    SessionsAfter(e, s, step);
    var t := Apply(e, s, step);
    assert t.accepts == s.accepts && t.conns.Keys == s.conns.Keys;
    assert forall sid :: sid in t.conns <==> sid in s.conns;
  }

  lemma KeepsStreams(e: Env, s: State, step: Step)
    requires Inv(e, s) && Enabled(e, s, step)
    ensures forall t :: t in Apply(e, s, step).streams ==> StreamOk(e, Apply(e, s, step), Apply(e, s, step).streams[t])
  {
    hide Apply, Enabled, StreamOk, IdsOk, OthersEmpty;
    forall t | t in Apply(e, s, step).streams ensures StreamOk(e, Apply(e, s, step), Apply(e, s, step).streams[t]) {
      KeepsStream(e, s, step, t);
    }
  }

  lemma KeepsStream(e: Env, s: State, step: Step, t: nat)
    requires IdsOk(e, s) && Enabled(e, s, step) && t in Apply(e, s, step).streams
    requires t in s.streams ==> StreamOk(e, s, s.streams[t])
    ensures StreamOk(e, Apply(e, s, step), Apply(e, s, step).streams[t])
  {
    hide Build, NextId, Sessions, Issued, Validated, Collected, ReceiveRequest;
    SessionsAfter(e, s, step);
    if step.Accept? { AcceptKeepsIds(e, s); }
    if step.StreamReads? { NothingDecodesUnderEmptyKey(e.a, step.bytes); }
  }

  lemma KeepsOthers(e: Env, s: State, step: Step)
    requires OthersEmpty(e, s) && Enabled(e, s, step)
    ensures OthersEmpty(e, Apply(e, s, step))
  {
    hide Build, NextId, Sessions, Issued, Validated, Collected, ReceiveRequest;
  }

  lemma Keeps(e: Env, s: State, step: Step)
    requires Inv(e, s) && Enabled(e, s, step)
    ensures Inv(e, Apply(e, s, step))
  {
    hide Apply, Enabled, IdsOk, OthersEmpty, StreamOk;
    KeepsIds(e, s, step);
    KeepsStreams(e, s, step);
    KeepsOthers(e, s, step);
  }

  lemma {:induction false} RunKeeps(e: Env, s: State, steps: seq<Step>)
    requires Inv(e, s) && Legal(e, s, steps)
    ensures Inv(e, Run(e, s, steps))
    decreases |steps|
  {
    hide Apply, Enabled, Inv;
    if steps == [] {
    } else {
      Keeps(e, s, steps[0]);
      RunKeeps(e, Apply(e, s, steps[0]), steps[1..]);
    }
  }

  lemma {:induction false} RunMore(e: Env, s: State, steps: seq<Step>, step: Step)
    requires Legal(e, s, steps) && Enabled(e, Run(e, s, steps), step)
    ensures Legal(e, s, steps + [step]) && Run(e, s, steps + [step]) == Apply(e, Run(e, s, steps), step)
    decreases |steps|
  {
    hide Apply, Enabled;
    if steps == [] {
      var last := Apply(e, s, step);
      assert Legal(e, last, []) && Run(e, last, []) == last;
      assert [step][1..] == [];
    } else {
      RunMore(e, Apply(e, s, steps[0]), steps[1..], step);
      assert (steps + [step])[1..] == steps[1..] + [step];
    }
  }

  /** A run up to its last step. */
  lemma {:induction false} RunLast(e: Env, s: State, steps: seq<Step>)
    requires Legal(e, s, steps) && steps != []
    ensures var init, last := steps[..|steps| - 1], steps[|steps| - 1];
            && Legal(e, s, init) && Enabled(e, Run(e, s, init), last)
            && Run(e, s, steps) == Apply(e, Run(e, s, init), last)
    decreases |steps|
  {
    hide Apply, Enabled;
    var next := Apply(e, s, steps[0]);
    if |steps| == 1 {
      assert steps[1..] == [] && steps[..0] == [];
      assert Run(e, next, []) == next;
    } else {
      RunLast(e, next, steps[1..]);
      assert steps[..|steps| - 1][1..] == steps[1..][..|steps| - 2];
    }
  }

  lemma RunInv(e: Env, steps: seq<Step>)
    requires Legal(e, INITIAL, steps)
    ensures Inv(e, Run(e, INITIAL, steps))
  {
    RunKeeps(e, INITIAL, steps);
  }

  // ── Dispatch ───────────────────────────────────────────────

  /**
   A handler runs only for a request stream that found its session stored, not expired and not idle
   when it checked, whatever was collected or closed in between.
   */
  lemma DispatchedFoundLiveSession(e: Env, steps: seq<Step>, t: nat)
    requires Legal(e, INITIAL, steps)
    ensures var s := Run(e, INITIAL, steps);
            t in s.streams && s.streams[t].phase.Dispatched? ==>
              && s.streams[t].found.Some?
              && var f := s.streams[t].found.value;
                 && f.session.id == s.streams[t].sid
                 && f.time <= f.session.createdAt + e.config.maxLifetime
                 && f.time <= f.session.lastUsed + e.config.idleTimeout
  {
    hide Run, Legal;
    RunInv(e, steps);
    var s := Run(e, INITIAL, steps);
    if t in s.streams {
      assert StreamOk(e, s, s.streams[t]);
    }
  }

  /** Streams of `sid` that are not among `old` have nothing to work with. */
  predicate LateStreamsIdle(s: State, sid: u64, earlier: map<nat, Stream>) {
    && sid in s.removed
    && forall t :: t in s.streams && t !in earlier && s.streams[t].sid == sid ==>
         var p := s.streams[t].phase; p == Started || p == Checked || p == Refused || p == Keyed([])
  }

  lemma LateStep(e: Env, s: State, step: Step, sid: u64, earlier: map<nat, Stream>)
    requires Inv(e, s) && Enabled(e, s, step) && LateStreamsIdle(s, sid, earlier)
    requires forall t :: t in earlier ==> t in s.streams
    ensures LateStreamsIdle(Apply(e, s, step), sid, earlier)
    ensures forall t :: t in earlier ==> t in Apply(e, s, step).streams
  {
    hide Build, NextId, Sessions, Issued, Validated, Collected, ReceiveRequest, StreamOk, OthersEmpty;
    SessionsAfter(e, s, step);
    assert sid !in Sessions(e, s);
    if step.StreamReads? { NothingDecodesUnderEmptyKey(e.a, step.bytes); }
  }

  lemma {:induction false} LateRun(e: Env, s: State, steps: seq<Step>, sid: u64, earlier: map<nat, Stream>)
    requires Inv(e, s) && Legal(e, s, steps) && LateStreamsIdle(s, sid, earlier)
    requires forall t :: t in earlier ==> t in s.streams
    ensures LateStreamsIdle(Run(e, s, steps), sid, earlier)
    decreases |steps|
  {
    hide Apply, Enabled, Inv, LateStreamsIdle;
    if steps == [] {
    } else {
      Keeps(e, s, steps[0]);
      LateStep(e, s, steps[0], sid, earlier);
      LateRun(e, Apply(e, s, steps[0]), steps[1..], sid, earlier);
    }
  }

  /** Once a session has left the store, no request stream that starts later reaches a handler. */
  lemma NoDispatchAfterRemoval(e: Env, before: seq<Step>, after: seq<Step>, sid: u64, t: nat)
    requires Legal(e, INITIAL, before)
    requires var s := Run(e, INITIAL, before); sid in s.removed && t !in s.streams && Legal(e, s, after)
    ensures var s := Run(e, Run(e, INITIAL, before), after);
            t in s.streams && s.streams[t].sid == sid ==> !s.streams[t].phase.Dispatched?
  {
    hide Run, Legal;
    RunInv(e, before);
    var s := Run(e, INITIAL, before);
    LateRun(e, s, after, sid, s.streams);
  }

  // ── Identity of sessions ───────────────────────────────────

  /**
   After any run the next id either listener hands out is new exactly if fewer than 2^64 came before:
   a run may use every id once, and the accept after that repeats one.
   */
  lemma NewIdExactly(e: Env, steps: seq<Step>)
    requires Legal(e, INITIAL, steps)
    ensures var s := Run(e, INITIAL, steps);
            NextId(s.accepts) !in s.conns <==> s.accepts < TWO64
  {
    hide Run, Legal;
    RunInv(e, steps);
    var s := Run(e, INITIAL, steps);
    if s.accepts < TWO64 {
      AcceptKeepsIds(e, s);
    } else {
      assert NextId(0) == NextId(s.accepts);
    }
  }

  predicate StaysOut(e: Env, s: State, sid: u64) {
    sid in s.conns && !s.conns[sid].Handshaking? && sid !in Sessions(e, s)
  }

  lemma OutStep(e: Env, s: State, step: Step, sid: u64)
    requires Inv(e, s) && Enabled(e, s, step) && StaysOut(e, s, sid)
    ensures StaysOut(e, Apply(e, s, step), sid)
  {
    hide Build, NextId, Sessions, Issued, Validated, Collected, ReceiveRequest, StreamOk, OthersEmpty;
    SessionsAfter(e, s, step);
    if step.Accept? { AcceptKeepsIds(e, s); }
  }

  lemma {:induction false} OutRun(e: Env, s: State, steps: seq<Step>, sid: u64)
    requires Inv(e, s) && Legal(e, s, steps) && StaysOut(e, s, sid)
    ensures StaysOut(e, Run(e, s, steps), sid)
    decreases |steps|
  {
    hide Apply, Enabled, Inv, StaysOut;
    if steps == [] {
    } else {
      Keeps(e, s, steps[0]);
      OutStep(e, s, steps[0], sid);
      OutRun(e, Apply(e, s, steps[0]), steps[1..], sid);
    }
  }

  // ── Tokens and the order of the builder calls ──────────────

  /** The validator was given the listeners' store exactly if no later call replaced that store. */
  lemma {:induction false} ValidatorWatchesSessions(steps: seq<BuildStep>)
    ensures Build(steps).validator == Some(Build(steps).sessions) <==> MediaLast(steps)
  {
    if steps == [] {
    } else {
      var n := |steps| - 1;
      var init := steps[..n];
      ValidatorWatchesSessions(init);
      match steps[n]
      case WithMedia =>
        assert steps[n] == WithMedia;
      case WithSessionConfig =>
      case Other =>
        MediaLastOther(init);
        assert steps == init + [Other];
    }
  }

  lemma MediaLastOther(steps: seq<BuildStep>)
    ensures MediaLast(steps + [Other]) <==> MediaLast(steps)
  {
    var more := steps + [Other];
    if MediaLast(steps) {
      var i :| 0 <= i < |steps| && steps[i] == WithMedia
               && forall j :: i < j < |steps| ==> steps[j] != WithSessionConfig;
      assert more[i] == WithMedia;
    }
    if MediaLast(more) {
      var i :| 0 <= i < |more| && more[i] == WithMedia
               && forall j :: i < j < |more| ==> more[j] != WithSessionConfig;
      assert steps[i] == WithMedia;
      forall j | i < j < |steps| ensures steps[j] != WithSessionConfig {
        assert more[j] == steps[j];
      }
    }
  }

  /**
   What validation comes to after any run. With `with_media` last it is decided by the token's age
   and the listeners' sessions; otherwise the validator watches a store that stays empty, and every
   token is refused.
   */
  lemma ValidInRun(e: Env, steps: seq<Step>, id: TokenId)
    requires Legal(e, INITIAL, steps) && Watched(e).Some?
    ensures var s := Run(e, INITIAL, steps);
            && (Valid(s.tokens, id, e.tokenTtl, s.now, Alive(e, s)) <==>
                  && MediaLast(e.build)
                  && id in s.tokens && Elapsed(s.now, s.tokens[id].issuedAt) <= e.tokenTtl
                  && s.tokens[id].sessionId in Sessions(e, s))
            && (!MediaLast(e.build) ==> At(s, Watched(e).value) == map[])
  {
    hide Run, Legal, MediaLast, Build;
    RunInv(e, steps);
    ValidatorWatchesSessions(e.build);
  }

  ghost predicate ValidAfter(e: Env, steps: seq<Step>, id: TokenId)
    requires Watched(e).Some?
  {
    Legal(e, INITIAL, steps) &&
    var s := Run(e, INITIAL, steps);
    Valid(s.tokens, id, e.tokenTtl, s.now, Alive(e, s))
  }

  /** Some run validates a token exactly when `with_media` is not followed by `with_session_config`. */
  lemma TokensUsableExactly(e: Env)
    requires Watched(e).Some?
    ensures (exists steps, id :: ValidAfter(e, steps, id)) <==> MediaLast(e.build)
  {
    hide Run, Legal, MediaLast, Build;
    forall steps, id | ValidAfter(e, steps, id) ensures MediaLast(e.build) {
      ValidInRun(e, steps, id);
    }
    if MediaLast(e.build) {
      var id: TokenId := seq(16, _ => 0);
      ShortRun(e, id);
      var steps := [Accept, Establish(1, [], []), IssueToken(id, 1, [], [])];
      ValidInRun(e, steps, id);
      assert ValidAfter(e, steps, id);
    }
  }

  /** A connection is accepted and a token issued for its session. */
  lemma ShortRun(e: Env, id: TokenId)
    requires Watched(e).Some?
    ensures var steps := [Accept, Establish(1, [], []), IssueToken(id, 1, [], [])];
            && Legal(e, INITIAL, steps)
            && var s := Run(e, INITIAL, steps);
               && id in s.tokens && s.tokens[id].sessionId == 1 && s.tokens[id].issuedAt == s.now
               && 1 in Sessions(e, s)
  {
    hide Build;
    var first, second, third := Accept, Establish(1, [], []), IssueToken(id, 1, [], []);
    var steps := [first, second, third];
    assert steps[1..] == [second, third] && [second, third][1..] == [third] && [third][1..] == [];
    var s1 := Apply(e, INITIAL, first);
    assert NextId(0) == 1;
    var s2 := Apply(e, s1, second);
    var s3 := Apply(e, s2, third);
    assert Legal(e, s3, []) && Run(e, s3, []) == s3;
    assert Legal(e, s2, [third]) && Run(e, s2, [third]) == s3;
    assert Legal(e, s1, [second, third]) && Run(e, s1, [second, third]) == s3;
  }

  /**
   After a connection closes, its session is never stored again and every media token bound to it is
   refused forever, tokens issued later included, whichever store the validator watches.
   */
  lemma TokensDieWithConnection(e: Env, before: seq<Step>, sid: u64, after: seq<Step>, id: TokenId)
    requires Legal(e, INITIAL, before)
    requires var s := Run(e, INITIAL, before);
             Enabled(e, s, Close(sid)) && Legal(e, Apply(e, s, Close(sid)), after)
    ensures var s := Run(e, Apply(e, Run(e, INITIAL, before), Close(sid)), after);
            && sid !in Sessions(e, s)
            && (Watched(e).Some? && id in s.tokens && s.tokens[id].sessionId == sid ==>
                  !Valid(s.tokens, id, e.tokenTtl, s.now, Alive(e, s)))
  {
    hide Run, Legal, Build;
    RunInv(e, before);
    var s := Run(e, INITIAL, before);
    var closed := Apply(e, s, Close(sid));
    Keeps(e, s, Close(sid));
    OutRun(e, closed, after, sid);
    RunKeeps(e, closed, after);
  }
}
