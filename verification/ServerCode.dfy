/**
 The server object of src/server.rs over its stores. Each method is one step of the machine in
 ServerRuns, taken on the shared `SessionStore` and `TokenStore` objects, so the laws of runs hold of
 every server these methods produce. `watched` is the store captured by the validator closure.
 */
module ServerCode {
  import opened Wrappers
  import opened Bytes
  import opened Crypto
  import opened Stores
  import opened ServerRuns

  class Server {
    const tokenTtl: nat
    var config: SessionConfig
    var sessions: SessionStore
    var watched: SessionStore?
    var media: TokenStore?
    var nextId: u64

    ghost const aead: Aead
    ghost const handlers: set<u16>
    ghost var build: seq<BuildStep>
    ghost var history: seq<Step>
    ghost var state: State

    ghost function Setting(): Env
      reads this
    {
      Env(aead, config, tokenTtl, handlers, build)
    }

    /** The history is a run of the machine that ends in this state. */
    ghost predicate Recorded()
      reads this
    {
      Legal(Setting(), INITIAL, history) && state == Run(Setting(), INITIAL, history)
    }

    /** The objects hold what the state says; the validator shares the listeners' store exactly if it has its number. */
    ghost predicate Represents()
      reads this, sessions, watched, media
    {
      && sessions.config == config && sessions.sessions == Sessions(Setting(), state)
      && nextId == NextId(state.accepts)
      && (media == null <==> Watched(Setting()) == None) && (watched == null <==> Watched(Setting()) == None)
      && (media != null && watched != null ==>
            && media.maxTokenTtl == tokenTtl && media.tokens == state.tokens
            && watched.sessions == At(state, Watched(Setting()).value)
            && (watched == sessions <==> Watched(Setting()).value == Listening(Setting())))
    }

    ghost predicate Valid()
      reads this, sessions, watched, media
    {
      Recorded() && Represents()
    }

    // ── Building ─────────────────────────────────────────────

    constructor (config: SessionConfig, tokenTtl: nat, ghost aead: Aead, ghost handlers: set<u16>)
      ensures Valid() && fresh(sessions)
      ensures history == [] && Setting() == Env(aead, config, tokenTtl, handlers, [])
    {
      this.config, this.tokenTtl, this.aead, this.handlers := config, tokenTtl, aead, handlers;
      sessions := new SessionStore(config);
      watched, media, nextId := null, null, 1;
      build, history, state := [], [], INITIAL;
    }

    method WithMedia()
      requires Valid() && history == []
      modifies this`watched, this`media, this`build
      ensures Valid() && history == [] && Setting() == old(Setting()).(build := old(build) + [BuildStep.WithMedia])
    {
      watched := sessions;
      media := new TokenStore(tokenTtl);
      BuildMore(build, BuildStep.WithMedia);
      build := build + [BuildStep.WithMedia];
    }

    /**
     A new store replaces the listeners'; a validator installed before keeps the one it has. `cfg` is
     the configuration once `fill` has put defaults for zeros.
     */
    method WithSessionConfig(cfg: SessionConfig)
      requires Valid() && history == []
      modifies this`config, this`sessions, this`build
      ensures Valid() && history == [] && fresh(sessions)
      ensures Setting() == old(Setting()).(config := cfg, build := old(build) + [BuildStep.WithSessionConfig])
    {
      config := cfg;
      sessions := new SessionStore(cfg);
      BuildMore(build, BuildStep.WithSessionConfig);
      build := build + [BuildStep.WithSessionConfig];
    }

    // ── Steps ────────────────────────────────────────────────

    ghost method Record(step: Step)
      requires Recorded() && Enabled(Setting(), state, step)
      modifies this`history, this`state
      ensures Recorded() && history == old(history) + [step] && state == Apply(Setting(), old(state), step)
    {
      RunMore(Setting(), INITIAL, history, step);
      state := Apply(Setting(), state, step);
      history := history + [step];
    }

    /** `next_id.fetch_add(1)`. The id was never handed out before. */
    method NextSession() returns (sid: u64)
      requires Valid() && Enabled(Setting(), state, Accept)
      modifies this`nextId, this`history, this`state
      ensures Valid() && state == Apply(Setting(), old(state), Accept)
      ensures sid == (old(state).accepts + 1) % 0x1_0000_0000_0000_0000 && sid !in old(state).conns
    {
      NewIdExactly(Setting(), history);
      sid := nextId;
      nextId := (nextId + 1) % TWO64;
      Record(Accept);
    }

    /** After the handshake. */
    method Establish(sid: u64, apiKeyId: seq<byte>, key: seq<byte>, now: Instant)
      requires Valid() && now == state.now && Enabled(Setting(), state, Step.Establish(sid, apiKeyId, key))
      modifies this`history, this`state, sessions
      ensures Valid() && state == Apply(Setting(), old(state), Step.Establish(sid, apiKeyId, key))
    {
      SessionsAfter(Setting(), state, Step.Establish(sid, apiKeyId, key));
      sessions.Insert(Session(sid, apiKeyId, key, now, now));
      Record(Step.Establish(sid, apiKeyId, key));
    }

    /** When the connection is gone. */
    method Close(sid: u64)
      requires Valid() && Enabled(Setting(), state, Step.Close(sid))
      modifies this`history, this`state, sessions
      ensures Valid() && state == Apply(Setting(), old(state), Step.Close(sid))
    {
      SessionsAfter(Setting(), state, Step.Close(sid));
      sessions.Delete(sid);
      Record(Step.Close(sid));
    }

    /** One tick of `gc_loop`. */
    method CollectSessions(now: Instant)
      requires Valid() && now == state.now
      modifies this`history, this`state, sessions
      ensures Valid() && state == Apply(Setting(), old(state), Step.CollectSessions)
    {
      SessionsAfter(Setting(), state, Step.CollectSessions);
      sessions.Gc(now);
      Record(Step.CollectSessions);
    }

    /** The expiry check of `handle_request_stream`: a missing session passes it. */
    method CheckStream(ghost t: nat, sid: u64, now: Instant) returns (refused: bool)
      requires Valid() && now == state.now
      requires Enabled(Setting(), state, StreamChecks(t)) && sid == state.streams[t].sid
      modifies this`history, this`state
      ensures Valid() && state == Apply(Setting(), old(state), StreamChecks(t))
      ensures refused <==> state.streams[t].phase.Refused?
      ensures refused <==> sid in sessions.sessions &&
                           (now > sessions.sessions[sid].createdAt + config.maxLifetime
                            || now > sessions.sessions[sid].lastUsed + config.idleTimeout)
    {
      var sess := sessions.Get(sid);
      refused := sess.Some? && (Expired(config, sess.value, now) || IdleDead(config, sess.value, now));
      Record(StreamChecks(t));
    }

    /** The second look at the store, for the key. */
    method TakeKey(ghost t: nat, sid: u64) returns (key: seq<byte>)
      requires Valid() && Enabled(Setting(), state, StreamTakesKey(t)) && sid == state.streams[t].sid
      modifies this`history, this`state
      ensures Valid() && state == Apply(Setting(), old(state), StreamTakesKey(t))
      ensures state.streams[t].phase == Keyed(key)
    {
      var sess := sessions.Get(sid);
      key := if sess.Some? then sess.value.key else [];
      Record(StreamTakesKey(t));
    }

    /** Nothing without media. */
    method IssueToken(id: TokenId, sid: u64, track: seq<byte>, hls: seq<byte>, now: Instant)
      returns (token: Option<Token>)
      requires Valid() && now == state.now
      modifies this`history, this`state, media
      ensures Valid() && (token.Some? <==> media != null)
      ensures if token == None then state == old(state)
              else && state == Apply(Setting(), old(state), Step.IssueToken(id, sid, track, hls))
                   && id in state.tokens && token.value == state.tokens[id] == Token(track, hls, now, now, sid)
    {
      if media == null {
        return None;
      }
      var t := media.IssueWithHls(id, sid, track, hls, now);
      Record(Step.IssueToken(id, sid, track, hls));
      return Some(t);
    }

    /**
     True exactly for a young enough token of a session the listeners hold, and only if media was
     enabled last.
     */
    method ValidateToken(id: TokenId, now: Instant) returns (ok: bool)
      requires Valid() && now == state.now && media != null
      modifies this`history, this`state, media
      ensures Valid() && state == Apply(Setting(), old(state), Step.ValidateToken(id))
      ensures ok <==> && MediaLast(build)
                      && id in old(state).tokens && Elapsed(now, old(state).tokens[id].issuedAt) <= tokenTtl
                      && old(state).tokens[id].sessionId in old(sessions.sessions)
    {
      ValidInRun(Setting(), history, id);
      ok := media.Validate(id, now, Knows(watched.sessions));
      Record(Step.ValidateToken(id));
    }

    method CollectTokens(now: Instant)
      requires Valid() && now == state.now && media != null
      modifies this`history, this`state, media
      ensures Valid() && state == Apply(Setting(), old(state), Step.CollectTokens)
    {
      media.Gc(now);
      Record(Step.CollectTokens);
    }
  }

  lemma BuildMore(steps: seq<BuildStep>, step: BuildStep)
    ensures var b := Build(steps);
            Build(steps + [step]) ==
            match step
            case WithMedia => b.(validator := Some(b.sessions))
            case WithSessionConfig => b.(sessions := b.created, created := b.created + 1)
            case Other => b
  {
    assert (steps + [step])[..|steps|] == steps;
  }
}
