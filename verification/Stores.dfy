/**
 The locked maps of the server: sessions (src/session.rs) and media tokens (src/media.rs). Time is
 a number, and the clock and the random token ids are parameters.
 */
module Stores {
  import opened Wrappers
  import opened Bytes

  type Instant = nat

  /** `Instant::elapsed`, which never runs backwards. */
  function Elapsed(now: Instant, since: Instant): nat { if now < since then 0 else now - since }

  // ── Sessions ───────────────────────────────────────────────

  datatype Session = Session(id: u64, apiKeyId: seq<byte>, key: seq<byte>, createdAt: Instant, lastUsed: Instant)

  datatype SessionConfig = SessionConfig(idleTimeout: nat, maxLifetime: nat)

  predicate Expired(c: SessionConfig, s: Session, now: Instant) { Elapsed(now, s.createdAt) > c.maxLifetime }

  predicate IdleDead(c: SessionConfig, s: Session, now: Instant) { Elapsed(now, s.lastUsed) > c.idleTimeout }

  function Retained(c: SessionConfig, sessions: map<u64, Session>, now: Instant): (r: map<u64, Session>)
    ensures r.Keys <= sessions.Keys
    ensures forall id :: id in sessions ==> (id in r <==> now <= sessions[id].createdAt + c.maxLifetime)
    ensures forall id :: id in r ==> r[id] == sessions[id]
  {
    map id | id in sessions && Elapsed(now, sessions[id].createdAt) <= c.maxLifetime :: sessions[id]
  }

  /** `sessions.get(sid).is_some()`, the validator `with_media` installs. */
  function Knows(sessions: map<u64, Session>): u64 -> bool { sid => sid in sessions }

  class SessionStore {
    const config: SessionConfig
    var sessions: map<u64, Session>

    constructor (config: SessionConfig)
      ensures this.config == config && sessions == map[]
    {
      this.config := config;
      sessions := map[];
    }

    method Insert(s: Session)
      modifies this
      ensures sessions == old(sessions)[s.id := s]
    {
      sessions := sessions[s.id := s];
    }

    /** A clone: touching it does not reach the store. */
    method Get(id: u64) returns (r: Option<Session>)
      ensures r == if id in sessions then Some(sessions[id]) else None
    {
      r := if id in sessions then Some(sessions[id]) else None;
    }

    method Delete(id: u64)
      modifies this
      ensures sessions == old(sessions) - {id}
    {
      sessions := sessions - {id};
    }

    /** `retain`: visits every entry once, in any order, and removes those past their lifetime. */
    method Gc(now: Instant)
      modifies this`sessions
      ensures sessions == Retained(config, old(sessions), now)
    {
      var unvisited := sessions.Keys;
      while unvisited != {}
        invariant unvisited <= sessions.Keys <= old(sessions).Keys
        invariant forall id :: id in sessions ==> sessions[id] == old(sessions)[id]
        invariant forall id :: id in old(sessions) && id !in unvisited ==>
                    (id in sessions <==> !Expired(config, old(sessions)[id], now))
        decreases |unvisited|
      {
        var id :| id in unvisited;
        if Expired(config, sessions[id], now) {
          sessions := sessions - {id};
        }
        unvisited := unvisited - {id};
      }
    }
  }

  // ── Media tokens ───────────────────────────────────────────

  type TokenId = id: seq<byte> | |id| == 16 witness seq(16, _ => 0)

  datatype Token = Token(track: seq<byte>, hls: seq<byte>, createdAt: Instant, issuedAt: Instant, sessionId: u64)

  type Tokens = map<TokenId, Token>

  function Issued(tokens: Tokens, id: TokenId, sid: u64, track: seq<byte>, hls: seq<byte>, now: Instant): Tokens {
    tokens[id := Token(track, hls, now, now, sid)]
  }

  /** Known, young enough, and bound to a session the validator knows. */
  predicate Valid(tokens: Tokens, id: TokenId, ttl: nat, now: Instant, alive: u64 -> bool) {
    id in tokens && Elapsed(now, tokens[id].issuedAt) <= ttl && alive(tokens[id].sessionId)
  }

  /** A refused token is forgotten, an accepted one has its `created_at` moved, never its `issued_at`. */
  function Validated(tokens: Tokens, id: TokenId, ttl: nat, now: Instant, alive: u64 -> bool): Tokens {
    if Valid(tokens, id, ttl, now, alive) then tokens[id := tokens[id].(createdAt := now)] else tokens - {id}
  }

  function Collected(tokens: Tokens, ttl: nat, now: Instant): (r: Tokens)
    ensures r.Keys <= tokens.Keys
    ensures forall id :: id in tokens ==> (id in r <==> now <= tokens[id].issuedAt + ttl)
    ensures forall id :: id in r ==> r[id] == tokens[id]
  {
    map id | id in tokens && Elapsed(now, tokens[id].issuedAt) <= ttl :: tokens[id]
  }

  class TokenStore {
    const maxTokenTtl: nat
    var tokens: Tokens

    constructor (ttl: nat)
      ensures maxTokenTtl == ttl && tokens == map[]
    {
      maxTokenTtl := ttl;
      tokens := map[];
    }

    method IssueWithHls(id: TokenId, sid: u64, track: seq<byte>, hls: seq<byte>, now: Instant) returns (t: Token)
      modifies this
      ensures tokens == Issued(old(tokens), id, sid, track, hls, now)
      ensures id in tokens && t == tokens[id] == Token(track, hls, now, now, sid)
    {
      t := Token(track, hls, now, now, sid);
      tokens := tokens[id := t];
    }

    /** Removes on two separate refusals and updates the entry in place on success. */
    method Validate(id: TokenId, now: Instant, alive: u64 -> bool) returns (ok: bool)
      modifies this
      ensures ok == Valid(old(tokens), id, maxTokenTtl, now, alive)
      ensures tokens == Validated(old(tokens), id, maxTokenTtl, now, alive)
    {
      if id !in tokens {
        assert tokens - {id} == tokens;
        return false;
      }
      var t := tokens[id];
      if Elapsed(now, t.issuedAt) > maxTokenTtl {
        tokens := tokens - {id};
        return false;
      }
      if !alive(t.sessionId) {
        tokens := tokens - {id};
        return false;
      }
      tokens := tokens[id := t.(createdAt := now)];
      return true;
    }

    method Gc(now: Instant)
      modifies this`tokens
      ensures tokens == Collected(old(tokens), maxTokenTtl, now)
    {
      var unvisited := tokens.Keys;
      while unvisited != {}
        invariant unvisited <= tokens.Keys <= old(tokens).Keys
        invariant forall id :: id in tokens ==> tokens[id] == old(tokens)[id]
        invariant forall id :: id in old(tokens) && id !in unvisited ==>
                    (id in tokens <==> Elapsed(now, old(tokens)[id].issuedAt) <= maxTokenTtl)
        decreases |unvisited|
      {
        var id :| id in unvisited;
        if Elapsed(now, tokens[id].issuedAt) > maxTokenTtl {
          tokens := tokens - {id};
        }
        unvisited := unvisited - {id};
      }
    }
  }

  // ── Runs of a token store ──────────────────────────────────

  datatype Event =
    | Tick(step: nat)
    | Issue(id: TokenId, sid: u64, track: seq<byte>, hls: seq<byte>)
    | Validate(token: TokenId, alive: u64 -> bool)
    | Collect

  function TokensAfter(tokens: Tokens, ttl: nat, now: Instant, e: Event): Tokens {
    match e
    case Tick(_) => tokens
    case Issue(id, sid, track, hls) => Issued(tokens, id, sid, track, hls, now)
    case Validate(id, alive) => Validated(tokens, id, ttl, now, alive)
    case Collect => Collected(tokens, ttl, now)
  }

  function ClockAfter(now: Instant, e: Event): Instant { if e.Tick? then now + e.step else now }

  /** What the validations in a run answer, in order. */
  function Answers(tokens: Tokens, ttl: nat, now: Instant, es: seq<Event>): seq<bool>
    decreases |es|
  {
    if es == [] then []
    else
      (if es[0].Validate? then [Valid(tokens, es[0].token, ttl, now, es[0].alive)] else []) +
      Answers(TokensAfter(tokens, ttl, now, es[0]), ttl, ClockAfter(now, es[0]), es[1..])
  }

  function WithoutCollect(es: seq<Event>): seq<Event> {
    if es == [] then []
    else (if es[0].Collect? then [] else [es[0]]) + WithoutCollect(es[1..])
  }

  /** The two stores agree except that `a` has forgotten some tokens too old to be valid ever again. */
  ghost predicate Lags(a: Tokens, b: Tokens, ttl: nat, now: Instant) {
    && (forall id :: id in a ==> id in b && b[id] == a[id])
    && (forall id :: id in b && id !in a ==> Elapsed(now, b[id].issuedAt) > ttl)
  }

  lemma LagsStep(a: Tokens, b: Tokens, ttl: nat, now: Instant, e: Event)
    requires Lags(a, b, ttl, now)
    ensures !e.Collect? ==> Lags(TokensAfter(a, ttl, now, e), TokensAfter(b, ttl, now, e), ttl, ClockAfter(now, e))
    ensures Lags(Collected(a, ttl, now), b, ttl, now)
    ensures e.Validate? ==> Valid(a, e.token, ttl, now, e.alive) == Valid(b, e.token, ttl, now, e.alive)
  {
  }

  lemma {:induction false} LaggingAnswersSame(a: Tokens, b: Tokens, ttl: nat, now: Instant, es: seq<Event>)
    requires Lags(a, b, ttl, now)
    ensures Answers(a, ttl, now, es) == Answers(b, ttl, now, WithoutCollect(es))
    decreases |es|
  {
    if es == [] {
    } else {
      var e := es[0];
      hide Lags;
      LagsStep(a, b, ttl, now, e);
      if e.Collect? {
        LaggingAnswersSame(Collected(a, ttl, now), b, ttl, now, es[1..]);
        assert WithoutCollect(es) == WithoutCollect(es[1..]);
      } else {
        LaggingAnswersSame(TokensAfter(a, ttl, now, e), TokensAfter(b, ttl, now, e), ttl, ClockAfter(now, e), es[1..]);
        assert WithoutCollect(es) == [e] + WithoutCollect(es[1..]);
        assert WithoutCollect(es)[1..] == WithoutCollect(es[1..]);
      }
    }
  }

  /**
   Garbage collection is invisible to validation: two runs that differ only in where, and how often,
   they collect answer every validation alike.
   */
  lemma GcInvisible(tokens: Tokens, ttl: nat, now: Instant, es: seq<Event>, fs: seq<Event>)
    requires WithoutCollect(es) == WithoutCollect(fs)
    ensures Answers(tokens, ttl, now, es) == Answers(tokens, ttl, now, fs)
  {
    LaggingAnswersSame(tokens, tokens, ttl, now, es);
    LaggingAnswersSame(tokens, tokens, ttl, now, fs);
  }

  function TokensAtEnd(tokens: Tokens, ttl: nat, now: Instant, es: seq<Event>): (Tokens, Instant)
    decreases |es|
  {
    if es == [] then (tokens, now)
    else TokensAtEnd(TokensAfter(tokens, ttl, now, es[0]), ttl, ClockAfter(now, es[0]), es[1..])
  }

  lemma {:induction false} UnknownStaysUnknown(tokens: Tokens, ttl: nat, now: Instant, es: seq<Event>, id: TokenId)
    requires id !in tokens
    requires forall i :: 0 <= i < |es| && es[i].Issue? ==> es[i].id != id
    ensures id !in TokensAtEnd(tokens, ttl, now, es).0
    decreases |es|
  {
    if es == [] {
    } else {
      UnknownStaysUnknown(TokensAfter(tokens, ttl, now, es[0]), ttl, ClockAfter(now, es[0]), es[1..], id);
    }
  }

  /** A refused token stays refused, whatever happens, until its id is issued again. */
  lemma RefusedStaysRefused(tokens: Tokens, ttl: nat, now: Instant, alive: u64 -> bool, es: seq<Event>,
                            id: TokenId, later: u64 -> bool)
    requires !Valid(tokens, id, ttl, now, alive)
    requires forall i :: 0 <= i < |es| && es[i].Issue? ==> es[i].id != id
    ensures var (end, endTime) := TokensAtEnd(Validated(tokens, id, ttl, now, alive), ttl, now, es);
            !Valid(end, id, ttl, endTime, later)
  {
    UnknownStaysUnknown(Validated(tokens, id, ttl, now, alive), ttl, now, es, id);
  }

  /** The run has only ever found this session alive when it validated this token. */
  predicate NeverFoundDead(es: seq<Event>, id: TokenId, sid: u64) {
    forall i :: 0 <= i < |es| && es[i].Validate? && es[i].token == id ==> es[i].alive(sid)
  }

  lemma {:induction false} ClockMonotone(tokens: Tokens, ttl: nat, now: Instant, es: seq<Event>)
    ensures TokensAtEnd(tokens, ttl, now, es).1 >= now
    decreases |es|
  {
    if es == [] {
    } else {
      ClockMonotone(TokensAfter(tokens, ttl, now, es[0]), ttl, ClockAfter(now, es[0]), es[1..]);
    }
  }

  /** One event either keeps a token's issue time and session or forgets the token, for one of two reasons. */
  lemma TokenStep(tokens: Tokens, ttl: nat, now: Instant, e: Event, id: TokenId)
    requires id in tokens && !(e.Issue? && e.id == id)
    ensures var after := TokensAfter(tokens, ttl, now, e);
            && (id in after ==>
                  && after[id].issuedAt == tokens[id].issuedAt && after[id].sessionId == tokens[id].sessionId
                  && (e.Validate? && e.token == id ==> e.alive(tokens[id].sessionId)))
            && (id !in after ==>
                  || Elapsed(now, tokens[id].issuedAt) > ttl
                  || (e.Validate? && e.token == id && !e.alive(tokens[id].sessionId)))
  {
  }

  /**
   Exactly when an issued token is valid at the end of a run: its time to live, counted from when it
   was issued and never extended, has not passed, its session is alive, and no validation on the way
   found the session dead. Collections and other tokens play no part.
   */
  lemma {:induction false} ValidExactly(tokens: Tokens, ttl: nat, now: Instant, es: seq<Event>,
                                        id: TokenId, alive: u64 -> bool)
    requires id in tokens
    requires forall i :: 0 <= i < |es| && es[i].Issue? ==> es[i].id != id
    ensures var (end, endTime) := TokensAtEnd(tokens, ttl, now, es);
            Valid(end, id, ttl, endTime, alive) <==>
              && Elapsed(endTime, tokens[id].issuedAt) <= ttl
              && alive(tokens[id].sessionId)
              && NeverFoundDead(es, id, tokens[id].sessionId)
    decreases |es|
  {
    if es == [] {
    } else {
      var e, sid := es[0], tokens[id].sessionId;
      var after, later := TokensAfter(tokens, ttl, now, e), ClockAfter(now, e);
      TokenStep(tokens, ttl, now, e, id);
      assert NeverFoundDead(es, id, sid) <==>
             (e.Validate? && e.token == id ==> e.alive(sid)) && NeverFoundDead(es[1..], id, sid) by {
        assert forall i :: 0 < i < |es| ==> es[i] == es[1..][i - 1];
      }
      if id in after {
        ValidExactly(after, ttl, later, es[1..], id, alive);
      } else {
        UnknownStaysUnknown(after, ttl, later, es[1..], id);
        ClockMonotone(after, ttl, later, es[1..]);
      }
    }
  }

  // ── From issue to validation ───────────────────────────────

  /** The time that passes in a run. */
  function Ticks(es: seq<Event>): nat {
    if es == [] then 0 else (if es[0].Tick? then es[0].step else 0) + Ticks(es[1..])
  }

  lemma {:induction false} ClockIsTicks(tokens: Tokens, ttl: nat, now: Instant, es: seq<Event>)
    ensures TokensAtEnd(tokens, ttl, now, es).1 == now + Ticks(es)
    decreases |es|
  {
    if es == [] {
    } else {
      ClockIsTicks(TokensAfter(tokens, ttl, now, es[0]), ttl, ClockAfter(now, es[0]), es[1..]);
    }
  }

  /** A token that is still known is for the track and the URL it was issued with, and for its session. */
  lemma {:induction false} ContentsKept(tokens: Tokens, ttl: nat, now: Instant, es: seq<Event>, id: TokenId)
    requires id in tokens
    requires forall i :: 0 <= i < |es| && es[i].Issue? ==> es[i].id != id
    ensures var end := TokensAtEnd(tokens, ttl, now, es).0;
            id in end ==> end[id].track == tokens[id].track && end[id].hls == tokens[id].hls
                          && end[id].sessionId == tokens[id].sessionId
    decreases |es|
  {
    if es == [] {
    } else {
      var after, later := TokensAfter(tokens, ttl, now, es[0]), ClockAfter(now, es[0]);
      if id in after {
        ContentsKept(after, ttl, later, es[1..], id);
      } else {
        UnknownStaysUnknown(after, ttl, later, es[1..], id);
      }
    }
  }

  /**
   From any store and time: a token issued now is valid after a run exactly if no more than its time to
   live has passed, its session is alive, and no validation on the way found the session dead. While it
   is known it keeps its track, URL and session.
   */
  lemma IssuedLives(tokens: Tokens, ttl: nat, now: Instant, id: TokenId, sid: u64, track: seq<byte>, hls: seq<byte>,
                    es: seq<Event>, alive: u64 -> bool)
    requires forall i :: 0 <= i < |es| && es[i].Issue? ==> es[i].id != id
    ensures var (end, endTime) := TokensAtEnd(tokens, ttl, now, [Issue(id, sid, track, hls)] + es);
            && (Valid(end, id, ttl, endTime, alive) <==>
                  Ticks(es) <= ttl && alive(sid) && NeverFoundDead(es, id, sid))
            && (id in end ==> end[id].track == track && end[id].hls == hls && end[id].sessionId == sid)
  {
    var run := [Issue(id, sid, track, hls)] + es;
    assert run[1..] == es;
    var issued := TokensAfter(tokens, ttl, now, run[0]);
    ValidExactly(issued, ttl, now, es, id, alive);
    ClockIsTicks(issued, ttl, now, es);
    ContentsKept(issued, ttl, now, es, id);
  }

  /** A validation moves `created_at` of the token it accepts, forgets one it refuses, and touches no other. */
  lemma ValidatedMeans(tokens: Tokens, id: TokenId, ttl: nat, now: Instant, alive: u64 -> bool, other: TokenId)
    ensures var after, ok := Validated(tokens, id, ttl, now, alive), Valid(tokens, id, ttl, now, alive);
            && (id in after <==> ok)
            && (ok ==> after[id] == tokens[id].(createdAt := now))
            && (other != id ==>
                  && (other in after <==> other in tokens)
                  && (other in after ==> after[other] == tokens[other]))
            && (ok <==> id in tokens && now <= tokens[id].issuedAt + ttl && alive(tokens[id].sessionId))
  {
  }
}
