/**
 The key agreement over a pair of byte streams: `negotiate_client` and `negotiate_server` in
 src/session.rs, `dial` in src/client.rs and the listeners in src/server.rs.
 client: id length (2 bytes) || id || public key (32)      server: public key (32) || session id (8)
 */
module Handshake {
  import opened Wrappers
  import opened Bytes

  const PUB_KEY_SIZE: nat := 32
  const MAX_KEY_ID: nat := 256
  const ANONYMOUS: seq<byte> := [0x68, 0x75, 0x73, 0x68, 0x2D, 0x61, 0x6E, 0x6F, 0x6E, 0x79, 0x6D, 0x6F, 0x75, 0x73]

  /** Diffie-Hellman, the key derivation, and `String::from_utf8_lossy`. */
  datatype Suite = Suite(
    public: seq<byte> -> seq<byte>,
    dh: (seq<byte>, seq<byte>) -> seq<byte>,
    hkdf: (seq<byte>, seq<byte>) -> seq<byte>,
    lossy: seq<byte> -> seq<byte>)

  /** Section 6.1 of RFC 7748; lossy decoding keeps valid text and at most triples the rest. */
  ghost predicate LawfulSuite(u: Suite) {
    && (forall x: seq<byte> {:trigger u.public(x)} :: |u.public(x)| == PUB_KEY_SIZE)
    && (forall x: seq<byte>, y: seq<byte> {:trigger u.dh(x, u.public(y))} ::
          u.dh(x, u.public(y)) == u.dh(y, u.public(x)))
    && (forall b: seq<byte> {:trigger u.lossy(b)} :: |u.lossy(b)| <= 3 * |b| && (ValidUtf8(b) ==> u.lossy(b) == b))
  }

  /** The laws can be met. */
  lemma LawfulSuitesExist() returns (u: Suite)
    ensures LawfulSuite(u)
  {
    u := Suite(
      (x: seq<byte>) => seq(PUB_KEY_SIZE, _ => 0),
      (x: seq<byte>, y: seq<byte>) => [],
      (x: seq<byte>, y: seq<byte>) => [],
      (b: seq<byte>) => if ValidUtf8(b) then b else []);
  }

  /** Who the peers agree on and the key they share. */
  datatype Agreed = Agreed(sid: u64, keyId: seq<byte>, key: seq<byte>)

  datatype HandshakeError = BadLength | ShortRead | BadUtf8 | UnknownKey

  /** `negotiate_server` refuses anonymous and malformed ids; the listeners take both. */
  datatype Mode = Strict | Listener

  type KeyStore = map<seq<byte>, seq<byte>>

  // ── The two sides ──────────────────────────────────────────

  /** The length is cast to 16 bits. */
  function Hello(id: seq<byte>, pub: seq<byte>): seq<byte> { BE(|id| % 0x1_0000, 2) + id + pub }

  function Accept(u: Suite, priv: seq<byte>, sid: u64, keyId: seq<byte>, clientPub: seq<byte>, secret: seq<byte>)
    : (Agreed, seq<byte>)
  {
    (Agreed(sid, keyId, u.hkdf(u.dh(priv, clientPub), secret)), u.public(priv) + BE(sid, 8))
  }

  /** The listeners decode lossily; the strict server has checked the bytes before. */
  function KeyIdOf(u: Suite, mode: Mode, idBytes: seq<byte>): seq<byte> {
    if mode == Strict then idBytes else u.lossy(idBytes)
  }

  /** What the server settles on and answers, and the bytes it leaves unread. */
  function Serve(u: Suite, mode: Mode, store: KeyStore, priv: seq<byte>, sid: u64, stream: seq<byte>)
    : (Result<(Agreed, seq<byte>), HandshakeError>, seq<byte>)
  {
    if |stream| < 2 then (Err(ShortRead), [])
    else ServeBody(u, mode, store, priv, sid, FromBE(stream[..2]), stream[2..])
  }

  function ServeBody(u: Suite, mode: Mode, store: KeyStore, priv: seq<byte>, sid: u64, n: nat, body: seq<byte>)
    : (Result<(Agreed, seq<byte>), HandshakeError>, seq<byte>)
  {
    if n > MAX_KEY_ID || (n == 0 && mode == Strict) then (Err(BadLength), body)
    else if |body| < n + PUB_KEY_SIZE then (Err(ShortRead), [])
    else
      var idBytes, pub, rest := body[..n], body[n..n + PUB_KEY_SIZE], body[n + PUB_KEY_SIZE..];
      if n == 0 then (Ok(Accept(u, priv, sid, [], pub, ANONYMOUS)), rest)
      else if mode == Strict && !ValidUtf8(idBytes) then (Err(BadUtf8), rest)
      else
        var id := KeyIdOf(u, mode, idBytes);
        if id !in store then (Err(UnknownKey), rest)
        else (Ok(Accept(u, priv, sid, id, pub, store[id])), rest)
  }

  /** `dial` and `dial_tcp`, or `negotiate_client`. */
  datatype Client = Dial | Negotiate

  /** The secret the client mixes in: only `dial` has a fixed one for an empty id. */
  function ClientSecret(client: Client, id: seq<byte>, secret: seq<byte>): seq<byte> {
    if id == [] && client == Dial then ANONYMOUS else secret
  }

  function Finish(u: Suite, client: Client, priv: seq<byte>, id: seq<byte>, secret: seq<byte>, stream: seq<byte>)
    : (Result<Agreed, HandshakeError>, seq<byte>)
  {
    if |stream| < PUB_KEY_SIZE + 8 then (Err(ShortRead), [])
    else
      BEOfFromBE(stream[PUB_KEY_SIZE..PUB_KEY_SIZE + 8]);
      Widths();
      (Ok(Agreed(FromBE(stream[PUB_KEY_SIZE..PUB_KEY_SIZE + 8]), id,
                 u.hkdf(u.dh(priv, stream[..PUB_KEY_SIZE]), ClientSecret(client, id, secret)))),
       stream[PUB_KEY_SIZE + 8..])
  }

  // ── The server on any bytes ────────────────────────────────

  /** A hello: length of the id (2 bytes), id, public key (32 bytes); the id is empty or one the server knows. */
  ghost predicate GoodHello(u: Suite, mode: Mode, store: KeyStore, hello: seq<byte>, idBytes: seq<byte>, pub: seq<byte>)
  {
    && |idBytes| <= 256 && |pub| == 32
    && hello == [|idBytes| / 256, |idBytes| % 256] + idBytes + pub
    && match mode
       case Strict => idBytes != [] && ValidUtf8(idBytes) && idBytes in store
       case Listener => idBytes == [] || u.lossy(idBytes) in store
  }

  /** What the server settles on: the id, and the key from the exchange and the id's secret. */
  ghost predicate Settled(u: Suite, mode: Mode, store: KeyStore, priv: seq<byte>, sid: u64, idBytes: seq<byte>,
                          pub: seq<byte>, agreed: Agreed, resp: seq<byte>)
  {
    && agreed.sid == sid
    && agreed.keyId == (if idBytes == [] then [] else if mode == Strict then idBytes else u.lossy(idBytes))
    && (idBytes == [] || agreed.keyId in store)
    && agreed.key == u.hkdf(u.dh(priv, pub), if idBytes == [] then ANONYMOUS else store[agreed.keyId])
    && |u.public(priv)| + 8 == |resp| && resp[..|resp| - 8] == u.public(priv) && Eight(resp[|resp| - 8..]) == sid
  }

  ghost predicate Accepts(u: Suite, mode: Mode, store: KeyStore, priv: seq<byte>, sid: u64, stream: seq<byte>,
                          agreed: Agreed, resp: seq<byte>, rest: seq<byte>, idBytes: seq<byte>, pub: seq<byte>)
  {
    && |rest| <= |stream| && stream[|stream| - |rest|..] == rest
    && GoodHello(u, mode, store, stream[..|stream| - |rest|], idBytes, pub)
    && Settled(u, mode, store, priv, sid, idBytes, pub, agreed, resp)
  }

  /** On every byte stream, the server accepts exactly if it starts with a good hello, and consumes just that. */
  lemma ServeExactly(u: Suite, mode: Mode, store: KeyStore, priv: seq<byte>, sid: u64, stream: seq<byte>,
                     agreed: Agreed, resp: seq<byte>, rest: seq<byte>)
    ensures Serve(u, mode, store, priv, sid, stream) == (Ok((agreed, resp)), rest) <==>
            exists idBytes, pub :: Accepts(u, mode, store, priv, sid, stream, agreed, resp, rest, idBytes, pub)
  {
    hide ServeBody, GoodHello, Settled, FromBE;
    if Serve(u, mode, store, priv, sid, stream) == (Ok((agreed, resp)), rest) {
      var n := FromBE(stream[..2]);
      ServedHello(u, mode, store, priv, sid, stream, agreed, resp, rest);
      assert Accepts(u, mode, store, priv, sid, stream, agreed, resp, rest, stream[2..][..n], stream[2..][n..n + 32]);
    }
    forall idBytes, pub | Accepts(u, mode, store, priv, sid, stream, agreed, resp, rest, idBytes, pub)
      ensures Serve(u, mode, store, priv, sid, stream) == (Ok((agreed, resp)), rest)
    {
      HelloServed(u, mode, store, priv, sid, stream, agreed, resp, rest, idBytes, pub);
    }
  }

  lemma ServedHello(u: Suite, mode: Mode, store: KeyStore, priv: seq<byte>, sid: u64, stream: seq<byte>,
                    agreed: Agreed, resp: seq<byte>, rest: seq<byte>)
    requires Serve(u, mode, store, priv, sid, stream) == (Ok((agreed, resp)), rest)
    ensures |stream| >= 2
    ensures var n, body := FromBE(stream[..2]), stream[2..];
            && n + 32 <= |body| && rest == body[n + 32..]
            && Accepts(u, mode, store, priv, sid, stream, agreed, resp, rest, body[..n], body[n..n + 32])
  {
    hide FromBE, BE, ValidUtf8;
    FromBigEndian(stream);
    var n, body := FromBE(stream[..2]), stream[2..];
    var idBytes, pub := body[..n], body[n..n + 32];
    assert n / 256 == stream[0] && n % 256 == stream[1] by { TwoDigits(stream); }
    assert stream[..|stream| - |rest|] == [n / 256, n % 256] + idBytes + pub;
    AnswerBytes(u, priv, sid);
    assert resp == u.public(priv) + BE(sid, 8);
  }

  lemma TwoDigits(b: seq<byte>)
    requires |b| >= 2
    ensures Two(b) / 256 == b[0] && Two(b) % 256 == b[1]
  {
  }

  lemma AnswerBytes(u: Suite, priv: seq<byte>, sid: u64)
    ensures var resp := u.public(priv) + BE(sid, 8);
            |resp| == |u.public(priv)| + 8 && resp[..|resp| - 8] == u.public(priv) && Eight(resp[|resp| - 8..]) == sid
  {
    EightOf(sid);
    var resp := u.public(priv) + BE(sid, 8);
    assert resp[|resp| - 8..] == BE(sid, 8);
  }

  /** Eight bytes are determined by their number. */
  lemma EightInjective(a: seq<byte>, b: seq<byte>)
    requires |a| == 8 && |b| == 8 && Eight(a) == Eight(b)
    ensures a == b
  {
    FromBigEndian(a);
    FromBigEndian(b);
    assert a[..8] == a && b[..8] == b;
    BEOfFromBE(a);
    BEOfFromBE(b);
  }

  lemma HelloServed(u: Suite, mode: Mode, store: KeyStore, priv: seq<byte>, sid: u64, stream: seq<byte>,
                    agreed: Agreed, resp: seq<byte>, rest: seq<byte>, idBytes: seq<byte>, pub: seq<byte>)
    requires Accepts(u, mode, store, priv, sid, stream, agreed, resp, rest, idBytes, pub)
    ensures Serve(u, mode, store, priv, sid, stream) == (Ok((agreed, resp)), rest)
  {
    hide FromBE, BE, ValidUtf8, Eight;
    var n := |idBytes|;
    var hello := stream[..|stream| - |rest|];
    assert stream == hello + rest;
    assert stream == [n / 256, n % 256] + (idBytes + pub + rest);
    FromBigEndian(stream);
    assert Two(stream) == n;
    var body := stream[2..];
    assert body == idBytes + pub + rest;
    assert body[..n] == idBytes && body[n..n + 32] == pub && body[n + 32..] == rest;
    AnswerBytes(u, priv, sid);
    var answer := u.public(priv) + BE(sid, 8);
    EightInjective(resp[|resp| - 8..], answer[|answer| - 8..]);
    assert resp == resp[..|resp| - 8] + resp[|resp| - 8..];
    assert answer == answer[..|answer| - 8] + answer[|answer| - 8..];
  }

  /** Why the server refuses, in the order it notices; n is the length the first two bytes give. */
  lemma ServeRefused(u: Suite, mode: Mode, store: KeyStore, priv: seq<byte>, sid: u64, stream: seq<byte>)
    ensures var r := Serve(u, mode, store, priv, sid, stream).0;
            if |stream| < 2 then r == Err(ShortRead)
            else
              var n := Two(stream);
              if n > 256 || (n == 0 && mode == Strict) then r == Err(BadLength)
              else if |stream| < 2 + n + 32 then r == Err(ShortRead)
              else
                var idBytes := stream[2..2 + n];
                && (r == Err(BadUtf8) <==> mode == Strict && !ValidUtf8(idBytes))
                && (r == Err(UnknownKey) <==>
                      match mode
                      case Strict => ValidUtf8(idBytes) && idBytes !in store
                      case Listener => n > 0 && u.lossy(idBytes) !in store)
                && (r.Err? ==> r.error == BadUtf8 || r.error == UnknownKey)
  {
    hide FromBE, Two, ValidUtf8, Accept;
    FromBigEndian(stream);
    if |stream| >= 2 && |stream| >= 2 + Two(stream) {
      assert stream[2..][..Two(stream)] == stream[2..2 + Two(stream)];
    }
  }

  // ── Agreement ──────────────────────────────────────────────

  lemma FinishAccepted(u: Suite, client: Client, cpriv: seq<byte>, spriv: seq<byte>, sid: u64, id: seq<byte>,
                       secret: seq<byte>, mixed: seq<byte>, rest: seq<byte>)
    requires LawfulSuite(u)
    ensures var (agreed, resp) := Accept(u, spriv, sid, id, u.public(cpriv), mixed);
            var shared := u.dh(cpriv, u.public(spriv));
            && Finish(u, client, cpriv, id, secret, resp + rest) ==
               (Ok(agreed.(key := u.hkdf(shared, ClientSecret(client, id, secret)))), rest)
            && agreed.key == u.hkdf(shared, mixed)
  {
    var resp := u.public(spriv) + BE(sid, 8);
    assert u.dh(cpriv, u.public(spriv)) == u.dh(spriv, u.public(cpriv));
    assert (resp + rest)[..PUB_KEY_SIZE] == u.public(spriv);
    assert (resp + rest)[PUB_KEY_SIZE..PUB_KEY_SIZE + 8] == BE(sid, 8);
    assert (resp + rest)[PUB_KEY_SIZE + 8..] == rest;
    Widths();
    FromBEOfBE(sid, 8);
  }

  lemma HelloParts(id: seq<byte>, pub: seq<byte>, rest: seq<byte>)
    ensures var s := Hello(id, pub) + rest;
            && |s| == 2 + |id| + |pub| + |rest|
            && FromBE(s[..2]) == |id| % 0x1_0000
            && s[2..] == id + (pub + rest)
  {
    Widths();
    FromBEOfBE(|id| % 0x1_0000, 2);
    hide BE, FromBE, Pow;
    var s := Hello(id, pub) + rest;
    assert s[..2] == BE(|id| % 0x1_0000, 2);
  }

  /** Both sides of one run end with the same session. */
  ghost predicate Agree(u: Suite, client: Client, mode: Mode, store: KeyStore, cpriv: seq<byte>, spriv: seq<byte>,
                        sid: u64, id: seq<byte>, secret: seq<byte>)
  {
    var server := Serve(u, mode, store, spriv, sid, Hello(id, u.public(cpriv))).0;
    server.Ok? &&
    Finish(u, client, cpriv, id, secret, server.value.1).0 == Ok(server.value.0)
  }

  /** What the server mixes in for an id it knows, and for the empty one. */
  function ServerSecret(id: seq<byte>, secret: seq<byte>): seq<byte> { if id == [] then ANONYMOUS else secret }

  /** The server takes every id of up to 256 bytes of UTF-8 that it knows; an empty one if it is a listener. */
  lemma ShortIdServed(u: Suite, mode: Mode, store: KeyStore, cpriv: seq<byte>, spriv: seq<byte>, sid: u64,
                      id: seq<byte>, secret: seq<byte>, r: seq<byte>)
    requires LawfulSuite(u) && ValidUtf8(id) && |id| <= MAX_KEY_ID
    requires if id == [] then mode == Listener else id in store && store[id] == secret
    ensures Serve(u, mode, store, spriv, sid, Hello(id, u.public(cpriv)) + r) ==
            (Ok(Accept(u, spriv, sid, id, u.public(cpriv), ServerSecret(id, secret))), r)
  {
    hide ServeBody, Accept, ValidUtf8, Hello, ServerSecret, FromBE;
    HelloParts(id, u.public(cpriv), r);
    BodyServed(u, mode, store, spriv, sid, id, secret, u.public(cpriv), r);
  }

  lemma BodyServed(u: Suite, mode: Mode, store: KeyStore, spriv: seq<byte>, sid: u64, id: seq<byte>, secret: seq<byte>,
                   pub: seq<byte>, r: seq<byte>)
    requires LawfulSuite(u) && ValidUtf8(id) && |id| <= MAX_KEY_ID && |pub| == PUB_KEY_SIZE
    requires if id == [] then mode == Listener else id in store && store[id] == secret
    ensures ServeBody(u, mode, store, spriv, sid, |id|, id + (pub + r)) ==
            (Ok(Accept(u, spriv, sid, id, pub, ServerSecret(id, secret))), r)
  {
    hide Accept, ValidUtf8;
    var body, n := id + (pub + r), |id|;
    assert body[..n] == id && body[n..n + PUB_KEY_SIZE] == pub && body[n + PUB_KEY_SIZE..] == r;
  }

  /**
   With ids of up to 256 bytes of UTF-8 that the server knows, both sides end with the same session
   id, key id and session key, and neither reads past its message. An empty id works from `dial` to
   the listeners only.
   */
  lemma HandshakeAgrees(u: Suite, client: Client, mode: Mode, store: KeyStore, cpriv: seq<byte>, spriv: seq<byte>,
                        sid: u64, id: seq<byte>, secret: seq<byte>, r: seq<byte>, s: seq<byte>)
    requires LawfulSuite(u) && ValidUtf8(id) && |id| <= MAX_KEY_ID
    requires if id == [] then client == Dial && mode == Listener else id in store && store[id] == secret
    ensures var server := Serve(u, mode, store, spriv, sid, Hello(id, u.public(cpriv)) + r);
            && server.0.Ok? && server.1 == r
            && var (agreed, resp) := server.0.value;
               && agreed.sid == sid && agreed.keyId == id
               && Finish(u, client, cpriv, id, secret, resp + s) == (Ok(agreed), s)
  {
    hide Hello, Serve, Finish, ValidUtf8;
    ShortIdServed(u, mode, store, cpriv, spriv, sid, id, secret, r);
    FinishAccepted(u, client, cpriv, spriv, sid, id, secret, ServerSecret(id, secret), s);
  }

  /** The two sides derive the same key although only the server mixes in the fixed string. */
  ghost predicate AnonymousKeysMeet(u: Suite, cpriv: seq<byte>, spriv: seq<byte>, secret: seq<byte>) {
    var shared := u.dh(cpriv, u.public(spriv));
    u.hkdf(shared, secret) == u.hkdf(shared, ANONYMOUS)
  }

  /**
   For a client whose key the server knows, the two sides agree exactly when the id is at most 256
   bytes long, and not empty if the server is strict. `negotiate_client` derives with its own secret
   even under an empty id: it agrees with a listener only if that gives the anonymous key.
   */
  lemma AgreementDomain(u: Suite, client: Client, mode: Mode, store: KeyStore, cpriv: seq<byte>, spriv: seq<byte>,
                        sid: u64, id: seq<byte>, secret: seq<byte>)
    requires LawfulSuite(u) && ValidUtf8(id)
    requires id != [] ==> id in store && store[id] == secret
    ensures Agree(u, client, mode, store, cpriv, spriv, sid, id, secret)
            <==> && |id| <= MAX_KEY_ID
                 && (id == [] ==> mode == Listener && (client == Dial || AnonymousKeysMeet(u, cpriv, spriv, secret)))
  {
    hide Hello, Serve, Finish, ValidUtf8;
    var pub := u.public(cpriv);
    var hello := Hello(id, pub);
    assert hello + [] == hello;
    if |id| > MAX_KEY_ID {
      LongIdMistaken(u, mode, store, spriv, sid, id, pub);
      var server := Serve(u, mode, store, spriv, sid, hello).0;
      if server.Ok? {
        FinishKeepsId(u, client, cpriv, id, secret, server.value.1);
      }
    } else if id == [] && mode == Strict {
      EmptyIdRefused(u, store, spriv, sid, pub);
    } else {
      ShortIdServed(u, mode, store, cpriv, spriv, sid, id, secret, []);
      FinishAccepted(u, client, cpriv, spriv, sid, id, secret, ServerSecret(id, secret), []);
      var resp := Serve(u, mode, store, spriv, sid, hello).0.value.1;
      assert resp + [] == resp;
    }
  }

  /** The client always ends with the id it asked for. */
  lemma FinishKeepsId(u: Suite, client: Client, priv: seq<byte>, id: seq<byte>, secret: seq<byte>, stream: seq<byte>)
    ensures var r := Finish(u, client, priv, id, secret, stream).0; r.Ok? ==> r.value.keyId == id
  {
  }

  lemma EmptyIdRefused(u: Suite, store: KeyStore, spriv: seq<byte>, sid: u64, pub: seq<byte>)
    ensures Serve(u, Strict, store, spriv, sid, Hello([], pub)).0 == Err(BadLength)
  {
    HelloParts([], pub, []);
    assert Hello([], pub) + [] == Hello([], pub);
  }

  // ── Ids too long for the hello ─────────────────────────────

  /**
   An id of more than 256 bytes reaches the server with its length modulo 2^16. It is accepted
   exactly when that is at most 256 and names nobody, to a listener, or makes the server read a
   prefix it knows. The server then settles on the prefix, and on bytes of the id as public key.
   */
  lemma LongIdMistaken(u: Suite, mode: Mode, store: KeyStore, spriv: seq<byte>, sid: u64, id: seq<byte>, pub: seq<byte>)
    requires LawfulSuite(u) && |pub| == PUB_KEY_SIZE && |id| > MAX_KEY_ID
    ensures var n := |id| % 0x1_0000;
            var server := Serve(u, mode, store, spriv, sid, Hello(id, pub)).0;
            && (server.Ok? <==>
                  && n <= MAX_KEY_ID
                  && if n == 0 then mode == Listener
                     else (mode == Strict ==> ValidUtf8(id[..n])) && KeyIdOf(u, mode, id[..n]) in store)
            && (server.Ok? ==>
                  var taken := if n == 0 then [] else KeyIdOf(u, mode, id[..n]);
                  && taken != id
                  && server.value == Accept(u, spriv, sid, taken, id[n..n + PUB_KEY_SIZE],
                                            if n == 0 then ANONYMOUS else store[taken]))
  {
    hide Accept, ValidUtf8, Hello;
    HelloParts(id, pub, []);
    var hello, n := Hello(id, pub), |id| % 0x1_0000;
    assert hello + [] == hello;
    if n <= MAX_KEY_ID {
      assert |id| >= 0x1_0000;
      assert hello[2..][..n] == id[..n];
      assert hello[2..][n..n + PUB_KEY_SIZE] == id[n..n + PUB_KEY_SIZE];
      assert |KeyIdOf(u, mode, id[..n])| <= 3 * MAX_KEY_ID;
    }
  }

  const LETTER: byte := 0x61

  /** One such id: 2^16 + 1 letters are taken for the id of one letter, by every server that knows it. */
  lemma LongIdTakenForAnother(u: Suite, mode: Mode, secret: seq<byte>, spriv: seq<byte>, sid: u64, pub: seq<byte>)
    requires LawfulSuite(u) && |pub| == PUB_KEY_SIZE
    ensures var id := seq(0x1_0001, _ => LETTER);
            var server := Serve(u, mode, map[[LETTER] := secret], spriv, sid, Hello(id, pub)).0;
            server.Ok? && server.value.0.keyId == [LETTER]
  {
    hide Hello, Serve;
    var id := seq(0x1_0001, _ => LETTER);
    assert id[..1] == [LETTER];
    assert ValidUtf8([LETTER]);
    LongIdMistaken(u, mode, map[[LETTER] := secret], spriv, sid, id, pub);
  }

  /** `dial` and `negotiate_client` build the hello in a buffer. */
  method BuildHello(id: seq<byte>, pub: seq<byte>) returns (hello: seq<byte>)
    ensures hello == Hello(id, pub)
  {
    var buf := new ByteVec();
    buf.Extend(BE(|id| % 0x1_0000, 2));
    buf.Extend(id);
    buf.Extend(pub);
    hello := buf.data;
  }

  /** The server's side over a reader and a writer: nothing is written unless it accepts. */
  method ServeOn(r: ByteSource, w: ByteVec, u: Suite, mode: Mode, store: KeyStore, priv: seq<byte>, sid: u64)
    returns (agreed: Result<Agreed, HandshakeError>)
    modifies r, w
    ensures r.rest == Serve(u, mode, store, priv, sid, old(r.rest)).1
    ensures match Serve(u, mode, store, priv, sid, old(r.rest)).0
            case Ok((a, resp)) => agreed == Ok(a) && w.data == old(w.data) + resp
            case Err(e) => agreed == Err(e) && w.data == old(w.data)
  {
    var header := r.ReadExact(2);
    if header.None? {
      return Err(ShortRead);
    }
    var keyLen := FromBE(header.value);
    if keyLen > MAX_KEY_ID || (keyLen == 0 && mode == Strict) {
      return Err(BadLength);
    }
    var keyBuf := r.ReadExact(keyLen + PUB_KEY_SIZE);
    if keyBuf.None? {
      return Err(ShortRead);
    }
    var idBytes, pub := keyBuf.value[..keyLen], keyBuf.value[keyLen..];
    ghost var body := old(r.rest)[2..];
    assert idBytes == body[..keyLen] && pub == body[keyLen..keyLen + PUB_KEY_SIZE];
    var id, secret := [], ANONYMOUS;
    if keyLen > 0 {
      if mode == Strict && !ValidUtf8(idBytes) {
        return Err(BadUtf8);
      }
      id := KeyIdOf(u, mode, idBytes);
      if id !in store {
        return Err(UnknownKey);
      }
      secret := store[id];
    }
    var (a, resp) := Accept(u, priv, sid, id, pub, secret);
    w.Extend(resp);
    return Ok(a);
  }
}
