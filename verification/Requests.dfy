/**
 Requests and responses (src/frame.rs): opcode or status, an optional TLV map, encryption and the
 frame around them, and what becomes of a message between sender and receiver.
 */
module Requests {
  import opened Wrappers
  import opened Bytes
  import opened Leb128
  import opened Tlv
  import opened TlvRoundTrip
  import opened TlvCode
  import opened Crypto
  import opened Frames

  datatype Request = Request(opcode: u16, payload: Option<seq<Entry>>)

  datatype StatusCode =
    | Success | BadRequest | Unauthenticated | PermissionDenied
    | NotFound | SessionExpired | RateLimited | InternalError

  function StatusByte(s: StatusCode): byte {
    match s
    case Success => 0
    case BadRequest => 1
    case Unauthenticated => 2
    case PermissionDenied => 3
    case NotFound => 4
    case SessionExpired => 5
    case RateLimited => 6
    case InternalError => 7
  }

  function StatusFromByte(b: byte): Option<StatusCode> {
    if b == 0 then Some(Success)
    else if b == 1 then Some(BadRequest)
    else if b == 2 then Some(Unauthenticated)
    else if b == 3 then Some(PermissionDenied)
    else if b == 4 then Some(NotFound)
    else if b == 5 then Some(SessionExpired)
    else if b == 6 then Some(RateLimited)
    else if b == 7 then Some(InternalError)
    else None
  }

  datatype Response = Response(status: StatusCode, payload: Option<seq<Entry>>, seqno: u32)

  datatype RequestError =
    | BadFrame(frame: FrameError)
    | BadSession(session: SessionError)
    | RequestTooShort
    | UnknownStatus(code: byte)

  // ── Bodies ─────────────────────────────────────────────────

  function PayloadSuffix(payload: Option<seq<Entry>>): seq<byte> {
    match payload
    case None => []
    case Some(es) => Encode(Map(es))
  }

  /** Encrypts under a key, or passes the plaintext on without one. */
  function Protect(a: Aead, key: Option<seq<byte>>, nonce: Nonce, p: seq<byte>): Result<seq<byte>, RequestError> {
    match key
    case None => Ok(p)
    case Some(k) =>
      match Encrypt(a, k, nonce, p)
      case Ok(c) => Ok(c)
      case Err(e) => Err(BadSession(e))
  }

  function Unprotect(a: Aead, key: Option<seq<byte>>, data: seq<byte>): Result<seq<byte>, RequestError> {
    match key
    case None => Ok(data)
    case Some(k) =>
      match Decrypt(a, k, data)
      case Ok(p) => Ok(p)
      case Err(e) => Err(BadSession(e))
  }

  function RequestPlaintext(req: Request): seq<byte> { BE(req.opcode, 2) + PayloadSuffix(req.payload) }

  function ResponsePlaintext(resp: Response): seq<byte> { [StatusByte(resp.status)] + PayloadSuffix(resp.payload) }

  function ReadRequestPlaintext(p: seq<byte>): Result<Request, RequestError> {
    if |p| < 2 then Err(RequestTooShort)
    else
      BEOfFromBE(p[..2]);
      Widths();
      Ok(Request(FromBE(p[..2]), if |p| > 2 then DecodeMapOpt(p[2..]) else None))
  }

  function ReadResponsePlaintext(p: seq<byte>, seqno: u32): Result<Response, RequestError> {
    if p == [] then Err(RequestTooShort)
    else
      match StatusFromByte(p[0])
      case None => Err(UnknownStatus(p[0]))
      case Some(s) => Ok(Response(s, if |p| > 1 then DecodeMapOpt(p[1..]) else None, seqno))
  }

  /** `decode_request` on `seq || body`. */
  function DecodeRequest(a: Aead, key: Option<seq<byte>>, wire: seq<byte>): Result<(Request, u32), RequestError> {
    match ParseFrameData(wire)
    case Err(e) => Err(BadFrame(e))
    case Ok(f) =>
      match Unprotect(a, key, f.data)
      case Err(e) => Err(e)
      case Ok(p) =>
        match ReadRequestPlaintext(p)
        case Err(e) => Err(e)
        case Ok(req) => Ok((req, f.seqno))
  }

  /** `decode_response` on `seq || body`. */
  function DecodeResponse(a: Aead, key: Option<seq<byte>>, wire: seq<byte>): Result<Response, RequestError> {
    match ParseFrameData(wire)
    case Err(e) => Err(BadFrame(e))
    case Ok(f) =>
      match Unprotect(a, key, f.data)
      case Err(e) => Err(e)
      case Ok(p) => ReadResponsePlaintext(p, f.seqno)
  }

  // ── Messages on a stream ───────────────────────────────────

  /** A body under a key, framed: what `do_` and the server write, or why they write nothing. */
  function Send(a: Aead, key: Option<seq<byte>>, nonce: Nonce, seqno: u32, plaintext: seq<byte>)
    : Result<seq<byte>, RequestError>
  {
    match Protect(a, key, nonce, plaintext)
    case Err(e) => Err(e)
    case Ok(body) =>
      match EncodeFrame(seqno, body)
      case Err(e) => Err(BadFrame(e))
      case Ok(bytes) => Ok(bytes)
  }

  /** `read_request_async`: one frame off the stream, and the rest of it. */
  function ReceiveRequest(a: Aead, key: Option<seq<byte>>, stream: seq<byte>)
    : (Result<(Request, u32), RequestError>, seq<byte>)
  {
    var (f, rest) := ReadFrame(stream);
    match f
    case Err(e) => (Err(BadFrame(e)), rest)
    case Ok(frame) => (DecodeRequest(a, key, BE(frame.seqno, 4) + frame.data), rest)
  }

  /** How the client reads a response: length, size check, that many bytes, `decode_response`. */
  function ReceiveResponse(a: Aead, key: Option<seq<byte>>, stream: seq<byte>)
    : (Result<Response, RequestError>, seq<byte>)
  {
    if |stream| < 4 then (Err(BadFrame(Io)), [])
    else
      var len := FromBE(stream[..4]);
      var body := stream[4..];
      if len > MAX_FRAME_SIZE then (Err(BadFrame(TooLarge(len))), body)
      else if |body| < len then (Err(BadFrame(Io)), [])
      else (DecodeResponse(a, key, body[..len]), body[len..])
  }

  // ── What arrives ───────────────────────────────────────────

  predicate GoodPayload(payload: Option<seq<Entry>>) {
    payload.Some? ==> WellFormed(Map(payload.value)) && |Encode(Map(payload.value))| < TWO32 - 64
  }

  predicate GoodKey(key: Option<seq<byte>>) { key.Some? ==> |key.value| == KEY_SIZE }

  /** The most plaintext a frame takes under a key, or without one. */
  function Limit(key: Option<seq<byte>>): nat {
    if key.Some? then MaxSafePayload() else MAX_FRAME_SIZE - 4
  }

  /** The receiver's view of a payload: a map outside the TLV caps silently becomes none. */
  function Seen(payload: Option<seq<Entry>>): Option<seq<Entry>> {
    match payload
    case None => None
    case Some(es) => if Fits(Map(es), 0) then Some(NormEntries(es)) else None
  }

  /** A response with this payload fits in an encrypted frame. */
  predicate ReplyFits(payload: Option<seq<Entry>>) { 1 + |PayloadSuffix(payload)| <= MaxSafePayload() }

  /** What the receiver makes of a payload; no payload and an empty map are told apart. */
  lemma PayloadSeen(payload: Option<seq<Entry>>)
    requires GoodPayload(payload)
    ensures DecodeMapOpt(PayloadSuffix(payload)) == Seen(payload)
    ensures payload.Some? <==> |PayloadSuffix(payload)| > 0
    ensures payload == Some([]) ==> Seen(payload) == payload
  {
    if payload.Some? {
      var v := Map(payload.value);
      InnerPayloadsSmaller(v);
      RoundTripDomain(v);
    }
  }

  /** Everything the TLV decoder accepts fits in a frame. */
  lemma AcceptedPayloadsSendable(payload: Option<seq<Entry>>)
    requires payload.Some? ==> |Payload(Map(payload.value))| <= MAX_PAYLOAD_SIZE
    ensures |PayloadSuffix(payload)| + 2 <= MaxSafePayload()
  {
    if payload.Some? {
      var v := Map(payload.value);
      VarintAtMostTen(|Payload(v)|);
      TaggedLength(TypeByte(v), Payload(v));
    }
  }

  /** A plaintext is sent exactly within the limit, and arrives whole with its sequence number. */
  lemma BodyArrives(a: Aead, key: Option<seq<byte>>, nonce: Nonce, seqno: u32, p: seq<byte>, rest: seq<byte>)
    requires Lawful(a) && GoodKey(key) && |p| < TWO32 - 32
    ensures var s := Send(a, key, nonce, seqno, p);
            && (s.Ok? <==> |p| <= Limit(key))
            && (s.Ok? ==>
                  exists body: seq<byte> {:trigger Unprotect(a, key, body)} ::
                    && |body| <= MAX_FRAME_SIZE - 4
                    && s.value == Layout(4 + |body|, seqno, body)
                    && Unprotect(a, key, body) == Ok(p)
                    && ReadFrame(s.value + rest) == (Ok(Frame(seqno, body)), rest))
  {
    hide ReadFrame, Layout;
    if key.Some? {
      DecryptOfEncrypt(a, key.value, nonce, p);
    }
    var body := Protect(a, key, nonce, p).value;
    assert Unprotect(a, key, body) == Ok(p);
    if |body| <= MAX_FRAME_SIZE - 4 {
      ReadOfLayout(seqno, body, rest);
    }
  }

  /**
   The outcome of one request, end to end: it is sent exactly when the plaintext is within the
   limit; what is sent arrives with the same opcode and sequence number; its payload is the one
   sent, up to normal form, when the TLV caps hold and none when they do not; nothing after the
   frame is consumed.
   */
  lemma RequestOutcome(a: Aead, key: Option<seq<byte>>, nonce: Nonce, seqno: u32, req: Request, rest: seq<byte>)
    requires Lawful(a) && GoodKey(key) && GoodPayload(req.payload)
    ensures var s := Send(a, key, nonce, seqno, RequestPlaintext(req));
            && (s.Ok? <==> 2 + |PayloadSuffix(req.payload)| <= Limit(key))
            && (s.Ok? ==> ReceiveRequest(a, key, s.value + rest) ==
                          (Ok((Request(req.opcode, Seen(req.payload)), seqno)), rest))
            && (Seen(req.payload).Some? ==> s.Ok?)
  {
    hide ReadFrame, Send, Layout, Encode;
    var p := RequestPlaintext(req);
    BodyArrives(a, key, nonce, seqno, p, rest);
    if Seen(req.payload).Some? {
      AcceptedPayloadsSendable(req.payload);
    }
    var s := Send(a, key, nonce, seqno, p);
    if s.Ok? {
      var body: seq<byte> :|
        && Unprotect(a, key, body) == Ok(p)
        && ReadFrame(s.value + rest) == (Ok(Frame(seqno, body)), rest);
      ParseOfLayout(seqno, body);
      RequestPlaintextRead(req);
    }
  }

  lemma RequestPlaintextRead(req: Request)
    requires GoodPayload(req.payload)
    ensures ReadRequestPlaintext(RequestPlaintext(req)) == Ok(Request(req.opcode, Seen(req.payload)))
  {
    var p := RequestPlaintext(req);
    Widths();
    FromBEOfBE(req.opcode, 2);
    assert p[..2] == BE(req.opcode, 2) && p[2..] == PayloadSuffix(req.payload);
    PayloadSeen(req.payload);
  }

  /** The outcome of one response, likewise; the sequence number is the frame's, not the handler's. */
  lemma ResponseOutcome(a: Aead, key: Option<seq<byte>>, nonce: Nonce, seqno: u32, resp: Response, rest: seq<byte>)
    requires Lawful(a) && GoodKey(key) && GoodPayload(resp.payload)
    ensures var s := Send(a, key, nonce, seqno, ResponsePlaintext(resp));
            && (s.Ok? <==> 1 + |PayloadSuffix(resp.payload)| <= Limit(key))
            && (s.Ok? ==> ReceiveResponse(a, key, s.value + rest) ==
                          (Ok(Response(resp.status, Seen(resp.payload), seqno)), rest))
            && (Seen(resp.payload).Some? ==> s.Ok?)
  {
    hide ReadFrame, Send, Layout, Encode, ReadResponsePlaintext, ReceiveResponse;
    var p := ResponsePlaintext(resp);
    BodyArrives(a, key, nonce, seqno, p, rest);
    if Seen(resp.payload).Some? {
      AcceptedPayloadsSendable(resp.payload);
    }
    var s := Send(a, key, nonce, seqno, p);
    if s.Ok? {
      var body: seq<byte> :|
        && |body| <= MAX_FRAME_SIZE - 4
        && s.value == Layout(4 + |body|, seqno, body)
        && Unprotect(a, key, body) == Ok(p);
      ResponseFrameRead(a, key, seqno, body, rest);
      ResponsePlaintextRead(resp, seqno);
    }
  }

  lemma ResponsePlaintextRead(resp: Response, seqno: u32)
    requires GoodPayload(resp.payload)
    ensures ReadResponsePlaintext(ResponsePlaintext(resp), seqno) ==
            Ok(Response(resp.status, Seen(resp.payload), seqno))
  {
    hide Encode;
    var p := ResponsePlaintext(resp);
    assert p[1..] == PayloadSuffix(resp.payload);
    PayloadSeen(resp.payload);
  }

  lemma ResponseFrameRead(a: Aead, key: Option<seq<byte>>, seqno: u32, body: seq<byte>, rest: seq<byte>)
    requires |body| <= MAX_FRAME_SIZE - 4
    ensures ReceiveResponse(a, key, Layout(4 + |body|, seqno, body) + rest) ==
            (DecodeResponse(a, key, BE(seqno, 4) + body), rest)
    ensures ParseFrameData(BE(seqno, 4) + body) == Ok(Frame(seqno, body))
  {
    hide DecodeResponse, Layout;
    LayoutParts(4 + |body|, seqno, body, rest);
    ParseOfLayout(seqno, body);
    var all := BE(seqno, 4) + body + rest;
    assert all[..4 + |body|] == BE(seqno, 4) + body && all[4 + |body|..] == rest;
  }

  // ── Exactly ────────────────────────────────────────────────

  /** The status codes in the order of their numbers on the wire. */
  const STATUS_CODES: seq<StatusCode> := [
    Success, BadRequest, Unauthenticated, PermissionDenied, NotFound, SessionExpired, RateLimited, InternalError]

  lemma StatusNumbers(s: StatusCode, b: byte)
    ensures StatusByte(s) < |STATUS_CODES| && STATUS_CODES[StatusByte(s)] == s
    ensures StatusFromByte(b) == if b < |STATUS_CODES| then Some(STATUS_CODES[b]) else None
  {
  }

  /** A body carries a plaintext: itself, or under a key what its nonce and ciphertext open to. */
  ghost predicate Carries(a: Aead, key: Option<seq<byte>>, body: seq<byte>, p: seq<byte>) {
    match key
    case None => p == body
    case Some(k) => |body| >= 28 && |k| == 32 && a.open(k, body[..12], body[12..]) == Some(p)
  }

  lemma UnprotectExactly(a: Aead, key: Option<seq<byte>>, body: seq<byte>, p: seq<byte>)
    ensures Unprotect(a, key, body) == Ok(p) <==> Carries(a, key, body, p)
  {
  }

  /** The map a suffix holds, if it holds one. */
  lemma MapOptExactly(buf: seq<byte>, es: seq<Entry>)
    ensures DecodeMapOpt(buf) == Some(es) <==> Decode(buf) == Ok(Map(es))
  {
  }

  ghost predicate RequestForm(a: Aead, key: Option<seq<byte>>, req: Request, body: seq<byte>, p: seq<byte>) {
    && Carries(a, key, body, p)
    && |p| >= 2 && req.opcode == Two(p) && req.payload == DecodeMapOpt(p[2..])
  }

  /** A request is read exactly from one frame whose body carries an opcode and an optional map. */
  lemma RequestReadExactly(a: Aead, key: Option<seq<byte>>, stream: seq<byte>, req: Request, seqno: u32,
                           rest: seq<byte>)
    ensures ReceiveRequest(a, key, stream) == (Ok((req, seqno)), rest) <==>
            exists body, p :: Sendable(Frame(seqno, body)) && stream == Wire(Frame(seqno, body)) + rest
                              && RequestForm(a, key, req, body, p)
  {
    hide ReadFrame, Wire, Unprotect, DecodeMapOpt, Two, FromBE, Carries;
    if ReceiveRequest(a, key, stream) == (Ok((req, seqno)), rest) {
      var f := ReadFrame(stream).0.value;
      ReadFrameExactly(stream, f, rest);
      ParseOfLayout(f.seqno, f.data);
      var p := Unprotect(a, key, f.data).value;
      UnprotectExactly(a, key, f.data, p);
      RequestParts(p);
      assert RequestForm(a, key, req, f.data, p);
    }
    forall body, p | Sendable(Frame(seqno, body)) && stream == Wire(Frame(seqno, body)) + rest
                     && RequestForm(a, key, req, body, p)
      ensures ReceiveRequest(a, key, stream) == (Ok((req, seqno)), rest)
    {
      ReadFrameExactly(stream, Frame(seqno, body), rest);
      ParseOfLayout(seqno, body);
      UnprotectExactly(a, key, body, p);
      RequestParts(p);
    }
  }

  lemma RequestParts(p: seq<byte>)
    ensures |p| < 2 ==> ReadRequestPlaintext(p) == Err(RequestTooShort)
    ensures |p| >= 2 ==> ReadRequestPlaintext(p) == Ok(Request(Two(p), DecodeMapOpt(p[2..])))
  {
    FromBigEndian(p);
    if |p| == 2 { assert p[2..] == []; }
  }

  ghost predicate ResponseForm(a: Aead, key: Option<seq<byte>>, resp: Response, body: seq<byte>, p: seq<byte>) {
    && Carries(a, key, body, p)
    && |p| >= 1 && p[0] < |STATUS_CODES| && resp.status == STATUS_CODES[p[0]] && resp.payload == DecodeMapOpt(p[1..])
  }

  /** A response likewise: a status number and an optional map. */
  lemma ResponseReadExactly(a: Aead, key: Option<seq<byte>>, stream: seq<byte>, resp: Response, rest: seq<byte>)
    ensures ReceiveResponse(a, key, stream) == (Ok(resp), rest) <==>
            exists body, p :: Sendable(Frame(resp.seqno, body)) && stream == Wire(Frame(resp.seqno, body)) + rest
                              && ResponseForm(a, key, resp, body, p)
  {
    hide Wire, Layout, Unprotect, DecodeMapOpt, FromBE, Carries, ReadResponsePlaintext, StatusFromByte;
    if ReceiveResponse(a, key, stream) == (Ok(resp), rest) {
      var f := ResponseFrame(a, key, stream);
      ReadFrameExactly(stream, f, rest);
      var p := Unprotect(a, key, f.data).value;
      UnprotectExactly(a, key, f.data, p);
      ResponseParts(p, f.seqno);
      assert ResponseForm(a, key, resp, f.data, p);
    }
    forall body, p | Sendable(Frame(resp.seqno, body)) && stream == Wire(Frame(resp.seqno, body)) + rest
                     && ResponseForm(a, key, resp, body, p)
      ensures ReceiveResponse(a, key, stream) == (Ok(resp), rest)
    {
      WireIs(resp.seqno, body);
      ResponseFrameRead(a, key, resp.seqno, body, rest);
      UnprotectExactly(a, key, body, p);
      ResponseParts(p, resp.seqno);
    }
  }

  lemma WireIs(seqno: u32, body: seq<byte>)
    ensures Wire(Frame(seqno, body)) == Layout(4 + |body|, seqno, body)
  {
  }

  /** The client cuts out the same frame as `read_frame`. */
  lemma ResponseFrame(a: Aead, key: Option<seq<byte>>, stream: seq<byte>) returns (f: Frame)
    requires ReceiveResponse(a, key, stream).0.Ok?
    ensures ReadFrame(stream) == (Ok(f), ReceiveResponse(a, key, stream).1)
    ensures Unprotect(a, key, f.data).Ok?
    ensures ReadResponsePlaintext(Unprotect(a, key, f.data).value, f.seqno) == ReceiveResponse(a, key, stream).0
  {
    hide Unprotect, ReadResponsePlaintext, FromBE;
    f := ReadFrame(stream).0.value;
  }

  lemma ResponseParts(p: seq<byte>, seqno: u32)
    ensures p == [] ==> ReadResponsePlaintext(p, seqno) == Err(RequestTooShort)
    ensures p != [] && p[0] >= |STATUS_CODES| ==> ReadResponsePlaintext(p, seqno) == Err(UnknownStatus(p[0]))
    ensures p != [] && p[0] < |STATUS_CODES| ==>
              ReadResponsePlaintext(p, seqno) == Ok(Response(STATUS_CODES[p[0]], DecodeMapOpt(p[1..]), seqno))
  {
    if p != [] {
      StatusNumbers(Success, p[0]);
    }
    if |p| == 1 { assert p[1..] == []; }
  }

  /** Why a request is refused: the frame, the cipher, or too little inside. */
  lemma RequestRefused(a: Aead, key: Option<seq<byte>>, stream: seq<byte>, seqno: u32, body: seq<byte>, rest: seq<byte>)
    ensures ReadFrame(stream).0.Err? ==>
              ReceiveRequest(a, key, stream) == (Err(BadFrame(ReadFrame(stream).0.error)), ReadFrame(stream).1)
    ensures Sendable(Frame(seqno, body)) && stream == Wire(Frame(seqno, body)) + rest ==>
              var r := ReceiveRequest(a, key, stream);
              && r.1 == rest
              && (SealedWrong(a, key, body).Some? ==> r.0 == Err(BadSession(SealedWrong(a, key, body).value)))
              && (forall p :: Carries(a, key, body, p) && |p| < 2 ==> r.0 == Err(RequestTooShort))
  {
    hide ReadFrame, Wire, ReadRequestPlaintext;
    if Sendable(Frame(seqno, body)) && stream == Wire(Frame(seqno, body)) + rest {
      ReadFrameExactly(stream, Frame(seqno, body), rest);
      ParseOfLayout(seqno, body);
      UnprotectRefused(a, key, body);
      forall p | Carries(a, key, body, p) && |p| < 2 ensures ReceiveRequest(a, key, stream).0 == Err(RequestTooShort) {
        UnprotectExactly(a, key, body, p);
        RequestParts(p);
      }
    }
  }

  /** What is wrong with a body under a key, if anything. */
  function SealedWrong(a: Aead, key: Option<seq<byte>>, body: seq<byte>): Option<SessionError> {
    match key
    case None => None
    case Some(k) =>
      if |body| < 28 then Some(CiphertextTooShort)
      else if |k| != 32 then Some(InvalidKeyLength)
      else if a.open(k, body[..12], body[12..]) == None then Some(OpenFailed)
      else None
  }

  lemma UnprotectRefused(a: Aead, key: Option<seq<byte>>, body: seq<byte>)
    ensures SealedWrong(a, key, body).Some? ==>
              Unprotect(a, key, body) == Err(BadSession(SealedWrong(a, key, body).value))
  {
  }

  /** Why a client gets no response: the stream ends, the frame is too large or too short, the cipher, the status. */
  lemma ResponseRefused(a: Aead, key: Option<seq<byte>>, stream: seq<byte>, seqno: u32, body: seq<byte>, rest: seq<byte>)
    ensures |stream| < 4 ==> ReceiveResponse(a, key, stream) == (Err(BadFrame(Io)), [])
    ensures |stream| >= 4 ==>
              var len := Four(stream);
              && (len > 1_048_576 ==> ReceiveResponse(a, key, stream) == (Err(BadFrame(TooLarge(len))), stream[4..]))
              && (|stream| - 4 < len <= 1_048_576 ==> ReceiveResponse(a, key, stream) == (Err(BadFrame(Io)), []))
              && (len < 4 && len <= |stream| - 4 ==>
                    ReceiveResponse(a, key, stream) == (Err(BadFrame(TooShort(len))), stream[4 + len..]))
    ensures Sendable(Frame(seqno, body)) && stream == Wire(Frame(seqno, body)) + rest ==>
              var r := ReceiveResponse(a, key, stream);
              && r.1 == rest
              && (SealedWrong(a, key, body).Some? ==> r.0 == Err(BadSession(SealedWrong(a, key, body).value)))
              && (Carries(a, key, body, []) ==> r.0 == Err(RequestTooShort))
              && (forall p :: Carries(a, key, body, p) && p != [] && p[0] >= 8 ==> r.0 == Err(UnknownStatus(p[0])))
  {
    FromBigEndian(stream);
    if |stream| >= 4 && Four(stream) <= |stream| - 4 {
      assert stream[4..][Four(stream)..] == stream[4 + Four(stream)..];
    }
    hide Wire, ReadResponsePlaintext, FromBE, Four, Unprotect;
    if Sendable(Frame(seqno, body)) && stream == Wire(Frame(seqno, body)) + rest {
      ResponseBodyRefused(a, key, seqno, body, rest);
    }
  }

  lemma ResponseBodyRefused(a: Aead, key: Option<seq<byte>>, seqno: u32, body: seq<byte>, rest: seq<byte>)
    requires Sendable(Frame(seqno, body))
    ensures var r := ReceiveResponse(a, key, Wire(Frame(seqno, body)) + rest);
            && r.1 == rest
            && (SealedWrong(a, key, body).Some? ==> r.0 == Err(BadSession(SealedWrong(a, key, body).value)))
            && (Carries(a, key, body, []) ==> r.0 == Err(RequestTooShort))
            && (forall p :: Carries(a, key, body, p) && p != [] && p[0] >= 8 ==> r.0 == Err(UnknownStatus(p[0])))
  {
    hide ReceiveResponse, Layout, ReadResponsePlaintext, Unprotect, Carries, SealedWrong;
    WireIs(seqno, body);
    ResponseFrameRead(a, key, seqno, body, rest);
    UnprotectRefused(a, key, body);
    UnprotectExactly(a, key, body, []);
    ResponseParts([], seqno);
    forall p | Carries(a, key, body, p) && p != [] && p[0] >= 8
      ensures ReceiveResponse(a, key, Wire(Frame(seqno, body)) + rest).0 == Err(UnknownStatus(p[0]))
    {
      UnprotectExactly(a, key, body, p);
      ResponseParts(p, seqno);
    }
  }

  /** What is written under a key: length, sequence number, nonce, and the sealed plaintext. */
  lemma SentBytes(a: Aead, k: seq<byte>, nonce: Nonce, seqno: u32, p: seq<byte>)
    requires Lawful(a) && |k| == 32 && |p| <= 1_048_544
    ensures a.seal(k, nonce, p).Some? && |a.seal(k, nonce, p).value| == |p| + 16
    ensures Send(a, Some(k), nonce, seqno, p) == Ok(Wire(Frame(seqno, nonce + a.seal(k, nonce, p).value)))
  {
    hide Layout;
  }

  /** The plaintexts: opcode or status number, then the encoding of the map if there is one. */
  lemma PlaintextBytes(req: Request, resp: Response)
    ensures var p := RequestPlaintext(req);
            |p| >= 2 && Two(p) == req.opcode
            && p[2..] == if req.payload == None then [] else Encode(Map(req.payload.value))
    ensures var p := ResponsePlaintext(resp);
            p != [] && p[0] < |STATUS_CODES| && STATUS_CODES[p[0]] == resp.status
            && p[1..] == if resp.payload == None then [] else Encode(Map(resp.payload.value))
  {
    hide Encode, BE;
    TwoOf(req.opcode);
    StatusNumbers(resp.status, 0);
  }

  // ── Body builders ──────────────────────────────────────────

  method BuildPlaintext(head: seq<byte>, payload: Option<seq<Entry>>) returns (plaintext: seq<byte>)
    requires payload.Some? ==> |Encode(Map(payload.value))| < TWO64
    ensures plaintext == head + PayloadSuffix(payload)
  {
    var buf := new ByteVec();
    buf.Extend(head);
    if payload.Some? {
      var tlv := EncodeValue(Map(payload.value));
      buf.Extend(tlv);
    }
    plaintext := buf.data;
  }

  method EncodeRequestBody(a: Aead, key: Option<seq<byte>>, nonce: Nonce, req: Request)
    returns (r: Result<seq<byte>, RequestError>)
    requires req.payload.Some? ==> |Encode(Map(req.payload.value))| < TWO64
    ensures r == Protect(a, key, nonce, RequestPlaintext(req))
  {
    var p := BuildPlaintext(BE(req.opcode, 2), req.payload);
    r := Protect(a, key, nonce, p);
  }

  method EncodeResponseBody(a: Aead, key: Option<seq<byte>>, nonce: Nonce, resp: Response)
    returns (r: Result<seq<byte>, RequestError>)
    requires resp.payload.Some? ==> |Encode(Map(resp.payload.value))| < TWO64
    ensures r == Protect(a, key, nonce, ResponsePlaintext(resp))
  {
    var p := BuildPlaintext([StatusByte(resp.status)], resp.payload);
    r := Protect(a, key, nonce, p);
  }

  method ReadRequestFrom(r: ByteSource, a: Aead, key: Option<seq<byte>>)
    returns (req: Result<(Request, u32), RequestError>)
    modifies r
    ensures (req, r.rest) == ReceiveRequest(a, key, old(r.rest))
  {
    var f := ReadFrameFrom(r);
    if f.Err? {
      return Err(BadFrame(f.error));
    }
    req := DecodeRequest(a, key, BE(f.value.seqno, 4) + f.value.data);
  }
}
