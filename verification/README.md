# Hush in Dafny

Hush is a binary RPC protocol over QUIC or TLS-over-TCP. This project models its wire format and the
state machines above it, and proves what holds of them for all inputs and all interleavings.

| file | what it models |
|---|---|
| `Bytes.dfy`, `Wrappers.dfy` | bytes, integer widths, big-endian layout, UTF-8, results |
| `Utf8.dfy` | UTF-8 from the side of the code points |
| `Leb128.dfy` | variable-length lengths: the encoder and decoder loops and the arithmetic of 7-bit groups |
| `Tlv.dfy` | values, and the functions that say what the TLV encoder and decoder compute |
| `TlvCode.dfy` | the loops of the TLV encoder and decoder and the map edited in place, proved to compute those functions |
| `TlvRoundTrip.dfy` | decoding an encoding; telling encodings apart |
| `TlvNormalForm.dfy` | what the decoder accepts beyond encodings; its work; decoded maps |
| `TlvGrammar.dfy` | the TLV wire format as a grammar, apart from the decoder; what the decoder refuses and why |
| `Crypto.dfy` | the guards around the cipher, over any lawful AEAD |
| `Frames.dfy` | length-prefixed frames and byte streams of many frames |
| `Requests.dfy`, `Dispatch.dfy` | request and response bodies end to end; the TCP loop's answers |
| `TcpPairing.dfy` | many client calls sharing one TCP connection with the server loop, as a step machine over bytes in flight |
| `TcpTrace.dfy` | what those calls get, told by the steps of the run alone |
| `TcpLiveness.dfy` | progress of those calls: when each returns, and when the connection is stuck |
| `Stores.dfy` | the session store and the media token store, and runs of the latter |
| `ServerRuns.dfy` | one server over time: builder calls, accepts, sessions, QUIC request streams, garbage collection, tokens |
| `ServerTrace.dfy` | that server's promises in elapsed time and in the bytes of handshakes and requests |
| `ServerCode.dfy` | the server object over its stores, each method a step of such a run |
| `Hubs.dfy` | publish and subscribe with a two-step publish |
| `Handshake.dfy` | key agreement over a pair of byte streams |

How to read the model:

- Loops and in-place updates of the Rust code are methods over classes (`ByteVec`, `MapCell`,
  `ByteSource`, `SessionStore`, `TokenStore`, `Server`, `Hub`). Each is proved against a function, and the laws
  are lemmas about those functions. Code that runs concurrently is a machine of atomic steps
  (`Enabled`, `Apply`), and its laws are about every legal sequence of steps.
- A function such as `Decode`, `TcpAnswer` or `IdleDead` only says what the code computes. What it has
  to mean is stated beside it without naming it: as a grammar, as bytes and sums of bytes, as elapsed
  time, or as the steps of a run.
- Strings are their UTF-8 bytes and floats their bits. A timestamp is seconds and nanoseconds; the
  wire keeps whole milliseconds modulo 2^64, and `Norm` is what is left of a value after that.
- The cipher, Diffie-Hellman, the key derivation and lossy UTF-8 decoding are functions that obey the
  laws stated in `Lawful` and `LawfulSuite`; lemmas show that the laws can be met. Nonces, token ids
  and the clock are parameters.
- A Rust vector holds fewer than 2^63 bytes; lemmas about lengths assume less than 2^64.
- `encode_frame` casts a length to `u32` and adds 4. The model adds modulo 2^32, as release builds do.

Five places where a plain reading of the code promises more than it does, each with the exact condition:

- `encode_frame` accepts 4 GiB of data and writes a frame that reads back empty
  (`Frames.FourGigabytesAccepted`); frames round-trip exactly up to 2^20 - 4 bytes
  (`Frames.FrameRoundTripDomain`).
- A key id of more than 256 bytes reaches the server with its length modulo 2^16. It is accepted,
  under another id, exactly when that leaves 0 with a listener (a named client becomes anonymous) or
  at most 256 bytes that name a key the server knows (`Handshake.LongIdMistaken`): 2^16 + 1 letters
  `a` are taken for the id `a` (`Handshake.LongIdTakenForAnother`). The two sides agree exactly up to
  256 bytes (`Handshake.AgreementDomain`).
- `with_session_config` after `with_media` leaves the token validator watching a store that stays
  empty, and every validation is refused (`ServerRuns.ValidInRun`); a token can be used at all exactly
  in the other order (`ServerRuns.TokensUsableExactly`).
- The TCP loop drops a reply that is too large for a frame. The caller then waits for good, holding
  the connection's mutex, and so does every later call (`TcpLiveness.WedgeLasts`). This happens
  exactly when a reply exceeds `max_safe_payload()` (`TcpLiveness.WedgedExactly`), and can happen
  exactly when some handler answers over TCP (`TcpLiveness.WedgesExactly`).
- The next session id is new exactly while fewer than 2^64 were handed out
  (`ServerRuns.NewIdExactly`).

The repository's README.md says an anonymous session key comes from the key exchange alone; the code
also mixes in the fixed string `hush-anonymous`, and the model follows the code.

## Model

| member | source | states |
|---|---|---|
| `Leb128.EncodeVarint` | src/tlv.rs:389-401 | the loop appends the 7-bit groups of any u64, and nothing else |
| `Leb128.DecodeVarint` | src/tlv.rs:403-417 | on every buffer the or/shift loop yields the weighted sum of the groups modulo 2^64 and the bytes taken, or the right error; the shift never exceeds 63 |
| `Leb128.OrGroup` | src/tlv.rs:410 | or-ing a group in at any of the ten shifts adds it at weight 128^i modulo 2^64, lost top bits included |
| `Leb128.ReadOfVarint` | src/tlv.rs:389-417 | every u64 is read back in front of any bytes, from at most ten bytes |
| `Leb128.VarintLength` | src/tlv.rs:389-401 | the encoding has at most k bytes exactly when the number is below 128^k: the group count is minimal |
| `Leb128.VarintShortest` | src/tlv.rs:389-417 | whatever padded form was read, no number up to it encodes in more bytes than were taken |
| `Leb128.VarintPrefixFree` | src/tlv.rs:389-401 | no length encoding is a prefix of another |
| `TlvCode.MapCell.Insert` | src/tlv.rs:93-101 | `set` overwrites the first entry under the key in place or appends, and keeps keys distinct |
| `TlvCode.MapCell.Lookup` | src/tlv.rs:103-105 | `get` finds the first entry under the key, or none |
| `TlvCode.EncodeValue` | src/tlv.rs:174-178 | `encode` returns exactly the specified bytes |
| `TlvCode.EncodeInto` | src/tlv.rs:180-187 | appends exactly the specified bytes to what the buffer held |
| `TlvCode.PayloadBytes` | src/tlv.rs:209-240 | each type's payload, containers through their loops |
| `TlvCode.ArrayPayload` | src/tlv.rs:224-230 | the array loop produces the elements' encodings in order |
| `TlvCode.MapPayload` | src/tlv.rs:231-238 | the map loop produces each key as a string value, then its value, in order |
| `TlvCode.DecodeHeader` | src/tlv.rs:259-288 | depth, end of input, type, length, cap and bounds checks, in this order, at any position |
| `TlvCode.DecodeValue` | src/tlv.rs:258-385 | at any position and depth the recursive loops return the specified value or error and advance past exactly its bytes; at most half the remaining bytes plus one calls are made |
| `TlvCode.DecodePayload` | src/tlv.rs:290-382 | the arm for each type byte, error cases included, with its share of the calls |
| `TlvCode.DecodeArray` | src/tlv.rs:356-364 | the array loop reads elements until the payload is used up, or stops at the first error |
| `TlvCode.DecodeMap` | src/tlv.rs:365-381 | the map loop sets every pair in order, or stops at the first error |
| `TlvCode.DecodePair` | src/tlv.rs:369-377 | a pair needs a string key and a value after it |
| `TlvCode.DecodeBuffer` | src/tlv.rs:244-248 | `decode` starts at position 0 and depth 0 and ignores what follows the value |
| `TlvCode.DecodeMapOption` | src/tlv.rs:425-430 | empty input, any decode error and any non-map become none |
| `Utf8.ValidExactly` | src/tlv.rs:291-294 | a string payload is accepted exactly if it is the UTF-8 encoding of some Unicode scalar values |
| `TlvGrammar.ParseExactly` | src/tlv.rs:258-385 | on every buffer, depth, value and length, `decode_value` reads that value from that many bytes if and only if they are one of its forms: a grammar of length fields, byte-by-byte scalars, arrays and string-keyed maps, nested at most 64 deep |
| `TlvGrammar.PaddedScalarRead` | src/tlv.rs:296-355 | a fixed-width scalar is read from the front of its payload, whatever bytes pad it |
| `TlvGrammar.BoolRead` | src/tlv.rs:343-346 | every first byte but zero is true, padded or not |
| `TlvGrammar.EncodedScalar` | src/tlv.rs:189-223 | type number, length and payload of every scalar, byte by byte |
| `TlvGrammar.HeaderRefused` | src/tlv.rs:259-288 | each error before the payload, for exactly the bytes that cause it |
| `TlvGrammar.PayloadRefused` | src/tlv.rs:290-382 | each error in a payload: bad text, short scalars, and in containers the first element, key or value that fails, however many good ones come before |
| `TlvRoundTrip.RoundTripDomain` | src/tlv.rs:174-288 | `decode(encode(v))` succeeds if and only if nesting is at most 64 levels and the outermost payload at most 524288 bytes, and is then v up to millisecond truncation |
| `TlvRoundTrip.WholeMillis` | src/tlv.rs:223 | a timestamp's wire form is its number of whole milliseconds modulo 2^64; below that, what is decoded is the latest whole millisecond not after it |
| `TlvRoundTrip.NormKeepsTheRest` | src/tlv.rs:209-240 | normal form changes timestamps only, at any depth |
| `TlvRoundTrip.ParseOfEncode` | src/tlv.rs:258-288 | the same at any starting depth, in front of any bytes, consuming exactly the encoding |
| `TlvRoundTrip.InnerPayloadsSmaller` | src/tlv.rs:209-240 | everything inside a container has a strictly smaller payload, so only the outermost meets the cap |
| `TlvRoundTrip.EncodingsDistinct` | src/tlv.rs:180-240 | encodings of any size and depth are prefix-free: equal starts mean equal normal forms and equal rests |
| `TlvRoundTrip.EncodeInjective` | src/tlv.rs:174-240 | two values encode alike if and only if they agree up to millisecond truncation |
| `TlvNormalForm.ParseShrinks` | src/tlv.rs:258-385 | any accepted value is well formed, in normal form, inside both caps, and re-encodes in no more bytes than were read for it |
| `TlvNormalForm.SetGrowth` | src/tlv.rs:93-101 | overwriting a key never costs more than appending the pair |
| `TlvNormalForm.NormalForm` | src/tlv.rs:180-385 | for every accepted input, however padded, decode-encode-decode gives the same value and a shorter or equal encoding, in front of any bytes |
| `TlvNormalForm.EncodeShortest` | src/tlv.rs:174-288 | the encoding is the shortest of all inputs that decode to a value |
| `TlvNormalForm.SelfDelimiting` | src/tlv.rs:258-288 | an accepted value reads the same from any buffer starting with its bytes and is refused on every strict prefix of them |
| `TlvNormalForm.CallsBound` | src/tlv.rs:258-381 | reading any input, accepted or refused, takes at most half its length plus one calls |
| `TlvGrammar.CallsOfForm` | src/tlv.rs:258-381 | reading an accepted value takes exactly one call for each value in it, keys and containers included |
| `TlvNormalForm.LastWinsFirstPosition` | src/tlv.rs:93-105 | a map built from any list of pairs has distinct keys in order of first occurrence, each with its last value, and `get` agrees with updating a finite map pair by pair |
| `Crypto.DecryptOfEncrypt` | src/session.rs:71-103 | under a 32-byte key encryption adds 28 bytes and decryption undoes it |
| `Crypto.EncryptLayout` | src/session.rs:71-86 | 12 bytes of nonce, then what the cipher sealed; the key length is checked first |
| `Crypto.DecryptExactly` | src/session.rs:88-103 | decryption succeeds if and only if there are at least 28 bytes, the key has 32 and the rest opens under the first 12; both guards' errors exactly |
| `Frames.FrameRoundTripDomain` | src/frame.rs:109-152 | writing then reading a frame works if and only if the data is at most 2^20 - 4 bytes, and leaves the rest of the stream alone; below 4 GiB the size check says exactly this |
| `Frames.FourGigabytesAccepted` | src/frame.rs:142-152 | 2^32 bytes of data pass the size check and read back as an empty frame |
| `Frames.EncryptedFrameBound` | src/frame.rs:8-18 | an encrypted body is accepted if and only if the plaintext is at most `max_safe_payload()`, and the wire form is `wire_overhead()` longer |
| `Frames.TruncationOutcome` | src/frame.rs:109-126 | reading any truncation of a stream of frames returns the frames wholly inside, then `Eof` with fewer than 4 bytes left and an I/O error otherwise |
| `Frames.ReadFrameExactly` | src/frame.rs:109-126 | a read succeeds if and only if the stream starts with the one layout of a frame within the size limit, and consumes exactly that |
| `Frames.ReadFrameRefused` | src/frame.rs:109-126 | each error of a read and what it leaves, from the number in the first four bytes |
| `Frames.WireBytes` | src/frame.rs:128-138 | a frame's first four bytes are its length, the next four its sequence number, the rest its data |
| `Frames.ReadWhole` | src/frame.rs:109-138 | reading a whole stream of frames returns exactly its frames, then `Eof` |
| `Frames.ReadFrameFrom` | src/frame.rs:109-126 | result and remaining bytes of one read, every error included |
| `Frames.WriteFrameTo` | src/frame.rs:128-138 | appends exactly one frame, or nothing when it is too large |
| `Requests.RequestOutcome` | src/frame.rs:170-199 | a request is sent if and only if it is within the limit; it arrives with the same opcode and sequence number, its payload up to normal form when the TLV caps hold and none when they do not, and nothing after it is consumed |
| `Requests.ResponseOutcome` | src/frame.rs:210-240 | the same for a response as the client reads it, with the frame's sequence number |
| `Requests.RequestReadExactly` | src/frame.rs:183-199 | on every stream a request is read if and only if it starts with a frame whose body carries, opened under the key if any, this opcode and map |
| `Requests.ResponseReadExactly` | src/frame.rs:223-240 | the same for a response as the client reads it, with its status number |
| `Requests.RequestRefused` | src/frame.rs:183-199 | each error of reading a request: frame, cipher, or fewer than two bytes inside |
| `Requests.ResponseRefused` | src/client.rs:269-283 | each error of a client's read and what it leaves: cut stream, length, cipher, empty body, unknown status |
| `Requests.StatusNumbers` | src/frame.rs:24-50 | the eight status codes are the numbers 0 to 7, and nothing else is one |
| `Requests.SentBytes` | src/frame.rs:142-152 | what is written under a key: length, sequence number, nonce, sealed plaintext |
| `Requests.PlaintextBytes` | src/frame.rs:170-221 | the plaintexts are the opcode or status number and the map's encoding |
| `Requests.AcceptedPayloadsSendable` | src/frame.rs:8-14 | every payload the TLV decoder accepts fits in an encrypted frame |
| `Requests.PayloadSeen` | src/frame.rs:193-197 | a map outside the caps silently becomes none; no payload and an empty map stay distinct |
| `Requests.EncodeRequestBody` | src/frame.rs:170-181 | opcode, then the map's encoding if any, encrypted under the key if any |
| `Requests.EncodeResponseBody` | src/frame.rs:210-221 | status, then the map's encoding if any, encrypted under the key if any |
| `Requests.ReadRequestFrom` | src/frame.rs:257-265 | one frame off the stream, decoded; the rest stays |
| `Dispatch.AnswersGood` | src/server.rs:717-777 | the loop's own answers are always encodable and fit in a frame, a handler's when its payload does |
| `Dispatch.AnswerSeen` | src/server.rs:717-777 | a caller sees the handler's own status and payload if it is synchronous and returned; otherwise NotFound with the opcode, BadRequest or InternalError with their texts |
| `TcpPairing.EveryCallGetsItsOwnAnswer` | src/client.rs:253-284 | in every interleaving of any number of calls, a call that returns a response gets what its opcode's handler made of its own request, under its own sequence number, or an expiry notice with number 0; its place on the wire is its alone |
| `TcpTrace.CallsGetTheirHandlersAnswers` | src/server.rs:693-778 | the same from the steps alone: status and payload are those the handler returned at the one step that answers this call (or the server's refusal), the request handled is the one the call was started with, and the number is how many calls started before it modulo 2^32 |
| `TcpTrace.ReadReturns` | src/client.rs:269-283 | a call whose reply has arrived whole returns it and leaves what follows, on open and closed connections |
| `TcpTrace.OpenConnectionAnswers` | src/client.rs:253-284 | until the server closes, a call that has returned has a response if and only if its request fitted in a frame |
| `TcpPairing.AtMostOneOutstanding` | src/server.rs:693-778 | while the server runs at most one request is unanswered, it answers only what it read, and one call at a time waits for a reply |
| `TcpPairing.ReadOutcome` | src/client.rs:269-283 | a waiting call reads its own reply whole, or the expiry notice, or fails; it never reads another call's bytes |
| `TcpPairing.Keeps` | src/server.rs:693-778 | every client, server and disconnect step keeps the bytes in flight accounted for |
| `TcpLiveness.CallsEnd` | src/client.rs:253-284 | once no new call starts, every interleaving is over after at most 18 steps per call under way plus 17, and while a call is under way some step is possible if and only if the connection is not stuck |
| `TcpLiveness.AllCallsReturn` | src/server.rs:684-778 | when every reply of a handler fits in a frame, no run gets stuck, and one that can go no further has returned every call |
| `TcpLiveness.DroppedExactly` | src/server.rs:762-764 | nothing is written for a reply if and only if its plaintext exceeds `max_safe_payload()` |
| `TcpLiveness.WedgedExactly` | src/server.rs:762-764 | a call that waits on an idle server waits for good if and only if its reply did not fit |
| `TcpLiveness.WedgeLasts` | src/client.rs:265-274 | on a stuck connection no call returns, later ones included, until it breaks |
| `TcpLiveness.WedgesExactly` | src/server.rs:745-776 | some run gets stuck if and only if the server has a handler that answers over TCP |
| `Stores.SessionStore.Gc` | src/session.rs:216-219 | visiting every entry in any order leaves exactly the sessions within their lifetime, unchanged |
| `Stores.TokenStore.IssueWithHls` | src/media.rs:51-68 | stores and returns a token for this track, URL and session, created and issued now |
| `Stores.TokenStore.Validate` | src/media.rs:70-94 | true exactly for a known, young enough token of a live session; a refused token is forgotten, `issued_at` never moves |
| `Stores.TokenStore.Gc` | src/media.rs:106-109 | visiting every entry in any order leaves exactly the tokens within their time to live, unchanged |
| `Stores.GcInvisible` | src/media.rs:70-109 | runs that differ only in where they collect answer every validation alike |
| `Stores.RefusedStaysRefused` | src/media.rs:70-94 | a refused token stays refused until its id is issued again |
| `Stores.ValidExactly` | src/media.rs:70-109 | after any run a token is valid if and only if its time to live since it was issued has not passed, its session is alive, and no validation in between found the session dead |
| `Stores.IssuedLives` | src/media.rs:51-109 | a token issued at any time is valid after a run if and only if the time that passed since is at most its time to live, its session is alive, and no validation found it dead; it keeps its track and URL |
| `Stores.ValidatedMeans` | src/media.rs:70-94 | which tokens one validation keeps, forgets and changes, in plain times |
| `ServerRuns.DispatchedFoundLiveSession` | src/server.rs:525-552 | a handler runs only for a stream that found its session stored, no later than its lifetime and the idle timeout allow, whatever came between its looks at the store |
| `ServerTrace.CheckedExactly` | src/server.rs:525-535 | in every run a stream is refused at its check if and only if its session is stored and more time than its lifetime or the idle timeout has passed since its handshake |
| `ServerTrace.DispatchedWasAdmitted` | src/server.rs:477-552 | for every request that reached a handler: the handshake, the check soon enough after it, and the bytes that opened under that handshake's key with this opcode |
| `ServerTrace.LiveRequestDispatched` | src/server.rs:525-575 | conversely, a client's request on a fresh, stored session is handed to its opcode's handler, whatever comes between the three looks |
| `ServerRuns.NoDispatchAfterRemoval` | src/server.rs:536-552 | once a session has left the store, no request stream started later reaches a handler |
| `ServerRuns.NewIdExactly` | src/server.rs:292-344 | after any run of both listeners the next id is new if and only if fewer than 2^64 were handed out |
| `ServerRuns.ValidatorWatchesSessions` | src/server.rs:127-143 | over all sequences of builder calls, the validator holds the listeners' store if and only if `with_media` is not followed by `with_session_config` |
| `ServerRuns.ValidInRun` | src/server.rs:127-143 | after any run a token validates if and only if `with_media` came last, its time to live has not passed and the listeners hold its session; in the other order the watched store is empty |
| `ServerRuns.TokensUsableExactly` | src/server.rs:127-143 | some run validates a token if and only if `with_media` came last |
| `ServerTrace.TokenLifetime` | src/media.rs:51-94 | in every run of the server, exactly when a token issued at any moment validates later: `with_media` last, elapsed time at most the time to live, session held now and at every validation; with its track and URL |
| `ServerRuns.TokensDieWithConnection` | src/server.rs:477-502 | after a connection closes its session is never stored again and every token bound to it, earlier or later, is refused |
| `ServerCode.Server.constructor` | src/server.rs:99-118 | a new server stands at the start of a run, with an empty store |
| `ServerCode.Server.WithMedia` | src/server.rs:127-132 | makes the validator share the listeners' store object as of now, as the builder machine says |
| `ServerCode.Server.WithSessionConfig` | src/server.rs:139-143 | replaces the listeners' store object while the validator keeps the one it captured |
| `ServerCode.Server.NextSession` | src/server.rs:292 | the counter from 1 yields an id never handed out before, and is the Accept step |
| `ServerCode.Server.Establish` | src/server.rs:477-478 | inserting into the shared store object is the Establish step, the validator's view included |
| `ServerCode.Server.Close` | src/server.rs:502 | deleting from the shared store object is the Close step |
| `ServerCode.Server.CollectSessions` | src/server.rs:787-793 | the collecting loop on the shared store object is the CollectSessions step |
| `ServerCode.Server.CheckStream` | src/server.rs:525-535 | the first look at the store refuses the stream exactly when the session it finds is past its lifetime or idle timeout, as the StreamChecks step does |
| `ServerCode.Server.TakeKey` | src/server.rs:536 | the second look yields the key of the StreamTakesKey step |
| `ServerCode.Server.IssueToken` | src/server.rs:367-373 | refused without media, else the IssueToken step; the stored token is returned, issued now |
| `ServerCode.Server.ValidateToken` | src/media.rs:70-94 | the answer read through the captured store is true if and only if `with_media` came last, the token is young enough and the listeners' store holds its session; is the ValidateToken step |
| `ServerCode.Server.CollectTokens` | src/media.rs:106-109 | the collecting loop is the CollectTokens step |
| `Hubs.Keeps` | src/hub.rs:41-87 | every live receiver stays attached to the sender stored for its topic |
| `Hubs.PublishReaches` | src/hub.rs:63-87 | a publish reaches every receiver of its topic live both when the sender is cloned and when it sends, once, and no other topic's, whatever comes between |
| `Hubs.CountExactly` | src/hub.rs:79-81 | a publish reports every live receiver of its topic while the sender it cloned is the stored one, and otherwise none |
| `Hubs.QueuesGrow` | src/hub.rs:41-87 | a new receiver starts empty; no step changes a live receiver's queue but a send to its own topic, which appends that event |
| `Hubs.UnsubscribeExactly` | src/hub.rs:54-61 | after any run, unsubscribing forgets the topic if and only if nobody listens to it, and changes nothing else |
| `Hubs.Hub.SubscribeTo` | src/hub.rs:41-50 | attaches a new receiver to the topic's channel, creating it if needed |
| `Hubs.Hub.UnsubscribeFrom` | src/hub.rs:54-61 | removes the topic exactly when its channel has no receiver |
| `Hubs.Hub.SubscriberCount` | src/hub.rs:96-102 | the number of receivers on the topic's channel |
| `Hubs.Hub.Publish` | src/hub.rs:64-87 | counts and reaches exactly the attached receivers |
| `Handshake.HandshakeAgrees` | src/session.rs:238-309 | for known ids of up to 256 bytes, and from `dial` to a listener for the empty one, both sides end with the same session id, key id and key, and neither reads past its message |
| `Handshake.AgreementDomain` | src/client.rs:96-136 | for a client whose key the server knows, agreement holds if and only if the id is at most 256 bytes and, if empty, the server is a listener and the client is `dial` or derives the anonymous key by its own secret |
| `Handshake.ServeExactly` | src/server.rs:420-475 | on every byte stream the server accepts if and only if it starts with a hello whose id is empty (listeners) or one it knows, consumes just that, derives the key from the exchange and that id's secret, and answers with its public key and the session id |
| `Handshake.ServeRefused` | src/session.rs:277-295 | each refusal exactly: bad length, short read, bad text, unknown key |
| `Handshake.LongIdMistaken` | src/server.rs:420-475 | exactly when an id of more than 256 bytes is accepted: its length modulo 2^16 is 0 with a listener, or at most 256 with that prefix a known id; the server then settles on that other id and takes bytes of the id for the public key |
| `Handshake.LongIdTakenForAnother` | src/session.rs:277-290 | 2^16 + 1 letters are accepted as the id of one letter by either server that knows it |
| `Handshake.BuildHello` | src/client.rs:97-120 | the hello is the id's length modulo 2^16, the id and the public key, for empty ids too |
| `Handshake.ServeOn` | src/session.rs:269-309 | the server reads exactly the hello and writes its answer only when it accepts |

## Left out

- QUIC, TLS, sockets, certificates and ALPN: only reliable, ordered byte streams are modelled.
- The internals of X25519, HKDF, AES-GCM and the random generator: laws stand in for them. AES-GCM's own plaintext limit is not modelled; the laws speak of plaintexts below 2^32 bytes.
- `start_stream`, `do_quinn` and cancelled calls: the pairing machine covers `do_tcp` calls that run to their end.
- `TcpPairing.EveryCallGetsItsOwnAnswer`: payloads of 4 GiB and more are outside the machine, because `encode_frame` miscounts them.
- `Requests.RequestOutcome`: likewise only for payloads below 4 GiB.
- `Requests.ResponseOutcome`: likewise only for payloads below 4 GiB.
- `ServerRuns.NoDispatchAfterRemoval`: says nothing of TCP, where the loop keeps its own key and skips the expiry check once the session is gone.
- Refreshing the idle timer: `touch` works on a copy and never reaches the store, so no such property holds.
- What handlers compute, panics in them, and middleware: a handler's outcome is any response.
- Applications that insert into the session store themselves through `session_store()`.
- Tokio's channel capacity and lag: each receiver has an unbounded queue.
- Decode error texts: errors are distinguished by kind only.
- `exists` and `lookup_hls` (reads of the token map), `MediaURLBuilder` (URL text), `StreamReader`, the logger and the example programs: nothing is promised of what they return or print.
- `TcpLiveness.CallsEnd`: a bound on steps, not on time; the network and the scheduler are assumed to take some step whenever one is possible.
