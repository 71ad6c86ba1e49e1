/** What the TCP loop of src/server.rs answers to a decoded request. */
module Dispatch {
  import opened Wrappers
  import opened Bytes
  import opened Leb128
  import opened Tlv
  import opened TlvRoundTrip
  import opened TlvNormalForm
  import opened Requests

  datatype Handler = Sync | Streaming

  type Handlers = map<u16, Handler>

  function Ascii(s: string): seq<byte>
    requires forall i :: 0 <= i < |s| ==> s[i] as int < 0x80
  {
    seq(|s|, i requires 0 <= i < |s| => s[i] as int)
  }

  function OneEntry(key: seq<byte>, val: Value): Option<seq<Entry>> { Some(Set([], key, val)) }

  /** `outcome` is what the synchronous handler returned, `None` for its error. */
  function TcpAnswer(hs: Handlers, opcode: u16, seqno: u32, outcome: Option<Response>): Response {
    if opcode !in hs then Response(NotFound, OneEntry(Ascii("opcode"), Uint16(opcode)), seqno)
    else
      match hs[opcode]
      case Streaming =>
        Response(BadRequest, OneEntry(Ascii("error"), String(Ascii("streaming not supported over TCP"))), seqno)
      case Sync =>
        match outcome
        case Some(resp) => resp
        case None => Response(InternalError, OneEntry(Ascii("error"), String(Ascii("internal error"))), 0)
  }

  lemma {:induction false} AsciiIsUtf8(bs: seq<byte>)
    requires forall i :: 0 <= i < |bs| ==> bs[i] < 0x80
    ensures ValidUtf8(bs)
  {
    if bs == [] {
    } else {
      AsciiIsUtf8(bs[1..]);
    }
  }

  lemma OneEntryGood(key: seq<byte>, val: Value)
    requires ValidUtf8(key) && WellFormed(val) && |key| < 100 && |Payload(val)| < 100
    ensures GoodPayload(OneEntry(key, val)) && ReplyFits(OneEntry(key, val))
  {
    var e := Entry(key, val);
    assert Set([], key, val) == [e];
    EncodeEntriesOne(e);
    EntryParts(e, []);
    TaggedLength(0x01, key);
    TaggedLength(TypeByte(val), Payload(val));
    TaggedLength(TypeByte(Map([e])), Payload(Map([e])));
    VarintAtMostTen(|key|);
    VarintAtMostTen(|Payload(val)|);
    VarintAtMostTen(|Payload(Map([e]))|);
  }

  /** The server's own answers always encode and fit in a frame; a handler's do if its payload does. */
  lemma AnswersGood(hs: Handlers, opcode: u16, seqno: u32, outcome: Option<Response>)
    requires outcome.Some? ==> GoodPayload(outcome.value.payload)
    ensures GoodPayload(TcpAnswer(hs, opcode, seqno, outcome).payload)
    ensures (outcome.Some? ==> ReplyFits(outcome.value.payload)) ==>
              ReplyFits(TcpAnswer(hs, opcode, seqno, outcome).payload)
  {
    hide GoodPayload, ReplyFits, OneEntry, ValidUtf8;
    AsciiIsUtf8(Ascii("opcode"));
    AsciiIsUtf8(Ascii("error"));
    AsciiIsUtf8(Ascii("internal error"));
    AsciiIsUtf8(Ascii("streaming not supported over TCP"));
    OneEntryGood(Ascii("opcode"), Uint16(opcode));
    OneEntryGood(Ascii("error"), String(Ascii("internal error")));
    OneEntryGood(Ascii("error"), String(Ascii("streaming not supported over TCP")));
  }

  // ── What a caller sees ─────────────────────────────────────

  /** The bytes of an ASCII text. */
  predicate IsText(bytes: seq<byte>, text: string) {
    |bytes| == |text| && forall i :: 0 <= i < |text| ==> bytes[i] == text[i] as int
  }

  /** A map whose one entry has this key. */
  predicate OneKey(payload: Option<seq<Entry>>, key: string) {
    payload.Some? && |payload.value| == 1 && IsText(payload.value[0].key, key)
  }

  predicate ErrorEntry(payload: Option<seq<Entry>>, text: string) {
    OneKey(payload, "error") && payload.value[0].val.String? && IsText(payload.value[0].val.text, text)
  }

  /**
   The status and payload that reach the caller of an opcode: the handler's own when it is
   synchronous and returned, and otherwise one of the server's three refusals.
   */
  predicate HandledAs(hs: Handlers, opcode: u16, outcome: Option<Response>, status: StatusCode,
                      payload: Option<seq<Entry>>)
  {
    if opcode !in hs then
      status == NotFound && OneKey(payload, "opcode") && payload.value[0].val == Uint16(opcode)
    else
      match (hs[opcode], outcome)
      case (Sync, Some(r)) => status == r.status && payload == Seen(r.payload)
      case (Sync, None) => status == InternalError && ErrorEntry(payload, "internal error")
      case (Streaming, _) => status == BadRequest && ErrorEntry(payload, "streaming not supported over TCP")
  }

  lemma OneEntrySeen(key: seq<byte>, val: Value)
    requires |key| < 100 && |Payload(val)| < 100 && Scalar(val) && Norm(val) == val
    ensures Seen(OneEntry(key, val)) == Some([Entry(key, val)])
  {
    hide Varint, ScalarPayload;
    var e := Entry(key, val);
    assert Set([], key, val) == [e];
    EncodeEntriesOne(e);
    EntryParts(e, []);
    TaggedLength(0x01, key);
    TaggedLength(TypeByte(val), Payload(val));
    VarintAtMostTen(|key|);
    VarintAtMostTen(|Payload(val)|);
    assert [e][1..] == [];
    assert Depth(val) == 0 && DepthEntries([e]) == 1;
    assert Fits(Map([e]), 0);
    assert NormEntries([e]) == [e];
  }

  lemma AsciiIsText(s: string)
    requires forall i :: 0 <= i < |s| ==> s[i] as int < 0x80
    ensures IsText(Ascii(s), s)
  {
  }

  lemma ErrorSeen(text: string)
    requires |text| < 100 && forall i :: 0 <= i < |text| ==> text[i] as int < 0x80
    ensures ErrorEntry(Seen(OneEntry(Ascii("error"), String(Ascii(text)))), text)
  {
    hide Seen, OneEntry, IsText;
    OneEntrySeen(Ascii("error"), String(Ascii(text)));
    AsciiIsText("error");
    AsciiIsText(text);
  }

  lemma AnswerSeen(hs: Handlers, opcode: u16, seqno: u32, outcome: Option<Response>)
    ensures var ans := TcpAnswer(hs, opcode, seqno, outcome);
            HandledAs(hs, opcode, outcome, ans.status, Seen(ans.payload))
  {
    hide Seen, OneEntry, IsText, ErrorEntry;
    if opcode !in hs {
      OneEntrySeen(Ascii("opcode"), Uint16(opcode));
      AsciiIsText("opcode");
    } else if hs[opcode] == Streaming {
      ErrorSeen("streaming not supported over TCP");
    } else if outcome == None {
      ErrorSeen("internal error");
    }
  }
}
