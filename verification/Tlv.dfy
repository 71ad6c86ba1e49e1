/**
 The values of src/tlv.rs and the functions that say what its encoder and decoder compute.
 The loops themselves are in TlvCode.dfy, the laws in TlvRoundTrip.dfy and TlvNormalForm.dfy.
 */
module Tlv {
  import opened Wrappers
  import opened Bytes
  import opened Leb128

  const MAX_PAYLOAD_SIZE: nat := 524288
  const MAX_DECODE_DEPTH: nat := 64

  // ── Values ─────────────────────────────────────────────────

  type Nanos = n: nat | n < 1_000_000_000
  datatype Duration = Duration(secs: u64, nanos: Nanos)

  function AsMillis(d: Duration): nat { d.secs * 1000 + d.nanos / 1_000_000 }

  function FromMillis(ms: u64): Duration { Duration(ms / 1000, (ms % 1000) * 1_000_000) }

  /** `as_millis() as u64`: the only part of a timestamp that is written. */
  function WireMillis(d: Duration): u64 { AsMillis(d) % TWO64 }

  lemma WireMillisOfFromMillis(ms: u64)
    ensures WireMillis(FromMillis(ms)) == ms
  {
    assert AsMillis(FromMillis(ms)) == ms;
  }

  /** Strings are their bytes and floats their bits. */
  datatype Value =
    | String(text: seq<byte>)
    | Bytes(data: seq<byte>)
    | Uint8(n8: byte)
    | Uint16(n16: u16)
    | Uint32(n32: u32)
    | Uint64(n64: u64)
    | Int32(s32: i32)
    | Int64(s64: i64)
    | Float32(bits32: u32)
    | Float64(bits64: u64)
    | Bool(flag: bool)
    | Array(items: seq<Value>)
    | Map(entries: seq<Entry>)
    | Null
    | Timestamp(at: Duration)

  datatype Entry = Entry(key: seq<byte>, val: Value)

  predicate DistinctKeys(es: seq<Entry>) {
    forall i, j :: 0 <= i < j < |es| ==> es[i].key != es[j].key
  }

  /** What Rust's types and `Map::set` guarantee: strings are UTF-8 and map keys differ. */
  predicate WellFormed(v: Value) {
    match v
    case String(s) => ValidUtf8(s)
    case Array(items) => forall i :: 0 <= i < |items| ==> WellFormed(items[i])
    case Map(es) =>
      && DistinctKeys(es)
      && forall i :: 0 <= i < |es| ==> ValidUtf8(es[i].key) && WellFormed(es[i].val)
    case _ => true
  }

  function Max(a: nat, b: nat): nat { if a < b then b else a }

  /** Levels of elements below `v`: an array or map with no elements counts as 0. */
  function Depth(v: Value): nat {
    match v
    case Array(items) => DepthAll(items)
    case Map(es) => DepthEntries(es)
    case _ => 0
  }

  function DepthAll(items: seq<Value>): nat {
    if items == [] then 0 else Max(1 + Depth(items[0]), DepthAll(items[1..]))
  }

  function DepthEntries(es: seq<Entry>): nat {
    if es == [] then 0 else Max(1 + Depth(es[0].val), DepthEntries(es[1..]))
  }

  /** What one trip over the wire keeps: timestamps are cut to whole milliseconds modulo 2^64. */
  function Norm(v: Value): Value {
    match v
    case Array(items) => Array(NormAll(items))
    case Map(es) => Map(NormEntries(es))
    case Timestamp(d) => Timestamp(FromMillis(WireMillis(d)))
    case _ => v
  }

  function NormAll(items: seq<Value>): (r: seq<Value>)
    ensures |r| == |items|
    ensures forall i :: 0 <= i < |items| ==> r[i] == Norm(items[i])
  {
    if items == [] then [] else [Norm(items[0])] + NormAll(items[1..])
  }

  function NormEntries(es: seq<Entry>): (r: seq<Entry>)
    ensures |r| == |es|
    ensures forall i :: 0 <= i < |es| ==> r[i] == Entry(es[i].key, Norm(es[i].val))
  {
    if es == [] then [] else [Entry(es[0].key, Norm(es[0].val))] + NormEntries(es[1..])
  }

  // ── Map entries ────────────────────────────────────────────

  /** Position of `key`, or the number of entries if it is absent. */
  function Find(es: seq<Entry>, key: seq<byte>): (i: nat)
    ensures i <= |es|
    ensures forall j :: 0 <= j < i ==> es[j].key != key
    ensures i < |es| ==> es[i].key == key
  {
    if es == [] || es[0].key == key then 0 else 1 + Find(es[1..], key)
  }

  function Set(es: seq<Entry>, key: seq<byte>, val: Value): (r: seq<Entry>) {
    var i := Find(es, key);
    if i < |es| then es[i := Entry(key, val)] else es + [Entry(key, val)]
  }

  function Get(es: seq<Entry>, key: seq<byte>): Option<Value> {
    var i := Find(es, key);
    if i < |es| then Some(es[i].val) else None
  }

  /** The entries after `Map::set` on each pair in turn. */
  function FromPairs(ps: seq<Entry>): seq<Entry> {
    if ps == [] then []
    else Set(FromPairs(ps[..|ps| - 1]), ps[|ps| - 1].key, ps[|ps| - 1].val)
  }

  // ── Encoding ───────────────────────────────────────────────

  function TypeByte(v: Value): (t: byte)
    ensures 1 <= t <= 15
  {
    match v
    case String(_) => 0x01
    case Bytes(_) => 0x02
    case Uint8(_) => 0x03
    case Uint16(_) => 0x04
    case Uint32(_) => 0x05
    case Uint64(_) => 0x06
    case Int32(_) => 0x07
    case Int64(_) => 0x08
    case Float32(_) => 0x09
    case Float64(_) => 0x0A
    case Bool(_) => 0x0B
    case Array(_) => 0x0C
    case Map(_) => 0x0D
    case Null => 0x0E
    case Timestamp(_) => 0x0F
  }

  /** type (1 byte) || length (varint) || value */
  function Tagged(t: byte, payload: seq<byte>): seq<byte> {
    [t] + Varint(|payload|) + payload
  }

  function Encode(v: Value): seq<byte>
    decreases v, 2
  {
    Tagged(TypeByte(v), Payload(v))
  }

  function Payload(v: Value): seq<byte>
    decreases v, 1
  {
    match v
    case Array(items) => EncodeAll(items)
    case Map(es) => EncodeEntries(es)
    case _ => ScalarPayload(v)
  }

  function EncodeAll(items: seq<Value>): seq<byte>
    decreases items, 0
  {
    if items == [] then [] else Encode(items[0]) + EncodeAll(items[1..])
  }

  /** Each key is written as `encode_into` writes the string value `String(key)`. */
  function EncodeEntries(es: seq<Entry>): seq<byte>
    decreases es, 0
  {
    if es == [] then [] else EncodeEntry(es[0]) + EncodeEntries(es[1..])
  }

  function EncodeEntry(e: Entry): seq<byte>
    decreases e, 0
  {
    Tagged(0x01, e.key) + Encode(e.val)
  }

  predicate Scalar(v: Value) { !v.Array? && !v.Map? }

  function ScalarPayload(v: Value): seq<byte>
    requires Scalar(v)
  {
    match v
    case String(s) => s
    case Bytes(b) => b
    case Uint8(n) => [n]
    case Uint16(n) => BE(n, 2)
    case Uint32(n) => BE(n, 4)
    case Uint64(n) => BE(n, 8)
    case Int32(n) => BE(Unsigned32(n), 4)
    case Int64(n) => BE(Unsigned64(n), 8)
    case Float32(n) => BE(n, 4)
    case Float64(n) => BE(n, 8)
    case Bool(b) => [if b then 1 else 0]
    case Null => []
    case Timestamp(d) => BE(WireMillis(d), 8)
  }

  // ── Decoding ───────────────────────────────────────────────

  datatype TlvError =
    | TooDeep(depth: nat)
    | UnexpectedEof
    | UnknownType(tag: byte)
    | BadVarint(cause: VarintError)
    | PayloadTooLarge(len: nat)
    | PayloadExceedsBuffer
    | InvalidUtf8
    | TooFewBytes(tag: byte)
    | KeyNotString
    | MissingValue(key: seq<byte>)

  /** A type byte and the place of its payload in the buffer. */
  datatype Header = Header(tag: byte, start: nat, end: nat)

  function ParseHeader(buf: seq<byte>, depth: nat): (r: Result<Header, TlvError>)
    ensures r.Ok? ==> 1 <= r.value.tag <= 15 && depth <= MAX_DECODE_DEPTH
    ensures r.Ok? ==> 2 <= r.value.start <= r.value.end <= |buf|
    ensures r.Ok? ==> r.value.end - r.value.start <= MAX_PAYLOAD_SIZE
  {
    if depth > MAX_DECODE_DEPTH then Err(TooDeep(depth))
    else if buf == [] then Err(UnexpectedEof)
    else if !(1 <= buf[0] <= 15) then Err(UnknownType(buf[0]))
    else
      match ReadVarint(buf[1..])
      case Err(e) => Err(BadVarint(e))
      case Ok((len, adv)) =>
        if len > MAX_PAYLOAD_SIZE then Err(PayloadTooLarge(len))
        else if 1 + adv + len > |buf| then Err(PayloadExceedsBuffer)
        else Ok(Header(buf[0], 1 + adv, 1 + adv + len))
  }

  /** The value at the front of `buf` and the bytes it takes. */
  function Parse(buf: seq<byte>, depth: nat): (r: Result<(Value, nat), TlvError>)
    ensures r.Ok? ==> 2 <= r.value.1 <= |buf|
    decreases |buf|, 0, 0
  {
    var h := ParseHeader(buf, depth);
    if h.Err? then Err(h.error)
    else
      match ParsePayload(h.value.tag, buf[h.value.start..h.value.end], depth)
      case Ok(v) => Ok((v, h.value.end))
      case Err(e) => Err(e)
  }

  function ParsePayload(tag: byte, payload: seq<byte>, depth: nat): Result<Value, TlvError>
    requires 1 <= tag <= 15
    decreases |payload|, 2
  {
    if tag == 0x0C then
      match ParseItems(payload, depth + 1)
      case Ok(items) => Ok(Array(items))
      case Err(e) => Err(e)
    else if tag == 0x0D then
      match ParsePairs(payload, depth + 1)
      case Ok(ps) => Ok(Map(FromPairs(ps)))
      case Err(e) => Err(e)
    else ParseScalar(tag, payload)
  }

  /** The elements of an array payload, read at `depth`. */
  function ParseItems(payload: seq<byte>, depth: nat): Result<seq<Value>, TlvError>
    decreases |payload|, 1
  {
    if payload == [] then Ok([])
    else
      match Parse(payload, depth)
      case Err(e) => Err(e)
      case Ok((v, n)) =>
        match ParseItems(payload[n..], depth)
        case Err(e) => Err(e)
        case Ok(items) => Ok([v] + items)
  }

  /** The key/value pairs of a map payload, in order and with repeats, read at `depth`. */
  function ParsePairs(payload: seq<byte>, depth: nat): Result<seq<Entry>, TlvError>
    decreases |payload|, 1
  {
    if payload == [] then Ok([])
    else
      match ParsePair(payload, depth)
      case Err(e) => Err(e)
      case Ok((p, n)) =>
        match ParsePairs(payload[n..], depth)
        case Err(e) => Err(e)
        case Ok(ps) => Ok([p] + ps)
  }

  function ParsePair(payload: seq<byte>, depth: nat): (r: Result<(Entry, nat), TlvError>)
    ensures r.Ok? ==> 4 <= r.value.1 <= |payload|
    decreases |payload|, 0, 1
  {
    var k := Parse(payload, depth);
    if k.Err? then Err(k.error)
    else if !k.value.0.String? then Err(KeyNotString)
    else if k.value.1 >= |payload| then Err(MissingValue(k.value.0.text))
    else
      var v := Parse(payload[k.value.1..], depth);
      if v.Err? then Err(v.error)
      else Ok((Entry(k.value.0.text, v.value.0), k.value.1 + v.value.1))
  }

  /** Fixed-width scalars read their width from the front and ignore any further payload bytes. */
  function Width(tag: byte): nat {
    if tag == 0x03 || tag == 0x0B then 1
    else if tag == 0x04 then 2
    else if tag == 0x05 || tag == 0x07 || tag == 0x09 then 4
    else if tag == 0x06 || tag == 0x08 || tag == 0x0A || tag == 0x0F then 8
    else 0
  }

  function ParseScalar(tag: byte, payload: seq<byte>): Result<Value, TlvError>
    requires 1 <= tag <= 15 && tag != 0x0C && tag != 0x0D
  {
    if tag == 0x01 then (if ValidUtf8(payload) then Ok(String(payload)) else Err(InvalidUtf8))
    else if tag == 0x02 then Ok(Bytes(payload))
    else if tag == 0x0E then Ok(Null)
    else if |payload| < Width(tag) then Err(TooFewBytes(tag))
    else ParseFixed(tag, payload[..Width(tag)])
  }

  function ParseFixed(tag: byte, field: seq<byte>): (r: Result<Value, TlvError>)
    requires 3 <= tag <= 15 && tag != 0x0C && tag != 0x0D && tag != 0x0E
    requires |field| == Width(tag)
    ensures r.Ok?
  {
    BEOfFromBE(field);
    Widths();
    var n := FromBE(field);
    if tag == 0x03 then Ok(Uint8(field[0]))
    else if tag == 0x04 then Ok(Uint16(n))
    else if tag == 0x05 then Ok(Uint32(n))
    else if tag == 0x06 then Ok(Uint64(n))
    else if tag == 0x07 then Ok(Int32(Signed32(n)))
    else if tag == 0x08 then Ok(Int64(Signed64(n)))
    else if tag == 0x09 then Ok(Float32(n))
    else if tag == 0x0A then Ok(Float64(n))
    else if tag == 0x0B then Ok(Bool(field[0] != 0))
    else Ok(Timestamp(FromMillis(n)))
  }

  function Decode(buf: seq<byte>): Result<Value, TlvError> {
    match Parse(buf, 0)
    case Ok((v, _)) => Ok(v)
    case Err(e) => Err(e)
  }

  /** `decode_map_opt`: any failure, like an absent map, is `None`. */
  function DecodeMapOpt(buf: seq<byte>): Option<seq<Entry>> {
    if buf == [] then None
    else
      match Decode(buf)
      case Ok(Map(es)) => Some(es)
      case _ => None
  }
}
