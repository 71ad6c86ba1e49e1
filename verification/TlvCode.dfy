/**
 The loops of src/tlv.rs: pushing onto a byte vector, advancing a position through a buffer and
 editing a map's entries in place, each proved to compute the function Tlv.dfy gives it.
 */
module TlvCode {
  import opened Wrappers
  import opened Bytes
  import opened Leb128
  import opened Tlv
  import opened TlvRoundTrip
  import opened TlvNormalForm

  // ── Map ────────────────────────────────────────────────────

  /** `Map`: an insertion-ordered list of entries, edited in place. */
  class MapCell {
    var entries: seq<Entry>

    constructor ()
      ensures entries == []
    {
      entries := [];
    }

    /** `iter().find`: the first entry under `key`. */
    method Position(key: seq<byte>) returns (i: nat)
      ensures i == Find(entries, key)
    {
      i := 0;
      while i < |entries| && entries[i].key != key
        invariant i <= |entries|
        invariant forall j :: 0 <= j < i ==> entries[j].key != key
      {
        i := i + 1;
      }
      FindIs(entries, key, i);
    }

    method Insert(key: seq<byte>, val: Value)
      modifies this
      ensures entries == Set(old(entries), key, val)
      ensures old(DistinctKeys(entries)) ==> DistinctKeys(entries)
    {
      var i := Position(key);
      if i < |entries| {
        entries := entries[i := Entry(key, val)];
      } else {
        entries := entries + [Entry(key, val)];
      }
    }

    method Lookup(key: seq<byte>) returns (r: Option<Value>)
      ensures r == Get(entries, key)
    {
      var i := Position(key);
      if i < |entries| {
        return Some(entries[i].val);
      }
      return None;
    }
  }

  // ── Encoder ────────────────────────────────────────────────

  lemma {:induction false} EncodeAllAppend(a: seq<Value>, v: Value)
    ensures EncodeAll(a + [v]) == EncodeAll(a) + Encode(v)
  {
    hide Encode;
    if a == [] {
      assert [v][1..] == [];
      assert a + [v] == [v];
    } else {
      EncodeAllAppend(a[1..], v);
      assert (a + [v])[1..] == a[1..] + [v];
    }
  }

  lemma EncodeEntriesAppend(a: seq<Entry>, e: Entry)
    ensures EncodeEntries(a + [e]) == EncodeEntries(a) + EncodeEntry(e)
  {
    EncodeEntriesConcat(a, [e]);
    EncodeEntriesOne(e);
  }

  /** `encode`: a fresh vector holding the encoding. */
  method EncodeValue(v: Value) returns (bytes: seq<byte>)
    requires |Encode(v)| < TWO64
    ensures bytes == Encode(v)
  {
    var buf := new ByteVec();
    EncodeInto(v, buf);
    bytes := buf.data;
  }

  method EncodeInto(v: Value, buf: ByteVec)
    requires |Encode(v)| < TWO64
    modifies buf
    ensures buf.data == old(buf.data) + Encode(v)
    decreases |Encode(v)|, 0
  {
    TaggedLength(TypeByte(v), Payload(v));
    var payload := PayloadBytes(v);
    buf.Push(TypeByte(v));
    EncodeVarint(|payload|, buf);
    buf.Extend(payload);
  }

  method PayloadBytes(v: Value) returns (payload: seq<byte>)
    requires |Payload(v)| < TWO64
    ensures payload == Payload(v)
    decreases |Payload(v)|, 2
  {
    match v
    case Array(items) => payload := ArrayPayload(items);
    case Map(es) => payload := MapPayload(es);
    case _ => payload := ScalarPayload(v);
  }

  method ArrayPayload(items: seq<Value>) returns (payload: seq<byte>)
    requires |EncodeAll(items)| < TWO64
    ensures payload == EncodeAll(items)
    decreases |EncodeAll(items)|, 1
  {
    var buf := new ByteVec();
    for i := 0 to |items|
      invariant fresh(buf)
      invariant buf.data == EncodeAll(items[..i])
    {
      ElementEncodings(items, i);
      EncodeAllAppend(items[..i], items[i]);
      assert items[..i + 1] == items[..i] + [items[i]];
      EncodeInto(items[i], buf);
    }
    assert items[..|items|] == items;
    payload := buf.data;
  }

  method MapPayload(es: seq<Entry>) returns (payload: seq<byte>)
    requires |EncodeEntries(es)| < TWO64
    ensures payload == EncodeEntries(es)
    decreases |EncodeEntries(es)|, 1
  {
    var buf := new ByteVec();
    for i := 0 to |es|
      invariant fresh(buf)
      invariant buf.data == EncodeEntries(es[..i])
    {
      EntryEncodings(es, i);
      EncodeEntriesAppend(es[..i], es[i]);
      assert es[..i + 1] == es[..i] + [es[i]];
      EntryParts(es[i], []);
      KeyEncoding(es[i].key);
      EncodeInto(String(es[i].key), buf);
      EncodeInto(es[i].val, buf);
      assert EncodeEntry(es[i]) == Encode(String(es[i].key)) + Encode(es[i].val);
    }
    assert es[..|es|] == es;
    payload := buf.data;
  }

  lemma KeyEncoding(key: seq<byte>)
    ensures Encode(String(key)) == Tagged(0x01, key)
  {
  }

  // ── Decoder ────────────────────────────────────────────────

  /** What is left of a buffer at a position, which may lie beyond its end. */
  function From(buf: seq<byte>, pos: nat): seq<byte> {
    if pos <= |buf| then buf[pos..] else []
  }

  /** The type byte, the length and the payload's place, with every check before the payload. */
  method DecodeHeader(buf: seq<byte>, start: nat, depth: nat) returns (r: Result<Header, TlvError>)
    ensures match ParseHeader(From(buf, start), depth)
            case Ok(h) => r == Ok(Header(h.tag, start + h.start, start + h.end)) && start + h.end <= |buf|
            case Err(e) => r == Err(e)
  {
    var pos := start;
    if depth > MAX_DECODE_DEPTH {
      return Err(TooDeep(depth));
    }
    if pos >= |buf| {
      return Err(UnexpectedEof);
    }
    var tag := buf[pos];
    pos := pos + 1;
    if !(1 <= tag <= 15) {
      return Err(UnknownType(tag));
    }
    assert From(buf, start)[1..] == buf[pos..];
    var varint := DecodeVarint(buf[pos..]);
    if varint.Err? {
      return Err(BadVarint(varint.error));
    }
    var len := varint.value.0;
    pos := pos + varint.value.1;
    if len > MAX_PAYLOAD_SIZE {
      return Err(PayloadTooLarge(len));
    }
    if pos + len > |buf| {
      return Err(PayloadExceedsBuffer);
    }
    return Ok(Header(tag, pos, pos + len));
  }

  lemma SliceFrom(buf: seq<byte>, pos: nat, start: nat, end: nat)
    requires pos <= start <= end <= |buf|
    ensures buf[start..end] == From(buf, pos)[start - pos..end - pos]
  {
  }

  /**
   `decode_value`: reads one value at `pos` and, when it succeeds, moves past it. `calls` counts
   this call and the recursive ones.
   */
  method DecodeValue(buf: seq<byte>, pos: nat, depth: nat)
    returns (r: Result<Value, TlvError>, newPos: nat, ghost calls: nat)
    ensures match Parse(From(buf, pos), depth)
            case Ok((v, n)) => r == Ok(v) && newPos == pos + n <= |buf|
            case Err(e) => r == Err(e)
    ensures calls == Calls(From(buf, pos), depth)
    ensures 2 * calls <= |From(buf, pos)| + 2
    decreases |From(buf, pos)|, 0
  {
    hide ParsePayload, PayloadCalls;
    CallsBound(From(buf, pos), depth);
    newPos, calls := pos, 1;
    var h := DecodeHeader(buf, pos, depth);
    if h.Err? {
      return Err(h.error), newPos, calls;
    }
    newPos := h.value.end;
    var payload := buf[h.value.start..h.value.end];
    SliceFrom(buf, pos, h.value.start, h.value.end);
    ghost var inner;
    r, inner := DecodePayload(h.value.tag, payload, depth);
    calls := 1 + inner;
  }

  method DecodePayload(tag: byte, payload: seq<byte>, depth: nat)
    returns (r: Result<Value, TlvError>, ghost calls: nat)
    requires 1 <= tag <= 15
    ensures r == ParsePayload(tag, payload, depth)
    ensures calls == PayloadCalls(tag, payload, depth)
    decreases |payload|, 3
  {
    if tag == 0x0C {
      var items;
      items, calls := DecodeArray(payload, depth + 1);
      r := if items.Ok? then Ok(Array(items.value)) else Err(items.error);
    } else if tag == 0x0D {
      var es;
      es, calls := DecodeMap(payload, depth + 1);
      r := if es.Ok? then Ok(Map(es.value)) else Err(es.error);
    } else {
      r, calls := ParseScalar(tag, payload), 0;
    }
  }

  /** Results of a loop that has pushed `xs` and still has `r` to come. */
  ghost function Prepend<T>(xs: seq<T>, r: Result<seq<T>, TlvError>): Result<seq<T>, TlvError> {
    if r.Ok? then Ok(xs + r.value) else r
  }

  lemma PrependNone<T>(r: Result<seq<T>, TlvError>)
    ensures Prepend([], r) == r
  {
    if r.Ok? {
      assert [] + r.value == r.value;
    }
  }

  lemma PrependOne<T>(xs: seq<T>, x: T, r: Result<seq<T>, TlvError>)
    ensures Prepend(xs, Prepend([x], r)) == Prepend(xs + [x], r)
  {
    if r.Ok? {
      assert xs + ([x] + r.value) == xs + [x] + r.value;
    }
  }

  /** Where the array loop is: `items` pushed, `calls` made, the rest of the payload to come. */
  ghost predicate AtItem(payload: seq<byte>, depth: nat, p: nat, items: seq<Value>, calls: nat) {
    && p <= |payload|
    && ParseItems(payload, depth) == Prepend(items, ParseItems(payload[p..], depth))
    && ItemsCalls(payload, depth) == calls + ItemsCalls(payload[p..], depth)
  }

  lemma ItemsTurn(payload: seq<byte>, depth: nat, p: nat, items: seq<Value>, calls: nat)
    requires AtItem(payload, depth, p, items, calls) && p < |payload|
    ensures var here := payload[p..];
            match Parse(here, depth)
            case Ok((v, n)) => AtItem(payload, depth, p + n, items + [v], calls + Calls(here, depth))
            case Err(e) =>
              ParseItems(payload, depth) == Err(e) && ItemsCalls(payload, depth) == calls + Calls(here, depth)
  {
    hide Parse, Calls;
    var here := payload[p..];
    if Parse(here, depth).Ok? {
      var (v, n) := Parse(here, depth).value;
      assert here[n..] == payload[p + n..];
      PrependOne(items, v, ParseItems(here[n..], depth));
    }
  }

  /** The array arm: push elements until the payload is used up. */
  method DecodeArray(payload: seq<byte>, depth: nat)
    returns (r: Result<seq<Value>, TlvError>, ghost calls: nat)
    ensures r == ParseItems(payload, depth)
    ensures calls == ItemsCalls(payload, depth)
    decreases |payload|, 2
  {
    hide Parse, Calls;
    var items := [];
    var p := 0;
    calls := 0;
    assert payload[0..] == payload;
    PrependNone(ParseItems(payload, depth));
    while p < |payload|
      invariant AtItem(payload, depth, p, items, calls)
      decreases |payload| - p
    {
      var item, next;
      ghost var more;
      ItemsTurn(payload, depth, p, items, calls);
      item, next, more := DecodeValue(payload, p, depth);
      calls := calls + more;
      if item.Err? {
        return Err(item.error), calls;
      }
      items := items + [item.value];
      p := next;
    }
    assert items + [] == items;
    r := Ok(items);
  }

  /** Where the map loop is: `pairs` read and set into `es`, the rest of the payload to come. */
  ghost predicate AtPair(payload: seq<byte>, depth: nat, p: nat, pairs: seq<Entry>, es: seq<Entry>, calls: nat) {
    && p <= |payload|
    && es == FromPairs(pairs)
    && ParsePairs(payload, depth) == Prepend(pairs, ParsePairs(payload[p..], depth))
    && PairsCalls(payload, depth) == calls + PairsCalls(payload[p..], depth)
  }

  lemma PairsTurn(payload: seq<byte>, depth: nat, p: nat, pairs: seq<Entry>, es: seq<Entry>, calls: nat)
    requires AtPair(payload, depth, p, pairs, es, calls) && p < |payload|
    ensures var here := payload[p..];
            match ParsePair(here, depth)
            case Ok((e, n)) =>
              AtPair(payload, depth, p + n, pairs + [e], Set(es, e.key, e.val), calls + PairCalls(here, depth))
            case Err(e) =>
              ParsePairs(payload, depth) == Err(e) && PairsCalls(payload, depth) == calls + PairCalls(here, depth)
  {
    hide ParsePair, PairCalls, Set;
    var here := payload[p..];
    if ParsePair(here, depth).Ok? {
      var (e, n) := ParsePair(here, depth).value;
      assert here[n..] == payload[p + n..];
      PrependOne(pairs, e, ParsePairs(here[n..], depth));
      assert (pairs + [e])[..|pairs|] == pairs;
    }
  }

  lemma PairsEnd(payload: seq<byte>, depth: nat, pairs: seq<Entry>, es: seq<Entry>, calls: nat)
    requires AtPair(payload, depth, |payload|, pairs, es, calls)
    ensures ParsePairs(payload, depth) == Ok(pairs) && es == FromPairs(pairs)
    ensures PairsCalls(payload, depth) == calls
  {
    assert pairs + [] == pairs;
  }

  /** The map arm: read a key and a value, and `set` the pair, until the payload is used up. */
  method DecodeMap(payload: seq<byte>, depth: nat)
    returns (r: Result<seq<Entry>, TlvError>, ghost calls: nat)
    ensures var ps := ParsePairs(payload, depth);
            r == if ps.Ok? then Ok(FromPairs(ps.value)) else ps
    ensures calls == PairsCalls(payload, depth)
    decreases |payload|, 2
  {
    hide ParsePair, PairCalls, Find, Set;
    var m := new MapCell();
    var p := 0;
    calls := 0;
    ghost var pairs: seq<Entry> := [];
    assert payload[0..] == payload;
    PrependNone(ParsePairs(payload, depth));
    while p < |payload|
      invariant fresh(m)
      invariant AtPair(payload, depth, p, pairs, m.entries, calls)
      decreases |payload| - p
    {
      var pair, next;
      ghost var more;
      PairsTurn(payload, depth, p, pairs, m.entries, calls);
      pair, next, more := DecodePair(payload, p, depth);
      calls := calls + more;
      if pair.Err? {
        return Err(pair.error), calls;
      }
      m.Insert(pair.value.key, pair.value.val);
      pairs := pairs + [pair.value];
      p := next;
    }
    PairsEnd(payload, depth, pairs, m.entries, calls);
    r := Ok(m.entries);
  }

  /** One turn of the map arm's loop, up to `set`. */
  method DecodePair(payload: seq<byte>, p: nat, depth: nat)
    returns (r: Result<Entry, TlvError>, next: nat, ghost calls: nat)
    requires p < |payload|
    ensures match ParsePair(payload[p..], depth)
            case Ok((e, n)) => r == Ok(e) && next == p + n <= |payload|
            case Err(e) => r == Err(e)
    ensures calls == PairCalls(payload[p..], depth)
    decreases |payload| - p, 1
  {
    hide Parse, Calls;
    var key, val;
    ghost var more;
    key, next, calls := DecodeValue(payload, p, depth);
    if key.Err? {
      return Err(key.error), next, calls;
    }
    if !key.value.String? {
      return Err(KeyNotString), next, calls;
    }
    if next >= |payload| {
      return Err(MissingValue(key.value.text)), next, calls;
    }
    assert payload[p..][next - p..] == payload[next..];
    val, next, more := DecodeValue(payload, next, depth);
    calls := calls + more;
    if val.Err? {
      return Err(val.error), next, calls;
    }
    r := Ok(Entry(key.value.text, val.value));
  }

  method DecodeBuffer(buf: seq<byte>) returns (r: Result<Value, TlvError>)
    ensures r == Decode(buf)
  {
    var end;
    ghost var calls;
    r, end, calls := DecodeValue(buf, 0, 0);
    assert From(buf, 0) == buf;
  }

  method DecodeMapOption(buf: seq<byte>) returns (r: Option<seq<Entry>>)
    ensures r == DecodeMapOpt(buf)
  {
    if buf == [] {
      return None;
    }
    var v := DecodeBuffer(buf);
    if v.Ok? && v.value.Map? {
      return Some(v.value.entries);
    }
    return None;
  }
}
