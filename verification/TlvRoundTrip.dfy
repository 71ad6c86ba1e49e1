/**
 What decoding makes of an encoding: the exact domain on which `decode` undoes `encode`, and
 that encodings, of any size or depth, can be told apart.
 */
module TlvRoundTrip {
  import opened Wrappers
  import opened Bytes
  import opened Leb128
  import opened Tlv

  // ── One tagged payload ─────────────────────────────────────

  lemma TaggedLength(t: byte, p: seq<byte>)
    ensures |Tagged(t, p)| == 1 + |Varint(|p|)| + |p|
    ensures Tagged(t, p)[0] == t
  {
  }

  /** The header in front of any written payload is read back, with both caps as the only hurdles. */
  lemma HeaderOfTagged(t: byte, p: seq<byte>, rest: seq<byte>, depth: nat)
    requires 1 <= t <= 15 && |p| < TWO64
    ensures ParseHeader(Tagged(t, p) + rest, depth) ==
            if depth > MAX_DECODE_DEPTH then Err(TooDeep(depth))
            else if |p| > MAX_PAYLOAD_SIZE then Err(PayloadTooLarge(|p|))
            else Ok(Header(t, 1 + |Varint(|p|)|, |Tagged(t, p)|))
    ensures (Tagged(t, p) + rest)[1 + |Varint(|p|)|..|Tagged(t, p)|] == p
  {
    var buf := Tagged(t, p) + rest;
    assert buf[1..] == Varint(|p|) + (p + rest);
    ReadOfVarint(|p|, p + rest);
  }

  /** Two tagged payloads that start the same bytes are the same. */
  lemma TaggedPrefixFree(t: byte, p: seq<byte>, r: seq<byte>, u: byte, q: seq<byte>, s: seq<byte>)
    requires Tagged(t, p) + r == Tagged(u, q) + s
    ensures t == u && p == q && r == s
  {
    var x, y := Tagged(t, p) + r, Tagged(u, q) + s;
    assert x[0] == t && y[0] == u;
    assert x[1..] == Varint(|p|) + (p + r);
    assert y[1..] == Varint(|q|) + (q + s);
    VarintPrefixFree(|p|, |q|, p + r, q + s);
    SplitSame(p, r, q, s);
  }

  // ── Scalars ────────────────────────────────────────────────

  lemma SignedOfUnsigned()
    ensures forall n: i32 :: Signed32(Unsigned32(n)) == n
    ensures forall n: i64 :: Signed64(Unsigned64(n)) == n
  {
  }

  lemma ScalarReadBack(v: Value)
    requires Scalar(v) && WellFormed(v)
    ensures ParseScalar(TypeByte(v), ScalarPayload(v)) == Ok(Norm(v))
  {
    Widths();
    assert ScalarPayload(v)[..|ScalarPayload(v)|] == ScalarPayload(v);
    match v
    case Uint16(n) => FromBEOfBE(n, 2);
    case Uint32(n) => FromBEOfBE(n, 4);
    case Uint64(n) => FromBEOfBE(n, 8);
    case Int32(n) => SignedOfUnsigned(); FromBEOfBE(Unsigned32(n), 4);
    case Int64(n) => SignedOfUnsigned(); FromBEOfBE(Unsigned64(n), 8);
    case Float32(n) => FromBEOfBE(n, 4);
    case Float64(n) => FromBEOfBE(n, 8);
    case Timestamp(d) => FromBEOfBE(WireMillis(d), 8);
    case _ =>
  }

  // ── Containers ─────────────────────────────────────────────

  /** Everything inside a container is strictly smaller than the container. */
  lemma InnerPayloadsSmaller(v: Value)
    ensures |Payload(v)| + 2 <= |Encode(v)|
    ensures v.Array? ==> forall i :: 0 <= i < |v.items| ==> |Payload(v.items[i])| < |Payload(v)|
    ensures v.Map? ==> forall i :: 0 <= i < |v.entries| ==>
                         |v.entries[i].key| < |Payload(v)| && |Payload(v.entries[i].val)| < |Payload(v)|
  {
    TaggedLength(TypeByte(v), Payload(v));
    if v.Array? {
      forall i | 0 <= i < |v.items| ensures |Payload(v.items[i])| < |Payload(v)| {
        ElementEncodings(v.items, i);
        TaggedLength(TypeByte(v.items[i]), Payload(v.items[i]));
      }
    }
    if v.Map? {
      forall i | 0 <= i < |v.entries|
        ensures |v.entries[i].key| < |Payload(v)| && |Payload(v.entries[i].val)| < |Payload(v)|
      {
        var e := v.entries[i];
        EntryEncodings(v.entries, i);
        TaggedLength(0x01, e.key);
        TaggedLength(TypeByte(e.val), Payload(e.val));
      }
    }
  }

  lemma {:induction false} ElementEncodings(items: seq<Value>, i: nat)
    requires i < |items|
    ensures |Encode(items[i])| <= |EncodeAll(items)|
  {
    if i == 0 {
    } else {
      ElementEncodings(items[1..], i - 1);
    }
  }

  lemma {:induction false} EntryEncodings(es: seq<Entry>, i: nat)
    requires i < |es|
    ensures |EncodeEntry(es[i])| <= |EncodeEntries(es)|
  {
    if i == 0 {
    } else {
      EntryEncodings(es[1..], i - 1);
    }
  }

  /** `Map::set` on distinct keys only appends. */
  lemma {:induction false} FromDistinctPairs(ps: seq<Entry>)
    requires DistinctKeys(ps)
    ensures FromPairs(ps) == ps
  {
    if ps == [] {
    } else {
      FromDistinctPairs(ps[..|ps| - 1]);
      assert Find(ps[..|ps| - 1], ps[|ps| - 1].key) == |ps| - 1;
      assert ps == ps[..|ps| - 1] + [ps[|ps| - 1]];
    }
  }

  // ── The round trip ─────────────────────────────────────────

  /** The values `decode` accepts when they start `depth` levels down. */
  predicate Fits(v: Value, depth: nat) {
    depth + Depth(v) <= MAX_DECODE_DEPTH && |Payload(v)| <= MAX_PAYLOAD_SIZE
  }

  /** `Parse` succeeds on an encoding exactly when the value fits, and then returns its normal form. */
  lemma {:induction false} ParseOfEncode(v: Value, rest: seq<byte>, depth: nat)
    requires WellFormed(v) && |Payload(v)| < TWO64
    ensures var r := Parse(Encode(v) + rest, depth);
            if Fits(v, depth) then r == Ok((Norm(v), |Encode(v)|)) else r.Err?
    decreases v, 1
  {
    HeaderOfTagged(TypeByte(v), Payload(v), rest, depth);
    if depth <= MAX_DECODE_DEPTH && |Payload(v)| <= MAX_PAYLOAD_SIZE {
      PayloadReadBack(v, depth);
    }
  }

  lemma {:induction false} PayloadReadBack(v: Value, depth: nat)
    requires WellFormed(v) && |Payload(v)| <= MAX_PAYLOAD_SIZE && depth <= MAX_DECODE_DEPTH
    ensures var r := ParsePayload(TypeByte(v), Payload(v), depth);
            if depth + Depth(v) <= MAX_DECODE_DEPTH then r == Ok(Norm(v)) else r.Err?
    decreases v, 0
  {
    match v
    case Array(items) =>
      ItemsReadBack(items, depth);
    case Map(es) =>
      PairsReadBack(es, depth);
      FromDistinctPairs(NormEntries(es));
    case _ =>
      ScalarReadBack(v);
  }

  lemma {:induction false} ItemsReadBack(items: seq<Value>, depth: nat)
    requires forall i :: 0 <= i < |items| ==> WellFormed(items[i])
    requires |EncodeAll(items)| <= MAX_PAYLOAD_SIZE && depth <= MAX_DECODE_DEPTH
    ensures var r := ParseItems(EncodeAll(items), depth + 1);
            if depth + DepthAll(items) <= MAX_DECODE_DEPTH then r == Ok(NormAll(items)) else r.Err?
    decreases items, 0
  {
    if items == [] {
    } else {
      var v, others := items[0], items[1..];
      InnerPayloadsSmaller(v);
      assert EncodeAll(items) == Encode(v) + EncodeAll(others);
      ParseOfEncode(v, EncodeAll(others), depth + 1);
      ItemsReadBack(others, depth);
      assert EncodeAll(items)[|Encode(v)|..] == EncodeAll(others);
    }
  }

  lemma {:induction false} PairsReadBack(es: seq<Entry>, depth: nat)
    requires forall i :: 0 <= i < |es| ==> ValidUtf8(es[i].key) && WellFormed(es[i].val)
    requires |EncodeEntries(es)| <= MAX_PAYLOAD_SIZE && depth <= MAX_DECODE_DEPTH
    ensures var r := ParsePairs(EncodeEntries(es), depth + 1);
            if depth + DepthEntries(es) <= MAX_DECODE_DEPTH then r == Ok(NormEntries(es)) else r.Err?
    decreases es, 0
  {
    if es == [] {
    } else {
      var e, others := es[0], es[1..];
      assert EncodeEntries(es) == EncodeEntry(e) + EncodeEntries(others);
      PairReadBack(e, EncodeEntries(others), depth + 1);
      PairsReadBack(others, depth);
      assert EncodeEntries(es)[|EncodeEntry(e)|..] == EncodeEntries(others);
    }
  }

  lemma {:induction false} PairReadBack(e: Entry, rest: seq<byte>, depth: nat)
    requires ValidUtf8(e.key) && WellFormed(e.val)
    requires |EncodeEntry(e)| <= MAX_PAYLOAD_SIZE
    ensures var r := ParsePair(EncodeEntry(e) + rest, depth);
            if depth + Depth(e.val) <= MAX_DECODE_DEPTH
            then r == Ok((Entry(e.key, Norm(e.val)), |EncodeEntry(e)|)) else r.Err?
    decreases e, 0
  {
    hide Parse, ParsePair, Encode;
    var k, tail, buf := |Tagged(0x01, e.key)|, Encode(e.val) + rest, EncodeEntry(e) + rest;
    EntryParts(e, rest);
    KeyReadBack(e.key, tail, depth);
    ParseOfEncode(e.val, rest, depth);
    assert buf[k..] == tail;
    if depth + Depth(e.val) <= MAX_DECODE_DEPTH {
      PairOfParts(buf, depth, e.key, k);
    } else if depth <= MAX_DECODE_DEPTH {
      PairWithoutValue(buf, depth, k);
    } else {
      PairWithoutKey(buf, depth);
    }
  }

  lemma PairOfParts(buf: seq<byte>, depth: nat, key: seq<byte>, k: nat)
    requires Parse(buf, depth).Ok? && Parse(buf, depth).value == (String(key), k)
    requires k < |buf| && Parse(buf[k..], depth).Ok?
    ensures var v := Parse(buf[k..], depth).value;
            ParsePair(buf, depth) == Ok((Entry(key, v.0), k + v.1))
  {
  }

  lemma PairWithoutKey(buf: seq<byte>, depth: nat)
    requires Parse(buf, depth).Err?
    ensures ParsePair(buf, depth).Err?
  {
  }

  lemma PairWithoutValue(buf: seq<byte>, depth: nat, k: nat)
    requires Parse(buf, depth).Ok? && Parse(buf, depth).value.1 == k
    requires k < |buf| && Parse(buf[k..], depth).Err?
    ensures ParsePair(buf, depth).Err?
  {
  }

  /** An entry is written as its key followed by its value. */
  lemma EntryParts(e: Entry, rest: seq<byte>)
    ensures EncodeEntry(e) + rest == Tagged(0x01, e.key) + (Encode(e.val) + rest)
    ensures |EncodeEntry(e)| == |Tagged(0x01, e.key)| + |Encode(e.val)|
    ensures |e.key| + 2 <= |Tagged(0x01, e.key)| && |Payload(e.val)| + 2 <= |Encode(e.val)|
  {
    TaggedLength(0x01, e.key);
    TaggedLength(TypeByte(e.val), Payload(e.val));
  }

  lemma KeyReadBack(key: seq<byte>, rest: seq<byte>, depth: nat)
    requires ValidUtf8(key) && |key| <= MAX_PAYLOAD_SIZE
    ensures var r := Parse(Tagged(0x01, key) + rest, depth);
            if depth <= MAX_DECODE_DEPTH then r == Ok((String(key), |Tagged(0x01, key)|)) else r.Err?
  {
    HeaderOfTagged(0x01, key, rest, depth);
  }

  /**
   The round trip holds on exactly the values within both caps: nesting of at most 64 levels and an
   outermost payload of at most 524288 bytes. (A `Vec` holds less than 2^63 bytes.)
   */
  lemma RoundTripDomain(v: Value)
    requires WellFormed(v) && |Payload(v)| < TWO64
    ensures Decode(Encode(v)).Ok? <==> Depth(v) <= 64 && |Payload(v)| <= 524288
    ensures Decode(Encode(v)).Ok? ==> Decode(Encode(v)).value == Norm(v)
  {
    ParseOfEncode(v, [], 0);
    assert Encode(v) + [] == Encode(v);
  }

  // ── What the normal form is ────────────────────────────────

  /** A timestamp as a number of nanoseconds. */
  function Nanoseconds(d: Duration): nat { d.secs * 1_000_000_000 + d.nanos }

  /**
   The wire holds the whole milliseconds of a timestamp modulo 2^64. Below 2^64 what is decoded is the
   latest whole millisecond not after it.
   */
  lemma WholeMillis(d: Duration, m: nat)
    requires m * 1_000_000 <= d.secs * 1_000_000_000 + d.nanos < (m + 1) * 1_000_000
    ensures ScalarPayload(Timestamp(d)) == BE(m % 0x1_0000_0000_0000_0000, 8)
    ensures m < 0x1_0000_0000_0000_0000 ==>
              && Norm(Timestamp(d)).Timestamp? && Nanoseconds(Norm(Timestamp(d)).at) == m * 1_000_000
              && forall k: nat :: k * 1_000_000 <= Nanoseconds(d) ==> k <= m
  {
    hide BE, WireMillis, FromMillis, Nanoseconds;
    WireMillisIs(d, m);
    if m < 0x1_0000_0000_0000_0000 {
      NanosOfMillis(m);
      forall k: nat | k * 1_000_000 <= Nanoseconds(d) ensures k <= m {
        NotAfter(d, m, k);
      }
    }
  }

  lemma WireMillisIs(d: Duration, m: nat)
    requires m * 1_000_000 <= d.secs * 1_000_000_000 + d.nanos < (m + 1) * 1_000_000
    ensures WireMillis(d) == m % 0x1_0000_0000_0000_0000
    ensures m < 0x1_0000_0000_0000_0000 ==> WireMillis(d) == m
  {
    MillisOf(d.secs, d.nanos, m);
  }

  lemma NotAfter(d: Duration, m: nat, k: nat)
    requires d.secs * 1_000_000_000 + d.nanos < (m + 1) * 1_000_000
    requires k * 1_000_000 <= Nanoseconds(d)
    ensures k <= m
  {
  }

  lemma MillisOf(secs: nat, nanos: nat, m: nat)
    requires nanos < 1_000_000_000
    requires m * 1_000_000 <= secs * 1_000_000_000 + nanos < (m + 1) * 1_000_000
    ensures secs * 1000 + nanos / 1_000_000 == m
  {
    assert nanos == 1_000_000 * (nanos / 1_000_000) + nanos % 1_000_000;
  }

  lemma NanosOfMillis(m: u64)
    ensures Nanoseconds(FromMillis(m)) == m * 1_000_000
  {
    assert m == 1000 * (m / 1000) + m % 1000;
  }

  /** Nothing but timestamps is changed, at any depth. */
  lemma NormKeepsTheRest(v: Value)
    ensures Scalar(v) && !v.Timestamp? ==> Norm(v) == v
    ensures v.Array? ==> Norm(v).Array? && |Norm(v).items| == |v.items|
                         && forall i :: 0 <= i < |v.items| ==> Norm(v).items[i] == Norm(v.items[i])
    ensures v.Map? ==> Norm(v).Map? && |Norm(v).entries| == |v.entries|
                       && forall i :: 0 <= i < |v.entries| ==>
                            Norm(v).entries[i] == Entry(v.entries[i].key, Norm(v.entries[i].val))
  {
  }

  // ── Telling encodings apart ────────────────────────────────

  lemma ScalarInjective(v: Value, w: Value)
    requires Scalar(v) && Scalar(w) && TypeByte(v) == TypeByte(w)
    requires ScalarPayload(v) == ScalarPayload(w)
    ensures Norm(v) == Norm(w)
  {
    Widths();
    SignedOfUnsigned();
    match v
    case Uint16(n) => FromBEOfBE(n, 2); FromBEOfBE(w.n16, 2);
    case Uint32(n) => FromBEOfBE(n, 4); FromBEOfBE(w.n32, 4);
    case Uint64(n) => FromBEOfBE(n, 8); FromBEOfBE(w.n64, 8);
    case Int32(n) => FromBEOfBE(Unsigned32(n), 4); FromBEOfBE(Unsigned32(w.s32), 4);
    case Int64(n) => FromBEOfBE(Unsigned64(n), 8); FromBEOfBE(Unsigned64(w.s64), 8);
    case Float32(n) => FromBEOfBE(n, 4); FromBEOfBE(w.bits32, 4);
    case Float64(n) => FromBEOfBE(n, 8); FromBEOfBE(w.bits64, 8);
    case Timestamp(d) => FromBEOfBE(WireMillis(d), 8); FromBEOfBE(WireMillis(w.at), 8);
    case _ =>
  }

  /**
   No encoding is a prefix of another and different values have different encodings, whatever their
   size or depth: the bytes determine the normal form and where it ends.
   */
  lemma {:induction false} EncodingsDistinct(v: Value, r: seq<byte>, w: Value, s: seq<byte>)
    requires Encode(v) + r == Encode(w) + s
    ensures Norm(v) == Norm(w) && r == s
    decreases v, 1
  {
    TaggedPrefixFree(TypeByte(v), Payload(v), r, TypeByte(w), Payload(w), s);
    match v
    case Array(items) => ArraysDistinct(items, w.items);
    case Map(es) => MapsDistinct(es, w.entries);
    case _ => ScalarInjective(v, w);
  }

  lemma {:induction false} ArraysDistinct(xs: seq<Value>, ys: seq<Value>)
    requires EncodeAll(xs) == EncodeAll(ys)
    ensures NormAll(xs) == NormAll(ys)
    decreases xs, 0
  {
    if xs == [] || ys == [] {
    } else {
      EncodingsDistinct(xs[0], EncodeAll(xs[1..]), ys[0], EncodeAll(ys[1..]));
      ArraysDistinct(xs[1..], ys[1..]);
    }
  }

  lemma {:induction false} MapsDistinct(xs: seq<Entry>, ys: seq<Entry>)
    requires EncodeEntries(xs) == EncodeEntries(ys)
    ensures NormEntries(xs) == NormEntries(ys)
    decreases xs, 0
  {
    if xs == [] || ys == [] {
    } else {
      var x, y := xs[0], ys[0];
      var r, s := EncodeEntries(xs[1..]), EncodeEntries(ys[1..]);
      EntryParts(x, r);
      EntryParts(y, s);
      TaggedPrefixFree(0x01, x.key, Encode(x.val) + r, 0x01, y.key, Encode(y.val) + s);
      EncodingsDistinct(x.val, r, y.val, s);
      MapsDistinct(xs[1..], ys[1..]);
    }
  }

  /** Encoding only sees the normal form. */
  lemma {:induction false} EncodeOfNorm(v: Value)
    ensures Encode(Norm(v)) == Encode(v)
    decreases v, 1
  {
    match v
    case Array(items) => EncodeOfNormAll(items);
    case Map(es) => EncodeOfNormEntries(es);
    case Timestamp(d) => EncodeOfNormTimestamp(d);
    case _ =>
  }

  lemma EncodeOfNormTimestamp(d: Duration)
    ensures Encode(Norm(Timestamp(d))) == Encode(Timestamp(d))
  {
    WireMillisOfFromMillis(WireMillis(d));
  }

  lemma {:induction false} EncodeOfNormAll(items: seq<Value>)
    ensures EncodeAll(NormAll(items)) == EncodeAll(items)
    decreases items, 0
  {
    if items == [] {
    } else {
      EncodeOfNorm(items[0]);
      EncodeOfNormAll(items[1..]);
      assert NormAll(items)[1..] == NormAll(items[1..]);
    }
  }

  lemma {:induction false} EncodeOfNormEntries(es: seq<Entry>)
    ensures EncodeEntries(NormEntries(es)) == EncodeEntries(es)
    decreases es, 0
  {
    if es == [] {
    } else {
      EncodeOfNorm(es[0].val);
      EncodeOfNormEntries(es[1..]);
      assert NormEntries(es)[1..] == NormEntries(es[1..]);
    }
  }

  /** Two values have the same encoding exactly when they agree up to millisecond truncation. */
  lemma EncodeInjective(v: Value, w: Value)
    ensures Encode(v) == Encode(w) <==> Norm(v) == Norm(w)
  {
    if Encode(v) == Encode(w) {
      EncodingsDistinct(v, [], w, []);
    }
    EncodeOfNorm(v);
    EncodeOfNorm(w);
  }
}
