/**
 The TLV wire format as a grammar, stated apart from the decoder: which byte strings are forms of
 which values, digit by digit. The decoder accepts exactly the forms, with their meaning.
 */
module TlvGrammar {
  import opened Wrappers
  import opened Bytes
  import opened Leb128
  import opened Tlv
  import opened TlvRoundTrip
  import opened TlvNormalForm

  // ── Forms ──────────────────────────────────────────────────

  /** A form keeps what a value leaves open: padded lengths and payloads, repeated keys. */
  datatype Form =
    | Leaf(tag: byte, len: seq<byte>, payload: seq<byte>)
    | List(len: seq<byte>, items: seq<Form>)
    | Table(len: seq<byte>, pairs: seq<Pair>)

  datatype Pair = Pair(key: Form, val: Form)

  function Flat(f: Form): seq<byte>
    decreases f, 1
  {
    match f
    case Leaf(tag, len, _) => [tag] + len + Body(f)
    case List(len, _) => [12] + len + Body(f)
    case Table(len, _) => [13] + len + Body(f)
  }

  function Body(f: Form): seq<byte>
    decreases f, 0
  {
    match f
    case Leaf(_, _, payload) => payload
    case List(_, items) => FlatItems(items)
    case Table(_, pairs) => FlatPairs(pairs)
  }

  function FlatItems(items: seq<Form>): seq<byte> {
    if items == [] then [] else Flat(items[0]) + FlatItems(items[1..])
  }

  function FlatPairs(pairs: seq<Pair>): seq<byte> {
    if pairs == [] then [] else FlatPair(pairs[0]) + FlatPairs(pairs[1..])
  }

  function FlatPair(p: Pair): seq<byte> { Flat(p.key) + Flat(p.val) }

  /** One to ten groups of seven bits, all but the last marked, for a number modulo 2^64. */
  predicate LengthField(len: seq<byte>, n: nat) {
    && 1 <= |len| <= 10
    && (forall i :: 0 <= i < |len| - 1 ==> len[i] >= 128) && len[|len| - 1] < 128
    && n == Weight(len) % 0x1_0000_0000_0000_0000
  }

  predicate LegalLeaf(tag: byte, p: seq<byte>) {
    match tag
    case 1 => ValidUtf8(p)
    case 2 => true
    case 3 => |p| >= 1
    case 4 => |p| >= 2
    case 5 => |p| >= 4
    case 6 => |p| >= 8
    case 7 => |p| >= 4
    case 8 => |p| >= 8
    case 9 => |p| >= 4
    case 10 => |p| >= 8
    case 11 => |p| >= 1
    case 14 => true
    case 15 => |p| >= 8
    case _ => false
  }

  function LeafValue(tag: byte, p: seq<byte>): Value
    requires LegalLeaf(tag, p)
  {
    match tag
    case 1 => String(p)
    case 2 => Value.Bytes(p)
    case 3 => Uint8(p[0])
    case 4 => Uint16(Two(p))
    case 5 => Uint32(Four(p))
    case 6 => Uint64(Eight(p))
    case 7 => Int32(if p[0] < 128 then Four(p) else Four(p) - 0x1_0000_0000)
    case 8 => Int64(if p[0] < 128 then Eight(p) else Eight(p) - 0x1_0000_0000_0000_0000)
    case 9 => Float32(Four(p))
    case 10 => Float64(Eight(p))
    case 11 => Bool(p[0] != 0)
    case 14 => Null
    case _ => Timestamp(Duration(Eight(p) / 1000, Eight(p) % 1000 * 1_000_000))
  }

  predicate Legal(f: Form, depth: nat)
    decreases f, 1
  {
    && depth <= 64 && LengthField(f.len, |Body(f)|) && |Body(f)| <= 524288
    && match f
       case Leaf(tag, _, p) => LegalLeaf(tag, p)
       case List(_, items) => LegalItems(items, depth + 1)
       case Table(_, pairs) => LegalPairs(pairs, depth + 1)
  }

  predicate LegalItems(items: seq<Form>, depth: nat) {
    forall i :: 0 <= i < |items| ==> Legal(items[i], depth)
  }

  predicate LegalPairs(pairs: seq<Pair>, depth: nat) {
    forall i :: 0 <= i < |pairs| ==> LegalPair(pairs[i], depth)
  }

  /** Keys are strings. */
  predicate LegalPair(p: Pair, depth: nat) {
    p.key.Leaf? && p.key.tag == 1 && Legal(p.key, depth) && Legal(p.val, depth)
  }

  function Meaning(f: Form, depth: nat): Value
    requires Legal(f, depth)
    decreases f, 1
  {
    match f
    case Leaf(tag, _, p) => LeafValue(tag, p)
    case List(_, items) => Array(ItemMeanings(items, depth + 1))
    case Table(_, pairs) => Map(FromPairs(PairMeanings(pairs, depth + 1)))
  }

  function ItemMeanings(items: seq<Form>, depth: nat): seq<Value>
    requires LegalItems(items, depth)
  {
    if items == [] then [] else [Meaning(items[0], depth)] + ItemMeanings(items[1..], depth)
  }

  function PairMeanings(pairs: seq<Pair>, depth: nat): seq<Entry>
    requires LegalPairs(pairs, depth)
  {
    if pairs == [] then []
    else [PairMeaning(pairs[0], depth)] + PairMeanings(pairs[1..], depth)
  }

  function PairMeaning(p: Pair, depth: nat): Entry
    requires LegalPair(p, depth)
  {
    Entry(p.key.payload, Meaning(p.val, depth))
  }

  // ── Lengths and scalars ────────────────────────────────────

  lemma LengthRead(len: seq<byte>, n: nat, rest: seq<byte>)
    requires LengthField(len, n)
    ensures ReadVarint(len + rest) == Ok((n, |len|))
  {
    var buf := len + rest;
    MarkedIs(buf, |len| - 1);
    assert buf[..|len|] == len;
  }

  lemma LengthOfRead(buf: seq<byte>)
    requires ReadVarint(buf).Ok?
    ensures var (n, k) := ReadVarint(buf).value; LengthField(buf[..k], n)
  {
  }

  lemma LeafRead(tag: byte, p: seq<byte>)
    requires 1 <= tag <= 15 && tag != 12 && tag != 13
    ensures ParseScalar(tag, p) ==
            if LegalLeaf(tag, p) then Ok(LeafValue(tag, p))
            else if tag == 1 then Err(InvalidUtf8) else Err(TooFewBytes(tag))
  {
    hide Two, Four, Eight, FromBE, ValidUtf8;
    FromBigEndian(p);
    if tag == 7 && |p| >= 4 { SignByte32(p); }
    if tag == 8 && |p| >= 8 { SignByte64(p); }
  }

  lemma LegalTag(tag: byte, p: seq<byte>)
    requires LegalLeaf(tag, p)
    ensures 1 <= tag <= 15 && tag != 12 && tag != 13
  {
  }

  lemma SignByte32(p: seq<byte>)
    requires |p| >= 4
    ensures p[0] < 128 <==> Four(p) < 0x8000_0000
  {
  }

  lemma SignByte64(p: seq<byte>)
    requires |p| >= 8
    ensures p[0] < 128 <==> Eight(p) < 0x8000_0000_0000_0000
  {
    SignByte32(p);
  }

  // ── The decoder reads every form ───────────────────────────

  lemma {:induction false} FormRead(f: Form, depth: nat, rest: seq<byte>)
    requires Legal(f, depth)
    ensures Parse(Flat(f) + rest, depth) == Ok((Meaning(f, depth), |Flat(f)|))
    decreases f, 1
  {
    hide LegalLeaf, LeafValue, ParseScalar, FromPairs, LengthField, LegalItems, LegalPairs, ReadVarint;
    var buf, body, tag := Flat(f) + rest, Body(f), Flat(f)[0];
    assert buf[1..] == f.len + (body + rest);
    LengthRead(f.len, |body|, body + rest);
    assert buf[1 + |f.len|..1 + |f.len| + |body|] == body;
    match f
    case Leaf(_, _, p) => LegalTag(tag, p); LeafRead(tag, p);
    case List(_, items) => ItemsRead(items, depth + 1);
    case Table(_, pairs) => PairsRead(pairs, depth + 1);
  }

  lemma {:induction false} ItemsRead(items: seq<Form>, depth: nat)
    requires LegalItems(items, depth)
    ensures ParseItems(FlatItems(items), depth) == Ok(ItemMeanings(items, depth))
    decreases items, 0
  {
    if items == [] {
    } else {
      var rest := FlatItems(items[1..]);
      FormRead(items[0], depth, rest);
      ItemsRead(items[1..], depth);
      assert (Flat(items[0]) + rest)[|Flat(items[0])|..] == rest;
    }
  }

  lemma {:induction false} PairsRead(pairs: seq<Pair>, depth: nat)
    requires LegalPairs(pairs, depth)
    ensures ParsePairs(FlatPairs(pairs), depth) == Ok(PairMeanings(pairs, depth))
    decreases pairs, 0
  {
    if pairs == [] {
    } else {
      var rest := FlatPairs(pairs[1..]);
      PairRead(pairs[0], depth, rest);
      PairsRead(pairs[1..], depth);
      assert (FlatPair(pairs[0]) + rest)[|FlatPair(pairs[0])|..] == rest;
    }
  }

  lemma {:induction false} PairRead(p: Pair, depth: nat, rest: seq<byte>)
    requires LegalPair(p, depth)
    ensures ParsePair(FlatPair(p) + rest, depth) == Ok((PairMeaning(p, depth), |FlatPair(p)|))
    decreases p, 0
  {
    hide Parse, ParsePair, Flat, Legal;
    var tail, k := Flat(p.val) + rest, |Flat(p.key)|;
    var buf := FlatPair(p) + rest;
    assert buf == Flat(p.key) + tail && buf[k..] == tail;
    FormRead(p.key, depth, tail);
    FormRead(p.val, depth, rest);
    KeyMeaning(p, depth);
    FlatNotEmpty(p.val);
    PairOfParts(buf, depth, p.key.payload, k);
  }

  lemma FlatNotEmpty(f: Form)
    ensures Flat(f) != []
  {
  }

  lemma KeyMeaning(p: Pair, depth: nat)
    requires LegalPair(p, depth)
    ensures Meaning(p.key, depth) == String(p.key.payload)
  {
  }

  // ── The decoder reads nothing else ─────────────────────────

  lemma {:induction false} FormOfParse(buf: seq<byte>, depth: nat) returns (f: Form)
    requires Parse(buf, depth).Ok?
    ensures var (v, n) := Parse(buf, depth).value;
            Legal(f, depth) && Flat(f) == buf[..n] && Meaning(f, depth) == v
    decreases |buf|, 0, 0
  {
    hide LegalLeaf, LeafValue, ParseScalar, FromPairs, LengthField, LegalItems, LegalPairs, ReadVarint;
    var h := ParseHeader(buf, depth).value;
    var len, payload := buf[1..h.start], buf[h.start..h.end];
    LengthOfRead(buf[1..]);
    assert buf[1..][..h.start - 1] == len;
    assert buf[..h.end] == [h.tag] + len + payload;
    if h.tag == 12 {
      var items := FormsOfItems(payload, depth + 1);
      f := List(len, items);
    } else if h.tag == 13 {
      var pairs := FormsOfPairs(payload, depth + 1);
      f := Table(len, pairs);
    } else {
      f := Leaf(h.tag, len, payload);
      LeafRead(h.tag, payload);
    }
  }

  lemma ParsedItems(payload: seq<byte>, depth: nat)
    requires payload != [] && ParseItems(payload, depth).Ok?
    ensures Parse(payload, depth).Ok?
    ensures var (v, n) := Parse(payload, depth).value;
            var others := ParseItems(payload[n..], depth);
            others.Ok? && ParseItems(payload, depth).value == [v] + others.value
  {
    hide Parse;
  }

  lemma ParsedPairs(payload: seq<byte>, depth: nat)
    requires payload != [] && ParsePairs(payload, depth).Ok?
    ensures ParsePair(payload, depth).Ok?
    ensures var (p, n) := ParsePair(payload, depth).value;
            var others := ParsePairs(payload[n..], depth);
            others.Ok? && ParsePairs(payload, depth).value == [p] + others.value
  {
    hide ParsePair;
  }

  lemma ItemsCons(f: Form, items: seq<Form>, depth: nat)
    requires Legal(f, depth) && LegalItems(items, depth)
    ensures LegalItems([f] + items, depth) && FlatItems([f] + items) == Flat(f) + FlatItems(items)
    ensures ItemMeanings([f] + items, depth) == [Meaning(f, depth)] + ItemMeanings(items, depth)
  {
    hide Legal, Flat, Meaning;
    assert ([f] + items)[1..] == items;
  }

  lemma PairsCons(p: Pair, pairs: seq<Pair>, depth: nat)
    requires LegalPair(p, depth) && LegalPairs(pairs, depth)
    ensures LegalPairs([p] + pairs, depth) && FlatPairs([p] + pairs) == FlatPair(p) + FlatPairs(pairs)
    ensures PairMeanings([p] + pairs, depth) == [PairMeaning(p, depth)] + PairMeanings(pairs, depth)
  {
    hide LegalPair, FlatPair, PairMeaning;
    assert ([p] + pairs)[1..] == pairs;
  }

  lemma {:induction false} FormsOfItems(payload: seq<byte>, depth: nat) returns (items: seq<Form>)
    requires ParseItems(payload, depth).Ok?
    ensures LegalItems(items, depth) && FlatItems(items) == payload
    ensures ItemMeanings(items, depth) == ParseItems(payload, depth).value
    decreases |payload|, 1
  {
    if payload == [] {
      items := [];
    } else {
      hide Legal, Flat, Meaning, Parse, FlatItems, LegalItems, ItemMeanings, ParseItems;
      ParsedItems(payload, depth);
      var n := Parse(payload, depth).value.1;
      var first := FormOfParse(payload, depth);
      var others := FormsOfItems(payload[n..], depth);
      items := [first] + others;
      ItemsCons(first, others, depth);
      assert payload == payload[..n] + payload[n..];
    }
  }

  lemma {:induction false} FormsOfPairs(payload: seq<byte>, depth: nat) returns (pairs: seq<Pair>)
    requires ParsePairs(payload, depth).Ok?
    ensures LegalPairs(pairs, depth) && FlatPairs(pairs) == payload
    ensures PairMeanings(pairs, depth) == ParsePairs(payload, depth).value
    decreases |payload|, 1
  {
    if payload == [] {
      pairs := [];
    } else {
      hide LegalPair, FlatPair, PairMeaning, ParsePair, FlatPairs, LegalPairs, PairMeanings, ParsePairs;
      ParsedPairs(payload, depth);
      var n := ParsePair(payload, depth).value.1;
      var first := FormOfPair(payload, depth);
      var others := FormsOfPairs(payload[n..], depth);
      pairs := [first] + others;
      PairsCons(first, others, depth);
      assert payload == payload[..n] + payload[n..];
    }
  }

  lemma {:induction false} FormOfPair(payload: seq<byte>, depth: nat) returns (pair: Pair)
    requires ParsePair(payload, depth).Ok?
    ensures LegalPair(pair, depth)
    ensures var (e, n) := ParsePair(payload, depth).value;
            FlatPair(pair) == payload[..n] && e == PairMeaning(pair, depth)
    decreases |payload|, 0, 1
  {
    hide Flat, Legal, Meaning, Parse;
    var k := Parse(payload, depth).value.1;
    var key := FormOfParse(payload, depth);
    var val := FormOfParse(payload[k..], depth);
    StringForm(key, depth);
    pair := Pair(key, val);
    var m := Parse(payload[k..], depth).value.1;
    assert payload[..k + m] == payload[..k] + payload[k..][..m];
  }

  lemma StringForm(f: Form, depth: nat)
    requires Legal(f, depth) && Meaning(f, depth).String?
    ensures f.Leaf? && f.tag == 1 && Meaning(f, depth) == String(f.payload)
  {
  }

  // ── Exactly ────────────────────────────────────────────────

  ghost predicate FormFor(f: Form, depth: nat, bytes: seq<byte>, v: Value) {
    Legal(f, depth) && Flat(f) == bytes && Meaning(f, depth) == v
  }

  /**
   `decode_value` reads v from the first n bytes of a buffer exactly if they are a form of v, and
   `decode` returns v exactly if some first bytes are.
   */
  lemma ParseExactly(buf: seq<byte>, depth: nat, v: Value, n: nat)
    ensures Parse(buf, depth) == Ok((v, n)) <==> n <= |buf| && exists f :: FormFor(f, depth, buf[..n], v)
    ensures Decode(buf) == Ok(v) <==> exists k, f :: 0 <= k <= |buf| && FormFor(f, 0, buf[..k], v)
  {
    hide Legal, Flat, Meaning, Parse;
    ReadExactly(buf, depth, v, n);
    if Decode(buf) == Ok(v) {
      var k := Parse(buf, 0).value.1;
      ReadExactly(buf, 0, v, k);
    }
    forall k, f | 0 <= k <= |buf| && FormFor(f, 0, buf[..k], v) ensures Decode(buf) == Ok(v) {
      ReadExactly(buf, 0, v, k);
    }
  }

  lemma ReadExactly(buf: seq<byte>, depth: nat, v: Value, n: nat)
    ensures Parse(buf, depth) == Ok((v, n)) <==> n <= |buf| && exists f :: FormFor(f, depth, buf[..n], v)
  {
    hide Legal, Flat, Meaning;
    if Parse(buf, depth) == Ok((v, n)) {
      var f := FormOfParse(buf, depth);
      assert FormFor(f, depth, buf[..n], v);
    }
    forall f | n <= |buf| && FormFor(f, depth, buf[..n], v) ensures Parse(buf, depth) == Ok((v, n)) {
      FormRead(f, depth, buf[n..]);
      assert buf == buf[..n] + buf[n..];
    }
  }

  // ── Work ───────────────────────────────────────────────────

  /** Values in a form, keys and containers included. */
  function Nodes(f: Form): nat
    decreases f, 1
  {
    match f
    case Leaf(_, _, _) => 1
    case List(_, items) => 1 + ItemNodes(items)
    case Table(_, pairs) => 1 + PairNodes(pairs)
  }

  function ItemNodes(items: seq<Form>): nat { if items == [] then 0 else Nodes(items[0]) + ItemNodes(items[1..]) }

  function PairNodes(pairs: seq<Pair>): nat { if pairs == [] then 0 else NodesOf(pairs[0]) + PairNodes(pairs[1..]) }

  function NodesOf(p: Pair): nat { Nodes(p.key) + Nodes(p.val) }

  /** Reading a form takes one call of `decode_value` for each value in it. */
  lemma {:induction false} CallsOfForm(f: Form, depth: nat, rest: seq<byte>)
    requires Legal(f, depth)
    ensures Calls(Flat(f) + rest, depth) == Nodes(f)
    decreases f, 1
  {
    hide LegalLeaf, LengthField, LegalItems, LegalPairs, ReadVarint, ParsePayload;
    var buf, body := Flat(f) + rest, Body(f);
    assert buf[1..] == f.len + (body + rest);
    LengthRead(f.len, |body|, body + rest);
    assert buf[1 + |f.len|..1 + |f.len| + |body|] == body;
    match f
    case Leaf(tag, _, p) => LegalTag(tag, p);
    case List(_, items) => CallsOfItems(items, depth + 1);
    case Table(_, pairs) => CallsOfPairs(pairs, depth + 1);
  }

  lemma {:induction false} CallsOfItems(items: seq<Form>, depth: nat)
    requires LegalItems(items, depth)
    ensures ItemsCalls(FlatItems(items), depth) == ItemNodes(items)
    decreases items, 0
  {
    if items == [] {
    } else {
      hide Flat, Legal, Meaning, Nodes, Parse, Calls;
      var rest := FlatItems(items[1..]);
      FormRead(items[0], depth, rest);
      CallsOfForm(items[0], depth, rest);
      CallsOfItems(items[1..], depth);
      FlatNotEmpty(items[0]);
      assert (Flat(items[0]) + rest)[|Flat(items[0])|..] == rest;
    }
  }

  lemma {:induction false} CallsOfPairs(pairs: seq<Pair>, depth: nat)
    requires LegalPairs(pairs, depth)
    ensures PairsCalls(FlatPairs(pairs), depth) == PairNodes(pairs)
    decreases pairs, 0
  {
    if pairs == [] {
    } else {
      hide FlatPair, LegalPair, PairMeaning, NodesOf, ParsePair, PairCalls;
      var rest := FlatPairs(pairs[1..]);
      PairRead(pairs[0], depth, rest);
      CallsOfPair(pairs[0], depth, rest);
      CallsOfPairs(pairs[1..], depth);
      assert (FlatPair(pairs[0]) + rest)[|FlatPair(pairs[0])|..] == rest;
    }
  }

  lemma {:induction false} CallsOfPair(p: Pair, depth: nat, rest: seq<byte>)
    requires LegalPair(p, depth)
    ensures PairCalls(FlatPair(p) + rest, depth) == NodesOf(p)
    ensures FlatPair(p) != []
    decreases p, 0
  {
    hide Flat, Legal, Nodes, Parse, Calls;
    var tail, k := Flat(p.val) + rest, |Flat(p.key)|;
    var buf := FlatPair(p) + rest;
    assert buf == Flat(p.key) + tail && buf[k..] == tail;
    FormRead(p.key, depth, tail);
    KeyMeaning(p, depth);
    FlatNotEmpty(p.key);
    FlatNotEmpty(p.val);
    CallsOfForm(p.key, depth, tail);
    CallsOfForm(p.val, depth, rest);
  }

  // ── Padding ────────────────────────────────────────────────

  /** Numbers, booleans and timestamps. */
  predicate FixedWidth(v: Value) { Scalar(v) && !v.String? && !v.Bytes? && !v.Null? }

  lemma FieldWidth(v: Value)
    requires FixedWidth(v)
    ensures |ScalarPayload(v)| == Width(TypeByte(v)) && 3 <= TypeByte(v) != 12 && TypeByte(v) != 13
    ensures TypeByte(v) != 14
  {
  }

  /** A fixed-width field is read from the front of its payload, whatever pads it. */
  lemma PaddedScalarRead(v: Value, pad: seq<byte>, rest: seq<byte>, depth: nat)
    requires FixedWidth(v) && depth <= 64
    requires |ScalarPayload(v)| + |pad| <= 524288
    ensures var payload := ScalarPayload(v) + pad;
            var form := [TypeByte(v)] + Varint(|payload|) + payload;
            Parse(form + rest, depth) == Ok((Norm(v), |form|))
  {
    hide ParseFixed, Varint, Norm, ScalarPayload;
    FieldWidth(v);
    var field, payload := ScalarPayload(v), ScalarPayload(v) + pad;
    ScalarReadBack(v);
    assert payload[..|field|] == field && field[..|field|] == field;
    HeaderOfTagged(TypeByte(v), payload, rest, depth);
  }

  /** Any first byte but zero is true. */
  lemma BoolRead(b: byte, pad: seq<byte>, rest: seq<byte>, depth: nat)
    requires depth <= 64 && 1 + |pad| <= 524288
    ensures var payload := [b] + pad;
            var form := [11] + Varint(|payload|) + payload;
            Parse(form + rest, depth) == Ok((Bool(b != 0), |form|))
  {
    hide Varint;
    HeaderOfTagged(11, [b] + pad, rest, depth);
  }

  /** What the encoder writes for each scalar. */
  lemma EncodedScalar(v: Value)
    requires Scalar(v)
    ensures match v
            case String(text) => Encode(v) == [1] + Varint(|text|) + text
            case Bytes(data) => Encode(v) == [2] + Varint(|data|) + data
            case Uint8(n) => Encode(v) == [3, 1, n]
            case Uint16(n) => Encode(v) == [4, 2] + Payload(v) && |Payload(v)| == 2 && Two(Payload(v)) == n
            case Uint32(n) => Encode(v) == [5, 4] + Payload(v) && |Payload(v)| == 4 && Four(Payload(v)) == n
            case Uint64(n) => Encode(v) == [6, 8] + Payload(v) && |Payload(v)| == 8 && Eight(Payload(v)) == n
            case Int32(n) =>
              && Encode(v) == [7, 4] + Payload(v) && |Payload(v)| == 4
              && Four(Payload(v)) == if n < 0 then n + 0x1_0000_0000 else n
            case Int64(n) =>
              && Encode(v) == [8, 8] + Payload(v) && |Payload(v)| == 8
              && Eight(Payload(v)) == if n < 0 then n + 0x1_0000_0000_0000_0000 else n
            case Float32(n) => Encode(v) == [9, 4] + Payload(v) && |Payload(v)| == 4 && Four(Payload(v)) == n
            case Float64(n) => Encode(v) == [10, 8] + Payload(v) && |Payload(v)| == 8 && Eight(Payload(v)) == n
            case Bool(flag) => Encode(v) == [11, 1, if flag then 1 else 0]
            case Null => Encode(v) == [14, 0]
            case Timestamp(d) =>
              Encode(v) == [15, 8] + Payload(v) && |Payload(v)| == 8 && Eight(Payload(v)) == WireMillis(d)
  {
    hide BE, Two, Four, Eight, WireMillis;
    match v
    case Uint16(n) => TwoOf(n);
    case Uint32(n) => FourOf(n);
    case Uint64(n) => EightOf(n);
    case Int32(n) => FourOf(Unsigned32(n));
    case Int64(n) => EightOf(Unsigned64(n));
    case Float32(n) => FourOf(n);
    case Float64(n) => EightOf(n);
    case Timestamp(d) => EightOf(WireMillis(d));
    case _ =>
  }

  // ── Refusals ───────────────────────────────────────────────

  /** Everything that can be wrong before the payload, in the order it is noticed. */
  lemma HeaderRefused(tag: byte, len: seq<byte>, n: nat, rest: seq<byte>, depth: nat)
    ensures depth > 64 ==> Parse(rest, depth) == Err(TooDeep(depth))
    ensures depth <= 64 ==> Parse([], depth) == Err(UnexpectedEof)
    ensures depth <= 64 && !(1 <= tag <= 15) ==> Parse([tag] + rest, depth) == Err(UnknownType(tag))
    ensures depth <= 64 && 1 <= tag <= 15 && (forall i :: 0 <= i < |len| ==> len[i] >= 128) ==>
              && (|len| <= 10 ==> Parse([tag] + len, depth) == Err(BadVarint(Unterminated)))
              && (|len| == 10 && rest != [] ==> Parse([tag] + len + rest, depth) == Err(BadVarint(TooLong)))
    ensures depth <= 64 && 1 <= tag <= 15 && LengthField(len, n) ==>
              && (n > 524288 ==> Parse([tag] + len + rest, depth) == Err(PayloadTooLarge(n)))
              && (|rest| < n <= 524288 ==> Parse([tag] + len + rest, depth) == Err(PayloadExceedsBuffer))
  {
    hide ParsePayload, LengthField, ReadVarint, Parse;
    EarlyRefused(tag, rest, depth);
    if depth <= 64 && 1 <= tag <= 15 {
      if forall i :: 0 <= i < |len| ==> len[i] >= 128 {
        UnendedRefused(tag, len, rest, depth);
      }
      if LengthField(len, n) {
        LengthRefused(tag, len, n, rest, depth);
      }
    }
  }

  lemma EarlyRefused(tag: byte, rest: seq<byte>, depth: nat)
    ensures depth > 64 ==> Parse(rest, depth) == Err(TooDeep(depth))
    ensures depth <= 64 ==> Parse([], depth) == Err(UnexpectedEof)
    ensures depth <= 64 && !(1 <= tag <= 15) ==> Parse([tag] + rest, depth) == Err(UnknownType(tag))
  {
    hide ParsePayload, ReadVarint;
  }

  lemma UnendedRefused(tag: byte, len: seq<byte>, rest: seq<byte>, depth: nat)
    requires depth <= 64 && 1 <= tag <= 15 && forall i :: 0 <= i < |len| ==> len[i] >= 128
    ensures |len| <= 10 ==> Parse([tag] + len, depth) == Err(BadVarint(Unterminated))
    ensures |len| == 10 && rest != [] ==> Parse([tag] + len + rest, depth) == Err(BadVarint(TooLong))
  {
    hide ParsePayload, ReadVarint;
    assert ([tag] + len)[1..] == len && ([tag] + len + rest)[1..] == len + rest;
    UnendedLength(len, rest);
  }

  lemma LengthRefused(tag: byte, len: seq<byte>, n: nat, rest: seq<byte>, depth: nat)
    requires depth <= 64 && 1 <= tag <= 15 && LengthField(len, n)
    ensures n > 524288 ==> Parse([tag] + len + rest, depth) == Err(PayloadTooLarge(n))
    ensures |rest| < n <= 524288 ==> Parse([tag] + len + rest, depth) == Err(PayloadExceedsBuffer)
  {
    hide ParsePayload, ReadVarint, LengthField;
    assert ([tag] + len + rest)[1..] == len + rest;
    LengthRead(len, n, rest);
  }

  lemma UnendedLength(len: seq<byte>, rest: seq<byte>)
    requires forall i :: 0 <= i < |len| ==> len[i] >= 128
    ensures |len| <= 10 ==> ReadVarint(len) == Err(Unterminated)
    ensures |len| == 10 && rest != [] ==> ReadVarint(len + rest) == Err(TooLong)
  {
    MarkedIs(len, |len|);
    assert forall i :: 0 <= i < |len| ==> (len + rest)[i] == len[i];
  }

  /** What makes a payload within the caps unreadable. */
  lemma PayloadRefused(tag: byte, len: seq<byte>, payload: seq<byte>, rest: seq<byte>, depth: nat, e: TlvError)
    requires depth <= 64 && 1 <= tag <= 15 && LengthField(len, |payload|) && |payload| <= 524288
    ensures tag == 1 && !ValidUtf8(payload) ==> Parse([tag] + len + payload + rest, depth) == Err(InvalidUtf8)
    ensures tag != 1 && tag != 12 && tag != 13 && !LegalLeaf(tag, payload) ==>
              Parse([tag] + len + payload + rest, depth) == Err(TooFewBytes(tag))
    ensures tag == 12 && ItemsFail(payload, depth + 1, e) ==> Parse([tag] + len + payload + rest, depth) == Err(e)
    ensures tag == 13 && PairsFail(payload, depth + 1, e) ==> Parse([tag] + len + payload + rest, depth) == Err(e)
  {
    hide LengthField, ValidUtf8, ItemsFail, PairsFail;
    var buf := [tag] + len + payload + rest;
    assert buf[1..] == len + (payload + rest);
    LengthRead(len, |payload|, payload + rest);
    assert buf[1 + |len|..1 + |len| + |payload|] == payload;
    if tag != 12 && tag != 13 {
      LeafRead(tag, payload);
    }
    if tag == 12 && ItemsFail(payload, depth + 1, e) {
      FailingItems(payload, depth + 1, e);
    }
    if tag == 13 && PairsFail(payload, depth + 1, e) {
      FailingPairs(payload, depth + 1, e);
    }
  }

  /** Elements in order, up to one that is refused. */
  ghost predicate ItemsFail(payload: seq<byte>, depth: nat, e: TlvError) {
    exists items, bad :: LegalItems(items, depth) && payload == FlatItems(items) + bad && ItemFails(bad, depth, e)
  }

  predicate ItemFails(bad: seq<byte>, depth: nat, e: TlvError) { bad != [] && Parse(bad, depth) == Err(e) }

  /** Pairs in order, up to one that is refused. */
  ghost predicate PairsFail(payload: seq<byte>, depth: nat, e: TlvError) {
    exists pairs, bad :: LegalPairs(pairs, depth) && payload == FlatPairs(pairs) + bad && PairFails(bad, depth, e)
  }

  /** The key is refused, is no string, or has no value after it; or the value is refused. */
  ghost predicate PairFails(bad: seq<byte>, depth: nat, e: TlvError) {
    || ItemFails(bad, depth, e)
    || exists key, tail :: AfterKeyFails(key, tail, bad, depth, e)
  }

  predicate AfterKeyFails(key: Form, tail: seq<byte>, bad: seq<byte>, depth: nat, e: TlvError) {
    && Legal(key, depth) && bad == Flat(key) + tail
    && match Meaning(key, depth)
       case String(text) => if tail == [] then e == MissingValue(text) else Parse(tail, depth) == Err(e)
       case _ => e == KeyNotString
  }

  lemma FailingItems(payload: seq<byte>, depth: nat, e: TlvError)
    requires ItemsFail(payload, depth, e)
    ensures ParseItems(payload, depth) == Err(e)
  {
    hide Parse, LegalItems, FlatItems;
    var items, bad :| LegalItems(items, depth) && payload == FlatItems(items) + bad && ItemFails(bad, depth, e);
    ItemsUpTo(items, bad, depth, e);
  }

  lemma {:induction false} ItemsUpTo(items: seq<Form>, bad: seq<byte>, depth: nat, e: TlvError)
    requires LegalItems(items, depth) && ItemFails(bad, depth, e)
    ensures ParseItems(FlatItems(items) + bad, depth) == Err(e)
    decreases |items|
  {
    hide Parse, Legal, Flat;
    if items == [] {
      assert FlatItems(items) + bad == bad;
    } else {
      var rest := FlatItems(items[1..]) + bad;
      assert FlatItems(items) + bad == Flat(items[0]) + rest;
      FormRead(items[0], depth, rest);
      ItemsUpTo(items[1..], bad, depth, e);
      assert (Flat(items[0]) + rest)[|Flat(items[0])|..] == rest;
      FlatNotEmpty(items[0]);
    }
  }

  lemma FailingPairs(payload: seq<byte>, depth: nat, e: TlvError)
    requires PairsFail(payload, depth, e)
    ensures ParsePairs(payload, depth) == Err(e)
  {
    hide ParsePair, LegalPairs, FlatPairs, PairFails;
    var pairs, bad :| LegalPairs(pairs, depth) && payload == FlatPairs(pairs) + bad && PairFails(bad, depth, e);
    PairsUpTo(pairs, bad, depth, e);
  }

  lemma {:induction false} PairsUpTo(pairs: seq<Pair>, bad: seq<byte>, depth: nat, e: TlvError)
    requires LegalPairs(pairs, depth) && PairFails(bad, depth, e)
    ensures ParsePairs(FlatPairs(pairs) + bad, depth) == Err(e)
    decreases |pairs|
  {
    hide ParsePair, LegalPair, FlatPair, PairFails;
    if pairs == [] {
      assert FlatPairs(pairs) + bad == bad;
      FailingPair(bad, depth, e);
    } else {
      var rest := FlatPairs(pairs[1..]) + bad;
      assert FlatPairs(pairs) + bad == FlatPair(pairs[0]) + rest;
      PairRead(pairs[0], depth, rest);
      PairsUpTo(pairs[1..], bad, depth, e);
      assert (FlatPair(pairs[0]) + rest)[|FlatPair(pairs[0])|..] == rest;
    }
  }

  lemma FailingPair(bad: seq<byte>, depth: nat, e: TlvError)
    requires PairFails(bad, depth, e)
    ensures bad != [] && ParsePair(bad, depth) == Err(e)
  {
    hide Parse, Legal, Flat, Meaning;
    if !ItemFails(bad, depth, e) {
      var key, tail :| AfterKeyFails(key, tail, bad, depth, e);
      FormRead(key, depth, tail);
      FlatNotEmpty(key);
      assert bad[|Flat(key)|..] == tail;
    }
  }
}
