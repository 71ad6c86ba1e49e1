/**
 What the decoder accepts: far more than the encoder writes (padded lengths and scalars, any
 non-zero bool, repeated keys, trailing bytes). Every accepted input has one normal form, which is
 never longer, stays inside both caps and decodes to the same value.
 */
module TlvNormalForm {
  import opened Wrappers
  import opened Bytes
  import opened Leb128
  import opened Tlv
  import opened TlvRoundTrip

  // ── The value an accepted input carries ────────────────────

  /** A decoded value: well formed, already in normal form, and nested within the cap. */
  predicate Canonical(v: Value, depth: nat) {
    WellFormed(v) && Norm(v) == v && depth + Depth(v) <= MAX_DECODE_DEPTH
  }

  predicate CanonicalEntry(e: Entry, depth: nat) {
    ValidUtf8(e.key) && Canonical(e.val, depth)
  }

  lemma {:induction false} DepthAllBound(items: seq<Value>, b: nat)
    ensures DepthAll(items) <= b <==> forall i :: 0 <= i < |items| ==> 1 + Depth(items[i]) <= b
  {
    if items == [] {
    } else {
      DepthAllBound(items[1..], b);
      assert forall i :: 0 < i < |items| ==> items[i] == items[1..][i - 1];
    }
  }

  lemma {:induction false} DepthEntriesBound(es: seq<Entry>, b: nat)
    ensures DepthEntries(es) <= b <==> forall i :: 0 <= i < |es| ==> 1 + Depth(es[i].val) <= b
  {
    if es == [] {
    } else {
      DepthEntriesBound(es[1..], b);
      assert forall i :: 0 < i < |es| ==> es[i] == es[1..][i - 1];
    }
  }

  lemma CanonicalArray(items: seq<Value>, depth: nat)
    requires depth <= MAX_DECODE_DEPTH
    requires forall i :: 0 <= i < |items| ==> Canonical(items[i], depth + 1)
    ensures Canonical(Array(items), depth)
  {
    DepthAllBound(items, MAX_DECODE_DEPTH - depth);
    assert NormAll(items) == items;
  }

  lemma CanonicalMap(es: seq<Entry>, depth: nat)
    requires depth <= MAX_DECODE_DEPTH && DistinctKeys(es)
    requires forall i :: 0 <= i < |es| ==> CanonicalEntry(es[i], depth + 1)
    ensures Canonical(Map(es), depth)
  {
    DepthEntriesBound(es, MAX_DECODE_DEPTH - depth);
    assert NormEntries(es) == es;
  }

  // ── Overwriting a key never makes a map longer ─────────────

  lemma EncodeEntriesCons(e: Entry, es: seq<Entry>)
    ensures EncodeEntries([e] + es) == EncodeEntry(e) + EncodeEntries(es)
  {
    assert ([e] + es)[1..] == es;
  }

  lemma {:induction false} EncodeEntriesConcat(a: seq<Entry>, b: seq<Entry>)
    ensures EncodeEntries(a + b) == EncodeEntries(a) + EncodeEntries(b)
  {
    if a == [] {
      assert a + b == b;
    } else {
      var e, t := a[0], a[1..];
      assert a == [e] + t && a + b == [e] + (t + b);
      EncodeEntriesConcat(t, b);
      EncodeEntriesCons(e, t + b);
      EncodeEntriesCons(e, t);
    }
  }

  lemma EncodeEntriesOne(e: Entry)
    ensures EncodeEntries([e]) == EncodeEntry(e)
  {
    assert [e][1..] == [];
  }

  lemma SetGrowth(es: seq<Entry>, key: seq<byte>, val: Value)
    ensures |EncodeEntries(Set(es, key, val))| <= |EncodeEntries(es)| + |EncodeEntry(Entry(key, val))|
  {
    var i, e := Find(es, key), Entry(key, val);
    EncodeEntriesOne(e);
    if i < |es| {
      var before, after := es[..i], es[i + 1..];
      assert Set(es, key, val) == before + ([e] + after);
      assert es == before + ([es[i]] + after);
      EncodeEntriesOne(es[i]);
      EncodeEntriesConcat(before, [e] + after);
      EncodeEntriesConcat([e], after);
      EncodeEntriesConcat(before, [es[i]] + after);
      EncodeEntriesConcat([es[i]], after);
    } else {
      EncodeEntriesConcat(es, [e]);
    }
  }

  lemma SetCanonical(es: seq<Entry>, key: seq<byte>, val: Value, depth: nat)
    requires DistinctKeys(es) && CanonicalEntry(Entry(key, val), depth)
    requires forall i :: 0 <= i < |es| ==> CanonicalEntry(es[i], depth)
    ensures DistinctKeys(Set(es, key, val))
    ensures forall i :: 0 <= i < |Set(es, key, val)| ==> CanonicalEntry(Set(es, key, val)[i], depth)
  {
    hide CanonicalEntry;
  }

  lemma {:induction false} FromPairsCanonical(ps: seq<Entry>, depth: nat)
    requires forall i :: 0 <= i < |ps| ==> CanonicalEntry(ps[i], depth)
    ensures DistinctKeys(FromPairs(ps))
    ensures forall i :: 0 <= i < |FromPairs(ps)| ==> CanonicalEntry(FromPairs(ps)[i], depth)
  {
    hide Set, CanonicalEntry;
    if ps == [] {
    } else {
      var init, last := ps[..|ps| - 1], ps[|ps| - 1];
      FromPairsCanonical(init, depth);
      SetCanonical(FromPairs(init), last.key, last.val, depth);
    }
  }

  lemma {:induction false} FromPairsNoLonger(ps: seq<Entry>)
    ensures |EncodeEntries(FromPairs(ps))| <= |EncodeEntries(ps)|
  {
    hide Set, EncodeEntry;
    if ps == [] {
    } else {
      var init, last := ps[..|ps| - 1], ps[|ps| - 1];
      assert ps == init + [last] && FromPairs(ps) == Set(FromPairs(init), last.key, last.val);
      hide EncodeEntries, FromPairs;
      FromPairsNoLonger(init);
      SetGrowth(FromPairs(init), last.key, last.val);
      EncodeEntriesConcat(init, [last]);
      EncodeEntriesOne(last);
    }
  }

  // ── Shrinking ──────────────────────────────────────────────

  lemma TaggedNoLonger(t: byte, p: seq<byte>, buf: seq<byte>, depth: nat)
    requires ParseHeader(buf, depth).Ok?
    requires var h := ParseHeader(buf, depth).value; |p| <= h.end - h.start
    ensures |Tagged(t, p)| <= ParseHeader(buf, depth).value.end
  {
    TaggedLength(t, p);
    VarintShortest(buf[1..], |p|);
  }

  lemma ScalarShrinks(tag: byte, payload: seq<byte>)
    requires 1 <= tag <= 15 && tag != 0x0C && tag != 0x0D
    requires ParseScalar(tag, payload).Ok?
    ensures var v := ParseScalar(tag, payload).value;
            Canonical(v, MAX_DECODE_DEPTH) && TypeByte(v) == tag && |Payload(v)| <= |payload|
  {
    var v := ParseScalar(tag, payload).value;
    if v.Timestamp? {
      Widths();
      var n := FromBE(payload[..8]);
      BEOfFromBE(payload[..8]);
      WireMillisOfFromMillis(n);
    }
  }

  /** An accepted value re-encodes in no more bytes than were read for it, and within both caps. */
  lemma {:induction false} ParseShrinks(buf: seq<byte>, depth: nat)
    requires Parse(buf, depth).Ok?
    ensures var (v, n) := Parse(buf, depth).value;
            Canonical(v, depth) && |Encode(v)| <= n && |Payload(v)| <= MAX_PAYLOAD_SIZE
    decreases |buf|, 0, 0
  {
    var h := ParseHeader(buf, depth).value;
    var payload := buf[h.start..h.end];
    PayloadShrinks(h.tag, payload, depth);
    var v := ParsePayload(h.tag, payload, depth).value;
    TaggedNoLonger(TypeByte(v), Payload(v), buf, depth);
  }

  lemma {:induction false} PayloadShrinks(tag: byte, payload: seq<byte>, depth: nat)
    requires 1 <= tag <= 15 && depth <= MAX_DECODE_DEPTH && ParsePayload(tag, payload, depth).Ok?
    ensures var v := ParsePayload(tag, payload, depth).value;
            Canonical(v, depth) && |Payload(v)| <= |payload|
    decreases |payload|, 2
  {
    if tag == 0x0C {
      ItemsShrink(payload, depth + 1);
      CanonicalArray(ParseItems(payload, depth + 1).value, depth);
    } else if tag == 0x0D {
      PairsShrink(payload, depth + 1);
      var ps := ParsePairs(payload, depth + 1).value;
      FromPairsCanonical(ps, depth + 1);
      FromPairsNoLonger(ps);
      CanonicalMap(FromPairs(ps), depth);
    } else {
      ScalarShrinks(tag, payload);
    }
  }

  lemma {:induction false} ItemsShrink(payload: seq<byte>, depth: nat)
    requires ParseItems(payload, depth).Ok?
    ensures var items := ParseItems(payload, depth).value;
            && |EncodeAll(items)| <= |payload|
            && forall i :: 0 <= i < |items| ==> Canonical(items[i], depth)
    decreases |payload|, 1
  {
    if payload == [] {
    } else {
      var (v, n) := Parse(payload, depth).value;
      ParseShrinks(payload, depth);
      ItemsShrink(payload[n..], depth);
    }
  }

  lemma {:induction false} PairsShrink(payload: seq<byte>, depth: nat)
    requires ParsePairs(payload, depth).Ok?
    ensures var ps := ParsePairs(payload, depth).value;
            && |EncodeEntries(ps)| <= |payload|
            && forall i :: 0 <= i < |ps| ==> CanonicalEntry(ps[i], depth)
    decreases |payload|, 1
  {
    if payload == [] {
    } else {
      var (p, n) := ParsePair(payload, depth).value;
      PairShrinks(payload, depth);
      PairsShrink(payload[n..], depth);
    }
  }

  lemma {:induction false} PairShrinks(payload: seq<byte>, depth: nat)
    requires ParsePair(payload, depth).Ok?
    ensures var (p, n) := ParsePair(payload, depth).value;
            CanonicalEntry(p, depth) && |EncodeEntry(p)| <= n
    decreases |payload|, 0, 1
  {
    var (k, n) := Parse(payload, depth).value;
    ParseShrinks(payload, depth);
    ParseShrinks(payload[n..], depth);
    assert Encode(k) == Tagged(0x01, k.text);
  }

  // ── Normal form ────────────────────────────────────────────

  /**
   For every accepted input, the value read re-encodes in at most as many bytes as were read, the
   result decodes to the same value at the same depth, in front of anything, and re-encoding again
   changes nothing.
   */
  lemma NormalForm(buf: seq<byte>, depth: nat, rest: seq<byte>)
    requires Parse(buf, depth).Ok?
    ensures var (v, n) := Parse(buf, depth).value;
            && |Encode(v)| <= n
            && Parse(Encode(v) + rest, depth) == Ok((v, |Encode(v)|))
  {
    ParseShrinks(buf, depth);
    ParseOfEncode(Parse(buf, depth).value.0, rest, depth);
  }

  /** The encoding is the shortest of all inputs that decode to a value. */
  lemma EncodeShortest(buf: seq<byte>)
    requires Decode(buf).Ok?
    ensures var v := Decode(buf).value;
            && Decode(Encode(v)) == Ok(v)
            && forall other :: Decode(other) == Ok(v) ==> |Encode(v)| <= |other|
  {
    var v := Decode(buf).value;
    NormalForm(buf, 0, []);
    assert Encode(v) + [] == Encode(v);
    forall other | Decode(other) == Ok(v) ensures |Encode(v)| <= |other| {
      ParseShrinks(other, 0);
    }
  }

  // ── Self-delimiting ────────────────────────────────────────

  lemma HeaderLocal(buf: seq<byte>, depth: nat, other: seq<byte>)
    requires ParseHeader(buf, depth).Ok?
    requires var n := ParseHeader(buf, depth).value.end; n <= |other| && other[..n] == buf[..n]
    ensures ParseHeader(other, depth) == ParseHeader(buf, depth)
    ensures var h := ParseHeader(buf, depth).value; other[h.start..h.end] == buf[h.start..h.end]
  {
    var h := ParseHeader(buf, depth).value;
    SameSlice(buf, other, h.end, 0, 1);
    assert other[0] == other[0..1][0] == buf[0..1][0] == buf[0];
    SameSlice(buf, other, h.end, 1, h.start);
    assert other[1..][..h.start - 1] == other[1..h.start];
    assert buf[1..][..h.start - 1] == buf[1..h.start];
    ReadVarintLocal(buf[1..], other[1..]);
    SameSlice(buf, other, h.end, h.start, h.end);
  }

  lemma SameSlice(buf: seq<byte>, other: seq<byte>, n: nat, i: nat, j: nat)
    requires i <= j <= n && n <= |buf| && n <= |other| && buf[..n] == other[..n]
    ensures buf[i..j] == other[i..j]
  {
    assert buf[i..j] == buf[..n][i..j];
    assert other[i..j] == other[..n][i..j];
  }

  lemma HeaderCut(buf: seq<byte>, depth: nat, k: nat)
    requires ParseHeader(buf, depth).Ok? && k < ParseHeader(buf, depth).value.end
    ensures ParseHeader(buf[..k], depth).Err?
  {
    var h := ParseHeader(buf, depth).value;
    if 0 < k < h.start {
      assert buf[..k][1..] == buf[1..][..k - 1];
      ReadVarintCut(buf[1..], k - 1);
    } else if h.start <= k {
      assert buf[..k][1..] == buf[1..][..k - 1];
      assert buf[..k][1..][..h.start - 1] == buf[1..][..h.start - 1];
      ReadVarintLocal(buf[1..], buf[..k][1..]);
    }
  }

  /**
   An accepted value is read the same from any buffer that starts with its bytes, and is refused
   on every strict prefix of them.
   */
  lemma SelfDelimiting(buf: seq<byte>, depth: nat)
    requires Parse(buf, depth).Ok?
    ensures var n := Parse(buf, depth).value.1;
            && (forall other :: n <= |other| && other[..n] == buf[..n] ==> Parse(other, depth) == Parse(buf, depth))
            && (forall k :: 0 <= k < n ==> Parse(buf[..k], depth).Err?)
  {
    var n := Parse(buf, depth).value.1;
    forall other | n <= |other| && other[..n] == buf[..n]
      ensures Parse(other, depth) == Parse(buf, depth)
    {
      HeaderLocal(buf, depth, other);
    }
    forall k | 0 <= k < n ensures Parse(buf[..k], depth).Err? {
      HeaderCut(buf, depth, k);
    }
  }

  // ── Work ───────────────────────────────────────────────────

  /** How many calls of `decode_value` reading one value makes, refused inputs included. */
  function Calls(buf: seq<byte>, depth: nat): nat
    decreases |buf|, 0, 0
  {
    var h := ParseHeader(buf, depth);
    if h.Err? then 1
    else 1 + PayloadCalls(h.value.tag, buf[h.value.start..h.value.end], depth)
  }

  function PayloadCalls(tag: byte, payload: seq<byte>, depth: nat): nat
    decreases |payload|, 2
  {
    if tag == 0x0C then ItemsCalls(payload, depth + 1)
    else if tag == 0x0D then PairsCalls(payload, depth + 1)
    else 0
  }

  function ItemsCalls(payload: seq<byte>, depth: nat): nat
    decreases |payload|, 1
  {
    if payload == [] then 0
    else
      Calls(payload, depth) +
      match Parse(payload, depth)
      case Err(_) => 0
      case Ok((_, n)) => ItemsCalls(payload[n..], depth)
  }

  function PairsCalls(payload: seq<byte>, depth: nat): nat
    decreases |payload|, 1
  {
    if payload == [] then 0
    else
      PairCalls(payload, depth) +
      match ParsePair(payload, depth)
      case Err(_) => 0
      case Ok((_, n)) => PairsCalls(payload[n..], depth)
  }

  function PairCalls(payload: seq<byte>, depth: nat): nat
    decreases |payload|, 0, 1
  {
    Calls(payload, depth) +
    match Parse(payload, depth)
    case Err(_) => 0
    case Ok((k, n)) =>
      if !k.String? || n >= |payload| then 0 else Calls(payload[n..], depth)
  }

  /** Every call pays for two bytes it consumes, except one call that may fail. */
  lemma {:induction false} CallsBound(buf: seq<byte>, depth: nat)
    ensures 2 * Calls(buf, depth) <= |buf| + 2
    ensures Parse(buf, depth).Ok? ==> 2 * Calls(buf, depth) <= Parse(buf, depth).value.1
    decreases |buf|, 0, 0
  {
    var h := ParseHeader(buf, depth);
    if h.Ok? {
      PayloadCallsBound(h.value.tag, buf[h.value.start..h.value.end], depth);
    }
  }

  lemma {:induction false} PayloadCallsBound(tag: byte, payload: seq<byte>, depth: nat)
    requires 1 <= tag <= 15
    ensures 2 * PayloadCalls(tag, payload, depth) <= |payload| + 2
    ensures ParsePayload(tag, payload, depth).Ok? ==> 2 * PayloadCalls(tag, payload, depth) <= |payload|
    decreases |payload|, 2
  {
    if tag == 0x0C {
      ItemsCallsBound(payload, depth + 1);
    } else if tag == 0x0D {
      PairsCallsBound(payload, depth + 1);
    }
  }

  lemma {:induction false} ItemsCallsBound(payload: seq<byte>, depth: nat)
    ensures 2 * ItemsCalls(payload, depth) <= |payload| + 2
    ensures ParseItems(payload, depth).Ok? ==> 2 * ItemsCalls(payload, depth) <= |payload|
    decreases |payload|, 1
  {
    if payload == [] {
    } else {
      CallsBound(payload, depth);
      if Parse(payload, depth).Ok? {
        ItemsCallsBound(payload[Parse(payload, depth).value.1..], depth);
      }
    }
  }

  lemma {:induction false} PairsCallsBound(payload: seq<byte>, depth: nat)
    ensures 2 * PairsCalls(payload, depth) <= |payload| + 2
    ensures ParsePairs(payload, depth).Ok? ==> 2 * PairsCalls(payload, depth) <= |payload|
    decreases |payload|, 1
  {
    if payload == [] {
    } else {
      PairCallsBound(payload, depth);
      if ParsePair(payload, depth).Ok? {
        PairsCallsBound(payload[ParsePair(payload, depth).value.1..], depth);
      }
    }
  }

  lemma {:induction false} PairCallsBound(payload: seq<byte>, depth: nat)
    ensures 2 * PairCalls(payload, depth) <= |payload| + 2
    ensures ParsePair(payload, depth).Ok? ==> 2 * PairCalls(payload, depth) <= ParsePair(payload, depth).value.1
    decreases |payload|, 0, 1
  {
    CallsBound(payload, depth);
    if Parse(payload, depth).Ok? {
      var (k, n) := Parse(payload, depth).value;
      if k.String? && n < |payload| {
        CallsBound(payload[n..], depth);
      }
    }
  }

  // ── Decoded maps ───────────────────────────────────────────

  /** The finite map a list of pairs denotes when each pair updates the one before. */
  function Updates(ps: seq<Entry>): map<seq<byte>, Value> {
    if ps == [] then map[]
    else Updates(ps[..|ps| - 1])[ps[|ps| - 1].key := ps[|ps| - 1].val]
  }

  /** The keys of a list of pairs, each at its first place. */
  function FirstKeys(ps: seq<Entry>): seq<seq<byte>> {
    if ps == [] then []
    else
      var ks, k := FirstKeys(ps[..|ps| - 1]), ps[|ps| - 1].key;
      if k in ks then ks else ks + [k]
  }

  function KeyList(es: seq<Entry>): (r: seq<seq<byte>>)
    ensures |r| == |es| && forall i :: 0 <= i < |es| ==> r[i] == es[i].key
  {
    seq(|es|, i requires 0 <= i < |es| => es[i].key)
  }

  lemma GetOfSet(es: seq<Entry>, key: seq<byte>, val: Value, k: seq<byte>)
    ensures Get(Set(es, key, val), k) == if k == key then Some(val) else Get(es, k)
  {
    var r := Set(es, key, val);
    FindIs(es, k, Find(es, k));
    var i := if k == key then Find(es, key) else if Find(es, k) < |es| then Find(es, k) else |r|;
    FindIs(r, k, i);
  }

  lemma FindIs(es: seq<Entry>, key: seq<byte>, i: nat)
    requires i <= |es|
    requires forall j :: 0 <= j < i ==> es[j].key != key
    requires i < |es| ==> es[i].key == key
    ensures Find(es, key) == i
  {
  }

  /**
   A map payload decodes last-wins, first-position: keys are distinct and in order of their first
   occurrence, and `get` answers like the finite map that results from updating with each pair in
   turn.
   */
  lemma {:induction false} LastWinsFirstPosition(ps: seq<Entry>, k: seq<byte>)
    ensures DistinctKeys(FromPairs(ps))
    ensures KeyList(FromPairs(ps)) == FirstKeys(ps)
    ensures Get(FromPairs(ps), k) == if k in Updates(ps) then Some(Updates(ps)[k]) else None
  {
    if ps == [] {
    } else {
      var init, last := ps[..|ps| - 1], ps[|ps| - 1];
      LastWinsFirstPosition(init, k);
      GetOfSet(FromPairs(init), last.key, last.val, k);
      var es := FromPairs(init);
      if Find(es, last.key) < |es| {
        assert KeyList(es)[Find(es, last.key)] == last.key;
        assert KeyList(FromPairs(ps)) == KeyList(es);
      } else {
        assert KeyList(FromPairs(ps)) == KeyList(es) + [last.key];
      }
    }
  }
}
