/**
 Unsigned LEB128 lengths (section 7.6 of DWARF Version 5): the encoder and decoder loops of
 src/tlv.rs, the functions they compute, and the arithmetic of 7-bit groups.
 */
module Leb128 {
  import opened Wrappers
  import opened Bytes

  datatype VarintError = TooLong | Unterminated

  // ── Specification ──────────────────────────────────────────

  /** The 7-bit groups of `n`, least significant first, all but the last marked. */
  function Varint(n: nat): (bs: seq<byte>)
    ensures |bs| >= 1
  {
    if n < 128 then [n] else [n % 128 + 128] + Varint(n / 128)
  }

  /** The number a string of groups stands for: group i weighs 128^i. */
  function Weight(bs: seq<byte>): nat {
    if bs == [] then 0 else bs[0] % 128 + 128 * Weight(bs[1..])
  }

  /** How many marked bytes `buf` starts with. */
  function Marked(buf: seq<byte>): (c: nat)
    ensures c <= |buf|
    ensures forall i :: 0 <= i < c ==> buf[i] >= 128
    ensures c < |buf| ==> buf[c] < 128
  {
    if buf == [] || buf[0] < 128 then 0 else 1 + Marked(buf[1..])
  }

  /** The number read from the front of `buf` and the bytes it took. */
  function ReadVarint(buf: seq<byte>): (r: Result<(u64, nat), VarintError>) {
    var c := Marked(buf);
    if c < |buf| && c < 10 then Ok((Weight(buf[..c + 1]) % TWO64, c + 1))
    else if |buf| > 10 then Err(TooLong)
    else Err(Unterminated)
  }

  lemma MarkedIs(buf: seq<byte>, c: nat)
    requires c <= |buf|
    requires forall i :: 0 <= i < c ==> buf[i] >= 128
    requires c < |buf| ==> buf[c] < 128
    ensures Marked(buf) == c
  {
  }

  // ── Group arithmetic ───────────────────────────────────────

  lemma {:induction false} WeightAppend(bs: seq<byte>, b: byte)
    ensures Weight(bs + [b]) == Weight(bs) + (b % 128) * Pow(128, |bs|)
  {
    if bs == [] {
      assert [b][1..] == [];
    } else {
      assert (bs + [b])[1..] == bs[1..] + [b];
      WeightAppend(bs[1..], b);
      var p := Pow(128, |bs| - 1);
      assert 128 * ((b % 128) * p) == (b % 128) * (128 * p);
    }
  }

  lemma {:induction false} WeightBound(bs: seq<byte>)
    ensures Weight(bs) < Pow(128, |bs|)
  {
    if bs == [] {
    } else {
      WeightBound(bs[1..]);
    }
  }

  /** `Varint(n)` fits in `k` bytes exactly when `n` fits in `k` groups. */
  lemma {:induction false} VarintLength(n: nat, k: nat)
    requires k >= 1
    ensures |Varint(n)| <= k <==> n < Pow(128, k)
  {
    assert Pow(128, k) == 128 * Pow(128, k - 1);
    if n >= 128 {
      if k == 1 {
        assert Pow(128, 0) == 1;
      } else {
        VarintLength(n / 128, k - 1);
      }
    } else {
      PowPositive(k - 1);
    }
  }

  lemma {:induction false} PowPositive(k: nat)
    ensures Pow(128, k) >= 1
  {
    if k == 0 {
    } else {
      PowPositive(k - 1);
    }
  }

  lemma Powers()
    ensures Pow(128, 3) == 0x20_0000 && Pow(128, 9) == 0x8000_0000_0000_0000
    ensures Pow(128, 10) == 128 * 0x8000_0000_0000_0000
  {
    assert Pow(128, 1) == 128 * Pow(128, 0);
    assert Pow(128, 2) == 128 * Pow(128, 1);
    assert Pow(128, 3) == 128 * Pow(128, 2);
    assert Pow(128, 4) == 128 * Pow(128, 3);
    assert Pow(128, 5) == 128 * Pow(128, 4);
    assert Pow(128, 6) == 128 * Pow(128, 5);
    assert Pow(128, 7) == 128 * Pow(128, 6);
    assert Pow(128, 8) == 128 * Pow(128, 7);
    assert Pow(128, 9) == 128 * Pow(128, 8);
    assert Pow(128, 10) == 128 * Pow(128, 9);
  }

  /** Shape and value of an encoded length. */
  lemma {:induction false} VarintShape(n: nat)
    ensures Weight(Varint(n)) == n
    ensures forall i :: 0 <= i < |Varint(n)| - 1 ==> Varint(n)[i] >= 128
    ensures Varint(n)[|Varint(n)| - 1] < 128
  {
    if n < 128 {
      assert Varint(n)[1..] == [];
    } else {
      VarintShape(n / 128);
      assert Varint(n)[1..] == Varint(n / 128);
    }
  }

  // ── Laws ───────────────────────────────────────────────────

  /** Every 64-bit number is read back from in front of anything, in at most ten bytes. */
  lemma ReadOfVarint(n: u64, rest: seq<byte>)
    ensures |Varint(n)| <= 10
    ensures ReadVarint(Varint(n) + rest) == Ok((n, |Varint(n)|))
  {
    VarintAtMostTen(n);
    MarkedOfVarint(n, rest);
    assert Weight(Varint(n)) % TWO64 == n by { VarintShape(n); }
  }

  lemma VarintAtMostTen(n: u64)
    ensures |Varint(n)| <= 10
  {
    Powers();
    VarintLength(n, 10);
  }

  /** Whatever was read, no number up to it needs more bytes than the reader took. */
  lemma VarintShortest(buf: seq<byte>, m: nat)
    requires ReadVarint(buf).Ok?
    requires m <= ReadVarint(buf).value.0
    ensures |Varint(m)| <= ReadVarint(buf).value.1
  {
    var k := Marked(buf) + 1;
    WeightBound(buf[..k]);
    VarintLength(m, k);
  }

  /** Where an encoded length ends in front of anything. */
  lemma MarkedOfVarint(n: nat, rest: seq<byte>)
    ensures Marked(Varint(n) + rest) == |Varint(n)| - 1
    ensures (Varint(n) + rest)[..|Varint(n)|] == Varint(n)
  {
    VarintShape(n);
    var bs := Varint(n);
    forall i | 0 <= i < |bs| ensures (bs + rest)[i] == bs[i] {
    }
    MarkedIs(bs + rest, |bs| - 1);
  }

  lemma SplitSame(x: seq<byte>, r: seq<byte>, y: seq<byte>, s: seq<byte>)
    requires x + r == y + s && |x| == |y|
    ensures x == y && r == s
  {
    assert x == (x + r)[..|x|] == (y + s)[..|y|] == y;
    assert r == (x + r)[|x|..] == (y + s)[|y|..] == s;
  }

  /** No encoded length is a prefix of another one's bytes. */
  lemma VarintPrefixFree(a: nat, b: nat, r: seq<byte>, s: seq<byte>)
    requires Varint(a) + r == Varint(b) + s
    ensures a == b && r == s
  {
    MarkedOfVarint(a, r);
    MarkedOfVarint(b, s);
    SplitSame(Varint(a), r, Varint(b), s);
    assert a == b by { VarintShape(a); VarintShape(b); }
  }

  /** A read depends only on the bytes it took: it repeats on any buffer that starts with them. */
  lemma ReadVarintLocal(buf: seq<byte>, other: seq<byte>)
    requires ReadVarint(buf).Ok?
    requires var n := ReadVarint(buf).value.1; n <= |other| && other[..n] == buf[..n]
    ensures ReadVarint(other) == ReadVarint(buf)
  {
    var c := Marked(buf);
    forall i | 0 <= i < c + 1 ensures other[i] == buf[i] {
      assert other[i] == other[..c + 1][i];
    }
    MarkedIs(other, c);
  }

  /** Cut inside the bytes it took, the read is an error. */
  lemma ReadVarintCut(buf: seq<byte>, k: nat)
    requires ReadVarint(buf).Ok?
    requires k < ReadVarint(buf).value.1
    ensures ReadVarint(buf[..k]) == Err(Unterminated)
  {
    MarkedIs(buf[..k], k);
  }

  // ── The loops ──────────────────────────────────────────────

  /** Bitwise or, bit by bit. */
  function Or(a: nat, b: nat): nat {
    if a == 0 && b == 0 then 0
    else (if a % 2 == 1 || b % 2 == 1 then 1 else 0) + 2 * Or(a / 2, b / 2)
  }

  /** `x << shift` on `u64`: bits shifted past the top are lost. */
  function Shl64(x: nat, shift: nat): u64 {
    (x * Pow(2, shift)) % TWO64
  }

  lemma {:induction false} OrZero(b: nat)
    ensures Or(0, b) == b
  {
    if b == 0 {
    } else {
      OrZero(b / 2);
    }
  }

  /** Bit `k` of a number. */
  predicate Bit(n: nat, k: nat) { if k == 0 then n % 2 == 1 else Bit(n / 2, k - 1) }

  /** A bit of the result is set exactly if it is set in either number. */
  lemma {:induction false} OrBits(a: nat, b: nat, k: nat)
    ensures Bit(Or(a, b), k) <==> Bit(a, k) || Bit(b, k)
    decreases k
  {
    if k == 0 {
    } else {
      OrBits(a / 2, b / 2, k - 1);
      assert Or(a, b) / 2 == Or(a / 2, b / 2);
    }
  }

  /** Or is addition when `hi` has no bit among the lowest `k` and `a` no other. */
  lemma {:induction false} OrDisjoint(a: nat, hi: nat, b: nat, k: nat)
    requires a < Pow(2, k)
    requires hi == b * Pow(2, k)
    ensures Or(a, hi) == a + hi
    decreases k
  {
    if k == 0 {
      OrZero(hi);
    } else {
      var half := b * Pow(2, k - 1);
      assert hi == 2 * half;
      OrDisjoint(a / 2, half, b, k - 1);
    }
  }

  lemma {:induction false} PowTwoOfGroups(i: nat)
    ensures Pow(2, 7 * i) == Pow(128, i)
  {
    if i == 0 {
    } else {
      PowTwoOfGroups(i - 1);
      var e := 7 * (i - 1);
      assert Pow(2, e + 1) == 2 * Pow(2, e);
      assert Pow(2, e + 2) == 2 * Pow(2, e + 1);
      assert Pow(2, e + 3) == 2 * Pow(2, e + 2);
      assert Pow(2, e + 4) == 2 * Pow(2, e + 3);
      assert Pow(2, e + 5) == 2 * Pow(2, e + 4);
      assert Pow(2, e + 6) == 2 * Pow(2, e + 5);
      assert Pow(2, e + 7) == 2 * Pow(2, e + 6);
    }
  }

  /** A shift that loses no bit multiplies. */
  lemma ShlSmall(g: nat, shift: nat, hi: nat)
    requires hi == g * Pow(2, shift) < TWO64
    ensures Shl64(g, shift) == hi
  {
  }

  /** Below the tenth group nothing is shifted out. */
  lemma OrLowGroup(result: u64, g: nat, i: nat)
    requires i < 9 && g < 128
    requires result < Pow(128, i)
    ensures Or(result, Shl64(g, 7 * i)) == result + g * Pow(128, i) < TWO64
  {
    GroupFits(result, g, i);
    var s, p := 7 * i, Pow(128, i);
    var hi := g * p;
    assert Pow(2, s) == p by { PowTwoOfGroups(i); }
    ShlSmall(g, s, hi);
    OrDisjoint(result, hi, g, s);
  }

  lemma GroupFits(result: nat, g: nat, i: nat)
    requires i < 9 && g < 128
    requires result < Pow(128, i)
    ensures result + g * Pow(128, i) < TWO64
  {
    var p := Pow(128, i);
    PowMonotone(i + 1, 9);
    Powers();
    assert g * p <= 127 * p;
  }

  /** Of the tenth group only the lowest bit survives the shift by 63. */
  lemma OrTopGroup(result: u64, g: nat)
    requires g < 128
    requires result < 0x8000_0000_0000_0000
    ensures Or(result, Shl64(g, 63)) == (result + g * 0x8000_0000_0000_0000) % TWO64
  {
    PowTwoOfGroups(9);
    Powers();
    var low := (g % 2) * 0x8000_0000_0000_0000;
    assert g * 0x8000_0000_0000_0000 == (g / 2) * TWO64 + low;
    ModMultiple(low, g / 2);
    ModMultiple(result + low, g / 2);
    OrDisjoint(result, low, g % 2, 63);
  }

  /** One turn of the decoder loop: or-ing in group `i` adds it at weight 128^i, modulo 2^64. */
  lemma OrGroup(result: u64, g: nat, i: nat)
    requires i < 10 && g < 128
    requires result < Pow(128, i)
    ensures Or(result, Shl64(g, 7 * i)) == (result + g * Pow(128, i)) % TWO64
  {
    if i < 9 {
      OrLowGroup(result, g, i);
      ModMultiple(result + g * Pow(128, i), 0);
    } else {
      assert i == 9 && Pow(128, i) == 0x8000_0000_0000_0000 by { Powers(); }
      OrTopGroup(result, g);
    }
  }

  lemma ModMultiple(r: nat, q: nat)
    requires r < TWO64
    ensures (q * TWO64 + r) % TWO64 == r
  {
  }

  lemma {:induction false} PowMonotone(i: nat, j: nat)
    requires i <= j
    ensures Pow(128, i) <= Pow(128, j)
    decreases j
  {
    if i == j {
    } else {
      PowMonotone(i, j - 1);
    }
  }

  /** What the decoder's accumulator holds after `i` marked bytes, and after the next byte. */
  lemma OrStep(buf: seq<byte>, i: nat, result: u64)
    requires i < |buf| && i < 10
    requires result == Weight(buf[..i])
    ensures Or(result, Shl64(buf[i] % 128, 7 * i)) == Weight(buf[..i + 1]) % TWO64
    ensures i < 9 ==> Or(result, Shl64(buf[i] % 128, 7 * i)) == Weight(buf[..i + 1])
  {
    var g: nat, p: nat := buf[i] % 128, Pow(128, i);
    assert Weight(buf[..i + 1]) == result + g * p by {
      assert buf[..i + 1] == buf[..i] + [buf[i]];
      WeightAppend(buf[..i], buf[i]);
    }
    assert result < p by { WeightBound(buf[..i]); }
    OrGroup(result, g, i);
    if i < 9 {
      OrLowGroup(result, g, i);
    }
  }

  method EncodeVarint(num: u64, buf: ByteVec)
    modifies buf
    ensures buf.data == old(buf.data) + Varint(num)
  {
    var n := num;
    var more := true;
    while more
      invariant more ==> old(buf.data) + Varint(num) == buf.data + Varint(n)
      invariant !more ==> n == 0 && old(buf.data) + Varint(num) == buf.data
      decreases n, more
    {
      var b: byte := n % 128;
      ghost var before := n;
      n := n / 128;
      if n != 0 {
        b := b + 128;
      }
      assert Varint(before) == [b] + (if n == 0 then [] else Varint(n));
      buf.Push(b);
      if n == 0 {
        more := false;
      }
    }
  }

  method DecodeVarint(buf: seq<byte>) returns (r: Result<(u64, nat), VarintError>)
    ensures r == ReadVarint(buf)
  {
    var result: u64 := 0;
    var shift: nat := 0;
    for i := 0 to |buf|
      invariant i <= 10 && shift == 7 * i
      invariant forall j :: 0 <= j < i ==> buf[j] >= 128
      invariant i < 10 ==> result == Weight(buf[..i])
    {
      if i >= 10 {
        return Err(TooLong);
      }
      assert shift <= 63;
      OrStep(buf, i, result);
      result := Or(result, Shl64(buf[i] % 128, shift));
      if buf[i] < 128 {
        MarkedIs(buf, i);
        return Ok((result, i + 1));
      }
      shift := shift + 7;
    }
    MarkedIs(buf, |buf|);
    return Err(Unterminated);
  }
}
