/** Bytes, fixed-width unsigned and signed integers, big-endian layout, UTF-8, byte readers and writers. */
module Bytes {
  import opened Wrappers

  type byte = n: nat | n < 0x100
  type u16 = n: nat | n < 0x1_0000
  type u32 = n: nat | n < 0x1_0000_0000
  type u64 = n: nat | n < 0x1_0000_0000_0000_0000
  type i32 = n: int | -0x8000_0000 <= n < 0x8000_0000
  type i64 = n: int | -0x8000_0000_0000_0000 <= n < 0x8000_0000_0000_0000

  const TWO32: nat := 0x1_0000_0000
  const TWO64: nat := 0x1_0000_0000_0000_0000

  function Pow(b: nat, e: nat): nat {
    if e == 0 then 1 else b * Pow(b, e - 1)
  }

  /** The low `w` bytes of `n`, most significant first (`to_be_bytes`). */
  function BE(n: nat, w: nat): (bs: seq<byte>)
    ensures |bs| == w
  {
    if w == 0 then [] else BE(n / 256, w - 1) + [n % 256]
  }

  /** The number a big-endian byte string stands for (`from_be_bytes`). */
  function FromBE(bs: seq<byte>): nat {
    if bs == [] then 0 else 256 * FromBE(bs[..|bs| - 1]) + bs[|bs| - 1]
  }

  lemma {:induction false} FromBEOfBE(n: nat, w: nat)
    requires n < Pow(256, w)
    ensures FromBE(BE(n, w)) == n
  {
    if w == 0 {
    } else {
      FromBEOfBE(n / 256, w - 1);
      assert BE(n, w)[..w - 1] == BE(n / 256, w - 1);
    }
  }

  lemma {:induction false} BEOfFromBE(bs: seq<byte>)
    ensures FromBE(bs) < Pow(256, |bs|)
    ensures BE(FromBE(bs), |bs|) == bs
  {
    if bs == [] {
    } else {
      var init := bs[..|bs| - 1];
      BEOfFromBE(init);
      assert FromBE(bs) / 256 == FromBE(init) && FromBE(bs) % 256 == bs[|bs| - 1];
      assert bs == init + [bs[|bs| - 1]];
    }
  }

  /** The widths the wire format uses. */
  lemma Widths()
    ensures Pow(256, 1) == 0x100 && Pow(256, 2) == 0x1_0000
    ensures Pow(256, 4) == TWO32 && Pow(256, 8) == TWO64
  {
    assert Pow(256, 1) == 256 * Pow(256, 0);
    assert Pow(256, 2) == 256 * Pow(256, 1);
    assert Pow(256, 3) == 256 * Pow(256, 2);
    assert Pow(256, 4) == 256 * Pow(256, 3);
    assert Pow(256, 5) == 256 * Pow(256, 4);
    assert Pow(256, 6) == 256 * Pow(256, 5);
    assert Pow(256, 7) == 256 * Pow(256, 6);
    assert Pow(256, 8) == 256 * Pow(256, 7);
  }

  lemma BEStep(n: nat, w: nat)
    requires w > 0
    ensures BE(n, w) == BE(n / 256, w - 1) + [n % 256]
  {
  }

  lemma BETwo(n: nat)
    ensures BE(n, 2) == [n / 0x100 % 0x100, n % 0x100]
  {
    BEStep(n, 2);
    BEStep(n / 256, 1);
  }

  lemma BEMore(n: nat, w: nat)
    ensures BE(n, w + 2) == BE(n / 0x1_0000, w) + BE(n, 2)
  {
    hide BE;
    BEStep(n, w + 2);
    BEStep(n / 256, w + 1);
    BETwo(n);
    assert n / 256 / 256 == n / 0x1_0000;
  }

  lemma BEFour(n: nat)
    ensures BE(n, 4) == [n / 0x100_0000 % 0x100, n / 0x1_0000 % 0x100, n / 0x100 % 0x100, n % 0x100]
  {
    hide BE;
    BETwo(n);
    BETwo(n / 0x1_0000);
    BEMore(n, 2);
    assert n / 0x1_0000 / 0x100 == n / 0x100_0000;
  }

  lemma BEEight(n: nat)
    ensures BE(n, 8) == BE(n / 0x1_0000_0000, 4) + BE(n, 4)
  {
    hide BE;
    BEMore(n, 6);
    BEMore(n / 0x1_0000, 4);
    BEMore(n, 2);
    assert n / 0x1_0000 / 0x1_0000 == n / 0x1_0000_0000;
  }

  /** The widths the wire format uses, digit by digit. */
  lemma BigEndian(n: nat)
    ensures BE(n, 2) == [n / 0x100 % 0x100, n % 0x100]
    ensures BE(n, 4) == [n / 0x100_0000 % 0x100, n / 0x1_0000 % 0x100, n / 0x100 % 0x100, n % 0x100]
    ensures BE(n, 8) == BE(n / 0x1_0000_0000, 4) + BE(n, 4)
  {
    hide BE;
    BETwo(n);
    BEFour(n);
    BEEight(n);
  }

  /** Two, four and eight bytes as a number, most significant first. */
  function Two(b: seq<byte>): u16
    requires |b| >= 2
  {
    (b[0] as nat) * 0x100 + b[1]
  }

  function Four(b: seq<byte>): u32
    requires |b| >= 4
  {
    (b[0] as nat) * 0x100_0000 + (b[1] as nat) * 0x1_0000 + (b[2] as nat) * 0x100 + b[3]
  }

  function Eight(b: seq<byte>): u64
    requires |b| >= 8
  {
    (Four(b) as nat) * 0x1_0000_0000 + Four(b[4..])
  }

  lemma FromBigEndian(b: seq<byte>)
    ensures |b| >= 2 ==> FromBE(b[..2]) == Two(b)
    ensures |b| >= 4 ==> FromBE(b[..4]) == Four(b)
    ensures |b| >= 8 ==> FromBE(b[..8]) == Eight(b)
  {
    hide FromBE, Two, Four, Eight;
    if |b| >= 2 { FromBETwo(b); }
    if |b| >= 4 { FromBEFour(b); }
    if |b| >= 8 { FromBEEight(b); }
  }

  lemma FromBEStep(b: seq<byte>, k: nat)
    requires k < |b|
    ensures FromBE(b[..k + 1]) == 256 * FromBE(b[..k]) + b[k]
    ensures FromBE(b[..0]) == 0
  {
    assert b[..k + 1][..k] == b[..k];
  }

  lemma FromBETwo(b: seq<byte>)
    requires |b| >= 2
    ensures FromBE(b[..2]) == Two(b)
  {
    FromBEStep(b, 0);
    FromBEStep(b, 1);
  }

  lemma FromBEFour(b: seq<byte>)
    requires |b| >= 4
    ensures FromBE(b[..4]) == Four(b)
  {
    FromBETwo(b);
    FromBEStep(b, 2);
    FromBEStep(b, 3);
  }

  lemma FromBEEight(b: seq<byte>)
    requires |b| >= 8
    ensures FromBE(b[..8]) == Eight(b)
  {
    FromBEFour(b);
    FromBEStep(b, 4);
    FromBEStep(b, 5);
    FromBEStep(b, 6);
    FromBEStep(b, 7);
  }

  lemma TwoOf(n: u16)
    ensures Two(BE(n, 2)) == n
  {
    Widths();
    FromBEOfBE(n, 2);
    FromBigEndian(BE(n, 2));
    assert BE(n, 2)[..2] == BE(n, 2);
  }

  lemma FourOf(n: u32)
    ensures Four(BE(n, 4)) == n
  {
    Widths();
    FromBEOfBE(n, 4);
    FromBigEndian(BE(n, 4));
    assert BE(n, 4)[..4] == BE(n, 4);
  }

  lemma EightOf(n: u64)
    ensures Eight(BE(n, 8)) == n
  {
    Widths();
    FromBEOfBE(n, 8);
    FromBigEndian(BE(n, 8));
    assert BE(n, 8)[..8] == BE(n, 8);
  }

  /** `as u32` and `as u64` on a signed integer. */
  function Unsigned32(n: i32): u32 { if n < 0 then n + 0x1_0000_0000 else n }
  function Unsigned64(n: i64): u64 { if n < 0 then n + 0x1_0000_0000_0000_0000 else n }

  /** `as i32` and `as i64` on an unsigned integer. */
  function Signed32(n: u32): i32 { if n < 0x8000_0000 then n else n - 0x1_0000_0000 }
  function Signed64(n: u64): i64 { if n < 0x8000_0000_0000_0000 then n else n - 0x1_0000_0000_0000_0000 }

  predicate Trail(b: byte) { 0x80 <= b < 0xC0 }

  /** Length of the well-formed UTF-8 sequence `bs` starts with (section 4 of RFC 3629), or 0. */
  function Utf8Head(bs: seq<byte>): (n: nat)
    ensures n <= |bs|
  {
    if |bs| >= 1 && bs[0] < 0x80 then 1
    else if |bs| >= 2 && 0xC2 <= bs[0] < 0xE0 && Trail(bs[1]) then 2
    else if |bs| >= 3 && 0xE0 <= bs[0] < 0xF0 && Trail(bs[1]) && Trail(bs[2])
            && (bs[0] == 0xE0 ==> bs[1] >= 0xA0) && (bs[0] == 0xED ==> bs[1] < 0xA0) then 3
    else if |bs| >= 4 && 0xF0 <= bs[0] < 0xF5 && Trail(bs[1]) && Trail(bs[2]) && Trail(bs[3])
            && (bs[0] == 0xF0 ==> bs[1] >= 0x90) && (bs[0] == 0xF4 ==> bs[1] < 0x90) then 4
    else 0
  }

  predicate ValidUtf8(bs: seq<byte>) {
    bs == [] || (Utf8Head(bs) > 0 && ValidUtf8(bs[Utf8Head(bs)..]))
  }

  // ── Byte input and output ──────────────────────────────────

  /** A growable byte vector (`Vec<u8>`). */
  class ByteVec {
    var data: seq<byte>

    constructor ()
      ensures data == []
    {
      data := [];
    }

    method Push(b: byte)
      modifies this
      ensures data == old(data) + [b]
    {
      data := data + [b];
    }

    method Extend(bs: seq<byte>)
      modifies this
      ensures data == old(data) + bs
    {
      data := data + bs;
    }
  }

  /** `impl Read`: bytes still to come before the end of input. */
  class ByteSource {
    var rest: seq<byte>

    constructor (bytes: seq<byte>)
      ensures rest == bytes
    {
      rest := bytes;
    }

    method ReadExact(n: nat) returns (r: Option<seq<byte>>)
      modifies this
      ensures n <= |old(rest)| ==> r == Some(old(rest)[..n]) && rest == old(rest)[n..]
      ensures n > |old(rest)| ==> r == None && rest == []
    {
      if n <= |rest| {
        r := Some(rest[..n]);
        rest := rest[n..];
      } else {
        r := None;
        rest := [];
      }
    }
  }
}
