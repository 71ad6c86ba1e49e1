/** What `ValidUtf8` accepts: exactly the encodings of Unicode scalar values (section 3 of RFC 3629). */
module Utf8 {
  import opened Bytes

  /** Code points but the surrogates. */
  predicate ScalarValue(c: nat) { c < 0x11_0000 && !(0xD800 <= c < 0xE000) }

  function EncodeScalar(c: nat): seq<byte>
    requires ScalarValue(c)
  {
    if c < 0x80 then [c]
    else if c < 0x800 then [0xC0 + c / 0x40, 0x80 + c % 0x40]
    else if c < 0x1_0000 then [0xE0 + c / 0x1000, 0x80 + c / 0x40 % 0x40, 0x80 + c % 0x40]
    else [0xF0 + c / 0x4_0000, 0x80 + c / 0x1000 % 0x40, 0x80 + c / 0x40 % 0x40, 0x80 + c % 0x40]
  }

  function EncodeScalars(cs: seq<nat>): seq<byte>
    requires forall i :: 0 <= i < |cs| ==> ScalarValue(cs[i])
  {
    if cs == [] then [] else EncodeScalar(cs[0]) + EncodeScalars(cs[1..])
  }

  lemma HeadOfScalar(c: nat, rest: seq<byte>)
    requires ScalarValue(c)
    ensures Utf8Head(EncodeScalar(c) + rest) == |EncodeScalar(c)|
  {
    var b := EncodeScalar(c);
    assert forall i :: 0 <= i < |b| ==> (b + rest)[i] == b[i];
  }

  lemma Sextet(a: nat, z: nat)
    requires z < 0x40
    ensures (0x40 * a + z) / 0x40 == a && (0x40 * a + z) % 0x40 == z
  {
  }

  lemma DivTwice(c: nat)
    ensures c / 0x1000 == c / 0x40 / 0x40
    ensures c / 0x4_0000 == c / 0x1000 / 0x40
  {
  }

  /** Six-bit digits are told apart by division. */
  lemma Sextets(h: nat, x: nat, y: nat, z: nat)
    requires x < 0x40 && y < 0x40 && z < 0x40
    ensures var c := 0x4_0000 * h + 0x1000 * x + 0x40 * y + z;
            && c / 0x40 == 0x1000 * h + 0x40 * x + y && c / 0x1000 == 0x40 * h + x && c / 0x4_0000 == h
            && c / 0x1000 % 0x40 == x && c / 0x40 % 0x40 == y && c % 0x40 == z
  {
    var c := 0x4_0000 * h + 0x1000 * x + 0x40 * y + z;
    DivTwice(c);
    Sextet(h, x);
    Sextet(0x40 * h + x, y);
    Sextet(0x1000 * h + 0x40 * x + y, z);
  }

  /** The scalar value behind two, three and four bytes. */
  lemma TwoBytes(h: nat, z: nat)
    requires 2 <= h < 0x20 && z < 0x40
    ensures ScalarValue(0x40 * h + z) && EncodeScalar(0x40 * h + z) == [0xC0 + h, 0x80 + z]
  {
  }

  lemma ThreeBytes(h: nat, y: nat, z: nat)
    requires h < 0x10 && y < 0x40 && z < 0x40
    requires (h == 0 ==> y >= 0x20) && (h == 0xD ==> y < 0x20)
    ensures var c := 0x1000 * h + 0x40 * y + z;
            ScalarValue(c) && EncodeScalar(c) == [0xE0 + h, 0x80 + y, 0x80 + z]
  {
    Sextets(0, h, y, z);
  }

  lemma FourBytes(h: nat, x: nat, y: nat, z: nat)
    requires h < 5 && x < 0x40 && y < 0x40 && z < 0x40
    requires (h == 0 ==> x >= 0x10) && (h == 4 ==> x < 0x10)
    ensures var c := 0x4_0000 * h + 0x1000 * x + 0x40 * y + z;
            ScalarValue(c) && EncodeScalar(c) == [0xF0 + h, 0x80 + x, 0x80 + y, 0x80 + z]
  {
    Sextets(h, x, y, z);
  }

  lemma ScalarOfHead(bs: seq<byte>) returns (c: nat)
    requires Utf8Head(bs) > 0
    ensures ScalarValue(c) && EncodeScalar(c) == bs[..Utf8Head(bs)]
  {
    var n := Utf8Head(bs);
    if n == 1 {
      c := bs[0];
    } else {
      hide ScalarValue, EncodeScalar;
      var z: nat := bs[n - 1] - 0x80;
      if n == 2 {
        var h: nat := bs[0] - 0xC0;
        c := 0x40 * h + z;
        TwoBytes(h, z);
        assert bs[..2] == [0xC0 + h, 0x80 + z];
      } else if n == 3 {
        var h: nat, y: nat := bs[0] - 0xE0, bs[1] - 0x80;
        c := 0x1000 * h + 0x40 * y + z;
        ThreeBytes(h, y, z);
        assert bs[..3] == [0xE0 + h, 0x80 + y, 0x80 + z];
      } else {
        var h: nat, x: nat, y: nat := bs[0] - 0xF0, bs[1] - 0x80, bs[2] - 0x80;
        c := 0x4_0000 * h + 0x1000 * x + 0x40 * y + z;
        FourBytes(h, x, y, z);
        assert bs[..4] == [0xF0 + h, 0x80 + x, 0x80 + y, 0x80 + z];
      }
    }
  }

  lemma {:induction false} EncodedIsValid(cs: seq<nat>)
    requires forall i :: 0 <= i < |cs| ==> ScalarValue(cs[i])
    ensures ValidUtf8(EncodeScalars(cs))
  {
    hide Utf8Head, EncodeScalar;
    if cs == [] {
    } else {
      var c, rest := cs[0], EncodeScalars(cs[1..]);
      EncodedIsValid(cs[1..]);
      HeadOfScalar(c, rest);
      assert (EncodeScalar(c) + rest)[|EncodeScalar(c)|..] == rest;
      ScalarNotEmpty(c);
    }
  }

  lemma ScalarNotEmpty(c: nat)
    requires ScalarValue(c)
    ensures 1 <= |EncodeScalar(c)| <= 4
  {
  }

  lemma {:induction false} ValidIsEncoded(bs: seq<byte>) returns (cs: seq<nat>)
    requires ValidUtf8(bs)
    ensures (forall i :: 0 <= i < |cs| ==> ScalarValue(cs[i])) && EncodeScalars(cs) == bs
    decreases |bs|
  {
    hide Utf8Head, EncodeScalar;
    if bs == [] {
      cs := [];
    } else {
      var n := Utf8Head(bs);
      var c := ScalarOfHead(bs);
      var others := ValidIsEncoded(bs[n..]);
      cs := [c] + others;
      assert cs[1..] == others && bs == bs[..n] + bs[n..];
    }
  }

  /** The checks of `String::from_utf8` accept a byte string exactly if it encodes some text. */
  lemma ValidExactly(bs: seq<byte>)
    ensures ValidUtf8(bs) <==>
            exists cs: seq<nat> :: (forall i :: 0 <= i < |cs| ==> ScalarValue(cs[i])) && EncodeScalars(cs) == bs
  {
    hide Utf8Head, EncodeScalar, EncodeScalars;
    if ValidUtf8(bs) {
      var cs := ValidIsEncoded(bs);
    }
    forall cs: seq<nat> | (forall i :: 0 <= i < |cs| ==> ScalarValue(cs[i])) && EncodeScalars(cs) == bs
      ensures ValidUtf8(bs)
    {
      EncodedIsValid(cs);
    }
  }
}
