/**
 Length-prefixed frames and byte streams of many frames (src/frame.rs).
 frame = length (4 bytes) || sequence number (4 bytes) || data, big-endian.
 */
module Frames {
  import opened Wrappers
  import opened Bytes
  import opened Crypto

  const MAX_FRAME_SIZE: nat := 0x10_0000
  const FRAME_OVERHEAD: nat := 4 + 12 + 16
  const FRAME_MIN_DATA: nat := 4

  function MaxSafePayload(): nat { MAX_FRAME_SIZE - FRAME_OVERHEAD }
  function WireOverhead(): nat { 36 }

  datatype Frame = Frame(seqno: u32, data: seq<byte>)

  datatype FrameError = Eof | Io | TooLarge(len: nat) | TooShort(len: nat)

  // ── Specification ──────────────────────────────────────────

  /** `4u32 + data.len() as u32`: the cast and the sum are modulo 2^32. */
  function TotalLen(data: seq<byte>): u32 { (4 + |data| % TWO32) % TWO32 }

  function Layout(total: nat, seqno: u32, data: seq<byte>): seq<byte> {
    BE(total, 4) + BE(seqno, 4) + data
  }

  function EncodeFrame(seqno: u32, data: seq<byte>): Result<seq<byte>, FrameError> {
    var total := TotalLen(data);
    if total > MAX_FRAME_SIZE then Err(TooLarge(total)) else Ok(Layout(total, seqno, data))
  }

  function ParseFrameData(data: seq<byte>): Result<Frame, FrameError> {
    if |data| < 4 then Err(TooShort(|data| % TWO32))
    else
      BEOfFromBE(data[..4]);
      Widths();
      Ok(Frame(FromBE(data[..4]), data[4..]))
  }

  /** What one read returns and what it leaves; a read that runs dry leaves nothing. */
  function ReadFrame(stream: seq<byte>): (Result<Frame, FrameError>, seq<byte>) {
    if |stream| < 4 then (Err(Eof), [])
    else
      var len := FromBE(stream[..4]);
      var body := stream[4..];
      if len > MAX_FRAME_SIZE then (Err(TooLarge(len)), body)
      else if len < FRAME_MIN_DATA then (Err(TooShort(len)), body)
      else if |body| < len then (Err(Io), [])
      else (ParseFrameData(body[..len]), body[len..])
  }

  // ── One frame ──────────────────────────────────────────────

  lemma LayoutParts(total: u32, seqno: u32, data: seq<byte>, rest: seq<byte>)
    ensures var s := Layout(total, seqno, data) + rest;
            && |s| == 8 + |data| + |rest|
            && FromBE(s[..4]) == total
            && s[4..] == BE(seqno, 4) + data + rest
    ensures FromBE(BE(seqno, 4)) == seqno
  {
    assert FromBE(BE(total, 4)) == total && FromBE(BE(seqno, 4)) == seqno by {
      Widths();
      FromBEOfBE(total, 4);
      FromBEOfBE(seqno, 4);
    }
    hide BE, FromBE;
    var s := Layout(total, seqno, data) + rest;
    assert s[..4] == BE(total, 4);
  }

  lemma ParseOfLayout(seqno: u32, data: seq<byte>)
    ensures ParseFrameData(BE(seqno, 4) + data) == Ok(Frame(seqno, data))
  {
    Widths();
    FromBEOfBE(seqno, 4);
    var d := BE(seqno, 4) + data;
    assert d[..4] == BE(seqno, 4) && d[4..] == data;
  }

  /** A frame that states its own length is read back in front of anything. */
  lemma ReadOfLayout(seqno: u32, data: seq<byte>, rest: seq<byte>)
    requires |data| <= MAX_FRAME_SIZE - 4
    ensures ReadFrame(Layout(4 + |data|, seqno, data) + rest) == (Ok(Frame(seqno, data)), rest)
  {
    var n := 4 + |data|;
    LayoutParts(n, seqno, data, rest);
    ParseOfLayout(seqno, data);
    var body := BE(seqno, 4) + data + rest;
    assert body[..n] == BE(seqno, 4) + data && body[n..] == rest;
  }

  /**
   Writing a frame and reading it back works exactly for data of at most 2^20 - 4 bytes. The guard
   in `encode_frame` alone does not say so: its length is taken modulo 2^32.
   */
  lemma FrameRoundTripDomain(seqno: u32, data: seq<byte>, rest: seq<byte>)
    ensures var f := EncodeFrame(seqno, data);
            (f.Ok? && ReadFrame(f.value + rest) == (Ok(Frame(seqno, data)), rest))
            <==> |data| <= 1_048_572
    ensures |data| < TWO32 - 4 ==> (EncodeFrame(seqno, data).Ok? <==> |data| <= 1_048_572)
  {
    hide ReadFrame, Layout;
    var f := EncodeFrame(seqno, data);
    if |data| <= MAX_FRAME_SIZE - 4 {
      ReadOfLayout(seqno, data, rest);
    } else if f.Ok? {
      ReadDataBounded(f.value + rest);
    }
  }

  lemma ReadDataBounded(stream: seq<byte>)
    ensures ReadFrame(stream).0.Ok? ==> |ReadFrame(stream).0.value.data| <= MAX_FRAME_SIZE - 4
  {
  }

  /** 4 GiB of data slip past the size check and are read back as an empty frame. */
  lemma FourGigabytesAccepted(data: seq<byte>)
    requires |data| == TWO32
    ensures EncodeFrame(7, data).Ok?
    ensures ReadFrame(EncodeFrame(7, data).value) == (Ok(Frame(7, [])), data)
  {
    ReadOfLayout(7, [], data);
    assert Layout(4, 7, []) + data == Layout(4, 7, data);
  }

  /**
   An encrypted body is accepted exactly up to `max_safe_payload()` bytes of plaintext and takes
   `wire_overhead()` bytes more than the plaintext.
   */
  lemma EncryptedFrameBound(a: Aead, key: seq<byte>, nonce: Nonce, p: seq<byte>, seqno: u32)
    requires Lawful(a) && |key| == KEY_SIZE && |p| < TWO32 - 32
    ensures var body := Encrypt(a, key, nonce, p);
            && body.Ok?
            && (EncodeFrame(seqno, body.value).Ok? <==> |p| <= MaxSafePayload() == 1_048_544)
            && (EncodeFrame(seqno, body.value).Ok? ==>
                  |EncodeFrame(seqno, body.value).value| == |p| + WireOverhead() == |p| + 36)
  {
    DecryptOfEncrypt(a, key, nonce, p);
  }

  // ── Streams of frames ──────────────────────────────────────

  predicate Sendable(f: Frame) { |f.data| <= MAX_FRAME_SIZE - 4 }

  function Wire(f: Frame): (w: seq<byte>)
    ensures |w| == 8 + |f.data|
  {
    Layout(4 + |f.data|, f.seqno, f.data)
  }

  function WriteAll(fs: seq<Frame>): seq<byte> {
    if fs == [] then [] else Wire(fs[0]) + WriteAll(fs[1..])
  }

  /** The frames repeated reads return, and the error that ends them. */
  function ReadAll(stream: seq<byte>): (seq<Frame>, FrameError)
    decreases |stream|
  {
    var (f, rest) := ReadFrame(stream);
    if f.Err? then ([], f.error)
    else
      var (fs, e) := ReadAll(rest);
      ([f.value] + fs, e)
  }

  /**
   A read succeeds exactly on streams that start with the one layout of a frame within the size
   limit, and consumes exactly that.
   */
  lemma ReadFrameExactly(stream: seq<byte>, f: Frame, rest: seq<byte>)
    ensures ReadFrame(stream) == (Ok(f), rest) <==> Sendable(f) && stream == Wire(f) + rest
  {
    if Sendable(f) && stream == Wire(f) + rest {
      ReadOfLayout(f.seqno, f.data, rest);
    }
    if ReadFrame(stream) == (Ok(f), rest) {
      var body := stream[4..];
      var n := FromBE(stream[..4]);
      BEOfFromBE(stream[..4]);
      BEOfFromBE(body[..n][..4]);
      assert body[..n] == BE(f.seqno, 4) + f.data;
      assert body == body[..n] + rest;
      assert stream == stream[..4] + body;
    }
  }

  /** Why a read fails, from the length in its first four bytes, and what it leaves. */
  lemma ReadFrameRefused(stream: seq<byte>)
    ensures |stream| < 4 ==> ReadFrame(stream) == (Err(Eof), [])
    ensures |stream| >= 4 ==>
              var len := Four(stream);
              && (len > 1_048_576 ==> ReadFrame(stream) == (Err(TooLarge(len)), stream[4..]))
              && (len < 4 ==> ReadFrame(stream) == (Err(TooShort(len)), stream[4..]))
              && (4 <= len <= 1_048_576 && |stream| - 4 < len ==> ReadFrame(stream) == (Err(Io), []))
  {
    hide Four, FromBE;
    FromBigEndian(stream);
  }

  /** A frame's bytes. */
  lemma WireBytes(f: Frame)
    requires Sendable(f)
    ensures Four(Wire(f)) == 4 + |f.data| <= 1_048_576
    ensures Four(Wire(f)[4..]) == f.seqno
    ensures Wire(f)[8..] == f.data
  {
    FourOf(4 + |f.data|);
    FourOf(f.seqno);
    hide BE;
    var w := Wire(f);
    assert w[..4] == BE(4 + |f.data|, 4) && w[4..][..4] == BE(f.seqno, 4);
    FourFront(w);
    FourFront(w[4..]);
  }

  lemma FourFront(b: seq<byte>)
    requires |b| >= 4
    ensures Four(b[..4]) == Four(b)
  {
  }

  /** A frame cut short reads as end of input inside its length and as an I/O error after it. */
  lemma ReadOfCut(f: Frame, k: nat)
    requires Sendable(f) && k < |Wire(f)|
    ensures ReadFrame(Wire(f)[..k]).0 == Err(if k < 4 then Eof else Io)
  {
    if k >= 4 {
      LayoutParts(4 + |f.data|, f.seqno, f.data, []);
      var s := Wire(f);
      assert s + [] == s;
      assert s[..k][..4] == s[..4];
    }
  }

  /** How many frames lie wholly inside the first `k` bytes. */
  function Whole(fs: seq<Frame>, k: nat): (w: nat)
    requires k <= |WriteAll(fs)|
    ensures w <= |fs| && |WriteAll(fs[..w])| <= k
    ensures w < |fs| ==> k < |WriteAll(fs[..w + 1])|
  {
    if fs == [] then 0
    else if k < |Wire(fs[0])| then
      WriteAllTake(fs, 1);
      0
    else
      var w := Whole(fs[1..], k - |Wire(fs[0])|);
      WriteAllTake(fs, w + 1);
      assert w + 1 < |fs| ==> k < |WriteAll(fs[..w + 2])| by {
        if w + 1 < |fs| { WriteAllTake(fs, w + 2); }
      }
      w + 1
  }

  /**
   Reading any truncation of a stream of frames returns exactly the frames wholly inside it, then
   `Eof` if fewer than 4 bytes of the next frame remain and an I/O error otherwise. `w` frames are
   wholly inside the first `k` bytes.
   */
  lemma {:induction false} ReadTruncated(fs: seq<Frame>, k: nat, w: nat)
    requires forall i :: 0 <= i < |fs| ==> Sendable(fs[i])
    requires k <= |WriteAll(fs)| && w <= |fs|
    requires |WriteAll(fs[..w])| <= k && (w < |fs| ==> k < |WriteAll(fs[..w + 1])|)
    ensures ReadAll(WriteAll(fs)[..k]) ==
            (fs[..w], if k - |WriteAll(fs[..w])| < 4 then Eof else Io)
  {
    hide ReadFrame, Layout;
    if fs == [] {
      assert ReadFrame([]).0 == Err(Eof) by { ReadEmpty(); }
    } else if w == 0 {
      assert fs[..1] == [fs[0]] && fs[..1][1..] == [];
      assert WriteAll(fs)[..k] == Wire(fs[0])[..k];
      ReadOfCut(fs[0], k);
    } else {
      var f, others, n := fs[0], fs[1..], |Wire(fs[0])|;
      WriteAllTake(fs, w);
      if w < |fs| { WriteAllTake(fs, w + 1); }
      ReadTruncated(others, k - n, w - 1);
      ReadAllOfWire(f, WriteAll(others)[..k - n]);
      assert WriteAll(fs)[..k] == Wire(f) + WriteAll(others)[..k - n];
      assert fs[..w] == [f] + others[..w - 1];
    }
  }

  lemma ReadEmpty()
    ensures ReadFrame([]).0 == Err(Eof)
  {
  }

  lemma ReadAllOfWire(f: Frame, rest: seq<byte>)
    requires Sendable(f)
    ensures ReadAll(Wire(f) + rest) == ([f] + ReadAll(rest).0, ReadAll(rest).1)
  {
    ReadOfLayout(f.seqno, f.data, rest);
  }

  lemma WriteAllTake(fs: seq<Frame>, w: nat)
    requires 0 < w <= |fs|
    ensures WriteAll(fs[..w]) == Wire(fs[0]) + WriteAll(fs[1..][..w - 1])
  {
    assert fs[..w][1..] == fs[1..][..w - 1];
  }

  lemma TruncationOutcome(fs: seq<Frame>, k: nat)
    requires forall i :: 0 <= i < |fs| ==> Sendable(fs[i])
    requires k <= |WriteAll(fs)|
    ensures var whole := fs[..Whole(fs, k)];
            ReadAll(WriteAll(fs)[..k]) == (whole, if k - |WriteAll(whole)| < 4 then Eof else Io)
  {
    ReadTruncated(fs, k, Whole(fs, k));
  }

  /** Reading a whole stream of frames returns exactly its frames and then `Eof`. */
  lemma ReadWhole(fs: seq<Frame>)
    requires forall i :: 0 <= i < |fs| ==> Sendable(fs[i])
    ensures ReadAll(WriteAll(fs)) == (fs, Eof)
  {
    assert fs[..|fs|] == fs;
    ReadTruncated(fs, |WriteAll(fs)|, |fs|);
    assert WriteAll(fs)[..|WriteAll(fs)|] == WriteAll(fs);
  }

  // ── Readers and writers ────────────────────────────────────

  method ReadFrameFrom(r: ByteSource) returns (f: Result<Frame, FrameError>)
    modifies r
    ensures (f, r.rest) == ReadFrame(old(r.rest))
  {
    var lenBuf := r.ReadExact(4);
    if lenBuf.None? {
      return Err(Eof);
    }
    var frameLen := FromBE(lenBuf.value);
    if frameLen > MAX_FRAME_SIZE {
      return Err(TooLarge(frameLen));
    }
    if frameLen < FRAME_MIN_DATA {
      return Err(TooShort(frameLen));
    }
    var data := r.ReadExact(frameLen);
    if data.None? {
      return Err(Io);
    }
    f := ParseFrameData(data.value);
  }

  method WriteFrameTo(w: ByteVec, seqno: u32, data: seq<byte>) returns (r: Result<(), FrameError>)
    modifies w
    ensures match EncodeFrame(seqno, data)
            case Ok(bytes) => r == Ok(()) && w.data == old(w.data) + bytes
            case Err(e) => r == Err(e) && w.data == old(w.data)
  {
    var totalLen: u32 := (4 + |data| % TWO32) % TWO32;
    if totalLen > MAX_FRAME_SIZE {
      return Err(TooLarge(totalLen));
    }
    var buf := new ByteVec();
    buf.Extend(BE(totalLen, 4));
    buf.Extend(BE(seqno, 4));
    buf.Extend(data);
    w.Extend(buf.data);
    assert buf.data == Layout(totalLen, seqno, data);
    return Ok(());
  }
}
