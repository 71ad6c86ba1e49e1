/**
 Authenticated encryption as src/session.rs uses it: the guards around AES-256-GCM, over any cipher
 that obeys the laws of section 2 of RFC 5116.
 */
module Crypto {
  import opened Wrappers
  import opened Bytes

  const KEY_SIZE: nat := 32
  const NONCE_SIZE: nat := 12
  const TAG_SIZE: nat := 16

  type Nonce = n: seq<byte> | |n| == NONCE_SIZE witness seq(NONCE_SIZE, _ => 0)

  /** `seal(key, nonce, plaintext)` and `open(key, nonce, ciphertext)`. */
  datatype Aead = Aead(
    seal: (seq<byte>, Nonce, seq<byte>) -> Option<seq<byte>>,
    open: (seq<byte>, Nonce, seq<byte>) -> Option<seq<byte>>)

  /** Sealing adds a 16-byte tag and opening under the same key and nonce undoes it. */
  ghost predicate Lawful(a: Aead) {
    forall k: seq<byte>, n: Nonce, p: seq<byte> {:trigger a.seal(k, n, p)} ::
      |k| == KEY_SIZE && |p| < TWO32 ==>
        && a.seal(k, n, p).Some?
        && |a.seal(k, n, p).value| == |p| + TAG_SIZE
        && a.open(k, n, a.seal(k, n, p).value) == Some(p)
  }

  datatype SessionError = CiphertextTooShort | InvalidKeyLength | SealFailed | OpenFailed

  /** `encrypt`: nonce || ciphertext || tag. */
  function Encrypt(a: Aead, key: seq<byte>, nonce: Nonce, plaintext: seq<byte>): Result<seq<byte>, SessionError> {
    if |key| != KEY_SIZE then Err(InvalidKeyLength)
    else
      match a.seal(key, nonce, plaintext)
      case None => Err(SealFailed)
      case Some(c) => Ok(nonce + c)
  }

  function Decrypt(a: Aead, key: seq<byte>, data: seq<byte>): Result<seq<byte>, SessionError> {
    if |data| < NONCE_SIZE + TAG_SIZE then Err(CiphertextTooShort)
    else if |key| != KEY_SIZE then Err(InvalidKeyLength)
    else
      match a.open(key, data[..NONCE_SIZE], data[NONCE_SIZE..])
      case None => Err(OpenFailed)
      case Some(p) => Ok(p)
  }

  /** Under any 32-byte key, encryption adds 28 bytes and decryption undoes it. */
  lemma DecryptOfEncrypt(a: Aead, key: seq<byte>, nonce: Nonce, p: seq<byte>)
    requires Lawful(a) && |key| == KEY_SIZE && |p| < TWO32
    ensures Encrypt(a, key, nonce, p).Ok?
    ensures |Encrypt(a, key, nonce, p).value| == |p| + NONCE_SIZE + TAG_SIZE
    ensures Decrypt(a, key, Encrypt(a, key, nonce, p).value) == Ok(p)
  {
    var c := a.seal(key, nonce, p).value;
    assert (nonce + c)[..NONCE_SIZE] == nonce && (nonce + c)[NONCE_SIZE..] == c;
  }

  /** On the wire: the 12-byte nonce, then what the cipher sealed. */
  lemma EncryptLayout(a: Aead, key: seq<byte>, nonce: Nonce, p: seq<byte>)
    ensures match Encrypt(a, key, nonce, p)
            case Ok(data) =>
              && |key| == 32 && |data| >= 12 && data[..12] == nonce
              && a.seal(key, nonce, p) == Some(data[12..])
            case Err(e) =>
              || (|key| != 32 && e == InvalidKeyLength)
              || (|key| == 32 && a.seal(key, nonce, p) == None && e == SealFailed)
  {
  }

  /** Decryption succeeds exactly on a nonce and a ciphertext that open under a 32-byte key. */
  lemma DecryptExactly(a: Aead, key: seq<byte>, data: seq<byte>, p: seq<byte>)
    ensures Decrypt(a, key, data) == Ok(p) <==>
            |data| >= 28 && |key| == 32 && a.open(key, data[..12], data[12..]) == Some(p)
    ensures Decrypt(a, key, data) == Err(CiphertextTooShort) <==> |data| < 28
    ensures Decrypt(a, key, data) == Err(InvalidKeyLength) <==> |data| >= 28 && |key| != 32
  {
  }

  /** The laws can be met: a cipher that appends a zero tag meets them. */
  lemma LawfulCiphersExist() returns (a: Aead)
    ensures Lawful(a)
  {
    var tag: seq<byte> := seq(TAG_SIZE, _ => 0);
    a := Aead(
      (k: seq<byte>, n: Nonce, p: seq<byte>) => Some(p + tag),
      (k: seq<byte>, n: Nonce, c: seq<byte>) => if |c| < TAG_SIZE then None else Some(c[..|c| - TAG_SIZE]));
    forall k: seq<byte>, n: Nonce, p: seq<byte> {:trigger a.seal(k, n, p)} | |k| == KEY_SIZE
      ensures a.open(k, n, a.seal(k, n, p).value) == Some(p)
    {
      assert (p + tag)[..|p|] == p;
    }
  }
}
