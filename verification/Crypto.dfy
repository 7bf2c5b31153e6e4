/** The framing of security/crypto.go: base64 over nonce, ciphertext and tag.  The AEAD itself is a
    parameter with the laws of sections 7.1 and 7.2 of NIST SP 800-38D. */
module Crypto {
  import opened Prelude
  import Base64

  const NONCE_SIZE := 12
  const TAG_SIZE := 16

  /** AES-GCM under one key. */
  datatype Aead = Aead(seal: (bytes, bytes) -> bytes, open: (bytes, bytes) -> Option<bytes>) {
    ghost predicate Lawful() {
      && (forall nonce, p :: open(nonce, seal(nonce, p)) == Some(p))
      && (forall nonce, p :: |seal(nonce, p)| == |p| + TAG_SIZE)
    }
  }

  datatype CryptoError = NoEntropy | BadBase64 | TooShort | AuthFailed

  /** `Encrypt` once its nonce is drawn. */
  function Frame(aead: Aead, nonce: bytes, plain: bytes): bytes {
    Base64.Encode(nonce + aead.seal(nonce, plain))
  }

  /** `Decrypt`. */
  function Unframe(aead: Aead, text: bytes): Result<bytes, CryptoError> {
    match Base64.Decode(text)
    case None => Err(BadBase64)
    case Some(data) =>
      if |data| < NONCE_SIZE then Err(TooShort)
      else match aead.open(data[..NONCE_SIZE], data[NONCE_SIZE..])
        case None => Err(AuthFailed)
        case Some(p) => Ok(p)
  }

  /** The text is base64 of a nonce and of what the AEAD seals under it. */
  ghost predicate SealedText(aead: Aead, plain: bytes, text: bytes) {
    exists nonce: bytes | |nonce| == 12 :: Base64.Decode(text) == Some(nonce + aead.seal(nonce, plain))
  }

  lemma FrameIsSealed(aead: Aead, nonce: bytes, plain: bytes)
    requires |nonce| == NONCE_SIZE
    ensures Base64.Decode(Frame(aead, nonce, plain)) == Some(nonce + aead.seal(nonce, plain))
    ensures SealedText(aead, plain, Frame(aead, nonce, plain))
  {
    Base64.DecodeUndoesEncode(nonce + aead.seal(nonce, plain));
  }

  /** Decrypting what was encrypted gives it back, for every nonce; and a ciphertext is always longer
      than its plaintext, so never empty and never mistaken for it. */
  lemma UnframeUndoesFrame(aead: Aead, nonce: bytes, plain: bytes)
    requires aead.Lawful() && |nonce| == NONCE_SIZE
    ensures Unframe(aead, Frame(aead, nonce, plain)) == Ok(plain)
    ensures |Frame(aead, nonce, plain)| > |plain|
  {
    var data := nonce + aead.seal(nonce, plain);
    Base64.DecodeUndoesEncode(data);
    assert data[..NONCE_SIZE] == nonce && data[NONCE_SIZE..] == aead.seal(nonce, plain);
  }

  /** The encryptor with its source of random nonces; a draw may fail. */
  class Encryptor {
    const aead: Aead
    const random: nat -> Option<bytes>
    var drawn: nat

    constructor (aead: Aead, random: nat -> Option<bytes>)
      ensures this.aead == aead && this.random == random && drawn == 0
    {
      this.aead, this.random, drawn := aead, random, 0;
    }

    ghost predicate Valid()
    {
      aead.Lawful() && forall i | random(i).Some? :: |random(i).value| == NONCE_SIZE
    }

    ghost predicate NeverFails() { forall i :: random(i).Some? }

    method EncryptString(plain: bytes) returns (r: Result<bytes, CryptoError>)
      requires Valid()
      modifies this`drawn
      ensures r.Ok? <==> random(old(drawn)).Some?
      ensures r.Ok? ==>
                var nonce := random(old(drawn)).value;
                Base64.Decode(r.value) == Some(nonce + aead.seal(nonce, plain)) && |nonce| == 12
      ensures r.Ok? ==>
                SealedText(aead, plain, r.value) && Unframe(aead, r.value) == Ok(plain) && |r.value| > |plain|
      ensures drawn == old(drawn) + 1
    {
      var nonce := random(drawn);
      drawn := drawn + 1;
      if nonce.None? {
        return Err(NoEntropy);
      }
      UnframeUndoesFrame(aead, nonce.value, plain);
      FrameIsSealed(aead, nonce.value, plain);
      r := Ok(Frame(aead, nonce.value, plain));
    }

    method DecryptString(text: bytes) returns (r: Result<bytes, CryptoError>)
      ensures r == Unframe(aead, text)
      ensures Base64.Decode(text).None? ==> r == Err(BadBase64)
      ensures Base64.Decode(text).Some? ==>
                var data := Base64.Decode(text).value;
                && (|data| < 12 ==> r == Err(TooShort))
                && (|data| >= 12 ==> r == match aead.open(data[..12], data[12..])
                                          case Some(p) => Ok(p)
                                          case None => Err(AuthFailed))
    {
      r := Unframe(aead, text);
    }
  }
}
