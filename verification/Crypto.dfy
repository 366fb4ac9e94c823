/**
 The cryptographic primitives, as arbitrary functions related only by their inverse laws, and the
 key derivation and AES-GCM wrappers built on them.  Randomness is always an explicit argument.
 */
module Crypto {
  import opened Wrappers
  import opened ByteCodec

  const AES_KEY_BYTES := 32
  const AES_GCM_IV_BYTES := 12
  const AES_GCM_TAG_BYTES := 16
  const SEAL_BYTES := 48

  datatype MailboxKeyPair = MailboxKeyPair(publicKey: Bytes, privateKey: Bytes)

  datatype Primitives = Primitives(
    /** key, iv, additional data, plaintext */
    aesSeal: (Bytes, Bytes, Bytes, Bytes) -> Bytes,
    /** key, iv, additional data, ciphertext */
    aesOpen: (Bytes, Bytes, Bytes, Bytes) -> Option<Bytes>,
    /** input key material, info, salt */
    hkdf: (Bytes, Bytes, Bytes) -> Bytes,
    sha256: Bytes -> Bytes,
    gzip: Bytes -> Bytes,
    gunzip: Bytes -> Option<Bytes>,
    utf8: string -> Bytes,
    wellFormedUtf8: Bytes -> bool,
    /** seed */
    keyPair: Bytes -> MailboxKeyPair,
    /** message, public key, randomness */
    boxSeal: (Bytes, Bytes, Bytes) -> Bytes,
    /** ciphertext, public key, private key */
    boxOpen: (Bytes, Bytes, Bytes) -> Option<Bytes>,
    /** payload, round, chain hash, randomness */
    tlockEncrypt: (Bytes, nat, Bytes, Bytes) -> Bytes,
    /** ciphertext, chain hash */
    tlockDecrypt: (Bytes, Bytes) -> Option<Bytes>)
  {
    ghost predicate AeadLaws() {
      && (forall k, iv, aad, m :: |aesSeal(k, iv, aad, m)| == |m| + AES_GCM_TAG_BYTES)
      && (forall k, iv, aad, m :: aesOpen(k, iv, aad, aesSeal(k, iv, aad, m)) == Some(m))
    }

    ghost predicate TextLaws() {
      && (forall m :: gunzip(gzip(m)) == Some(m))
      && (forall s :: wellFormedUtf8(utf8(s)))
    }

    ghost predicate KeyLaws() {
      && (forall ikm, info, salt :: |hkdf(ikm, info, salt)| == AES_KEY_BYTES)
      && (forall m :: |sha256(m)| == 32)
      && (forall seed :: |keyPair(seed).publicKey| == 32 && |keyPair(seed).privateKey| == 32)
    }

    ghost predicate BoxLaws() {
      && (forall m, pk, r :: |boxSeal(m, pk, r)| == |m| + SEAL_BYTES)
      && (forall m, r, seed ::
            boxOpen(boxSeal(m, keyPair(seed).publicKey, r), keyPair(seed).publicKey, keyPair(seed).privateKey) ==
                Some(m))
    }

    ghost predicate TlockLaws() {
      forall m, round, chainHash, r :: tlockDecrypt(tlockEncrypt(m, round, chainHash, r), chainHash) == Some(m)
    }

    ghost predicate Lawful() {
      AeadLaws() && TextLaws() && KeyLaws() && BoxLaws() && TlockLaws()
    }
  }

  /** The laws are satisfiable, so no theorem that assumes them is vacuous. */
  lemma LawsHaveAModel()
    ensures exists p: Primitives :: p.Lawful()
  {
    var zeros := seq(32, _ => 0);
    var tag: Bytes := seq(AES_GCM_TAG_BYTES, _ => 0);
    var header: Bytes := seq(SEAL_BYTES, _ => 0);
    var p := Primitives(
      aesSeal := (k: Bytes, iv: Bytes, aad: Bytes, m: Bytes) => tag + m,
      aesOpen := (k: Bytes, iv: Bytes, aad: Bytes, c: Bytes) => if |c| < AES_GCM_TAG_BYTES then None
          else Some(c[AES_GCM_TAG_BYTES..]),
      hkdf := (ikm: Bytes, info: Bytes, salt: Bytes) => zeros,
      sha256 := (m: Bytes) => zeros,
      gzip := (m: Bytes) => m,
      gunzip := (m: Bytes) => Some(m),
      utf8 := (s: string) => [],
      wellFormedUtf8 := (m: Bytes) => true,
      keyPair := (seed: Bytes) => MailboxKeyPair(zeros, zeros),
      boxSeal := (m: Bytes, pk: Bytes, r: Bytes) => header + m,
      boxOpen := (c: Bytes, pk: Bytes, sk: Bytes) => if |c| < SEAL_BYTES then None else Some(c[SEAL_BYTES..]),
      tlockEncrypt := (m: Bytes, round: nat, chainHash: Bytes, r: Bytes) => m,
      tlockDecrypt := (c: Bytes, chainHash: Bytes) => Some(c));
    forall m: Bytes ensures (tag + m)[AES_GCM_TAG_BYTES..] == m && (header + m)[SEAL_BYTES..] == m {}
    assert p.Lawful();
  }

  /******* Key derivation *******/

  const ZERO_SALT: Bytes := seq(32, _ => 0)
  const TEXT_INFO: Bytes := Ascii("GIBYEOL/TEXT/V1")
  const MEDIA_INFO: Bytes := Ascii("GIBYEOL/MEDIA/V1/")
  const PASSKEY_INFO: Bytes := Ascii("GIBYEOL/PASSKEY-KEK/V1")

  function MediaInfo(index: nat): (info: Bytes)
    requires index <= 0xffff
    ensures |info| == |MEDIA_INFO| + 2
  {
    MEDIA_INFO + [index / 256, index % 256]
  }

  function DeriveTextKey(p: Primitives, letterKey: Bytes): Result<Bytes, WireError> {
    if |letterKey| != 32 then Err(RangeError) else Ok(p.hkdf(letterKey, TEXT_INFO, ZERO_SALT))
  }

  function DeriveMediaKey(p: Primitives, letterKey: Bytes, index: nat): Result<Bytes, WireError> {
    if index > 0xffff || |letterKey| != 32 then Err(RangeError)
    else Ok(p.hkdf(letterKey, MediaInfo(index), ZERO_SALT))
  }

  /** Every subkey of one letter key has its own HKDF info. */
  lemma SubkeyInfosAreDistinct(i: nat, j: nat)
    requires i <= 0xffff && j <= 0xffff
    ensures MediaInfo(i) == MediaInfo(j) ==> i == j
    ensures MediaInfo(i) != TEXT_INFO
  {
    assert MediaInfo(i)[17..] == [i / 256, i % 256];
    assert MediaInfo(j)[17..] == [j / 256, j % 256];
  }

  /******* AES-GCM *******/

  datatype AesGcmCiphertext = AesGcmCiphertext(iv: Bytes, ciphertext: Bytes)

  function EncryptAesGcm(p: Primitives, key: Bytes, plaintext: Bytes, aad: Bytes,
          iv: Bytes): Result<AesGcmCiphertext, WireError>
  {
    if |key| != AES_KEY_BYTES || |iv| != AES_GCM_IV_BYTES then Err(RangeError)
    else Ok(AesGcmCiphertext(iv, p.aesSeal(key, iv, aad, plaintext)))
  }

  function DecryptAesGcm(p: Primitives, key: Bytes, iv: Bytes, ciphertext: Bytes,
          aad: Bytes): Result<Bytes, WireError>
  {
    if |ciphertext| < AES_GCM_TAG_BYTES || |key| != AES_KEY_BYTES || |iv| != AES_GCM_IV_BYTES then Err(RangeError)
    else match p.aesOpen(key, iv, aad, ciphertext)
      case Some(plaintext) => Ok(plaintext)
      case None => Err(CryptoError)
  }

  /******* The recipient wrapping of a letter key: sealed box inside a time lock *******/

  datatype Tlock = Tlock(unlockRound: nat, chainHash: Bytes)

  function OpenSealBox(p: Primitives, ciphertext: Bytes, keyPair: MailboxKeyPair): Result<Bytes, WireError> {
    if |ciphertext| < SEAL_BYTES || |keyPair.publicKey| != 32 || |keyPair.privateKey| != 32 then Err(RangeError)
    else match p.boxOpen(ciphertext, keyPair.publicKey, keyPair.privateKey)
      case Some(message) => Ok(message)
      case None => Err(CryptoError)
  }

  function WrapLetterKey(p: Primitives, t: Tlock, letterKey: Bytes, publicKey: Bytes, boxRandom: Bytes,
          lockRandom: Bytes):
    Result<Bytes, WireError>
  {
    if |letterKey| != 32 || |publicKey| != 32 then Err(RangeError)
    else Ok(p.tlockEncrypt(p.boxSeal(letterKey, publicKey, boxRandom), t.unlockRound, t.chainHash, lockRandom))
  }

  /** `currentRound` is the beacon round at the time of opening. */
  function UnwrapLetterKey(p: Primitives, t: Tlock, currentRound: nat, sealedKey: Bytes, keyPair: MailboxKeyPair):
    Result<Bytes, WireError>
  {
    if currentRound < t.unlockRound then Err(CryptoError)
    else match p.tlockDecrypt(sealedKey, t.chainHash)
      case None => Err(CryptoError)
      case Some(wrapped) => OpenSealBox(p, wrapped, keyPair)
  }

  /**
   `sealedKey` opens to `letterKey`, from the unlock round on and never before, with any key pair
   that has this public key.
   */
  ghost predicate OpensTo(p: Primitives, t: Tlock, sealedKey: Bytes, publicKey: Bytes, letterKey: Bytes) {
    forall seed, round: nat :: p.keyPair(seed).publicKey == publicKey ==>
      UnwrapLetterKey(p, t, round, sealedKey, p.keyPair(seed)) == if round < t.unlockRound then Err(CryptoError)
          else Ok(letterKey)
  }

  lemma WrappedKeyOpens(p: Primitives, t: Tlock, letterKey: Bytes, publicKey: Bytes, boxRandom: Bytes,
          lockRandom: Bytes)
    requires p.Lawful()
    requires |letterKey| == 32 && |publicKey| == 32
    ensures OpensTo(p, t, WrapLetterKey(p, t, letterKey, publicKey, boxRandom, lockRandom).value, publicKey, letterKey)
  {
    var box := p.boxSeal(letterKey, publicKey, boxRandom);
    var sealedKey := p.tlockEncrypt(box, t.unlockRound, t.chainHash, lockRandom);
    forall seed, round: nat | p.keyPair(seed).publicKey == publicKey
      ensures UnwrapLetterKey(p, t, round, sealedKey, p.keyPair(seed)) == if round < t.unlockRound
          then Err(CryptoError) else Ok(letterKey)
    {
      assert p.tlockDecrypt(sealedKey, t.chainHash) == Some(box);
      assert p.boxOpen(box, p.keyPair(seed).publicKey, p.keyPair(seed).privateKey) == Some(letterKey);
    }
  }
}
