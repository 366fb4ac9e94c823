/**
 The passkey envelope of a mailbox seed (packages/protocol/src/mailbox.ts) and the passkey mailbox that
 creates and reopens it (frontend/src/features/data/mailbox/passkey.ts).
 */
module Mailbox {
  import opened Wrappers
  import opened ByteCodec
  import opened Crypto

  const GPK1_MAGIC: Bytes := Ascii("GPK1")
  const PRF_SALT_BYTES := 32
  const WRAPPED_SEED_BYTES := 48

  datatype Envelope = Envelope(credentialId: Bytes, prfSalt: Bytes, iv: Bytes, wrappedSeed: Bytes, aad: Bytes)

  /******* Printer and grammar *******/

  function Prefix(credentialId: Bytes, prfSalt: Bytes): Bytes {
    GPK1_MAGIC + BigEndian(|credentialId|, 2) + credentialId + prfSalt
  }

  /** The additional data is the written prefix. */
  predicate ValidEnvelope(e: Envelope) {
    && 1 <= |e.credentialId| <= 0xffff
    && |e.prfSalt| == PRF_SALT_BYTES
    && |e.iv| == AES_GCM_IV_BYTES
    && |e.wrappedSeed| == WRAPPED_SEED_BYTES
    && e.aad == Prefix(e.credentialId, e.prfSalt)
  }

  function PrintEnvelope(e: Envelope): Bytes {
    Prefix(e.credentialId, e.prfSalt) + e.iv + e.wrappedSeed
  }

  function ParseEnvelope(b: Bytes): Result<Envelope, WireError> {
    if |b| < 4 then Err(RangeError)
    else if b[..4] != GPK1_MAGIC then Err(TypeError)
    else if |b| < 6 then Err(RangeError)
    else
      var salt := 6 + FromBigEndian(b[4..6]);
      if salt == 6 || |b| < salt + 92 then Err(RangeError)
      else if |b| > salt + 92 then Err(TypeError)
      else Ok(Envelope(b[6..salt], b[salt..salt + 32], b[salt + 32..salt + 44], b[salt + 44..], b[..salt + 32]))
  }

  /**
   Parsing yields an envelope exactly when it is valid and prints to the input; its additional data
   is then the written prefix.
   */
  lemma ParseEnvelopeIffPrints(b: Bytes, e: Envelope)
    ensures ParseEnvelope(b) == Ok(e) <==> ValidEnvelope(e) && PrintEnvelope(e) == b
  {
    if ParseEnvelope(b) == Ok(e) {
      ParsedPrints(b, e);
    }
    if ValidEnvelope(e) && PrintEnvelope(e) == b {
      PrintedParses(b, e);
    }
  }

  lemma ParsedPrints(b: Bytes, e: Envelope)
    requires ParseEnvelope(b) == Ok(e)
    ensures ValidEnvelope(e) && PrintEnvelope(e) == b
  {
    Pow256Values();
    hide BigEndian, FromBigEndian;
    FromBigEndianRoundTrip(b[4..6]);
    var salt := 6 + |e.credentialId|;
    assert b[..salt + 32] == b[..4] + b[4..6] + b[6..salt] + b[salt..salt + 32];
    assert b == b[..salt + 32] + b[salt + 32..salt + 44] + b[salt + 44..];
  }

  lemma PrintedParses(b: Bytes, e: Envelope)
    requires ValidEnvelope(e) && PrintEnvelope(e) == b
    ensures ParseEnvelope(b) == Ok(e)
  {
    Pow256Values();
    hide BigEndian, FromBigEndian;
    BigEndianRoundTrip(|e.credentialId|, 2);
    var salt := 6 + |e.credentialId|;
    assert b[..4] == GPK1_MAGIC && b[4..6] == BigEndian(|e.credentialId|, 2);
    assert b[6..salt] == e.credentialId && b[salt..salt + 32] == e.prfSalt && b[..salt + 32] == e.aad;
    assert b[salt + 32..salt + 44] == e.iv && b[salt + 44..] == e.wrappedSeed;
  }

  method ParseGpk1(input: Bytes) returns (r: Result<Envelope, WireError>)
    ensures r == ParseEnvelope(input)
  {
    Pow256Values();
    hide FromBigEndian;
    var reader := new ByteReader(input);
    var _ :- reader.ExpectBytes(GPK1_MAGIC);
    var length :- reader.ReadUint(2);
    if length == 0 {
      return Err(RangeError);
    }
    var credentialId :- reader.ReadBytes(length);
    var prfSalt :- reader.ReadBytes(PRF_SALT_BYTES);
    var aad := input[..6 + length + PRF_SALT_BYTES];
    var iv :- reader.ReadBytes(AES_GCM_IV_BYTES);
    var wrappedSeed :- reader.ReadBytes(WRAPPED_SEED_BYTES);
    var _ :- reader.Finish();
    assert wrappedSeed == input[6 + length + 44..];
    return Ok(Envelope(credentialId, prfSalt, iv, wrappedSeed, aad));
  }

  /******* Wrapping and unwrapping the seed *******/

  function PasskeyKek(p: Primitives, prfOutput: Bytes, prfSalt: Bytes): Result<Bytes, WireError> {
    if |prfOutput| != 32 || |prfSalt| != PRF_SALT_BYTES then Err(RangeError)
        else Ok(p.hkdf(prfOutput, PASSKEY_INFO, prfSalt))
  }

  function WrapSeed(p: Primitives, seed: Bytes, credentialId: Bytes, prfOutput: Bytes, prfSalt: Bytes,
          iv: Bytes): Result<Bytes, WireError>
  {
    if |credentialId| == 0 || |credentialId| > 0xffff then Err(RangeError)
    else
      var kek :- PasskeyKek(p, prfOutput, prfSalt);
      if |seed| != 32 then Err(RangeError)
      else
        var prefix := Prefix(credentialId, prfSalt);
        var sealed :- EncryptAesGcm(p, kek, seed, prefix, iv);
        Ok(prefix + sealed.iv + sealed.ciphertext)
  }

  function UnwrapSeed(p: Primitives, envelope: Bytes, prfOutput: Bytes): Result<Bytes, WireError> {
    var e :- ParseEnvelope(envelope);
    var kek :- PasskeyKek(p, prfOutput, e.prfSalt);
    DecryptAesGcm(p, kek, e.iv, e.wrappedSeed, e.aad)
  }

  lemma UnwrapInvertsWrap(p: Primitives, seed: Bytes, credentialId: Bytes, prfOutput: Bytes, prfSalt: Bytes, iv: Bytes)
    requires p.Lawful()
    requires WrapSeed(p, seed, credentialId, prfOutput, prfSalt, iv).Ok?
    ensures var envelope := WrapSeed(p, seed, credentialId, prfOutput, prfSalt, iv).value;
            && ParseEnvelope(envelope).Ok?
            && ParseEnvelope(envelope).value.prfSalt == prfSalt
            && UnwrapSeed(p, envelope, prfOutput) == Ok(seed)
  {
    var kek := PasskeyKek(p, prfOutput, prfSalt).value;
    var prefix := Prefix(credentialId, prfSalt);
    var wrapped := p.aesSeal(kek, iv, prefix, seed);
    assert p.aesOpen(kek, iv, prefix, wrapped) == Some(seed);
    var e := Envelope(credentialId, prfSalt, iv, wrapped, prefix);
    ParseEnvelopeIffPrints(PrintEnvelope(e), e);
  }

  /**
   The random source handed to the wrapping: its first 32-byte draw is the PRF input already used with
   the authenticator, every other draw is fresh.
   */
  class SaltOnce {
    const prfInput: Bytes
    var saltPending: bool

    constructor (prfInput: Bytes)
      ensures this.prfInput == prfInput && saltPending
    {
      this.prfInput := prfInput;
      saltPending := true;
    }

    method Next(length: nat) returns (bytes: Bytes)
      modifies this
      ensures old(saltPending) && length == 32 ==> bytes == prfInput && !saltPending
      ensures !(old(saltPending) && length == 32) ==> |bytes| == length && saltPending == old(saltPending)
    {
      if saltPending && length == 32 {
        saltPending := false;
        return prfInput;
      }
      assert |seq(length, _ => 0 as byte)| == length;
      bytes :| |bytes| == length;
    }
  }

  /** The salt is the first draw; the IV a later, 12-byte one. */
  method WrapMailboxSeedGpk1(p: Primitives, seed: Bytes, credentialId: Bytes, prfOutput: Bytes, random: SaltOnce)
    returns (r: Result<Bytes, WireError>)
    requires random.saltPending && |random.prfInput| == PRF_SALT_BYTES
    modifies random
    ensures exists iv: Bytes ::
              && |iv| == AES_GCM_IV_BYTES
              && r == WrapSeed(p, seed, credentialId, prfOutput, random.prfInput, iv)
  {
    hide BigEndian, ByteWriter.Valid;
    ghost var noIv: Bytes := seq(AES_GCM_IV_BYTES, _ => 0);
    assert |noIv| == AES_GCM_IV_BYTES;
    ghost var failed := WrapSeed(p, seed, credentialId, prfOutput, random.prfInput, noIv);
    if |credentialId| == 0 || |credentialId| > 0xffff {
      assert failed == Err(RangeError);
      return Err(RangeError);
    }
    var prfSalt := random.Next(PRF_SALT_BYTES);
    var writer := new ByteWriter();
    writer.WriteBytes(GPK1_MAGIC);
    Pow256Values();
    var _ := writer.WriteInteger(|credentialId|, 2);
    writer.WriteBytes(credentialId);
    writer.WriteBytes(prfSalt);
    var prefix := writer.ToBytes();
    assert prefix == Prefix(credentialId, prfSalt);
    var kek := PasskeyKek(p, prfOutput, prfSalt);
    if kek.Err? || |seed| != 32 {
      assert failed == Err(RangeError);
      return Err(RangeError);
    }
    var iv := random.Next(AES_GCM_IV_BYTES);
    ghost var expected := WrapSeed(p, seed, credentialId, prfOutput, prfSalt, iv);
    var sealed := EncryptAesGcm(p, kek.value, seed, prefix, iv);
    if sealed.Err? {
      assert expected == Err(sealed.error);
      return Err(sealed.error);
    }
    r := Ok(prefix + sealed.value.iv + sealed.value.ciphertext);
    assert r == expected;
  }

  /******* The passkey mailbox *******/

  /**
   A deterministic authenticator: its credential id, its PRF (no result when unsupported), and whether
   it already evaluates the PRF while registering.
   */
  datatype Authenticator = Authenticator(rawId: Bytes, prf: Bytes -> Option<Bytes>, prfAtRegistration: bool)

  function PrfOutput(a: Authenticator, input: Bytes): Result<Bytes, WireError> {
    match a.prf(input)
    case Some(output) => if |output| == 32 then Ok(output) else Err(CryptoError)
    case None => Err(CryptoError)
  }

  datatype PasskeyMailbox = PasskeyMailbox(seed: Bytes, envelope: Bytes, keyPair: MailboxKeyPair)

  function OpenPasskeyMailbox(p: Primitives, a: Authenticator, envelope: Bytes): Result<MailboxKeyPair, WireError> {
    var e :- ParseEnvelope(envelope);
    if e.credentialId != a.rawId then Err(CryptoError)
    else
      var output :- PrfOutput(a, e.prfSalt);
      var seed :- UnwrapSeed(p, envelope, output);
      if |seed| != 32 then Err(RangeError) else Ok(p.keyPair(seed))
  }

  /**
   Creates a mailbox whose envelope the same authenticator reopens to the same key pair, because the salt
   stored in the envelope is the PRF input the key was derived from.
   */
  method CreatePasskeyMailbox(p: Primitives, a: Authenticator, walletAddress: string, seed: Bytes, prfInput: Bytes)
    returns (r: Result<PasskeyMailbox, WireError>)
    requires p.Lawful()
    requires |seed| == 32 && |prfInput| == 32
    ensures r.Ok? <==> FixedHex(walletAddress, 20).Ok? && PrfOutput(a, prfInput).Ok? && 1 <= |a.rawId| <= 0xffff
    ensures r.Ok? ==>
        r.value.keyPair == p.keyPair(seed) && OpenPasskeyMailbox(p, a, r.value.envelope) == Ok(r.value.keyPair)
  {
    var _ :- FixedHex(walletAddress, 20);
    var output: Bytes;
    var atRegistration := if a.prfAtRegistration then PrfOutput(a, prfInput) else Err(CryptoError);
    if atRegistration.Ok? {
      output := atRegistration.value;
    } else {
      output :- PrfOutput(a, prfInput);
    }
    var random := new SaltOnce(prfInput);
    var envelope :- WrapMailboxSeedGpk1(p, seed, a.rawId, output, random);
    ghost var iv: Bytes :| |iv| == AES_GCM_IV_BYTES && Ok(envelope) == WrapSeed(p, seed, a.rawId, output, prfInput, iv);
    UnwrapInvertsWrap(p, seed, a.rawId, output, prfInput, iv);
    StoredCredential(p, seed, a.rawId, output, prfInput, iv);
    return Ok(PasskeyMailbox(seed, envelope, p.keyPair(seed)));
  }

  lemma StoredCredential(p: Primitives, seed: Bytes, credentialId: Bytes, prfOutput: Bytes, prfSalt: Bytes, iv: Bytes)
    requires p.Lawful()
    requires WrapSeed(p, seed, credentialId, prfOutput, prfSalt, iv).Ok?
    ensures var envelope := WrapSeed(p, seed, credentialId, prfOutput, prfSalt, iv).value;
            ParseEnvelope(envelope).Ok? && ParseEnvelope(envelope).value.credentialId == credentialId
  {
    var prefix := Prefix(credentialId, prfSalt);
    var kek := PasskeyKek(p, prfOutput, prfSalt).value;
    var e := Envelope(credentialId, prfSalt, iv, p.aesSeal(kek, iv, prefix, seed), prefix);
    ParseEnvelopeIffPrints(PrintEnvelope(e), e);
  }
}
