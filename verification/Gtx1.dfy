/** The encrypted text envelope (packages/protocol/src/gtx1.ts). */
module Gtx1 {
  import opened Wrappers
  import opened ByteCodec
  import opened Crypto
  import opened LetterContext

  const GTX1_MAGIC: Bytes := Ascii("GTX1")
  const MAX_ENCRYPTED_TEXT_BYTES := 65_536

  datatype ParsedText = ParsedText(compressed: bool, originalLength: nat, iv: Bytes, ciphertext: Bytes)

  /******* Printer and grammar *******/

  predicate ValidText(t: ParsedText) {
    && Fits(t.originalLength, 4)
    && |t.iv| == AES_GCM_IV_BYTES
    && AES_GCM_TAG_BYTES <= |t.ciphertext| <= MAX_ENCRYPTED_TEXT_BYTES - 21
  }

  function PrintText(t: ParsedText): Bytes {
    GTX1_MAGIC + [if t.compressed then 1 else 0] + BigEndian(t.originalLength, 4) + t.iv + t.ciphertext
  }

  function ParseText(b: Bytes): Result<ParsedText, WireError> {
    if |b| > MAX_ENCRYPTED_TEXT_BYTES then Err(RangeError)
    else if |b| < 4 then Err(RangeError)
    else if b[..4] != GTX1_MAGIC then Err(TypeError)
    else if |b| < 5 then Err(RangeError)
    else if b[4] > 1 then Err(TypeError)
    else if |b| < 21 + AES_GCM_TAG_BYTES then Err(RangeError)
    else Ok(ParsedText(b[4] == 1, FromBigEndian(b[5..9]), b[9..21], b[21..]))
  }

  /** Parsing yields an envelope exactly when the envelope is valid and prints to the input. */
  lemma ParseTextIffPrints(b: Bytes, t: ParsedText)
    ensures ParseText(b) == Ok(t) <==> ValidText(t) && PrintText(t) == b
  {
    if ParseText(b) == Ok(t) {
      FromBigEndianRoundTrip(b[5..9]);
      assert b == b[..4] + [b[4]] + b[5..9] + b[9..21] + b[21..];
    }
    if ValidText(t) && PrintText(t) == b {
      BigEndianRoundTrip(t.originalLength, 4);
      assert b[..4] == GTX1_MAGIC && b[5..9] == BigEndian(t.originalLength, 4);
      assert b[9..21] == t.iv && b[21..] == t.ciphertext;
    }
  }

  /******* encryptTextGtx1 and decryptTextGtx1 *******/

  function SealText(p: Primitives, text: string, letterKey: Bytes, context: Bytes,
          iv: Bytes): Result<ParsedText, WireError>
  {
    var original := p.utf8(text);
    var zipped := p.gzip(original);
    var useCompressed := |zipped| < |original|;
    var key :- DeriveTextKey(p, letterKey);
    var sealed :- EncryptAesGcm(p, key, if useCompressed then zipped else original, TextAad(context), iv);
    Ok(ParsedText(useCompressed, |original|, sealed.iv, sealed.ciphertext))
  }

  function EncryptText(p: Primitives, text: string, letterKey: Bytes, context: Bytes,
          iv: Bytes): (r: Result<Bytes, WireError>)
  {
    var t :- SealText(p, text, letterKey, context, iv);
    if !Fits(t.originalLength, 4) || |PrintText(t)| > MAX_ENCRYPTED_TEXT_BYTES then Err(RangeError)
    else Ok(PrintText(t))
  }

  /** The decrypted UTF-8 bytes, which the fatal text decoder must also accept. */
  function DecryptText(p: Primitives, b: Bytes, letterKey: Bytes, context: Bytes): Result<Bytes, WireError> {
    var t :- ParseText(b);
    var key :- DeriveTextKey(p, letterKey);
    var plaintext :- DecryptAesGcm(p, key, t.iv, t.ciphertext, TextAad(context));
    var original := if t.compressed then p.gunzip(plaintext) else Some(plaintext);
    if original.None? || |original.value| != t.originalLength || !p.wellFormedUtf8(original.value) then Err(TypeError)
    else Ok(original.value)
  }

  method EncryptTextGtx1(p: Primitives, text: string, letterKey: Bytes, context: Bytes, iv: Bytes)
    returns (r: Result<Bytes, WireError>)
    ensures r == EncryptText(p, text, letterKey, context, iv)
  {
    assert BigEndian(0, 1) == [0] && BigEndian(1, 1) == [1] && Pow256(1) == 256;
    hide BigEndian, Pow256, ByteWriter.Valid, SealText;
    var t :- SealText(p, text, letterKey, context, iv);
    var writer := new ByteWriter();
    writer.WriteBytes(GTX1_MAGIC);
    var _ := writer.WriteInteger(if t.compressed then 1 else 0, 1);
    assert writer.contents == GTX1_MAGIC + [if t.compressed then 1 else 0];
    var _ :- writer.WriteInteger(t.originalLength, 4);
    writer.WriteBytes(t.iv);
    writer.WriteBytes(t.ciphertext);
    var output := writer.ToBytes();
    assert output == PrintText(t);
    if |output| > MAX_ENCRYPTED_TEXT_BYTES {
      return Err(RangeError);
    }
    return Ok(output);
  }

  method ParseGtx1(input: Bytes) returns (r: Result<ParsedText, WireError>)
    ensures r == ParseText(input)
  {
    hide FromBigEndian;
    if |input| > MAX_ENCRYPTED_TEXT_BYTES {
      return Err(RangeError);
    }
    var reader := new ByteReader(input);
    var _ :- reader.ExpectBytes(GTX1_MAGIC);
    var flags :- reader.ReadUint8();
    if flags != 0 && flags != 1 {
      return Err(TypeError);
    }
    var originalLength :- reader.ReadUint(4);
    var iv :- reader.ReadBytes(AES_GCM_IV_BYTES);
    if reader.Remaining() < AES_GCM_TAG_BYTES {
      return Err(RangeError);
    }
    var rest := reader.ReadBytes(reader.Remaining());
    var _ := reader.Finish();
    assert rest.value == input[21..];
    return Ok(ParsedText(flags == 1, originalLength, iv, rest.value));
  }

  /** Whatever text was encrypted under a key and context, its UTF-8 bytes are what decrypting under them returns. */
  lemma DecryptInvertsEncryptText(p: Primitives, text: string, letterKey: Bytes, context: Bytes, iv: Bytes)
    requires p.Lawful()
    requires EncryptText(p, text, letterKey, context, iv).Ok?
    ensures var b := EncryptText(p, text, letterKey, context, iv).value;
            |b| <= MAX_ENCRYPTED_TEXT_BYTES && DecryptText(p, b, letterKey, context) == Ok(p.utf8(text))
  {
    var t := SealText(p, text, letterKey, context, iv).value;
    var original := p.utf8(text);
    var plaintext := if t.compressed then p.gzip(original) else original;
    var key := DeriveTextKey(p, letterKey).value;
    assert p.aesOpen(key, iv, TextAad(context), p.aesSeal(key, iv, TextAad(context), plaintext)) == Some(plaintext);
    assert |t.ciphertext| == |plaintext| + AES_GCM_TAG_BYTES;
    ParseTextIffPrints(PrintText(t), t);
    assert p.gunzip(p.gzip(original)) == Some(original);
  }
}
