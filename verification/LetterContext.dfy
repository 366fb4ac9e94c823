/** The letter context and the additional data derived from it (packages/protocol/src/context.ts). */
module LetterContext {
  import opened Wrappers
  import opened ByteCodec

  /** A fixed-length field is given as hex text or as raw bytes. */
  datatype Fixed = Hex(text: string) | Raw(bytes: Bytes)

  datatype Input = Input(chainId: int, contractAddress: Fixed, letterId: Fixed, sender: Fixed, recipient: Fixed)

  const CONTEXT_MAGIC: Bytes := Ascii("GIBYEOL:LETTER:V1")
  const CONTEXT_BYTES := 141

  function FixedBytes(value: Fixed, length: nat): (r: Result<Bytes, WireError>)
    ensures r.Ok? ==> |r.value| == length
  {
    match value
    case Hex(text) => FixedHex(text, length)
    case Raw(bytes) => if |bytes| == length then Ok(bytes) else Err(RangeError)
  }

  function Uint256(value: int): (r: Result<Bytes, WireError>)
    ensures r.Ok? ==> |r.value| == 32
  {
    if 0 <= value < UINT256_LIMIT then Ok(BigEndian(value, 32)) else Err(RangeError)
  }

  function EncodeLetterContext(input: Input): (r: Result<Bytes, WireError>) {
    var chain :- Uint256(input.chainId);
    var contract :- FixedBytes(input.contractAddress, 20);
    var letterId :- FixedBytes(input.letterId, 32);
    var sender :- FixedBytes(input.sender, 20);
    var recipient :- FixedBytes(input.recipient, 20);
    Ok(CONTEXT_MAGIC + chain + contract + letterId + sender + recipient)
  }

  /** The chain of writer calls; the chain id goes through the shift loop. */
  method WriteLetterContext(input: Input) returns (r: Result<Bytes, WireError>)
    ensures r == EncodeLetterContext(input)
  {
    hide BigEndian, ByteWriter.Valid, FixedBytes, Ascii;
    var writer := new ByteWriter();
    writer.WriteBytes(CONTEXT_MAGIC);
    assert writer.contents == CONTEXT_MAGIC;
    var _ :- writer.WriteUint256(input.chainId);
    var contract :- FixedBytes(input.contractAddress, 20);
    writer.WriteBytes(contract);
    var letterId :- FixedBytes(input.letterId, 32);
    writer.WriteBytes(letterId);
    var sender :- FixedBytes(input.sender, 20);
    writer.WriteBytes(sender);
    var recipient :- FixedBytes(input.recipient, 20);
    writer.WriteBytes(recipient);
    var context := writer.ToBytes();
    return Ok(context);
  }

  function TextAad(context: Bytes): Bytes {
    context + Ascii("TEXT")
  }

  function MediaAad(context: Bytes, index: nat): Result<Bytes, WireError> {
    if Fits(index, 2) then Ok(context + Ascii("MEDIA") + BigEndian(index, 2)) else Err(RangeError)
  }

  /** What two inputs must share for the contexts to be the same: the number and the bytes of every field. */
  ghost predicate SameLetter(a: Input, b: Input) {
    && a.chainId == b.chainId
    && FixedBytes(a.contractAddress, 20) == FixedBytes(b.contractAddress, 20)
    && FixedBytes(a.letterId, 32) == FixedBytes(b.letterId, 32)
    && FixedBytes(a.sender, 20) == FixedBytes(b.sender, 20)
    && FixedBytes(a.recipient, 20) == FixedBytes(b.recipient, 20)
  }

  lemma ContextFields(input: Input)
    requires EncodeLetterContext(input).Ok?
    ensures var c := EncodeLetterContext(input).value;
            && |c| == CONTEXT_BYTES
            && c[17..49] == BigEndian(input.chainId, 32)
            && Ok(c[49..69]) == FixedBytes(input.contractAddress, 20)
            && Ok(c[69..101]) == FixedBytes(input.letterId, 32)
            && Ok(c[101..121]) == FixedBytes(input.sender, 20)
            && Ok(c[121..]) == FixedBytes(input.recipient, 20)
  {
    var c := EncodeLetterContext(input).value;
    assert c[17..49] == Uint256(input.chainId).value;
    assert c[49..69] == FixedBytes(input.contractAddress, 20).value;
    assert c[69..101] == FixedBytes(input.letterId, 32).value;
    assert c[101..121] == FixedBytes(input.sender, 20).value;
    assert c[121..] == FixedBytes(input.recipient, 20).value;
  }

  /** A context is 141 bytes long and determines the chain, contract, letter, sender and recipient. */
  lemma ContextInjective(a: Input, b: Input)
    requires EncodeLetterContext(a).Ok? && EncodeLetterContext(b).Ok?
    ensures |EncodeLetterContext(a).value| == CONTEXT_BYTES
    ensures EncodeLetterContext(a) == EncodeLetterContext(b) <==> SameLetter(a, b)
  {
    ContextFields(a);
    ContextFields(b);
    if EncodeLetterContext(a) == EncodeLetterContext(b) {
      Uint256Range(a.chainId);
      Uint256Range(b.chainId);
      BigEndianInjective(a.chainId, b.chainId, 32);
    }
  }

  /** For fields given in hex, the bytes agree exactly when the text agrees up to case and the 0x prefix. */
  lemma HexFieldsAgree(s: string, t: string, length: nat)
    requires FixedBytes(Hex(s), length).Ok? && FixedBytes(Hex(t), length).Ok?
    ensures FixedBytes(Hex(s), length) == FixedBytes(Hex(t), length) <==> Lower(StripPrefix(s)) == Lower(StripPrefix(t))
  {
    HexEqualUpToCase(s, t);
  }

  /** No text AAD is a media AAD, and a media AAD determines its context and index. */
  lemma AadsAreDisjoint(c: Bytes, d: Bytes, i: nat, j: nat)
    requires |c| == |d| == CONTEXT_BYTES
    requires i <= 0xffff && j <= 0xffff
    ensures MediaAad(c, i).Ok? && MediaAad(d, j).Ok?
    ensures MediaAad(c, i).value != TextAad(d)
    ensures MediaAad(c, i) == MediaAad(d, j) <==> c == d && i == j
  {
    Pow256Values();
    if MediaAad(c, i) == MediaAad(d, j) {
      var m, n := MediaAad(c, i).value, MediaAad(d, j).value;
      assert m[..141] == c && n[..141] == d;
      assert m[146..] == BigEndian(i, 2) && n[146..] == BigEndian(j, 2);
      BigEndianInjective(i, j, 2);
    }
  }
}
