/** Byte strings, big-endian integers, hex, and the mutable reader and writer of the protocol package. */
module ByteCodec {
  import opened Wrappers

  type byte = b: int | 0 <= b < 256
  type Bytes = seq<byte>

  /** The exception classes the protocol package throws, and failed authentication. */
  datatype WireError = RangeError | TypeError | CryptoError

  function Ascii(text: string): (bytes: Bytes)
    requires forall i :: 0 <= i < |text| ==> text[i] < 128 as char
    ensures |bytes| == |text|
  {
    seq(|text|, i requires 0 <= i < |text| => text[i] as int)
  }

  /******* Big-endian integers *******/

  function Pow256(k: nat): (p: nat)
    ensures p > 0
  {
    if k == 0 then 1 else 256 * Pow256(k - 1)
  }

  /** The range of an unsigned integer of `byteLength` bytes. */
  predicate Fits(n: int, byteLength: nat) {
    0 <= n < Pow256(byteLength)
  }

  const UINT256_LIMIT: nat := 0x1_0000_0000_0000_0000_0000_0000_0000_0000_0000_0000_0000_0000_0000_0000_0000_0000

  lemma Uint256Range(n: int)
    ensures 0 <= n < UINT256_LIMIT <==> Fits(n, 32)
  {
    assert Pow256(4) == 0x1_0000_0000;
    assert Pow256(8) == 0x1_0000_0000_0000_0000;
    assert Pow256(16) == 0x1_0000_0000_0000_0000_0000_0000_0000_0000;
    assert Pow256(24) == 0x1_0000_0000_0000_0000_0000_0000_0000_0000_0000_0000_0000_0000;
    assert Pow256(32) == UINT256_LIMIT;
  }

  /** The low `k` bytes of `n`, most significant first. */
  function BigEndian(n: nat, k: nat): (s: Bytes)
    ensures |s| == k
  {
    if k == 0 then [] else BigEndian(n / 256, k - 1) + [n % 256]
  }

  function FromBigEndian(s: Bytes): (n: nat)
    ensures n < Pow256(|s|)
  {
    if s == [] then 0 else 256 * FromBigEndian(s[..|s| - 1]) + s[|s| - 1]
  }

  lemma {:induction false} BigEndianRoundTrip(n: nat, k: nat)
    requires n < Pow256(k)
    ensures FromBigEndian(BigEndian(n, k)) == n
  {
    if k > 0 {
      BigEndianRoundTrip(n / 256, k - 1);
      assert BigEndian(n, k)[..k - 1] == BigEndian(n / 256, k - 1);
    }
  }

  lemma {:induction false} FromBigEndianRoundTrip(s: Bytes)
    ensures BigEndian(FromBigEndian(s), |s|) == s
  {
    if s != [] {
      FromBigEndianRoundTrip(s[..|s| - 1]);
    }
  }

  lemma BigEndianInjective(m: nat, n: nat, k: nat)
    requires m < Pow256(k) && n < Pow256(k)
    requires BigEndian(m, k) == BigEndian(n, k)
    ensures m == n
  {
    BigEndianRoundTrip(m, k);
    BigEndianRoundTrip(n, k);
  }

  /** Dropping leading bytes keeps the low-order ones. */
  lemma {:induction false} BigEndianSuffix(n: nat, k: nat, drop: nat)
    ensures BigEndian(n, drop + k)[drop..] == BigEndian(n, k)
  {
    if k > 0 {
      BigEndianSuffix(n / 256, k - 1, drop);
    }
  }

  lemma Pow256Values()
    ensures Pow256(1) == 0x100 && Pow256(2) == 0x1_0000 && Pow256(4) == 0x1_0000_0000
  {
    assert Pow256(0) == 1 && Pow256(3) == 0x100_0000;
  }

  /******* Hex *******/

  function HexDigit(n: nat): (c: char)
    requires n < 16
  {
    if n < 10 then ('0' as int + n) as char else ('a' as int + n - 10) as char
  }

  function HexValue(c: char): Option<nat> {
    if '0' <= c <= '9' then Some(c as int - '0' as int)
    else if 'a' <= c <= 'f' then Some(c as int - 'a' as int + 10)
    else if 'A' <= c <= 'F' then Some(c as int - 'A' as int + 10)
    else None
  }

  function LowerChar(c: char): char {
    if 'A' <= c <= 'Z' then (c as int + 32) as char else c
  }

  function Lower(s: string): (t: string)
    ensures |t| == |s|
  {
    seq(|s|, i requires 0 <= i < |s| => LowerChar(s[i]))
  }

  predicate HexDigits(s: string) {
    forall i :: 0 <= i < |s| ==> HexValue(s[i]).Some?
  }

  function StripPrefix(s: string): string {
    if |s| >= 2 && s[0] == '0' && s[1] == 'x' then s[2..] else s
  }

  function BytesToHex(b: Bytes): (s: string)
    ensures |s| == 2 * |b|
  {
    if b == [] then "" else [HexDigit(b[0] / 16), HexDigit(b[0] % 16)] + BytesToHex(b[1..])
  }

  function HexPairs(s: string): (b: Bytes)
    requires |s| % 2 == 0 && HexDigits(s)
    ensures 2 * |b| == |s|
  {
    if s == "" then []
    else [16 * HexValue(s[0]).value + HexValue(s[1]).value] + HexPairs(s[2..])
  }

  function HexToBytes(s: string): (r: Result<Bytes, WireError>) {
    var t := StripPrefix(s);
    if |t| % 2 != 0 || !HexDigits(t) then Err(TypeError) else Ok(HexPairs(t))
  }

  function FixedHex(s: string, length: nat): (r: Result<Bytes, WireError>)
    ensures r.Ok? ==> |r.value| == length
  {
    var bytes :- HexToBytes(s);
    if |bytes| == length then Ok(bytes) else Err(RangeError)
  }

  lemma HexDigitValue(n: nat)
    requires n < 16
    ensures HexValue(HexDigit(n)) == Some(n)
    ensures HexDigit(n) != 'x'
  {
  }

  lemma {:induction false} HexRoundTrip(b: Bytes)
    ensures HexDigits(BytesToHex(b))
    ensures HexPairs(BytesToHex(b)) == b
  {
    if b != [] {
      HexRoundTrip(b[1..]);
      HexDigitValue(b[0] / 16);
      HexDigitValue(b[0] % 16);
      assert BytesToHex(b)[2..] == BytesToHex(b[1..]);
    }
  }

  /** A byte string survives its own hex form, with or without the 0x prefix. */
  lemma HexDecodesOwnEncoding(b: Bytes)
    ensures HexToBytes(BytesToHex(b)) == Ok(b)
    ensures HexToBytes("0x" + BytesToHex(b)) == Ok(b)
  {
    HexRoundTrip(b);
    var s := BytesToHex(b);
    if b != [] {
      HexDigitValue(b[0] % 16);
      assert s[1] != 'x';
    }
    hide BytesToHex, HexPairs, HexDigits, HexValue;
    assert StripPrefix(s) == s;
    assert ("0x" + s)[2..] == s;
  }

  lemma LowerHexDigit(c: char)
    requires HexValue(c).Some?
    ensures HexDigit(HexValue(c).value) == LowerChar(c)
    ensures HexValue(LowerChar(c)) == HexValue(c)
  {
  }

  lemma {:induction false} HexPairsLower(s: string)
    requires |s| % 2 == 0 && HexDigits(s)
    ensures BytesToHex(HexPairs(s)) == Lower(s)
  {
    if s != "" {
      var hi, lo := HexValue(s[0]).value, HexValue(s[1]).value;
      HexPairsLower(s[2..]);
      LowerHexDigit(s[0]);
      LowerHexDigit(s[1]);
      var b := HexPairs(s);
      assert b[0] == 16 * hi + lo && b[1..] == HexPairs(s[2..]);
      assert b[0] / 16 == hi && b[0] % 16 == lo;
      assert Lower(s) == [LowerChar(s[0]), LowerChar(s[1])] + Lower(s[2..]);
    }
  }

  /** Two hex strings denote the same bytes exactly when they agree up to letter case and the 0x prefix. */
  lemma HexEqualUpToCase(s: string, t: string)
    requires HexToBytes(s).Ok? && HexToBytes(t).Ok?
    ensures HexToBytes(s) == HexToBytes(t) <==> Lower(StripPrefix(s)) == Lower(StripPrefix(t))
  {
    HexPairsLower(StripPrefix(s));
    HexPairsLower(StripPrefix(t));
    HexRoundTrip(HexPairs(StripPrefix(s)));
    HexRoundTrip(HexPairs(StripPrefix(t)));
  }

  lemma LowerStripsAlike(s: string)
    requires HexToBytes(s).Ok?
    ensures StripPrefix(Lower(s)) == Lower(StripPrefix(s))
  {
    if |s| >= 2 {
      assert Lower(s)[2..] == Lower(s[2..]);
      if HexValue(s[1]).Some? {
        LowerHexDigit(s[1]);
      }
    }
  }

  /** Lower-casing an address, as the sender does before packing, leaves its bytes unchanged. */
  lemma LowerKeepsBytes(s: string)
    requires HexToBytes(s).Ok?
    ensures HexToBytes(Lower(s)) == HexToBytes(s)
  {
    var t, core := Lower(s), StripPrefix(s);
    LowerStripsAlike(s);
    forall i | 0 <= i < |core| ensures HexValue(Lower(core)[i]).Some? {
      LowerHexDigit(core[i]);
    }
    HexPairsLower(core);
    HexPairsLower(Lower(core));
    assert Lower(Lower(core)) == Lower(core) by {
      forall i | 0 <= i < |core| ensures LowerChar(LowerChar(core[i])) == LowerChar(core[i]) {
        LowerHexDigit(core[i]);
      }
    }
    HexRoundTrip(HexPairs(core));
    HexRoundTrip(HexPairs(Lower(core)));
  }

  /******* concatBytes, ByteWriter, ByteReader *******/

  function Flatten(chunks: seq<Bytes>): (b: Bytes) {
    if chunks == [] then [] else Flatten(chunks[..|chunks| - 1]) + chunks[|chunks| - 1]
  }

  function TotalLength(chunks: seq<Bytes>): (n: nat)
    ensures n == |Flatten(chunks)|
  {
    if chunks == [] then 0 else TotalLength(chunks[..|chunks| - 1]) + |chunks[|chunks| - 1]|
  }

  /** Copies the chunks, one after the other, into a buffer of their total length. */
  method ConcatBytes(chunks: seq<Bytes>) returns (output: array<byte>)
    ensures fresh(output)
    ensures output[..] == Flatten(chunks)
  {
    output := new byte[TotalLength(chunks)](_ => 0);
    var offset := 0;
    for i := 0 to |chunks|
      invariant offset == TotalLength(chunks[..i])
      invariant offset <= output.Length
      invariant output[..offset] == Flatten(chunks[..i])
    {
      assert chunks[..i + 1][..i] == chunks[..i];
      FlattenPrefix(chunks, i + 1);
      ghost var before := output[..offset];
      forall k | 0 <= k < |chunks[i]| {
        output[offset + k] := chunks[i][k];
      }
      assert output[..offset] == before;
      offset := offset + |chunks[i]|;
      assert output[..offset] == before + chunks[i];
    }
    assert chunks[..|chunks|] == chunks;
  }

  lemma {:induction false} FlattenPrefix(chunks: seq<Bytes>, n: nat)
    requires n <= |chunks|
    ensures |Flatten(chunks[..n])| <= |Flatten(chunks)|
    decreases |chunks|
  {
    if n == |chunks| {
      assert chunks[..n] == chunks;
    } else {
      FlattenPrefix(chunks[..|chunks| - 1], n);
      assert chunks[..|chunks| - 1][..n] == chunks[..n];
    }
  }

  class ByteWriter {
    var chunks: seq<Bytes>

    ghost var contents: Bytes

    ghost predicate Valid()
      reads this
    {
      contents == Flatten(chunks)
    }

    constructor ()
      ensures Valid() && contents == []
    {
      chunks := [];
      contents := [];
    }

    method WriteBytes(value: Bytes)
      requires Valid()
      modifies this
      ensures Valid()
      ensures contents == old(contents) + value
    {
      chunks := chunks + [value];
      contents := contents + value;
      assert chunks[..|chunks| - 1] == old(chunks);
    }

    /** Writes a 32-bit big-endian word and keeps its last `byteLength` bytes. */
    method WriteInteger(value: int, byteLength: nat) returns (r: Result<(), WireError>)
      requires byteLength in {1, 2, 4}
      requires Valid()
      modifies this
      ensures Valid()
      ensures r == if Fits(value, byteLength) then Ok(()) else Err(RangeError)
      ensures contents == old(contents) + if r.Ok? then BigEndian(value, byteLength) else []
    {
      var maximum := Pow256(byteLength) - 1;
      if value < 0 || value > maximum {
        return Err(RangeError);
      }
      var word := BigEndian(value, 4);
      BigEndianSuffix(value, byteLength, 4 - byteLength);
      WriteBytes(word[4 - byteLength..]);
      return Ok(());
    }

    /** Fills 32 bytes from the last to the first by repeated shifting. */
    method WriteUint256(value: int) returns (r: Result<(), WireError>)
      requires Valid()
      modifies this
      ensures Valid()
      ensures r == if 0 <= value < UINT256_LIMIT then Ok(()) else Err(RangeError)
      ensures contents == old(contents) + if r.Ok? then BigEndian(value, 32) else []
    {
      hide Pow256;
      if value < 0 || value >= UINT256_LIMIT {
        return Err(RangeError);
      }
      var output := new byte[32](_ => 0);
      var remaining: nat := value;
      var index := 32;
      while index > 0
        invariant 0 <= index <= 32
        invariant BigEndian(value, 32) == BigEndian(remaining, index) + output[index..]
        invariant Valid() && contents == old(contents)
      {
        index := index - 1;
        ghost var tail := output[index + 1..];
        output[index] := remaining % 256;
        assert output[index..] == [remaining % 256] + tail;
        remaining := remaining / 256;
      }
      assert BigEndian(value, 32) == output[..];
      WriteBytes(output[..]);
      return Ok(());
    }

    method ToBytes() returns (bytes: Bytes)
      requires Valid()
      ensures bytes == contents
    {
      var output := ConcatBytes(chunks);
      bytes := output[..];
    }
  }

  class ByteReader {
    const input: Bytes
    var offset: nat

    ghost predicate Valid()
      reads this
    {
      offset <= |input|
    }

    constructor (input: Bytes)
      ensures Valid() && this.input == input && offset == 0
    {
      this.input := input;
      offset := 0;
    }

    function Remaining(): nat
      reads this
      requires Valid()
    {
      |input| - offset
    }

    method ReadBytes(length: nat) returns (r: Result<Bytes, WireError>)
      requires Valid()
      modifies this`offset
      ensures Valid()
      ensures old(offset) + length <= |input| ==> offset == old(offset) + length && r == Ok(input[old(offset)..offset])
      ensures old(offset) + length > |input| ==> r == Err(RangeError) && offset == old(offset)
    {
      if length > Remaining() {
        return Err(RangeError);
      }
      r := Ok(input[offset..offset + length]);
      offset := offset + length;
    }

    method ReadUint(byteLength: nat) returns (r: Result<nat, WireError>)
      requires Valid()
      modifies this`offset
      ensures Valid()
      ensures old(offset) + byteLength <= |input| ==>
                offset == old(offset) + byteLength && r == Ok(FromBigEndian(input[old(offset)..offset]))
      ensures old(offset) + byteLength > |input| ==> r == Err(RangeError) && offset == old(offset)
    {
      var bytes :- ReadBytes(byteLength);
      return Ok(FromBigEndian(bytes));
    }

    method ReadUint8() returns (r: Result<byte, WireError>)
      requires Valid()
      modifies this`offset
      ensures Valid()
      ensures old(offset) < |input| ==> r == Ok(input[old(offset)]) && offset == old(offset) + 1
      ensures old(offset) == |input| ==> r == Err(RangeError) && offset == old(offset)
    {
      var bytes :- ReadBytes(1);
      return Ok(bytes[0]);
    }

    method ExpectBytes(expected: Bytes) returns (r: Result<(), WireError>)
      requires Valid()
      modifies this`offset
      ensures Valid()
      ensures r == if |input| < old(offset) + |expected| then Err(RangeError)
                   else if input[old(offset)..old(offset) + |expected|] == expected then Ok(())
                   else Err(TypeError)
      ensures r.Ok? ==> offset == old(offset) + |expected|
    {
      var actual :- ReadBytes(|expected|);
      if actual != expected {
        return Err(TypeError);
      }
      return Ok(());
    }

    method Finish() returns (r: Result<(), WireError>)
      requires Valid()
      ensures r == if offset == |input| then Ok(()) else Err(TypeError)
    {
      return if Remaining() != 0 then Err(TypeError) else Ok(());
    }
  }
}
