/**
 The GBYL media archive (packages/protocol/src/gbyl.ts): its printer, its grammar, and the writer and
 reader loops proved against them.
 */
module Gbyl {
  import opened Wrappers
  import opened ByteCodec
  import opened Crypto
  import opened LetterContext

  const MAX_ARCHIVE_BYTES := 10 * 1024 * 1024
  const GBYL_MAGIC: Bytes := Ascii("GBYL")
  const IMAGE: byte := 1
  const TIMELAPSE: byte := 2

  datatype MediaItem = MediaItem(mediaType: byte, codec: byte, bytes: Bytes)
  datatype EncryptedItem = EncryptedItem(mediaType: byte, codec: byte, iv: Bytes, ciphertext: Bytes)

  predicate MediaMapping(mediaType: byte, codec: byte) {
    (mediaType == IMAGE && codec in {1, 2}) || (mediaType == TIMELAPSE && codec in {16, 17})
  }

  /******* Printer *******/

  predicate ValidItem(item: EncryptedItem) {
    && MediaMapping(item.mediaType, item.codec)
    && |item.iv| == AES_GCM_IV_BYTES
    && AES_GCM_TAG_BYTES <= |item.ciphertext| < 0x1_0000_0000
  }

  predicate ValidItems(items: seq<EncryptedItem>) {
    |items| <= 0xffff && forall i :: 0 <= i < |items| ==> ValidItem(items[i])
  }

  function EncodeItem(item: EncryptedItem): Bytes {
    [item.mediaType, item.codec, 0, 0] + item.iv + BigEndian(|item.ciphertext|, 4) + item.ciphertext
  }

  function EncodeItems(items: seq<EncryptedItem>): Bytes {
    if items == [] then [] else EncodeItem(items[0]) + EncodeItems(items[1..])
  }

  function Header(itemCount: nat): (header: Bytes)
    ensures |header| == 8
  {
    GBYL_MAGIC + [1, 0] + BigEndian(itemCount, 2)
  }

  function Archive(items: seq<EncryptedItem>): Bytes {
    Header(|items|) + EncodeItems(items)
  }

  /******* Grammar *******/

  /** Reads one item at offset `o`; also returns the offset behind it. */
  function ParseItem(b: Bytes, o: nat): (r: Result<(EncryptedItem, nat), WireError>)
    requires o <= |b|
    ensures r.Ok? ==> o + 20 <= r.value.1 <= |b|
  {
    if |b| < o + 2 then Err(RangeError)
    else if !MediaMapping(b[o], b[o + 1]) then Err(TypeError)
    else if |b| < o + 4 then Err(RangeError)
    else if FromBigEndian(b[o + 2..o + 4]) != 0 then Err(TypeError)
    else if |b| < o + 20 then Err(RangeError)
    else
      var end := o + 20 + FromBigEndian(b[o + 16..o + 20]);
      if end < o + 20 + AES_GCM_TAG_BYTES || |b| < end then Err(RangeError)
      else Ok((EncryptedItem(b[o], b[o + 1], b[o + 4..o + 16], b[o + 20..end]), end))
  }

  /** Reads exactly `count` items from offset `o` to the end. */
  function ParseItems(b: Bytes, o: nat, count: nat): Result<seq<EncryptedItem>, WireError>
    requires o <= |b|
    decreases count
  {
    if count == 0 then
      if o == |b| then Ok([]) else Err(TypeError)
    else
      var (first, next) :- ParseItem(b, o);
      var more :- ParseItems(b, next, count - 1);
      Ok([first] + more)
  }

  /** What remains to be parsed, behind items already read. */
  function Prepend(items: seq<EncryptedItem>,
          rest: Result<seq<EncryptedItem>, WireError>): (r: Result<seq<EncryptedItem>, WireError>)
    ensures items == [] ==> r == rest
    ensures r.Ok? <==> rest.Ok?
  {
    if rest.Err? then rest
    else
      assert items == [] ==> items + rest.value == rest.value;
      Ok(items + rest.value)
  }

  /** The grammar without the size limit. */
  function ParseBody(b: Bytes): Result<seq<EncryptedItem>, WireError> {
    if |b| < 4 then Err(RangeError)
    else if b[..4] != GBYL_MAGIC then Err(TypeError)
    else if |b| < 5 then Err(RangeError)
    else if b[4] != 1 then Err(TypeError)
    else if |b| < 6 then Err(RangeError)
    else if b[5] != 0 then Err(TypeError)
    else if |b| < 8 then Err(RangeError)
    else ParseItems(b, 8, FromBigEndian(b[6..8]))
  }

  function ParseArchive(b: Bytes): Result<seq<EncryptedItem>, WireError> {
    if |b| > MAX_ARCHIVE_BYTES then Err(RangeError) else ParseBody(b)
  }

  /******* Printer and grammar are inverse *******/

  lemma ZeroFlags(flags: Bytes)
    requires |flags| == 2
    ensures FromBigEndian(flags) == 0 <==> flags == [0, 0]
  {
    assert flags[..1] == [flags[0]];
    assert FromBigEndian([flags[0]]) == flags[0] by {
      assert [flags[0]][..0] == [];
    }
  }

  lemma ParseItemPrinted(b: Bytes, o: nat, item: EncryptedItem)
    requires ValidItem(item)
    requires o + |EncodeItem(item)| <= |b| && b[o..o + |EncodeItem(item)|] == EncodeItem(item)
    ensures ParseItem(b, o) == Ok((item, o + |EncodeItem(item)|))
  {
    var e := EncodeItem(item);
    var end := o + |e|;
    Pow256Values();
    BigEndianRoundTrip(|item.ciphertext|, 4);
    ZeroFlags(e[2..4]);
    assert forall i :: 0 <= i < |e| ==> e[i] == b[o..end][i] == b[o + i];
    assert b[o + 2..o + 4] == e[2..4] == [0, 0];
    assert b[o + 4..o + 16] == e[4..16] == item.iv;
    assert b[o + 16..o + 20] == e[16..20] == BigEndian(|item.ciphertext|, 4);
    assert b[o + 20..end] == e[20..] == item.ciphertext;
  }

  lemma ParseItemPrints(b: Bytes, o: nat)
    requires o <= |b| && ParseItem(b, o).Ok?
    ensures var (item, next) := ParseItem(b, o).value;
            ValidItem(item) && b[o..next] == EncodeItem(item)
  {
    var (item, end) := ParseItem(b, o).value;
    Pow256Values();
    ZeroFlags(b[o + 2..o + 4]);
    FromBigEndianRoundTrip(b[o + 16..o + 20]);
    assert b[o..o + 4] == [item.mediaType, item.codec] + b[o + 2..o + 4] == [item.mediaType, item.codec, 0, 0];
    FourParts(b, o, o + 4, o + 16, o + 20, end);
  }

  lemma FourParts(b: Bytes, i: nat, j: nat, k: nat, l: nat, m: nat)
    requires i <= j <= k <= l <= m <= |b|
    ensures b[i..m] == b[i..j] + b[j..k] + b[k..l] + b[l..m]
  {
    assert b[i..k] == b[i..j] + b[j..k];
    assert b[i..l] == b[i..k] + b[k..l];
    assert b[i..m] == b[i..l] + b[l..m];
  }

  lemma {:induction false} ParseItemsPrinted(b: Bytes, o: nat, items: seq<EncryptedItem>)
    requires forall i :: 0 <= i < |items| ==> ValidItem(items[i])
    requires o <= |b| && b[o..] == EncodeItems(items)
    ensures ParseItems(b, o, |items|) == Ok(items)
    decreases |items|
  {
    hide BigEndian, FromBigEndian, EncodeItem, ParseItem, ValidItem;
    if items != [] {
      var next := o + |EncodeItem(items[0])|;
      assert b[o..next] == b[o..][..next - o] == EncodeItem(items[0]);
      ParseItemPrinted(b, o, items[0]);
      assert b[next..] == b[o..][next - o..] == EncodeItems(items[1..]);
      ParseItemsPrinted(b, next, items[1..]);
      assert [items[0]] + items[1..] == items;
    }
  }

  lemma {:induction false} ParseItemsPrints(b: Bytes, o: nat, count: nat)
    requires o <= |b| && ParseItems(b, o, count).Ok?
    ensures var items := ParseItems(b, o, count).value;
            |items| == count && b[o..] == EncodeItems(items) && forall i :: 0 <= i < |items| ==> ValidItem(items[i])
    decreases count
  {
    if count > 0 {
      ParseItemPrints(b, o);
      var (first, next) := ParseItem(b, o).value;
      ParseItemsPrints(b, next, count - 1);
      var more := ParseItems(b, next, count - 1).value;
      assert ([first] + more)[1..] == more;
      assert b[o..] == b[o..next] + b[next..];
    }
  }

  lemma ParseBodyPrints(b: Bytes)
    requires ParseBody(b).Ok?
    ensures ValidItems(ParseBody(b).value) && Archive(ParseBody(b).value) == b
  {
    hide BigEndian, FromBigEndian, ParseItems, EncodeItems;
    Pow256Values();
    ParseItemsPrints(b, 8, FromBigEndian(b[6..8]));
    FromBigEndianRoundTrip(b[6..8]);
    assert b[4..6] == [1, 0];
    FourParts(b, 0, 4, 6, 8, |b|);
    assert b[0..] == b && b[0..4] == b[..4] && b[8..|b|] == b[8..];
  }

  lemma ParseBodyPrinted(items: seq<EncryptedItem>)
    requires ValidItems(items)
    ensures ParseBody(Archive(items)) == Ok(items)
  {
    hide ParseItem, EncodeItem;
    Pow256Values();
    BigEndianRoundTrip(|items|, 2);
    var b := Archive(items);
    assert b[..4] == GBYL_MAGIC && b[6..8] == BigEndian(|items|, 2) && b[8..] == EncodeItems(items);
    ParseItemsPrinted(b, 8, items);
  }

  /** Parsing yields a list of items exactly when the list is valid and prints to the input. */
  lemma ParseIffPrints(b: Bytes, items: seq<EncryptedItem>)
    ensures ParseBody(b) == Ok(items) <==> ValidItems(items) && Archive(items) == b
  {
    hide ParseBody, Archive, ValidItems;
    if ParseBody(b) == Ok(items) {
      ParseBodyPrints(b);
    }
    if ValidItems(items) {
      ParseBodyPrinted(items);
    }
  }

  /** Each archive has one decoding and each valid item list one encoding. */
  lemma ArchiveInjective(a: seq<EncryptedItem>, b: seq<EncryptedItem>)
    requires ValidItems(a) && ValidItems(b) && Archive(a) == Archive(b)
    ensures a == b
  {
    ParseIffPrints(Archive(a), a);
    ParseIffPrints(Archive(a), b);
  }

  /******* packGbyl and decryptGbyl *******/

  /** `ivs(n)` is the n-th draw of the random source. */
  function SealItem(p: Primitives, item: MediaItem, index: nat, letterKey: Bytes, context: Bytes, ivs: nat -> Bytes):
    Result<EncryptedItem, WireError>
  {
    if !MediaMapping(item.mediaType, item.codec) then Err(TypeError)
    else
      var key :- DeriveMediaKey(p, letterKey, index);
      var aad :- MediaAad(context, index);
      var sealed :- EncryptAesGcm(p, key, item.bytes, aad, ivs(index));
      Ok(EncryptedItem(item.mediaType, item.codec, sealed.iv, sealed.ciphertext))
  }

  function EncryptItem(p: Primitives, item: MediaItem, index: nat, letterKey: Bytes, context: Bytes, ivs: nat -> Bytes):
    Result<EncryptedItem, WireError>
  {
    var e :- SealItem(p, item, index, letterKey, context, ivs);
    if !Fits(|e.ciphertext|, 4) then Err(RangeError) else Ok(e)
  }

  function EncryptFirst(p: Primitives, items: seq<MediaItem>, n: nat, letterKey: Bytes, context: Bytes,
          ivs: nat -> Bytes):
    (r: Result<seq<EncryptedItem>, WireError>)
    requires n <= |items|
    ensures r.Ok? ==> |r.value| == n
  {
    if n == 0 then Ok([])
    else
      var done :- EncryptFirst(p, items, n - 1, letterKey, context, ivs);
      var last :- EncryptItem(p, items[n - 1], n - 1, letterKey, context, ivs);
      Ok(done + [last])
  }

  function Pack(p: Primitives, items: seq<MediaItem>, letterKey: Bytes, context: Bytes,
          ivs: nat -> Bytes): Result<Bytes, WireError>
  {
    if |items| > 0xffff then Err(RangeError)
    else
      var encrypted :- EncryptFirst(p, items, |items|, letterKey, context, ivs);
      var archive := Archive(encrypted);
      if |archive| > MAX_ARCHIVE_BYTES then Err(RangeError) else Ok(archive)
  }

  function DecryptItem(p: Primitives, item: EncryptedItem, index: nat, letterKey: Bytes,
          context: Bytes): Result<MediaItem, WireError>
  {
    var key :- DeriveMediaKey(p, letterKey, index);
    var aad :- MediaAad(context, index);
    var bytes :- DecryptAesGcm(p, key, item.iv, item.ciphertext, aad);
    Ok(MediaItem(item.mediaType, item.codec, bytes))
  }

  function DecryptFirst(p: Primitives, items: seq<EncryptedItem>, n: nat, letterKey: Bytes,
          context: Bytes): Result<seq<MediaItem>, WireError>
    requires n <= |items|
  {
    if n == 0 then Ok([])
    else
      var done :- DecryptFirst(p, items, n - 1, letterKey, context);
      var last :- DecryptItem(p, items[n - 1], n - 1, letterKey, context);
      Ok(done + [last])
  }

  function DecryptGbyl(p: Primitives, input: Bytes, letterKey: Bytes,
          context: Bytes): Result<seq<MediaItem>, WireError>
  {
    var items :- ParseArchive(input);
    DecryptFirst(p, items, |items|, letterKey, context)
  }

  /** The writer loop: one header, then every item under its own key, additional data and random IV. */
  method PackGbyl(p: Primitives, items: seq<MediaItem>, letterKey: Bytes, context: Bytes, ivs: nat -> Bytes)
    returns (r: Result<Bytes, WireError>)
    ensures r == Pack(p, items, letterKey, context, ivs)
  {
    hide Header, ByteWriter.Valid, EncodeItem, SealItem, Fits;
    if |items| > 0xffff {
      return Err(RangeError);
    }
    var writer := new ByteWriter();
    WriteHeader(writer, |items|);
    assert [] + Header(|items|) == Header(|items|) + EncodeItems([]);
    ghost var done := [];
    for index := 0 to |items|
      invariant EncryptFirst(p, items, index, letterKey, context, ivs) == Ok(done)
      invariant writer.Valid()
      invariant writer.contents == Header(|items|) + EncodeItems(done)
    {
      EncryptFirstFails(p, items, index + 1, letterKey, context, ivs);
      var last :- SealItem(p, items[index], index, letterKey, context, ivs);
      var _ :- WriteItem(writer, last);
      EncodeItemsAppend(done, last);
      done := done + [last];
    }
    var archive := writer.ToBytes();
    if |archive| > MAX_ARCHIVE_BYTES {
      return Err(RangeError);
    }
    return Ok(archive);
  }

  method WriteHeader(writer: ByteWriter, itemCount: nat)
    requires writer.Valid() && itemCount <= 0xffff
    modifies writer
    ensures writer.Valid() && writer.contents == old(writer.contents) + Header(itemCount)
  {
    hide BigEndian, ByteWriter.Valid;
    Pow256Values();
    SmallIntegers();
    writer.WriteBytes(GBYL_MAGIC);
    var _ := writer.WriteInteger(1, 1);
    var _ := writer.WriteInteger(0, 1);
    var _ := writer.WriteInteger(itemCount, 2);
  }

  /** When this fails the archive is abandoned. */
  method WriteItem(writer: ByteWriter, item: EncryptedItem) returns (r: Result<(), WireError>)
    requires writer.Valid()
    modifies writer
    ensures writer.Valid()
    ensures r == if Fits(|item.ciphertext|, 4) then Ok(()) else Err(RangeError)
    ensures r.Ok? ==> writer.contents == old(writer.contents) + EncodeItem(item)
  {
    hide BigEndian, ByteWriter.Valid;
    Pow256Values();
    SmallIntegers();
    var _ := writer.WriteInteger(item.mediaType, 1);
    var _ := writer.WriteInteger(item.codec, 1);
    var _ := writer.WriteInteger(0, 2);
    assert writer.contents == old(writer.contents) + [item.mediaType, item.codec, 0, 0];
    writer.WriteBytes(item.iv);
    var _ :- writer.WriteInteger(|item.ciphertext|, 4);
    writer.WriteBytes(item.ciphertext);
    return Ok(());
  }

  lemma SmallIntegers()
    ensures forall b: byte :: BigEndian(b, 1) == [b]
    ensures BigEndian(0, 2) == [0, 0]
  {
    assert BigEndian(0, 1) == [0];
    forall b: byte ensures BigEndian(b, 1) == [b] {
      assert BigEndian(b / 256, 0) == [];
    }
  }

  /** The first failing item decides the outcome. */
  lemma {:induction false} EncryptFirstFails(p: Primitives, items: seq<MediaItem>, n: nat, letterKey: Bytes,
          context: Bytes, ivs: nat -> Bytes)
    requires n <= |items|
    ensures EncryptFirst(p, items, n, letterKey, context, ivs).Err? ==>
              EncryptFirst(p, items, |items|, letterKey, context, ivs) ==
                  EncryptFirst(p, items, n, letterKey, context, ivs)
    decreases |items| - n
  {
    if n < |items| {
      EncryptFirstFails(p, items, n + 1, letterKey, context, ivs);
    }
  }

  lemma {:induction false} EncodeItemsAppend(items: seq<EncryptedItem>, last: EncryptedItem)
    ensures EncodeItems(items + [last]) == EncodeItems(items) + EncodeItem(last)
  {
    hide EncodeItem;
    if items == [] {
      assert items + [last] == [last] && [last][1..] == [];
      assert EncodeItem(last) + [] == [] + EncodeItem(last) == EncodeItem(last);
    } else {
      EncodeItemsAppend(items[1..], last);
      assert (items + [last])[1..] == items[1..] + [last];
      assert EncodeItem(items[0]) + (EncodeItems(items[1..]) + EncodeItem(last)) ==
          EncodeItem(items[0]) + EncodeItems(items[1..]) + EncodeItem(last);
    }
  }

  /** The reader loop, which stops at the first malformed field. */
  method ParseGbyl(input: Bytes) returns (r: Result<seq<EncryptedItem>, WireError>)
    ensures r == ParseArchive(input)
  {
    hide FromBigEndian, ParseItem;
    if |input| > MAX_ARCHIVE_BYTES {
      return Err(RangeError);
    }
    var reader := new ByteReader(input);
    var _ :- reader.ExpectBytes(GBYL_MAGIC);
    var version :- reader.ReadUint8();
    if version != 1 {
      return Err(TypeError);
    }
    var flags :- reader.ReadUint8();
    if flags != 0 {
      return Err(TypeError);
    }
    var itemCount :- reader.ReadUint(2);
    var items := [];
    for index := 0 to itemCount
      invariant reader.Valid()
      invariant ParseBody(input) ==
                Prepend(items, ParseItems(input, reader.offset, itemCount - index))
    {
      var item :- ReadItem(reader);
      assert forall more: seq<EncryptedItem> :: items + ([item] + more) == items + [item] + more;
      items := items + [item];
    }
    var _ :- reader.Finish();
    assert items + [] == items;
    return Ok(items);
  }

  /** The body of the reader loop. */
  method ReadItem(reader: ByteReader) returns (r: Result<EncryptedItem, WireError>)
    requires reader.Valid()
    modifies reader`offset
    ensures reader.Valid()
    ensures match ParseItem(reader.input, old(reader.offset))
            case Ok(parsed) => r == Ok(parsed.0) && reader.offset == parsed.1
            case Err(e) => r == Err(e)
  {
    hide FromBigEndian;
    var mediaType :- reader.ReadUint8();
    var codec :- reader.ReadUint8();
    if !MediaMapping(mediaType, codec) {
      return Err(TypeError);
    }
    var flags :- reader.ReadUint(2);
    if flags != 0 {
      return Err(TypeError);
    }
    var iv :- reader.ReadBytes(AES_GCM_IV_BYTES);
    var length :- reader.ReadUint(4);
    if length < AES_GCM_TAG_BYTES {
      return Err(RangeError);
    }
    var ciphertext :- reader.ReadBytes(length);
    return Ok(EncryptedItem(mediaType, codec, iv, ciphertext));
  }

  /******* decryptGbyl inverts packGbyl *******/

  lemma EncryptedItemDecrypts(p: Primitives, item: MediaItem, index: nat, letterKey: Bytes, context: Bytes,
          ivs: nat -> Bytes)
    requires p.Lawful()
    requires EncryptItem(p, item, index, letterKey, context, ivs).Ok?
    ensures var e := EncryptItem(p, item, index, letterKey, context, ivs).value;
            && ValidItem(e)
            && |EncodeItem(e)| == 20 + 16 + |item.bytes|
            && DecryptItem(p, e, index, letterKey, context) == Ok(item)
  {
    Pow256Values();
    var key := DeriveMediaKey(p, letterKey, index).value;
    var aad := MediaAad(context, index).value;
    assert p.aesOpen(key, ivs(index), aad, p.aesSeal(key, ivs(index), aad, item.bytes)) == Some(item.bytes);
  }

  lemma {:induction false} EncryptedItemsDecrypt(p: Primitives, items: seq<MediaItem>, n: nat, letterKey: Bytes,
          context: Bytes, ivs: nat -> Bytes)
    requires p.Lawful() && n <= |items|
    requires EncryptFirst(p, items, n, letterKey, context, ivs).Ok?
    ensures var es := EncryptFirst(p, items, n, letterKey, context, ivs).value;
            && (forall i :: 0 <= i < n ==> ValidItem(es[i]))
            && |EncodeItems(es)| + 8 == EstimateBytes(items[..n])
            && DecryptFirst(p, es, n, letterKey, context) == Ok(items[..n])
  {
    hide EncryptItem, DecryptItem, EncodeItem, ValidItem, Primitives.Lawful;
    if n > 0 {
      EncryptedItemsDecrypt(p, items, n - 1, letterKey, context, ivs);
      EncryptedItemDecrypts(p, items[n - 1], n - 1, letterKey, context, ivs);
      var done := EncryptFirst(p, items, n - 1, letterKey, context, ivs).value;
      var last := EncryptItem(p, items[n - 1], n - 1, letterKey, context, ivs).value;
      EncodeItemsAppend(done, last);
      DecryptFirstPrefix(p, done, last, n - 1, letterKey, context);
      assert items[..n][..n - 1] == items[..n - 1];
      assert items[..n] == items[..n - 1] + [items[n - 1]];
    }
  }

  lemma {:induction false} DecryptFirstPrefix(p: Primitives, done: seq<EncryptedItem>, last: EncryptedItem, n: nat,
          letterKey: Bytes, context: Bytes)
    requires n <= |done|
    ensures DecryptFirst(p, done + [last], n, letterKey, context) == DecryptFirst(p, done, n, letterKey, context)
  {
    if n > 0 {
      DecryptFirstPrefix(p, done, last, n - 1, letterKey, context);
    }
  }

  /** Whatever was packed under a key and context is what decrypting under them returns. */
  lemma DecryptInvertsPack(p: Primitives, items: seq<MediaItem>, letterKey: Bytes, context: Bytes, ivs: nat -> Bytes)
    requires p.Lawful()
    requires Pack(p, items, letterKey, context, ivs).Ok?
    ensures var archive := Pack(p, items, letterKey, context, ivs).value;
            && ParseArchive(archive).Ok?
            && |archive| == EstimateBytes(items)
            && DecryptGbyl(p, archive, letterKey, context) == Ok(items)
  {
    var es := EncryptFirst(p, items, |items|, letterKey, context, ivs).value;
    EncryptedItemsDecrypt(p, items, |items|, letterKey, context, ivs);
    ParseIffPrints(Archive(es), es);
    assert items[..|items|] == items;
  }

  /******* The sender's size estimate (frontend/src/features/data/send/media-preprocessing.ts) *******/

  function EstimateBytes(items: seq<MediaItem>): (n: nat)
    ensures n >= 8
  {
    if items == [] then 8
    else EstimateBytes(items[..|items| - 1]) + 20 + 16 + |items[|items| - 1].bytes|
  }

  function AssertArchiveSize(items: seq<MediaItem>): Result<nat, WireError> {
    var estimated := EstimateBytes(items);
    if estimated > MAX_ARCHIVE_BYTES then Err(RangeError) else Ok(estimated)
  }

  lemma {:induction false} EncryptFirstSucceeds(p: Primitives, items: seq<MediaItem>, n: nat, letterKey: Bytes,
          context: Bytes, ivs: nat -> Bytes)
    requires p.Lawful() && n <= |items| <= 0xffff && |letterKey| == 32
    requires forall i :: 0 <= i < n ==> MediaMapping(items[i].mediaType, items[i].codec) && |ivs(i)| == AES_GCM_IV_BYTES
    requires EstimateBytes(items[..n]) <= MAX_ARCHIVE_BYTES
    ensures EncryptFirst(p, items, n, letterKey, context, ivs).Ok?
  {
    if n > 0 {
      assert items[..n][..n - 1] == items[..n - 1];
      EncryptFirstSucceeds(p, items, n - 1, letterKey, context, ivs);
      Pow256Values();
      var key := DeriveMediaKey(p, letterKey, n - 1).value;
      var aad := MediaAad(context, n - 1).value;
      assert |p.aesSeal(key, ivs(n - 1), aad, items[n - 1].bytes)| == |items[n - 1].bytes| + AES_GCM_TAG_BYTES;
    }
  }

  /**
   Packing well-typed media under a letter key fails exactly when the estimate or the item count is
   over its limit.
   */
  lemma EstimateDecidesPacking(p: Primitives, items: seq<MediaItem>, letterKey: Bytes, context: Bytes,
          ivs: nat -> Bytes)
    requires p.Lawful() && |letterKey| == 32
    requires forall i :: 0 <= i < |items| ==>
        MediaMapping(items[i].mediaType, items[i].codec) && |ivs(i)| == AES_GCM_IV_BYTES
    ensures Pack(p, items, letterKey, context, ivs).Ok? <==> AssertArchiveSize(items).Ok? && |items| <= 0xffff
  {
    assert items[..|items|] == items;
    if |items| <= 0xffff && AssertArchiveSize(items).Ok? {
      EncryptFirstSucceeds(p, items, |items|, letterKey, context, ivs);
    }
    if |items| <= 0xffff && EncryptFirst(p, items, |items|, letterKey, context, ivs).Ok? {
      EncryptedItemsDecrypt(p, items, |items|, letterKey, context, ivs);
    }
  }
}
