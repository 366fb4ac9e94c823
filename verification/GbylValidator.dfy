/**
 The server's streaming GBYL recogniser (backend/src/Package/GbylValidator.php), reading a file through
 `fread`, which may return any non-empty prefix of what was asked for.
 */
module GbylValidator {
  import opened Wrappers
  import opened ByteCodec
  import opened Gbyl

  datatype PackageError =
    | HashInvalid | FormatInvalid | TooLarge | StorageFailure | ReadFailure | LengthMismatch | HashMismatch
        | StorageCorrupt

  /** An open PHP stream.  `faulty` says whether a read may fail. */
  class Stream {
    const content: Bytes
    const faulty: bool
    var position: nat
    var eof: bool

    ghost predicate Valid()
      reads this
    {
      position <= |content| && (eof ==> position == |content|)
    }

    constructor (content: Bytes, faulty: bool)
      ensures Valid() && this.content == content && this.faulty == faulty && position == 0
    {
      this.content, this.faulty := content, faulty;
      position, eof := 0, false;
    }

    /**
     `fread`: no result on a fault, an empty string only at the end, and otherwise between 1 and `limit`
     bytes.  The end-of-file mark may already appear when the last byte is read, and does at the latest
     when reading past it.
     */
    method Read(limit: nat) returns (chunk: Option<Bytes>)
      requires Valid() && limit > 0
      modifies this`position, this`eof
      ensures Valid()
      ensures chunk.None? ==> faulty && position == old(position)
      ensures chunk.Some? ==>
                && old(position) <= position
                && chunk.value == content[old(position)..position]
                && |chunk.value| <= limit
                && (old(position) < |content| ==> chunk.value != [])
                && (old(position) == |content| ==> eof)
    {
      if faulty {
        if * {
          return None;
        }
      }
      if position == |content| {
        eof := true;
        return Some([]);
      }
      var n :| 1 <= n <= limit && n <= |content| - position;
      chunk := Some(content[position..position + n]);
      position := position + n;
      if position == |content| {
        if * {
          eof := true;
        }
      }
    }
  }

  method ReadExact(stream: Stream, length: nat) returns (r: Result<Bytes, PackageError>)
    requires stream.Valid()
    modifies stream`position, stream`eof
    ensures stream.Valid()
    ensures r.Ok? ==>
              && stream.position == old(stream.position) + length
              && r.value == stream.content[old(stream.position)..stream.position]
    ensures r.Err? ==> r.error == FormatInvalid && (stream.faulty || |stream.content| < old(stream.position) + length)
  {
    var output := [];
    while |output| < length && !stream.eof
      invariant stream.Valid()
      invariant old(stream.position) <= stream.position <= old(stream.position) + length
      invariant output == stream.content[old(stream.position)..stream.position]
      decreases length - |output|, if stream.eof then 0 else 1
    {
      var chunk := stream.Read(length - |output|);
      if chunk.None? {
        break;
      }
      output := output + chunk.value;
    }
    if |output| != length {
      return Err(FormatInvalid);
    }
    return Ok(output);
  }

  method SkipExact(stream: Stream, length: nat) returns (r: Result<(), PackageError>)
    requires stream.Valid()
    modifies stream`position, stream`eof
    ensures stream.Valid()
    ensures r.Ok? ==> stream.position == old(stream.position) + length
    ensures r.Err? ==> r.error == FormatInvalid && (stream.faulty || |stream.content| < old(stream.position) + length)
  {
    var remaining := length;
    while remaining > 0
      invariant stream.Valid()
      invariant 0 <= remaining <= length
      invariant stream.position == old(stream.position) + (length - remaining)
    {
      var chunk := stream.Read(if remaining < 65_536 then remaining else 65_536);
      if chunk.None? || chunk.value == [] {
        return Err(FormatInvalid);
      }
      remaining := remaining - |chunk.value|;
    }
    return Ok(());
  }

  /** The body of the item loop.  Its fields are read one by one, the ciphertext is only skipped. */
  method ValidateItem(stream: Stream) returns (r: Result<(), PackageError>)
    requires stream.Valid()
    modifies stream`position, stream`eof
    ensures stream.Valid()
    ensures r.Ok? ==>
              && ParseItem(stream.content, old(stream.position)).Ok?
              && stream.position == ParseItem(stream.content, old(stream.position)).value.1
    ensures r.Err? ==>
              r.error == FormatInvalid && (stream.faulty || ParseItem(stream.content, old(stream.position)).Err?)
  {
    hide FromBigEndian;
    var mediaType :- ReadExact(stream, 1);
    var codec :- ReadExact(stream, 1);
    if !MediaMapping(mediaType[0], codec[0]) {
      return Err(FormatInvalid);
    }
    var flags :- ReadExact(stream, 2);
    ZeroFlags(flags);
    if flags != [0, 0] {
      return Err(FormatInvalid);
    }
    var _ :- ReadExact(stream, 12);
    var lengthBytes :- ReadExact(stream, 4);
    var length := FromBigEndian(lengthBytes);
    if length < 16 {
      return Err(FormatInvalid);
    }
    r := SkipExact(stream, length);
  }

  /**
   Whatever the pattern of short reads, the validator stops, and without faults it accepts exactly the
   byte strings of the size-free grammar that have the expected size.
   */
  method Validate(stream: Stream, expectedSize: nat) returns (r: Result<(), PackageError>)
    requires stream.Valid() && stream.position == 0
    modifies stream`position, stream`eof
    ensures r.Ok? && expectedSize == |stream.content| ==> ParseBody(stream.content).Ok?
    ensures !stream.faulty ==> (r.Ok? <==> ParseBody(stream.content).Ok? && expectedSize == |stream.content|)
    ensures r.Err? ==> r.error == FormatInvalid
  {
    hide FromBigEndian, ParseItem;
    var magic :- ReadExact(stream, 4);
    if magic != Ascii("GBYL") {
      return Err(FormatInvalid);
    }
    var version :- ReadExact(stream, 1);
    if version != [1] {
      return Err(FormatInvalid);
    }
    var flags :- ReadExact(stream, 1);
    if flags != [0] {
      return Err(FormatInvalid);
    }
    var countBytes :- ReadExact(stream, 2);
    var itemCount := FromBigEndian(countBytes);
    assert ParseBody(stream.content) == ParseItems(stream.content, 8, itemCount);
    for index := 0 to itemCount
      invariant stream.Valid()
      invariant ParseBody(stream.content).Ok? <==> ParseItems(stream.content, stream.position, itemCount - index).Ok?
    {
      var _ :- ValidateItem(stream);
    }
    if stream.position != expectedSize {
      return Err(FormatInvalid);
    }
    var trailing := stream.Read(1);
    if trailing.Some? && trailing.value != [] {
      return Err(FormatInvalid);
    }
    return Ok(());
  }

  /** The client's and the server's recogniser agree on every byte string that is within the archive limit. */
  method RecognisersAgree(b: Bytes) returns (client: bool, server: bool)
    ensures server <==> ParseBody(b).Ok?
    ensures client <==> server && |b| <= MAX_ARCHIVE_BYTES
  {
    var parsed := ParseGbyl(b);
    var stream := new Stream(b, false);
    var validated := Validate(stream, |b|);
    return parsed.Ok?, validated.Ok?;
  }
}
