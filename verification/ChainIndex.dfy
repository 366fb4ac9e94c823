/** The server's index of the chain (backend/src/Operations/RpcChainIndex.php). */
module ChainIndex {
  import opened Wrappers
  import opened ByteCodec
  import opened Gibyeol2026
  import opened LogRanges

  /** A decoded JSON value where a log was expected; a missing or ill-typed part is `None`. */
  datatype RawLog = NotAnArray | Log(topics: Option<seq<Option<string>>>, data: Option<string>)

  /** What one RPC endpoint answers; `None` is a failed call or a value of another type. */
  datatype Endpoint = Endpoint(head: Option<string>, logs: BlockRange -> Option<seq<RawLog>>)

  datatype Letter = Letter(recipient: string, archiveHash: string)

  datatype ChainSnapshot = ChainSnapshot(headBlock: nat, safeBlock: int, recipientCounts: map<string, nat>,
      archiveHashes: set<string>)

  datatype Settings = Settings(deploymentBlock: nat, confirmations: nat)

  predicate HexLiteral(s: string) {
    |s| > 2 && s[0] == '0' && s[1] in {'x', 'X'} && HexDigits(s[2..])
  }

  function HexDec(digits: string): (n: nat)
    requires HexDigits(digits)
  {
    if digits == "" then 0 else 16 * HexDec(digits[..|digits| - 1]) + HexValue(digits[|digits| - 1]).value
  }

  /** `substr($s, -n)` */
  function Last(s: string, n: nat): string {
    if |s| <= n then s else s[|s| - n..]
  }

  function DecodeLog(log: RawLog): Option<Letter> {
    if log.Log? && log.topics.Some? && |log.topics.value| == 4 && log.topics.value[3].Some?
       && log.data.Some? && |log.data.value| == 130 && HexLiteral(log.data.value)
    then Some(Letter("0x" + Last(Lower(log.topics.value[3].value), 40), Lower(log.data.value[66..])))
    else None
  }

  function DecodePage(page: seq<RawLog>): (letters: Option<seq<Letter>>) {
    if page == [] then Some([])
    else
      match DecodeLog(page[0])
      case None => None
      case Some(letter) => Prepend([letter], DecodePage(page[1..]))
  }

  function DecodedPage(e: Endpoint, range: BlockRange): Option<seq<Letter>> {
    match e.logs(range) case None => None case Some(page) => DecodePage(page)
  }

  /** Every letter of the given ranges, or nothing if one page or one log is bad. */
  function Letters(e: Endpoint, ranges: seq<BlockRange>): Option<seq<Letter>> {
    Pages(ranges, (range: BlockRange) => DecodedPage(e, range))
  }

  function Increment(counts: map<string, nat>, recipient: string): map<string, nat> {
    counts[recipient := (if recipient in counts then counts[recipient] else 0) + 1]
  }

  function Tally(letters: seq<Letter>): (map<string, nat>, set<string>) {
    if letters == [] then (map[], {})
    else
      var (counts, hashes) := Tally(letters[..|letters| - 1]);
      var last := letters[|letters| - 1];
      (Increment(counts, last.recipient), hashes + {last.archiveHash})
  }

  function SnapshotOf(settings: Settings, e: Endpoint): Option<ChainSnapshot> {
    if e.head.None? || !HexLiteral(e.head.value) then None
    else
      var head := HexDec(e.head.value[2..]);
      var safe := head - settings.confirmations;
      if safe < settings.deploymentBlock then None
      else
        match Letters(e, Ranges(settings.deploymentBlock, safe))
        case None => None
        case Some(letters) => Some(ChainSnapshot(head, safe, Tally(letters).0, Tally(letters).1))
  }

  /** The inner loop over one page. */
  method CountPage(page: seq<RawLog>, counts: map<string, nat>, hashes: set<string>, ghost before: seq<Letter>)
    returns (r: Option<(map<string, nat>, set<string>)>)
    requires (counts, hashes) == Tally(before)
    ensures match DecodePage(page)
            case None => r == None
            case Some(letters) => r == Some(Tally(before + letters))
  {
    hide DecodeLog;
    var c, h := counts, hashes;
    ghost var done := [];
    assert before + done == before;
    for i := 0 to |page|
      invariant (c, h) == Tally(before + done)
      invariant DecodePage(page) == Prepend(done, DecodePage(page[i..]))
    {
      var letter := DecodeLog(page[i]);
      assert page[i..][1..] == page[i + 1..];
      if letter.None? {
        return None;
      }
      PrependPrepend(done, [letter.value], DecodePage(page[i + 1..]));
      assert (before + (done + [letter.value]))[..|before + done|] == before + done;
      done := done + [letter.value];
      c := Increment(c, letter.value.recipient);
      h := h + {letter.value.archiveHash};
    }
    assert Prepend(done, Some([])) == Some(done) by {
      assert done + [] == done;
    }
    return Some((c, h));
  }

  method SnapshotFrom(settings: Settings, e: Endpoint) returns (r: Option<ChainSnapshot>)
    ensures r == SnapshotOf(settings, e)
  {
    hide DecodePage, HexDec, HexLiteral;
    if e.head.None? || !HexLiteral(e.head.value) {
      return None;
    }
    assert HexDigits(e.head.value[2..]) by {
      HexLiteralDigits(e.head.value);
    }
    var head := HexDec(e.head.value[2..]);
    var safe := head - settings.confirmations;
    if safe < settings.deploymentBlock {
      return None;
    }
    var counts, hashes := map[], {};
    ghost var done := [];
    var fromBlock: int := settings.deploymentBlock;
    while fromBlock <= safe
      invariant (counts, hashes) == Tally(done)
      invariant Letters(e, Ranges(settings.deploymentBlock, safe)) == Prepend(done, Letters(e, Ranges(fromBlock, safe)))
    {
      var range := BlockRange(fromBlock, Min(safe, fromBlock + MAX_LOG_BLOCKS - 1));
      LettersStep(e, fromBlock, safe);
      var logs := e.logs(range);
      if logs.None? {
        return None;
      }
      var counted := CountPage(logs.value, counts, hashes, done);
      if counted.None? {
        return None;
      }
      ghost var page := DecodePage(logs.value).value;
      PrependPrepend(done, page, Letters(e, Ranges(fromBlock + MAX_LOG_BLOCKS, safe)));
      done := done + page;
      counts, hashes := counted.value.0, counted.value.1;
      fromBlock := fromBlock + MAX_LOG_BLOCKS;
    }
    assert Prepend(done, Some([])) == Some(done) by {
      assert done + [] == done;
    }
    return Some(ChainSnapshot(head, safe, counts, hashes));
  }

  lemma HexLiteralDigits(s: string)
    requires HexLiteral(s)
    ensures |s| > 2 && HexDigits(s[2..])
  {
  }

  lemma LettersStep(e: Endpoint, fromBlock: int, safe: int)
    requires fromBlock <= safe
    ensures var page := DecodedPage(e, BlockRange(fromBlock, Min(safe, fromBlock + MAX_LOG_BLOCKS - 1)));
            Letters(e, Ranges(fromBlock, safe)) ==
              if page.None? then None else Prepend(page.value, Letters(e, Ranges(fromBlock + MAX_LOG_BLOCKS, safe)))
  {
    assert Ranges(fromBlock, safe)[1..] == Ranges(fromBlock + MAX_LOG_BLOCKS, safe);
  }

  /**
   The snapshot is that of the first endpoint that answers everything well: never a mixture of endpoints,
   never a part of a scan, and none at all exactly when every endpoint fails.
   */
  method Snapshot(settings: Settings, endpoints: seq<Endpoint>) returns (r: Option<ChainSnapshot>)
    ensures r.Some? ==> exists i :: 0 <= i < |endpoints| && r == SnapshotOf(settings, endpoints[i])
                                    && forall j :: 0 <= j < i ==> SnapshotOf(settings, endpoints[j]).None?
    ensures r.None? <==> forall i :: 0 <= i < |endpoints| ==> SnapshotOf(settings, endpoints[i]).None?
  {
    for i := 0 to |endpoints|
      invariant forall j :: 0 <= j < i ==> SnapshotOf(settings, endpoints[j]).None?
    {
      r := SnapshotFrom(settings, endpoints[i]);
      if r.Some? {
        return;
      }
    }
    return None;
  }

  /******* What the aggregates mean *******/

  function Recipients(letters: seq<Letter>): (r: seq<string>)
    ensures |r| == |letters|
  {
    seq(|letters|, i requires 0 <= i < |letters| => letters[i].recipient)
  }

  /** Every recipient is counted once per letter, and the hashes are exactly those of the letters. */
  lemma {:induction false} TallyCounts(letters: seq<Letter>)
    ensures var (counts, hashes) := Tally(letters);
            && (forall r :: r in counts <==> r in multiset(Recipients(letters)))
            && (forall r :: r in counts ==> counts[r] == multiset(Recipients(letters))[r])
            && (forall h :: h in hashes <==> Named(letters, h))
  {
    if letters != [] {
      var before, last := letters[..|letters| - 1], letters[|letters| - 1];
      TallyCounts(before);
      assert Recipients(letters) == Recipients(before) + [last.recipient];
      var (counts, hashes) := Tally(letters);
      forall h ensures h in hashes <==> Named(letters, h) {
        NamedLast(letters, h);
      }
    }
  }

  lemma NamedLast(letters: seq<Letter>, hash: string)
    requires letters != []
    ensures Named(letters, hash) <==>
        Named(letters[..|letters| - 1], hash) || letters[|letters| - 1].archiveHash == hash
  {
    var before := letters[..|letters| - 1];
    if Named(letters, hash) {
      var i :| 0 <= i < |letters| && letters[i].archiveHash == hash;
      assert i < |before| ==> before[i].archiveHash == hash;
    }
    if Named(before, hash) {
      var i :| 0 <= i < |before| && before[i].archiveHash == hash;
      assert letters[i].archiveHash == hash;
    }
    if letters[|letters| - 1].archiveHash == hash {
      assert Named(letters, hash);
    }
  }

  function Total(counts: map<string, nat>, keys: seq<string>): nat
    requires forall i :: 0 <= i < |keys| ==> keys[i] in counts
  {
    if keys == [] then 0 else Total(counts, keys[..|keys| - 1]) + counts[keys[|keys| - 1]]
  }

  lemma {:induction false} TotalOf(counts: map<string, nat>, keys: seq<string>, m: multiset<string>)
    requires forall i, j :: 0 <= i < j < |keys| ==> keys[i] != keys[j]
    requires forall i :: 0 <= i < |keys| ==> keys[i] in counts && counts[keys[i]] == m[keys[i]]
    requires forall r :: r in m ==> r in keys
    ensures Total(counts, keys) == |m|
  {
    if keys == [] {
      assert m == multiset{};
    } else {
      var before, last := keys[..|keys| - 1], keys[|keys| - 1];
      var rest := m[last := 0];
      assert forall r :: r in rest ==> r in before;
      TotalOf(counts, before, rest);
      assert m == rest + multiset{}[last := m[last]];
    }
  }

  /** In whatever order the recipients are listed, their counts add up to the number of letters. */
  lemma CountsAddUp(letters: seq<Letter>, keys: seq<string>)
    requires forall i, j :: 0 <= i < j < |keys| ==> keys[i] != keys[j]
    requires forall r :: r in keys <==> r in Tally(letters).0
    ensures Total(Tally(letters).0, keys) == |letters|
  {
    hide Tally, Total, Recipients, Named;
    TallyCounts(letters);
    TotalOf(Tally(letters).0, keys, multiset(Recipients(letters)));
  }

  /******* The snapshot of an honest endpoint *******/

  datatype Emitted = Emitted(block: int, event: LetterSealed)

  function BlockOf(entry: Emitted): int {
    entry.block
  }

  /** How a node renders an event: three indexed words, and two words of data. */
  function EncodeLog(e: LetterSealed): RawLog {
    Log(Some([Some("0x"), Some("0x" + BytesToHex(e.letterId)), Some("0x" + BytesToHex(Padded(e.sender))),
        Some("0x" + BytesToHex(Padded(e.recipient)))]),
        Some("0x" + BytesToHex(BigEndian(e.recipientKeyId, 32)) + BytesToHex(e.archiveSha256)))
  }

  function Padded(a: Address): Bytes {
    [0, 0, 0, 0, 0, 0, 0, 0, 0, 0, 0, 0] + a
  }

  function EncodeLogs(entries: seq<Emitted>): seq<RawLog> {
    if entries == [] then [] else [EncodeLog(entries[0].event)] + EncodeLogs(entries[1..])
  }

  function LetterOf(e: LetterSealed): Letter {
    Letter("0x" + BytesToHex(e.recipient), BytesToHex(e.archiveSha256))
  }

  function LettersOf(entries: seq<Emitted>): (letters: seq<Letter>)
    ensures |letters| == |entries|
    ensures forall i :: 0 <= i < |entries| ==> letters[i] == LetterOf(entries[i].event)
  {
    if entries == [] then [] else [LetterOf(entries[0].event)] + LettersOf(entries[1..])
  }

  lemma OwnHexIsLower(b: Bytes)
    ensures Lower(BytesToHex(b)) == BytesToHex(b) && HexDigits(BytesToHex(b))
  {
    HexRoundTrip(b);
    HexPairsLower(BytesToHex(b));
  }

  lemma {:induction false} HexConcat(a: Bytes, b: Bytes)
    ensures BytesToHex(a + b) == BytesToHex(a) + BytesToHex(b)
  {
    if a == [] {
      assert a + b == b;
    } else {
      HexConcat(a[1..], b);
      assert (a + b)[1..] == a[1..] + b;
    }
  }

  lemma LowerConcat(a: string, b: string)
    ensures Lower(a + b) == Lower(a) + Lower(b)
  {
    hide LowerChar;
  }

  lemma TopicHoldsAddress(a: Address)
    ensures Last(Lower("0x" + BytesToHex(Padded(a))), 40) == BytesToHex(a)
  {
    var zeros: Bytes := [0, 0, 0, 0, 0, 0, 0, 0, 0, 0, 0, 0];
    HexConcat(zeros, a);
    OwnHexIsLower(a);
    var text, head := BytesToHex(a), "0x" + BytesToHex(zeros);
    LowerConcat(head, text);
    hide BytesToHex, HexDigits, Lower;
    assert "0x" + BytesToHex(Padded(a)) == head + text;
    assert (Lower(head) + text)[|head|..] == text;
  }

  lemma DataHoldsHash(word: Bytes, hash: Bytes)
    requires |word| == 32 && |hash| == 32
    ensures var data := "0x" + BytesToHex(word) + BytesToHex(hash);
            |data| == 130 && HexLiteral(data) && Lower(data[66..]) == BytesToHex(hash)
  {
    OwnHexIsLower(word);
    OwnHexIsLower(hash);
    hide BytesToHex, HexValue;
    var data := "0x" + BytesToHex(word) + BytesToHex(hash);
    assert data[2..] == BytesToHex(word) + BytesToHex(hash) && data[66..] == BytesToHex(hash);
  }

  /** A rendered event is read back as its recipient and archive hash. */
  lemma DecodeInvertsEncode(e: LetterSealed)
    ensures DecodeLog(EncodeLog(e)) == Some(LetterOf(e))
  {
    TopicHoldsAddress(e.recipient);
    DataHoldsHash(BigEndian(e.recipientKeyId, 32), e.archiveSha256);
    hide BytesToHex, BigEndian, HexLiteral, Last, Lower, Padded;
  }

  lemma {:induction false} DecodeInvertsEncodePage(entries: seq<Emitted>)
    ensures DecodePage(EncodeLogs(entries)) == Some(LettersOf(entries))
  {
    hide DecodeLog, EncodeLog, LetterOf;
    if entries != [] {
      DecodeInvertsEncode(entries[0].event);
      DecodeInvertsEncodePage(entries[1..]);
      assert EncodeLogs(entries)[1..] == EncodeLogs(entries[1..]);
    }
  }

  /** The endpoint answers every page from one log. */
  ghost predicate Honest(e: Endpoint, log: seq<Emitted>) {
    && InBlockOrder(log, BlockOf)
    && forall range :: e.logs(range) == Some(EncodeLogs(Query(log, BlockOf, range)))
  }

  /** The pages of events behind an honest endpoint's pages of logs. */
  function EventPages(log: seq<Emitted>): BlockRange -> Option<seq<Emitted>> {
    range => Some(Query(log, BlockOf, range))
  }

  lemma LettersOfConcat(a: seq<Emitted>, b: seq<Emitted>)
    ensures LettersOf(a + b) == LettersOf(a) + LettersOf(b)
  {
    hide LetterOf;
    forall i | 0 <= i < |a + b| ensures LettersOf(a + b)[i] == (LettersOf(a) + LettersOf(b))[i] {
      assert (a + b)[i] == if i < |a| then a[i] else b[i - |a|];
    }
  }

  lemma HonestPage(e: Endpoint, log: seq<Emitted>, range: BlockRange)
    requires Honest(e, log)
    ensures EventPages(log)(range).Some?
    ensures DecodedPage(e, range) == Some(LettersOf(EventPages(log)(range).value))
  {
    DecodeInvertsEncodePage(Query(log, BlockOf, range));
  }

  lemma {:induction false} PagesOfLetters(e: Endpoint, log: seq<Emitted>, ranges: seq<BlockRange>)
    requires Honest(e, log)
    ensures Pages(ranges, EventPages(log)).Some?
    ensures Letters(e, ranges) == Some(LettersOf(Pages(ranges, EventPages(log)).value))
  {
    hide Honest, DecodedPage, EventPages, LettersOf;
    if ranges == [] {
      LettersOfNothing();
    } else {
      PagesOfLetters(e, log, ranges[1..]);
      HonestPage(e, log, ranges[0]);
      LettersOfConcat(EventPages(log)(ranges[0]).value, Pages(ranges[1..], EventPages(log)).value);
    }
  }

  lemma LettersOfNothing()
    ensures LettersOf([]) == []
  {
  }

  lemma SnapshotTallies(settings: Settings, e: Endpoint, log: seq<Emitted>)
    requires Honest(e, log) && SnapshotOf(settings, e).Some?
    ensures var snapshot := SnapshotOf(settings, e).value;
            && snapshot.safeBlock == snapshot.headBlock - settings.confirmations
            && (snapshot.recipientCounts, snapshot.archiveHashes) ==
                 Tally(LettersOf(Query(log, BlockOf, BlockRange(settings.deploymentBlock, snapshot.safeBlock))))
  {
    var safe := SnapshotOf(settings, e).value.safeBlock;
    hide Tally, HexDec, Ranges, Letters, Pages, Query, LettersOf;
    PagesOfLetters(e, log, Ranges(settings.deploymentBlock, safe));
    PagesAreOneQuery(log, BlockOf, settings.deploymentBlock, safe, EventPages(log));
  }

  /** Some letter of these blocks names the archive. */
  ghost predicate Referenced(log: seq<Emitted>, range: BlockRange, hash: string) {
    exists i :: 0 <= i < |log| && range.Contains(log[i].block) && BytesToHex(log[i].event.archiveSha256) == hash
  }

  ghost predicate Named(letters: seq<Letter>, hash: string) {
    exists i :: 0 <= i < |letters| && letters[i].archiveHash == hash
  }

  lemma HashesOfQuery(log: seq<Emitted>, range: BlockRange, hash: string)
    ensures Named(LettersOf(Query(log, BlockOf, range)), hash) <==> Referenced(log, range, hash)
  {
    hide BytesToHex, Query;
    var entries := Query(log, BlockOf, range);
    var letters := LettersOf(entries);
    if Named(letters, hash) {
      var i :| 0 <= i < |letters| && letters[i].archiveHash == hash;
      QueryMembers(log, BlockOf, range, entries[i]);
      var j :| 0 <= j < |log| && log[j] == entries[i];
      assert Referenced(log, range, hash);
    }
    if Referenced(log, range, hash) {
      var j :| 0 <= j < |log| && range.Contains(log[j].block) && BytesToHex(log[j].event.archiveSha256) == hash;
      QueryMembers(log, BlockOf, range, log[j]);
      var i :| 0 <= i < |entries| && entries[i] == log[j];
      assert letters[i].archiveHash == hash;
    }
  }

  /**
   From an endpoint that answers from one log, the snapshot counts every letter of the blocks from
   deployment to the safe head exactly once, and references exactly the archives those letters name.
   */
  lemma SnapshotIsExact(settings: Settings, e: Endpoint, log: seq<Emitted>)
    requires Honest(e, log) && SnapshotOf(settings, e).Some?
    ensures var snapshot := SnapshotOf(settings, e).value;
            var range := BlockRange(settings.deploymentBlock, snapshot.safeBlock);
            var recipients := multiset(Recipients(LettersOf(Query(log, BlockOf, range))));
            && snapshot.safeBlock == snapshot.headBlock - settings.confirmations
            && (forall r :: r in snapshot.recipientCounts <==> r in recipients)
            && (forall r :: r in snapshot.recipientCounts ==> snapshot.recipientCounts[r] == recipients[r])
            && (forall hash :: hash in snapshot.archiveHashes <==> Referenced(log, range, hash))
  {
    SnapshotTallies(settings, e, log);
    hide SnapshotOf, Honest, BytesToHex, Tally, LettersOf, Query, Named, Referenced;
    var snapshot := SnapshotOf(settings, e).value;
    var range := BlockRange(settings.deploymentBlock, snapshot.safeBlock);
    TallyCounts(LettersOf(Query(log, BlockOf, range)));
    forall hash ensures hash in snapshot.archiveHashes <==> Referenced(log, range, hash) {
      HashesOfQuery(log, range, hash);
    }
  }
}
