/**
 The email verification codes (backend/src/Email/EmailService.php): a limit on the challenges of each wallet,
 address and client, and at most five comparisons per challenge.  Counting the recent challenges and inserting
 a new one are two steps, between which other requests may come.  Times are in seconds of one clock.
 */
module Otp {
  import opened Wrappers
  import opened ByteCodec

  const OTP_TTL_SECONDS := 600
  const CHALLENGE_LIMIT := 3
  const MAX_ATTEMPTS := 5
  const RETENTION_SECONDS := 30 * 86_400

  datatype Row = Row(
    id: nat,
    wallet: string,
    emailHash: Bytes,
    ipHash: Bytes,
    codeHash: Bytes,
    createdAt: int,
    expiresAt: int,
    attempts: nat,
    verifiedAt: Option<int>)

  /** Whom a request asks a challenge for. */
  datatype Party = Party(wallet: string, emailHash: Bytes, ipHash: Bytes)

  /**
   The table in the order of its ids, which are never given twice, and the requests that have passed the count
   and have not inserted yet.
   */
  datatype World = World(now: int, rows: seq<Row>, nextId: nat, counted: map<nat, Party>)

  /** `hmac` is the keyed hash of wallet and code. */
  datatype Settings = Settings(hmac: (string, string) -> Bytes)

  datatype Failure = RateLimited | CodeInvalid | CodeExpired

  /******* Counting *******/

  datatype Key = Wallet(wallet: string) | Email(hash: Bytes) | Client(hash: Bytes)

  predicate Matches(row: Row, key: Key) {
    match key
    case Wallet(wallet) => row.wallet == wallet
    case Email(hash) => row.emailHash == hash
    case Client(hash) => row.ipHash == hash
  }

  /** How many rows of a key were created after `low` and at or before `high`. */
  function Count(rows: seq<Row>, key: Key, low: int, high: int): (n: nat) {
    if rows == [] then 0
    else
      var last := rows[|rows| - 1];
      Count(rows[..|rows| - 1], key, low, high) + if Matches(last, key) && low < last.createdAt <= high then 1 else 0
  }

  predicate Concerns(p: Party, key: Key) {
    match key
    case Wallet(wallet) => p.wallet == wallet
    case Email(hash) => p.emailHash == hash
    case Client(hash) => p.ipHash == hash
  }

  predicate Recent(row: Row, now: int, p: Party) {
    && row.createdAt > now - OTP_TTL_SECONDS
    && (row.wallet == p.wallet || row.emailHash == p.emailHash || row.ipHash == p.ipHash)
  }

  /** The rows that the rate limit looks at. */
  function RecentCount(rows: seq<Row>, now: int, p: Party): (n: nat) {
    if rows == [] then 0
    else RecentCount(rows[..|rows| - 1], now, p) + if Recent(rows[|rows| - 1], now, p) then 1 else 0
  }

  /** All comparisons against codes of a key's rows created after `low`. */
  function Attempts(rows: seq<Row>, key: Key, low: int): (n: nat) {
    if rows == [] then 0
    else
      var last := rows[|rows| - 1];
      Attempts(rows[..|rows| - 1], key, low) + if Matches(last, key) && low < last.createdAt then last.attempts else 0
  }

  /** `ORDER BY id DESC LIMIT 1` over the unverified rows of a wallet. */
  function Current(rows: seq<Row>, wallet: string): (i: Option<nat>)
    ensures i.Some? ==> i.value < |rows| && rows[i.value].wallet == wallet && rows[i.value].verifiedAt.None?
    ensures i.Some? ==> forall j :: i.value < j < |rows| ==> rows[j].wallet != wallet || rows[j].verifiedAt.Some?
    ensures i.None? ==> forall j :: 0 <= j < |rows| ==> rows[j].wallet != wallet || rows[j].verifiedAt.Some?
  {
    if rows == [] then None
    else if rows[|rows| - 1].wallet == wallet && rows[|rows| - 1].verifiedAt.None? then Some(|rows| - 1)
    else Current(rows[..|rows| - 1], wallet)
  }

  function Retained(rows: seq<Row>, oldest: int): (kept: seq<Row>) {
    if rows == [] then []
    else Retained(rows[..|rows| - 1], oldest) + if rows[|rows| - 1].createdAt >= oldest then [rows[|rows| - 1]] else []
  }

  /******* Steps *******/

  datatype Label =
    | Pass(seconds: nat)
    // one request for a challenge
    | Ask(request: nat, party: Party)
    | Insert(request: nat, code: string)
    | GiveUp(request: nat)
    | Verify(wallet: string, code: string)
    | Clean

  /** The count of recent challenges lets the request go on. */
  predicate Allowed(w: World, p: Party) {
    RecentCount(w.rows, w.now, p) < CHALLENGE_LIMIT
  }

  /** The row whose code a verification compares, if it compares at all. */
  function Compared(w: World, wallet: string): (i: Option<nat>)
    ensures i.Some? ==> i.value < |w.rows| && w.rows[i.value].wallet == wallet
  {
    var i := Current(w.rows, wallet);
    if i.None? || w.rows[i.value].attempts >= MAX_ATTEMPTS || w.rows[i.value].expiresAt <= w.now then None else i
  }

  function NewRow(s: Settings, w: World, p: Party, code: string): Row {
    var expiresAt := w.now + OTP_TTL_SECONDS;
    Row(w.nextId, p.wallet, p.emailHash, p.ipHash, s.hmac(p.wallet, code), w.now, expiresAt, 0, None)
  }

  function Inserted(s: Settings, w: World, request: nat, code: string): World
    requires request in w.counted
  {
    var row := NewRow(s, w, w.counted[request], code);
    w.(rows := w.rows + [row], nextId := w.nextId + 1, counted := w.counted - {request})
  }

  function Apply(s: Settings, w: World, l: Label): World {
    match l
    case Pass(seconds) => w.(now := w.now + seconds)
    case Ask(request, p) =>
      if request !in w.counted && Allowed(w, p) then w.(counted := w.counted[request := p]) else w
    case Insert(request, code) => if request in w.counted then Inserted(s, w, request, code) else w
    case GiveUp(request) => w.(counted := w.counted - {request})
    case Verify(wallet, code) =>
      (match Compared(w, wallet)
       case None => w
       case Some(i) =>
         var row := w.rows[i];
         var verifiedAt := if row.codeHash == s.hmac(wallet, code) then Some(w.now) else None;
         w.(rows := w.rows[i := row.(attempts := row.attempts + 1, verifiedAt := verifiedAt)]))
    case Clean => w.(rows := Retained(w.rows, w.now - RETENTION_SECONDS))
  }

  function After(s: Settings, w: World, labels: seq<Label>): World {
    if labels == [] then w else Apply(s, After(s, w, labels[..|labels| - 1]), labels[|labels| - 1])
  }

  /******* Lemmas on counting *******/

  lemma {:induction false} CountUpdated(rows: seq<Row>, i: nat, row: Row, key: Key, low: int, high: int)
    requires i < |rows|
    requires row.wallet == rows[i].wallet && row.emailHash == rows[i].emailHash && row.ipHash == rows[i].ipHash
        && row.createdAt == rows[i].createdAt
    ensures Count(rows[i := row], key, low, high) == Count(rows, key, low, high)
  {
    var before := rows[..|rows| - 1];
    if i == |rows| - 1 {
      assert rows[i := row][..|rows| - 1] == before;
    } else {
      CountUpdated(before, i, row, key, low, high);
      assert rows[i := row][..|rows| - 1] == before[i := row];
    }
  }

  lemma {:induction false} AttemptsUpdated(rows: seq<Row>, i: nat, row: Row, key: Key, low: int)
    requires i < |rows|
    requires row.wallet == rows[i].wallet && row.emailHash == rows[i].emailHash && row.ipHash == rows[i].ipHash
        && row.createdAt == rows[i].createdAt
    ensures Attempts(rows[i := row], key, low) ==
              Attempts(rows, key, low) + if Matches(row, key)
                  && low < row.createdAt then row.attempts - rows[i].attempts else 0
  {
    var before := rows[..|rows| - 1];
    if i == |rows| - 1 {
      assert rows[i := row][..|rows| - 1] == before;
    } else {
      AttemptsUpdated(before, i, row, key, low);
      assert rows[i := row][..|rows| - 1] == before[i := row];
    }
  }

  lemma {:induction false} RetainedCounts(rows: seq<Row>, oldest: int, key: Key, low: int, high: int)
    ensures Count(Retained(rows, oldest), key, low, high) <= Count(rows, key, low, high)
  {
    if rows != [] {
      RetainedCounts(rows[..|rows| - 1], oldest, key, low, high);
      RetainedSplits(rows, oldest);
    }
  }

  lemma {:induction false} RetainedAttempts(rows: seq<Row>, oldest: int, key: Key, low: int)
    requires low >= oldest
    ensures Attempts(Retained(rows, oldest), key, low) == Attempts(rows, key, low)
  {
    if rows != [] {
      RetainedAttempts(rows[..|rows| - 1], oldest, key, low);
      RetainedSplits(rows, oldest);
    }
  }

  lemma RetainedSplits(rows: seq<Row>, oldest: int)
    requires rows != []
    ensures var before, last := Retained(rows[..|rows| - 1], oldest), rows[|rows| - 1];
            if last.createdAt >= oldest
            then Retained(rows, oldest) == before + [last] && Retained(rows, oldest)[..|before|] == before
            else Retained(rows, oldest) == before
  {
  }

  lemma {:induction false} RetainedRows(rows: seq<Row>, oldest: int)
    ensures forall row :: row in Retained(rows, oldest) ==> row in rows
  {
    if rows != [] {
      RetainedRows(rows[..|rows| - 1], oldest);
      RetainedSplits(rows, oldest);
    }
  }

  lemma {:induction false} RetainedIds(rows: seq<Row>, oldest: int)
    requires DistinctIds(rows)
    ensures DistinctIds(Retained(rows, oldest))
  {
    if rows != [] {
      var before := rows[..|rows| - 1];
      RetainedIds(before, oldest);
      RetainedRows(before, oldest);
      RetainedSplits(rows, oldest);
      forall row | row in Retained(before, oldest) ensures row.id != rows[|rows| - 1].id {
        var i :| 0 <= i < |before| && before[i] == row;
      }
    }
  }

  lemma {:induction false} RetainedRecent(rows: seq<Row>, oldest: int, key: Key, low: int, high: int)
    requires low >= oldest
    ensures Count(Retained(rows, oldest), key, low, high) == Count(rows, key, low, high)
  {
    if rows != [] {
      RetainedRecent(rows[..|rows| - 1], oldest, key, low, high);
      RetainedSplits(rows, oldest);
    }
  }

  /** A cleanup does not loosen the rate limit. */
  lemma {:induction false} CleaningKeepsLimit(rows: seq<Row>, now: int, p: Party)
    ensures RecentCount(Retained(rows, now - RETENTION_SECONDS), now, p) == RecentCount(rows, now, p)
  {
    if rows != [] {
      var kept := Retained(rows[..|rows| - 1], now - RETENTION_SECONDS);
      CleaningKeepsLimit(rows[..|rows| - 1], now, p);
      RetainedSplits(rows, now - RETENTION_SECONDS);
      assert rows[|rows| - 1].createdAt < now - RETENTION_SECONDS ==> !Recent(rows[|rows| - 1], now, p);
      hide Recent, Retained;
    }
  }

  lemma {:induction false} RecentCountsAll(rows: seq<Row>, now: int, p: Party, key: Key, high: int)
    requires Concerns(p, key)
    ensures Count(rows, key, now - OTP_TTL_SECONDS, high) <= RecentCount(rows, now, p)
  {
    if rows != [] {
      RecentCountsAll(rows[..|rows| - 1], now, p, key, high);
    }
  }

  lemma {:induction false} CountSplits(rows: seq<Row>, key: Key, low: int, middle: int, high: int)
    requires low <= middle <= high
    ensures Count(rows, key, low, high) == Count(rows, key, low, middle) + Count(rows, key, middle, high)
  {
    if rows != [] {
      CountSplits(rows[..|rows| - 1], key, low, middle, high);
    }
  }

  lemma {:induction false} AttemptsBounded(rows: seq<Row>, key: Key, low: int, high: int)
    requires forall i :: 0 <= i < |rows| ==> rows[i].attempts <= MAX_ATTEMPTS && rows[i].createdAt <= high
    ensures Attempts(rows, key, low) <= MAX_ATTEMPTS * Count(rows, key, low, high)
  {
    if rows != [] {
      AttemptsBounded(rows[..|rows| - 1], key, low, high);
    }
  }

  /******* Invariant *******/

  ghost predicate RowOk(row: Row, now: int) {
    && row.createdAt <= now && row.expiresAt == row.createdAt + OTP_TTL_SECONDS
    && row.attempts <= MAX_ATTEMPTS
    && (row.verifiedAt.Some? ==> row.attempts >= 1 && row.createdAt <= row.verifiedAt.value < row.expiresAt)
  }

  /** The unexpired rows of a key, which are those created less than ten minutes ago. */
  function OpenCount(w: World, key: Key): nat {
    Count(w.rows, key, w.now - OTP_TTL_SECONDS, w.now)
  }

  /** The requests for a key that are about to insert. */
  function Counted(w: World, key: Key): set<nat> {
    set request | request in w.counted && Concerns(w.counted[request], key)
  }

  ghost predicate RowsOk(w: World) {
    && (forall i :: 0 <= i < |w.rows| ==> RowOk(w.rows[i], w.now))
    && DistinctIds(w.rows) && forall i :: 0 <= i < |w.rows| ==> w.rows[i].id < w.nextId
  }

  /**
   With at most `overlap` requests between count and insertion: what is open and what is about to be inserted
   for one key exceeds the limit by less than that many.
   */
  ghost predicate Limited(w: World, overlap: nat) {
    && |w.counted| <= overlap
    && forall key :: OpenCount(w, key) + |Counted(w, key)| < CHALLENGE_LIMIT + overlap
  }

  ghost predicate Invariant(w: World, overlap: nat) {
    RowsOk(w) && Limited(w, overlap)
  }

  predicate DistinctIds(rows: seq<Row>) {
    forall i, j :: 0 <= i < j < |rows| ==> rows[i].id != rows[j].id
  }

  lemma {:induction false} CountOfCreated(rows: seq<Row>, key: Key, low: int, high: int, now: int)
    requires forall i :: 0 <= i < |rows| ==> rows[i].createdAt <= high
    requires high <= now
    ensures Count(rows, key, low, now) == Count(rows, key, low, high)
  {
    if rows != [] {
      CountOfCreated(rows[..|rows| - 1], key, low, high, now);
    }
  }

  /** As time passes, challenges expire and none opens. */
  lemma OpenLater(w: World, seconds: nat, key: Key)
    requires RowsOk(w)
    ensures OpenCount(w.(now := w.now + seconds), key) <= OpenCount(w, key)
  {
    var now := w.now + seconds;
    assert forall i :: 0 <= i < |w.rows| ==> RowOk(w.rows[i], w.now);
    CountOfCreated(w.rows, key, now - OTP_TTL_SECONDS, w.now, now);
    if now - OTP_TTL_SECONDS <= w.now {
      CountSplits(w.rows, key, w.now - OTP_TTL_SECONDS, now - OTP_TTL_SECONDS, w.now);
    } else {
      CountNothing(w.rows, key, now - OTP_TTL_SECONDS, w.now);
    }
  }

  lemma {:induction false} CountNothing(rows: seq<Row>, key: Key, low: int, high: int)
    requires high <= low
    ensures Count(rows, key, low, high) == 0
  {
    if rows != [] {
      CountNothing(rows[..|rows| - 1], key, low, high);
    }
  }

  lemma RowsStayOk(s: Settings, w: World, l: Label)
    requires RowsOk(w)
    ensures RowsOk(Apply(s, w, l)) && w.now <= Apply(s, w, l).now
  {
    if l.Verify? && Compared(w, l.wallet).Some? {
      assert RowOk(w.rows[Compared(w, l.wallet).value], w.now);
    }
    if l.Clean? {
      var rows := Retained(w.rows, w.now - RETENTION_SECONDS);
      RetainedRows(w.rows, w.now - RETENTION_SECONDS);
      RetainedIds(w.rows, w.now - RETENTION_SECONDS);
      forall i | 0 <= i < |rows| ensures RowOk(rows[i], w.now) && rows[i].id < w.nextId {
        assert rows[i] in w.rows;
      }
    }
  }

  /** No step but an insertion opens a challenge. */
  lemma OpenStep(s: Settings, w: World, l: Label, key: Key)
    requires RowsOk(w) && !l.Insert?
    ensures OpenCount(Apply(s, w, l), key) <= OpenCount(w, key)
  {
    match l {
      case Pass(seconds) => OpenLater(w, seconds, key);
      case Verify(wallet, _) =>
        if Compared(w, wallet).Some? {
          var i := Compared(w, wallet).value;
          CountUpdated(w.rows, i, Apply(s, w, l).rows[i], key, w.now - OTP_TTL_SECONDS, w.now);
        }
      case Clean => RetainedCounts(w.rows, w.now - RETENTION_SECONDS, key, w.now - OTP_TTL_SECONDS, w.now);
      case _ =>
    }
  }

  lemma SmallerSet(a: set<nat>, b: set<nat>)
    requires a <= b
    ensures |a| <= |b|
  {
    assert a + (b - a) == b;
  }

  lemma CountedIsSmall(w: World, key: Key)
    ensures |Counted(w, key)| <= |w.counted|
  {
    SmallerSet(Counted(w, key), w.counted.Keys);
  }

  /** A request passes the count only below the limit. */
  lemma AskKeeps(s: Settings, w: World, l: Label, overlap: nat, key: Key)
    requires Invariant(w, overlap) && l.Ask? && |Apply(s, w, l).counted| <= overlap
    ensures var v := Apply(s, w, l); OpenCount(v, key) + |Counted(v, key)| < CHALLENGE_LIMIT + overlap
  {
    var v := Apply(s, w, l);
    assert OpenCount(w, key) + |Counted(w, key)| < CHALLENGE_LIMIT + overlap;
    if v != w {
      if Concerns(l.party, key) {
        RecentCountsAll(w.rows, w.now, l.party, key, w.now);
        CountedIsSmall(v, key);
      } else {
        assert Counted(v, key) == Counted(w, key);
      }
    }
  }

  /** An insertion trades a counted request for an open challenge. */
  lemma InsertKeeps(s: Settings, w: World, l: Label, key: Key)
    requires l.Insert? && l.request in w.counted
    ensures var v := Apply(s, w, l);
            OpenCount(v, key) + |Counted(v, key)| == OpenCount(w, key) + |Counted(w, key)|
  {
    var v := Apply(s, w, l);
    InsertIsCounted(s, w, l.request, l.code, key, w.now - OTP_TTL_SECONDS);
    hide Count, NewRow;
    assert Counted(v, key) == Counted(w, key) - {l.request};
  }

  lemma InsertIsCounted(s: Settings, w: World, request: nat, code: string, key: Key, low: int)
    requires request in w.counted
    ensures var one := if Concerns(w.counted[request], key) && w.now > low then 1 else 0;
            Count(Inserted(s, w, request, code).rows, key, low, w.now) == Count(w.rows, key, low, w.now) + one
  {
    var v := Inserted(s, w, request, code);
    assert v.rows[..|v.rows| - 1] == w.rows;
  }

  lemma FewerCounted(w: World, v: World, key: Key)
    requires v.counted.Keys <= w.counted.Keys && forall r :: r in v.counted ==> v.counted[r] == w.counted[r]
    ensures |Counted(v, key)| <= |Counted(w, key)| && |v.counted| <= |w.counted|
  {
    SmallerSet(Counted(v, key), Counted(w, key));
    SmallerSet(v.counted.Keys, w.counted.Keys);
  }

  lemma StepKeeps(s: Settings, w: World, l: Label, overlap: nat)
    requires Invariant(w, overlap) && |Apply(s, w, l).counted| <= overlap
    ensures Invariant(Apply(s, w, l), overlap)
  {
    RowsStayOk(s, w, l);
    hide RowsOk, OpenCount, Counted, Allowed, Compared, NewRow, Concerns;
    var v := Apply(s, w, l);
    forall key ensures OpenCount(v, key) + |Counted(v, key)| < CHALLENGE_LIMIT + overlap {
      assert OpenCount(w, key) + |Counted(w, key)| < CHALLENGE_LIMIT + overlap;
      if l.Ask? {
        AskKeeps(s, w, l, overlap, key);
      } else if l.Insert? {
        if l.request in w.counted {
          InsertKeeps(s, w, l, key);
        }
      } else {
        OpenStep(s, w, l, key);
        FewerCounted(w, v, key);
      }
    }
  }

  ghost function State(s: Settings, w: World, labels: seq<Label>, n: nat): World
    requires n <= |labels|
  {
    After(s, w, labels[..n])
  }

  /** Never more than `overlap` requests stand between count and insertion. */
  ghost predicate OverlapWithin(s: Settings, w: World, labels: seq<Label>, overlap: nat) {
    forall n: nat :: n <= |labels| ==> |State(s, w, labels, n).counted| <= overlap
  }

  lemma PrefixOverlaps(s: Settings, w: World, labels: seq<Label>, n: nat, overlap: nat)
    requires OverlapWithin(s, w, labels, overlap) && n <= |labels|
    ensures OverlapWithin(s, w, labels[..n], overlap) && |After(s, w, labels).counted| <= overlap
  {
    hide After;
    assert labels[..|labels|] == labels;
    assert State(s, w, labels, |labels|) == After(s, w, labels);
    forall m: nat | m <= n ensures |State(s, w, labels[..n], m).counted| <= overlap {
      assert labels[..n][..m] == labels[..m];
      assert State(s, w, labels[..n], m) == State(s, w, labels, m);
    }
  }

  ghost predicate Initial(w: World) {
    w.rows == [] && w.counted == map[]
  }

  lemma InitialIsSound(w: World, overlap: nat)
    requires Initial(w)
    ensures Invariant(w, overlap)
  {
    forall key ensures OpenCount(w, key) + |Counted(w, key)| == 0 {
      assert Counted(w, key) == {};
    }
  }

  /**
   At every instant of every run with at most `overlap` requests between count and insertion, each wallet,
   email address and client has less than `overlap` unexpired challenges above the limit of three; none was
   compared more than five times, and none was verified at or after its expiry.
   */
  lemma {:induction false} RunKeeps(s: Settings, w: World, labels: seq<Label>, overlap: nat)
    requires Invariant(w, overlap) && OverlapWithin(s, w, labels, overlap)
    ensures Invariant(After(s, w, labels), overlap) && w.now <= After(s, w, labels).now
    decreases |labels|
  {
    if labels != [] {
      var before, last := labels[..|labels| - 1], labels[|labels| - 1];
      PrefixOverlaps(s, w, labels, |labels| - 1, overlap);
      hide Apply, Invariant, OverlapWithin;
      RunKeeps(s, w, before, overlap);
      TimePasses(s, After(s, w, before), last);
      StepKeeps(s, After(s, w, before), last, overlap);
    }
  }

  lemma TimePasses(s: Settings, w: World, l: Label)
    ensures w.now <= Apply(s, w, l).now
  {
  }

  /** Whatever overlaps, the rows stay sound. */
  lemma {:induction false} RowsKeep(s: Settings, w: World, labels: seq<Label>)
    requires RowsOk(w)
    ensures RowsOk(After(s, w, labels)) && w.now <= After(s, w, labels).now
    decreases |labels|
  {
    if labels != [] {
      hide Apply, RowsOk;
      RowsKeep(s, w, labels[..|labels| - 1]);
      RowsStayOk(s, After(s, w, labels[..|labels| - 1]), labels[|labels| - 1]);
    }
  }

  /******* The service *******/

  predicate SixDigits(code: string) {
    |code| == 6 && forall i :: 0 <= i < |code| ==> '0' <= code[i] <= '9'
  }

  /** The step belongs to this request. */
  predicate OfRequest(l: Label, request: nat) {
    (l.Ask? || l.Insert? || l.GiveUp?) && l.request == request
  }

  /** What others do leaves a request that has passed the count where it was. */
  lemma OthersKeepRequest(s: Settings, w: World, l: Label, request: nat)
    requires !OfRequest(l, request)
    ensures var v := Apply(s, w, l);
            && (request in v.counted <==> request in w.counted)
            && (request in w.counted ==> v.counted[request] == w.counted[request])
  {
  }

  class EmailService {
    const s: Settings
    /** The requests of this process have this number. */
    const request: nat
    var w: World
    ghost const start: World
    ghost var log: seq<Label>

    ghost predicate Valid()
      reads this
    {
      After(s, start, log) == w
    }

    constructor (s: Settings, request: nat, start: World)
      ensures Valid() && this.s == s && this.request == request && this.start == start && w == start && log == []
    {
      this.s, this.request, this.start, w, log := s, request, start, start, [];
    }

    /** Others moved; this request did not. */
    twostate predicate Quiet()
      reads this
    {
      && old(log) <= log && old(w).now <= w.now
      && (forall n :: |old(log)| <= n < |log| ==> !OfRequest(log[n], request))
      && (request in w.counted <==> request in old(w).counted)
      && (request in w.counted ==> w.counted[request] == old(w).counted[request])
    }

    method Interfere()
      requires Valid()
      modifies this
      ensures Valid() && Quiet()
    {
      hide Apply;
      var steps: int := *;
      while steps > 0
        invariant Valid() && Quiet()
      {
        steps := steps - 1;
        var l := AnyLabel();
        if !OfRequest(l, request) {
          OthersKeepRequest(s, w, l, request);
          TimePasses(s, w, l);
          Record(l, Apply(s, w, l));
        }
      }
    }

    /** The new state is what the step makes of the old one. */
    method Record(l: Label, next: World)
      requires Valid() && next == Apply(s, w, l)
      modifies this
      ensures Valid() && w == next && log == old(log) + [l]
    {
      assert (log + [l])[..|log|] == log;
      w := next;
      log := log + [l];
    }

    method AnyLabel() returns (l: Label)
    {
      var kind: int, n: nat, wallet: string, code: string := *, *, *, *;
      var emailHash: Bytes, ipHash: Bytes := *, *;
      l := if kind == 0 then Pass(n)
           else if kind == 1 then Ask(n, Party(wallet, emailHash, ipHash))
           else if kind == 2 then Insert(n, code)
           else if kind == 3 then GiveUp(n)
           else if kind == 4 then Verify(wallet, code)
           else Clean;
    }

    /**
     Counts, and then inserts whatever has happened since.  The six-digit code is sent by mail only if this
     succeeds.
     */
    method ChallengeEmail(walletAddress: string, emailHash: Bytes, ipHash: Bytes, code: string)
      returns (r: Result<(), Failure>)
      requires Valid() && request !in w.counted
      modifies this
      ensures Valid() && request !in w.counted
      ensures r.Err? <==> !Allowed(old(w), Party(Lower(walletAddress), emailHash, ipHash))
      ensures r.Err? ==> r.error == RateLimited && w == old(w) && log == old(log)
      ensures r.Ok? ==>
                && |log| >= |old(log)| + 2 && old(log) <= log
                && log[|old(log)|] == Ask(request, Party(Lower(walletAddress), emailHash, ipHash))
                && (forall n :: |old(log)| < n < |log| - 1 ==> !OfRequest(log[n], request))
                && log[|log| - 1] == Insert(request, code)
      ensures r.Ok? ==>
                && |w.rows| > 0
                && var row := w.rows[|w.rows| - 1];
                && row.wallet == Lower(walletAddress) && row.emailHash == emailHash && row.ipHash == ipHash
                && row.codeHash == s.hmac(row.wallet, code) && row.attempts == 0 && row.verifiedAt.None?
                && row.createdAt == w.now && row.expiresAt == w.now + OTP_TTL_SECONDS
    {
      var party := Party(Lower(walletAddress), emailHash, ipHash);
      var recentCount := RecentCount(w.rows, w.now, party);
      if recentCount >= CHALLENGE_LIMIT {
        return Err(RateLimited);
      }
      Record(Ask(request, party), w.(counted := w.counted[request := party]));
      Interfere();
      var expiresAt := w.now + OTP_TTL_SECONDS;
      var codeHash := s.hmac(party.wallet, code);
      var row := Row(w.nextId, party.wallet, emailHash, ipHash, codeHash, w.now, expiresAt, 0, None);
      var rows := w.rows + [row];
      Record(Insert(request, code), w.(rows := rows, nextId := w.nextId + 1, counted := w.counted - {request}));
      return Ok(());
    }

    /**
     Counts the attempt before comparing, and verifies the newest open challenge if the code is right.  The
     transaction locks the row it reads.
     */
    method VerifyCode(walletAddress: string, code: string) returns (r: Result<(), Failure>)
      requires Valid()
      modifies this
      ensures Valid()
      ensures w == if SixDigits(code) then Apply(s, old(w), Verify(Lower(walletAddress), code)) else old(w)
      ensures log == if SixDigits(code) then old(log) + [Verify(Lower(walletAddress), code)] else old(log)
      ensures r.Ok? ==> exists i :: 0 <= i < |w.rows| && |old(w).rows| == |w.rows| && old(w).rows[i].verifiedAt.None?
                                    && w.rows[i].wallet == Lower(walletAddress) && w.rows[i].verifiedAt == Some(w.now)
                                    && w.rows[i].codeHash == s.hmac(Lower(walletAddress), code)
                                    && w.now < w.rows[i].expiresAt
      ensures r == Err(CodeExpired) ==> w == old(w)
    {
      if !SixDigits(code) {
        return Err(CodeInvalid);
      }
      var wallet := Lower(walletAddress);
      var current := Current(w.rows, wallet);
      if current.None? || w.rows[current.value].attempts >= MAX_ATTEMPTS || w.rows[current.value].expiresAt <= w.now {
        Record(Verify(wallet, code), w);
        return Err(CodeExpired);
      }
      var i := current.value;
      var row := w.rows[i];
      var attempted := w.rows[i := row.(attempts := row.attempts + 1)];
      if row.codeHash != s.hmac(wallet, code) {
        assert row.verifiedAt.None?;
        Record(Verify(wallet, code), w.(rows := attempted));
        return Err(CodeInvalid);
      }
      var verified := attempted[i := attempted[i].(verifiedAt := Some(w.now))];
      assert verified == w.rows[i := row.(attempts := row.attempts + 1, verifiedAt := Some(w.now))];
      Record(Verify(wallet, code), w.(rows := verified));
      assert w.rows[i].verifiedAt == Some(w.now);
      return Ok(());
    }
  }
}
