/**
 The `notifications` and `webhook_events` tables under overlapping, stalling and crashing postmen
 (backend/src/Operations/ChristmasPostman.php), provider webhooks (backend/src/Email/ResendWebhookService.php)
 and cleanup.  Every SQL statement is one step; times are in seconds of the database clock.
 */
module Notifications {
  import opened Wrappers

  const LEASE_SECONDS := 900
  const MAX_BACKOFF_SECONDS := 3_600
  const FRESHNESS_SECONDS := 300
  const EVENT_RETENTION_SECONDS := 90 * 86_400

  datatype Status = Pending | Claimed | Failed | Sent | Delivered

  datatype Row = Row(
    letterCount: nat,
    status: Status,
    attemptCount: nat,
    claimedAt: Option<int>,
    nextRetryAt: Option<int>,
    messageId: Option<string>,
    sentAt: Option<int>,
    deliveredAt: Option<int>,
    failedAt: Option<int>)

  datatype Kind = EmailDelivered | EmailBounced | EmailFailed | EmailSent | OtherKind

  /** `signed` is whether the signature verifies; a payload without a message id has none. */
  datatype Delivery = Delivery(eventId: string, timestamp: int, signed: bool, kind: Kind, messageId: Option<string>)

  /** What a worker holds from a successful claim to its final update. */
  datatype Hold = Hold(wallet: string, since: int, asked: bool)

  datatype World = World(now: int, rows: map<string, Row>, holds: map<nat, Hold>, events: map<string, int>)

  /******* The statements *******/

  function Coalesce(value: Option<int>, now: int): (r: Option<int>)
    ensures r.Some? && (value.Some? ==> r == value)
  {
    if value.Some? then value else Some(now)
  }

  function InsertIgnore(rows: map<string, Row>, wallet: string, count: nat): map<string, Row> {
    if wallet in rows then rows else rows[wallet := Row(count, Pending, 0, None, None, None, None, None, None)]
  }

  predicate Claimable(row: Row, now: int) {
    match row.status
    case Pending => true
    case Failed => RetryIsDue(row, now)
    case Claimed => row.claimedAt.Some? && row.claimedAt.value < now - LEASE_SECONDS
    case _ => false
  }

  predicate RetryIsDue(row: Row, now: int) {
    row.nextRetryAt.None? || row.nextRetryAt.value <= now
  }

  function ClaimRow(row: Row, count: nat, now: int): Row {
    row.(status := Claimed, claimedAt := Some(now), letterCount := count)
  }

  function SentRow(row: Row, messageId: string, now: int): Row {
    if row.status == Claimed then row.(status := Sent, messageId := Some(messageId), sentAt := Some(now),
        nextRetryAt := None)
    else row
  }

  function Pow2(n: nat): nat {
    if n == 0 then 1 else 2 * Pow2(n - 1)
  }

  /** The delay set by the failure that leaves `attempts`. */
  function Backoff(attempts: nat): (seconds: nat)
    ensures seconds <= MAX_BACKOFF_SECONDS
  {
    if Pow2(attempts + 1) * 60 < MAX_BACKOFF_SECONDS then Pow2(attempts + 1) * 60 else MAX_BACKOFF_SECONDS
  }

  /** The SET list is evaluated from left to right, so the delay sees the count already incremented. */
  function FailedRow(row: Row, now: int): Row {
    if row.status == Claimed
    then
      var counted := row.(status := Failed, attemptCount := row.attemptCount + 1, failedAt := Some(now));
      counted.(nextRetryAt := Some(now + Backoff(counted.attemptCount)))
    else row
  }

  function WebhookRow(row: Row, d: Delivery, now: int): Row {
    if d.messageId.None? || row.messageId != d.messageId then row
    else
      match d.kind
      case EmailDelivered => row.(status := Delivered, deliveredAt := Coalesce(row.deliveredAt, now))
      case EmailBounced => row.(status := Failed, failedAt := Coalesce(row.failedAt, now))
      case EmailFailed => row.(status := Failed, failedAt := Coalesce(row.failedAt, now))
      case EmailSent =>
        if row.status == Delivered || row.status == Failed then row
        else row.(status := Sent, sentAt := Coalesce(row.sentAt, now))
      case OtherKind => row
  }

  function WebhookRows(rows: map<string, Row>, d: Delivery, now: int): map<string, Row> {
    map wallet | wallet in rows :: WebhookRow(rows[wallet], d, now)
  }

  predicate Accepted(w: World, d: Delivery) {
    d.signed && -FRESHNESS_SECONDS <= w.now - d.timestamp <= FRESHNESS_SECONDS
  }

  /******* Steps *******/

  datatype Label =
    | Pass(seconds: nat)
    | Insert(wallet: string, count: nat)
    | Claim(worker: nat, wallet: string, count: nat)
    | Ask(worker: nat)
    | MarkSent(worker: nat, messageId: string)
    | MarkFailed(worker: nat)
    | Deliver(delivery: Delivery)
    | Purge

  predicate Enabled(w: World, l: Label) {
    match l
    case Claim(worker, wallet, _) => worker !in w.holds && wallet in w.rows && Claimable(w.rows[wallet], w.now)
    case Ask(worker) => worker in w.holds && !w.holds[worker].asked
    case MarkSent(worker, _) => worker in w.holds && w.holds[worker].wallet in w.rows
    case MarkFailed(worker) => worker in w.holds && w.holds[worker].wallet in w.rows
    case _ => true
  }

  function WithRow(w: World, wallet: string, row: Row): World {
    w.(rows := w.rows[wallet := row])
  }

  function Apply(w: World, l: Label): World
    requires Enabled(w, l)
  {
    match l
    case Pass(seconds) => w.(now := w.now + seconds)
    case Insert(wallet, count) => w.(rows := InsertIgnore(w.rows, wallet, count))
    case Claim(worker, wallet, count) =>
      WithRow(w, wallet, ClaimRow(w.rows[wallet], count, w.now)).(holds :=
          w.holds[worker := Hold(wallet, w.now, false)])
    case Ask(worker) => w.(holds := w.holds[worker := w.holds[worker].(asked := true)])
    case MarkSent(worker, messageId) =>
      var wallet := w.holds[worker].wallet;
      WithRow(w, wallet, SentRow(w.rows[wallet], messageId, w.now)).(holds := w.holds - {worker})
    case MarkFailed(worker) =>
      var wallet := w.holds[worker].wallet;
      WithRow(w, wallet, FailedRow(w.rows[wallet], w.now)).(holds := w.holds - {worker})
    case Deliver(d) =>
      if Accepted(w, d) && d.eventId !in w.events
      then w.(events := w.events[d.eventId := w.now], rows := WebhookRows(w.rows, d, w.now))
      else w
    case Purge => w.(events := map e | e in w.events && w.events[e] >= w.now - EVENT_RETENTION_SECONDS :: w.events[e])
  }

  ghost predicate Runs(w: World, labels: seq<Label>)
    decreases |labels|, 0
  {
    labels == [] || (Runs(w, labels[..|labels| - 1]) && Enabled(After(w, labels[..|labels| - 1]), labels[|labels| - 1]))
  }

  ghost function After(w: World, labels: seq<Label>): World
    requires Runs(w, labels)
    decreases |labels|, 1
  {
    if labels == [] then w else Apply(After(w, labels[..|labels| - 1]), labels[|labels| - 1])
  }

  lemma Take(w: World, labels: seq<Label>, l: Label)
    requires Runs(w, labels) && Enabled(After(w, labels), l)
    ensures Runs(w, labels + [l]) && After(w, labels + [l]) == Apply(After(w, labels), l)
  {
    hide Enabled, Apply;
    assert (labels + [l])[..|labels|] == labels;
  }

  /******* Invariant *******/

  ghost predicate RowOk(row: Row, now: int) {
    && (row.status == Sent || row.status == Delivered ==> row.messageId.Some?)
    && (row.status == Claimed ==> row.claimedAt.Some? && row.claimedAt.value <= now)
    && (row.status == Pending ==>
        row.attemptCount == 0 && row.claimedAt.None? && row.nextRetryAt.None? && row.messageId.None?)
    && (row.status == Claimed || row.status == Sent ==> RetryIsDue(row, now))
  }

  /** A row is unique per wallet, a sent or delivered one knows its message, and every hold has a row. */
  ghost predicate Invariant(w: World) {
    && (forall wallet :: wallet in w.rows ==> RowOk(w.rows[wallet], w.now))
    && (forall u :: u in w.holds ==> w.holds[u].wallet in w.rows && w.holds[u].since <= w.now)
    && (forall e :: e in w.events ==> w.events[e] <= w.now)
  }

  ghost predicate Initial(w: World) {
    w.rows == map[] && w.holds == map[] && w.events == map[]
  }

  lemma StepKeeps(w: World, l: Label)
    requires Invariant(w) && Enabled(w, l)
    ensures Invariant(Apply(w, l)) && w.now <= Apply(w, l).now && w.rows.Keys <= Apply(w, l).rows.Keys
  {
    var v := Apply(w, l);
    forall wallet | wallet in v.rows ensures RowOk(v.rows[wallet], v.now) {
      if wallet in w.rows {
        assert RowOk(w.rows[wallet], w.now);
      }
    }
  }

  /** In every run a row that is sent or delivered carries the id of its message. */
  lemma {:induction false} RunKeeps(w: World, labels: seq<Label>)
    requires Invariant(w) && Runs(w, labels)
    ensures Invariant(After(w, labels)) && w.now <= After(w, labels).now && w.rows.Keys <= After(w, labels).rows.Keys
    ensures forall wallet :: wallet in After(w, labels).rows ==>
              (After(w, labels).rows[wallet].status in {Sent, Delivered} ==>
                  After(w, labels).rows[wallet].messageId.Some?)
    decreases |labels|
  {
    if labels != [] {
      hide Enabled, Apply, RowOk;
      var before := labels[..|labels| - 1];
      RunKeeps(w, before);
      StepKeeps(After(w, before), labels[|labels| - 1]);
      MessageKnown(After(w, labels));
    } else {
      MessageKnown(w);
    }
  }

  lemma MessageKnown(w: World)
    requires Invariant(w)
    ensures forall wallet :: wallet in w.rows ==>
        (w.rows[wallet].status in {Sent, Delivered} ==> w.rows[wallet].messageId.Some?)
  {
  }

  ghost function State(w: World, labels: seq<Label>, n: nat): World
    requires n <= |labels| && Runs(w, labels[..n])
  {
    After(w, labels[..n])
  }

  lemma {:induction false} PrefixRuns(w: World, labels: seq<Label>, n: nat)
    requires Runs(w, labels) && n <= |labels|
    ensures Runs(w, labels[..n])
    decreases |labels|
  {
    hide Enabled, Apply;
    if n == |labels| {
      assert labels[..n] == labels;
    } else {
      PrefixRuns(w, labels[..|labels| - 1], n);
      assert labels[..|labels| - 1][..n] == labels[..n];
    }
  }

  lemma StepOfRun(w: World, labels: seq<Label>, n: nat)
    requires Runs(w, labels) && n < |labels|
    ensures Runs(w, labels[..n]) && Runs(w, labels[..n + 1])
    ensures Enabled(State(w, labels, n), labels[n])
    ensures State(w, labels, n + 1) == Apply(State(w, labels, n), labels[n])
  {
    PrefixRuns(w, labels, n);
    PrefixRuns(w, labels, n + 1);
    hide Enabled, Apply;
    assert labels[..n + 1][..n] == labels[..n];
  }

  lemma InitialIsSound(w: World)
    requires Initial(w)
    ensures Invariant(w)
  {
  }

  lemma ReachableIsSound(w: World, labels: seq<Label>, n: nat)
    requires Initial(w) && Runs(w, labels) && n <= |labels|
    ensures Runs(w, labels[..n]) && Invariant(State(w, labels, n))
  {
    hide Runs, Invariant;
    PrefixRuns(w, labels, n);
    InitialIsSound(w);
    RunKeeps(w, labels[..n]);
  }

  /******* Leases *******/

  predicate Claims(l: Label, wallet: string) {
    l.Claim? && l.wallet == wallet
  }

  /** The step turns the wallet's row into a failed one. */
  predicate Fails(w: World, l: Label, wallet: string)
    requires Enabled(w, l)
  {
    wallet in w.rows && w.rows[wallet].status != Failed && Apply(w, l).rows[wallet].status == Failed
  }

  /** After a claim at `since`, until a failure or another claim: still claimed since then, or settled. */
  predicate HeldSince(row: Row, since: int) {
    (row.status == Claimed && row.claimedAt == Some(since)) || row.status == Sent || row.status == Delivered
  }

  lemma HeldOnceClaimed(w: World, l: Label, wallet: string)
    requires Enabled(w, l) && Claims(l, wallet)
    ensures wallet in Apply(w, l).rows && HeldSince(Apply(w, l).rows[wallet], w.now)
  {
  }

  lemma HeldStays(w: World, l: Label, wallet: string, since: int)
    requires Enabled(w, l) && wallet in w.rows && HeldSince(w.rows[wallet], since)
    requires !Claims(l, wallet) && !Fails(w, l, wallet)
    ensures wallet in Apply(w, l).rows && HeldSince(Apply(w, l).rows[wallet], since)
  {
  }

  ghost predicate NoClaimNorFailure(w: World, labels: seq<Label>, wallet: string, i: nat, j: nat) {
    forall k: nat :: i <= k < j <= |labels| ==>
      !Claims(labels[k], wallet) && Runs(w, labels[..k]) && Enabled(State(w, labels, k), labels[k])
          && !Fails(State(w, labels, k), labels[k], wallet)
  }

  lemma {:induction false} HeldUntil(w: World, labels: seq<Label>, wallet: string, i: nat, j: nat)
    requires Initial(w) && Runs(w, labels) && i < j <= |labels| && Claims(labels[i], wallet)
    requires NoClaimNorFailure(w, labels, wallet, i + 1, j)
    ensures Runs(w, labels[..i]) && Runs(w, labels[..j])
    ensures wallet in State(w, labels, j).rows && HeldSince(State(w, labels, j).rows[wallet], State(w, labels, i).now)
    decreases j
  {
    hide Runs, Enabled, Apply, HeldSince;
    StepOfRun(w, labels, i);
    StepOfRun(w, labels, j - 1);
    if i + 1 == j {
      HeldOnceClaimed(State(w, labels, i), labels[i], wallet);
    } else {
      HeldUntil(w, labels, wallet, i, j - 1);
      HeldStays(State(w, labels, j - 1), labels[j - 1], wallet, State(w, labels, i).now);
    }
  }

  /**
   Lease safety: between two claims of one wallet, by whichever workers, its row failed, or more than 15
   minutes passed since the first of them.
   */
  lemma ClaimsAreSeparated(w: World, labels: seq<Label>, wallet: string, i: nat, j: nat)
    requires Initial(w) && Runs(w, labels) && i < j < |labels|
    requires Claims(labels[i], wallet) && Claims(labels[j], wallet)
    requires NoClaimNorFailure(w, labels, wallet, i + 1, j)
    ensures Runs(w, labels[..i]) && Runs(w, labels[..j])
    ensures State(w, labels, j).now > State(w, labels, i).now + LEASE_SECONDS
  {
    HeldUntil(w, labels, wallet, i, j);
    StepOfRun(w, labels, j);
  }

  /******* Counting claims *******/

  ghost function ClaimCount(labels: seq<Label>, wallet: string): nat {
    if labels == [] then 0
    else ClaimCount(labels[..|labels| - 1], wallet) + if Claims(labels[|labels| - 1], wallet) then 1 else 0
  }

  ghost function FailureCount(w: World, labels: seq<Label>, wallet: string): nat
    requires Runs(w, labels)
  {
    if labels == [] then 0
    else
      var before := labels[..|labels| - 1];
      FailureCount(w, before, wallet) + if Fails(After(w, before), labels[|labels| - 1], wallet) then 1 else 0
  }

  /** How many times a provider was asked to write to this wallet. */
  ghost function AskCount(w: World, labels: seq<Label>, wallet: string): nat
    requires Runs(w, labels)
  {
    if labels == [] then 0
    else
      var before, last := labels[..|labels| - 1], labels[|labels| - 1];
      AskCount(w, before, wallet) + if last.Ask? && After(w, before).holds[last.worker].wallet == wallet then 1 else 0
  }

  /**
   Every claim but the first is paid for by a failure, or by 15 minutes: at the last claim those are the
   failures before it, and a row that failed since then has one more to pay with.
   */
  ghost predicate PaidFor(w: World, v: World, wallet: string, claims: nat, failures: nat) {
    if wallet !in v.rows || v.rows[wallet].claimedAt.None? then claims == 0
    else
      var paid: int := LEASE_SECONDS * (claims - 1 - failures + if v.rows[wallet].status == Failed then 1 else 0);
      claims >= 1 && paid <= v.rows[wallet].claimedAt.value - w.now && v.rows[wallet].claimedAt.value <= v.now
  }

  lemma PaidForStep(w: World, v: World, l: Label, wallet: string, claims: nat, failures: nat)
    requires Invariant(v) && Enabled(v, l) && w.now <= v.now
    requires PaidFor(w, v, wallet, claims, failures)
    ensures PaidFor(w, Apply(v, l), wallet, claims + (if Claims(l, wallet) then 1 else 0), failures
        + (if Fails(v, l, wallet) then 1 else 0))
  {
    if wallet in v.rows {
      assert RowOk(v.rows[wallet], v.now);
    }
  }

  lemma {:induction false} ClaimsArePaidFor(w: World, labels: seq<Label>, wallet: string)
    requires Initial(w) && Runs(w, labels)
    ensures PaidFor(w, After(w, labels), wallet, ClaimCount(labels, wallet), FailureCount(w, labels, wallet))
    decreases |labels|
  {
    hide Enabled, Apply, PaidFor, Fails, Invariant;
    InitialIsSound(w);
    if labels == [] {
      NothingToPay(w, wallet);
    } else {
      var before := labels[..|labels| - 1];
      RunKeeps(w, before);
      ClaimsArePaidFor(w, before, wallet);
      PaidForStep(w, After(w, before), labels[|labels| - 1], wallet, ClaimCount(before, wallet),
          FailureCount(w, before, wallet));
    }
  }

  lemma NothingToPay(w: World, wallet: string)
    requires Initial(w)
    ensures PaidFor(w, w, wallet, 0, 0)
  {
  }

  ghost predicate AsksBounded(w: World, labels: seq<Label>, wallet: string)
    requires Runs(w, labels)
  {
    AskCount(w, labels, wallet) + |OpenHolds(After(w, labels), wallet)| <= ClaimCount(labels, wallet)
  }

  function OpenHolds(w: World, wallet: string): set<nat> {
    set u | u in w.holds && w.holds[u].wallet == wallet && !w.holds[u].asked
  }

  lemma OpenHoldsStep(w: World, l: Label, wallet: string)
    requires Enabled(w, l)
    ensures |OpenHolds(Apply(w, l), wallet)| + (if l.Ask? && w.holds[l.worker].wallet == wallet then 1 else 0)
         <= |OpenHolds(w, wallet)| + if Claims(l, wallet) then 1 else 0
  {
    var before, after := OpenHolds(w, wallet), OpenHolds(Apply(w, l), wallet);
    if Claims(l, wallet) {
      assert after == before + {l.worker};
    } else if l.Ask? && w.holds[l.worker].wallet == wallet {
      assert after == before - {l.worker};
    } else {
      assert after <= before;
      CardinalityOf(after, before);
    }
  }

  lemma {:induction false} CardinalityOf(a: set<nat>, b: set<nat>)
    requires a <= b
    ensures |a| <= |b|
  {
    assert b == a + (b - a);
  }

  lemma {:induction false} AsksAreClaimed(w: World, labels: seq<Label>, wallet: string)
    requires Initial(w) && Runs(w, labels)
    ensures AsksBounded(w, labels, wallet)
    decreases |labels|
  {
    if labels == [] {
      assert OpenHolds(w, wallet) == {};
    } else {
      var before := labels[..|labels| - 1];
      hide Apply, OpenHolds;
      AsksAreClaimed(w, before, wallet);
      OpenHoldsStep(After(w, before), labels[|labels| - 1], wallet);
    }
  }

  /**
   Over any run, one wallet is claimed at most once, plus once for each failure of its row, plus once for each
   full 15 minutes; and the provider is asked to write to it no more often than that.
   */
  lemma ClaimsAreBounded(w: World, labels: seq<Label>, wallet: string)
    requires Initial(w) && Runs(w, labels)
    ensures AskCount(w, labels, wallet) <= ClaimCount(labels, wallet)
         <= 1 + FailureCount(w, labels, wallet) + (After(w, labels).now - w.now) / LEASE_SECONDS
  {
    InitialIsSound(w);
    RunKeeps(w, labels);
    AsksAreClaimed(w, labels, wallet);
    ClaimsArePaidFor(w, labels, wallet);
  }

  /******* Backoff *******/

  predicate WaitsUntil(row: Row, due: int) {
    row.nextRetryAt == Some(due) && (row.status == Failed || row.status == Delivered)
  }

  lemma WaitStays(w: World, l: Label, wallet: string, due: int)
    requires Enabled(w, l) && wallet in w.rows && WaitsUntil(w.rows[wallet], due) && !Claims(l, wallet)
    ensures wallet in Apply(w, l).rows && WaitsUntil(Apply(w, l).rows[wallet], due)
  {
  }

  /** The step is a worker's own report of a failure, not a webhook's. */
  predicate WorkerFails(w: World, l: Label, wallet: string)
    requires Enabled(w, l)
  {
    l.MarkFailed? && w.holds[l.worker].wallet == wallet && Fails(w, l, wallet)
  }

  lemma {:induction false} WaitsFrom(w: World, labels: seq<Label>, wallet: string, i: nat, j: nat)
    requires Initial(w) && Runs(w, labels) && i < j <= |labels|
    requires Runs(w, labels[..i]) && Enabled(State(w, labels, i), labels[i])
        && WorkerFails(State(w, labels, i), labels[i], wallet)
    requires forall k: nat :: i < k < j ==> !Claims(labels[k], wallet)
    ensures Runs(w, labels[..i + 1]) && Runs(w, labels[..j])
    ensures wallet in State(w, labels, i + 1).rows && wallet in State(w, labels, j).rows
    ensures WaitsUntil(State(w, labels, j).rows[wallet], State(w, labels, i).now
        + Backoff(State(w, labels, i + 1).rows[wallet].attemptCount))
    decreases j
  {
    hide Runs, Backoff;
    StepOfRun(w, labels, i);
    StepOfRun(w, labels, j - 1);
    if i + 1 < j {
      WaitsFrom(w, labels, wallet, i, j - 1);
      WaitStays(State(w, labels, j - 1), labels[j - 1], wallet,
                State(w, labels, i).now + Backoff(State(w, labels, i + 1).rows[wallet].attemptCount));
    }
  }

  /**
   After a failure recorded by a worker that leaves `n` attempts, the next claim is at least
   min(3600, 60 * 2^(n+1)) seconds later.
   */
  lemma RetryWaits(w: World, labels: seq<Label>, wallet: string, i: nat, j: nat)
    requires Initial(w) && Runs(w, labels) && i < j < |labels| && Claims(labels[j], wallet)
    requires Runs(w, labels[..i]) && Enabled(State(w, labels, i), labels[i])
        && WorkerFails(State(w, labels, i), labels[i], wallet)
    requires forall k: nat :: i < k < j ==> !Claims(labels[k], wallet)
    ensures Runs(w, labels[..i + 1]) && Runs(w, labels[..j]) && wallet in State(w, labels, i + 1).rows
    ensures State(w, labels, j).now >= State(w, labels, i).now
        + Backoff(State(w, labels, i + 1).rows[wallet].attemptCount)
  {
    hide Backoff, Runs;
    WaitsFrom(w, labels, wallet, i, j);
    StepOfRun(w, labels, j);
  }

  lemma {:induction false} Pow2Positive(n: nat)
    ensures Pow2(n) >= 1
  {
    if n > 0 {
      Pow2Positive(n - 1);
    }
  }

  /** A delivered row that still waits for the retry time of an earlier worker's failure. */
  predicate DeliveredEarly(row: Row, now: int) {
    row.status == Delivered && !RetryIsDue(row, now)
  }

  lemma FailingStep(w: World, l: Label, wallet: string)
    requires Invariant(w) && Enabled(w, l) && Fails(w, l, wallet)
    ensures Claimable(Apply(w, l).rows[wallet], Apply(w, l).now) <==>
        l.Deliver? && !DeliveredEarly(w.rows[wallet], w.now)
  {
    assert RowOk(w.rows[wallet], w.now);
    if l.MarkFailed? {
      Pow2Positive(w.rows[wallet].attemptCount + 2);
    }
  }

  /**
   Only a worker's own report makes a failed wallet wait.  In every run, a wallet whose row turns failed can be
   claimed again at that very moment if and only if the failure came by webhook and the row was not a delivered
   one still waiting for the retry time of an earlier worker's failure.
   */
  lemma ClaimableOnFailureIff(w: World, labels: seq<Label>, wallet: string, i: nat)
    requires Initial(w) && Runs(w, labels) && i < |labels|
    requires Runs(w, labels[..i]) && Enabled(State(w, labels, i), labels[i])
        && Fails(State(w, labels, i), labels[i], wallet)
    ensures Runs(w, labels[..i + 1]) && wallet in State(w, labels, i).rows && wallet in State(w, labels, i + 1).rows
    ensures Claimable(State(w, labels, i + 1).rows[wallet], State(w, labels, i + 1).now)
       <==> labels[i].Deliver? && !DeliveredEarly(State(w, labels, i).rows[wallet], State(w, labels, i).now)
  {
    hide Runs, Invariant, Claimable;
    ReachableIsSound(w, labels, i);
    StepOfRun(w, labels, i);
    FailingStep(State(w, labels, i), labels[i], wallet);
  }

  /** The delays double from four minutes until, from the fifth failure on, they stay at one hour. */
  lemma BackoffGrows(n: nat)
    requires n >= 1
    ensures Backoff(1) == 240
    ensures n >= 5 <==> Backoff(n) == MAX_BACKOFF_SECONDS
    ensures n < 4 ==> Backoff(n + 1) == 2 * Backoff(n)
  {
    assert Pow2(0) == 1 && Pow2(1) == 2 && Pow2(2) == 4 && Pow2(3) == 8 && Pow2(4) == 16 && Pow2(5) == 32
        && Pow2(6) == 64;
    if n >= 5 {
      Pow2AtLeast(6, n + 1);
    }
  }

  lemma {:induction false} Pow2AtLeast(m: nat, n: nat)
    requires m <= n
    ensures Pow2(m) <= Pow2(n)
  {
    if m < n {
      Pow2AtLeast(m, n - 1);
    }
  }

  /******* Mutual exclusion *******/

  /** No two workers hold the same wallet, and its row is the holder's claim unless a webhook has settled it. */
  ghost predicate Exclusive(w: World) {
    && OneHolder(w)
    && (forall u :: u in w.holds ==>
        w.holds[u].wallet in w.rows && HeldSince(w.rows[w.holds[u].wallet], w.holds[u].since))
  }

  ghost predicate OneHolder(w: World) {
    forall u, v :: u in w.holds && v in w.holds && w.holds[u].wallet == w.holds[v].wallet ==> u == v
  }

  /**
   Nobody still holds a wallet after `limit` seconds when it is claimed again; and unless `reports` are
   tolerated, no failure is reported for a wallet that is held.
   */
  ghost predicate Punctual(w: World, l: Label, limit: int, reports: bool) {
    && (l.Claim? ==> forall u :: u in w.holds && w.holds[u].wallet == l.wallet ==> w.now - w.holds[u].since <= limit)
    && (!reports && l.Deliver? && (l.delivery.kind == EmailBounced || l.delivery.kind == EmailFailed) ==>
          forall u :: u in w.holds && w.holds[u].wallet in w.rows ==>
              w.rows[w.holds[u].wallet].messageId != l.delivery.messageId)
  }

  ghost predicate PunctualRun(w: World, labels: seq<Label>, limit: int, reports: bool) {
    && Runs(w, labels)
    && forall k: nat :: k < |labels| && Runs(w, labels[..k]) ==>
        Punctual(State(w, labels, k), labels[k], limit, reports)
  }

  /** No hold is added but by a claim, which finds nobody holding the wallet. */
  lemma ClaimedAlone(w: World, l: Label, limit: int)
    requires Invariant(w) && Enabled(w, l) && Exclusive(w) && l.Claim? && Punctual(w, l, limit, false)
        && limit <= LEASE_SECONDS
    ensures forall u :: u in w.holds ==> w.holds[u].wallet != l.wallet
  {
    hide Invariant;
  }

  lemma OneHolderStep(w: World, l: Label)
    requires Enabled(w, l) && OneHolder(w)
    requires l.Claim? ==> forall u :: u in w.holds ==> w.holds[u].wallet != l.wallet
    ensures OneHolder(Apply(w, l))
  {
    hide Claimable, WebhookRows;
  }

  lemma HeldStep(w: World, l: Label, u: nat, limit: int)
    requires Invariant(w) && Enabled(w, l) && Exclusive(w) && Punctual(w, l, limit, false)
    requires l.Claim? ==> forall v :: v in w.holds ==> w.holds[v].wallet != l.wallet
    requires u in w.holds && u in Apply(w, l).holds
    ensures var v := Apply(w, l);
            v.holds[u].wallet in v.rows && HeldSince(v.rows[v.holds[u].wallet], v.holds[u].since)
  {
    assert HeldSince(w.rows[w.holds[u].wallet], w.holds[u].since);
  }

  lemma ClaimHolds(w: World, l: Label)
    requires Enabled(w, l) && l.Claim?
    ensures var v := Apply(w, l);
            && v.holds.Keys == w.holds.Keys + {l.worker} && v.holds[l.worker].wallet in v.rows
            && HeldSince(v.rows[v.holds[l.worker].wallet], v.holds[l.worker].since)
  {
  }

  lemma HoldsOnlyByClaim(w: World, l: Label)
    requires Enabled(w, l) && !l.Claim?
    ensures Apply(w, l).holds.Keys <= w.holds.Keys
  {
  }

  lemma ExclusiveStep(w: World, l: Label, limit: int)
    requires Invariant(w) && Enabled(w, l) && Exclusive(w) && Punctual(w, l, limit, false) && limit <= LEASE_SECONDS
    ensures Exclusive(Apply(w, l))
  {
    if l.Claim? {
      ClaimedAlone(w, l, limit);
      ClaimHolds(w, l);
    } else {
      HoldsOnlyByClaim(w, l);
    }
    OneHolderStep(w, l);
    hide Enabled, Apply, Invariant, Punctual, HeldSince;
    var v := Apply(w, l);
    forall u | u in v.holds
      ensures v.holds[u].wallet in v.rows && HeldSince(v.rows[v.holds[u].wallet], v.holds[u].since)
    {
      if u in w.holds {
        HeldStep(w, l, u, limit);
      }
    }
  }

  /**
   There is no fencing token, so exclusion rests on the workers' punctuality: when nobody holds a claim for
   longer than 15 minutes and no failure is reported for a wallet being written to, no two workers ever hold
   the same wallet.
   */
  lemma {:induction false} PunctualWorkersExclude(w: World, labels: seq<Label>, limit: int)
    requires Initial(w) && PunctualRun(w, labels, limit, false) && limit <= LEASE_SECONDS
    ensures Exclusive(After(w, labels))
    decreases |labels|
  {
    hide Enabled, Apply, Punctual, Exclusive;
    if labels == [] {
      NobodyHolds(w);
    } else {
      var before := labels[..|labels| - 1];
      forall k: nat | k < |before| && Runs(w, before[..k])
        ensures Punctual(State(w, before, k), before[k], limit, false)
      {
        assert before[..k] == labels[..k];
      }
      PunctualWorkersExclude(w, before, limit);
      ReachableIsSound(w, labels, |labels| - 1);
      ExclusiveStep(After(w, before), labels[|labels| - 1], limit);
    }
  }

  lemma NobodyHolds(w: World)
    requires Initial(w)
    ensures Exclusive(w)
  {
  }

  /** Under these rules no run ever has two holders of one wallet. */
  ghost predicate RulesSuffice(limit: int, reports: bool) {
    forall w: World, labels: seq<Label> :: Initial(w) && PunctualRun(w, labels, limit, reports) ==>
        OneHolder(After(w, labels))
  }

  /** Exclusion needs both rules, and the limit must be no longer than the lease. */
  lemma ExclusionNeedsBothRules(limit: nat, reports: bool)
    ensures RulesSuffice(limit, reports) <==> limit <= LEASE_SECONDS && !reports
  {
    if limit <= LEASE_SECONDS && !reports {
      forall w: World, labels: seq<Label> | Initial(w) && PunctualRun(w, labels, limit, reports)
        ensures OneHolder(After(w, labels))
      {
        PunctualWorkersExclude(w, labels, limit);
      }
    } else {
      var w := World(0, map[], map[], map[]);
      hide PunctualRun, Runs, After;
      var labels: seq<Label>;
      if reports {
        labels := ReportedWhileHeld(w, "", limit);
      } else {
        labels := HeldPastLease(w, "", limit);
      }
      assert !OneHolder(After(w, labels));
    }
  }

  /******* Runs with two holders *******/

  predicate StepsTo(w: World, l: Label, v: World) {
    Enabled(w, l) && Apply(w, l) == v
  }

  lemma PunctualStep(w: World, labels: seq<Label>, v: World, l: Label, u: World, limit: int, reports: bool)
    requires PunctualRun(w, labels, limit, reports) && After(w, labels) == v && StepsTo(v, l, u)
        && Punctual(v, l, limit, reports)
    ensures PunctualRun(w, labels + [l], limit, reports) && After(w, labels + [l]) == u
  {
    hide Enabled, Apply, Punctual;
    Take(w, labels, l);
    var all := labels + [l];
    forall k: nat | k < |all| && Runs(w, all[..k]) ensures Punctual(State(w, all, k), all[k], limit, reports) {
      if k < |labels| {
        assert all[..k] == labels[..k] && all[k] == labels[k];
        assert Punctual(State(w, labels, k), labels[k], limit, reports);
      } else {
        assert all[..k] == labels;
      }
    }
  }

  /** Only this wallet has a row, and only these workers hold it. */
  function Only(w: World, wallet: string, row: Row, holds: map<nat, Hold>): World {
    w.(rows := map[wallet := row], holds := holds)
  }

  const FIRST_ROW := Row(1, Pending, 0, None, None, None, None, None, None)

  lemma FirstClaim(w: World, wallet: string, limit: int, reports: bool) returns (labels: seq<Label>)
    requires Initial(w)
    ensures labels == [Insert(wallet, 1), Claim(0, wallet, 1)] && PunctualRun(w, labels, limit, reports)
    ensures After(w, labels) == Only(w, wallet, ClaimRow(FIRST_ROW, 1, w.now), map[0 := Hold(wallet, w.now, false)])
  {
    labels := [];
    assert PunctualRun(w, labels, limit, reports) && After(w, labels) == w;
    var v1 := Only(w, wallet, FIRST_ROW, map[]);
    assert StepsTo(w, Insert(wallet, 1), v1);
    var v2 := Only(w, wallet, ClaimRow(FIRST_ROW, 1, w.now), map[0 := Hold(wallet, w.now, false)]);
    assert StepsTo(v1, Claim(0, wallet, 1), v2);
    hide StepsTo, PunctualRun, After;
    PunctualStep(w, labels, w, Insert(wallet, 1), v1, limit, reports);
    labels := labels + [Insert(wallet, 1)];
    PunctualStep(w, labels, v1, Claim(0, wallet, 1), v2, limit, reports);
    labels := labels + [Claim(0, wallet, 1)];
  }

  lemma Reclaims(w: World, wallet: string, row: Row, holds: map<nat, Hold>, worker: nat)
    requires w == Only(w, wallet, row, holds) && Claimable(row, w.now) && worker !in holds
    ensures StepsTo(w, Claim(worker, wallet, 1),
        Only(w, wallet, ClaimRow(row, 1, w.now), holds[worker := Hold(wallet, w.now, false)]))
  {
  }

  /** A worker stalls past its lease, and another claims the wallet. */
  lemma HeldPastLease(w: World, wallet: string, limit: int) returns (labels: seq<Label>)
    requires Initial(w) && limit > LEASE_SECONDS
    ensures labels == [Insert(wallet, 1), Claim(0, wallet, 1), Pass(901), Claim(1, wallet, 1)]
    ensures PunctualRun(w, labels, limit, false) && !OneHolder(After(w, labels))
  {
    labels := FirstClaim(w, wallet, limit, false);
    var row, holds := ClaimRow(FIRST_ROW, 1, w.now), map[0 := Hold(wallet, w.now, false)];
    var v2 := Only(w, wallet, row, holds);
    var v3 := v2.(now := w.now + 901);
    assert StepsTo(v2, Pass(901), v3);
    Reclaims(v3, wallet, row, holds, 1);
    var v4 := Only(v3, wallet, ClaimRow(row, 1, v3.now), holds[1 := Hold(wallet, v3.now, false)]);
    assert 0 in v4.holds && 1 in v4.holds && v4.holds[0].wallet == v4.holds[1].wallet;
    hide StepsTo, PunctualRun, After;
    PunctualStep(w, labels, v2, Pass(901), v3, limit, false);
    labels := labels + [Pass(901)];
    PunctualStep(w, labels, v3, Claim(1, wallet, 1), v4, limit, false);
    labels := labels + [Claim(1, wallet, 1)];
  }

  function Bounce(eventId: string, timestamp: int): Delivery {
    Delivery(eventId, timestamp, true, EmailBounced, Some("m"))
  }

  lemma Bounces(w: World, wallet: string, row: Row, holds: map<nat, Hold>, eventId: string)
    requires w == Only(w, wallet, row, holds) && row.messageId == Some("m") && eventId !in w.events
    ensures StepsTo(w, Deliver(Bounce(eventId, w.now)),
                    Only(w, wallet, WebhookRow(row, Bounce(eventId, w.now), w.now),
                        holds).(events := w.events[eventId := w.now]))
  {
    assert WebhookRows(w.rows, Bounce(eventId, w.now), w.now) ==
        map[wallet := WebhookRow(row, Bounce(eventId, w.now), w.now)];
  }

  /** The row of the message once it was sent, and once it bounced. */
  function SentOnce(now: int): Row {
    SentRow(ClaimRow(FIRST_ROW, 1, now), "m", now)
  }

  function BouncedOnce(now: int): Row {
    WebhookRow(SentOnce(now), Bounce("e1", now), now)
  }

  /** The first message is sent and bounces, and without any delay another worker claims the wallet. */
  lemma ClaimedOnBounce(w: World, wallet: string, limit: nat) returns (labels: seq<Label>)
    requires Initial(w)
    ensures labels == [Insert(wallet, 1), Claim(0, wallet, 1), MarkSent(0, "m"), Deliver(Bounce("e1", w.now)),
        Claim(1, wallet, 1)]
    ensures PunctualRun(w, labels, limit, true)
    ensures var holds := map[1 := Hold(wallet, w.now, false)];
            After(w, labels) ==
              Only(w, wallet, ClaimRow(BouncedOnce(w.now), 1, w.now), holds).(events := map["e1" := w.now])
  {
    labels := FirstClaim(w, wallet, limit, true);
    var v2 := After(w, labels);
    var v3 := Only(w, wallet, SentOnce(w.now), map[]);
    assert StepsTo(v2, MarkSent(0, "m"), v3);
    Bounces(v3, wallet, SentOnce(w.now), map[], "e1");
    var v4 := Only(w, wallet, BouncedOnce(w.now), map[]).(events := map["e1" := w.now]);
    Reclaims(v4, wallet, BouncedOnce(w.now), map[], 1);
    var v5 := Only(v4, wallet, ClaimRow(BouncedOnce(w.now), 1, w.now), map[1 := Hold(wallet, w.now, false)]);
    assert Punctual(v3, Deliver(Bounce("e1", w.now)), limit, true) && Punctual(v4, Claim(1, wallet, 1), limit, true);
    hide StepsTo, PunctualRun, Punctual, After;
    assert Punctual(v2, MarkSent(0, "m"), limit, true) by {
      AlwaysPunctual(v2, MarkSent(0, "m"), limit);
    }
    PunctualStep(w, labels, v2, MarkSent(0, "m"), v3, limit, true);
    labels := labels + [MarkSent(0, "m")];
    PunctualStep(w, labels, v3, Deliver(Bounce("e1", w.now)), v4, limit, true);
    labels := labels + [Deliver(Bounce("e1", w.now))];
    PunctualStep(w, labels, v4, Claim(1, wallet, 1), v5, limit, true);
    labels := labels + [Claim(1, wallet, 1)];
  }

  lemma AlwaysPunctual(w: World, l: Label, limit: int)
    requires !l.Claim?
    ensures Punctual(w, l, limit, true)
  {
  }

  /**
   The old message bounces once more while the second worker writes, and a third claims the wallet,
   all at one instant.
   */
  lemma ReportedWhileHeld(w: World, wallet: string, limit: nat) returns (labels: seq<Label>)
    requires Initial(w)
    ensures PunctualRun(w, labels, limit, true) && !OneHolder(After(w, labels)) && After(w, labels).now == w.now
  {
    labels := ClaimedOnBounce(w, wallet, limit);
    var v5 := After(w, labels);
    var row, holds, l := ClaimRow(BouncedOnce(w.now), 1, w.now), map[1 := Hold(wallet, w.now, false)],
        Deliver(Bounce("e2", w.now));
    Bounces(v5, wallet, row, holds, "e2");
    var again := WebhookRow(row, Bounce("e2", w.now), w.now);
    var v6 := Only(v5, wallet, again, holds).(events := v5.events["e2" := w.now]);
    Reclaims(v6, wallet, again, holds, 2);
    var v7 := Only(v6, wallet, ClaimRow(again, 1, w.now), holds[2 := Hold(wallet, w.now, false)]);
    assert 1 in v7.holds && 2 in v7.holds && v7.holds[1].wallet == v7.holds[2].wallet;
    assert Punctual(v6, Claim(2, wallet, 1), limit, true);
    AlwaysPunctual(v5, l, limit);
    hide StepsTo, PunctualRun, Punctual, After;
    PunctualStep(w, labels, v5, l, v6, limit, true);
    labels := labels + [l];
    PunctualStep(w, labels, v6, Claim(2, wallet, 1), v7, limit, true);
    labels := labels + [Claim(2, wallet, 1)];
  }

  /**
   Without punctuality a stalled worker's late report fails the claim of the worker that took over, and a
   third claims the wallet while the second is still writing.
   */
  lemma StalledWorkerBreaksExclusion(w: World, wallet: string) returns (labels: seq<Label>)
    requires Initial(w)
    ensures Runs(w, labels)
    ensures var v := After(w, labels);
            1 in v.holds && 2 in v.holds && v.holds[1].wallet == v.holds[2].wallet == wallet
            && v.now - v.holds[1].since <= LEASE_SECONDS
  {
    labels := [];
    Take(w, labels, Insert(wallet, 1));
    labels := labels + [Insert(wallet, 1)];
    Take(w, labels, Claim(0, wallet, 1));
    labels := labels + [Claim(0, wallet, 1)];
    Take(w, labels, Pass(901));
    labels := labels + [Pass(901)];
    Take(w, labels, Claim(1, wallet, 1));
    labels := labels + [Claim(1, wallet, 1)];
    var held := After(w, labels);
    assert held.rows[wallet].status == Claimed && held.rows[wallet].attemptCount == 0
        && held.holds[1].since == held.now;
    hide Runs, After;
    Take(w, labels, MarkFailed(0));
    labels := labels + [MarkFailed(0)];
    assert After(w, labels).rows[wallet].nextRetryAt == Some(held.now + 240) by {
      BackoffGrows(1);
    }
    Take(w, labels, Pass(240));
    labels := labels + [Pass(240)];
    Take(w, labels, Claim(2, wallet, 1));
    labels := labels + [Claim(2, wallet, 1)];
  }

  /******* Webhooks are idempotent *******/

  ghost predicate AppliedAt(w: World, labels: seq<Label>, n: nat, d: Delivery) {
    && n < |labels| && labels[n] == Deliver(d) && Runs(w, labels[..n])
    && Accepted(State(w, labels, n), d) && d.eventId !in State(w, labels, n).events
  }

  lemma {:induction false} RememberedFor(w: World, labels: seq<Label>, m: nat, n: nat, d: Delivery)
    requires Initial(w) && Runs(w, labels) && m < n <= |labels| && AppliedAt(w, labels, m, d)
    ensures Runs(w, labels[..n]) && Runs(w, labels[..m]) && State(w, labels, m).now <= State(w, labels, n).now
    ensures State(w, labels, n).now <= State(w, labels, m).now + EVENT_RETENTION_SECONDS ==>
              d.eventId in State(w, labels, n).events
                  && State(w, labels, n).events[d.eventId] == State(w, labels, m).now
    decreases n
  {
    hide Runs, Invariant;
    StepOfRun(w, labels, m);
    StepOfRun(w, labels, n - 1);
    ReachableIsSound(w, labels, n - 1);
    StepKeeps(State(w, labels, n - 1), labels[n - 1]);
    if m + 1 < n {
      RememberedFor(w, labels, m, n - 1, d);
    }
  }

  /**
   Each event is applied at most once per signed timestamp, even though event ids are forgotten after 90
   days: by then its timestamp is no longer fresh.
   */
  lemma AppliedAtMostOnce(w: World, labels: seq<Label>, m: nat, n: nat, d: Delivery, e: Delivery)
    requires Initial(w) && Runs(w, labels) && m < n
    requires AppliedAt(w, labels, m, d) && AppliedAt(w, labels, n, e)
    ensures d.eventId == e.eventId ==> d.timestamp != e.timestamp
  {
    if d.eventId == e.eventId && d.timestamp == e.timestamp {
      hide Runs;
      RememberedFor(w, labels, m, n, d);
    }
  }

  /** Some earlier delivery of this event was verified. */
  ghost predicate SeenBefore(w: World, labels: seq<Label>, eventId: string) {
    exists k: nat :: k < |labels| && Runs(w, labels[..k]) && labels[k].Deliver?
                     && labels[k].delivery.eventId == eventId && Accepted(State(w, labels, k), labels[k].delivery)
  }

  lemma EventStep(w: World, l: Label, eventId: string)
    requires Enabled(w, l) && !l.Purge?
    ensures eventId in Apply(w, l).events <==>
              eventId in w.events || (l.Deliver? && l.delivery.eventId == eventId && Accepted(w, l.delivery))
  {
    hide WebhookRows;
  }

  lemma {:induction false} EventsAreSeen(w: World, labels: seq<Label>, eventId: string)
    requires Initial(w) && Runs(w, labels) && forall k :: 0 <= k < |labels| ==> !labels[k].Purge?
    ensures eventId in After(w, labels).events <==> SeenBefore(w, labels, eventId)
    decreases |labels|
  {
    if labels != [] {
      var n := |labels| - 1;
      var before := labels[..n];
      hide Enabled, Apply, Accepted;
      EventsAreSeen(w, before, eventId);
      EventStep(After(w, before), labels[n], eventId);
      if SeenBefore(w, labels, eventId) {
        var k: nat :| k < |labels| && Runs(w, labels[..k]) && labels[k].Deliver?
                      && labels[k].delivery.eventId == eventId && Accepted(State(w, labels, k), labels[k].delivery);
        if k < n {
          assert before[..k] == labels[..k];
          assert SeenBefore(w, before, eventId);
        }
      }
      if SeenBefore(w, before, eventId) {
        var k: nat :| k < |before| && Runs(w, before[..k]) && before[k].Deliver?
                      && before[k].delivery.eventId == eventId && Accepted(State(w, before, k), before[k].delivery);
        assert before[..k] == labels[..k];
        assert labels[k] == before[k];
        assert SeenBefore(w, labels, eventId);
      }
      if labels[n].Deliver? && labels[n].delivery.eventId == eventId && Accepted(After(w, before), labels[n].delivery) {
        assert labels[..n] == before;
        assert SeenBefore(w, labels, eventId);
      }
    }
  }

  /** The sequence without the deliveries of events that were verified before. */
  ghost function WithoutDuplicates(w: World, labels: seq<Label>): seq<Label> {
    if labels == [] then []
    else
      var before, last := labels[..|labels| - 1], labels[|labels| - 1];
      WithoutDuplicates(w, before) + if last.Deliver?
          && SeenBefore(w, before, last.delivery.eventId) then [] else [last]
  }

  /** Leaving out every repeated delivery changes nothing, whatever else happens in between. */
  lemma {:induction false} DuplicatesDoNotMatter(w: World, labels: seq<Label>)
    requires Initial(w) && Runs(w, labels) && forall k :: 0 <= k < |labels| ==> !labels[k].Purge?
    ensures Runs(w, WithoutDuplicates(w, labels))
    ensures After(w, WithoutDuplicates(w, labels)) == After(w, labels)
    decreases |labels|
  {
    if labels != [] {
      var before, last := labels[..|labels| - 1], labels[|labels| - 1];
      hide Enabled, SeenBefore, WebhookRows;
      DuplicatesDoNotMatter(w, before);
      if last.Deliver? {
        EventsAreSeen(w, before, last.delivery.eventId);
      }
      hide Apply;
      if last.Deliver? && SeenBefore(w, before, last.delivery.eventId) {
        SeenIsIgnored(After(w, before), last.delivery);
        assert WithoutDuplicates(w, labels) == WithoutDuplicates(w, before) + [];
        assert WithoutDuplicates(w, before) + [] == WithoutDuplicates(w, before);
      } else {
        Take(w, WithoutDuplicates(w, before), last);
      }
    }
  }

  lemma SeenIsIgnored(w: World, d: Delivery)
    requires d.eventId in w.events
    ensures Apply(w, Deliver(d)) == w
  {
  }

  /** Some earlier delivery of this event under this timestamp was applied. */
  ghost predicate AppliedBefore(w: World, labels: seq<Label>, d: Delivery) {
    exists k: nat, e :: AppliedAt(w, labels, k, e) && e.eventId == d.eventId && e.timestamp == d.timestamp
  }

  /** The sequence without the repetitions of deliveries that were applied before. */
  ghost function WithoutRedeliveries(w: World, labels: seq<Label>): seq<Label> {
    if labels == [] then []
    else
      var before, last := labels[..|labels| - 1], labels[|labels| - 1];
      WithoutRedeliveries(w, before) + if last.Deliver? && AppliedBefore(w, before, last.delivery) then [] else [last]
  }

  lemma RedeliveryIsIgnored(w: World, labels: seq<Label>, d: Delivery)
    requires Initial(w) && Runs(w, labels) && AppliedBefore(w, labels, d)
    ensures Apply(After(w, labels), Deliver(d)) == After(w, labels)
  {
    var k: nat, e :| AppliedAt(w, labels, k, e) && e.eventId == d.eventId && e.timestamp == d.timestamp;
    hide Runs, WebhookRows;
    RememberedFor(w, labels, k, |labels|, e);
    assert labels[..|labels|] == labels;
  }

  /** Leaving out every redelivery changes nothing, whatever else happens in between, purges of event ids included. */
  lemma {:induction false} RedeliveriesDoNotMatter(w: World, labels: seq<Label>)
    requires Initial(w) && Runs(w, labels)
    ensures Runs(w, WithoutRedeliveries(w, labels))
    ensures After(w, WithoutRedeliveries(w, labels)) == After(w, labels)
    decreases |labels|
  {
    if labels != [] {
      var before, last := labels[..|labels| - 1], labels[|labels| - 1];
      hide Enabled, Apply, AppliedBefore;
      RedeliveriesDoNotMatter(w, before);
      if last.Deliver? && AppliedBefore(w, before, last.delivery) {
        RedeliveryIsIgnored(w, before, last.delivery);
        assert WithoutRedeliveries(w, labels) == WithoutRedeliveries(w, before) + [];
        assert WithoutRedeliveries(w, before) + [] == WithoutRedeliveries(w, before);
      } else {
        Take(w, WithoutRedeliveries(w, before), last);
      }
    }
  }

  /** A webhook never overwrites a time that is already set. */
  lemma WebhookTimesAreFirst(w: World, d: Delivery, wallet: string)
    requires wallet in w.rows
    ensures var before, after := w.rows[wallet], Apply(w, Deliver(d)).rows[wallet];
            && (before.sentAt.Some? ==> after.sentAt == before.sentAt)
            && (before.failedAt.Some? ==> after.failedAt == before.failedAt)
            && (before.deliveredAt.Some? ==> after.deliveredAt == before.deliveredAt)
            && after.messageId == before.messageId && after.attemptCount == before.attemptCount
            && after.nextRetryAt == before.nextRetryAt
  {
  }

  lemma DeliveredAtStays(w: World, l: Label, wallet: string)
    requires Enabled(w, l) && wallet in w.rows && w.rows[wallet].deliveredAt.Some?
    ensures wallet in Apply(w, l).rows && Apply(w, l).rows[wallet].deliveredAt == w.rows[wallet].deliveredAt
  {
  }

  /** Once set, the delivery time of a wallet's letter never changes again, whatever workers and webhooks do. */
  lemma {:induction false} DeliveredAtIsFinal(w: World, labels: seq<Label>, wallet: string, n: nat)
    requires Runs(w, labels) && n <= |labels| && Runs(w, labels[..n])
    requires wallet in State(w, labels, n).rows && State(w, labels, n).rows[wallet].deliveredAt.Some?
    ensures wallet in After(w, labels).rows
        && After(w, labels).rows[wallet].deliveredAt == State(w, labels, n).rows[wallet].deliveredAt
    decreases |labels|
  {
    hide Enabled, Apply;
    if n == |labels| {
      assert labels[..n] == labels;
    } else {
      var before := labels[..|labels| - 1];
      assert before[..n] == labels[..n];
      DeliveredAtIsFinal(w, before, wallet, n);
      DeliveredAtStays(After(w, before), labels[|labels| - 1], wallet);
    }
  }
}
