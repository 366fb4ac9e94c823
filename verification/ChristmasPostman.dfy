/** One run of the postman (backend/src/Operations/ChristmasPostman.php) among others. */
module ChristmasPostman {
  import opened Wrappers
  import opened Notifications

  /** `Aborted` is an exception that leaves `run`, a database that cannot be reached for instance. */
  datatype Failure = TooEarly | LockHeld | ScanFailed | Aborted

  datatype Summary = Summary(recipients: nat, sent: nat, skipped: nat, failed: nat)

  datatype Recipient = Recipient(wallet: string, count: nat)

  predicate OfWorker(l: Label, worker: nat) {
    (l.Claim? || l.Ask? || l.MarkSent? || l.MarkFailed?) && l.worker == worker
  }

  /** The claims of one worker, and how each of its held claims ended. */
  function ClaimsOf(labels: seq<Label>, worker: nat): nat {
    if labels == [] then 0
    else
      var last := labels[|labels| - 1];
      ClaimsOf(labels[..|labels| - 1], worker) + if last.Claim? && last.worker == worker then 1 else 0
  }

  function SentBy(labels: seq<Label>, worker: nat): nat {
    if labels == [] then 0
    else
      var last := labels[|labels| - 1];
      SentBy(labels[..|labels| - 1], worker) + if last.MarkSent? && last.worker == worker then 1 else 0
  }

  function FailedBy(labels: seq<Label>, worker: nat): nat {
    if labels == [] then 0
    else
      var last := labels[|labels| - 1];
      FailedBy(labels[..|labels| - 1], worker) + if last.MarkFailed? && last.worker == worker then 1 else 0
  }

  lemma OthersKeepHold(w: World, l: Label, worker: nat)
    requires Enabled(w, l) && !OfWorker(l, worker)
    ensures worker in Apply(w, l).holds <==> worker in w.holds
    ensures worker in w.holds ==> Apply(w, l).holds[worker] == w.holds[worker]
    ensures w.rows.Keys <= Apply(w, l).rows.Keys
  {
  }

  lemma HoldHasRow(w: World, worker: nat)
    requires Invariant(w) && worker in w.holds
    ensures w.holds[worker].wallet in w.rows
  {
  }

  class Postman {
    const worker: nat
    const unlockAt: int
    /** Wallets with a verified address. */
    const mailboxes: set<string>
    ghost const start: World
    var w: World
    ghost var log: seq<Label>

    ghost predicate Valid()
      reads this
    {
      Invariant(start) && Runs(start, log) && After(start, log) == w && Invariant(w)
    }

    twostate predicate SameTallies()
      reads this
    {
      && old(log) <= log
      && ClaimsOf(log, worker) == ClaimsOf(old(log), worker)
      && SentBy(log, worker) == SentBy(old(log), worker)
      && FailedBy(log, worker) == FailedBy(old(log), worker)
    }

    twostate predicate Quiet()
      reads this
    {
      && SameTallies()
      && (worker in old(w).holds <==> worker in w.holds)
      && (worker in w.holds ==> w.holds[worker] == old(w).holds[worker])
      && old(w).rows.Keys <= w.rows.Keys && old(w).now <= w.now
    }

    constructor (worker: nat, unlockAt: int, mailboxes: set<string>, start: World)
      requires Invariant(start)
      ensures Valid() && this.worker == worker && this.unlockAt == unlockAt && this.mailboxes == mailboxes
      ensures this.start == start && w == start && log == []
    {
      this.worker, this.unlockAt, this.mailboxes, this.start, w := worker, unlockAt, mailboxes, start, start;
      log := [];
    }

    method Take(l: Label)
      requires Valid() && Enabled(w, l)
      modifies this
      ensures Valid() && w == Apply(old(w), l) && log == old(log) + [l] && old(w).now <= w.now
          && old(w).rows.Keys <= w.rows.Keys
      ensures ClaimsOf(log, worker) == ClaimsOf(old(log), worker) + if l.Claim? && l.worker == worker then 1 else 0
      ensures SentBy(log, worker) == SentBy(old(log), worker) + if l.MarkSent? && l.worker == worker then 1 else 0
      ensures FailedBy(log, worker) == FailedBy(old(log), worker) + if l.MarkFailed? && l.worker == worker then 1 else 0
    {
      hide Enabled, Apply, Invariant, Runs, After;
      StepKeeps(w, l);
      Notifications.Take(start, log, l);
      assert (log + [l])[..|log|] == log;
      w := Apply(w, l);
      log := log + [l];
    }

    method Interfere()
      requires Valid()
      modifies this
      ensures Valid() && Quiet()
    {
      hide Enabled, Apply, Invariant, Runs, After;
      var steps: int := *;
      while steps > 0
        invariant Valid() && Quiet()
      {
        steps := steps - 1;
        var l := AnyLabel();
        if Enabled(w, l) && !OfWorker(l, worker) {
          OthersKeepHold(w, l, worker);
          Take(l);
        }
      }
    }

    method AnyLabel() returns (l: Label) {
      var kind: int, u: nat, n: nat, text: string, delivery: Delivery := *, *, *, *, *;
      l := if kind == 0 then Pass(n) else if kind == 1 then Insert(text, n) else if kind == 2
          then Label.Claim(u, text, n)
           else if kind == 3 then Ask(u) else if kind == 4 then MarkSent(u, text) else if kind == 5 then MarkFailed(u)
           else if kind == 6 then Deliver(delivery) else Purge;
    }

    /** Whether the awaited call throws. */
    method Throws() returns (b: bool) {
      b := *;
    }

    /** `INSERT IGNORE`, then the conditional `UPDATE`, whose count of changed rows is the answer. */
    method Claim(wallet: string, count: nat) returns (claimed: bool)
      requires Valid() && worker !in w.holds
      modifies this
      ensures Valid() && old(log) <= log && old(w).now <= w.now
      ensures claimed <==> worker in w.holds
      ensures claimed ==>
          w.holds[worker] == Hold(wallet, w.now, false) && w.rows[wallet].status == Claimed
          && w.rows[wallet].claimedAt == Some(w.now)
      ensures ClaimsOf(log, worker) == ClaimsOf(old(log), worker) + if claimed then 1 else 0
      ensures SentBy(log, worker) == SentBy(old(log), worker) && FailedBy(log, worker) == FailedBy(old(log), worker)
    {
      hide Invariant, Runs, After;
      Take(Insert(wallet, count));
      Interfere();
      if Claimable(w.rows[wallet], w.now) {
        Take(Label.Claim(worker, wallet, count));
        return true;
      }
      return false;
    }

    /** The `try` of a claimed recipient: decrypt, ask the provider, record its message id.  `None` is an exception. */
    method Send() returns (messageId: Option<string>)
      requires Valid() && worker in w.holds && !w.holds[worker].asked
      modifies this
      ensures Valid() && old(log) <= log && old(w).now <= w.now
      ensures messageId.Some? <==> worker !in w.holds
      ensures ClaimsOf(log, worker) == ClaimsOf(old(log), worker) && FailedBy(log, worker) == FailedBy(old(log), worker)
      ensures SentBy(log, worker) == SentBy(old(log), worker) + if messageId.Some? then 1 else 0
    {
      hide Invariant, Runs, After;
      var undecryptable := Throws();
      if undecryptable {
        return None;
      }
      Interfere();
      Take(Ask(worker));
      Interfere();
      var rejected := Throws();
      if rejected {
        return None;
      }
      var id: string := *;
      HoldHasRow(w, worker);
      Take(MarkSent(worker, id));
      return Some(id);
    }

    /** The body of the loop over the recipients. */
    method Notify(recipient: Recipient, tally: Summary) returns (r: Result<Summary, Failure>)
      requires Valid() && worker !in w.holds
      modifies this
      ensures Valid() && old(log) <= log && old(w).now <= w.now
      ensures r.Ok? ==>
                && worker !in w.holds
                && ClaimsOf(log, worker) - ClaimsOf(old(log), worker) ==
                    r.value.sent + r.value.failed - tally.sent - tally.failed
                && SentBy(log, worker) - SentBy(old(log), worker) == r.value.sent - tally.sent
                && FailedBy(log, worker) - FailedBy(old(log), worker) == r.value.failed - tally.failed
                && r.value.sent + r.value.skipped + r.value.failed == tally.sent + tally.skipped + tally.failed + 1
                && r.value.recipients == tally.recipients
                && (recipient.wallet !in mailboxes ==> r.value.skipped == tally.skipped + 1)
    {
      hide Enabled, Apply, Invariant, Runs, After;
      Interfere();
      var unreachable := Throws();
      if unreachable {
        return Err(Aborted);
      }
      var claimed := false;
      if recipient.wallet in mailboxes {
        claimed := Claim(recipient.wallet, recipient.count);
      }
      if !claimed {
        return Ok(tally.(skipped := tally.skipped + 1));
      }
      var messageId := Send();
      if messageId.Some? {
        return Ok(tally.(sent := tally.sent + 1));
      }
      Interfere();
      var lost := Throws();
      if lost {
        return Err(Aborted);
      }
      ReportFailure();
      return Ok(tally.(failed := tally.failed + 1));
    }

    /** The `catch`. */
    method ReportFailure()
      requires Valid() && worker in w.holds
      modifies this
      ensures Valid() && old(log) <= log && worker !in w.holds && old(w).now <= w.now
      ensures ClaimsOf(log, worker) == ClaimsOf(old(log), worker) && SentBy(log, worker) == SentBy(old(log), worker)
      ensures FailedBy(log, worker) == FailedBy(old(log), worker) + 1
    {
      hide Invariant, Runs, After;
      HoldHasRow(w, worker);
      Take(MarkFailed(worker));
    }

    /**
     `run`.  Nothing happens before the unlock time.  A run that completes has sent, skipped or failed every
     recipient once; it claimed exactly those it sent or failed, and holds none of them any longer.
     */
    method Run(lockHeld: bool, recipients: Option<seq<Recipient>>) returns (r: Result<Summary, Failure>)
      requires Valid() && worker !in w.holds
      modifies this
      ensures Valid() && old(log) <= log
      ensures old(w).now < unlockAt || lockHeld || recipients.None? ==> r.Err? && log == old(log)
      ensures r.Ok? ==>
                && r.value.sent + r.value.skipped + r.value.failed == r.value.recipients == |recipients.value|
                && worker !in w.holds
                && ClaimsOf(log, worker) - ClaimsOf(old(log), worker) == r.value.sent + r.value.failed
                && SentBy(log, worker) - SentBy(old(log), worker) == r.value.sent
                && FailedBy(log, worker) - FailedBy(old(log), worker) == r.value.failed
    {
      hide Enabled, Apply, Invariant, Runs, After;
      if w.now < unlockAt {
        return Err(TooEarly);
      }
      if lockHeld {
        return Err(LockHeld);
      }
      if recipients.None? {
        return Err(ScanFailed);
      }
      var tally := Summary(|recipients.value|, 0, 0, 0);
      for i := 0 to |recipients.value|
        invariant Valid() && worker !in w.holds && old(log) <= log
        invariant tally.sent + tally.skipped + tally.failed == i && tally.recipients == |recipients.value|
        invariant ClaimsOf(log, worker) - ClaimsOf(old(log), worker) == tally.sent + tally.failed
        invariant SentBy(log, worker) - SentBy(old(log), worker) == tally.sent
        invariant FailedBy(log, worker) - FailedBy(old(log), worker) == tally.failed
      {
        tally :- Notify(recipients.value[i], tally);
      }
      return Ok(tally);
    }
  }
}
