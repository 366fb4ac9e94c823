/** How often codes are compared, how many challenges are open at once, and how often one is verified. */
module OtpTheorems {
  import opened Wrappers
  import opened ByteCodec
  import opened Otp

  /******* Comparisons in ten minutes *******/

  predicate Compares(w: World, l: Label, wallet: string) {
    l.Verify? && l.wallet == wallet && Compared(w, wallet).Some?
  }

  /** How often codes were compared for a wallet while `labels` ran. */
  function Comparisons(s: Settings, w: World, labels: seq<Label>, wallet: string): nat {
    if labels == [] then 0
    else
      var before := labels[..|labels| - 1];
      Comparisons(s, w, before, wallet) + if Compares(After(s, w, before), labels[|labels| - 1], wallet) then 1 else 0
  }

  /** Inside a window a comparison adds one attempt to a row that was open somewhere in the window. */
  lemma AttemptStep(s: Settings, w: World, l: Label, wallet: string, low: int)
    requires RowsOk(w) && w.now - RETENTION_SECONDS <= low <= w.now - OTP_TTL_SECONDS
    ensures Attempts(Apply(s, w, l).rows, Wallet(wallet), low) == Attempts(w.rows, Wallet(wallet), low)
        + if Compares(w, l, wallet) then 1 else 0
  {
    var v := Apply(s, w, l);
    if l.Insert? && l.request in w.counted {
      assert v.rows[..|v.rows| - 1] == w.rows;
    } else if l.Verify? && Compared(w, l.wallet).Some? {
      var i := Compared(w, l.wallet).value;
      assert RowOk(w.rows[i], w.now);
      AttemptsUpdated(w.rows, i, v.rows[i], Wallet(wallet), low);
    } else if l.Clean? {
      RetainedAttempts(w.rows, w.now - RETENTION_SECONDS, Wallet(wallet), low);
    }
  }

  /** Rows created before a moment never become more after it. */
  lemma OldCountStep(s: Settings, w: World, l: Label, key: Key, low: int, high: int)
    requires high < w.now
    ensures Count(Apply(s, w, l).rows, key, low, high) <= Count(w.rows, key, low, high)
  {
    var v := Apply(s, w, l);
    if l.Insert? && l.request in w.counted {
      assert v.rows[..|v.rows| - 1] == w.rows;
    } else if l.Verify? && Compared(w, l.wallet).Some? {
      var i := Compared(w, l.wallet).value;
      CountUpdated(w.rows, i, v.rows[i], key, low, high);
    } else if l.Clean? {
      RetainedCounts(w.rows, w.now - RETENTION_SECONDS, key, low, high);
    }
  }

  lemma {:induction false} WindowAttempts(s: Settings, w: World, labels: seq<Label>, wallet: string)
    requires RowsOk(w) && After(s, w, labels).now < w.now + OTP_TTL_SECONDS
    ensures var low := w.now - OTP_TTL_SECONDS;
            Comparisons(s, w, labels, wallet) <= Attempts(After(s, w, labels).rows, Wallet(wallet), low)
    decreases |labels|
  {
    if labels != [] {
      var before, last := labels[..|labels| - 1], labels[|labels| - 1];
      var v := After(s, w, before);
      hide Apply, RowsOk, Compares, Attempts;
      TimePasses(s, v, last);
      RowsKeep(s, w, before);
      WindowAttempts(s, w, before, wallet);
      AttemptStep(s, v, last, wallet, w.now - OTP_TTL_SECONDS);
    }
  }

  lemma {:induction false} WindowCounts(s: Settings, w: World, labels: seq<Label>, key: Key, low: int, high: int)
    requires RowsOk(w) && high < w.now
    ensures Count(After(s, w, labels).rows, key, low, high) <= Count(w.rows, key, low, high)
    decreases |labels|
  {
    if labels != [] {
      var before, last := labels[..|labels| - 1], labels[|labels| - 1];
      hide Apply, RowsOk, Count;
      RowsKeep(s, w, before);
      WindowCounts(s, w, before, key, low, high);
      OldCountStep(s, After(s, w, before), last, key, low, high);
    }
  }

  /**
   In any window of less than ten minutes of any run with at most `overlap` requests between count and
   insertion, at most `10 * (overlap + 2)` codes are compared for one wallet: thirty, if no two requests overlap.
   */
  lemma ComparisonsAreBounded(s: Settings, w: World, earlier: seq<Label>, window: seq<Label>, overlap: nat,
          wallet: string)
    requires Initial(w) && OverlapWithin(s, w, earlier, overlap)
    requires OverlapWithin(s, After(s, w, earlier), window, overlap)
    requires After(s, After(s, w, earlier), window).now < After(s, w, earlier).now + OTP_TTL_SECONDS
    ensures Comparisons(s, After(s, w, earlier), window, wallet) <= 10 * (overlap + 2)
  {
    InitialIsSound(w, overlap);
    RunKeeps(s, w, earlier, overlap);
    var u := After(s, w, earlier);
    var v := After(s, u, window);
    var key, low := Wallet(wallet), u.now - OTP_TTL_SECONDS;
    hide After, Comparisons, Attempts, Count, OverlapWithin;
    RunKeeps(s, u, window, overlap);
    WindowAttempts(s, u, window, wallet);
    WindowCounts(s, u, window, key, low, v.now - OTP_TTL_SECONDS);
    AttemptsInWindow(v, key, low, u, overlap);
  }

  /** At most two limits' worth of challenges can be compared in the window, five times each. */
  lemma AttemptsInWindow(v: World, key: Key, low: int, u: World, overlap: nat)
    requires Invariant(u, overlap) && Invariant(v, overlap)
    requires u.now <= v.now < u.now + OTP_TTL_SECONDS && low == u.now - OTP_TTL_SECONDS
    requires Count(v.rows, key, low, v.now - OTP_TTL_SECONDS) <= Count(u.rows, key, low, v.now - OTP_TTL_SECONDS)
    ensures Attempts(v.rows, key, low) <= 10 * (overlap + 2)
  {
    hide Attempts, Count;
    var middle := v.now - OTP_TTL_SECONDS;
    forall i | 0 <= i < |v.rows| ensures v.rows[i].attempts <= MAX_ATTEMPTS && v.rows[i].createdAt <= v.now {
      assert RowOk(v.rows[i], v.now);
    }
    AttemptsBounded(v.rows, key, low, v.now);
    CountSplits(v.rows, key, low, middle, v.now);
    CountSplits(u.rows, key, low, middle, u.now);
    assert OpenCount(v, key) < CHALLENGE_LIMIT + overlap;
    assert OpenCount(u, key) < CHALLENGE_LIMIT + overlap;
  }

  /******* How many challenges are open at once *******/

  /** In this state the step inserts a challenge for the key. */
  predicate Accepts(w: World, l: Label, key: Key) {
    l.Insert? && l.request in w.counted && Concerns(w.counted[l.request], key)
  }

  ghost predicate AcceptedAt(s: Settings, w: World, labels: seq<Label>, k: nat, key: Key) {
    k < |labels| && Accepts(State(s, w, labels, k), labels[k], key)
  }

  /** The challenges accepted for a key later than `low`. */
  function AcceptedSince(s: Settings, w: World, labels: seq<Label>, key: Key, low: int): nat {
    if labels == [] then 0
    else
      var before, last := labels[..|labels| - 1], labels[|labels| - 1];
      var state := After(s, w, before);
      AcceptedSince(s, w, before, key, low) + if Accepts(state, last, key) && state.now > low then 1 else 0
  }

  lemma CountStep(s: Settings, w: World, l: Label, key: Key, low: int)
    requires RowsOk(w) && low >= w.now - RETENTION_SECONDS
    ensures var v, one := Apply(s, w, l), if Accepts(w, l, key) && w.now > low then 1 else 0;
            Count(v.rows, key, low, v.now) == Count(w.rows, key, low, w.now) + one
  {
    match l {
      case Pass(seconds) => CountLater(w, seconds, key, low);
      case Insert(request, code) =>
        if request in w.counted {
          InsertIsCounted(s, w, request, code, key, low);
        }
      case Verify(wallet, _) =>
        if Compared(w, wallet).Some? {
          var i := Compared(w, wallet).value;
          CountUpdated(w.rows, i, Apply(s, w, l).rows[i], key, low, w.now);
        }
      case Clean => RetainedRecent(w.rows, w.now - RETENTION_SECONDS, key, low, w.now);
      case _ =>
    }
  }

  lemma CountLater(w: World, seconds: nat, key: Key, low: int)
    requires RowsOk(w)
    ensures Count(w.rows, key, low, w.now + seconds) == Count(w.rows, key, low, w.now)
  {
    assert forall i :: 0 <= i < |w.rows| ==> RowOk(w.rows[i], w.now);
    CountOfCreated(w.rows, key, low, w.now, w.now + seconds);
  }

  lemma NoRowsIsOk(w: World)
    requires w.rows == []
    ensures RowsOk(w)
  {
  }

  /** The table holds exactly the recent challenges that were accepted. */
  lemma {:induction false} CountIsAccepted(s: Settings, w: World, labels: seq<Label>, key: Key, low: int)
    requires w.rows == [] && low >= After(s, w, labels).now - RETENTION_SECONDS
    ensures Count(After(s, w, labels).rows, key, low, After(s, w, labels).now) == AcceptedSince(s, w, labels, key, low)
    decreases |labels|
  {
    if labels != [] {
      var before, last := labels[..|labels| - 1], labels[|labels| - 1];
      hide Apply, RowsOk, Count, Accepts;
      TimePasses(s, After(s, w, before), last);
      NoRowsIsOk(w);
      RowsKeep(s, w, before);
      CountIsAccepted(s, w, before, key, low);
      CountStep(s, After(s, w, before), last, key, low);
    } else {
      assert Count([], key, low, w.now) == 0;
    }
  }

  /** Any two accepted challenges of the key lie at least the lifetime of a code apart. */
  ghost predicate Spaced(s: Settings, w: World, labels: seq<Label>, key: Key) {
    forall i: nat, j: nat :: i < j && AcceptedAt(s, w, labels, i, key) && AcceptedAt(s, w, labels, j, key) ==>
      State(s, w, labels, j).now >= State(s, w, labels, i).now + OTP_TTL_SECONDS
  }

  lemma {:induction false} TimeGrows(s: Settings, w: World, labels: seq<Label>, m: nat, n: nat)
    requires m <= n <= |labels|
    ensures State(s, w, labels, m).now <= State(s, w, labels, n).now
    decreases n
  {
    if m < n {
      hide Apply;
      TimeGrows(s, w, labels, m, n - 1);
      assert labels[..n][..n - 1] == labels[..n - 1];
      TimePasses(s, State(s, w, labels, n - 1), labels[n - 1]);
    }
  }

  /** Unrolling the count at a point of the run. */
  lemma AcceptedNext(s: Settings, w: World, labels: seq<Label>, n: nat, key: Key, low: int)
    requires n < |labels|
    ensures AcceptedSince(s, w, labels[..n + 1], key, low) ==
              AcceptedSince(s, w, labels[..n], key, low)
              + if AcceptedAt(s, w, labels, n, key) && State(s, w, labels, n).now > low then 1 else 0
  {
    hide Accepts;
    assert labels[..n + 1][..n] == labels[..n];
  }

  /** A challenge accepted after `low` is counted from then on. */
  lemma {:induction false} AcceptedIsCounted(s: Settings, w: World, labels: seq<Label>, i: nat, n: nat, key: Key,
          low: int)
    requires i < n <= |labels| && AcceptedAt(s, w, labels, i, key) && State(s, w, labels, i).now > low
    ensures AcceptedSince(s, w, labels[..n], key, low) >= 1
    decreases n
  {
    hide AcceptedSince, AcceptedAt;
    AcceptedNext(s, w, labels, n - 1, key, low);
    if i < n - 1 {
      AcceptedIsCounted(s, w, labels, i, n - 1, key, low);
    }
  }

  /** A positive count goes back to an accepted challenge. */
  lemma {:induction false} CountedWasAccepted(s: Settings, w: World, labels: seq<Label>, n: nat, key: Key, low: int)
    returns (i: nat)
    requires n <= |labels| && AcceptedSince(s, w, labels[..n], key, low) >= 1
    ensures i < n && AcceptedAt(s, w, labels, i, key) && State(s, w, labels, i).now > low
    ensures AcceptedSince(s, w, labels[..i], key, low) == AcceptedSince(s, w, labels[..n], key, low) - 1
    decreases n
  {
    assert labels[..0] == [];
    hide AcceptedAt;
    AcceptedNext(s, w, labels, n - 1, key, low);
    if AcceptedAt(s, w, labels, n - 1, key) && State(s, w, labels, n - 1).now > low {
      i := n - 1;
    } else {
      i := CountedWasAccepted(s, w, labels, n - 1, key, low);
    }
  }

  lemma OpenIsAccepted(s: Settings, w: World, labels: seq<Label>, n: nat, key: Key)
    requires w.rows == [] && n <= |labels|
    ensures OpenCount(State(s, w, labels, n), key) ==
        AcceptedSince(s, w, labels[..n], key, State(s, w, labels, n).now - OTP_TTL_SECONDS)
  {
    hide AcceptedSince, Count, After;
    CountIsAccepted(s, w, labels[..n], key, State(s, w, labels, n).now - OTP_TTL_SECONDS);
  }

  /**
   A wallet (or address, or client) has at most one unexpired challenge at every point of a run if and only if
   no challenge was accepted for it while an earlier one was unexpired.
   */
  lemma AtMostOneOpenIff(s: Settings, w: World, labels: seq<Label>, key: Key)
    requires w.rows == []
    ensures (forall n: nat :: n <= |labels| ==> OpenCount(State(s, w, labels, n), key) <= 1) <==>
        Spaced(s, w, labels, key)
  {
    hide AcceptedSince, OpenCount, After, Accepts;
    if Spaced(s, w, labels, key) {
      forall n: nat | n <= |labels| ensures OpenCount(State(s, w, labels, n), key) <= 1 {
        OpenIsAccepted(s, w, labels, n, key);
        var low := State(s, w, labels, n).now - OTP_TTL_SECONDS;
        if AcceptedSince(s, w, labels[..n], key, low) >= 2 {
          var j := CountedWasAccepted(s, w, labels, n, key, low);
          var i := CountedWasAccepted(s, w, labels, j, key, low);
          TimeGrows(s, w, labels, j, n);
          assert false;
        }
      }
    } else {
      var i: nat, j: nat :| i < j && AcceptedAt(s, w, labels, i, key) && AcceptedAt(s, w, labels, j, key)
                            && State(s, w, labels, j).now < State(s, w, labels, i).now + OTP_TTL_SECONDS;
      TwoOpen(s, w, labels, i, j, key);
    }
  }

  /** A challenge accepted while an earlier one is unexpired makes two. */
  lemma TwoOpen(s: Settings, w: World, labels: seq<Label>, i: nat, j: nat, key: Key)
    requires w.rows == [] && i < j && AcceptedAt(s, w, labels, i, key) && AcceptedAt(s, w, labels, j, key)
    requires State(s, w, labels, j).now < State(s, w, labels, i).now + OTP_TTL_SECONDS
    ensures j + 1 <= |labels| && OpenCount(State(s, w, labels, j + 1), key) >= 2
  {
    hide AcceptedSince, OpenCount, After, Apply, Accepts;
    var low := State(s, w, labels, j).now - OTP_TTL_SECONDS;
    AcceptedIsCounted(s, w, labels, i, j, key, low);
    AcceptedNext(s, w, labels, j, key, low);
    NextState(s, w, labels, j);
    AcceptingTakesNoTime(s, State(s, w, labels, j), labels[j], key);
    OpenIsAccepted(s, w, labels, j + 1, key);
  }

  lemma NextState(s: Settings, w: World, labels: seq<Label>, n: nat)
    requires n < |labels|
    ensures State(s, w, labels, n + 1) == Apply(s, State(s, w, labels, n), labels[n])
  {
    hide Apply;
    assert labels[..n + 1][..n] == labels[..n];
  }

  lemma AcceptingTakesNoTime(s: Settings, w: World, l: Label, key: Key)
    requires Accepts(w, l, key)
    ensures Apply(s, w, l).now == w.now
  {
  }

  /******* How far overlapping requests exceed the limit *******/

  ghost predicate OpenAtMost(w: World, bound: int) {
    forall key :: OpenCount(w, key) <= bound
  }

  /** No run with at most `overlap` requests at once has more than `bound` open challenges of a key. */
  ghost predicate LimitHolds(s: Settings, overlap: nat, bound: int) {
    forall w: World, labels: seq<Label> :: Initial(w) && OverlapWithin(s, w, labels, overlap) ==>
      OpenAtMost(After(s, w, labels), bound)
  }

  /**
   Nothing locks the table between count and insertion.  Exactly two more challenges than requests may overlap
   can be open for one wallet, address or client: the limit of three holds if and only if no two overlap.
   */
  lemma OverlapDecidesLimit(s: Settings, overlap: nat, bound: int)
    requires overlap >= 1
    ensures LimitHolds(s, overlap, bound) <==> bound >= overlap + CHALLENGE_LIMIT - 1
  {
    if bound >= overlap + CHALLENGE_LIMIT - 1 {
      forall w: World, labels: seq<Label> | Initial(w) && OverlapWithin(s, w, labels, overlap)
        ensures OpenAtMost(After(s, w, labels), bound)
      {
        hide OverlapWithin, After, RowsOk;
        InitialIsSound(w, overlap);
        RunKeeps(s, w, labels, overlap);
        forall key ensures OpenCount(After(s, w, labels), key) <= bound {
          assert OpenCount(After(s, w, labels), key) + |Counted(After(s, w, labels), key)| < CHALLENGE_LIMIT + overlap;
        }
      }
    } else {
      var w, p := World(0, [], 0, map[]), Party("", [], []);
      hide OverlapWithin, After, OpenCount;
      var labels := CrowdOpens(s, w, p, "", overlap);
      assert OpenCount(After(s, w, labels), Wallet("")) > bound;
      assert !OpenAtMost(After(s, w, labels), bound);
    }
  }

  /** `n` requests of one party, numbered from `first` on. */
  function Requests(p: Party, first: nat, n: nat): (m: map<nat, Party>)
    ensures |m| == n && forall r :: r in m ==> first <= r < first + n
  {
    if n == 0 then map[] else Requests(p, first, n - 1)[first + n - 1 := p]
  }

  lemma LastRequestGoes(p: Party, first: nat, n: nat)
    requires n > 0
    ensures var last := first + n - 1;
            && last in Requests(p, first, n) && Requests(p, first, n)[last] == p
            && Requests(p, first, n) - {last} == Requests(p, first, n - 1)
  {
    var rest: map<nat, Party> := Requests(p, first, n - 1);
    assert rest[first + n - 1 := p] - {first + n - 1} == rest;
  }

  /** The party has `open` challenges, and its requests from `first` on, `n` of them, are about to insert. */
  ghost predicate Crowd(v: World, now: int, p: Party, open: nat, first: nat, n: nat) {
    && v.now == now && RecentCount(v.rows, now, p) == open && OpenCount(v, Wallet(p.wallet)) == open
    && v.counted == Requests(p, first, n)
  }

  lemma CrowdIsCounted(v: World, now: int, p: Party, open: nat, first: nat, n: nat)
    requires Crowd(v, now, p, open, first, n)
    ensures |v.counted| == n
  {
  }

  lemma Extend(s: Settings, w: World, labels: seq<Label>, l: Label, overlap: nat)
    requires OverlapWithin(s, w, labels, overlap) && |Apply(s, After(s, w, labels), l).counted| <= overlap
    ensures OverlapWithin(s, w, labels + [l], overlap)
    ensures After(s, w, labels + [l]) == Apply(s, After(s, w, labels), l)
  {
    hide Apply;
    var all := labels + [l];
    assert all[..|labels|] == labels && all[..|all|] == all;
    forall n: nat | n <= |all| ensures |State(s, w, all, n).counted| <= overlap {
      if n <= |labels| {
        assert all[..n] == labels[..n];
        assert |State(s, w, labels, n).counted| <= overlap;
      }
    }
  }

  lemma AskJoins(s: Settings, v: World, now: int, p: Party, open: nat, first: nat, n: nat)
    requires Crowd(v, now, p, open, first, n) && open < CHALLENGE_LIMIT
    ensures Crowd(Apply(s, v, Ask(first + n, p)), now, p, open, first, n + 1)
  {
    hide RecentCount, Count;
  }

  /** The last request to be counted inserts first. */
  lemma InsertOpens(s: Settings, v: World, now: int, p: Party, open: nat, first: nat, n: nat, code: string)
    requires Crowd(v, now, p, open, first, n) && n > 0
    ensures Crowd(Apply(s, v, Insert(first + n - 1, code)), now, p, open + 1, first, n - 1)
  {
    LastRequestGoes(p, first, n);
    InsertIsCounted(s, v, first + n - 1, code, Wallet(p.wallet), now - OTP_TTL_SECONDS);
    var u := Apply(s, v, Insert(first + n - 1, code));
    assert u.rows[..|u.rows| - 1] == v.rows;
    hide Count, Requests;
  }

  lemma NoneCounted(v: World, now: int, p: Party, open: nat, first: nat, other: nat)
    requires Crowd(v, now, p, open, first, 0)
    ensures Crowd(v, now, p, open, other, 0)
  {
  }

  /** One request after the other. */
  lemma OneByOne(s: Settings, w: World, labels: seq<Label>, p: Party, code: string, open: nat) returns (all: seq<Label>)
    requires OverlapWithin(s, w, labels, 1) && Crowd(After(s, w, labels), w.now, p, open, open, 0)
    requires open < CHALLENGE_LIMIT
    ensures all == labels + [Ask(open, p), Insert(open, code)]
    ensures OverlapWithin(s, w, all, 1) && Crowd(After(s, w, all), w.now, p, open + 1, open + 1, 0)
  {
    hide OverlapWithin, After, Apply, OpenCount, RecentCount, Requests, Crowd;
    AskJoins(s, After(s, w, labels), w.now, p, open, open, 0);
    CrowdIsCounted(Apply(s, After(s, w, labels), Ask(open, p)), w.now, p, open, open, 1);
    Extend(s, w, labels, Ask(open, p), 1);
    all := labels + [Ask(open, p)];
    InsertOpens(s, After(s, w, all), w.now, p, open, open, 1, code);
    CrowdIsCounted(Apply(s, After(s, w, all), Insert(open, code)), w.now, p, open + 1, open, 0);
    NoneCounted(Apply(s, After(s, w, all), Insert(open, code)), w.now, p, open + 1, open, open + 1);
    Extend(s, w, all, Insert(open, code), 1);
    all := all + [Insert(open, code)];
  }

  lemma StartsEmpty(s: Settings, w: World, p: Party)
    requires Initial(w)
    ensures OverlapWithin(s, w, [], 1) && After(s, w, []) == w && Crowd(w, w.now, p, 0, 0, 0)
  {
  }

  /** Three challenges of one wallet are open at one instant, the most there can be without overlap. */
  lemma ThreeAreOpen(s: Settings, w: World, p: Party, code: string) returns (labels: seq<Label>)
    requires Initial(w)
    ensures labels == [Ask(0, p), Insert(0, code), Ask(1, p), Insert(1, code), Ask(2, p), Insert(2, code)]
    ensures OverlapWithin(s, w, labels, 1)
    ensures OpenCount(State(s, w, labels, 4), Wallet(p.wallet)) == 2
    ensures OpenCount(State(s, w, labels, 6), Wallet(p.wallet)) == CHALLENGE_LIMIT
    ensures State(s, w, labels, 6).now == w.now
  {
    StartsEmpty(s, w, p);
    hide OverlapWithin, After, OpenCount, RecentCount;
    labels := OneByOne(s, w, [], p, code, 0);
    labels := OneByOne(s, w, labels, p, code, 1);
    var two := labels;
    labels := OneByOne(s, w, labels, p, code, 2);
    assert labels[..4] == two && labels[..6] == labels;
  }

  lemma {:induction false} AllAsk(s: Settings, w: World, labels: seq<Label>, p: Party, overlap: nat, n: nat)
    returns (all: seq<Label>)
    requires OverlapWithin(s, w, labels, overlap) && Crowd(After(s, w, labels), w.now, p, 2, 2, 0) && n <= overlap
    ensures OverlapWithin(s, w, all, overlap) && Crowd(After(s, w, all), w.now, p, 2, 2, n)
  {
    hide OverlapWithin, After, Apply, OpenCount, RecentCount, Requests, Crowd;
    all := labels;
    if n > 0 {
      all := AllAsk(s, w, labels, p, overlap, n - 1);
      AskJoins(s, After(s, w, all), w.now, p, 2, 2, n - 1);
      CrowdIsCounted(Apply(s, After(s, w, all), Ask(n + 1, p)), w.now, p, 2, 2, n);
      Extend(s, w, all, Ask(n + 1, p), overlap);
      all := all + [Ask(n + 1, p)];
    }
  }

  lemma {:induction false} AllInsert(s: Settings, w: World, labels: seq<Label>, p: Party, code: string, overlap: nat,
          n: nat) returns (all: seq<Label>)
    requires OverlapWithin(s, w, labels, overlap) && Crowd(After(s, w, labels), w.now, p, 2, 2, overlap) && n <= overlap
    ensures OverlapWithin(s, w, all, overlap) && Crowd(After(s, w, all), w.now, p, n + 2, 2, overlap - n)
  {
    hide OverlapWithin, After, Apply, OpenCount, RecentCount, Requests, Crowd;
    all := labels;
    if n > 0 {
      all := AllInsert(s, w, labels, p, code, overlap, n - 1);
      var l := Insert(2 + (overlap - n), code);
      InsertOpens(s, After(s, w, all), w.now, p, n + 1, 2, overlap - n + 1, code);
      CrowdIsCounted(Apply(s, After(s, w, all), l), w.now, p, n + 2, 2, overlap - n);
      Extend(s, w, all, l, overlap);
      all := all + [l];
    }
  }

  lemma MoreMayOverlap(s: Settings, w: World, labels: seq<Label>, overlap: nat)
    requires OverlapWithin(s, w, labels, 1) && overlap >= 1
    ensures OverlapWithin(s, w, labels, overlap)
  {
  }

  /** Two challenges are open, `overlap` requests are counted, and then all insert, at one instant. */
  lemma CrowdOpens(s: Settings, w: World, p: Party, code: string, overlap: nat) returns (labels: seq<Label>)
    requires Initial(w) && overlap >= 1
    ensures OverlapWithin(s, w, labels, overlap) && After(s, w, labels).now == w.now
    ensures OpenCount(After(s, w, labels), Wallet(p.wallet)) == overlap + CHALLENGE_LIMIT - 1
  {
    StartsEmpty(s, w, p);
    hide OverlapWithin, After, OpenCount, RecentCount;
    labels := OneByOne(s, w, [], p, code, 0);
    labels := OneByOne(s, w, labels, p, code, 1);
    MoreMayOverlap(s, w, labels, overlap);
    labels := AllAsk(s, w, labels, p, overlap, overlap);
    labels := AllInsert(s, w, labels, p, code, overlap, overlap);
  }

  /******* A challenge is verified at most once *******/

  /** The step verifies the challenge with this id. */
  predicate Verifies(s: Settings, w: World, l: Label, id: nat) {
    && l.Verify? && Compared(w, l.wallet).Some?
    && var row := w.rows[Compared(w, l.wallet).value];
    row.id == id && row.codeHash == s.hmac(l.wallet, l.code)
  }

  /** The challenge has been verified, or is gone. */
  predicate Settled(w: World, id: nat) {
    id < w.nextId && forall i :: 0 <= i < |w.rows| && w.rows[i].id == id ==> w.rows[i].verifiedAt.Some?
  }

  lemma VerifyingSettles(s: Settings, w: World, l: Label, id: nat)
    requires RowsOk(w) && Verifies(s, w, l, id)
    ensures !Settled(w, id) && Settled(Apply(s, w, l), id)
  {
  }

  lemma SettledStays(s: Settings, w: World, l: Label, id: nat)
    requires Settled(w, id)
    ensures Settled(Apply(s, w, l), id)
  {
    if l.Clean? {
      RetainedRows(w.rows, w.now - RETENTION_SECONDS);
      var v := Apply(s, w, l);
      forall i | 0 <= i < |v.rows| && v.rows[i].id == id ensures v.rows[i].verifiedAt.Some? {
        assert v.rows[i] in w.rows;
      }
    }
  }

  lemma {:induction false} SettledForever(s: Settings, w: World, labels: seq<Label>, m: nat, n: nat, id: nat)
    requires m <= n <= |labels| && Settled(State(s, w, labels, m), id)
    ensures Settled(State(s, w, labels, n), id)
    decreases n
  {
    if m < n {
      hide Apply, Settled;
      SettledForever(s, w, labels, m, n - 1, id);
      assert labels[..n][..n - 1] == labels[..n - 1];
      SettledStays(s, State(s, w, labels, n - 1), labels[n - 1], id);
    }
  }

  /** In every run each challenge is verified at most once, cleanups included. */
  lemma VerifiedAtMostOnce(s: Settings, w: World, labels: seq<Label>, m: nat, n: nat, id: nat)
    requires w.rows == [] && m < n < |labels|
    requires Verifies(s, State(s, w, labels, m), labels[m], id)
    ensures !Verifies(s, State(s, w, labels, n), labels[n], id)
  {
    NoRowsIsOk(w);
    hide Apply, RowsOk, Settled, Verifies;
    RowsKeep(s, w, labels[..m]);
    RowsKeep(s, w, labels[..n]);
    VerifyingSettles(s, State(s, w, labels, m), labels[m], id);
    assert labels[..m + 1][..m] == labels[..m];
    SettledForever(s, w, labels, m + 1, n, id);
    if Verifies(s, State(s, w, labels, n), labels[n], id) {
      VerifyingSettles(s, State(s, w, labels, n), labels[n], id);
    }
  }
}
