/** What holds in every run of the send protocol. */
module SendTheorems {
  import opened Wrappers
  import opened ByteCodec
  import opened Crypto
  import opened Gbyl
  import opened Gtx1
  import opened Gibyeol2026
  import opened SendProtocol

  lemma {:induction false} RunKeeps(c: Config, w: World, labels: seq<Label>)
    requires c.Valid() && Invariant(c, w) && Runs(c, w, labels)
    ensures Invariant(c, After(c, w, labels)) && Extends(w, After(c, w, labels))
    decreases |labels|
  {
    hide Enabled, Apply, Invariant, Extends, Config.Valid;
    if labels == [] {
      ExtendsReflexive(w);
    } else {
      var before := labels[..|labels| - 1];
      RunKeeps(c, w, before);
      StepKeeps(c, After(c, w, before), labels[|labels| - 1]);
      ExtendsTransitive(w, After(c, w, before), After(c, w, labels));
    }
  }

  lemma ExtendsReflexive(w: World)
    ensures Extends(w, w)
  {
  }

  lemma ExtendsTransitive(u: World, v: World, w: World)
    requires Extends(u, v) && Extends(v, w)
    ensures Extends(u, w)
  {
    forall owner: Address ensures u.chain.CurrentKeyId(owner) <= w.chain.CurrentKeyId(owner) {
      assert u.chain.CurrentKeyId(owner) <= v.chain.CurrentKeyId(owner);
    }
    forall owner: Address, keyId: nat | u.chain.Registered(owner, keyId)
      ensures w.chain.PublicKey(owner, keyId) == u.chain.PublicKey(owner, keyId)
    {
      assert v.chain.PublicKey(owner, keyId) == u.chain.PublicKey(owner, keyId);
    }
    assert forall t :: t in u.receipts ==> t in v.receipts && v.receipts[t] == u.receipts[t];
  }

  /** The state before the n-th step. */
  ghost function State(c: Config, w: World, labels: seq<Label>, n: nat): World
    requires n <= |labels| && Runs(c, w, labels[..n])
  {
    After(c, w, labels[..n])
  }

  lemma {:induction false} PrefixRuns(c: Config, w: World, labels: seq<Label>, n: nat)
    requires Runs(c, w, labels) && n <= |labels|
    ensures Runs(c, w, labels[..n])
    decreases |labels|
  {
    hide Enabled, Apply;
    if n == |labels| {
      assert labels[..n] == labels;
    } else {
      PrefixRuns(c, w, labels[..|labels| - 1], n);
      assert labels[..|labels| - 1][..n] == labels[..n];
    }
  }

  /** One step inside a run. */
  lemma StepOfRun(c: Config, w: World, labels: seq<Label>, n: nat)
    requires Runs(c, w, labels) && n < |labels|
    ensures Runs(c, w, labels[..n]) && Runs(c, w, labels[..n + 1])
    ensures Enabled(c, After(c, w, labels[..n]), labels[n])
    ensures After(c, w, labels[..n + 1]) == Apply(c, After(c, w, labels[..n]), labels[n])
  {
    PrefixRuns(c, w, labels, n);
    PrefixRuns(c, w, labels, n + 1);
    hide Enabled, Apply;
    assert labels[..n + 1][..n] == labels[..n];
  }

  lemma InitialIsSound(c: Config, w: World)
    requires Initial(c, w)
    ensures Invariant(c, w)
  {
  }

  /** The invariant holds at every point of every run, and no point loses what an earlier one had. */
  lemma ReachableIsSound(c: Config, w: World, labels: seq<Label>, n: nat)
    requires Initial(c, w) && Runs(c, w, labels) && n <= |labels|
    ensures Runs(c, w, labels[..n]) && Invariant(c, State(c, w, labels, n))
  {
    PrefixRuns(c, w, labels, n);
    InitialIsSound(c, w);
    RunKeeps(c, w, labels[..n]);
  }

  /******* One payload per letter *******/

  predicate OwnTransaction(c: Config, w: World, t: nat) {
    t < |w.transactions| && Ours(c, w, w.transactions[t])
  }

  predicate SamePayload(a: SealCall, b: SealCall) {
    a == b.(recipientKeyId := a.recipientKeyId, sealedKey := a.sealedKey)
  }

  /**
   All submissions ever made for one letter id agree on everything but the recipient key and the key
   sealed under it, and at most one event is ever emitted for it.
   */
  lemma OnePayloadPerLetter(c: Config, w: World, labels: seq<Label>)
    requires Initial(c, w) && Runs(c, w, labels)
    ensures var v := After(c, w, labels);
            && (forall s: nat, t: nat ::
                  && OwnTransaction(c, v, s) && OwnTransaction(c, v, t)
                  && v.transactions[s].letterId == v.transactions[t].letterId ==>
                  SamePayload(v.transactions[s], v.transactions[t]))
            && (forall i, j :: 0 <= i < |v.chain.events| && 0 <= j < |v.chain.events| ==>
                  (v.chain.events[i].letterId == v.chain.events[j].letterId ==> i == j))
  {
    ReachableIsSound(c, w, labels, |labels|);
    assert labels[..|labels|] == labels;
    var v := After(c, w, labels);
    hide ParcelOk, OpensTo, DraftOk, EventOk;
    assert forall t :: 0 <= t < |v.transactions| && Ours(c, v, v.transactions[t]) ==> Delivers(c, v, v.transactions[t]);
  }

  /******* Key rotation *******/

  /**
   However the recipient rotates keys, a draft waiting for its transaction holds its letter key
   sealed under the key it names.
   */
  lemma WaitingDraftOpens(c: Config, w: World, labels: seq<Label>, d: Draft)
    requires Initial(c, w) && Runs(c, w, labels)
    requires After(c, w, labels).memory == Some(d) || After(c, w, labels).stored == Some(d)
    requires d.stage == WaitingTransaction
    ensures d.recipientKeyId.Some? && d.sealedKey.Some? && d.letterKey.Some?
    ensures var chain, owner, keyId := After(c, w, labels).chain, AddressOf(d.recipient), d.recipientKeyId.value;
            && chain.Registered(owner, keyId)
            && OpensTo(c.primitives, c.tlock, d.sealedKey.value, chain.PublicKey(owner, keyId), d.letterKey.value)
  {
    ReachableIsSound(c, w, labels, |labels|);
    assert labels[..|labels|] == labels;
    assert Loaded(d) == d;
    assert DraftOk(c, After(c, w, labels), d);
  }

  /******* Uploads come first *******/

  lemma SubmitIsBacked(c: Config, w: World, l: Label)
    requires Invariant(c, w) && l.Submit? && Enabled(c, w, l)
    ensures var v := Apply(c, w, l);
            && |v.transactions| == |w.transactions| + 1
            && exists archive :: archive in w.uploads && ParseArchive(archive).Ok?
                 && v.transactions[|w.transactions|].archiveSha256 == c.Sha256(archive)
  {
    var d := w.memory.value;
    hide LedgerOk, Delivers, Config.Sha256, ParseArchive;
    assert DraftOk(c, w, d);
    assert ParcelOk(c, d.letterId, w.parcels[d.letterId]);
  }

  /** Whenever a transaction is submitted, the archive it names has already been accepted by the package store. */
  lemma UploadPrecedesSubmission(c: Config, w: World, labels: seq<Label>, n: nat)
    requires Initial(c, w) && Runs(c, w, labels) && n < |labels| && labels[n].Submit?
    ensures Runs(c, w, labels[..n]) && Runs(c, w, labels[..n + 1])
    ensures var before, after := State(c, w, labels, n), State(c, w, labels, n + 1);
            && |after.transactions| == |before.transactions| + 1
            && exists archive :: archive in before.uploads && ParseArchive(archive).Ok?
                 && after.transactions[|before.transactions|].archiveSha256 == c.Sha256(archive)
  {
    ReachableIsSound(c, w, labels, n);
    StepOfRun(c, w, labels, n);
    SubmitIsBacked(c, State(c, w, labels, n), labels[n]);
  }

  /******* SEALED *******/

  /** Sealed without the sender's own letter on chain. */
  predicate SealedInVain(c: Config, w: World, d: Draft) {
    d.stage == Sealed && !OwnEvent(c, w, d.letterId)
  }

  /** A draft shown or stored as sealed has its letter on chain, sent by this account. */
  predicate SealedJustified(c: Config, w: World) {
    && (w.memory.Some? ==> !SealedInVain(c, w, w.memory.value))
    && (w.stored.Some? ==> !SealedInVain(c, w, w.stored.value))
  }

  /** The check the resume branch omits: the stored transaction reverted, and the chain does not have the letter. */
  predicate StoredTransactionFailed(w: World) {
    && w.memory.Some? && w.memory.value.transactionHash.Some?
    && w.memory.value.transactionHash.value in w.receipts
    && w.receipts[w.memory.value.transactionHash.value].Reverted?
    && w.memory.value.letterId !in w.chain.sealedLetters
  }

  /** The check both sealing steps omit: the event of the draft's id names another sender. */
  predicate EventNamesOther(c: Config, w: World) {
    w.memory.Some? && TakenByOther(c, w, w.memory.value.letterId)
  }

  /** The step seals a draft that one of the two checks would have caught. */
  predicate SkipsCheck(c: Config, w: World, l: Label) {
    || (l.SealResumed? && StoredTransactionFailed(w))
    || ((l.SealResumed? || l.SealRecovered?) && EventNamesOther(c, w))
  }

  /** A draft that is sealed after a step was sealed before it, or was sealed by this step from the draft in memory. */
  lemma SealedBySealing(c: Config, w: World, l: Label, d: Draft)
    requires Enabled(c, w, l) && d.stage == Sealed
    requires Apply(c, w, l).memory == Some(d) || Apply(c, w, l).stored == Some(d)
    ensures || w.memory == Some(d) || w.stored == Some(d)
            || ((l.SealRecovered? || l.SealResumed?) && w.memory.Some? && d.letterId == w.memory.value.letterId)
  {
    hide FixedHex, Lower, Gbyl.Pack, EncryptText, Config.ContextOf, Config.Sha256, Config.IsAddress, Chain.SealLetter,
      Chain.RegisterMailboxKey, Chain.DeactivateMailbox, WrapFor, CallOf;
  }

  lemma OwnEventGrows(c: Config, w: World, v: World, letterId: Bytes32)
    requires OwnEvent(c, w, letterId) && w.chain.events <= v.chain.events
    ensures OwnEvent(c, v, letterId)
  {
    var i :| 0 <= i < |w.chain.events| && w.chain.events[i].letterId == letterId
        && w.chain.events[i].sender == c.Sender();
    assert v.chain.events[i] == w.chain.events[i];
  }

  /** A step leaves SEALED justified exactly unless it seals past one of the two checks. */
  lemma StepIsJustified(c: Config, w: World, l: Label)
    requires c.Valid() && Invariant(c, w) && Enabled(c, w, l) && SealedJustified(c, w)
    ensures SealedJustified(c, Apply(c, w, l)) <==> !SkipsCheck(c, w, l)
  {
    hide Enabled, Apply, Invariant, Config.Valid, Chain.Grows, OwnEvent, StoredTransactionFailed, EventNamesOther;
    if l.SealResumed? || l.SealRecovered? {
      SealingIsJustifiedIff(c, w, l);
    } else {
      StepKeeps(c, w, l);
      var v := Apply(c, w, l);
      GrowsKeepsLetters(w.chain, v.chain);
      forall d | (v.memory == Some(d) || v.stored == Some(d)) && d.stage == Sealed ensures OwnEvent(c, v, d.letterId) {
        SealedBySealing(c, w, l, d);
        OwnEventGrows(c, w, v, d.letterId);
      }
    }
  }

  /** A successful transaction of the sender has the event of its letter. */
  lemma SuccessHasOwnEvent(c: Config, w: World, t: nat)
    requires LedgerOk(w) && t in w.receipts && w.receipts[t] == Success && w.transactions[t].from == c.Sender()
    ensures OwnEvent(c, w, w.transactions[t].letterId)
  {
    hide Chain.Valid;
    assert Emitted(w, t);
    var i :| 0 <= i < |w.chain.events| && w.chain.events[i].transaction == t;
    assert EventOk(w, w.chain.events[i]);
  }

  /** What the two sealing steps find on chain. */
  lemma SealingFinds(c: Config, w: World, l: Label)
    requires Invariant(c, w) && (l.SealResumed? || l.SealRecovered?) && Enabled(c, w, l)
    ensures w.memory.Some? && (OwnEvent(c, w, w.memory.value.letterId) <==> !SkipsCheck(c, w, l))
  {
    hide ParcelOk, Delivers, HoldsParcel, KeyKnown, OwnEvent, TakenByOther;
    var d := w.memory.value;
    assert DraftOk(c, w, d);
    SealedByOneSender(c, w, d.letterId);
    if l.SealResumed? && w.receipts[d.transactionHash.value] == Success {
      SuccessHasOwnEvent(c, w, d.transactionHash.value);
    }
  }

  lemma SealingIsJustifiedIff(c: Config, w: World, l: Label)
    requires Invariant(c, w) && (l.SealResumed? || l.SealRecovered?) && Enabled(c, w, l)
    ensures SealedJustified(c, Apply(c, w, l)) <==> !SkipsCheck(c, w, l)
  {
    SealingFinds(c, w, l);
    SealingChanges(c, w, l);
    hide Invariant, OwnEvent, SkipsCheck, Enabled, Apply;
    SameEvents(c, w, Apply(c, w, l), w.memory.value.letterId);
  }

  lemma SealingChanges(c: Config, w: World, l: Label)
    requires (l.SealResumed? || l.SealRecovered?) && Enabled(c, w, l)
    ensures var v := Apply(c, w, l);
            && v.chain == w.chain && v.memory == v.stored && v.memory.Some?
            && w.memory.Some? && v.memory.value.letterId == w.memory.value.letterId && v.memory.value.stage == Sealed
  {
  }

  lemma SameEvents(c: Config, w: World, v: World, letterId: Bytes32)
    requires v.chain == w.chain
    ensures OwnEvent(c, v, letterId) == OwnEvent(c, w, letterId)
  {
  }

  ghost predicate JustifiedAt(c: Config, w: World, labels: seq<Label>, n: nat) {
    n <= |labels| && Runs(c, w, labels[..n]) && SealedJustified(c, State(c, w, labels, n))
  }

  ghost predicate SkipsCheckAt(c: Config, w: World, labels: seq<Label>, n: nat) {
    n < |labels| && Runs(c, w, labels[..n]) && SkipsCheck(c, State(c, w, labels, n), labels[n])
  }

  lemma {:induction false} JustifiedUntilSkipped(c: Config, w: World, labels: seq<Label>, n: nat)
    requires Initial(c, w) && Runs(c, w, labels) && n <= |labels|
    requires forall m: nat :: m < n ==> !SkipsCheckAt(c, w, labels, m)
    ensures JustifiedAt(c, w, labels, n)
  {
    hide Enabled, Apply, Invariant, SealedJustified, SkipsCheck;
    ReachableIsSound(c, w, labels, n);
    if n == 0 {
      InitialIsJustified(c, w);
      assert labels[..0] == [];
    } else {
      JustifiedUntilSkipped(c, w, labels, n - 1);
      ReachableIsSound(c, w, labels, n - 1);
      StepOfRun(c, w, labels, n - 1);
      StepIsJustified(c, State(c, w, labels, n - 1), labels[n - 1]);
      assert !SkipsCheckAt(c, w, labels, n - 1);
    }
  }

  lemma InitialIsJustified(c: Config, w: World)
    requires Initial(c, w)
    ensures SealedJustified(c, w)
  {
  }

  /** No step of the run seals past either check. */
  ghost predicate ChecksHold(c: Config, w: World, labels: seq<Label>) {
    forall n: nat :: n < |labels| ==> !SkipsCheckAt(c, w, labels, n)
  }

  /**
   In every run, a draft shown or stored as sealed has its own letter on chain at every point, if and only if
   the run never seals a draft whose stored transaction had failed or whose id someone else had used.
   */
  lemma SealedIsJustifiedIff(c: Config, w: World, labels: seq<Label>)
    requires Initial(c, w) && Runs(c, w, labels)
    ensures (forall n: nat :: n <= |labels| ==> JustifiedAt(c, w, labels, n)) <==> ChecksHold(c, w, labels)
  {
    if ChecksHold(c, w, labels) {
      forall n: nat | n <= |labels| ensures JustifiedAt(c, w, labels, n) {
        JustifiedUntilSkipped(c, w, labels, n);
      }
    } else {
      var n: nat :| n < |labels| && SkipsCheckAt(c, w, labels, n);
      hide Enabled, Apply, Invariant, SealedJustified, SkipsCheck, Runs;
      if JustifiedAt(c, w, labels, n) {
        ReachableIsSound(c, w, labels, n);
        StepOfRun(c, w, labels, n);
        StepIsJustified(c, State(c, w, labels, n), labels[n]);
        assert !JustifiedAt(c, w, labels, n + 1);
      }
    }
  }

  /** When the checks hold, the letter of a sealed draft is on chain, and it is one of this browser's. */
  lemma SealedDraftIsOnChain(c: Config, w: World, labels: seq<Label>, d: Draft) returns (i: nat)
    requires Initial(c, w) && Runs(c, w, labels) && ChecksHold(c, w, labels)
    requires After(c, w, labels).memory == Some(d) || After(c, w, labels).stored == Some(d)
    requires d.stage == Sealed
    ensures var v := After(c, w, labels);
            && d.letterId in v.letterIds && i < |v.chain.events|
            && v.chain.events[i].letterId == d.letterId && v.chain.events[i].sender == c.Sender()
  {
    hide Runs, Initial, Invariant;
    JustifiedUntilSkipped(c, w, labels, |labels|);
    ReachableIsSound(c, w, labels, |labels|);
    assert labels[..|labels|] == labels;
    var v := After(c, w, labels);
    SealedIsKnown(c, v, d);
    i :| 0 <= i < |v.chain.events| && v.chain.events[i].letterId == d.letterId
        && v.chain.events[i].sender == c.Sender();
  }

  lemma SealedIsKnown(c: Config, w: World, d: Draft)
    requires Invariant(c, w) && (w.memory == Some(d) || w.stored == Some(d)) && d.stage == Sealed
    ensures d.letterId in w.letterIds
  {
    hide SharedOk;
    assert Loaded(d) == d;
    assert DraftOk(c, w, d);
  }

  /******* SEALED is absorbing *******/

  lemma SealedStays(c: Config, w: World, l: Label)
    requires Invariant(c, w) && Enabled(c, w, l) && !l.Reset?
    requires w.stored.Some? && w.stored.value.stage == Sealed
    ensures Apply(c, w, l).stored == w.stored
    ensures Apply(c, w, l).memory.None? || Apply(c, w, l).memory == w.stored
  {
    hide Invariant, FixedHex, Lower, Gbyl.Pack, EncryptText, Config.ContextOf, Config.Sha256, Config.IsAddress,
        Chain.SealLetter,
      Chain.RegisterMailboxKey, Chain.DeactivateMailbox, WrapFor, CallOf;
    MemoryInStep(c, w);
  }

  lemma MemoryInStep(c: Config, w: World)
    requires Invariant(c, w)
    ensures w.memory.Some? && w.stored.Some? && w.stored.value.stage == Sealed ==> w.memory == w.stored
  {
  }

  /** Once a sealed draft is stored it is what every later visit shows, until the sender starts a new letter. */
  lemma {:induction false} SealedIsAbsorbing(c: Config, w: World, labels: seq<Label>, m: nat, n: nat)
    requires Initial(c, w) && Runs(c, w, labels) && m <= n <= |labels|
    requires forall k :: m <= k < n ==> !labels[k].Reset?
    requires Runs(c, w, labels[..m]) && State(c, w, labels, m).stored.Some?
        && State(c, w, labels, m).stored.value.stage == Sealed
    ensures Runs(c, w, labels[..n])
    ensures State(c, w, labels, n).stored == State(c, w, labels, m).stored
    ensures State(c, w, labels, n).memory.None? || State(c, w, labels, n).memory == State(c, w, labels, m).stored
  {
    hide Enabled, Apply, Invariant, Runs;
    ReachableIsSound(c, w, labels, n);
    if m == n {
      MemoryInStep(c, State(c, w, labels, n));
    } else {
      SealedIsAbsorbing(c, w, labels, m, n - 1);
      ReachableIsSound(c, w, labels, n - 1);
      StepOfRun(c, w, labels, n - 1);
      SealedStays(c, State(c, w, labels, n - 1), labels[n - 1]);
    }
  }

  /** The only steps that drop the stored letter key are the two that seal and the start of a new letter. */
  lemma KeyIsDroppedOnlyBySealing(c: Config, w: World, l: Label)
    requires Invariant(c, w) && Enabled(c, w, l)
    requires w.stored.Some? && w.stored.value.letterKey.Some?
    requires Apply(c, w, l).stored.Some? && Apply(c, w, l).stored.value.letterKey.None?
    ensures l.Reset? || (Apply(c, w, l).stored.value.stage == Sealed && Apply(c, w, l).stored.value.message == "")
  {
    hide FixedHex, Lower, Gbyl.Pack, EncryptText, Config.ContextOf, Config.Sha256, Config.IsAddress, Chain.SealLetter,
      Chain.RegisterMailboxKey, Chain.DeactivateMailbox, WrapFor, CallOf, DraftOk, SharedOk;
  }

  /******* A letter can be shown as sealed that is not on chain *******/

  lemma Take(c: Config, w: World, labels: seq<Label>, l: Label)
    requires Runs(c, w, labels) && Enabled(c, After(c, w, labels), l)
    ensures Runs(c, w, labels + [l]) && After(c, w, labels + [l]) == Apply(c, After(c, w, labels), l)
  {
    hide Enabled, Apply;
    assert (labels + [l])[..|labels|] == labels;
  }

  predicate StepsTo(c: Config, w: World, l: Label, v: World) {
    Enabled(c, w, l) && Apply(c, w, l) == v
  }

  lemma ThreeSteps(c: Config, w: World, w1: World, w2: World, w3: World, l1: Label, l2: Label, l3: Label)
    requires StepsTo(c, w, l1, w1) && StepsTo(c, w1, l2, w2) && StepsTo(c, w2, l3, w3)
    ensures Runs(c, w, [l1, l2, l3]) && After(c, w, [l1, l2, l3]) == w3
  {
    hide Enabled, Apply;
    assert Runs(c, w, []) && After(c, w, []) == w;
    Take(c, w, [], l1);
    assert [] + [l1] == [l1];
    Take(c, w, [l1], l2);
    assert [l1] + [l2] == [l1, l2];
    Take(c, w, [l1, l2], l3);
    assert [l1, l2] + [l3] == [l1, l2, l3];
  }

  lemma FiveSteps(c: Config, w: World, w1: World, w2: World, w3: World, w4: World, w5: World,
                  l1: Label, l2: Label, l3: Label, l4: Label, l5: Label)
    requires StepsTo(c, w, l1, w1) && StepsTo(c, w1, l2, w2) && StepsTo(c, w2, l3, w3)
    requires StepsTo(c, w3, l4, w4) && StepsTo(c, w4, l5, w5)
    ensures Runs(c, w, [l1, l2, l3, l4, l5]) && After(c, w, [l1, l2, l3, l4, l5]) == w5
  {
    hide Enabled, Apply;
    ThreeSteps(c, w, w1, w2, w3, l1, l2, l3);
    Take(c, w, [l1, l2, l3], l4);
    assert [l1, l2, l3] + [l4] == [l1, l2, l3, l4];
    Take(c, w, [l1, l2, l3, l4], l5);
    assert [l1, l2, l3, l4] + [l5] == [l1, l2, l3, l4, l5];
  }

  lemma SubmitAndRecord(c: Config, w: World, d: Draft, t: nat) returns (w1: World, w2: World)
    requires w.memory == Some(d) && d.stage == WaitingTransaction && t == |w.transactions|
    requires d.recipientKeyId.Some? && d.encryptedText.Some? && d.sealedKey.Some? && d.archiveSha256.Some?
    ensures StepsTo(c, w, Submit, w1) && StepsTo(c, w1, RecordHash(t), w2)
    ensures w2 == Persist(w.(transactions := w.transactions + [CallOf(c, d)]), d.(transactionHash := Some(t)))
  {
    hide AddressOf;
    w1 := w.(transactions := w.transactions + [CallOf(c, d)]);
    w2 := Persist(w1, d.(transactionHash := Some(t)));
  }

  lemma DeactivateAndMine(c: Config, w: World, recipient: Address, t: nat) returns (w1: World, w2: World)
    requires recipient in w.chain.mailboxActive && w.chain.CurrentKeyId(recipient) >= 1
    requires t < |w.transactions| && t !in w.receipts && w.transactions[t].recipient == recipient
    ensures StepsTo(c, w, Deactivate(recipient), w1) && StepsTo(c, w1, Mine(t), w2)
    ensures t in w2.receipts && w2.memory == w.memory && w2.stored == w.stored
    ensures w2.chain.sealedLetters == w.chain.sealedLetters
  {
    w1 := w.(chain := w.chain.DeactivateMailbox(recipient).value);
    assert w1.chain.SealLetter(w1.transactions[t], t).Err?;
    w2 := Execute(w1, t);
  }

  lemma ReadyToSubmit(c: Config, w: World, d: Draft)
    requires Invariant(c, w) && w.memory == Some(d) && d.stage == WaitingTransaction
    ensures d.recipientKeyId.Some? && d.encryptedText.Some? && d.sealedKey.Some? && d.archiveSha256.Some?
    ensures |w.transactions| !in w.receipts
    ensures forall owner :: owner in w.chain.mailboxActive ==> w.chain.CurrentKeyId(owner) >= 1
  {
    hide ParcelOk, EventOk, Delivers;
    assert DraftOk(c, w, d);
  }

  lemma Resume(c: Config, w: World, d: Draft, t: nat)
    requires w.memory == Some(d) && d.stage == WaitingTransaction && d.transactionHash == Some(t) && t in w.receipts
    ensures StepsTo(c, w, SealResumed, Persist(w, SealedDraft(d, Some(t))))
  {
  }

  /**
   From every sound state in which a draft waits for its first transaction and its recipient is active,
   this run ends with the draft sealed, its message and key gone, and no such letter on chain: submit,
   record the hash, the recipient deactivates the mailbox, the transaction reverts, resume.
   */
  lemma SealedWithoutLetter(c: Config, w: World)
    requires c.Valid() && Invariant(c, w) && InStage(w, WaitingTransaction)
    requires w.memory.value.letterId !in w.chain.sealedLetters
    requires AddressOf(w.memory.value.recipient) in w.chain.mailboxActive
    ensures var d, t := w.memory.value, |w.transactions|;
            var labels := [Submit, RecordHash(t), Deactivate(AddressOf(d.recipient)), Mine(t), SealResumed];
            && Runs(c, w, labels)
            && var v := After(c, w, labels);
            && v.memory == v.stored == Some(SealedDraft(d, Some(t)))
            && d.letterId !in v.chain.sealedLetters
  {
    var d, t := w.memory.value, |w.transactions|;
    var recipient := AddressOf(d.recipient);
    hide Invariant, AddressOf, CallOf, StepsTo, Runs, After, Config.Valid;
    ReadyToSubmit(c, w, d);
    CallRecipient(c, d);
    var w1, w2 := SubmitAndRecord(c, w, d, t);
    var w3, w4 := DeactivateAndMine(c, w2, recipient, t);
    Resume(c, w4, d.(transactionHash := Some(t)), t);
    var w5 := Persist(w4, SealedDraft(d, Some(t)));
    FiveSteps(c, w, w1, w2, w3, w4, w5, Submit, RecordHash(t), Deactivate(recipient), Mine(t), SealResumed);
  }

  lemma CallRecipient(c: Config, d: Draft)
    requires d.recipientKeyId.Some? && d.encryptedText.Some? && d.sealedKey.Some? && d.archiveSha256.Some?
    ensures CallOf(c, d).recipient == AddressOf(d.recipient)
  {
  }

  /** A stranger's call under the draft's id is broadcast and succeeds. */
  lemma StrangerSeals(c: Config, w: World, call: SealCall, t: nat) returns (w1: World, w2: World)
    requires t == |w.transactions| && t !in w.receipts && call.from != c.Sender() && w.chain.SealLetter(call, t).Ok?
    ensures StepsTo(c, w, ForeignSeal(call), w1) && StepsTo(c, w1, Mine(t), w2)
    ensures w2.transactions == w.transactions + [call] && w2.memory == w.memory && w2.stored == w.stored
    ensures w2.chain == w.chain.SealLetter(call, t).value
  {
    hide Config.Sender;
    w1 := w.(transactions := w.transactions + [call]);
    assert w1.transactions[t] == call;
    w2 := Execute(w1, t);
  }

  lemma StrangersEvent(c: Config, w: World, v: World, call: SealCall, t: nat)
    requires w.chain.Valid() && w.chain.SealLetter(call, t).Ok? && call.from != c.Sender()
    requires v.chain == w.chain.SealLetter(call, t).value
    ensures call.letterId in v.chain.sealedLetters && TakenByOther(c, v, call.letterId)
        && !OwnEvent(c, v, call.letterId)
  {
    assert v.chain.events[|w.chain.events|].letterId == call.letterId;
    w.chain.SealKeeps(call, t);
    hide Chain.SealLetter;
    SealedByOneSender(c, v, call.letterId);
  }

  /**
   The second way to seal in vain, without any resumption.  From every sound state in which a draft waits and
   its id, which is public once a transaction was broadcast, is unsealed, a stranger's letter under that id
   makes the client take the stranger's transaction for its own.
   */
  lemma SealedByStranger(c: Config, w: World, call: SealCall)
    requires c.Valid() && Invariant(c, w) && InStage(w, WaitingTransaction)
    requires call.letterId == w.memory.value.letterId && call.from != c.Sender()
    requires w.chain.SealLetter(call, |w.transactions|).Ok?
    ensures var d, t := w.memory.value, |w.transactions|;
            var labels := [ForeignSeal(call), Mine(t), SealRecovered(t)];
            && Runs(c, w, labels)
            && var v := After(c, w, labels);
            && v.memory == v.stored == Some(SealedDraft(d, Some(t)))
            && TakenByOther(c, v, d.letterId) && !OwnEvent(c, v, d.letterId)
  {
    var d, t := w.memory.value, |w.transactions|;
    ReadyToSubmit(c, w, d);
    assert w.chain.Valid();
    hide Invariant, Config.Valid, Chain.Valid, Chain.SealLetter, StepsTo, Runs, After, TakenByOther, OwnEvent;
    var w1, w2 := StrangerSeals(c, w, call, t);
    StrangersEvent(c, w, w2, call, t);
    var w3 := Persist(w2, SealedDraft(d, Some(t)));
    Recover(c, w2, d, t);
    StrangersEvent(c, w, w3, call, t);
    ThreeSteps(c, w, w1, w2, w3, ForeignSeal(call), Mine(t), SealRecovered(t));
  }

  lemma Recover(c: Config, w: World, d: Draft, t: nat)
    requires w.memory == Some(d) && d.stage == WaitingTransaction && d.letterId in w.chain.sealedLetters
    requires t < |w.transactions| && w.transactions[t].letterId == d.letterId
    ensures StepsTo(c, w, SealRecovered(t), Persist(w, SealedDraft(d, Some(t))))
  {
  }
}
