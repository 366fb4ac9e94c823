/**
 The send hook (frontend/src/features/hooks/send/use-send-letter.ts).  Every await lets the chain move, and
 may throw or be the last thing the page does before it is closed.
 */
module UseSendLetter {
  import opened Wrappers
  import opened ByteCodec
  import opened Crypto
  import opened Gbyl
  import opened Gtx1
  import opened Gibyeol2026
  import opened SendProtocol
  import opened SendTheorems

  /** Why a call ended early: an exception, or the page was closed. */
  datatype Halt = Threw | Crashed

  function Submissions(labels: seq<Label>): nat {
    if labels == [] then 0
    else Submissions(labels[..|labels| - 1]) + if labels[|labels| - 1].Submit? then 1 else 0
  }

  lemma SubmissionsGrow(labels: seq<Label>, l: Label)
    ensures Submissions(labels + [l]) == Submissions(labels) + if l.Submit? then 1 else 0
  {
    assert (labels + [l])[..|labels|] == labels;
  }

  /** The transaction of the last event of a letter. */
  function LastTransaction(events: seq<LetterSealed>, letterId: Bytes32): (t: Option<nat>)
    ensures t.Some? ==>
        exists i :: 0 <= i < |events| && events[i].letterId == letterId && events[i].transaction == t.value
  {
    if events == [] then None
    else if events[|events| - 1].letterId == letterId then Some(events[|events| - 1].transaction)
    else LastTransaction(events[..|events| - 1], letterId)
  }

  /** A later point of a run extends an earlier one. */
  lemma {:induction false} Grown(c: Config, start: World, before: seq<Label>, log: seq<Label>)
    requires c.Valid() && Invariant(c, start) && Runs(c, start, log) && before <= log
    ensures Runs(c, start, before) && Extends(After(c, start, before), After(c, start, log))
    decreases |log|
  {
    hide Enabled, Apply, Invariant, Extends, Config.Valid;
    if |before| == |log| {
      assert before == log;
      ExtendsReflexive(After(c, start, log));
    } else {
      var shorter := log[..|log| - 1];
      assert before <= shorter;
      Grown(c, start, before, shorter);
      RunKeeps(c, start, shorter);
      StepKeeps(c, After(c, start, shorter), log[|log| - 1]);
      ExtendsTransitive(After(c, start, before), After(c, start, shorter), After(c, start, log));
    }
  }

  /** What the draft of a later stage carries. */
  lemma DraftHoldsParcel(c: Config, w: World, d: Draft)
    requires c.Valid() && Invariant(c, w) && w.memory == Some(d)
    ensures d.stage == UploadingPackage ==> d.archive.Some?
    ensures d.stage == EncryptingKey || d.stage == WaitingTransaction ==>
              && d.letterKey.Some? && |d.letterKey.value| == 32
              && w.chain.CurrentKeyId(AddressOf(d.recipient)) >= 1
    ensures d.stage == WaitingTransaction ==>
              && d.recipientKeyId.Some?
              && (d.transactionHash.Some? ==> OwnHash(c, w, d.letterId, d.transactionHash.value))
  {
    hide LedgerOk, OpensTo;
    assert DraftOk(c, w, d);
    if d.stage == EncryptingKey || d.stage == WaitingTransaction {
      assert ParcelOk(c, d.letterId, w.parcels[d.letterId]);
    }
    if d.stage == WaitingTransaction {
      RegisteredKeyIsCurrentOrOlder(c, w, AddressOf(d.recipient), d.recipientKeyId.value);
    }
  }

  lemma RegisteredKeyIsCurrentOrOlder(c: Config, w: World, owner: Address, keyId: nat)
    requires Invariant(c, w) && w.chain.Registered(owner, keyId)
    ensures 1 <= keyId <= w.chain.CurrentKeyId(owner)
  {
  }

  lemma CurrentKeyIsRegistered(c: Config, w: World, owner: Address)
    requires Invariant(c, w)
    ensures w.chain.CurrentKeyId(owner) >= 1 ==> w.chain.Registered(owner, w.chain.CurrentKeyId(owner))
  {
  }

  class SendHook {
    const c: Config
    ghost const start: World
    var w: World
    /** Every step taken since `start`. */
    ghost var log: seq<Label>

    /** The world is where a run of the protocol has led. */
    ghost predicate Valid()
      reads this
    {
      Initial(c, start) && Invariant(c, start) && Runs(c, start, log) && After(c, start, log) == w && c.Valid()
          && Invariant(c, w)
    }

    /** Only the environment moved. */
    twostate predicate Quiet()
      reads this
    {
      && w.memory == old(w.memory) && w.stored == old(w.stored)
      && old(log) <= log && Submissions(log) == Submissions(old(log))
    }

    /** The page is gone, and nothing was submitted meanwhile. */
    twostate predicate Gone()
      reads this
    {
      w.memory.None? && old(log) <= log && Submissions(log) == Submissions(old(log))
    }

    constructor (c: Config, start: World)
      requires Initial(c, start)
      ensures Valid() && this.c == c && this.start == start && log == []
    {
      this.c, this.start, w := c, start, start;
      log := [];
      new;
      InitialIsSound(c, start);
    }

    method Take(l: Label)
      requires Valid() && Enabled(c, w, l)
      modifies this
      ensures Valid() && w == Apply(c, old(w), l) && log == old(log) + [l]
      ensures Submissions(log) == Submissions(old(log)) + if l.Submit? then 1 else 0
    {
      hide Enabled, Apply, Invariant, Extends, Initial, Runs, After, Config.Valid;
      StepKeeps(c, w, l);
      SendTheorems.Take(c, start, log, l);
      SubmissionsGrow(log, l);
      w := Apply(c, w, l);
      log := log + [l];
    }

    /** Any number of steps of the chain and of other senders. */
    method Interfere()
      requires Valid()
      modifies this
      ensures Valid() && Quiet()
    {
      hide Apply, Invariant, Extends, Initial, Runs, After, Config.Valid;
      var steps: int := *;
      while steps > 0
        invariant Valid() && Quiet()
      {
        steps := steps - 1;
        var owner: Address, publicKey: Bytes32, call: SealCall, t: nat, kind: int := *, *, *, *, *;
        var l := if kind == 0 then Register(owner, publicKey) else if kind == 1 then Deactivate(owner)
                 else if kind == 2 then ForeignSeal(call) else Mine(t);
        if Enabled(c, w, l) {
          EnvironmentKeepsDrafts(c, w, l);
          Take(l);
        }
      }
    }

    /** An await: the world moves on; the page may be closed, or the awaited call may fail. */
    method Await() returns (r: Result<(), Halt>)
      requires Valid()
      modifies this
      ensures Valid()
      ensures r == Err(Crashed) ==> Gone()
      ensures r != Err(Crashed) ==> Quiet()
    {
      hide Invariant, Extends, Initial, Runs, After, Config.Valid;
      Interfere();
      if * {
        Take(Crash);
        return Err(Crashed);
      } else if * {
        return Err(Threw);
      }
      return Ok(());
    }

    method ReadCurrentKeyId(owner: Address) returns (r: Result<nat, Halt>)
      requires Valid()
      modifies this
      ensures Valid()
      ensures r == Err(Crashed) ==> Gone()
      ensures r != Err(Crashed) ==> Quiet()
      ensures r.Ok? ==> r.value == w.chain.CurrentKeyId(owner)
    {
      hide Invariant, Extends, Initial, Runs, After, Config.Valid;
      var _ :- Await();
      return Ok(w.chain.CurrentKeyId(owner));
    }

    method ReadPublicKey(owner: Address, keyId: nat) returns (r: Result<Bytes32, Halt>)
      requires Valid()
      modifies this
      ensures Valid()
      ensures r == Err(Crashed) ==> Gone()
      ensures r != Err(Crashed) ==> Quiet()
      ensures r.Ok? ==> r.value == w.chain.PublicKey(owner, keyId)
    {
      hide Invariant, Extends, Initial, Runs, After, Config.Valid;
      var _ :- Await();
      return Ok(w.chain.PublicKey(owner, keyId));
    }

    method ReadMailboxActive(owner: Address) returns (r: Result<bool, Halt>)
      requires Valid()
      modifies this
      ensures Valid()
      ensures r == Err(Crashed) ==> Gone()
      ensures r != Err(Crashed) ==> Quiet()
      ensures r.Ok? ==> (r.value <==> owner in w.chain.mailboxActive)
    {
      hide Invariant, Extends, Initial, Runs, After, Config.Valid;
      var _ :- Await();
      return Ok(owner in w.chain.mailboxActive);
    }

    /** The receipt of a mined transaction; waiting longer than the timeout throws. */
    method WaitForReceipt(t: nat) returns (r: Result<Receipt, Halt>)
      requires Valid()
      modifies this
      ensures Valid()
      ensures r == Err(Crashed) ==> Gone()
      ensures r != Err(Crashed) ==> Quiet()
      ensures r.Ok? ==> t in w.receipts && r.value == w.receipts[t]
    {
      hide Invariant, Extends, Initial, Runs, After, Config.Valid;
      var _ :- Await();
      if t !in w.receipts {
        return Err(Threw);
      }
      return Ok(w.receipts[t]);
    }

    /** Whether the letter is on chain, and then its transaction; a lagging node may not return the event. */
    method RecoverExisting(working: Draft) returns (r: Result<Option<nat>, Halt>)
      requires Valid() && w.memory == Some(working)
      requires working.transactionHash.Some? ==> OwnHash(c, w, working.letterId, working.transactionHash.value)
      modifies this
      ensures Valid()
      ensures r == Err(Crashed) ==> Gone()
      ensures r != Err(Crashed) ==> Quiet()
      ensures r.Ok? && r.value.Some? ==>
                && working.letterId in w.chain.sealedLetters
                && r.value.value < |w.transactions| && w.transactions[r.value.value].letterId == working.letterId
    {
      hide Enabled, Apply, Invariant, Initial, Runs, After, Config.Valid;
      var _ :- Await();
      if working.letterId !in w.chain.sealedLetters {
        return Ok(None);
      }
      label known:
      var _ :- Await();
      Grown(c, start, old@known(log), log);
      Grown(c, start, old(log), log);
      EventsHaveTransactions(c, w);
      var logged := LastTransaction(w.chain.events, working.letterId);
      if * {
        logged := None;
      }
      return Ok(if logged.Some? then logged else working.transactionHash);
    }

    /** Asks the wallet to send the letter.  It may be broadcast even when the call does not return. */
    method WriteContract(working: Draft) returns (r: Result<nat, Halt>)
      requires Valid() && w.memory == Some(working) && working.stage == WaitingTransaction
      modifies this
      ensures Valid() && old(log) <= log && Submissions(log) <= Submissions(old(log)) + 1
      ensures r == Err(Crashed) ==> w.memory.None?
      ensures r != Err(Crashed) ==> w.memory == old(w.memory) && w.stored == old(w.stored)
      ensures r.Ok? ==> OwnHash(c, w, working.letterId, r.value)
    {
      hide Invariant, Initial, Runs, After, Config.Valid;
      var _ :- Await();
      ReadyToSubmit(c, w, working);
      var t := |w.transactions|;
      Take(Submit);
      assert OwnHash(c, w, working.letterId, t);
      label sent:
      var _ :- Await();
      Grown(c, start, old@sent(log), log);
      return Ok(t);
    }

    /** Shows and stores the next draft. */
    method Persist(next: Draft, l: Label) returns (working: Draft)
      requires Valid() && Enabled(c, w, l)
      requires Apply(c, w, l).memory == Apply(c, w, l).stored == Some(next)
      modifies this
      ensures Valid() && w == Apply(c, old(w), l) && log == old(log) + [l] && w.memory == Some(next)
      ensures working == next
      ensures Submissions(log) == Submissions(old(log)) + if l.Submit? then 1 else 0
    {
      hide Enabled, Apply, Invariant, Initial, Runs, After, Config.Valid;
      Take(l);
      return next;
    }

    /** Opening the page: the stored draft resumes in its mapped stage; without one a new letter begins. */
    method OpenPage(freshId: Bytes32)
      requires Valid() && w.memory.None? && Unused(c, w, freshId)
      modifies this
      ensures Valid() && log == old(log) + [Load(freshId)] && w.stored == old(w.stored)
      ensures w.memory == Some(if w.stored.Some? then Loaded(w.stored.value) else EmptyDraft(freshId))
    {
      hide Invariant, Initial, Runs, After, Config.Valid;
      Take(Load(freshId));
    }

    /** Edits are kept only while the letter is still being written. */
    method EditDraft(recipient: string, message: string)
      requires Valid()
      modifies this
      ensures Valid() && old(log) <= log
      ensures w == if InStage(old(w), Composing)
                   then SendProtocol.Persist(old(w), old(w).memory.value.(recipient := recipient, message := message))
                   else old(w)
    {
      hide Invariant, Initial, Runs, After, Config.Valid;
      if w.memory.Some? && w.memory.value.stage == Composing {
        var _ := Persist(w.memory.value.(recipient := recipient, message := message), Update(recipient, message));
      }
    }

    /** Discards the draft, whatever its stage, for a new letter under a new id. */
    method Restart(freshId: Bytes32)
      requires Valid() && Unused(c, w, freshId)
      modifies this
      ensures Valid() && log == old(log) + [Reset(freshId)]
      ensures w.memory == w.stored == Some(EmptyDraft(freshId)) && w.chain == old(w).chain
          && w.transactions == old(w).transactions
    {
      hide Invariant, Initial, Runs, After, Config.Valid;
      var _ := Persist(EmptyDraft(freshId), Reset(freshId));
    }

    /** Packs and encrypts.  `media` is what preprocessing made of the attachments, if it succeeded. */
    method PackLetter(draft: Draft, media: Option<seq<MediaItem>>, letterKey: Bytes32, ivs: nat -> Bytes, textIv: Bytes)
      returns (r: Result<Draft, Halt>)
      requires Valid() && w.memory == Some(draft) && (draft.stage == Composing || draft.stage == Packing)
      requires c.IsAddress(draft.recipient) && !c.blank(draft.message)
      modifies this
      ensures Valid() && old(log) <= log && Submissions(log) == Submissions(old(log))
      ensures r == Err(Crashed) ==> w.memory.None?
      ensures r == Err(Threw) ==> w.memory.Some? && w.memory.value.letterId == draft.letterId
      ensures r.Ok? ==>
          w.memory == Some(r.value) && r.value.letterId == draft.letterId && r.value.stage == UploadingPackage
    {
      hide FixedHex, Lower, Gbyl.Pack, EncryptText, Config.ContextOf, Config.ContextFor, Config.IsAddress,
          Config.Sha256, Config.Valid, Invariant, Initial, Runs, After;
      AddressesDecode(c, draft.recipient);
      var recipient := Lower(draft.recipient);
      var keyId :- ReadCurrentKeyId(AddressOf(recipient));
      label read:
      var active :- ReadMailboxActive(AddressOf(recipient));
      Grown(c, start, old@read(log), log);
      if keyId < 1 || !active {
        return Err(Threw);
      }
      var working := Persist(draft.(stage := Packing, recipient := recipient, recipientKeyId := Some(keyId)),
          StartPacking(keyId));
      var packed := PackContents(working, media, letterKey, ivs, textIv);
      if packed == Err(Threw) {
        working := Persist(working.(stage := Composing), PackFailed);
        return Err(Threw);
      }
      return packed;
    }

    /** The body of the inner `try`. */
    method PackContents(working: Draft, media: Option<seq<MediaItem>>, letterKey: Bytes32, ivs: nat -> Bytes,
            textIv: Bytes)
      returns (r: Result<Draft, Halt>)
      requires Valid() && w.memory == Some(working) && working.stage == Packing && FixedHex(working.recipient, 20).Ok?
      modifies this
      ensures Valid() && old(log) <= log && Submissions(log) == Submissions(old(log))
      ensures r == Err(Crashed) ==> w.memory.None?
      ensures r == Err(Threw) ==> w.memory == Some(working)
      ensures r.Ok? ==>
          w.memory == Some(r.value) && r.value.letterId == working.letterId && r.value.stage == UploadingPackage
    {
      hide FixedHex, Lower, Gbyl.Pack, EncryptText, Config.ContextOf, Config.ContextFor, Config.IsAddress,
          Config.Sha256, Invariant, Initial, Runs, After;
      var context := c.ContextFor(working.letterId, c.sender, working.recipient);
      SameContext(c, working.letterId, c.sender, working.recipient);
      var _ :- Await();
      if media.None? {
        return Err(Threw);
      }
      var archive := PackGbyl(c.primitives, media.value, letterKey, context.value, ivs);
      var text := EncryptTextGtx1(c.primitives, working.message, letterKey, context.value, textIv);
      var _ :- Await();
      if archive.Err? || text.Err? {
        return Err(Threw);
      }
      var next := Persist(
        working.(stage := UploadingPackage, letterKey := Some(letterKey), encryptedText := Some(text.value),
                 archive := Some(archive.value), archiveSha256 := Some(c.Sha256(archive.value))),
        Pack(media.value, letterKey, ivs, textIv));
      return Ok(next);
    }

    method UploadPackage(draft: Draft) returns (r: Result<Draft, Halt>)
      requires Valid() && w.memory == Some(draft) && draft.stage == UploadingPackage
      modifies this
      ensures Valid() && old(log) <= log && Submissions(log) == Submissions(old(log))
      ensures r == Err(Crashed) ==> w.memory.None?
      ensures r == Err(Threw) ==> w.memory == Some(draft)
      ensures r.Ok? ==>
          w.memory == Some(r.value) && r.value.letterId == draft.letterId && r.value.stage == EncryptingKey
    {
      hide AddressOf, Lower, Gbyl.Pack, EncryptText, Config.ContextOf, Config.IsAddress, Config.Sha256, Config.Valid,
          Invariant, Initial, Runs, After;
      DraftHoldsParcel(c, w, draft);
      var _ :- Await();
      var working := Persist(draft.(stage := EncryptingKey), Upload);
      return Ok(working);
    }

    /** Wraps the letter key for the recipient key `keyId`, whose public key was read from the chain. */
    method Wrap(draft: Draft, keyId: nat, publicKey: Bytes32, stayWaiting: bool, dropHash: bool)
      returns (r: Result<Draft, Halt>)
      requires Valid() && w.memory == Some(draft)
      requires draft.stage == if stayWaiting then WaitingTransaction else EncryptingKey
      requires w.chain.Registered(AddressOf(draft.recipient), keyId)
          && publicKey == w.chain.PublicKey(AddressOf(draft.recipient), keyId)
      requires dropHash ==> stayWaiting
      modifies this
      ensures Valid() && old(log) <= log && Submissions(log) == Submissions(old(log))
      ensures r == Err(Crashed) ==> w.memory.None?
      ensures r == Err(Threw) ==> w.memory == Some(draft)
      ensures r.Ok? ==>
          w.memory == Some(r.value) && r.value.letterId == draft.letterId && r.value.stage == WaitingTransaction
                        && r.value.recipientKeyId == Some(keyId) && r.value.recipient == draft.recipient
                        && r.value.transactionHash == if dropHash then None else draft.transactionHash
    {
      hide Invariant, Initial, Runs, After, Config.Valid, AddressOf;
      DraftHoldsParcel(c, w, draft);
      label read:
      var _ :- Await();
      Grown(c, start, old@read(log), log);
      var boxRandom: Bytes, lockRandom: Bytes := *, *;
      var sealedKey := WrapLetterKey(c.primitives, c.tlock, draft.letterKey.value, publicKey, boxRandom, lockRandom);
      var hash := if dropHash then None else draft.transactionHash;
      var l := if stayWaiting then Rewrap(keyId, boxRandom, lockRandom, dropHash)
          else WrapKey(keyId, boxRandom, lockRandom);
      var next := draft.(stage := WaitingTransaction, recipientKeyId := Some(keyId),
          sealedKey := Some(sealedKey.value), transactionHash := hash);
      var working := Persist(next, l);
      return Ok(working);
    }

    method EncryptKey(draft: Draft) returns (r: Result<Draft, Halt>)
      requires Valid() && w.memory == Some(draft) && draft.stage == EncryptingKey
      modifies this
      ensures Valid() && old(log) <= log && Submissions(log) == Submissions(old(log))
      ensures r == Err(Crashed) ==> w.memory.None?
      ensures r == Err(Threw) ==> w.memory == Some(draft)
      ensures r.Ok? ==>
          w.memory == Some(r.value) && r.value.letterId == draft.letterId && r.value.stage == WaitingTransaction
                        && r.value.transactionHash == draft.transactionHash
    {
      hide Enabled, Apply, Invariant, Initial, Runs, After, Config.Valid, AddressOf;
      DraftHoldsParcel(c, w, draft);
      var recipient := AddressOf(draft.recipient);
      var keyId :- ReadCurrentKeyId(recipient);
      label read:
      Grown(c, start, old(log), log);
      CurrentKeyIsRegistered(c, w, recipient);
      var publicKey :- ReadPublicKey(recipient, keyId);
      Grown(c, start, old@read(log), log);
      r := Wrap(draft, keyId, publicKey, false, false);
    }

    /** Marks the draft as sealed by a transaction of a letter that is on chain. */
    method MarkSealed(draft: Draft, t: nat) returns (working: Draft)
      requires Valid() && w.memory == Some(draft) && draft.stage == WaitingTransaction
      requires draft.letterId in w.chain.sealedLetters
      requires t < |w.transactions| && w.transactions[t].letterId == draft.letterId
      modifies this
      ensures Valid() && old(log) <= log && Submissions(log) == Submissions(old(log))
      ensures w.memory == w.stored == Some(working) && working == SealedDraft(draft, Some(t))
      ensures draft.letterId in w.chain.sealedLetters
    {
      hide AddressOf, Lower, Gbyl.Pack, EncryptText, Config.ContextOf, Config.IsAddress, Config.Sha256, Config.Valid,
          Invariant, Initial, Runs, After;
      working := Persist(draft.(stage := Sealed, transactionHash := Some(t), message := "", letterKey := None),
          SealRecovered(t));
    }

    /**
     Resumes a draft whose transaction hash was stored.  A receipt, whatever its status, ends it as sealed;
     without one it is sealed if the letter is on chain, still pending if the node knows the transaction,
     and otherwise free to be submitted again.
     */
    method ResumePending(draft: Draft, pending: nat) returns (r: Result<Draft, Halt>)
      requires Valid() && w.memory == Some(draft) && draft.stage == WaitingTransaction
          && draft.transactionHash == Some(pending)
      modifies this
      ensures Valid() && old(log) <= log && Submissions(log) == Submissions(old(log))
      ensures r == Err(Crashed) ==> w.memory.None?
      ensures r == Err(Threw) ==> w.memory.Some? && w.memory.value.letterId == draft.letterId
      ensures r.Ok? ==>
          w.memory == Some(r.value) && r.value.letterId == draft.letterId && r.value.recipient == draft.recipient
      ensures r.Ok? ==> (r.value.stage == WaitingTransaction && r.value.transactionHash.None?) ||
                        (r.value.stage == Sealed && w.stored == w.memory
                          && (draft.letterId in w.chain.sealedLetters || TransactionReverted(w, pending)))
    {
      hide AddressOf, Lower, Gbyl.Pack, EncryptText, Config.ContextOf, Config.IsAddress, Config.Sha256, Config.Valid,
          Invariant, Initial, Runs, After;
      DraftHoldsParcel(c, w, draft);
      var receipt := WaitForReceipt(pending);
      if receipt.Ok? {
        ReceiptTells(c, w, pending);
        Grown(c, start, old(log), log);
        var working := Persist(SealedDraft(draft, Some(pending)), SealResumed);
        return Ok(working);
      }
      if receipt.error.Crashed? {
        return Err(Crashed);
      }
      Grown(c, start, old(log), log);
      r := ResumeUnconfirmed(draft, pending);
    }

    /** The `catch` of the resumption: no receipt came in time. */
    method ResumeUnconfirmed(draft: Draft, pending: nat) returns (r: Result<Draft, Halt>)
      requires Valid() && w.memory == Some(draft) && draft.stage == WaitingTransaction
      requires draft.transactionHash == Some(pending) && OwnHash(c, w, draft.letterId, pending)
      modifies this
      ensures Valid() && old(log) <= log && Submissions(log) == Submissions(old(log))
      ensures r == Err(Crashed) ==> w.memory.None?
      ensures r == Err(Threw) ==> w.memory.Some? && w.memory.value.letterId == draft.letterId
      ensures r.Ok? ==>
          w.memory == Some(r.value) && r.value.letterId == draft.letterId && r.value.recipient == draft.recipient
      ensures r.Ok? ==> (r.value.stage == WaitingTransaction && r.value.transactionHash.None?) ||
                        (r.value.stage == Sealed && w.stored == w.memory && draft.letterId in w.chain.sealedLetters)
    {
      hide AddressOf, Lower, Gbyl.Pack, EncryptText, Config.ContextOf, Config.IsAddress, Config.Sha256, Config.Valid,
        Invariant, Initial, Runs, After;
      var recovered :- RecoverExisting(draft);
      if recovered.Some? {
        Grown(c, start, old(log), log);
        var working := MarkSealed(draft, pending);
        return Ok(working);
      }
      var known := Await();
      if known.Ok? {
        return Err(Threw);
      }
      if known.error.Crashed? {
        return Err(Crashed);
      }
      var working := Persist(draft.(transactionHash := None), DropHash);
      return Ok(working);
    }

    /** Wraps the letter key again if the recipient's key is no longer the one it was wrapped for. */
    method RewrapIfRotated(draft: Draft) returns (r: Result<Draft, Halt>)
      requires Valid() && w.memory == Some(draft) && draft.stage == WaitingTransaction
      modifies this
      ensures Valid() && old(log) <= log && Submissions(log) == Submissions(old(log))
      ensures r == Err(Crashed) ==> w.memory.None?
      ensures r == Err(Threw) ==> w.memory == Some(draft)
      ensures r.Ok? ==>
          w.memory == Some(r.value) && r.value.letterId == draft.letterId && r.value.stage == WaitingTransaction
                        && r.value.recipient == draft.recipient
    {
      hide Enabled, Apply, AddressOf, Config.Valid, Invariant, Initial, Runs, After;
      DraftHoldsParcel(c, w, draft);
      var recipient := AddressOf(draft.recipient);
      var latest :- ReadCurrentKeyId(recipient);
      Grown(c, start, old(log), log);
      CurrentKeyIsRegistered(c, w, recipient);
      if Some(latest) == draft.recipientKeyId {
        return Ok(draft);
      }
      label read:
      var publicKey :- ReadPublicKey(recipient, latest);
      Grown(c, start, old@read(log), log);
      r := Wrap(draft, latest, publicKey, true, false);
    }

    /** The inner `try`: ask the wallet and record the transaction. */
    method Broadcast(draft: Draft) returns (r: Result<nat, Halt>, working: Draft)
      requires Valid() && w.memory == Some(draft) && draft.stage == WaitingTransaction
      modifies this
      ensures Valid() && old(log) <= log && Submissions(log) <= Submissions(old(log)) + 1
      ensures r == Err(Crashed) ==> w.memory.None?
      ensures r == Err(Threw) ==> w.memory == Some(draft) && working == draft
      ensures r.Ok? ==>
          w.memory == Some(working) && working == draft.(transactionHash := Some(r.value))
          && OwnHash(c, w, draft.letterId, r.value)
    {
      hide Enabled, Apply, AddressOf, Config.Valid, Invariant, Initial, Runs, After;
      working := draft;
      r := WriteContract(draft);
      if r.Ok? {
        working := RecordTransaction(draft, r.value);
      }
    }

    /** Submits the letter, at most twice: the second time only when the recipient's key rotated meanwhile. */
    method SubmitLetter(draft: Draft) returns (r: Result<(Draft, nat), Halt>)
      requires Valid() && w.memory == Some(draft) && draft.stage == WaitingTransaction
      modifies this
      ensures Valid() && old(log) <= log && Submissions(log) <= Submissions(old(log)) + 2
      ensures r == Err(Crashed) ==> w.memory.None?
      ensures r == Err(Threw) ==> w.memory.Some? && w.memory.value.letterId == draft.letterId
      ensures r.Ok? ==>
                && w.memory == Some(r.value.0) && r.value.0.letterId == draft.letterId
                && r.value.0.stage == WaitingTransaction
                && r.value.0.recipient == draft.recipient
                && r.value.1 < |w.transactions| && w.transactions[r.value.1].letterId == draft.letterId
    {
      hide Enabled, Apply, AddressOf, Config.Valid, Invariant, Initial, Runs, After;
      var working := draft;
      var attempt := 0;
      while attempt < 2
        invariant 0 <= attempt <= 2
        invariant Valid() && old(log) <= log && Submissions(log) <= Submissions(old(log)) + attempt
        invariant w.memory == Some(working) && working.letterId == draft.letterId && working.stage == WaitingTransaction
        invariant working.recipient == draft.recipient
      {
        working :- RewrapIfRotated(working);
        var sent: Result<nat, Halt>;
        sent, working := Broadcast(working);
        if sent.Ok? {
          return Ok((working, sent.value));
        }
        if sent.error.Crashed? {
          return Err(Crashed);
        }
        DraftHoldsParcel(c, w, working);
        label failed:
        var recovered :- RecoverExisting(working);
        if recovered.Some? {
          return Ok((working, recovered.value));
        }
        var rotated :- ReadCurrentKeyId(AddressOf(working.recipient));
        if attempt != 0 || Some(rotated) == working.recipientKeyId {
          return Err(Threw);
        }
        attempt := attempt + 1;
      }
      return Err(Threw);
    }

    /**
     The body of the last `try`: waits for the receipt, and after a revert by rotation wraps and
     submits once more.
     */
    method Confirm(draft: Draft, t: nat) returns (r: Result<Draft, Halt>, hash: nat)
      requires Valid() && w.memory == Some(draft) && draft.stage == WaitingTransaction
      requires t < |w.transactions| && w.transactions[t].letterId == draft.letterId
      modifies this
      ensures Valid() && old(log) <= log && Submissions(log) <= Submissions(old(log)) + 1
      ensures r == Err(Crashed) ==> w.memory.None?
      ensures r == Err(Threw) ==>
                w.memory.Some? && w.memory.value.letterId == draft.letterId
                    && w.memory.value.stage == WaitingTransaction
      ensures hash < |w.transactions| && w.transactions[hash].letterId == draft.letterId
      ensures r.Ok? ==>
                && w.memory == Some(r.value) && r.value.letterId == draft.letterId
                && r.value.stage == WaitingTransaction
                && draft.letterId in w.chain.sealedLetters
    {
      hide Enabled, Apply, AddressOf, Config.Valid, Invariant, Initial, Runs, After;
      hash := t;
      var receipt := WaitForReceipt(t);
      Grown(c, start, old(log), log);
      if receipt.Err? {
        return Err(receipt.error), hash;
      }
      ReceiptTells(c, w, t);
      if receipt.value.Success? {
        return Ok(draft), hash;
      }
      r, hash := AfterRevert(draft, t);
    }

    /** The transaction `t` reverted: recover, or rewrap for a rotated key and submit again. */
    method AfterRevert(draft: Draft, t: nat) returns (r: Result<Draft, Halt>, hash: nat)
      requires Valid() && w.memory == Some(draft) && draft.stage == WaitingTransaction
      requires t < |w.transactions| && w.transactions[t].letterId == draft.letterId
      modifies this
      ensures Valid() && old(log) <= log && Submissions(log) <= Submissions(old(log)) + 1
      ensures r == Err(Crashed) ==> w.memory.None?
      ensures r == Err(Threw) ==>
                w.memory.Some? && w.memory.value.letterId == draft.letterId
                    && w.memory.value.stage == WaitingTransaction
      ensures hash < |w.transactions| && w.transactions[hash].letterId == draft.letterId
      ensures r.Ok? ==>
                && w.memory == Some(r.value) && r.value.letterId == draft.letterId
                && r.value.stage == WaitingTransaction
                && draft.letterId in w.chain.sealedLetters
    {
      hide Enabled, Apply, AddressOf, Config.Valid, Invariant, Initial, Runs, After;
      hash := t;
      DraftHoldsParcel(c, w, draft);
      var recovered := RecoverExisting(draft);
      Grown(c, start, old(log), log);
      if recovered.Err? {
        return Err(recovered.error), hash;
      }
      if recovered.value.Some? {
        return Ok(draft), hash;
      }
      var rotated := ReadCurrentKeyId(AddressOf(draft.recipient));
      Grown(c, start, old(log), log);
      if rotated.Err? {
        return Err(rotated.error), hash;
      }
      if Some(rotated.value) == draft.recipientKeyId {
        return Err(Threw), hash;
      }
      r, hash := SubmitRotated(draft, rotated.value, t);
    }

    /** `hash` is the new transaction as soon as there is one. */
    method SubmitRotated(draft: Draft, rotated: nat, t: nat) returns (r: Result<Draft, Halt>, hash: nat)
      requires Valid() && w.memory == Some(draft) && draft.stage == WaitingTransaction
      requires rotated == w.chain.CurrentKeyId(AddressOf(draft.recipient))
      requires t < |w.transactions| && w.transactions[t].letterId == draft.letterId
      modifies this
      ensures Valid() && old(log) <= log && Submissions(log) <= Submissions(old(log)) + 1
      ensures r == Err(Crashed) ==> w.memory.None?
      ensures r == Err(Threw) ==>
                w.memory.Some? && w.memory.value.letterId == draft.letterId
                    && w.memory.value.stage == WaitingTransaction
      ensures hash < |w.transactions| && w.transactions[hash].letterId == draft.letterId
      ensures r.Ok? ==>
                && w.memory == Some(r.value) && r.value.letterId == draft.letterId
                && r.value.stage == WaitingTransaction
                && draft.letterId in w.chain.sealedLetters
    {
      hide Enabled, Apply, AddressOf, Config.Valid, Invariant, Initial, Runs, After;
      hash := t;
      var rewrapped := Rewrapped(draft, rotated);
      Grown(c, start, old(log), log);
      if rewrapped.Err? {
        return Err(rewrapped.error), hash;
      }
      var sent := WriteContract(rewrapped.value);
      Grown(c, start, old(log), log);
      if sent.Err? {
        return Err(sent.error), hash;
      }
      hash := sent.value;
      var working := RecordTransaction(rewrapped.value, hash);
      label recorded:
      var receipt := WaitForReceipt(hash);
      Grown(c, start, old@recorded(log), log);
      if receipt.Err? {
        return Err(receipt.error), hash;
      }
      ReceiptTells(c, w, hash);
      if !receipt.value.Success? {
        return Err(Threw), hash;
      }
      return Ok(working), hash;
    }

    method Rewrapped(draft: Draft, rotated: nat) returns (r: Result<Draft, Halt>)
      requires Valid() && w.memory == Some(draft) && draft.stage == WaitingTransaction
      requires rotated == w.chain.CurrentKeyId(AddressOf(draft.recipient))
      modifies this
      ensures Valid() && old(log) <= log && Submissions(log) == Submissions(old(log))
      ensures r == Err(Crashed) ==> w.memory.None?
      ensures r == Err(Threw) ==> w.memory == Some(draft)
      ensures r.Ok? ==>
          w.memory == Some(r.value) && r.value.letterId == draft.letterId && r.value.stage == WaitingTransaction
                        && r.value.recipientKeyId == Some(rotated) && r.value.transactionHash.None?
    {
      hide Enabled, Apply, AddressOf, Config.Valid, Invariant, Initial, Runs, After;
      DraftHoldsParcel(c, w, draft);
      var recipient := AddressOf(draft.recipient);
      CurrentKeyIsRegistered(c, w, recipient);
      var publicKey :- ReadPublicKey(recipient, rotated);
      Grown(c, start, old(log), log);
      r := Wrap(draft, rotated, publicKey, true, true);
    }

    method RecordTransaction(draft: Draft, t: nat) returns (working: Draft)
      requires Valid() && w.memory == Some(draft) && draft.stage == WaitingTransaction
          && OwnHash(c, w, draft.letterId, t)
      modifies this
      ensures Valid() && old(log) <= log && Submissions(log) == Submissions(old(log))
      ensures working == draft.(transactionHash := Some(t)) && w.memory == w.stored == Some(working)
      ensures w.transactions == old(w).transactions
    {
      hide AddressOf, Lower, Gbyl.Pack, EncryptText, Config.ContextOf, Config.IsAddress, Config.Sha256, Config.Valid,
          Invariant, Initial, Runs, After;
      working := Persist(draft.(transactionHash := Some(t)), RecordHash(t));
    }

    method FinishTransaction(draft: Draft) returns (r: Result<Draft, Halt>)
      requires Valid() && w.memory == Some(draft) && draft.stage == WaitingTransaction
      modifies this
      ensures Valid() && old(log) <= log && Submissions(log) <= Submissions(old(log)) + 3
      ensures r == Err(Crashed) ==> w.memory.None?
      ensures r == Err(Threw) ==> w.memory.Some? && w.memory.value.letterId == draft.letterId
      ensures r.Ok? ==>
          w.memory == w.stored == Some(r.value) && r.value.letterId == draft.letterId && r.value.stage == Sealed
      ensures r.Ok? ==> draft.letterId in w.chain.sealedLetters ||
                        (draft.transactionHash.Some? && TransactionReverted(w, draft.transactionHash.value))
    {
      hide Enabled, Apply, AddressOf, Config.Valid, Invariant, Initial, Runs, After;
      DraftHoldsParcel(c, w, draft);
      var alreadySealed :- RecoverExisting(draft);
      if alreadySealed.Some? {
        var sealed := MarkSealed(draft, alreadySealed.value);
        return Ok(sealed);
      }
      var working := draft;
      if draft.transactionHash.Some? {
        working :- ResumePending(draft, draft.transactionHash.value);
        if working.stage == Sealed {
          return Ok(working);
        }
      }
      r := SubmitAndConfirm(working);
    }

    method SubmitAndConfirm(draft: Draft) returns (r: Result<Draft, Halt>)
      requires Valid() && w.memory == Some(draft) && draft.stage == WaitingTransaction
      modifies this
      ensures Valid() && old(log) <= log && Submissions(log) <= Submissions(old(log)) + 3
      ensures r == Err(Crashed) ==> w.memory.None?
      ensures r == Err(Threw) ==> w.memory.Some? && w.memory.value.letterId == draft.letterId
      ensures r.Ok? ==>
          w.memory == w.stored == Some(r.value) && r.value.letterId == draft.letterId && r.value.stage == Sealed
                        && draft.letterId in w.chain.sealedLetters
    {
      hide Enabled, Apply, AddressOf, Config.Valid, Invariant, Initial, Runs, After;
      var active :- ReadMailboxActive(AddressOf(draft.recipient));
      if !active {
        return Err(Threw);
      }
      var _ :- Await();
      var pair :- SubmitLetter(draft);
      var working, t := pair.0, pair.1;
      var confirmed, hash := Confirm(working, t);
      if confirmed.Ok? {
        working := confirmed.value;
      } else if confirmed.error.Crashed? {
        return Err(Crashed);
      } else {
        working := w.memory.value;
        DraftHoldsParcel(c, w, working);
        label unconfirmed:
        var recovered :- RecoverExisting(working);
        Grown(c, start, old@unconfirmed(log), log);
        if recovered.None? {
          return Err(Threw);
        }
      }
      var sealed := MarkSealed(working, hash);
      return Ok(sealed);
    }

    /** The stages before the transaction, as far as the draft has not passed them. */
    method Prepare(draft: Draft, media: Option<seq<MediaItem>>, letterKey: Bytes32, ivs: nat -> Bytes, textIv: Bytes)
      returns (r: Result<Draft, Halt>)
      requires Valid() && w.memory == Some(draft) && draft.stage != Sealed
      requires c.IsAddress(draft.recipient) && !c.blank(draft.message)
      modifies this
      ensures Valid() && old(log) <= log && Submissions(log) == Submissions(old(log))
      ensures r == Err(Crashed) ==> w.memory.None?
      ensures r == Err(Threw) ==> w.memory.Some? && w.memory.value.letterId == draft.letterId
      ensures r.Ok? ==>
          w.memory == Some(r.value) && r.value.letterId == draft.letterId && r.value.stage == WaitingTransaction
      ensures draft.stage == WaitingTransaction ==> r == Ok(draft)
      ensures draft.stage != WaitingTransaction && r.Ok? ==> r.value.transactionHash.None?
    {
      hide Enabled, Apply, Invariant, Initial, Runs, After, Config.Valid, Config.IsAddress;
      StagesOf(c, w, draft);
      var working := draft;
      if working.stage == Composing || working.stage == Packing {
        working :- PackLetter(working, media, letterKey, ivs, textIv);
      }
      if working.stage == UploadingPackage {
        working :- UploadPackage(working);
      }
      if working.stage == EncryptingKey {
        StagesOf(c, w, working);
        working :- EncryptKey(working);
      }
      return Ok(working);
    }

    /**
     `seal`.  Whatever fails or interferes, the world stays one that a run of the protocol leads to; one call
     submits at most three transactions; and a call that returns has stored the draft as sealed, with its
     letter on chain unless someone else used its id or it resumed a stored transaction that reverted.
     */
    method Seal(media: Option<seq<MediaItem>>, letterKey: Bytes32, ivs: nat -> Bytes, textIv: Bytes)
      returns (r: Result<Draft, Halt>)
      requires Valid()
      modifies this
      ensures Valid() && old(log) <= log && Submissions(log) <= Submissions(old(log)) + 3
      ensures r == Err(Crashed) ==> w.memory.None?
      ensures r == Err(Threw) && old(w.memory).Some? ==>
                w.memory.Some? && w.memory.value.letterId == old(w.memory).value.letterId
      ensures r.Ok? ==>
                && old(w.memory).Some?
                && var d := old(w.memory).value;
                && w.memory == w.stored == Some(r.value) && r.value.letterId == d.letterId && r.value.stage == Sealed
                && (OwnEvent(c, w, d.letterId) || TakenByOther(c, w, d.letterId) ||
                    (d.transactionHash.Some? && TransactionReverted(w, d.transactionHash.value)))
    {
      hide Enabled, Apply, Invariant, Initial, Runs, After, Config.Valid, Config.IsAddress, TransactionReverted,
          OwnEvent, TakenByOther;
      if w.memory.None? {
        return Err(Threw);
      }
      var draft := w.memory.value;
      if !c.IsAddress(draft.recipient) || c.blank(draft.message) {
        return Err(Threw);
      }
      if draft.stage == Sealed {
        BlankWhenSealed(c, w, draft);
      }
      var working :- Prepare(draft, media, letterKey, ivs, textIv);
      r := FinishTransaction(working);
      SealedIdHasEvent(c, w, draft.letterId);
    }
  }

  lemma SealedIdHasEvent(c: Config, w: World, letterId: Bytes32)
    ensures Invariant(c, w) && letterId in w.chain.sealedLetters ==>
        OwnEvent(c, w, letterId) || TakenByOther(c, w, letterId)
  {
    hide ParcelOk, DraftOk, Delivers, EventOk, Emitted;
    if Invariant(c, w) {
      SealedByOneSender(c, w, letterId);
    }
  }

  /** Which stages a draft in memory can be in, and when it has a transaction hash. */
  lemma StagesOf(c: Config, w: World, d: Draft)
    requires c.Valid() && Invariant(c, w) && w.memory == Some(d)
    ensures d.stage != Packed && d.stage != Uploaded
    ensures d.stage != WaitingTransaction && d.stage != Sealed ==> d.transactionHash.None?
  {
    assert DraftOk(c, w, d);
  }

  lemma BlankWhenSealed(c: Config, w: World, d: Draft)
    requires c.Valid() && Invariant(c, w) && w.memory == Some(d) && d.stage == Sealed
    ensures c.blank(d.message)
  {
    assert DraftOk(c, w, d);
  }

  predicate TransactionReverted(w: World, t: nat) {
    t in w.receipts && w.receipts[t].Reverted?
  }

  /** The receipt of an own transaction tells whether its letter is on chain. */
  lemma ReceiptTells(c: Config, w: World, t: nat)
    requires Invariant(c, w) && t in w.receipts
    ensures t < |w.transactions|
    ensures w.receipts[t] == Success ==> w.transactions[t].letterId in w.chain.sealedLetters
  {
  }

  lemma EnvironmentKeepsDrafts(c: Config, w: World, l: Label)
    requires Enabled(c, w, l) && FromEnvironment(l)
    ensures Apply(c, w, l).memory == w.memory && Apply(c, w, l).stored == w.stored
  {
  }

  lemma EventsHaveTransactions(c: Config, w: World)
    requires Invariant(c, w)
    ensures forall i :: 0 <= i < |w.chain.events| ==>
              && w.chain.events[i].transaction < |w.transactions|
              && w.transactions[w.chain.events[i].transaction].letterId == w.chain.events[i].letterId
  {
    hide ParcelOk, Delivers, DraftOk, Chain.Valid, Emitted;
    assert forall i :: 0 <= i < |w.chain.events| ==> EventOk(w, w.chain.events[i]);
  }
}
