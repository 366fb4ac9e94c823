/** The contract (contracts/src/Gibyeol2026.sol), as functions from chain state to chain state. */
module Gibyeol2026 {
  import opened Wrappers
  import opened ByteCodec

  type Bytes32 = b: Bytes | |b| == 32 witness seq(32, _ => 0)
  type Address = b: Bytes | |b| == 20 witness seq(20, _ => 0)

  const ZERO_KEY: Bytes32 := [0, 0, 0, 0, 0, 0, 0, 0, 0, 0, 0, 0, 0, 0, 0, 0, 0, 0, 0, 0, 0, 0, 0, 0, 0, 0, 0, 0, 0,
      0, 0, 0]
  const ZERO_ADDRESS: Address := [0, 0, 0, 0, 0, 0, 0, 0, 0, 0, 0, 0, 0, 0, 0, 0, 0, 0, 0, 0]
  const MAX_KEY_ID := 0xffff_ffff
  const MAX_ENCRYPTED_TEXT_BYTES := 65_536
  const MAX_SEALED_KEY_BYTES := 4_096

  datatype Revert =
    | ZeroMailboxPublicKey | MailboxKeyIdOverflow | MailboxMissing | MailboxAlreadyInactive | ZeroRecipient
    | LetterAlreadySealed | StaleRecipientKey | RecipientMailboxMissing | RecipientMailboxInactive
    | EncryptedTextTooLarge | SealedKeyTooLarge

  /** The arguments of `sealLetter`, and who sent them. */
  datatype SealCall = SealCall(
    from: Address, letterId: Bytes32, recipient: Address, recipientKeyId: nat,
    encryptedText: Bytes, sealedKey: Bytes, archiveSha256: Bytes32)

  /** The event also knows the transaction that emitted it. */
  datatype LetterSealed = LetterSealed(
    letterId: Bytes32, sender: Address, recipient: Address, recipientKeyId: nat, archiveSha256: Bytes32,
        transaction: nat)

  datatype Chain = Chain(
    currentKeyId: map<Address, nat>,
    mailboxPublicKeys: map<(Address, nat), Bytes32>,
    mailboxActive: set<Address>,
    sealedLetters: set<Bytes32>,
    events: seq<LetterSealed>)
  {
    function CurrentKeyId(owner: Address): nat {
      if owner in currentKeyId then currentKeyId[owner] else 0
    }

    function PublicKey(owner: Address, keyId: nat): Bytes32 {
      if (owner, keyId) in mailboxPublicKeys then mailboxPublicKeys[(owner, keyId)] else ZERO_KEY
    }

    predicate Registered(owner: Address, keyId: nat) {
      PublicKey(owner, keyId) != ZERO_KEY
    }

    function RegisterMailboxKey(sender: Address, publicKey: Bytes32): Result<Chain, Revert> {
      var previousKeyId := CurrentKeyId(sender);
      if publicKey == ZERO_KEY then Err(ZeroMailboxPublicKey)
      else if previousKeyId == MAX_KEY_ID then Err(MailboxKeyIdOverflow)
      else
        Ok(this.(currentKeyId := currentKeyId[sender := previousKeyId + 1],
                 mailboxPublicKeys := mailboxPublicKeys[(sender, previousKeyId + 1) := publicKey],
                 mailboxActive := mailboxActive + {sender}))
    }

    function DeactivateMailbox(sender: Address): Result<Chain, Revert> {
      if CurrentKeyId(sender) == 0 then Err(MailboxMissing)
      else if sender !in mailboxActive then Err(MailboxAlreadyInactive)
      else Ok(this.(mailboxActive := mailboxActive - {sender}))
    }

    function SealLetter(call: SealCall, transaction: nat): Result<Chain, Revert> {
      if call.recipient == ZERO_ADDRESS then Err(ZeroRecipient)
      else if call.letterId in sealedLetters then Err(LetterAlreadySealed)
      else if call.recipient !in mailboxActive then Err(RecipientMailboxInactive)
      else if CurrentKeyId(call.recipient) != call.recipientKeyId then Err(StaleRecipientKey)
      else if PublicKey(call.recipient, call.recipientKeyId) == ZERO_KEY then Err(RecipientMailboxMissing)
      else if |call.encryptedText| > MAX_ENCRYPTED_TEXT_BYTES then Err(EncryptedTextTooLarge)
      else if |call.sealedKey| > MAX_SEALED_KEY_BYTES then Err(SealedKeyTooLarge)
      else
        Ok(this.(sealedLetters := sealedLetters + {call.letterId},
                 events := events + [LetterSealed(call.letterId, call.from, call.recipient, call.recipientKeyId,
                     call.archiveSha256, transaction)]))
    }

    /** Key ids run from 1 without gaps, and a letter is sealed exactly when it has its one event. */
    ghost predicate Valid() {
      && (forall owner :: CurrentKeyId(owner) <= MAX_KEY_ID)
      && (forall owner, keyId: nat :: Registered(owner, keyId) <==> 1 <= keyId <= CurrentKeyId(owner))
      && (forall owner :: owner in mailboxActive ==> CurrentKeyId(owner) >= 1)
      && (forall i :: 0 <= i < |events| ==>
            events[i].letterId in sealedLetters && Registered(events[i].recipient, events[i].recipientKeyId))
      && (forall id :: id in sealedLetters ==> exists i :: 0 <= i < |events| && events[i].letterId == id)
      && (forall i, j :: 0 <= i < |events| && 0 <= j < |events| && events[i].letterId == events[j].letterId ==> i == j)
    }

    /** Later states keep every registered key, every sealed letter and every event. */
    ghost predicate Grows(later: Chain) {
      && (forall owner :: CurrentKeyId(owner) <= later.CurrentKeyId(owner))
      && (forall owner, keyId: nat :: Registered(owner, keyId) ==>
          later.PublicKey(owner, keyId) == PublicKey(owner, keyId))
      && sealedLetters <= later.sealedLetters
      && events <= later.events
    }

    lemma RegisterKeeps(sender: Address, publicKey: Bytes32)
      requires Valid() && RegisterMailboxKey(sender, publicKey).Ok?
      ensures var later := RegisterMailboxKey(sender, publicKey).value;
              && later.Valid() && Grows(later)
              && later.CurrentKeyId(sender) == CurrentKeyId(sender) + 1
              && later.PublicKey(sender, later.CurrentKeyId(sender)) == publicKey
    {
      var later := RegisterMailboxKey(sender, publicKey).value;
      forall owner: Address ensures CurrentKeyId(owner) <= later.CurrentKeyId(owner) <= MAX_KEY_ID {
        assert CurrentKeyId(owner) <= MAX_KEY_ID;
      }
      forall owner, keyId: nat
        ensures Registered(owner, keyId) ==> later.PublicKey(owner, keyId) == PublicKey(owner, keyId)
        ensures later.Registered(owner, keyId) <==> 1 <= keyId <= later.CurrentKeyId(owner)
      {
        assert Registered(owner, keyId) <==> 1 <= keyId <= CurrentKeyId(owner);
      }
    }

    lemma DeactivateKeeps(sender: Address)
      requires Valid() && DeactivateMailbox(sender).Ok?
      ensures var later := DeactivateMailbox(sender).value;
              later.Valid() && Grows(later) && sender !in later.mailboxActive
    {
      var later := DeactivateMailbox(sender).value;
      forall owner: Address ensures CurrentKeyId(owner) <= later.CurrentKeyId(owner) <= MAX_KEY_ID {
        assert CurrentKeyId(owner) <= MAX_KEY_ID;
      }
      forall owner, keyId: nat
        ensures later.PublicKey(owner, keyId) == PublicKey(owner, keyId)
        ensures later.Registered(owner, keyId) <==> 1 <= keyId <= later.CurrentKeyId(owner)
      {
        assert Registered(owner, keyId) <==> 1 <= keyId <= CurrentKeyId(owner);
      }
    }

    /** What a seal adds: one letter id and its one event. */
    lemma SealAdds(call: SealCall, transaction: nat)
      requires SealLetter(call, transaction).Ok?
      ensures var event := LetterSealed(call.letterId, call.from, call.recipient, call.recipientKeyId,
          call.archiveSha256, transaction);
              SealLetter(call, transaction).value == this.(sealedLetters := sealedLetters
                  + {call.letterId}, events := events + [event])
      ensures call.letterId !in sealedLetters && Registered(call.recipient, call.recipientKeyId)
    {
    }

    lemma EventsKeepValid(event: LetterSealed)
      requires Valid() && event.letterId !in sealedLetters && Registered(event.recipient, event.recipientKeyId)
      ensures this.(sealedLetters := sealedLetters + {event.letterId}, events := events + [event]).Valid()
    {
      var later := this.(sealedLetters := sealedLetters + {event.letterId}, events := events + [event]);
      hide CurrentKeyId, PublicKey;
      forall owner: Address ensures later.CurrentKeyId(owner) == CurrentKeyId(owner) {
        SameKeys(later, owner, 0);
      }
      forall owner, keyId: nat ensures later.Registered(owner, keyId) <==> Registered(owner, keyId) {
        SameKeys(later, owner, keyId);
      }
      forall id | id in later.sealedLetters
        ensures exists i :: 0 <= i < |later.events| && later.events[i].letterId == id
      {
        if id in sealedLetters {
          var i :| 0 <= i < |events| && events[i].letterId == id;
          assert later.events[i].letterId == id;
        } else {
          assert later.events[|events|].letterId == id;
        }
      }
    }

    lemma SameKeys(later: Chain, owner: Address, keyId: nat)
      requires later.currentKeyId == currentKeyId && later.mailboxPublicKeys == mailboxPublicKeys
      ensures later.CurrentKeyId(owner) == CurrentKeyId(owner)
          && later.PublicKey(owner, keyId) == PublicKey(owner, keyId)
    {
    }

    lemma SealKeeps(call: SealCall, transaction: nat)
      requires Valid() && SealLetter(call, transaction).Ok?
      ensures var later := SealLetter(call, transaction).value;
              && later.Valid() && Grows(later)
              && call.letterId !in sealedLetters && call.letterId in later.sealedLetters
    {
      SealAdds(call, transaction);
      var later := SealLetter(call, transaction).value;
      hide SealLetter, Valid;
      EventsKeepValid(LetterSealed(call.letterId, call.from, call.recipient, call.recipientKeyId, call.archiveSha256,
          transaction));
    }
  }
}
