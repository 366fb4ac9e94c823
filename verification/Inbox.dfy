/**
 The receiving half: the inbox hook (frontend/src/features/hooks/inbox/use-inbox.ts), its check of the
 event against the calldata (frontend/src/features/data/inbox/onchain-inbox.ts), the email recovery of a
 mailbox key (backend/src/Recovery/RecoveryService.php), and delivery from sender to recipient.
 */
module Inbox {
  import opened Wrappers
  import opened ByteCodec
  import opened Crypto
  import opened Gbyl
  import opened Gtx1
  import opened Gibyeol2026
  import opened SendProtocol
  import opened SendTheorems

  /** A letter as listed from the event log; the hash is an index into the transactions. */
  datatype InboxLetter = InboxLetter(
    letterId: Bytes32, sender: string, recipient: string, recipientKeyId: nat, archiveSha256: Bytes32,
        transactionHash: nat)

  datatype OpenedLetter = OpenedLetter(message: Bytes, media: seq<MediaItem>)

  datatype Failure = KeyMismatch | CalldataMismatch | PackageMissing | PackageHashMismatch
      | Undecryptable(error: WireError)

  datatype Calldata = Calldata(encryptedText: Bytes, sealedKey: Bytes)

  function Wrap<T>(r: Result<T, WireError>): Result<T, Failure> {
    match r case Ok(value) => Ok(value) case Err(e) => Err(Undecryptable(e))
  }

  /** The call's recipient is decoded to `0x` and hex; `None` is a transaction that does not call `sealLetter`. */
  function LoadLetterCalldata(transaction: Option<SealCall>, letter: InboxLetter): Result<Calldata, Failure> {
    match transaction
    case None => Err(CalldataMismatch)
    case Some(call) =>
      if call.letterId != letter.letterId || "0x" + BytesToHex(call.recipient) != Lower(letter.recipient)
         || call.recipientKeyId != letter.recipientKeyId || call.archiveSha256 != letter.archiveSha256
      then Err(CalldataMismatch)
      else Ok(Calldata(call.encryptedText, call.sealedKey))
  }

  predicate Prefixed(address: string) {
    |address| >= 2 && address[..2] == "0x"
  }

  lemma PrefixedParts(text: string)
    requires Prefixed(text)
    ensures StripPrefix(text) == text[2..] && Lower(text) == "0x" + Lower(text[2..])
  {
    assert LowerChar('0') == '0' && LowerChar('x') == 'x';
    hide LowerChar;
    assert Lower(text)[..2] == "0x";
    assert Lower(text)[2..] == Lower(text[2..]);
    assert Lower(text) == Lower(text)[..2] + Lower(text)[2..];
  }

  /** Comparing addresses as lower-cased text is comparing them as bytes. */
  lemma AddressTextAgrees(address: Address, text: string)
    requires Prefixed(text) && FixedHex(text, 20).Ok?
    ensures "0x" + BytesToHex(address) == Lower(text) <==> FixedHex(text, 20) == Ok(address)
  {
    PrefixedParts(text);
    var digits := text[2..];
    assert |digits| % 2 == 0 && HexDigits(digits) && FixedHex(text, 20) == Ok(HexPairs(digits));
    hide HexPairs, BytesToHex, Lower, HexDigits, FixedHex;
    HexPairsLower(digits);
    HexRoundTrip(address);
    HexRoundTrip(HexPairs(digits));
    SamePrefix(BytesToHex(address), Lower(digits));
  }

  lemma SamePrefix(a: string, b: string)
    ensures "0x" + a == "0x" + b <==> a == b
  {
    assert ("0x" + a)[2..] == a && ("0x" + b)[2..] == b;
  }

  /** What `decryptWith` returns, given the beacon round, the chain, and whatever the package server answered. */
  function OpenLetter(c: Config, w: World, letter: InboxLetter, keyPair: MailboxKeyPair, round: nat,
          response: Option<Bytes>):
    Result<OpenedLetter, Failure>
  {
    if keyPair.publicKey != w.chain.PublicKey(AddressOf(letter.recipient), letter.recipientKeyId) then Err(KeyMismatch)
    else
      var calldata :- LoadLetterCalldata(if letter.transactionHash < |w.transactions|
          then Some(w.transactions[letter.transactionHash]) else None, letter);
      if response.None? then Err(PackageMissing)
      else if c.Sha256(response.value) != letter.archiveSha256 then Err(PackageHashMismatch)
      else
        var context :- Wrap(c.ContextFor(letter.letterId, letter.sender, letter.recipient));
        var letterKey :- Wrap(UnwrapLetterKey(c.primitives, c.tlock, round, calldata.sealedKey, keyPair));
        var message :- Wrap(DecryptText(c.primitives, calldata.encryptedText, letterKey, context));
        var media :- Wrap(DecryptGbyl(c.primitives, response.value, letterKey, context));
        Ok(OpenedLetter(message, media))
  }

  predicate Zeroed(a: array<byte>)
    reads a
  {
    forall i :: 0 <= i < a.Length ==> a[i] == 0
  }

  method Fill(a: array<byte>)
    modifies a
    ensures Zeroed(a)
  {
    forall i | 0 <= i < a.Length {
      a[i] := 0;
    }
  }

  /** The body of the `try`; `letterKey` is the buffer the key was unwrapped into, if it came to that. */
  method Decrypt(c: Config, w: World, letter: InboxLetter, publicKey: Bytes, privateKey: array<byte>, round: nat,
          response: Option<Bytes>)
    returns (r: Result<OpenedLetter, Failure>, letterKey: array<byte>)
    ensures r == OpenLetter(c, w, letter, MailboxKeyPair(publicKey, privateKey[..]), round, response)
    ensures fresh(letterKey)
  {
    hide LoadLetterCalldata, UnwrapLetterKey, DecryptText, DecryptGbyl, Config.ContextFor, Config.Sha256, AddressOf;
    letterKey := new byte[0];
    if publicKey != w.chain.PublicKey(AddressOf(letter.recipient), letter.recipientKeyId) {
      return Err(KeyMismatch), letterKey;
    }
    var calldata := LoadLetterCalldata(if letter.transactionHash < |w.transactions|
        then Some(w.transactions[letter.transactionHash]) else None, letter);
    if calldata.Err? {
      return Err(calldata.error), letterKey;
    }
    if response.None? {
      return Err(PackageMissing), letterKey;
    }
    if c.Sha256(response.value) != letter.archiveSha256 {
      return Err(PackageHashMismatch), letterKey;
    }
    var context := c.ContextFor(letter.letterId, letter.sender, letter.recipient);
    if context.Err? {
      return Err(Undecryptable(context.error)), letterKey;
    }
    var unwrapped := UnwrapLetterKey(c.primitives, c.tlock, round, calldata.value.sealedKey,
        MailboxKeyPair(publicKey, privateKey[..]));
    if unwrapped.Err? {
      return Err(Undecryptable(unwrapped.error)), letterKey;
    }
    letterKey := new byte[|unwrapped.value|](i requires 0 <= i < |unwrapped.value| => unwrapped.value[i]);
    assert letterKey[..] == unwrapped.value;
    var message := DecryptText(c.primitives, calldata.value.encryptedText, letterKey[..], context.value);
    var media := DecryptGbyl(c.primitives, response.value, letterKey[..], context.value);
    if message.Err? {
      return Err(Undecryptable(message.error)), letterKey;
    }
    if media.Err? {
      return Err(Undecryptable(media.error)), letterKey;
    }
    return Ok(OpenedLetter(message.value, media.value)), letterKey;
  }

  /** Whatever the outcome, the recipient's private key and the letter key are erased in place. */
  method DecryptWith(c: Config, w: World, letter: InboxLetter, publicKey: Bytes, privateKey: array<byte>, round: nat,
          response: Option<Bytes>)
    returns (r: Result<OpenedLetter, Failure>, letterKey: array<byte>)
    modifies privateKey
    ensures r == OpenLetter(c, w, letter, MailboxKeyPair(publicKey, old(privateKey[..])), round, response)
    ensures Zeroed(privateKey) && fresh(letterKey) && Zeroed(letterKey)
  {
    hide OpenLetter;
    r, letterKey := Decrypt(c, w, letter, publicKey, privateKey, round, response);
    Fill(letterKey);
    Fill(privateKey);
  }

  /******* Delivery *******/

  /** The listed letter shows this event, its addresses in any letter case. */
  predicate Shows(letter: InboxLetter, e: LetterSealed) {
    && letter.letterId == e.letterId
    && FixedHex(letter.sender, 20) == Ok(e.sender)
    && Prefixed(letter.recipient) && FixedHex(letter.recipient, 20) == Ok(e.recipient)
    && letter.recipientKeyId == e.recipientKeyId
    && letter.archiveSha256 == e.archiveSha256
    && letter.transactionHash == e.transaction
  }

  /** A letter sent from this browser. */
  predicate OurLetter(c: Config, w: World, e: LetterSealed) {
    e.sender == c.Sender() && e.letterId in w.letterIds
  }

  /** An event of this sender carries a parcel that was packed for its recipient, and its transaction delivers it. */
  lemma EventCarriesParcel(c: Config, w: World, i: nat)
    requires Invariant(c, w) && i < |w.chain.events| && OurLetter(c, w, w.chain.events[i])
    ensures var e := w.chain.events[i];
            && EventOk(w, e) && Delivers(c, w, w.transactions[e.transaction])
            && e.letterId in w.parcels && ParcelOk(c, e.letterId, w.parcels[e.letterId])
  {
    hide ParcelOk, OpensTo;
    assert EventOk(w, w.chain.events[i]);
  }

  lemma DeliveredLetterOpens(c: Config, w: World, letter: InboxLetter, e: LetterSealed, seed: Bytes, round: nat,
          response: Option<Bytes>)
    requires c.Valid() && Shows(letter, e) && e.sender == c.Sender()
    requires EventOk(w, e) && Delivers(c, w, w.transactions[e.transaction])
    requires e.letterId in w.parcels && ParcelOk(c, e.letterId, w.parcels[e.letterId])
    requires c.primitives.keyPair(seed).publicKey == w.chain.PublicKey(e.recipient, e.recipientKeyId)
    requires response.Some? && response.value != w.parcels[e.letterId].archive ==>
               c.Sha256(response.value) != c.Sha256(w.parcels[e.letterId].archive)
    ensures var parcel := w.parcels[e.letterId];
            var result := OpenLetter(c, w, letter, c.primitives.keyPair(seed), round, response);
            && (result.Ok? <==> round >= c.tlock.unlockRound && response == Some(parcel.archive))
            && (result.Ok? ==> result.value == OpenedLetter(c.primitives.utf8(parcel.message), parcel.media))
  {
    var parcel, call := w.parcels[e.letterId], w.transactions[e.transaction];
    AddressTextAgrees(call.recipient, letter.recipient);
    SameContext(c, letter.letterId, letter.sender, letter.recipient);
    assert LoadLetterCalldata(Some(call), letter) == Ok(Calldata(call.encryptedText, call.sealedKey));
    assert AddressOf(letter.recipient) == e.recipient && AddressOf(letter.sender) == c.Sender();
    assert UnwrapLetterKey(c.primitives, c.tlock, round, call.sealedKey, c.primitives.keyPair(seed))
        == if round < c.tlock.unlockRound then Err(CryptoError) else Ok(parcel.letterKey);
    hide LoadLetterCalldata, UnwrapLetterKey, DecryptText, DecryptGbyl, Config.ContextFor, Config.ContextOf,
        Config.Sha256, AddressOf, FixedHex, OpensTo, Config.Valid;
  }

  /**
   End-to-end delivery.  In every run, whatever crashed, was rejected or rotated: if a letter of this
   sender is on chain, the key pair behind the key it names opens it from the unlock round on and never
   before, to exactly the UTF-8 bytes and the media that were packed, and only from the archive that was
   uploaded for it.  The package server is trusted for nothing but not finding a SHA-256 collision.
   */
  lemma SealedLetterOpens(c: Config, start: World, labels: seq<Label>, i: nat, letter: InboxLetter, seed: Bytes,
          round: nat, response: Option<Bytes>)
    requires Initial(c, start) && Runs(c, start, labels)
    requires var w := After(c, start, labels);
             && i < |w.chain.events| && OurLetter(c, w, w.chain.events[i])
             && Shows(letter, w.chain.events[i])
             && c.primitives.keyPair(seed).publicKey ==
                 w.chain.PublicKey(w.chain.events[i].recipient, w.chain.events[i].recipientKeyId)
    requires var w := After(c, start, labels);
             response.Some? && letter.letterId in w.parcels && response.value != w.parcels[letter.letterId].archive ==>
               c.Sha256(response.value) != c.Sha256(w.parcels[letter.letterId].archive)
    ensures var w := After(c, start, labels);
            && letter.letterId in w.parcels
            && var parcel := w.parcels[letter.letterId];
            && parcel.archive in w.uploads
            && var result := OpenLetter(c, w, letter, c.primitives.keyPair(seed), round, response);
            && (result.Ok? <==> round >= c.tlock.unlockRound && response == Some(parcel.archive))
            && (result.Ok? ==> result.value == OpenedLetter(c.primitives.utf8(parcel.message), parcel.media))
  {
    hide Invariant, Initial, Runs, After, OpenLetter, ParcelOk, OpensTo, Config.Sha256, FixedHex;
    assert c.Valid() by {
      InitialIsValid(c, start);
    }
    ReachableIsSound(c, start, labels, |labels|);
    assert labels[..|labels|] == labels;
    var w := After(c, start, labels);
    EventCarriesParcel(c, w, i);
    DeliveredLetterOpens(c, w, letter, w.chain.events[i], seed, round, response);
  }

  /**
   What SEALED means to the sender: as long as the checks of both sealing steps hold, the letter of every draft
   shown or stored as sealed is listed on chain, and the named key opens it to what was packed.
   */
  lemma SealedDraftOpens(c: Config, start: World, labels: seq<Label>, d: Draft, letter: InboxLetter, seed: Bytes,
          round: nat, response: Option<Bytes>)
    returns (i: nat)
    requires Initial(c, start) && Runs(c, start, labels) && ChecksHold(c, start, labels)
    requires After(c, start, labels).memory == Some(d) || After(c, start, labels).stored == Some(d)
    requires d.stage == Sealed
    ensures var w := After(c, start, labels);
            && i < |w.chain.events| && w.chain.events[i].letterId == d.letterId && d.letterId in w.parcels
            && var e, parcel := w.chain.events[i], w.parcels[d.letterId];
            && (Shows(letter, e) && c.primitives.keyPair(seed).publicKey ==
                w.chain.PublicKey(e.recipient, e.recipientKeyId)
                && (response.Some? && response.value != parcel.archive ==>
                    c.Sha256(response.value) != c.Sha256(parcel.archive)) ==>
                  var result := OpenLetter(c, w, letter, c.primitives.keyPair(seed), round, response);
                  && (result.Ok? <==> round >= c.tlock.unlockRound && response == Some(parcel.archive))
                  && (result.Ok? ==> result.value == OpenedLetter(c.primitives.utf8(parcel.message), parcel.media)))
  {
    i := SealedDraftIsOnChain(c, start, labels, d);
    hide Invariant, Initial, Runs, After, ChecksHold, OpenLetter, ParcelOk, OpensTo, Config.Sha256, FixedHex;
    ReachableIsSound(c, start, labels, |labels|);
    assert labels[..|labels|] == labels;
    var w := After(c, start, labels);
    EventCarriesParcel(c, w, i);
    var e, parcel := w.chain.events[i], w.parcels[d.letterId];
    if Shows(letter, e) && c.primitives.keyPair(seed).publicKey == w.chain.PublicKey(e.recipient, e.recipientKeyId)
       && (response.Some? && response.value != parcel.archive ==>
           c.Sha256(response.value) != c.Sha256(parcel.archive)) {
      SealedLetterOpens(c, start, labels, i, letter, seed, round, response);
    }
  }

  lemma InitialIsValid(c: Config, start: World)
    requires Initial(c, start)
    ensures c.Valid()
  {
  }

  /** A transaction of this sender that succeeded has put its letter on chain, to be listed and opened. */
  lemma SuccessIsListed(c: Config, start: World, labels: seq<Label>, t: nat)
    requires Initial(c, start) && Runs(c, start, labels)
    requires t in After(c, start, labels).receipts && After(c, start, labels).receipts[t] == Success
    ensures var w := After(c, start, labels);
            && t < |w.transactions|
            && exists i :: 0 <= i < |w.chain.events| && w.chain.events[i].transaction == t
                 && w.chain.events[i].letterId == w.transactions[t].letterId
                 && w.chain.events[i].sender == w.transactions[t].from
  {
    hide Initial, Runs, After;
    ReachableIsSound(c, start, labels, |labels|);
    assert labels[..|labels|] == labels;
    var w := After(c, start, labels);
    hide ParcelOk, Delivers, DraftOk, Chain.Valid;
    assert Emitted(w, t);
    var i :| 0 <= i < |w.chain.events| && w.chain.events[i].transaction == t;
    assert EventOk(w, w.chain.events[i]);
  }

  /******* Recovering the mailbox key by email *******/

  /** The recovery server's gate: unlock time, key id range, and an email proof of the last ten minutes. */
  datatype RecoveryGate = RecoveryGate(now: int, unlockAt: int, emailProofAge: Option<int>)
  {
    predicate Open(keyId: int) {
      now >= unlockAt && 1 <= keyId <= MAX_KEY_ID && emailProofAge.Some? && emailProofAge.value < 600
    }
  }

  function CreateRecoveryEnvelope(p: Primitives, t: Tlock, mailboxSeed: Bytes, recoveryPublicKey: Bytes,
          boxRandom: Bytes, lockRandom: Bytes): Bytes
  {
    p.tlockEncrypt(p.boxSeal(mailboxSeed, recoveryPublicKey, boxRandom), t.unlockRound, t.chainHash, lockRandom)
  }

  function UnwrapForClient(p: Primitives, gate: RecoveryGate, keyId: int, registered: Bytes, ciphertext: Bytes,
                           recoveryPair: MailboxKeyPair, clientPublicKey: Bytes, boxRandom: Bytes): Result<Bytes,
                               WireError> {
    if !gate.Open(keyId) || |clientPublicKey| != 32 then Err(TypeError)
    else
      var seed :- OpenSealBox(p, ciphertext, recoveryPair);
      if |seed| != 32 || registered != p.keyPair(seed).publicKey then Err(CryptoError)
      else Ok(p.boxSeal(seed, clientPublicKey, boxRandom))
  }

  function Recover(p: Primitives, t: Tlock, round: nat, gate: RecoveryGate, keyId: int, registered: Bytes,
          envelope: Bytes,
                   recoveryPair: MailboxKeyPair, clientSeed: Bytes, boxRandom: Bytes): Result<MailboxKeyPair,
                       WireError> {
    if round < t.unlockRound then Err(CryptoError)
    else
      match p.tlockDecrypt(envelope, t.chainHash)
      case None => Err(CryptoError)
      case Some(ciphertext) =>
        var clientPair := p.keyPair(clientSeed);
        var sealedSeed :- UnwrapForClient(p, gate, keyId, registered, ciphertext, recoveryPair, clientPair.publicKey,
            boxRandom);
        var seed :- OpenSealBox(p, sealedSeed, clientPair);
        Ok(p.keyPair(seed))
  }

  /**
   Recovery gives back exactly the registered mailbox key pair, and does so if and only if both clocks
   have passed the unlock moment and the email was proved within ten minutes.
   */
  lemma RecoveryReturnsRegisteredKey(p: Primitives, t: Tlock, round: nat, gate: RecoveryGate, keyId: int, seed: Bytes,
                                     recoverySeed: Bytes, clientSeed: Bytes, boxRandom: Bytes, lockRandom: Bytes,
                                         replyRandom: Bytes)
    requires p.Lawful() && |seed| == 32
    ensures var recoveryPair := p.keyPair(recoverySeed);
            var envelope := CreateRecoveryEnvelope(p, t, seed, recoveryPair.publicKey, boxRandom, lockRandom);
            var recovered := Recover(p, t, round, gate, keyId, p.keyPair(seed).publicKey, envelope, recoveryPair,
                clientSeed, replyRandom);
            && (recovered.Ok? <==> round >= t.unlockRound && gate.Open(keyId))
            && (recovered.Ok? ==> recovered.value == p.keyPair(seed))
  {
    var recoveryPair, clientPair := p.keyPair(recoverySeed), p.keyPair(clientSeed);
    var box := p.boxSeal(seed, recoveryPair.publicKey, boxRandom);
    var envelope := CreateRecoveryEnvelope(p, t, seed, recoveryPair.publicKey, boxRandom, lockRandom);
    assert p.tlockDecrypt(envelope, t.chainHash) == Some(box);
    assert OpenSealBox(p, box, recoveryPair) == Ok(seed);
    assert OpenSealBox(p, p.boxSeal(seed, clientPair.publicKey, replyRandom), clientPair) == Ok(seed);
  }

  /** Whatever envelope the server is given, a recovered key pair has the public key that is registered. */
  lemma RecoveredKeyIsRegistered(p: Primitives, t: Tlock, round: nat, gate: RecoveryGate, keyId: int,
          registered: Bytes, envelope: Bytes,
                                 recoveryPair: MailboxKeyPair, clientSeed: Bytes, boxRandom: Bytes)
    requires p.Lawful()
    requires Recover(p, t, round, gate, keyId, registered, envelope, recoveryPair, clientSeed, boxRandom).Ok?
    ensures Recover(p, t, round, gate, keyId, registered, envelope, recoveryPair, clientSeed,
        boxRandom).value.publicKey == registered
  {
    var ciphertext := p.tlockDecrypt(envelope, t.chainHash).value;
    var clientPair := p.keyPair(clientSeed);
    var seed := OpenSealBox(p, ciphertext, recoveryPair).value;
    assert OpenSealBox(p, p.boxSeal(seed, clientPair.publicKey, boxRandom), clientPair) == Ok(seed);
  }
}
