/**
 The send protocol as a state machine: one sender's draft in memory and in local storage, the chain, the
 transactions broadcast so far, and the package store.  Every persisted write of
 frontend/src/features/hooks/send/use-send-letter.ts is one step, and a crash may fall between any two.
 */
module SendProtocol {
  import opened Wrappers
  import opened ByteCodec
  import opened Crypto
  import Context = LetterContext
  import opened Gbyl
  import opened Gtx1
  import opened Gibyeol2026

  /** `Packed` and `Uploaded` occur only in drafts stored by earlier versions. */
  datatype Stage = Composing | Packing | UploadingPackage | EncryptingKey | WaitingTransaction | Sealed | Packed
      | Uploaded

  datatype Draft = Draft(
    letterId: Bytes32,
    recipient: string,
    message: string,
    stage: Stage,
    recipientKeyId: Option<nat>,
    letterKey: Option<Bytes>,
    encryptedText: Option<Bytes>,
    sealedKey: Option<Bytes>,
    archive: Option<Bytes>,
    archiveSha256: Option<Bytes32>,
    transactionHash: Option<nat>)

  function EmptyDraft(letterId: Bytes32): Draft {
    Draft(letterId, "", "", Composing, None, None, None, None, None, None, None)
  }

  /** The stage a stored draft resumes in. */
  function Loaded(stored: Draft): Draft {
    stored.(stage := match stored.stage
                     case Packed => UploadingPackage
                     case Uploaded => EncryptingKey
                     case Packing => Composing
                     case other => other)
  }

  /** What was packed for a letter id. */
  datatype Parcel = Parcel(recipient: Address, message: string, media: seq<MediaItem>, letterKey: Bytes,
      encryptedText: Bytes, archive: Bytes)

  datatype Receipt = Success | Reverted(reason: Revert)

  /** A transaction hash is its index in `transactions`; a receipt exists once it is mined. */
  datatype World = World(
    memory: Option<Draft>,
    stored: Option<Draft>,
    chain: Chain,
    transactions: seq<SealCall>,
    receipts: map<nat, Receipt>,
    uploads: set<Bytes>,
    parcels: map<Bytes32, Parcel>,
    letterIds: set<Bytes32>)

  datatype Config = Config(
    primitives: Primitives,
    tlock: Tlock,
    chainId: int,
    contractAddress: string,
    sender: string,
    /** the mixed-case checksum of an address */
    checksum: string -> bool,
    /** whether a message trims to nothing */
    blank: string -> bool)
  {
    ghost predicate Valid() {
      && primitives.Lawful()
      && 0 <= chainId < UINT256_LIMIT
      && blank("")
      && FixedHex(contractAddress, 20).Ok?
      && FixedHex(sender, 20).Ok?
    }

    function Sender(): Address {
      AddressOf(sender)
    }

    function Sha256(b: Bytes): Bytes32 {
      if |primitives.sha256(b)| == 32 then primitives.sha256(b) else ZERO_KEY
    }

    predicate IsAddress(s: string) {
      && |s| == 42 && s[0] == '0' && s[1] == 'x' && HexDigits(s[2..])
      && (Lower(s) == s || checksum(s))
    }

    /** The context a client builds from an address in text form. */
    function ContextFor(letterId: Bytes32, from: string, recipient: string): Result<Bytes, WireError> {
      Context.EncodeLetterContext(Context.Input(chainId, Context.Hex(contractAddress), Context.Raw(letterId),
          Context.Hex(from), Context.Hex(recipient)))
    }

    /** The context of a letter between two addresses, whatever the spelling of their hex. */
    function ContextOf(letterId: Bytes32, from: Address, recipient: Address): Bytes {
      var r := Context.EncodeLetterContext(Context.Input(chainId, Context.Hex(contractAddress), Context.Raw(letterId),
          Context.Raw(from), Context.Raw(recipient)));
      if r.Ok? then r.value else []
    }
  }

  function AddressOf(s: string): Address {
    if FixedHex(s, 20).Ok? then FixedHex(s, 20).value else ZERO_ADDRESS
  }

  /** Sender and receiver build the same context, whichever case their addresses are written in. */
  lemma SameContext(c: Config, letterId: Bytes32, from: string, recipient: string)
    requires c.Valid() && FixedHex(from, 20).Ok? && FixedHex(recipient, 20).Ok?
    ensures c.ContextFor(letterId, from, recipient) == Ok(c.ContextOf(letterId, AddressOf(from), AddressOf(recipient)))
  {
  }

  lemma AddressesDecode(c: Config, s: string)
    requires c.IsAddress(s)
    ensures FixedHex(s, 20).Ok? && FixedHex(Lower(s), 20) == FixedHex(s, 20)
  {
    LowerKeepsBytes(s);
  }

  /** The arguments the client passes to `sealLetter`. */
  function CallOf(c: Config, d: Draft): SealCall
    requires d.recipientKeyId.Some? && d.encryptedText.Some? && d.sealedKey.Some? && d.archiveSha256.Some?
  {
    SealCall(c.Sender(), d.letterId, AddressOf(d.recipient), d.recipientKeyId.value, d.encryptedText.value,
        d.sealedKey.value, d.archiveSha256.value)
  }

  function WrapFor(c: Config, w: World, d: Draft, keyId: nat, boxRandom: Bytes,
          lockRandom: Bytes): Result<Bytes, WireError>
    requires d.letterKey.Some?
  {
    WrapLetterKey(c.primitives, c.tlock, d.letterKey.value, w.chain.PublicKey(AddressOf(d.recipient), keyId),
        boxRandom, lockRandom)
  }

  /******* Steps *******/

  datatype Label =
    // the environment
    | Register(owner: Address, publicKey: Bytes32)
    | Deactivate(owner: Address)
    | ForeignSeal(call: SealCall)
    | Mine(transaction: nat)
    // the page
    | Load(freshId: Bytes32)
    | Crash
    | Update(recipient: string, message: string)
    | Reset(freshId: Bytes32)
    // the stages of seal()
    | StartPacking(keyId: nat)
    | Pack(media: seq<MediaItem>, letterKey: Bytes, ivs: nat -> Bytes, textIv: Bytes)
    | PackFailed
    | Upload
    | WrapKey(keyId: nat, boxRandom: Bytes, lockRandom: Bytes)
    | Rewrap(keyId: nat, boxRandom: Bytes, lockRandom: Bytes, dropHash: bool)
    | Submit
    | RecordHash(transaction: nat)
    | DropHash
    | SealRecovered(transaction: nat)
    | SealResumed

  predicate FromEnvironment(l: Label) {
    l.Register? || l.Deactivate? || l.ForeignSeal? || l.Mine?
  }

  predicate InStage(w: World, stage: Stage) {
    w.memory.Some? && w.memory.value.stage == stage
  }

  /** Submitted for a letter of this browser; the same account may also send letters from elsewhere. */
  predicate Ours(c: Config, w: World, call: SealCall) {
    call.from == c.Sender() && call.letterId in w.letterIds
  }

  predicate Submitted(c: Config, w: World, letterId: Bytes32) {
    exists t :: 0 <= t < |w.transactions| && w.transactions[t].from == c.Sender()
        && w.transactions[t].letterId == letterId
  }

  /** A letter id that the account has not used, here or elsewhere. */
  predicate Unused(c: Config, w: World, letterId: Bytes32) {
    letterId !in w.letterIds && !Submitted(c, w, letterId)
  }

  predicate Enabled(c: Config, w: World, l: Label) {
    match l
    case Register(owner, publicKey) => owner != ZERO_ADDRESS && w.chain.RegisterMailboxKey(owner, publicKey).Ok?
    case Deactivate(owner) => w.chain.DeactivateMailbox(owner).Ok?
    case ForeignSeal(call) => !Ours(c, w, call)
    case Mine(t) => t < |w.transactions| && t !in w.receipts
    case Load(freshId) => w.memory.None? && Unused(c, w, freshId)
    case Crash => true
    case Update(_, _) => InStage(w, Composing)
    case Reset(freshId) => Unused(c, w, freshId)
    case StartPacking(keyId) =>
      && (InStage(w, Composing) || InStage(w, Packing))
      && c.IsAddress(w.memory.value.recipient) && !c.blank(w.memory.value.message)
      && 1 <= keyId <= w.chain.CurrentKeyId(AddressOf(w.memory.value.recipient))
    case Pack(media, letterKey, ivs, textIv) =>
      && InStage(w, Packing)
      && FixedHex(w.memory.value.recipient, 20).Ok?
      && var context := c.ContextOf(w.memory.value.letterId, c.Sender(), AddressOf(w.memory.value.recipient));
      && Gbyl.Pack(c.primitives, media, letterKey, context, ivs).Ok?
      && EncryptText(c.primitives, w.memory.value.message, letterKey, context, textIv).Ok?
    case PackFailed => InStage(w, Packing)
    case Upload => InStage(w, UploadingPackage) && w.memory.value.archive.Some?
    case WrapKey(keyId, boxRandom, lockRandom) =>
      InStage(w, EncryptingKey) && CanWrap(c, w, keyId)
    case Rewrap(keyId, boxRandom, lockRandom, _) =>
      InStage(w, WaitingTransaction) && CanWrap(c, w, keyId)
    case Submit =>
      && InStage(w, WaitingTransaction)
      && var d := w.memory.value;
      d.recipientKeyId.Some? && d.encryptedText.Some? && d.sealedKey.Some? && d.archiveSha256.Some?
    case RecordHash(t) =>
      && InStage(w, WaitingTransaction)
      && t < |w.transactions| && w.transactions[t].from == c.Sender()
      && w.transactions[t].letterId == w.memory.value.letterId
    case DropHash => InStage(w, WaitingTransaction)
    case SealRecovered(t) =>
      && InStage(w, WaitingTransaction)
      && w.memory.value.letterId in w.chain.sealedLetters
      && t < |w.transactions| && w.transactions[t].letterId == w.memory.value.letterId
    case SealResumed =>
      && InStage(w, WaitingTransaction)
      && w.memory.value.transactionHash.Some? && w.memory.value.transactionHash.value in w.receipts
  }

  predicate CanWrap(c: Config, w: World, keyId: nat)
    requires w.memory.Some?
  {
    && w.memory.value.letterKey.Some? && |w.memory.value.letterKey.value| == 32
    && w.chain.Registered(AddressOf(w.memory.value.recipient), keyId)
  }

  function Persist(w: World, d: Draft): World {
    w.(memory := Some(d), stored := Some(d))
  }

  function SealedDraft(d: Draft, hash: Option<nat>): Draft {
    d.(stage := Sealed, transactionHash := hash, message := "", letterKey := None)
  }

  function Execute(w: World, t: nat): World
    requires t < |w.transactions|
  {
    match w.chain.SealLetter(w.transactions[t], t)
    case Ok(chain) => w.(chain := chain, receipts := w.receipts[t := Success])
    case Err(reason) => w.(receipts := w.receipts[t := Reverted(reason)])
  }

  function Apply(c: Config, w: World, l: Label): World
    requires Enabled(c, w, l)
  {
    match l
    case Register(owner, publicKey) => w.(chain := w.chain.RegisterMailboxKey(owner, publicKey).value)
    case Deactivate(owner) => w.(chain := w.chain.DeactivateMailbox(owner).value)
    case ForeignSeal(call) => w.(transactions := w.transactions + [call])
    case Mine(t) => Execute(w, t)
    case Load(freshId) =>
      if w.stored.Some? then w.(memory := Some(Loaded(w.stored.value)))
      else w.(memory := Some(EmptyDraft(freshId)), letterIds := w.letterIds + {freshId})
    case Crash => w.(memory := None)
    case Update(recipient, message) => Persist(w, w.memory.value.(recipient := recipient, message := message))
    case Reset(freshId) => Persist(w, EmptyDraft(freshId)).(letterIds := w.letterIds + {freshId})
    case StartPacking(keyId) =>
      Persist(w, w.memory.value.(stage := Packing, recipient := Lower(w.memory.value.recipient),
          recipientKeyId := Some(keyId)))
    case Pack(media, letterKey, ivs, textIv) =>
      var d := w.memory.value;
      var context := c.ContextOf(d.letterId, c.Sender(), AddressOf(d.recipient));
      var archive := Gbyl.Pack(c.primitives, media, letterKey, context, ivs).value;
      var text := EncryptText(c.primitives, d.message, letterKey, context, textIv).value;
      Persist(w, d.(stage := UploadingPackage, letterKey := Some(letterKey), encryptedText := Some(text),
          archive := Some(archive), archiveSha256 := Some(c.Sha256(archive))))
        .(parcels := w.parcels[d.letterId := Parcel(AddressOf(d.recipient), d.message, media, letterKey, text,
            archive)])
    case PackFailed => Persist(w, w.memory.value.(stage := Composing))
    case Upload => Persist(w, w.memory.value.(stage := EncryptingKey)).(uploads := w.uploads
        + {w.memory.value.archive.value})
    case WrapKey(keyId, boxRandom, lockRandom) =>
      var sealedKey := WrapFor(c, w, w.memory.value, keyId, boxRandom, lockRandom).value;
      Persist(w, w.memory.value.(stage := WaitingTransaction, recipientKeyId := Some(keyId),
          sealedKey := Some(sealedKey)))
    case Rewrap(keyId, boxRandom, lockRandom, dropHash) =>
      var sealedKey := WrapFor(c, w, w.memory.value, keyId, boxRandom, lockRandom).value;
      Persist(w, w.memory.value.(recipientKeyId := Some(keyId), sealedKey := Some(sealedKey),
                                 transactionHash := if dropHash then None else w.memory.value.transactionHash))
    case Submit => w.(transactions := w.transactions + [CallOf(c, w.memory.value)])
    case RecordHash(t) => Persist(w, w.memory.value.(transactionHash := Some(t)))
    case DropHash => Persist(w, w.memory.value.(transactionHash := None))
    case SealRecovered(t) => Persist(w, SealedDraft(w.memory.value, Some(t)))
    case SealResumed => Persist(w, SealedDraft(w.memory.value, w.memory.value.transactionHash))
  }

  /** Every label of the run is enabled where it is taken. */
  ghost predicate Runs(c: Config, w: World, labels: seq<Label>)
    decreases |labels|, 0
  {
    labels == [] || (Runs(c, w, labels[..|labels| - 1])
        && Enabled(c, After(c, w, labels[..|labels| - 1]), labels[|labels| - 1]))
  }

  ghost function After(c: Config, w: World, labels: seq<Label>): World
    requires Runs(c, w, labels)
    decreases |labels|, 1
  {
    if labels == [] then w else Apply(c, After(c, w, labels[..|labels| - 1]), labels[|labels| - 1])
  }

  /******* Invariant *******/

  ghost predicate ParcelOk(c: Config, letterId: Bytes32, parcel: Parcel) {
    var context := c.ContextOf(letterId, c.Sender(), parcel.recipient);
    && |parcel.letterKey| == 32
    && ParseArchive(parcel.archive).Ok?
    && |parcel.encryptedText| <= Gtx1.MAX_ENCRYPTED_TEXT_BYTES
    && DecryptGbyl(c.primitives, parcel.archive, parcel.letterKey, context) == Ok(parcel.media)
    && DecryptText(c.primitives, parcel.encryptedText, parcel.letterKey, context) ==
        Ok(c.primitives.utf8(parcel.message))
  }

  /** The call carries the parcel of its letter, and its sealed key opens under the key it names. */
  ghost predicate Delivers(c: Config, w: World, call: SealCall) {
    && call.letterId in w.parcels
    && var parcel := w.parcels[call.letterId];
    && call.recipient == parcel.recipient
    && call.encryptedText == parcel.encryptedText
    && call.archiveSha256 == c.Sha256(parcel.archive)
    && parcel.archive in w.uploads
    && w.chain.Registered(call.recipient, call.recipientKeyId)
    && OpensTo(c.primitives, c.tlock, call.sealedKey, w.chain.PublicKey(call.recipient, call.recipientKeyId),
        parcel.letterKey)
  }

  predicate HoldsParcel(d: Draft, parcel: Parcel) {
    && FixedHex(d.recipient, 20).Ok?
    && AddressOf(d.recipient) == parcel.recipient
    && d.message == parcel.message
    && d.letterKey == Some(parcel.letterKey)
    && d.encryptedText == Some(parcel.encryptedText)
    && d.archive == Some(parcel.archive)
  }

  ghost predicate DraftOk(c: Config, w: World, d: Draft) {
    && d.letterId in w.letterIds
    && (d.stage == Composing || d.stage == Packing ==>
          d.letterId !in w.parcels && d.transactionHash.None?)
    && (d.stage == Packing ==> FixedHex(d.recipient, 20).Ok? && KeyKnown(w, d))
    && (d.stage == UploadingPackage || d.stage == EncryptingKey ==>
          && !Submitted(c, w, d.letterId) && d.transactionHash.None? && KeyKnown(w, d))
    && (d.stage == UploadingPackage || d.stage == EncryptingKey || d.stage == WaitingTransaction ==>
          && d.letterId in w.parcels && HoldsParcel(d, w.parcels[d.letterId])
          && d.archiveSha256 == Some(c.Sha256(d.archive.value)))
    && (d.stage == EncryptingKey || d.stage == WaitingTransaction ==> d.archive.Some? && d.archive.value in w.uploads)
    && (d.stage == WaitingTransaction ==>
          && d.recipientKeyId.Some? && d.sealedKey.Some?
          && Delivers(c, w, CallOf(c, d))
          && (d.transactionHash.Some? ==> OwnHash(c, w, d.letterId, d.transactionHash.value)))
    && (d.stage == Sealed ==> d.message == "" && d.letterKey.None? && d.transactionHash.Some?)
    && d.stage != Packed && d.stage != Uploaded
  }

  predicate KeyKnown(w: World, d: Draft) {
    d.recipientKeyId.Some? && 1 <= d.recipientKeyId.value <= w.chain.CurrentKeyId(AddressOf(d.recipient))
  }

  predicate OwnHash(c: Config, w: World, letterId: Bytes32, t: nat) {
    t < |w.transactions| && w.transactions[t].from == c.Sender() && w.transactions[t].letterId == letterId
  }

  ghost predicate EventOk(w: World, e: LetterSealed) {
    && e.transaction < |w.transactions|
    && e.transaction in w.receipts && w.receipts[e.transaction] == Success
    && var call := w.transactions[e.transaction];
    && call.letterId == e.letterId && call.from == e.sender && call.recipient == e.recipient
    && call.recipientKeyId == e.recipientKeyId && call.archiveSha256 == e.archiveSha256
  }

  ghost predicate LedgerOk(w: World) {
    && w.chain.Valid()
    && (forall t :: t in w.receipts ==> t < |w.transactions|)
    && (forall t :: t in w.receipts && (w.receipts[t] == Success || w.receipts[t] == Reverted(LetterAlreadySealed)) ==>
          w.transactions[t].letterId in w.chain.sealedLetters)
    && (forall t :: t in w.receipts && w.receipts[t] == Success ==> Emitted(w, t))
    && (forall i :: 0 <= i < |w.chain.events| ==> EventOk(w, w.chain.events[i]))
  }

  ghost predicate Emitted(w: World, t: nat) {
    exists i :: 0 <= i < |w.chain.events| && w.chain.events[i].transaction == t
  }

  lemma EmittedGrows(w: World, v: World, t: nat)
    requires Emitted(w, t) && w.chain.events <= v.chain.events
    ensures Emitted(v, t)
  {
    var i :| 0 <= i < |w.chain.events| && w.chain.events[i].transaction == t;
    assert v.chain.events[i].transaction == t;
  }

  /** The letter is on chain, sent by this account. */
  predicate OwnEvent(c: Config, w: World, letterId: Bytes32) {
    exists i :: 0 <= i < |w.chain.events| && w.chain.events[i].letterId == letterId
        && w.chain.events[i].sender == c.Sender()
  }

  /** The contract lets any sender use any letter id, and someone else has used this one. */
  predicate TakenByOther(c: Config, w: World, letterId: Bytes32) {
    exists i :: 0 <= i < |w.chain.events| && w.chain.events[i].letterId == letterId
        && w.chain.events[i].sender != c.Sender()
  }

  /** A sealed id has one event, so it is the sender's own or someone else's, never both. */
  lemma SealedByOneSender(c: Config, w: World, letterId: Bytes32)
    requires w.chain.Valid()
    ensures letterId in w.chain.sealedLetters <==> OwnEvent(c, w, letterId) || TakenByOther(c, w, letterId)
    ensures !(OwnEvent(c, w, letterId) && TakenByOther(c, w, letterId))
  {
  }

  /** The part of the invariant that does not look at the drafts. */
  ghost predicate SharedOk(c: Config, w: World) {
    && LedgerOk(w)
    && w.parcels.Keys <= w.letterIds
    && (forall id :: id in w.parcels ==> ParcelOk(c, id, w.parcels[id]))
    && (forall t :: 0 <= t < |w.transactions| && Ours(c, w, w.transactions[t]) ==> Delivers(c, w, w.transactions[t]))
  }

  ghost predicate Invariant(c: Config, w: World) {
    && SharedOk(c, w)
    && (w.memory.Some? ==> DraftOk(c, w, w.memory.value))
    && (w.stored.Some? ==> DraftOk(c, w, Loaded(w.stored.value)))
    && InStep(w)
  }

  /** Memory shows the stored draft, as written or as reloaded, or a new one that was never stored. */
  ghost predicate InStep(w: World) {
    w.memory.Some? ==>
      if w.stored.Some? then w.memory == w.stored || w.memory.value == Loaded(w.stored.value)
      else w.memory.value.stage == Composing
  }

  /**
   Before the first step the chain may have any history without transactions of this sender, and storage
   may hold a draft left by an earlier visit or an earlier version, short of being sealed.
   */
  ghost predicate Initial(c: Config, w: World) {
    && c.Valid()
    && LedgerOk(w)
    && w.memory.None?
    && w.parcels.Keys <= w.letterIds
    && (forall id :: id in w.parcels ==> ParcelOk(c, id, w.parcels[id]))
    && (w.stored.Some? ==> DraftOk(c, w, Loaded(w.stored.value)) && w.stored.value.stage != Sealed)
    && (forall t :: 0 <= t < |w.transactions| ==> !Ours(c, w, w.transactions[t]))
  }

  /******* Every step keeps the invariant *******/

  ghost predicate Extends(w: World, v: World) {
    && w.chain.Grows(v.chain)
    && w.transactions <= v.transactions
    && (forall t :: t in w.receipts ==> t in v.receipts && v.receipts[t] == w.receipts[t])
    && w.uploads <= v.uploads
    && (forall id :: id in w.parcels ==> id in v.parcels && v.parcels[id] == w.parcels[id])
    && w.letterIds <= v.letterIds
  }

  lemma GrowsKeepsLetters(chain: Chain, later: Chain)
    requires chain.Grows(later)
    ensures chain.sealedLetters <= later.sealedLetters && chain.events <= later.events
  {
  }

  lemma ChainGrowsReflexive(chain: Chain)
    ensures chain.Grows(chain)
  {
  }

  lemma DeliversGrows(c: Config, w: World, v: World, call: SealCall)
    requires Delivers(c, w, call) && Extends(w, v)
    ensures Delivers(c, v, call)
  {
    assert v.chain.PublicKey(call.recipient, call.recipientKeyId) ==
        w.chain.PublicKey(call.recipient, call.recipientKeyId);
  }

  lemma DraftGrows(c: Config, w: World, v: World, d: Draft)
    requires DraftOk(c, w, d) && Extends(w, v)
    requires d.letterId !in w.parcels ==> d.letterId !in v.parcels
    requires d.stage == UploadingPackage || d.stage == EncryptingKey ==> !Submitted(c, v, d.letterId)
    ensures DraftOk(c, v, d)
  {
    assert w.chain.CurrentKeyId(AddressOf(d.recipient)) <= v.chain.CurrentKeyId(AddressOf(d.recipient));
    if d.stage == WaitingTransaction {
      DeliversGrows(c, w, v, CallOf(c, d));
      if d.transactionHash.Some? {
        var t := d.transactionHash.value;
        assert v.transactions[t] == w.transactions[t];
      }
    }
  }

  lemma LedgerGrows(w: World, v: World)
    requires LedgerOk(w) && Extends(w, v) && v.chain.Valid()
    requires v.receipts == w.receipts && v.chain.events == w.chain.events
    ensures LedgerOk(v)
  {
    hide Chain.Valid, Emitted;
    forall t | t in v.receipts && v.receipts[t] == Success ensures Emitted(v, t) {
      EmittedGrows(w, v, t);
    }
    forall i | 0 <= i < |v.chain.events| ensures EventOk(v, v.chain.events[i]) {
      assert EventOk(w, w.chain.events[i]);
    }
  }

  /** What the rest of the invariant needs when the chain and its transactions move on and the drafts stay. */
  lemma EnvironmentKeeps(c: Config, w: World, v: World)
    requires Invariant(c, w) && Extends(w, v) && LedgerOk(v)
    requires v.memory == w.memory && v.stored == w.stored && v.parcels == w.parcels && v.letterIds == w.letterIds
    requires forall t :: |w.transactions| <= t < |v.transactions| ==> !Ours(c, v, v.transactions[t])
    ensures Invariant(c, v)
  {
    hide LedgerOk, ParcelOk, Delivers, FixedHex, Config.Sha256, Config.Sender, Chain.Grows;
    forall id | id in w.letterIds ensures Submitted(c, v, id) ==> Submitted(c, w, id) {
      if Submitted(c, v, id) {
        var t :| 0 <= t < |v.transactions| && v.transactions[t].from == c.Sender() && v.transactions[t].letterId == id;
        assert w.transactions[t] == v.transactions[t];
      }
    }
    forall t | 0 <= t < |v.transactions| && Ours(c, v, v.transactions[t]) ensures Delivers(c, v, v.transactions[t]) {
      assert w.transactions[t] == v.transactions[t];
      DeliversGrows(c, w, v, w.transactions[t]);
    }
    if w.memory.Some? {
      DraftGrows(c, w, v, w.memory.value);
    }
    if w.stored.Some? {
      DraftGrows(c, w, v, Loaded(w.stored.value));
    }
  }

  /** A mined transaction keeps the ledger consistent when the chain records its outcome. */
  lemma LedgerRecords(w: World, v: World, t: nat, receipt: Receipt)
    requires LedgerOk(w) && t < |w.transactions| && t !in w.receipts
    requires v == w.(chain := v.chain, receipts := w.receipts[t := receipt])
    requires w.chain.Grows(v.chain) && v.chain.Valid()
    requires receipt == Success || receipt == Reverted(LetterAlreadySealed) ==>
        w.transactions[t].letterId in v.chain.sealedLetters
    requires receipt == Success ==> Emitted(v, t)
    requires forall i :: |w.chain.events| <= i < |v.chain.events| ==> EventOk(v, v.chain.events[i])
    ensures LedgerOk(v) && Extends(w, v)
  {
    hide Chain.Valid, Chain.Grows, Emitted;
    GrowsKeepsLetters(w.chain, v.chain);
    forall u | u in v.receipts && v.receipts[u] == Success ensures Emitted(v, u) {
      if u != t {
        EmittedGrows(w, v, u);
      }
    }
    forall i | 0 <= i < |v.chain.events| ensures EventOk(v, v.chain.events[i]) {
      if i < |w.chain.events| {
        assert v.chain.events[i] == w.chain.events[i];
        assert EventOk(w, w.chain.events[i]);
      }
    }
  }

  lemma MineSuccess(w: World, v: World, t: nat)
    requires LedgerOk(w) && t < |w.transactions| && t !in w.receipts
    requires w.chain.SealLetter(w.transactions[t], t).Ok?
    requires v == w.(chain := w.chain.SealLetter(w.transactions[t], t).value, receipts := w.receipts[t := Success])
    ensures LedgerOk(v) && Extends(w, v)
  {
    var call := w.transactions[t];
    var emitted := LetterSealed(call.letterId, call.from, call.recipient, call.recipientKeyId, call.archiveSha256, t);
    assert v.chain.events == w.chain.events + [emitted];
    hide Chain.SealLetter, Chain.Valid, Chain.Grows;
    w.chain.SealKeeps(call, t);
    assert v.chain.events[|w.chain.events|] == emitted;
    LedgerRecords(w, v, t, Success);
  }

  lemma MineRevert(w: World, v: World, t: nat)
    requires LedgerOk(w) && t < |w.transactions| && t !in w.receipts
    requires w.chain.SealLetter(w.transactions[t], t).Err?
    requires v == w.(receipts := w.receipts[t := Reverted(w.chain.SealLetter(w.transactions[t], t).error)])
    ensures LedgerOk(v) && Extends(w, v)
  {
    ChainGrowsReflexive(w.chain);
    var reason := w.chain.SealLetter(w.transactions[t], t).error;
    assert reason == LetterAlreadySealed ==> w.transactions[t].letterId in w.chain.sealedLetters;
    hide Chain.SealLetter, Chain.Valid, Chain.Grows;
    LedgerRecords(w, v, t, Reverted(reason));
  }

  lemma MineLedger(w: World, t: nat)
    requires LedgerOk(w) && t < |w.transactions| && t !in w.receipts
    ensures LedgerOk(Execute(w, t)) && Extends(w, Execute(w, t))
  {
    hide LedgerOk, Extends, Chain.SealLetter;
    if w.chain.SealLetter(w.transactions[t], t).Ok? {
      MineSuccess(w, Execute(w, t), t);
    } else {
      MineRevert(w, Execute(w, t), t);
    }
  }

  lemma MineKeeps(c: Config, w: World, t: nat)
    requires Invariant(c, w) && Enabled(c, w, Mine(t))
    ensures Invariant(c, Apply(c, w, Mine(t))) && Extends(w, Apply(c, w, Mine(t)))
  {
    hide LedgerOk, Extends, ParcelOk, Delivers, DraftOk, Chain.SealLetter;
    MineLedger(w, t);
    EnvironmentKeeps(c, w, Execute(w, t));
  }

  lemma EnvironmentStepKeeps(c: Config, w: World, l: Label)
    requires Invariant(c, w) && Enabled(c, w, l) && FromEnvironment(l)
    ensures Invariant(c, Apply(c, w, l)) && Extends(w, Apply(c, w, l))
  {
    hide FixedHex, ParcelOk, OpensTo, Emitted, EventOk, DraftOk, Delivers, Chain.SealLetter, Chain.Grows, Chain.Valid;
    match l {
      case Register(owner, publicKey) =>
        w.chain.RegisterKeeps(owner, publicKey);
        LedgerGrows(w, Apply(c, w, l));
        EnvironmentKeeps(c, w, Apply(c, w, l));
      case Deactivate(owner) =>
        w.chain.DeactivateKeeps(owner);
        LedgerGrows(w, Apply(c, w, l));
        EnvironmentKeeps(c, w, Apply(c, w, l));
      case ForeignSeal(call) =>
        ChainGrowsReflexive(w.chain);
        LedgerGrows(w, Apply(c, w, l));
        EnvironmentKeeps(c, w, Apply(c, w, l));
      case Mine(t) =>
        MineKeeps(c, w, t);
    }
  }

  /** Changing no more than drafts, uploads, parcels and ids keeps the shared part. */
  lemma SharedGrows(c: Config, w: World, v: World)
    requires SharedOk(c, w) && Extends(w, v)
    requires v.chain == w.chain && v.receipts == w.receipts && v.transactions == w.transactions
    requires v.parcels.Keys <= v.letterIds
    requires forall t :: 0 <= t < |w.transactions| && Ours(c, v, w.transactions[t]) ==> Ours(c, w, w.transactions[t])
    requires forall id :: id in v.parcels ==> ParcelOk(c, id, v.parcels[id])
    ensures SharedOk(c, v)
  {
    LedgerGrows(w, v);
    forall t | 0 <= t < |v.transactions| && Ours(c, v, v.transactions[t]) ensures Delivers(c, v, v.transactions[t]) {
      DeliversGrows(c, w, v, w.transactions[t]);
    }
  }

  lemma PersistKeeps(c: Config, w: World, d: Draft)
    requires SharedOk(c, w) && DraftOk(c, w, d)
    ensures Invariant(c, Persist(w, d))
  {
    var v := Persist(w, d);
    ChainGrowsReflexive(w.chain);
    assert Extends(w, v);
    SharedGrows(c, w, v);
    assert DraftOk(c, v, d);
    assert Loaded(d) == if d.stage == Packing then d.(stage := Composing) else d;
  }

  lemma ParcelIsSound(c: Config, letterId: Bytes32, recipient: Address, message: string, media: seq<MediaItem>,
          letterKey: Bytes, ivs: nat -> Bytes, textIv: Bytes)
    requires c.Valid()
    requires var context := c.ContextOf(letterId, c.Sender(), recipient);
             && Gbyl.Pack(c.primitives, media, letterKey, context, ivs).Ok?
             && EncryptText(c.primitives, message, letterKey, context, textIv).Ok?
    ensures var context := c.ContextOf(letterId, c.Sender(), recipient);
            ParcelOk(c, letterId, Parcel(recipient, message, media, letterKey,
                                         EncryptText(c.primitives, message, letterKey, context, textIv).value,
                                         Gbyl.Pack(c.primitives, media, letterKey, context, ivs).value))
  {
    var context := c.ContextOf(letterId, c.Sender(), recipient);
    DecryptInvertsPack(c.primitives, media, letterKey, context, ivs);
    DecryptInvertsEncryptText(c.primitives, message, letterKey, context, textIv);
  }

  lemma PackKeeps(c: Config, w: World, d: Draft, parcel: Parcel)
    requires Invariant(c, w) && w.memory == Some(d) && d.stage == Packing
    requires ParcelOk(c, d.letterId, parcel) && parcel.recipient == AddressOf(d.recipient)
        && parcel.message == d.message
    ensures var v := w.(parcels := w.parcels[d.letterId := parcel]);
            var next := d.(stage := UploadingPackage, letterKey := Some(parcel.letterKey),
                encryptedText := Some(parcel.encryptedText),
                           archive := Some(parcel.archive), archiveSha256 := Some(c.Sha256(parcel.archive)));
            Invariant(c, Persist(v, next)) && Extends(w, Persist(v, next))
  {
    ChainGrowsReflexive(w.chain);
    hide FixedHex, Config.Sha256, Chain.Grows, ParcelOk, OpensTo;
    var v := w.(parcels := w.parcels[d.letterId := parcel]);
    var next := d.(stage := UploadingPackage, letterKey := Some(parcel.letterKey),
        encryptedText := Some(parcel.encryptedText),
                   archive := Some(parcel.archive), archiveSha256 := Some(c.Sha256(parcel.archive)));
    SharedGrows(c, w, v);
    assert !Submitted(c, w, d.letterId);
    PersistKeeps(c, v, next);
  }

  lemma UploadKeeps(c: Config, w: World, d: Draft)
    requires Invariant(c, w) && w.memory == Some(d) && d.stage == UploadingPackage && d.archive.Some?
    ensures var v := w.(uploads := w.uploads + {d.archive.value});
            Invariant(c, Persist(v, d.(stage := EncryptingKey))) && Extends(w, Persist(v, d.(stage := EncryptingKey)))
  {
    ChainGrowsReflexive(w.chain);
    hide FixedHex, Config.Sha256, Chain.Grows, ParcelOk, OpensTo;
    var v := w.(uploads := w.uploads + {d.archive.value});
    SharedGrows(c, w, v);
    PersistKeeps(c, v, d.(stage := EncryptingKey));
  }

  lemma WrapKeeps(c: Config, w: World, d: Draft, keyId: nat, sealedKey: Bytes, hash: Option<nat>)
    requires Invariant(c, w) && w.memory == Some(d) && (d.stage == EncryptingKey || d.stage == WaitingTransaction)
    requires w.chain.Registered(AddressOf(d.recipient), keyId)
    requires d.letterKey.Some? && OpensTo(c.primitives, c.tlock, sealedKey,
        w.chain.PublicKey(AddressOf(d.recipient), keyId), d.letterKey.value)
    requires hash.None? || hash == d.transactionHash
    ensures var next := d.(stage := WaitingTransaction, recipientKeyId := Some(keyId), sealedKey := Some(sealedKey),
        transactionHash := hash);
            Invariant(c, Persist(w, next)) && Extends(w, Persist(w, next))
  {
    ChainGrowsReflexive(w.chain);
    hide FixedHex, Config.Sha256, Chain.Grows, ParcelOk, OpensTo;
    var next := d.(stage := WaitingTransaction, recipientKeyId := Some(keyId), sealedKey := Some(sealedKey),
        transactionHash := hash);
    assert Delivers(c, w, CallOf(c, next));
    PersistKeeps(c, w, next);
  }

  lemma SubmitKeeps(c: Config, w: World, d: Draft)
    requires Invariant(c, w) && w.memory == Some(d) && d.stage == WaitingTransaction
    ensures var v := w.(transactions := w.transactions + [CallOf(c, d)]);
            Invariant(c, v) && Extends(w, v)
  {
    ChainGrowsReflexive(w.chain);
    hide FixedHex, Config.Sha256, Chain.Grows, ParcelOk, OpensTo;
    var v := w.(transactions := w.transactions + [CallOf(c, d)]);
    LedgerGrows(w, v);
    DraftGrows(c, w, v, d);
    forall t | 0 <= t < |v.transactions| && Ours(c, v, v.transactions[t]) ensures Delivers(c, v, v.transactions[t]) {
      if t < |w.transactions| {
        DeliversGrows(c, w, v, w.transactions[t]);
      } else {
        DeliversGrows(c, w, v, CallOf(c, d));
      }
    }
    assert Loaded(w.stored.value) == d;
  }

  lemma FreshDraftKeeps(c: Config, w: World, freshId: Bytes32)
    requires Invariant(c, w) && Unused(c, w, freshId)
    ensures var v := w.(letterIds := w.letterIds + {freshId});
            SharedOk(c, v) && Extends(w, v) && DraftOk(c, v, EmptyDraft(freshId))
  {
    ChainGrowsReflexive(w.chain);
    SharedGrows(c, w, w.(letterIds := w.letterIds + {freshId}));
  }

  lemma LoadKeeps(c: Config, w: World, freshId: Bytes32)
    requires Invariant(c, w) && Enabled(c, w, Load(freshId))
    ensures Invariant(c, Apply(c, w, Load(freshId))) && Extends(w, Apply(c, w, Load(freshId)))
  {
    hide FixedHex, Chain.Grows, ParcelOk, OpensTo;
    var v := Apply(c, w, Load(freshId));
    ChainGrowsReflexive(w.chain);
    if w.stored.Some? {
      DraftGrows(c, w, v, Loaded(w.stored.value));
      SharedGrows(c, w, v);
    } else {
      FreshDraftKeeps(c, w, freshId);
      SharedGrows(c, w, v);
    }
  }

  lemma StartPackingKeeps(c: Config, w: World, d: Draft, keyId: nat)
    requires Invariant(c, w) && w.memory == Some(d) && (d.stage == Composing || d.stage == Packing)
    requires c.IsAddress(d.recipient) && 1 <= keyId <= w.chain.CurrentKeyId(AddressOf(d.recipient))
    ensures var next := d.(stage := Packing, recipient := Lower(d.recipient), recipientKeyId := Some(keyId));
            Invariant(c, Persist(w, next)) && Extends(w, Persist(w, next))
  {
    AddressesDecode(c, d.recipient);
    ChainGrowsReflexive(w.chain);
    hide FixedHex, Config.IsAddress, Chain.Grows, Chain.Valid, ParcelOk, OpensTo;
    PersistKeeps(c, w, d.(stage := Packing, recipient := Lower(d.recipient), recipientKeyId := Some(keyId)));
  }

  /** The remaining steps only rewrite the draft. */
  lemma RewriteKeeps(c: Config, w: World, l: Label)
    requires Invariant(c, w) && Enabled(c, w, l)
    requires l.Update? || l.PackFailed? || l.RecordHash? || l.DropHash? || l.SealRecovered? || l.SealResumed?
    ensures Invariant(c, Apply(c, w, l)) && Extends(w, Apply(c, w, l))
  {
    hide FixedHex, Lower, Gbyl.Pack, EncryptText, Config.ContextOf, Config.Sha256, Config.IsAddress, Chain.Grows,
        Chain.Valid, ParcelOk, OpensTo, WrapFor, LedgerOk, Delivers;
    ChainGrowsReflexive(w.chain);
    var d := Apply(c, w, l).memory.value;
    assert Apply(c, w, l) == Persist(w, d);
    assert DraftOk(c, w, d);
    PersistKeeps(c, w, d);
  }

  lemma PackStepKeeps(c: Config, w: World, l: Label)
    requires c.Valid() && Invariant(c, w) && l.Pack? && Enabled(c, w, l)
    ensures Invariant(c, Apply(c, w, l)) && Extends(w, Apply(c, w, l))
  {
    hide FixedHex, Lower, Gbyl.Pack, EncryptText, Config.ContextOf, Config.Sha256, Config.IsAddress, Config.Valid,
        ParcelOk, SharedOk, DraftOk, Extends;
    var d := w.memory.value;
    ParcelIsSound(c, d.letterId, AddressOf(d.recipient), d.message, l.media, l.letterKey, l.ivs, l.textIv);
    PackKeeps(c, w, d, Apply(c, w, l).parcels[d.letterId]);
  }

  lemma WrapStepKeeps(c: Config, w: World, l: Label)
    requires c.Valid() && Invariant(c, w) && (l.WrapKey? || l.Rewrap?) && Enabled(c, w, l)
    ensures Invariant(c, Apply(c, w, l)) && Extends(w, Apply(c, w, l))
  {
    hide FixedHex, Lower, Gbyl.Pack, EncryptText, Config.ContextOf, Config.Sha256, Config.IsAddress, SharedOk,
        DraftOk, Extends, OpensTo;
    var d := w.memory.value;
    WrappedKeyOpens(c.primitives, c.tlock, d.letterKey.value, w.chain.PublicKey(AddressOf(d.recipient), l.keyId),
        l.boxRandom, l.lockRandom);
    var hash := if l.Rewrap? && l.dropHash then None else d.transactionHash;
    WrapKeeps(c, w, d, l.keyId, WrapFor(c, w, d, l.keyId, l.boxRandom, l.lockRandom).value, hash);
  }

  lemma CrashKeeps(c: Config, w: World)
    requires Invariant(c, w)
    ensures Invariant(c, w.(memory := None)) && Extends(w, w.(memory := None))
  {
    hide FixedHex, Chain.Grows, ParcelOk, OpensTo;
    var v := w.(memory := None);
    ChainGrowsReflexive(w.chain);
    SharedGrows(c, w, v);
    if w.stored.Some? {
      DraftGrows(c, w, v, Loaded(w.stored.value));
    }
  }

  lemma ResetKeeps(c: Config, w: World, freshId: Bytes32)
    requires Invariant(c, w) && Unused(c, w, freshId)
    ensures var v := Persist(w, EmptyDraft(freshId)).(letterIds := w.letterIds + {freshId});
            Invariant(c, v) && Extends(w, v)
  {
    hide FixedHex, Chain.Grows, ParcelOk, OpensTo, SharedOk, DraftOk;
    FreshDraftKeeps(c, w, freshId);
    PersistKeeps(c, w.(letterIds := w.letterIds + {freshId}), EmptyDraft(freshId));
  }

  lemma PageStepKeeps(c: Config, w: World, l: Label)
    requires c.Valid() && Invariant(c, w) && Enabled(c, w, l) && !FromEnvironment(l)
    ensures Invariant(c, Apply(c, w, l)) && Extends(w, Apply(c, w, l))
  {
    hide FixedHex, Lower, Gbyl.Pack, EncryptText, Config.ContextOf, Config.Sha256, Config.IsAddress, WrapFor,
        SharedOk, DraftOk, Extends;
    match l {
      case Load(freshId) =>
        LoadKeeps(c, w, freshId);
      case Crash =>
        CrashKeeps(c, w);
      case Reset(freshId) =>
        ResetKeeps(c, w, freshId);
      case StartPacking(keyId) =>
        StartPackingKeeps(c, w, w.memory.value, keyId);
      case Pack(_, _, _, _) =>
        PackStepKeeps(c, w, l);
      case Upload =>
        UploadKeeps(c, w, w.memory.value);
      case WrapKey(_, _, _) =>
        WrapStepKeeps(c, w, l);
      case Rewrap(_, _, _, _) =>
        WrapStepKeeps(c, w, l);
      case Submit =>
        SubmitKeeps(c, w, w.memory.value);
      case _ =>
        RewriteKeeps(c, w, l);
    }
  }

  /**
   Every enabled step keeps the invariant and only adds to the chain, the transactions, the uploads
   and the parcels.
   */
  lemma StepKeeps(c: Config, w: World, l: Label)
    requires c.Valid() && Invariant(c, w) && Enabled(c, w, l)
    ensures Invariant(c, Apply(c, w, l)) && Extends(w, Apply(c, w, l))
  {
    if FromEnvironment(l) {
      EnvironmentStepKeeps(c, w, l);
    } else {
      PageStepKeeps(c, w, l);
    }
  }
}
