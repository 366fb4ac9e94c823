/** The send protocol can be completed: no theorem about its runs is vacuous. */
module SendProgress {
  import opened Wrappers
  import opened ByteCodec
  import opened Crypto
  import opened Gbyl
  import opened Gtx1
  import opened Gibyeol2026
  import opened SendProtocol
  import opened SendTheorems

  /** A new chain and an empty browser. */
  function EmptyWorld(): World {
    World(None, None, Chain(map[], map[], {}, {}, []), [], map[], {}, map[], {})
  }

  lemma EmptyIsInitial(c: Config)
    requires c.Valid()
    ensures Initial(c, EmptyWorld())
  {
    hide Config.Valid;
  }

  /** What is needed to write a letter: a recipient, a text, and media that can be packed. */
  datatype Letter = Letter(
    letterId: Bytes32, recipient: string, publicKey: Bytes32, message: string, media: seq<MediaItem>,
        letterKey: Bytes32,
    ivs: nat -> Bytes, textIv: Bytes, boxRandom: Bytes, lockRandom: Bytes)
  {
    function Owner(): Address {
      AddressOf(recipient)
    }

    function Context(c: Config): Bytes {
      c.ContextOf(letterId, c.Sender(), Owner())
    }

    function SealedKey(c: Config): Bytes {
      WrapLetterKey(c.primitives, c.tlock, letterKey, publicKey, boxRandom, lockRandom).value
    }

    function ArchiveHash(c: Config): Bytes32
      requires Packable(c)
    {
      c.Sha256(Gbyl.Pack(c.primitives, media, letterKey, Context(c), ivs).value)
    }

    predicate Packable(c: Config) {
      && Gbyl.Pack(c.primitives, media, letterKey, Context(c), ivs).Ok?
      && EncryptText(c.primitives, message, letterKey, Context(c), textIv).Ok?
    }

    predicate Sendable(c: Config) {
      && Packable(c)
      && c.IsAddress(recipient) && Owner() != ZERO_ADDRESS && publicKey != ZERO_KEY
      && !c.blank(message)
      && |SealedKey(c)| <= Gibyeol2026.MAX_SEALED_KEY_BYTES
    }
  }

  /** The letter has reached a stage, and the chain has only the recipient's first key. */
  ghost predicate Reached(c: Config, letter: Letter, w: World, stage: Stage)
    requires letter.Packable(c)
  {
    && InStage(w, stage) && w.memory == w.stored
    && var d := w.memory.value;
    && d.letterId == letter.letterId && FixedHex(d.recipient, 20).Ok? && AddressOf(d.recipient) == letter.Owner()
    && (stage == Packing ==> d.message == letter.message)
    && (stage != Packing ==>
          && d.archive.Some? && d.archiveSha256 == Some(letter.ArchiveHash(c)) && d.letterKey == Some(letter.letterKey)
          && d.encryptedText.Some?
          && EncryptText(c.primitives, letter.message, letter.letterKey, letter.Context(c), letter.textIv) ==
              Ok(d.encryptedText.value))
    && (stage == WaitingTransaction ==> d.recipientKeyId == Some(1) && d.sealedKey == Some(letter.SealedKey(c)))
    && w.transactions == [] && w.receipts == map[]
    && w.chain == Chain(map[letter.Owner() := 1], map[(letter.Owner(), 1) := letter.publicKey], {letter.Owner()}, {},
        [])
  }

  function FirstKey(letter: Letter): World {
    EmptyWorld().(chain := Chain(map[letter.Owner() := 1], map[(letter.Owner(), 1) := letter.publicKey],
        {letter.Owner()}, {}, []))
  }

  lemma Registers(c: Config, letter: Letter)
    requires letter.Owner() != ZERO_ADDRESS && letter.publicKey != ZERO_KEY
    ensures Enabled(c, EmptyWorld(), Register(letter.Owner(), letter.publicKey))
    ensures Apply(c, EmptyWorld(), Register(letter.Owner(), letter.publicKey)) == FirstKey(letter)
  {
    hide AddressOf;
    var owner := letter.Owner();
    var registered := EmptyWorld().chain.RegisterMailboxKey(owner, letter.publicKey).value;
    assert registered.currentKeyId == map[owner := 1]
        && registered.mailboxPublicKeys == map[(owner, 1) := letter.publicKey];
    assert registered.mailboxActive == {owner};
  }

  function Opened(letter: Letter): World {
    FirstKey(letter).(memory := Some(EmptyDraft(letter.letterId)), letterIds := {letter.letterId})
  }

  function Written(letter: Letter): World {
    Persist(Opened(letter), EmptyDraft(letter.letterId).(recipient := letter.recipient, message := letter.message))
  }

  lemma Writes(c: Config, letter: Letter)
    ensures Enabled(c, FirstKey(letter), Load(letter.letterId))
        && Apply(c, FirstKey(letter), Load(letter.letterId)) == Opened(letter)
    ensures Enabled(c, Opened(letter), Update(letter.recipient, letter.message))
    ensures Apply(c, Opened(letter), Update(letter.recipient, letter.message)) == Written(letter)
  {
    hide AddressOf;
  }

  lemma Starts(c: Config, w: World, d: Draft)
    requires w.memory == Some(d) && d.stage == Composing && c.IsAddress(d.recipient) && !c.blank(d.message)
    requires w.chain.CurrentKeyId(AddressOf(d.recipient)) >= 1
    ensures StepsTo(c, w, StartPacking(1), Persist(w,
        d.(stage := Packing, recipient := Lower(d.recipient), recipientKeyId := Some(1))))
  {
    hide AddressOf, Config.IsAddress, Lower;
  }

  lemma StartReaches(c: Config, letter: Letter)
    requires letter.Sendable(c)
    ensures Enabled(c, Written(letter), StartPacking(1))
        && Reached(c, letter, Apply(c, Written(letter), StartPacking(1)), Packing)
  {
    AddressesDecode(c, letter.recipient);
    assert FixedHex(Lower(letter.recipient), 20).Ok? && AddressOf(Lower(letter.recipient)) == letter.Owner();
    hide FixedHex, Lower, AddressOf, Config.IsAddress, Letter.Packable, Letter.ArchiveHash, EncryptText, Letter.Context,
      Letter.SealedKey, Enabled, Apply;
    Starts(c, Written(letter), Written(letter).memory.value);
  }

  /** The recipient registers, and the sender writes the letter. */
  lemma Write(c: Config, letter: Letter) returns (labels: seq<Label>)
    requires letter.Sendable(c)
    ensures Runs(c, EmptyWorld(), labels) && Reached(c, letter, After(c, EmptyWorld(), labels), Packing)
  {
    Registers(c, letter);
    Writes(c, letter);
    StartReaches(c, letter);
    NoSteps(c, EmptyWorld());
    hide Reached, Letter.Sendable, Letter.Owner, EmptyWorld, FirstKey, Opened, Written, Enabled, Apply, Runs, After;
    var w0 := EmptyWorld();
    labels := [];
    Take(c, w0, labels, Register(letter.Owner(), letter.publicKey));
    labels := labels + [Register(letter.Owner(), letter.publicKey)];
    Take(c, w0, labels, Load(letter.letterId));
    labels := labels + [Load(letter.letterId)];
    Take(c, w0, labels, Update(letter.recipient, letter.message));
    labels := labels + [Update(letter.recipient, letter.message)];
    Take(c, w0, labels, StartPacking(1));
    labels := labels + [StartPacking(1)];
  }

  lemma NoSteps(c: Config, w: World)
    ensures Runs(c, w, []) && After(c, w, []) == w
  {
  }

  function PackLabel(letter: Letter): Label {
    Label.Pack(letter.media, letter.letterKey, letter.ivs, letter.textIv)
  }

  function WrapLabel(letter: Letter): Label {
    WrapKey(1, letter.boxRandom, letter.lockRandom)
  }

  lemma PackReaches(c: Config, letter: Letter, w: World)
    requires letter.Packable(c) && Reached(c, letter, w, Packing)
    ensures Enabled(c, w, PackLabel(letter)) && Reached(c, letter, Apply(c, w, PackLabel(letter)), UploadingPackage)
  {
    hide FixedHex, AddressOf, Gbyl.Pack, EncryptText, Config.ContextOf, Config.Sha256, Letter.SealedKey;
  }

  lemma UploadReaches(c: Config, letter: Letter, w: World)
    requires letter.Packable(c) && Reached(c, letter, w, UploadingPackage)
    ensures Enabled(c, w, Upload) && Reached(c, letter, Apply(c, w, Upload), EncryptingKey)
  {
    hide FixedHex, AddressOf, EncryptText, Letter.Context, Letter.SealedKey;
  }

  lemma WrapReaches(c: Config, letter: Letter, w: World)
    requires letter.Packable(c) && letter.publicKey != ZERO_KEY && Reached(c, letter, w, EncryptingKey)
    ensures Enabled(c, w, WrapLabel(letter)) && Reached(c, letter, Apply(c, w, WrapLabel(letter)), WaitingTransaction)
  {
    hide FixedHex, AddressOf, EncryptText, Letter.Context;
  }

  /** The letter is packed, uploaded and wrapped. */
  lemma Prepare(c: Config, letter: Letter) returns (labels: seq<Label>)
    requires c.Valid() && letter.Sendable(c)
    ensures Runs(c, EmptyWorld(), labels) && Reached(c, letter, After(c, EmptyWorld(), labels), WaitingTransaction)
  {
    labels := Write(c, letter);
    hide Config.Valid, Config.IsAddress, AddressOf, Letter.Packable, Letter.SealedKey, Reached, Enabled, Apply, Runs,
        After;
    var w0 := EmptyWorld();
    PackReaches(c, letter, After(c, w0, labels));
    Take(c, w0, labels, PackLabel(letter));
    labels := labels + [PackLabel(letter)];
    UploadReaches(c, letter, After(c, w0, labels));
    Take(c, w0, labels, Upload);
    labels := labels + [Upload];
    WrapReaches(c, letter, After(c, w0, labels));
    Take(c, w0, labels, WrapLabel(letter));
    labels := labels + [WrapLabel(letter)];
  }

  /******* From a waiting draft to a letter on chain *******/

  /**
   What the contract still asks of a prepared letter: the id is free, and the key it names is
   current, of an active mailbox.
   */
  predicate Acceptable(w: World, d: Draft) {
    && AddressOf(d.recipient) != ZERO_ADDRESS
    && d.letterId !in w.chain.sealedLetters
    && AddressOf(d.recipient) in w.chain.mailboxActive
    && d.recipientKeyId == Some(w.chain.CurrentKeyId(AddressOf(d.recipient)))
    && d.sealedKey.Some? && |d.sealedKey.value| <= Gibyeol2026.MAX_SEALED_KEY_BYTES
  }

  /** In every sound state, the contract seals a waiting draft if and only if it is acceptable. */
  lemma ContractAcceptsIff(c: Config, w: World, d: Draft, t: nat)
    requires Invariant(c, w) && w.memory == Some(d) && d.stage == WaitingTransaction
    ensures d.recipientKeyId.Some? && d.encryptedText.Some? && d.sealedKey.Some? && d.archiveSha256.Some?
    ensures w.chain.SealLetter(CallOf(c, d), t).Ok? <==> Acceptable(w, d)
  {
    hide LedgerOk, OpensTo, AddressOf, Lower, FixedHex, Config.ContextOf, Config.Sha256, KeyKnown;
    assert DraftOk(c, w, d);
    assert ParcelOk(c, d.letterId, w.parcels[d.letterId]);
    assert w.chain.Registered(AddressOf(d.recipient), d.recipientKeyId.value);
  }

  /** The draft is sealed by its own transaction, which succeeded and put letter and archive on chain. */
  predicate Delivered(c: Config, w: World, letterId: Bytes32, archive: Option<Bytes32>, t: nat) {
    && w.stored.Some? && w.stored.value.stage == Sealed && w.stored.value.letterId == letterId && w.memory == w.stored
    && w.stored.value.transactionHash == Some(t) && t in w.receipts && w.receipts[t] == Success
    && OwnEvent(c, w, letterId) && Named(w, letterId, archive)
  }

  /** An event names the letter and its archive. */
  predicate Named(w: World, letterId: Bytes32, archive: Option<Bytes32>) {
    exists i :: 0 <= i < |w.chain.events| && w.chain.events[i].letterId == letterId
        && Some(w.chain.events[i].archiveSha256) == archive
  }

  lemma SealSteps(c: Config, w: World, d: Draft) returns (w1: World, w2: World, w3: World, w4: World)
    requires Invariant(c, w) && w.memory == Some(d) && d.stage == WaitingTransaction && Acceptable(w, d)
    ensures var t := |w.transactions|;
            && StepsTo(c, w, Submit, w1) && StepsTo(c, w1, RecordHash(t), w2)
            && StepsTo(c, w2, Mine(t), w3) && StepsTo(c, w3, SealRecovered(t), w4)
            && Delivered(c, w4, d.letterId, d.archiveSha256, t)
  {
    var t := |w.transactions|;
    ContractAcceptsIff(c, w, d, t);
    ReadyToSubmit(c, w, d);
    hide Invariant, Acceptable, AddressOf, Chain.SealLetter;
    w1, w2 := SubmitAndRecord(c, w, d, t);
    w3, w4 := MineAndRecover(c, w2, d.(transactionHash := Some(t)), t, CallOf(c, d));
  }

  lemma MineAndRecover(c: Config, w: World, d: Draft, t: nat, call: SealCall) returns (w1: World, w2: World)
    requires w.memory == w.stored == Some(d) && d.stage == WaitingTransaction
    requires t < |w.transactions| && t !in w.receipts && w.transactions[t] == call
    requires call.letterId == d.letterId && call.from == c.Sender() && Some(call.archiveSha256) == d.archiveSha256
    requires w.chain.SealLetter(call, t).Ok?
    ensures StepsTo(c, w, Mine(t), w1) && StepsTo(c, w1, SealRecovered(t), w2)
    ensures Delivered(c, w2, d.letterId, d.archiveSha256, t)
  {
    hide Config.Sender;
    w1 := Execute(w, t);
    assert w1.chain == w.chain.SealLetter(call, t).value;
    var event := w1.chain.events[|w.chain.events|];
    assert event.letterId == d.letterId && event.sender == c.Sender() && Some(event.archiveSha256) == d.archiveSha256;
    assert d.letterId in w1.chain.sealedLetters;
    w2 := Persist(w1, SealedDraft(d, Some(t)));
  }

  /** From every sound state with an acceptable waiting draft, the letter can be delivered. */
  lemma WaitingCanBeDelivered(c: Config, w: World)
    requires Invariant(c, w) && InStage(w, WaitingTransaction) && Acceptable(w, w.memory.value)
    ensures var t := |w.transactions|;
            var labels := [Submit, RecordHash(t), Mine(t), SealRecovered(t)];
            Runs(c, w, labels) && Delivered(c, After(c, w, labels), w.memory.value.letterId,
                w.memory.value.archiveSha256, t)
  {
    hide Invariant, Acceptable, Delivered, StepsTo, Runs, After;
    var t := |w.transactions|;
    var w1, w2, w3, w4 := SealSteps(c, w, w.memory.value);
    FourSteps(c, w, w1, w2, w3, w4, Submit, RecordHash(t), Mine(t), SealRecovered(t));
  }

  lemma FourSteps(c: Config, w: World, w1: World, w2: World, w3: World, w4: World, l1: Label, l2: Label, l3: Label,
          l4: Label)
    requires StepsTo(c, w, l1, w1) && StepsTo(c, w1, l2, w2) && StepsTo(c, w2, l3, w3) && StepsTo(c, w3, l4, w4)
    ensures Runs(c, w, [l1, l2, l3, l4]) && After(c, w, [l1, l2, l3, l4]) == w4
  {
    hide Enabled, Apply;
    ThreeSteps(c, w, w1, w2, w3, l1, l2, l3);
    Take(c, w, [l1, l2, l3], l4);
    assert [l1, l2, l3] + [l4] == [l1, l2, l3, l4];
  }

  /**
   The mailbox is active and the id free, whichever key the draft was wrapped for; the key wrapped
   again is not too long.
   */
  predicate Rewrappable(c: Config, w: World, d: Draft, boxRandom: Bytes, lockRandom: Bytes) {
    && AddressOf(d.recipient) != ZERO_ADDRESS
    && d.letterId !in w.chain.sealedLetters
    && AddressOf(d.recipient) in w.chain.mailboxActive
    && d.letterKey.Some?
    && var wrapped := WrapFor(c, w, d, w.chain.CurrentKeyId(AddressOf(d.recipient)), boxRandom, lockRandom);
    wrapped.Ok? && |wrapped.value| <= Gibyeol2026.MAX_SEALED_KEY_BYTES
  }

  function RewrapLabel(w: World, d: Draft, boxRandom: Bytes, lockRandom: Bytes): Label {
    Rewrap(w.chain.CurrentKeyId(AddressOf(d.recipient)), boxRandom, lockRandom, true)
  }

  lemma WaitingCanWrap(c: Config, w: World, keyId: nat)
    requires InStage(w, WaitingTransaction) && CanWrap(c, w, keyId)
    ensures forall boxRandom, lockRandom, dropHash :: Enabled(c, w, Rewrap(keyId, boxRandom, lockRandom, dropHash))
  {
    hide CanWrap;
  }

  lemma ActiveCanWrap(c: Config, w: World, d: Draft)
    requires Invariant(c, w) && w.memory == Some(d) && d.stage == WaitingTransaction
        && AddressOf(d.recipient) in w.chain.mailboxActive
    ensures CanWrap(c, w, w.chain.CurrentKeyId(AddressOf(d.recipient)))
  {
    hide Invariant, AddressOf;
    HasLetterKey(c, w, d);
    ActiveIsRegistered(c, w, AddressOf(d.recipient));
  }

  lemma RewrapIsEnabled(c: Config, w: World, d: Draft, boxRandom: Bytes, lockRandom: Bytes)
    requires Invariant(c, w) && w.memory == Some(d) && d.stage == WaitingTransaction
        && Rewrappable(c, w, d, boxRandom, lockRandom)
    ensures Enabled(c, w, RewrapLabel(w, d, boxRandom, lockRandom))
  {
    hide Invariant, AddressOf, Enabled, CanWrap;
    ActiveCanWrap(c, w, d);
    WaitingCanWrap(c, w, w.chain.CurrentKeyId(AddressOf(d.recipient)));
  }

  lemma RewrapMakesAcceptable(c: Config, w: World, d: Draft, boxRandom: Bytes, lockRandom: Bytes) returns (v: World)
    requires w.memory == Some(d) && d.stage == WaitingTransaction && Rewrappable(c, w, d, boxRandom, lockRandom)
    requires Enabled(c, w, RewrapLabel(w, d, boxRandom, lockRandom))
    ensures StepsTo(c, w, RewrapLabel(w, d, boxRandom, lockRandom), v)
    ensures InStage(v, WaitingTransaction) && Acceptable(v, v.memory.value)
    ensures v.memory.value.letterId == d.letterId && v.memory.value.archiveSha256 == d.archiveSha256
        && v.transactions == w.transactions
  {
    hide AddressOf, CanWrap, WrapFor;
    v := Apply(c, w, RewrapLabel(w, d, boxRandom, lockRandom));
  }

  lemma HasLetterKey(c: Config, w: World, d: Draft)
    requires Invariant(c, w) && w.memory == Some(d) && d.stage == WaitingTransaction
    ensures d.letterKey.Some? && |d.letterKey.value| == 32
  {
    hide LedgerOk, OpensTo, AddressOf, Lower, FixedHex, Config.ContextOf, Config.Sha256, KeyKnown;
    assert DraftOk(c, w, d);
    assert ParcelOk(c, d.letterId, w.parcels[d.letterId]);
  }

  lemma ActiveIsRegistered(c: Config, w: World, owner: Address)
    requires Invariant(c, w) && owner in w.chain.mailboxActive
    ensures w.chain.Registered(owner, w.chain.CurrentKeyId(owner))
  {
    hide ParcelOk, DraftOk, Delivers, EventOk, Emitted;
    assert w.chain.CurrentKeyId(owner) >= 1;
  }

  /** However often the key rotated, the letter can be delivered as long as its id is free and the mailbox active. */
  lemma RotatedCanBeDelivered(c: Config, w: World, d: Draft, boxRandom: Bytes, lockRandom: Bytes)
    requires c.Valid() && Invariant(c, w) && w.memory == Some(d) && d.stage == WaitingTransaction
    requires Rewrappable(c, w, d, boxRandom, lockRandom)
    ensures var t := |w.transactions|;
            var labels := [RewrapLabel(w, d, boxRandom, lockRandom), Submit, RecordHash(t), Mine(t), SealRecovered(t)];
            Runs(c, w, labels) && Delivered(c, After(c, w, labels), d.letterId, d.archiveSha256, t)
  {
    var t, l := |w.transactions|, RewrapLabel(w, d, boxRandom, lockRandom);
    hide Invariant, Config.Valid, Rewrappable, Acceptable, Delivered, RewrapLabel, Runs, After, Enabled, Apply;
    RewrapIsEnabled(c, w, d, boxRandom, lockRandom);
    StepKeeps(c, w, l);
    var v := RewrapMakesAcceptable(c, w, d, boxRandom, lockRandom);
    var w1, w2, w3, w4 := SealSteps(c, v, v.memory.value);
    hide StepsTo;
    FiveSteps(c, w, v, w1, w2, w3, w4, l, Submit, RecordHash(t), Mine(t), SealRecovered(t));
  }

  /** A prepared letter is acceptable on the chain that has only the recipient's first key. */
  lemma ReachedIsAcceptable(c: Config, letter: Letter, w: World)
    requires letter.Sendable(c) && Reached(c, letter, w, WaitingTransaction)
    ensures Acceptable(w, w.memory.value)
  {
    hide Config.IsAddress, Letter.Packable, FixedHex, AddressOf, EncryptText, Letter.Context, Letter.SealedKey;
  }

  /** Any letter that can be packed can be sent: some run from nothing delivers it. */
  lemma DeliveryIsPossible(c: Config, letter: Letter) returns (labels: seq<Label>)
    requires c.Valid() && letter.Sendable(c)
    ensures Initial(c, EmptyWorld()) && Runs(c, EmptyWorld(), labels)
    ensures Delivered(c, After(c, EmptyWorld(), labels), letter.letterId, Some(letter.ArchiveHash(c)), 0)
  {
    EmptyIsInitial(c);
    labels := Prepare(c, letter);
    var w0 := EmptyWorld();
    var w := After(c, w0, labels);
    assert w.memory.Some? && w.memory.value.letterId == letter.letterId && w.memory.value.stage == WaitingTransaction
        && w.transactions == [];
    assert w.memory.value.archiveSha256 == Some(letter.ArchiveHash(c));
    ReachedIsAcceptable(c, letter, w);
    hide Config.Valid, Letter.Sendable, EmptyWorld, Initial, Reached, Acceptable, Delivered, Invariant, Runs, After;
    ReachableIsSound(c, w0, labels, |labels|);
    assert labels[..|labels|] == labels;
    var w1, w2, w3, w4 := SealSteps(c, w, w.memory.value);
    hide Enabled, Apply;
    Take(c, w0, labels, Submit);
    labels := labels + [Submit];
    Take(c, w0, labels, RecordHash(0));
    labels := labels + [RecordHash(0)];
    Take(c, w0, labels, Mine(0));
    labels := labels + [Mine(0)];
    Take(c, w0, labels, SealRecovered(0));
    labels := labels + [SealRecovered(0)];
  }
}
