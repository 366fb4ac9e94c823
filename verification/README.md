# Gibyeol verification

Gibyeol seals letters on a blockchain until Christmas 2026.  This project models the parts of it whose
correctness depends on long runs, on interleaving or on exact bytes, and proves what they promise.

- **Wire formats** (`ByteCodec`, `LetterContext`, `Gbyl`, `GbylValidator`, `Gtx1`, `Mailbox`): the mutable byte
  writer and reader, hex, the letter context, and the three formats GBYL, GTX1 and GPK1.  Every format has a
  printer and a grammar as functions; the writer and reader loops are methods proved equal to them; parsing
  yields a value exactly when the value is valid and prints to the input.  The server's streaming recogniser
  agrees with the client's under every pattern of short reads.
- **Cryptography** (`Crypto`): AES-GCM, HKDF, sealed box, time lock, gzip, UTF-8 and SHA-256 are arbitrary
  functions related only by inverse and length laws (`Primitives.Lawful`), which have a model.
- **Sending** (`Gibyeol2026`, `SendProtocol`, `SendTheorems`, `SendProgress`, `UseSendLetter`): the contract, and
  the sender's draft, storage, transactions and uploads as one state machine.  Each persisted write is one step and
  a crash may fall between any two.  The theorems quantify over all runs.  The send hook itself is a class whose
  methods follow the source statement by statement; at every await other senders and the recipient may move,
  the call may fail, or the page may be closed, and every step it takes is proved to be one of the machine's.
- **Receiving** (`Inbox`): opening a letter, erasing keys in place, recovering a mailbox by email, and delivery
  from the sender's message to the recipient's screen.
- **Log scans** (`LogRanges`, `ChainIndex`): block paging in the client and the server's chain snapshot.
- **Package store** (`PackageProtocol`, `GcTheorems`, `PackageStore`, `OrphanGc`): one directory on which uploads,
  garbage collectors and cleanups act file operation by file operation; `put` and the collector's `run` are methods
  that let everyone else act between any two of their steps.  `Custody` looks at sender and store together.
- **Notifications** (`Notifications`, `ChristmasPostman`, `ResendWebhook`): the lease protocol under overlapping,
  stalling and crashing postmen and arbitrary webhooks.
- **Sign-in and email codes** (`Auth`, `Otp`, `OtpTheorems`) and the **cleanup** of all tables (`Maintenance`).

## Where the code does not do what is promised

- A draft can be stored as sealed, its message and letter key erased, although the sender's letter is not on chain.
  There are two ways, and each step that seals omits one check or both:
  - When a stored transaction hash is resumed, `frontend/src/features/hooks/send/use-send-letter.ts:143-148` takes
    any receipt for success.  `SendTheorems.SealedWithoutLetter`: the recipient deactivates the mailbox before the
    transaction is mined, and the page is reopened.
  - The contract lets any sender use any letter id, the id is public once a transaction was broadcast, and
    `use-send-letter.ts:131-137` looks for an event of the id only.  `SendTheorems.SealedByStranger`: someone else's
    letter under the id is taken for the sender's own.

  `SendTheorems.SealedIsJustifiedIff` proves that there is no third: in every run, sealed drafts have their own
  event at all points if and only if no sealing step met a failed stored transaction or an event of another sender,
  which show in the receipt and in the log the client fetches.  While that holds, the letter of every sealed
  draft opens for its recipient (`Inbox.SealedDraftOpens`).
- The collector reads its clock after its scan (`backend/src/Operations/OrphanGarbageCollector.php:28-29`), so a
  reference that reaches the safe head before a file's minimum age, but during a scan, does not save the file:
  `GcTheorems.DeletedDuringScan`.  A margin between reference and minimum age protects every referenced package if
  and only if it covers the longest scan: `GcTheorems.MarginCoversScan`.
- The minimum age holds for the file that was listed.  A copy renamed into its place between listing and deletion
  is deleted however young it is (`GcTheorems.YoungCopyDeleted`).  A deleted file is old enough if and only if no
  copy was renamed into its place since the listing, or the last one was itself written a minimum age ago:
  `GcTheorems.CollectedIsOldIff`.
- A waiting draft does not renew its upload.  Once the archive has reached the minimum age it can be deleted, and
  the draft still be submitted, so that the letter on chain names an archive nobody has:
  `Custody.ArchiveGoneBeforeSubmission`.
- Two postmen can write to one wallet at a time.  Exclusion holds in all runs if and only if nobody still holds a
  wallet longer than 15 minutes after claiming it when it is claimed again, and no failure is reported for a wallet
  that is held: `Notifications.ExclusionNeedsBothRules`, with a run for each rule that is broken
  (`HeldPastLease`, `ReportedWhileHeld`).  In `StalledWorkerBreaksExclusion` a stalled postman's late report fails
  the claim of the one that took over, and a third writes while the second still does.
- `docs/operations-runbook.md:39` says that a failed wallet is claimed only after its retry time.  A failure
  reported by webhook sets none.  In every run a wallet that turns failed is claimable at that moment if and only if
  the failure came by webhook and the row was not a delivered one still waiting for an earlier retry time
  (`Notifications.ClaimableOnFailureIff`); `Notifications.ClaimedOnBounce` claims at the instant of the bounce.
- `docs/data-model.md:61` keeps one active challenge per wallet; the code allows three (`OtpTheorems.ThreeAreOpen`).
  A wallet has at most one unexpired challenge at every point of a run if and only if no challenge is accepted for it
  within ten minutes of another: `OtpTheorems.AtMostOneOpenIff`.
- The limit of three (`backend/src/Email/EmailService.php:32-38`) is counted without a lock.  While at most n >= 1
  requests stand between count and insertion, n + 2 unexpired challenges, and no more, can exist for one wallet,
  address or client, so that the limit holds in all runs if and only if no two requests overlap:
  `OtpTheorems.OverlapDecidesLimit`.
- The delay after a failed notification is twice what its formula suggests, because MySQL evaluates the SET list
  from left to right: it starts at four minutes (`Notifications.BackoffGrows`).

## Assumptions

Collisions of SHA-256 are excluded only where a statement says so.  Random nonces, tokens, letter ids and
temporary file names are not drawn twice; a new letter id occurs nowhere on chain or in a transaction yet.  The
sender's account may also send from elsewhere, under ids this browser did not draw; a transaction from this account
under one of its ids is this browser's.  The chain below the safe head does not change, receipts belong to the
transaction they name, and one `seal` runs per draft at a time.  All server clocks are one clock.  Removing one's
own temporary file succeeds.

## Model

| member | source | states |
|---|---|---|
| ByteCodec.BigEndianRoundTrip | packages/protocol/src/bytes.ts:88-97 | an integer in range is read back from its fixed-width big-endian form |
| ByteCodec.FromBigEndianRoundTrip | packages/protocol/src/bytes.ts:119-131 | every byte string is the big-endian form of the integer read from it |
| ByteCodec.HexRoundTrip | packages/protocol/src/bytes.ts:28-47 | hex encoding is inverted by decoding |
| ByteCodec.HexDecodesOwnEncoding | packages/protocol/src/bytes.ts:28-47 | a byte string survives its hex form with or without the 0x prefix |
| ByteCodec.HexEqualUpToCase | packages/protocol/src/bytes.ts:32-47 | two hex strings denote the same bytes exactly when they agree up to case and prefix |
| ByteCodec.LowerKeepsBytes | frontend/src/features/hooks/send/use-send-letter.ts:84 | lower-casing an address as the sender does keeps its bytes |
| ByteCodec.ConcatBytes | packages/protocol/src/bytes.ts:15-26 | the buffer filled chunk by chunk is the concatenation of the chunks |
| ByteCodec.ByteWriter.WriteBytes | packages/protocol/src/bytes.ts:52-55 | appends the value to the contents |
| ByteCodec.ByteWriter.WriteInteger | packages/protocol/src/bytes.ts:88-97 | appends the big-endian form of a value in range; any other value throws and writes nothing |
| ByteCodec.ByteWriter.WriteUint256 | packages/protocol/src/bytes.ts:69-82 | the shift loop writes the 32-byte big-endian form; a value out of range throws |
| ByteCodec.ByteWriter.ToBytes | packages/protocol/src/bytes.ts:84-86 | returns everything written, in order |
| ByteCodec.ByteReader.ReadBytes | packages/protocol/src/bytes.ts:109-117 | returns the next bytes and advances, or throws without advancing |
| ByteCodec.ByteReader.ExpectBytes | packages/protocol/src/bytes.ts:133-138 | succeeds exactly on the expected bytes; a short input and a wrong one throw different errors |
| ByteCodec.ByteReader.Finish | packages/protocol/src/bytes.ts:140-144 | succeeds exactly at the end of the input |
| LetterContext.WriteLetterContext | packages/protocol/src/context.ts:19-28 | the chain of writer calls produces the specified context, or the error of its first bad field |
| LetterContext.ContextInjective | packages/protocol/src/context.ts:19-28 | a context has 141 bytes, and two are equal exactly when chain, contract, letter, sender and recipient are |
| LetterContext.HexFieldsAgree | packages/protocol/src/context.ts:11-17 | fields given in hex agree in bytes exactly when they agree up to case and prefix |
| LetterContext.AadsAreDisjoint | packages/protocol/src/context.ts:30-36 | no text AAD is a media AAD, and a media AAD determines context and index |
| Crypto.LawsHaveAModel | packages/protocol/src/crypto.ts:71-120 | the assumed laws are consistent |
| Crypto.SubkeyInfosAreDistinct | packages/protocol/src/crypto.ts:52-64 | all subkeys of one letter key have different derivation infos |
| Crypto.WrappedKeyOpens | packages/protocol/src/tlock.ts:47-64 | a wrapped letter key opens with the recipient's key pair from the unlock round on, to itself, and never before |
| Gbyl.ParseIffPrints | packages/protocol/src/gbyl.ts:51-127 | parsing yields a list of items exactly when the list is valid and prints to the input |
| Gbyl.ArchiveInjective | packages/protocol/src/gbyl.ts:51-89 | two valid item lists with the same archive are the same |
| Gbyl.PackGbyl | packages/protocol/src/gbyl.ts:51-89 | the writer loop produces exactly the specified archive, or the error of the first bad item |
| Gbyl.WriteHeader | packages/protocol/src/gbyl.ts:70-74 | appends the archive header for a number of items that fits |
| Gbyl.WriteItem | packages/protocol/src/gbyl.ts:75-81 | appends one printed item unless its ciphertext is too long for its length field |
| Gbyl.ParseGbyl | packages/protocol/src/gbyl.ts:91-127 | the reader loop accepts exactly the grammar and returns its items, or its error |
| Gbyl.ReadItem | packages/protocol/src/gbyl.ts:107-123 | reads one item of the grammar and stands behind it |
| Gbyl.DecryptInvertsPack | packages/protocol/src/gbyl.ts:51-147 | decrypting an archive under the key and context it was packed with returns the media, and its size is the estimate |
| Gbyl.EstimateDecidesPacking | frontend/src/features/data/send/media-preprocessing.ts:109-122 | well-typed media are packed successfully exactly when the estimate fits in 10 MiB and there are at most 65,535 items |
| GbylValidator.ReadExact | backend/src/Package/GbylValidator.php:50-64 | whatever short reads occur, returns exactly the next bytes, and fails only at the end or on a fault |
| GbylValidator.SkipExact | backend/src/Package/GbylValidator.php:67-77 | whatever short reads occur, moves exactly as far as asked, and fails only at the end or on a fault |
| GbylValidator.ValidateItem | backend/src/Package/GbylValidator.php:26-38 | accepts one item exactly where the client's grammar does, and stands behind it |
| GbylValidator.Validate | backend/src/Package/GbylValidator.php:9-47 | stops on every input and accepts exactly the size-free grammar with the expected size |
| GbylValidator.RecognisersAgree | packages/protocol/src/gbyl.ts:91-127 | the client accepts what the server's recogniser accepts, up to 10 MiB |
| Gtx1.ParseTextIffPrints | packages/protocol/src/gtx1.ts:61-93 | parsing yields an envelope exactly when it is valid and prints to the input |
| Gtx1.EncryptTextGtx1 | packages/protocol/src/gtx1.ts:49-73 | the writer chain produces exactly the specified envelope, or its error |
| Gtx1.ParseGtx1 | packages/protocol/src/gtx1.ts:75-93 | the reader accepts exactly the envelope grammar, or returns its error |
| Gtx1.DecryptInvertsEncryptText | packages/protocol/src/gtx1.ts:49-113 | decrypting returns the UTF-8 bytes of the text, compressed or not, and the envelope fits on chain |
| Mailbox.ParseEnvelopeIffPrints | packages/protocol/src/mailbox.ts:74-113 | parsing yields an envelope exactly when it is valid and prints to the input; the sliced AAD is the written prefix |
| Mailbox.ParseGpk1 | packages/protocol/src/mailbox.ts:99-113 | the reader accepts exactly the envelope grammar, or returns its error |
| Mailbox.UnwrapInvertsWrap | packages/protocol/src/mailbox.ts:74-126 | unwrapping with the same PRF output returns the seed, for every credential id of 1 to 65,535 bytes |
| Mailbox.SaltOnce.Next | frontend/src/features/data/mailbox/passkey.ts:105-114 | only the first 32-byte draw is the PRF input |
| Mailbox.WrapMailboxSeedGpk1 | packages/protocol/src/mailbox.ts:74-97 | wraps under the first draw as salt and some later 12-byte draw as IV |
| Mailbox.CreatePasskeyMailbox | frontend/src/features/data/mailbox/passkey.ts:79-140 | succeeds exactly for a good address, authenticator and credential id, and the same authenticator reopens the envelope to the same key pair |
| Gibyeol2026.Chain.RegisterKeeps | contracts/src/Gibyeol2026.sol:54-73 | registering takes the next key id, and no registered key, letter or event is ever lost |
| Gibyeol2026.Chain.DeactivateKeeps | contracts/src/Gibyeol2026.sol:75-82 | deactivating keeps all keys, letters and events |
| Gibyeol2026.Chain.SealKeeps | contracts/src/Gibyeol2026.sol:84-112 | sealing needs a new letter id, and afterwards every sealed letter still has exactly one event |
| SendProtocol.SameContext | frontend/src/features/hooks/send/use-send-letter.ts:95 | the context depends on the bytes of the addresses only, not on their spelling |
| SendProtocol.ParcelIsSound | frontend/src/features/hooks/send/use-send-letter.ts:94-109 | what packing stores decrypts, under the stored key, to the message and media |
| SendProtocol.MineKeeps | contracts/src/Gibyeol2026.sol:84-112 | a mined transaction, successful or reverted, keeps the invariant |
| SendProtocol.EnvironmentStepKeeps | contracts/src/Gibyeol2026.sol:54-112 | whatever the recipient and other senders do keeps the sender's invariant |
| SendProtocol.WrapStepKeeps | frontend/src/features/hooks/send/use-send-letter.ts:123-128 | wrapping, and rewrapping after a rotation, leaves the key sealed for exactly the named registered key |
| SendProtocol.StepKeeps | frontend/src/features/hooks/send/use-send-letter.ts:46-209 | every enabled step keeps the invariant and takes back nothing from chain, transactions, uploads and parcels |
| SendTheorems.ReachableIsSound | frontend/src/features/hooks/send/use-send-letter.ts:46-209 | the invariant holds at every point of every run |
| SendTheorems.OnePayloadPerLetter | frontend/src/features/hooks/send/use-send-letter.ts:168-199 | all submissions for one letter id differ at most in key id and sealed key, and at most one event exists for it |
| SendTheorems.WaitingDraftOpens | frontend/src/features/hooks/send/use-send-letter.ts:123-199 | at every point of every run, a waiting draft's sealed key opens under the registered key it names to the draft's letter key |
| SendTheorems.UploadPrecedesSubmission | frontend/src/features/hooks/send/use-send-letter.ts:115-122 | every submission names an archive that parses and was accepted by the store before |
| SendTheorems.StepIsJustified | frontend/src/features/hooks/send/use-send-letter.ts:131-162 | a step keeps "sealed means the sender's own letter is on chain" exactly unless it seals a draft whose stored transaction failed or whose id has another sender's event |
| SendTheorems.SealedIsJustifiedIff | frontend/src/features/hooks/send/use-send-letter.ts:131-208 | in every run, sealed drafts have an event of their id and sender at all points if and only if no sealing step met a failed stored transaction or an event of another sender |
| SendTheorems.SealedDraftIsOnChain | frontend/src/features/hooks/send/use-send-letter.ts:131-208 | as long as no such step is taken, every draft shown or stored as sealed has its own event, of a letter id this browser drew |
| SendTheorems.SealedByStranger | frontend/src/features/hooks/send/use-send-letter.ts:131-142 | from every sound waiting state whose id is unsealed, a run in which a letter of someone else under that id has the draft stored as sealed without an event of the sender |
| SendTheorems.SealedWithoutLetter | frontend/src/features/hooks/send/use-send-letter.ts:143-148 | from every sound waiting state with an active recipient, a run that stores the draft as sealed with no letter on chain |
| SendTheorems.SealedIsAbsorbing | frontend/src/features/hooks/send/use-send-letter.ts:72-79 | once stored as sealed, a draft is what every later visit shows until a reset |
| SendTheorems.KeyIsDroppedOnlyBySealing | frontend/src/features/hooks/send/use-send-letter.ts:72-208 | only sealing and reset drop the stored letter key |
| SendProgress.ContractAcceptsIff | contracts/src/Gibyeol2026.sol:92-111 | in every sound state, the contract seals a waiting draft if and only if its id is free, the key it names is the current one of an active mailbox, and the sealed key is at most 4096 bytes long |
| SendProgress.WaitingCanBeDelivered | frontend/src/features/hooks/send/use-send-letter.ts:129-208 | from every sound state with such a draft, four steps end with it sealed, its transaction successful and its letter on chain |
| SendProgress.RotatedCanBeDelivered | frontend/src/features/hooks/send/use-send-letter.ts:168-208 | however often the recipient rotated the key, rewrapping and the same four steps deliver the letter while its id is free and the mailbox active |
| SendProgress.DeliveryIsPossible | frontend/src/features/hooks/send/use-send-letter.ts:77-209 | every letter that can be packed has a run from nothing that ends sealed, with its transaction successful and its letter on chain |
| UseSendLetter.SendHook.OpenPage | frontend/src/features/hooks/send/use-send-letter.ts:46-59 | the stored draft resumes in its mapped stage, and without one a new letter begins |
| UseSendLetter.SendHook.EditDraft | frontend/src/features/hooks/send/use-send-letter.ts:67-70 | edits are stored while composing and ignored afterwards |
| UseSendLetter.SendHook.Restart | frontend/src/features/hooks/send/use-send-letter.ts:72-75 | stores an empty draft under a new id and touches neither chain nor transactions |
| UseSendLetter.SendHook.Persist | frontend/src/features/hooks/send/use-send-letter.ts:61-65 | shows and stores the same draft, as one step of the protocol |
| UseSendLetter.SendHook.PackLetter | frontend/src/features/hooks/send/use-send-letter.ts:83-114 | ends packed, or with the draft kept under its id, and submits nothing |
| UseSendLetter.SendHook.UploadPackage | frontend/src/features/hooks/send/use-send-letter.ts:115-122 | advances only if the upload was accepted |
| UseSendLetter.SendHook.EncryptKey | frontend/src/features/hooks/send/use-send-letter.ts:123-128 | wraps for a key read from the chain, whatever rotates between the two reads |
| UseSendLetter.SendHook.RecoverExisting | frontend/src/features/hooks/send/use-send-letter.ts:131-137 | finds a transaction only if the letter is on chain, and one of that letter |
| UseSendLetter.SendHook.ResumePending | frontend/src/features/hooks/send/use-send-letter.ts:143-162 | ends sealed, with the letter on chain or the stored transaction reverted, or free to submit again |
| UseSendLetter.SendHook.ResumeUnconfirmed | frontend/src/features/hooks/send/use-send-letter.ts:149-161 | without a receipt the resumption ends sealed only with the id on chain, and otherwise throws or forgets the hash; it submits nothing |
| UseSendLetter.SendHook.RewrapIfRotated | frontend/src/features/hooks/send/use-send-letter.ts:169-173 | throws at once, with the draft unchanged, or leaves the draft waiting and wrapped for a registered key; it submits nothing |
| UseSendLetter.SendHook.Broadcast | frontend/src/features/hooks/send/use-send-letter.ts:174-177 | submits at most once, and the hash it records is the sender's own transaction for the letter |
| UseSendLetter.SendHook.SubmitLetter | frontend/src/features/hooks/send/use-send-letter.ts:167-186 | submits at most twice and returns a transaction of the letter; a failed rewrap throws without recovery |
| UseSendLetter.SendHook.Confirm | frontend/src/features/hooks/send/use-send-letter.ts:187-201 | returns normally only with the letter on chain, after at most one more submission |
| UseSendLetter.SendHook.SubmitRotated | frontend/src/features/hooks/send/use-send-letter.ts:194-199 | rewraps, submits once, and returns normally only with the letter on chain |
| UseSendLetter.SendHook.SubmitAndConfirm | frontend/src/features/hooks/send/use-send-letter.ts:163-208 | ends sealed only with the letter on chain, after at most three submissions |
| UseSendLetter.SendHook.Seal | frontend/src/features/hooks/send/use-send-letter.ts:77-215 | every outcome is a state of a run; at most three submissions; a normal return has stored the draft as sealed, with its own letter on chain unless its id has another sender's event or a reverted stored transaction was resumed |
| Inbox.AddressTextAgrees | frontend/src/features/data/inbox/onchain-inbox.ts:27-30 | comparing lower-cased address text is comparing addresses |
| Inbox.DecryptWith | frontend/src/features/hooks/inbox/use-inbox.ts:58-89 | returns the specified result and erases private key and letter key in place on every path |
| Inbox.DeliveredLetterOpens | frontend/src/features/hooks/inbox/use-inbox.ts:58-84 | a delivered letter opens exactly after the unlock round and from its own archive, to the packed message and media |
| Inbox.SealedLetterOpens | frontend/src/features/hooks/inbox/use-inbox.ts:58-84 | in every run of the sender, any letter of his on chain opens for the named key exactly after the unlock round, to the UTF-8 bytes and media that were packed |
| Inbox.SealedDraftOpens | frontend/src/features/hooks/inbox/use-inbox.ts:58-84 | in every run that takes neither unchecked step, the letter of every sealed draft opens for the named key exactly after the unlock round, to what was packed |
| Inbox.SuccessIsListed | frontend/src/features/data/inbox/onchain-inbox.ts:9-21 | every successful transaction has an event of its letter and sender |
| Inbox.RecoveryReturnsRegisteredKey | backend/src/Recovery/RecoveryService.php:28-79 | email recovery returns exactly the mailbox key pair, if and only if both clocks passed the unlock and the email was proved within ten minutes |
| Inbox.RecoveredKeyIsRegistered | backend/src/Recovery/RecoveryService.php:67-78 | whatever envelope is submitted, a recovered key pair has the registered public key |
| LogRanges.RangesTile | frontend/src/infrastructure/blockchain/log-ranges.ts:8-18 | the ranges ascend, are disjoint, have at most 10,000 blocks and cover exactly the interval |
| LogRanges.BlockRanges | frontend/src/infrastructure/blockchain/log-ranges.ts:8-18 | the loop builds exactly those ranges |
| LogRanges.LoadBlockRangePages | frontend/src/infrastructure/blockchain/log-ranges.ts:20-28 | the loop returns all pages in order, or fails if one fails |
| LogRanges.PagesAreOneQuery | frontend/src/infrastructure/blockchain/log-ranges.ts:20-28 | over a log in block order, the concatenated pages are the query of the whole interval |
| ChainIndex.CountPage | backend/src/Operations/RpcChainIndex.php:58-68 | one page is tallied completely, or rejected for its first malformed log |
| ChainIndex.SnapshotFrom | backend/src/Operations/RpcChainIndex.php:34-72 | the paged loop returns the tally of all pages, or nothing at all |
| ChainIndex.Snapshot | backend/src/Operations/RpcChainIndex.php:22-32 | the snapshot is that of the first endpoint that answers completely, and fails exactly if all do |
| ChainIndex.TallyCounts | backend/src/Operations/RpcChainIndex.php:64-67 | each recipient is counted once per letter, and the hashes are exactly those of the letters |
| ChainIndex.CountsAddUp | backend/src/Operations/RpcChainIndex.php:66-71 | in whatever order recipients are listed, their counts add up to the number of letters |
| ChainIndex.DecodeInvertsEncode | backend/src/Operations/RpcChainIndex.php:59-65 | a log rendered for an event of the contract is read back as its recipient and archive hash |
| ChainIndex.SnapshotIsExact | backend/src/Operations/RpcChainIndex.php:34-72 | from one honest endpoint the snapshot counts and references exactly the letters from deployment to the safe head |
| PackageProtocol.StepKeeps | backend/src/Package/PackageStore.php:19-92 | every step of uploads, collectors and cleanups keeps published packages sound |
| PackageProtocol.RunKeeps | backend/src/Package/PackageStore.php:19-117 | in every run each published package hashes to its name, parses and has 8 bytes to 10 MiB |
| GcTheorems.CollectedWasUnreferenced | backend/src/Operations/OrphanGarbageCollector.php:28-54 | whatever a run deletes it listed as old enough, and neither its scan nor a reference safe at its start names it |
| GcTheorems.ReferencedIsNeverDeleted | backend/src/Operations/OrphanGarbageCollector.php:20-60 | no package that is ever referenced is deleted if its reference leaves the longest scan as margin before the minimum age |
| GcTheorems.MarginCoversScan | backend/src/Operations/OrphanGarbageCollector.php:28-54 | a margin before the minimum age keeps every referenced package in all runs if and only if it is at least as long as the longest scan |
| GcTheorems.CollectedIsOldUnlessReplaced | backend/src/Operations/OrphanGarbageCollector.php:36-54 | a deleted file is at least the minimum age old unless a copy was renamed into its place after it was listed |
| GcTheorems.CollectedIsOldIff | backend/src/Operations/OrphanGarbageCollector.php:36-54 | a deleted file is at least the minimum age old if and only if the last copy renamed into its place since the listing, if any, had been written a minimum age before |
| GcTheorems.DeletedDuringScan | backend/src/Operations/OrphanGarbageCollector.php:28-54 | for a scan of any length, a run that deletes a package although its reference was safe that long before its minimum age |
| GcTheorems.YoungCopyDeleted | backend/src/Operations/OrphanGarbageCollector.php:31-54 | a run that deletes a younger copy renamed into place after the listing |
| Custody.ArchiveGoneBeforeSubmission | backend/src/Operations/OrphanGarbageCollector.php:28-54 | from every sound waiting state whose archive has reached the minimum age unreferenced, the collector deletes the archive and the letter is then delivered, naming it |
| PackageStore.Store.ExistingResult | backend/src/Package/PackageStore.php:109-117 | reports a stored package as there unless it is collected meanwhile or a file operation fails |
| PackageStore.Store.Receive | backend/src/Package/PackageStore.php:44-66 | streams the whole body into the temporary, or fails, exactly by its length |
| PackageStore.Store.CheckAndPublish | backend/src/Package/PackageStore.php:67-83 | publishes what was received exactly if digest and format are right, in one rename |
| PackageStore.Store.Put | backend/src/Package/PackageStore.php:19-92 | stores an absent package exactly if length, digest and format are right, else fails with the first check that does not hold; reports a stored one; publishes nothing else and leaves no temporary on any path |
| PackageStore.Store.Find | backend/src/Package/PackageStore.php:94-99 | finds exactly the published packages, all sound |
| PackageStore.PackedIsStorable | frontend/src/features/hooks/send/use-send-letter.ts:115-122 | every archive the client packs is storable under its own digest |
| OrphanGc.OrphanGarbageCollector.List | backend/src/Operations/OrphanGarbageCollector.php:30-45 | deletes nothing and lists every old unreferenced package once, with its age |
| OrphanGc.OrphanGarbageCollector.Delete | backend/src/Operations/OrphanGarbageCollector.php:46-55 | deletes the candidates in order and stops at the first that cannot be deleted |
| OrphanGc.OrphanGarbageCollector.Run | backend/src/Operations/OrphanGarbageCollector.php:20-60 | deletes nothing in a dry run or without a snapshot; all it deletes, even if it aborts, was listed old and is not in the snapshot; undisturbed it deletes exactly those |
| Notifications.RunKeeps | backend/src/Operations/ChristmasPostman.php:53-59 | in every run a sent or delivered row has the id of its message |
| Notifications.ClaimsAreSeparated | backend/src/Operations/ChristmasPostman.php:69-74 | between two claims of a wallet its row failed, or more than 15 minutes passed |
| Notifications.ClaimsAreBounded | backend/src/Operations/ChristmasPostman.php:42-74 | the provider is asked no more often than a wallet is claimed, which is at most once plus once per failure and per 15 minutes |
| Notifications.RetryWaits | backend/src/Operations/ChristmasPostman.php:57-59 | after a worker's failure leaving n attempts the next claim waits at least min(3600, 60 * 2^(n+1)) seconds |
| Notifications.BackoffGrows | backend/src/Operations/ChristmasPostman.php:59 | the delays double from four minutes and stay at an hour from the fifth failure on |
| Notifications.ClaimableOnFailureIff | backend/src/Email/ResendWebhookService.php:36-37 | in every run, a wallet that turns failed is claimable at that moment if and only if the failure came by webhook and no earlier worker's retry time was still pending on a delivered row |
| Notifications.ClaimedOnBounce | backend/src/Email/ResendWebhookService.php:36-37 | a run from the start in which a sent message bounces and another worker claims the wallet at the same instant |
| Notifications.PunctualWorkersExclude | backend/src/Operations/ChristmasPostman.php:28-74 | when nobody holds a wallet beyond a limit of at most 15 minutes and no failure is reported for a held one, no two workers ever hold one wallet |
| Notifications.ExclusionNeedsBothRules | backend/src/Operations/ChristmasPostman.php:28-74 | over all runs these rules give exclusion if and only if the limit is at most the lease and failure reports for held wallets are excluded |
| Notifications.HeldPastLease | backend/src/Operations/ChristmasPostman.php:69-74 | for every limit above the lease, a run that keeps to it and has two holders of one wallet |
| Notifications.ReportedWhileHeld | backend/src/Email/ResendWebhookService.php:36-37 | for every limit, a run that keeps to it and has two holders of one wallet at one instant, through two bounces |
| Notifications.StalledWorkerBreaksExclusion | backend/src/Operations/ChristmasPostman.php:53-60 | without punctuality a run in which two workers hold one wallet within the lease |
| Notifications.AppliedAtMostOnce | backend/src/Email/ResendWebhookVerifier.php:25-32 | an event is applied at most once per timestamp, even across the purge of event ids |
| Notifications.DuplicatesDoNotMatter | backend/src/Email/ResendWebhookService.php:18-46 | leaving out repeated deliveries of an event gives the same final state, whatever else but a purge happens in between |
| Notifications.RedeliveriesDoNotMatter | backend/src/Email/ResendWebhookService.php:18-46 | in every run, purges included, leaving out deliveries of an event and timestamp that were applied before gives the same final state |
| Notifications.WebhookTimesAreFirst | backend/src/Email/ResendWebhookService.php:34-40 | a webhook never overwrites a time that is set, nor id, attempts or retry time |
| Notifications.DeliveredAtIsFinal | backend/src/Email/ResendWebhookService.php:34-35 | once set, the delivery time never changes in any run |
| ChristmasPostman.Postman.Claim | backend/src/Operations/ChristmasPostman.php:69-74 | a claim is reported exactly if this worker now holds it, with the row claimed at this moment |
| ChristmasPostman.Postman.Send | backend/src/Operations/ChristmasPostman.php:44-54 | reports a message id exactly if the final update was made |
| ChristmasPostman.Postman.Notify | backend/src/Operations/ChristmasPostman.php:37-61 | each recipient is counted once as sent, skipped or failed, as it was claimed and ended |
| ChristmasPostman.Postman.Run | backend/src/Operations/ChristmasPostman.php:28-66 | does nothing before the unlock; a completed run has sent + skipped + failed = recipients and claimed exactly those sent or failed |
| ResendWebhook.Verify | backend/src/Email/ResendWebhookVerifier.php:25-53 | accepts exactly well-formed, fresh requests with a matching signature among the candidates and a body that decodes; the two errors are told apart |
| ResendWebhook.Service.Handle | backend/src/Email/ResendWebhookService.php:18-46 | a verified delivery is one protocol step, a repeated one changes nothing and says so; any other, an undecodable body included, changes nothing and uses up no event id |
| Auth.SignInWasIssued | backend/src/Auth/AuthService.php:31-107 | every sign-in goes back to one issue to that wallet, less than five minutes before, unused since |
| Auth.NonceIsUsedOnce | backend/src/Auth/AuthService.php:78-93 | between two sign-ins with one nonce it was issued again: each issue yields at most one session |
| Auth.ResolvesIffLive | backend/src/Auth/AuthService.php:93-126 | a token resolves to a wallet if and only if that wallet signed in for it within a day and did not log out |
| Auth.AuthService.IssueChallenge | backend/src/Auth/AuthService.php:31-64 | stores a nonce for the lower-cased wallet exactly for a valid address on the configured chain |
| Auth.AuthService.VerifyMessage | backend/src/Auth/AuthService.php:68-107 | opens a session and uses up the nonce exactly when message and nonce row allow it, and otherwise changes nothing |
| Auth.AuthService.ResolveSession | backend/src/Auth/AuthService.php:109-119 | a malformed token resolves to nothing, any other as the session table says |
| Otp.RunKeeps | backend/src/Email/EmailService.php:26-101 | in every run with at most n requests between count and insertion, each wallet, address and client has less than n unexpired challenges above the limit of three, each compared at most five times and verified only before expiry |
| OtpTheorems.OverlapDecidesLimit | backend/src/Email/EmailService.php:32-54 | over all runs with at most n >= 1 requests between count and insertion, the number of unexpired challenges of a key is bounded by exactly n + 2 |
| OtpTheorems.AtMostOneOpenIff | backend/src/Email/EmailService.php:32-54 | a wallet, address or client has at most one unexpired challenge at every point of a run if and only if no two are accepted for it within ten minutes |
| OtpTheorems.TwoOpen | backend/src/Email/EmailService.php:32-54 | a challenge accepted while an earlier one is unexpired makes two |
| OtpTheorems.ThreeAreOpen | backend/src/Email/EmailService.php:32-54 | a run of three requests, one after the other, at one instant that leaves first two, then three unexpired challenges of one wallet |
| OtpTheorems.VerifiedAtMostOnce | backend/src/Email/EmailService.php:63-94 | in every run each challenge is verified at most once, cleanups included |
| OtpTheorems.ComparisonsAreBounded | backend/src/Email/EmailService.php:63-88 | in any ten minutes at most thirty codes are compared for a wallet, and ten more for every further request that overlaps another |
| Otp.CleaningKeepsLimit | backend/src/Command/MaintenanceCleanupCommand.php:36 | deleting old challenges does not loosen the rate limit |
| Otp.EmailService.ChallengeEmail | backend/src/Email/EmailService.php:26-61 | is refused exactly when three recent challenges share wallet, address or client at the count, and then changes nothing; otherwise inserts one fresh row for the request, whatever others did since the count |
| Otp.EmailService.VerifyCode | backend/src/Email/EmailService.php:63-101 | is one protocol step: verifies only an open, unexpired challenge of the wallet whose code hash matches, counting the attempt first |
| Maintenance.SignInIsUnaffected | backend/src/Command/MaintenanceCleanupCommand.php:34-35 | cleanup changes neither what a token resolves to nor whether a message signs in |
| Maintenance.Cleanup.RemoveAbandoned | backend/src/Command/MaintenanceCleanupCommand.php:40-45 | removes only uploads older than a day, all of them without faults, and counts them |
| Maintenance.Cleanup.Execute | backend/src/Command/MaintenanceCleanupCommand.php:25-51 | each table loses exactly its expired rows, the counts are right, and everything published stays |

## Left out

- React state beyond the draft, user interface texts, error message mapping and email templates: no logic of their own.
- The wallet and its connection: asking it to send is a step that may broadcast, fail, or both.
- Concurrent `seal` calls on one draft, several tabs, storage quotas, a stored draft that does not parse, and transactions replaced in the wallet.
- Hex and JSON forms of stored drafts, request bodies and calldata: the model stores the bytes.
- The contract and the database tables are values changed by functions: aliasing and gas do not arise there.
- Inbox listing order, the refresh counter of the inbox hook and the parsing of mailbox registration calldata.
- Media decoding and transcoding, gzip internals, HTTP, JSON-RPC transport and failover timing, cookies and CORS.
- Sign-in message text (EIP-4361, section "ABNF Message Format") and its signature: a verified message is a record.
- The `mailboxes` upsert, whose duplicate key may be either of two unique keys, and the sending of emails.
- Random choice and cryptographic strength: random values are arguments, and nothing is claimed about secrecy.
- The lock store: a lock is held or not when a run starts, and runs may overlap because locks expire.
- The class of error thrown when a stored package cannot be hashed, and which of two failed decryptions is reported.
- UseSendLetter.SendHook.PackLetter: asks whether the mailbox is active, as the source does, but no invariant rests on the answer, since the contract asks again; the two reads that the source starts together are made one after the other, which the chain cannot tell apart from any other order of its own steps.
- PackageStore.Store.Put: the exact conditions assume no I/O fault and less than a day for the request, since a cleanup may remove the temporary of a slower one.
- Notifications.DuplicatesDoNotMatter: is stated for runs without a purge of event ids; across a purge an event with a new timestamp may be applied again, and `Notifications.RedeliveriesDoNotMatter` says what holds there.
