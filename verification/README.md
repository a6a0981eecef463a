# APP20, modelled and proved in Dafny

APP20 settles token trades and payments privately between two parties who talk over encrypted chat.
This project models the parts of it where a mistake loses money, messages or history, and proves what
those parts promise, over every input and every run:

- **Confidential escrow** (`ConfidentialActions`, `ConfidentialPolicy`, `ConfidentialReview`,
  `ConfidentialAuthorization`, `EscrowContract`): the wallet's cursor review of a flat stream of private
  actions, the value policy it enforces, the approvals that turn an operation into an invocation, and the
  account contract that checks the same stream again on chain.
- **Crash-safe client** (`ConfidentialClient`, `ConfidentialClientSafety`): persist intent, send, persist
  hash, reconcile, with a crash, an error or a chain event possible between any two awaits.
- **Payments** (`PaymentLifecycle`, `PaymentSafety`, `PaymentStore`): a store of payment records changed by
  eight calls and an expiry pass, with redundant fields that must agree.
- **Chat records** (`FeltPacking`, `MailWire`, `MailRecipients`, `MailDelivery`, `MailFreshness`): packing bytes into field
  elements, the "A20" layout for several recipients, and encryption and decryption end to end.
- **Content identifiers** (`ContentId`): the base32 accumulator loop and the identifiers built from it.
- **Replicated and restored state** (`AddressBook`, `AddressBookMerge`, `AddressBookReplicas`,
  `RfqRestore`, `RfqRestoreSafety`, `RfqSteady`, `RfqResume`): a last-writer-wins book with tombstones, and
  an authenticated restore that can be cut short, of records that expire as the clock goes on.
- **Ordering and agreement** (`MailThread`, `ThreadAssembly`, `Negotiation`, `NegotiationSafety`,
  `IngressStore`, `IngressSafety`): conversation threads, hash-chained negotiations, and a reservation
  store shared by concurrent callers.
- **Cross-chain lifecycle and amounts** (`CrossChainLifecycle`, `TokenAmount`): a 26-stage machine with
  expiry gates, and the decimal parser and printer.

`Wrappers`, `Collections` and `Arithmetic` hold shared types and facts. Run `dafny verify dfyconfig.toml`.

## How the model is built

Loops over arrays and maps are methods with loop invariants, objects with fields are classes, and both are
tied by their contracts to functions about which the properties are proved. Cryptography is never assumed
to be perfect silently: hashes, signatures, key agreement, key derivation and authenticated encryption are
arbitrary functions passed in as parameters. Where a property needs injectivity, the lemma concludes "the
same inputs, or here is a collision"; where it needs ideal encryption, the assumption is the predicate
`MailRecipients.Ideal`, which `MailRecipients.IdealPrimitivesExist` shows to be satisfiable and
`MailFreshness.FreshRecordsExist` together with everything else that delivery assumes.

## What the code does not do

The model follows the code. Where a property that its comments or its design suggest is false of it, there
is a counterexample, and for the first six the exact condition under which the code does meet it.

- Removing a label that has no entry forgets any earlier deletion of it, so an older snapshot can bring the
  label back: `RemovalGuardsExactlyPresentLabels`, `OldSnapshotReturnsExactly`, `SecondRemovalForgets`.
- A restore cut short by a crash cannot always be finished by running it again. It can exactly when device
  and snapshot fit into 1,000 rows together and every record and tombstone is taken by the storage and met
  again as it was met first: `ResumeReachesTheSameStateExactly`. Reading a row lets its quote expire and dates
  it with the clock, so a quote that expires between the two imports can make the device keep its own row
  (`LapsedDeviceQuoteCannotResume`), a backup quote already expired is dated anew each time
  (`ExpiredBackupQuoteCannotResume`), and a full device refuses (`FullDeviceCannotResume`). While nothing
  expires, an import that completes needs only room: `QuietImportsResumeExactly`.
- A restore that passes all its checks can still fail in the storage, with the sequence mark already raised:
  it completes exactly when the storage takes each write (`CompletesExactly`, `RecordTakenExactly`). A record
  dated ahead of the clock never replaces a stored row that expires on being read, because reading raises the
  revision the storage compares: `MovedRowBlocksImport`.
- A restored record can be older than the one it replaces, if that one was dated ahead of the clock:
  `ReplacementAgesForwardExactly`, `RecordsAheadOfTheClockCanGoBack`.
- A sent copy swallows every chain copy of its document that arrives after it, although the comment at
  `src/lib/mail-thread.ts:109` says independently observed messages are never collapsed:
  `SeparateExactlyWhen`, `SentFirstSwallowsBoth`.
- The wallet reviews refunds without the 128-bit total the contract keeps, so it approves refunds the
  contract refuses: `AuthorizedInvocationValidates`, `LargeRefundIsRefused`.
- The agreement's `escrowClassHash` is bound by neither the commitment nor the digest that is signed:
  `EscrowClassIsNotBound`.

Two merges of the address book commute exactly when they bring no different news of one date
(`MergesCommuteExactly`), and a cross-chain lifecycle can enter submission more than once, each time after a
complete new pass (`SubmissionNeedsAFreshPass`, `SubmissionCanRepeat`).

## Model

| member | source | states |
|---|---|---|
| ConfidentialActions.DecodeAtInvertsSerialize | packages/agent-sdk/src/confidential-protocol.ts:85-119 | an action is read at a position exactly when its serialization stands there |
| ConfidentialActions.DecodeAllInvertsSerialize | packages/agent-sdk/src/confidential-protocol.ts:84-121 | reading a list to the end of the stream is the exact inverse of serializing it |
| ConfidentialActions.SerializeAllInjective | packages/agent-sdk/src/confidential-protocol.ts:84-121 | no stream has two readings, whatever their lengths |
| ConfidentialPolicy.SettlementPaysExactly | packages/agent-sdk/src/confidential-protocol.ts:103-122 | an allowed settlement gives party B exactly amountA of token A and party A exactly amountB of token B, any surplus to the asset's owner, nobody else anything |
| ConfidentialPolicy.RefundPaysOnlyTheOwner | packages/agent-sdk/src/confidential-protocol.ts:91-123 | an allowed refund emits something, only the refunded party's asset, only to that party |
| ConfidentialPolicy.SetupMovesNothing | packages/agent-sdk/src/confidential-protocol.ts:98-119 | an allowed setup neither spends nor creates a note |
| ConfidentialPolicy.CommitmentBindsTerms | packages/agent-sdk/src/confidential-protocol.ts:43-58 | two agreements have one commitment exactly if they have the same chain, pool, signers, deadline and terms, or there is a hash collision |
| ConfidentialPolicy.DigestBindsOperation | packages/agent-sdk/src/confidential-protocol.ts:69-71 | two operations with one digest have the same chain, account, pool, commitment, mode and whole stream, or there is a hash collision |
| ConfidentialPolicy.EscrowClassIsNotBound | packages/agent-sdk/src/confidential-protocol.ts:43-71 | changing the escrow class hash changes neither commitment nor digest |
| ConfidentialReview.ReviewNote | packages/agent-sdk/src/confidential-protocol.ts:103-113 | the note case accepts exactly the recipient, token and amount its mode allows and adds the note to the right total |
| ConfidentialReview.ReviewCallback | packages/agent-sdk/src/confidential-protocol.ts:115-117 | the callback case accepts exactly one callback, in the last place, to this account with this key and mode |
| ConfidentialReview.ReviewOpening | packages/agent-sdk/src/confidential-protocol.ts:100-102 | the opening cases accept exactly registrations and channels that move no value and keep to the parties |
| ConfidentialReview.ReviewInput | packages/agent-sdk/src/confidential-protocol.ts:114-114 | the input case accepts exactly spending an allowed token outside setup |
| ConfidentialReview.ReviewAction | packages/agent-sdk/src/confidential-protocol.ts:98-119 | one turn of the loop reads exactly one allowed action and keeps the totals equal to sums over the actions read |
| ConfidentialReview.ReviewActions | packages/agent-sdk/src/confidential-protocol.ts:97-121 | the loop succeeds with the totals of the list it read, and fails only when no full reading is allowed |
| ConfidentialReview.AcceptableIsUnique | packages/agent-sdk/src/confidential-protocol.ts:78-127 | at most one list of actions makes an operation acceptable |
| ConfidentialReview.ReviewConfidentialOperation | packages/agent-sdk/src/confidential-protocol.ts:78-127 | review succeeds exactly when the stream is the serialization of 1 to 64 actions that meet the mode's policy, and reports their totals |
| ConfidentialAuthorization.RolesMatchExactlyOnce | packages/agent-sdk/src/confidential-protocol.ts:147-148 | the counting test accepts exactly one approval per required role and none besides |
| ConfidentialAuthorization.AuthorizeConfidentialOperation | packages/agent-sdk/src/confidential-protocol.ts:145-152 | an invocation is released exactly for an acceptable operation with exactly one valid approval of each required role on its digest |
| ConfidentialAuthorization.SignatureForFindsRole | packages/agent-sdk/src/confidential-protocol.ts:150-151 | the signature placed for a role is that role's own |
| ConfidentialAuthorization.ApprovalAuthorizesOneOperation | packages/agent-sdk/src/confidential-protocol.ts:128-152 | approvals accepted for two operations mean one mode, one action list and one agreement, or a hash collision |
| EscrowContract.ContractAcceptsAllowedOperations | cairo/src/confidential_escrow.cairo:126-209 | on a serialized list, the contract accepts exactly what the wallet's policy allows, except refunds whose total leaves 128 bits |
| EscrowContract.ContractRefusesOtherStreams | cairo/src/confidential_escrow.cairo:126-209 | the contract accepts no stream that is not a serialization |
| EscrowContract.LargeRefundIsRefused | cairo/src/confidential_escrow.cairo:126-209 | a refund of 2^128 in two notes is allowed by the wallet's policy and refused by the contract |
| EscrowContract.AuthorizedInvocationValidates | cairo/src/confidential_escrow.cairo:235-290 | an invocation the wallet authorized validates on chain exactly when the pool still has its deployed class and it is no refund totalling 2^128 or more |
| EscrowContract.SignatureLayout | packages/agent-sdk/src/confidential-protocol.ts:145-152 | the signature carries mode, the seven terms, then A's and B's two elements, as the contract reads them |
| ConfidentialClientSafety.EveryRunIsSafe | packages/agent-sdk/src/confidential.ts:188-269 | every world reachable with crashes and errors at any await keeps the account of submissions, funding within the agreed amounts, and the phases |
| ConfidentialClientSafety.EverySubmissionIsAccountedFor | packages/agent-sdk/src/confidential.ts:188-208 | each submission ever sent is confirmed with a successful receipt, dropped after a reverted one, or the latest and spoken of by the pending attempt |
| ConfidentialClientSafety.SendsOnlyWhenQuiet | packages/agent-sdk/src/confidential.ts:197-208 | sending happens only when everything before has a final receipt, and after persisting exactly this attempt without a hash |
| ConfidentialClientSafety.ConfirmedOnlyGrows | packages/agent-sdk/src/confidential.ts:188-196 | nothing is ever removed from the confirmed list |
| ConfidentialClientSafety.UnknownOutcomeBlocks | packages/agent-sdk/src/confidential.ts:188-196 | after an unknown outcome nothing is sent, confirmed or decided until the journal is repaired by hand |
| ConfidentialClientSafety.FundingLandsExactly | packages/agent-sdk/src/confidential.ts:212-219 | a funding that lands brings the side to exactly the agreed amount |
| ConfidentialClientSafety.EveryDecisionIsInPhase | packages/agent-sdk/src/confidential.ts:133-164 | setup is prepared only unregistered, funding only registered, unsettled and before the deadline, settlement only when ready, refunds only from the deadline on |
| ConfidentialClientSafety.StepKeepsAccount | packages/agent-sdk/src/confidential-journal.ts:12-32 | every step, a crash or a broken lock included, keeps journal and chain accounting for one another |
| PaymentStore.OtcStore.RecordPaymentRequest | src/lib/otc.ts:1079-1135 | a request is stored once, requested or already expired; repeating it with the same terms keeps status, operation, hash and receipt, and different terms change nothing |
| PaymentStore.OtcStore.RecordInvoiceTakeSettled | src/lib/otc.ts:1230-1295 | after success the payment is still requested and awaits the maturity of exactly this take, which has the requested token and amount; a bound take is never replaced |
| PaymentStore.OtcStore.ClaimPayment | src/lib/otc.ts:1297-1372 | success means a requested, unexpired payment with the reviewed terms, mature if it has a take, and turns its net claims from none to one; a failure changes nothing but an expiry |
| PaymentStore.OtcStore.RecordUnverifiedPaymentClaim | src/lib/otc.ts:1408-1443 | a claim of the requested amount to the requester is noted beside the payment and changes nothing else of it |
| PaymentStore.OtcStore.MarkPaymentSubmitted | src/lib/otc.ts:1445-1480 | the hash goes to a reserved attempt, whose identity and take stay, and the payment stays paid, pending and unverified |
| PaymentStore.OtcStore.ConfirmPayment | src/lib/otc.ts:1482-1536 | success means the submitted hash and a receipt of exactly the requested transfer under it, and closes the payment for good |
| PaymentStore.OtcStore.MarkPaymentOutcome | src/lib/otc.ts:1538-1594 | a revert makes the request payable again with its take still bound, an unknown outcome closes it, and only a submitted hash or a reserved attempt without one has an outcome |
| PaymentStore.OtcStore.ReleasePayment | src/lib/otc.ts:1596-1644 | releasing a reservation makes the request payable again with its take still bound, and returns any other payment as it is |
| PaymentStore.OtcStore.ExpireStored | src/lib/otc.ts:802-832 | the expiry pass visits every record once and expires exactly the stale unpaid ones |
| PaymentSafety.EveryRunIsSound | src/lib/otc.ts:1079-1644 | over every run, paid, pending and verified say exactly what the operation's state says, and a confirmed payment holds a receipt of exactly the requested transfer |
| PaymentSafety.ClaimsAreConserved | src/lib/otc.ts:1297-1644 | successful claims minus reverts and releases are one if the request is paid and zero otherwise |
| PaymentSafety.ClosedForever | src/lib/otc.ts:1297-1644 | an expired, unknown or confirmed payment is never claimed again and never changes standing |
| PaymentSafety.OtherRecordsUntouched | src/lib/otc.ts:1079-1644 | no call on one request changes, adds or removes another request's record |
| PaymentSafety.TakeSurvives | src/lib/otc.ts:1182-1372 | a bound invoice take survives every later call unchanged |
| PaymentSafety.ClaimsOnlyWhenMature | src/lib/note-maturity.ts:220-255 | a payment with a bound take is claimed only at a head block ten past the take's |
| FeltPacking.BigIntToFixedBytes | src/lib/mail.ts:198-215 | a value is written in so many big-endian bytes, or refused when negative or too large |
| FeltPacking.PackBytesToFelts | src/lib/mail.ts:229-237 | the loop computes the length felt followed by the 31-byte chunks |
| FeltPacking.UnpackFeltsToBytes | src/lib/mail.ts:239-268 | the loop computes the specified bytes or the first refusal |
| FeltPacking.UnpackInvertsPack | src/lib/mail.ts:229-268 | a packed byte string unpacks to itself exactly up to 4,309 bytes, and is refused beyond |
| FeltPacking.PackInvertsUnpack | src/lib/mail.ts:229-268 | every list that unpacks is the packing of what it unpacks to |
| FeltPacking.ProjectionIsExact | src/lib/mail.ts:51-82 | the projected count is the packed count, and `fits` says both that the plaintext is within the maximum and that it unpacks |
| FeltPacking.RecipientLimitIsTight | src/lib/mail.ts:31-38 | sixty-six recipients fit with an empty message and sixty-seven do not |
| MailWire.ParseMultiRecipientCiphertext | src/lib/mail.ts:469-513 | the slot loop computes the specified parse |
| MailWire.ParseAcceptsLayouts | src/lib/mail.ts:454-513 | the parser accepts exactly the laid-out bodies and returns the body that was laid out |
| MailWire.ParseInvertsLayout | src/lib/mail.ts:454-513 | a laid-out body parses back to itself and has the projected length |
| MailWire.CompareBytes | src/lib/mail.ts:168-173 | the loop computes the lexicographic comparison |
| MailWire.CompareEqual | src/lib/mail.ts:159-173 | comparison is zero exactly on equal bytes, and antisymmetric |
| MailWire.MultiSlotNonce | src/lib/mail.ts:385-392 | the loop folds the slot counter into the last four bytes |
| MailWire.SlotNoncesAreDistinct | src/lib/mail.ts:384-392 | slot nonces are pairwise distinct and differ from the record nonce |
| MailRecipients.IdealPrimitivesExist | src/lib/mail.ts:394-444 | whatever has been sealed, there are primitives that meet the assumptions |
| MailFreshness.FreshRecordsExist | src/lib/mail.ts:394-444 | for any randomness and any message that fits, all assumptions of delivery can be met together, for one recipient and for two |
| MailRecipients.PairRoundTrip | src/lib/mail.ts:271-302 | keys and nonces survive the trip through two field elements |
| MailRecipients.SortSorts | src/lib/mail.ts:642-642 | the tag order is ascending |
| MailRecipients.SortKeepsMaterials | src/lib/mail.ts:642-642 | sorting permutes the recipients' materials |
| MailRecipients.NeighboursDecide | src/lib/mail.ts:642-647 | after sorting, the comparison of neighbours finds every repeated tag |
| MailDelivery.HasDuplicate | src/lib/mail.ts:595-602 | the fingerprint loop finds a repeated key exactly when there is one |
| MailDelivery.EncryptMailForRecipients | src/lib/mail.ts:577-688 | the method computes the specified record or refusal |
| MailDelivery.EncryptionSucceedsExactlyWhen | src/lib/mail.ts:577-688 | encryption succeeds exactly for 1 to 66 distinct well-formed keys, a message that fits, and distinct tags |
| MailDelivery.DecryptMultiRecipientMail | src/lib/mail.ts:708-750 | the slot loop returns the first slot with the reader's tag that opens, and otherwise says whether any carried the tag |
| MailDelivery.EveryRecipientDecrypts | src/lib/mail.ts:577-804 | each listed recipient decrypts the record to the plaintext, however the tags sort |
| MailDelivery.SingleRecipientDecrypts | src/lib/mail.ts:536-570 | a one-recipient record decrypts even when its view tag is 0xff and its ciphertext begins "A20" |
| MailDelivery.RecipientOrderIsHidden | src/lib/mail.ts:462-642 | encrypting for the recipients in another order gives the same record or the same refusal |
| MailDelivery.DecryptionIsAuthentic | src/lib/mail.ts:690-804 | whatever bytes arrive, a successful decryption yields a plaintext sealed under this record's ephemeral key and nonce |
| MailDelivery.AadDomainsDiffer | src/lib/mail.ts:319-383 | the one-recipient and many-recipient formats never share associated data |
| ContentId.EmitLetters | src/lib/blob-store.ts:66-69 | the inner loop keeps value times two to the waiting bits plus the masked accumulator, and leaves fewer than five bits |
| ContentId.Base32Lower | src/lib/blob-store.ts:59-74 | the loop emits the base-32 digits of the input's number, zero-padded to a multiple of five bits |
| ContentId.Base32IsInjective | src/lib/blob-store.ts:59-74 | byte strings of any lengths have the same spelling exactly if they are the same |
| ContentId.ConcatBytes | src/lib/blob-store.ts:48-57 | the buffer holds the values one after another |
| ContentId.ComputeCidV1Raw | src/lib/blob-store.ts:76-81 | the identifier is "b" and the spelling of prefix and digest |
| ContentId.CidsMatchTheirPattern | src/lib/blob-store.ts:44-81 | every identifier of a 32-byte digest has the 59-character form |
| ContentId.CidsIdentifyContent | src/lib/blob-store.ts:76-81 | two identifiers are equal exactly when the digests are |
| AddressBook.ReconcileBookState | src/lib/address-book.ts:223-259 | the loops keep the first unsuppressed entry of each label and the latest surviving deletions |
| AddressBook.CuttingTheSortedListEvicts | src/lib/address-book.ts:245-257 | sorting newest first and cutting at 200 keeps exactly the tombstones that fewer than 200 outrank |
| AddressBook.ManyAreCut | src/lib/address-book.ts:255-257 | of more than 200 tombstones exactly 200 are kept |
| AddressBook.ReconciledSettles | src/lib/address-book.ts:223-259 | however a book is listed, the loops keep its unsuppressed entries and the newest 200 tombstones that no entry has overtaken |
| AddressBook.ReconcileIsIdempotent | src/lib/address-book.ts:223-259 | however a stored book is listed, reconciling gives it back |
| AddressBook.ReconciledIsDisjoint | src/lib/address-book.ts:223-259 | reconciling any lists leaves entries and tombstones label-disjoint, with at most 200 tombstones |
| AddressBookMerge.SanitizeEntries | src/lib/address-book.ts:145-175 | a snapshot is accepted exactly when it is short enough, label-distinct and not dated ahead |
| AddressBookMerge.BookStore.Persist | src/lib/address-book.ts:321-329 | what is stored is the listed book after both reconcile loops, and that is the settled book, whatever the order of the lists |
| AddressBookMerge.BookStore.SaveEntry | src/lib/address-book.ts:378-399 | the label's entry and deletion are replaced by the new card and the reconciled book is stored; a full or unreadable book stays as it was |
| AddressBookMerge.BookStore.RemoveEntry | src/lib/address-book.ts:401-426 | the entry gives way to a tombstone of now, any older tombstone of the label is dropped, and the reconciled book is stored |
| AddressBookMerge.BookStore.ReplaceEntries | src/lib/address-book.ts:429-444 | the snapshot becomes the entries, the tombstones of its labels are dropped, and the reconciled book is stored; a malformed snapshot changes nothing |
| AddressBookMerge.BookStore.MergeEntries | src/lib/address-book.ts:452-485 | the loop over the snapshot takes every card newer than entry and tombstone and the reconciled book is stored; beyond 200 entries nothing changes |
| AddressBookMerge.MergedAt | src/lib/address-book.ts:467-477 | merging acts label by label: a card newer than entry and tombstone replaces both |
| AddressBookReplicas.SaveChangesOneLabel | src/lib/address-book.ts:378-399 | saving sets its label, forgets its deletion and touches no other label |
| AddressBookReplicas.ReplaceIsExact | src/lib/address-book.ts:429-444 | replacing leaves exactly the snapshot and the deletions of unlisted labels |
| AddressBookReplicas.ReplicasConverge | src/lib/address-book.ts:446-485 | merging the same snapshots in any order and any number of times gives one book or one refusal, unless different news share a date |
| AddressBookReplicas.MergesCommuteExactly | src/lib/address-book.ts:452-485 | two merges commute exactly when they bring no different news of one date, or book and news together exceed 200 entries |
| AddressBookReplicas.MergeIsAssociative | src/lib/address-book.ts:452-485 | merging two snapshots in turn is merging their combination |
| AddressBookReplicas.RemovedStaysRemoved | src/lib/address-book.ts:401-485 | a removed label stays out of every run that brings nothing newer for it, until 200 later deletions evict its tombstone |
| AddressBookReplicas.RemovalGuardsExactlyPresentLabels | src/lib/address-book.ts:401-426 | a removal leaves a tombstone exactly when the label had an entry and 200 others do not outrank it |
| AddressBookReplicas.OldSnapshotReturnsExactly | src/lib/address-book.ts:401-485 | after a removal a snapshot with an older card of the label brings it back exactly when the removal left no tombstone and the book has room for all the snapshot's news |
| AddressBookReplicas.SecondRemovalForgets | src/lib/address-book.ts:412-420 | after a second removal an old snapshot brings the label back |
| RfqRestore.HasDuplicateIds | src/lib/rfq-history-backup.ts:260-282 | the loops find a repeated id among records and tombstones exactly when there is one |
| RfqRestore.PlanTombstones | src/lib/rfq-history-backup.ts:537-560 | with stored rows read at the time of import, the loop gives the first refusal or exactly the tombstones to save, and counts the rest |
| RfqRestore.PlanRecords | src/lib/rfq-history-backup.ts:562-586 | stored rows as read now are compared with the times the backup rows carry: the loop gives the first refusal or exactly the records to save, and counts the rest |
| RfqRestore.RfqHistory.Import | src/lib/rfq-history-backup.ts:447-605 | a refusal by the plan leaves storage unchanged; otherwise, after any number of writes, it holds exactly that prefix of the plan, or the part before the first write that the storage refuses, and the import fails exactly when it gets to that write |
| RfqRestore.LawfulCodecExists | src/app/rfq/rfq-lifecycle.ts:1824-2160 | the laws assumed of parsing and of the contradiction checks can be met together |
| RfqRestoreSafety.CollectGives | src/lib/rfq-history-backup.ts:537-586 | a plan exists exactly when no item is refused, and writes exactly the items that are news |
| RfqRestoreSafety.RestoreAdvances | src/lib/rfq-history-backup.ts:381-605 | a restore cut short anywhere keeps the sequence from going back, deletions as they are, and every record unless it is deleted |
| RfqRestoreSafety.EveryRestoreRunAdvances | src/lib/rfq-history-backup.ts:381-605 | the same over any number of restores, at any times |
| RfqRestoreSafety.ReplacementAgesForwardExactly | src/lib/rfq-history-backup.ts:562-586 | a record replaces a stored one without being older exactly when the stored one is no later than the backup's time, or than the clock if reading changes the backup row |
| RfqRestoreSafety.RestoreKeepsPace | src/lib/rfq-history-backup.ts:562-600 | if no stored record is dated ahead of the clock, no record gets older |
| RfqRestoreSafety.TimelyRunsNeverGoBack | src/lib/rfq-history-backup.ts:447-605 | over every run of restores under a clock that never goes back and that nothing is dated ahead of, no record gets older |
| RfqRestoreSafety.RecordsAheadOfTheClockCanGoBack | src/app/rfq/rfq-lifecycle.ts:2137-2153 | an import at 210 puts an expired quote of 210 over a record of 300, and the storage takes it |
| RfqSteady.JudgingSettles | src/app/rfq/rfq-lifecycle.ts:1984-2155 | reading a restored record again at the same time changes nothing but its revisions, unless it both lacks its reorg signal and contradicts itself |
| RfqSteady.StoredRowsCompare | src/lib/rfq-history-backup.ts:354-368 | comparing a stored row that could be read never fails on it |
| RfqSteady.WrittenComparesEqual | src/lib/rfq-history-backup.ts:354-368 | a record just written compares equal to its own backup row at a later import, even if reading it has changed it, as long as the backup row reads alike |
| RfqSteady.RecordTakenExactly | src/app/rfq/rfq-storage.ts:360-392 | the storage takes a record to be written exactly if it is sound to save and, over a stored row, that row has local evidence and the same mode, is preserved, and did not change on being read |
| RfqSteady.RecordResumesExactly | src/lib/rfq-history-backup.ts:562-586 | importing one record at two times gives what the first time gives, from the old row and from the written one, exactly under conditions on expiry, reorg signal, times and the storage's checks that can be tested beforehand |
| RfqSteady.TombstoneResumesExactly | src/lib/rfq-history-backup.ts:537-560 | the same for a tombstone, exactly when the stored record may be forgotten, as stored and as read at the second time |
| RfqResume.SecondImportAcceptedExactly | src/lib/rfq-history-backup.ts:506-586 | repeating a cut-short import is refused for more than 1,000 rows or for an item, and for nothing else |
| RfqResume.CompletesExactly | src/app/rfq/rfq-storage.ts:1060-1125 | an import that the plan accepts completes exactly when the storage takes each of its writes over the row the device had |
| RfqResume.ResumeReachesTheSameStateExactly | src/lib/rfq-history-backup.ts:447-605 | after a crash at any write a second import completes with the rows and mark the first one intended, up to the restore stamp, exactly when everything fits into 1,000 rows and every item is taken by the storage and steady |
| RfqResume.QuietImportsResumeExactly | src/lib/rfq-history-backup.ts:447-605 | if no quote involved expires by the later import and nothing is to be quarantined, an import can be resumed exactly when it would complete and everything fits |
| RfqResume.ComparisonIsTimelessWhenQuiet | src/lib/rfq-history-backup.ts:354-368 | whether two records compare equal does not depend on the time while reading changes neither |
| RfqResume.ExpiryHidesADifference | src/lib/rfq-history-backup.ts:354-368 | a quote and a review of it compare different before their expiry and equal after it |
| RfqResume.FullDeviceCannotResume | src/lib/rfq-history-backup.ts:506-511 | a device with 1,000 rows completes an import of one new record once and then refuses the same snapshot |
| RfqResume.MovedRowBlocksImport | src/app/rfq/rfq-storage.ts:386-392 | a stored row that expires or is quarantined on being read stays as it is in an import that would replace it, and the import does not complete |
| RfqResume.ExpiredBackupQuoteCannotResume | src/app/rfq/rfq-lifecycle.ts:2137-2153 | a new backup quote that has expired is dated by the clock at each import, so a crash before it is written cannot be resumed to the same row |
| RfqResume.LapsedDeviceQuoteCannotResume | src/lib/rfq-history-backup.ts:562-569 | with one row on the device, an import at 180 cut short after its mark keeps the device's row when run again at 210 |
| MailThread.CollapseSelfMailCopies | src/lib/mail-thread.ts:86-134 | the loop computes the specified slots |
| MailThread.CollapseKeepsSentCopies | src/lib/mail-thread.ts:86-134 | the sent copies are exactly the same before and after, none lost or doubled |
| MailThread.SeparateExactlyWhen | src/lib/mail-thread.ts:92-131 | chain copies keep separate places exactly when no document has two that open its slot or follow a sent copy |
| MailThread.NoEvidenceIsLost | src/lib/mail-thread.ts:115-130 | while chain copies keep separate places, where each is on the chain stays shown |
| MailThread.SentFirstSwallowsBoth | src/lib/mail-thread.ts:92-131 | two chain copies after a sent one leave one message and one evidence |
| ThreadAssembly.AssembleConversation | src/lib/mail-thread.ts:136-186 | the method terminates with the specified conversation |
| ThreadAssembly.AssemblePermutes | src/lib/mail-thread.ts:159-185 | assembly outputs a permutation of the collapsed conversation |
| ThreadAssembly.RespectsRepliesWheneverPossible | src/lib/mail-thread.ts:159-185 | if any order puts every reply after its parent, the assembled one does, and an order that already does is unchanged |
| ThreadAssembly.RespectsRepliesExactlyWhenRanked | src/lib/mail-thread.ts:159-185 | the fallback stays unused exactly when the documents can be ranked with a lower parent for each |
| Negotiation.EquivocationStore.Consume | src/lib/negotiation.ts:127-143 | a key is bound to its first digest: new, duplicate or refused |
| Negotiation.EvaluateNegotiationTranscript | src/lib/negotiation.ts:632-754 | the loops compute the specified result and the specified record of consumed documents |
| NegotiationSafety.WalkAcceptsExactlyTranscripts | src/lib/negotiation.ts:670-743 | evaluation accepts exactly chained revisions from a root offer with one intent, alternating authors and an ending that binds the last terms |
| NegotiationSafety.RevisionsCount | src/lib/negotiation.ts:681-697 | revisions are 1 to n in one conversation |
| NegotiationSafety.EvaluationMeans | src/lib/negotiation.ts:744-754 | state, intent, active terms, latest digest and revision count are read off the documents |
| NegotiationSafety.LatestDigestIdentifiesTranscript | src/lib/negotiation.ts:534-538 | transcripts with one latest digest are the same documents, or the digest has a collision |
| NegotiationSafety.NoEquivocation | src/lib/negotiation.ts:127-143 | documents of one author, revision and conversation admitted at any two times, under any role bindings, are the same, or the digest has a collision |
| IngressStore.EnvelopeStore.ConsumeAndReserve | packages/maker-node/src/hpke-ingress.ts:27-31 | a caller joins the end of the line |
| IngressStore.EnvelopeStore.TakeTurn | packages/maker-node/src/hpke-ingress.ts:31-41 | the first in line is answered from the maps or its reservation starts |
| IngressStore.EnvelopeStore.FinishTurn | packages/maker-node/src/hpke-ingress.ts:42-50 | success is recorded under both keys, failure under neither, and the line moves on |
| IngressSafety.EveryRunIsSequential | packages/maker-node/src/hpke-ingress.ts:21-55 | every interleaving gives the replies of the sequential store in order of arrival, and both maps stay a bijection through shared terminals |
| IngressSafety.ReplyMeans | packages/maker-node/src/hpke-ingress.ts:32-48 | a call is accepted only with both keys free, idempotent exactly when it repeats nonce, RFQ and digest, and a conflict otherwise |
| IngressSafety.AtMostOneAcceptance | packages/maker-node/src/hpke-ingress.ts:36-47 | no nonce and no RFQ is accepted twice |
| IngressSafety.FailureLeavesNoTrace | packages/maker-node/src/hpke-ingress.ts:42-50 | after a failed reservation the next call is decided as if it had never been made |
| IngressSafety.EveryTurnAnswersOneCaller | packages/maker-node/src/hpke-ingress.ts:50-52 | every turn answers exactly the first caller in line, whatever its reservation does |
| TokenAmount.ParseInvertsFormat | packages/domain/src/index.ts:49-109 | every amount below 2^128 reads back from its printed form at every number of decimals |
| TokenAmount.ParseIsExact | packages/domain/src/index.ts:49-87 | an accepted text is worth exactly what its digits say |
| TokenAmount.FormatGivesTheCanonicalSpelling | packages/domain/src/index.ts:49-109 | printing a parsed amount gives the canonical spelling, which is the text itself exactly when it was canonical |
| TokenAmount.CanonicalIsPrinted | packages/domain/src/index.ts:89-109 | a canonical text is what its value prints as |
| CrossChainLifecycle.EveryRunIsTraced | packages/domain/src/index.ts:777-887 | neighbouring stages of every run are allowed moves under the digest fixed at creation, and no gate was passed after expiry |
| CrossChainLifecycle.SubmissionNeedsAFreshPass | packages/domain/src/index.ts:228-331 | every entry into submission ends a fresh pass through the seven stages before it, all before expiry and deadline |
| CrossChainLifecycle.SameTermsThroughout | packages/domain/src/index.ts:846-867 | the intent supplied at each step is the one the lifecycle was created for, or the digest has a collision |
| CrossChainLifecycle.SubmissionCanRepeat | packages/domain/src/index.ts:286-331 | an unknown submission can lead to a second one through manual review |
| CrossChainLifecycle.ExpiredStagesOnlyExpire | packages/domain/src/index.ts:214-226 | an expired stage before submission can move to EXPIRED and nowhere else |
| CrossChainLifecycle.TerminalStagesAbsorb | packages/domain/src/index.ts:206-212 | terminal stages have no way out |
| CrossChainLifecycle.OtherStagesCanAlwaysMove | packages/domain/src/index.ts:834-887 | every other stage has a move at any time, expired or not |
| CrossChainLifecycle.EndedRunsStayEnded | packages/domain/src/index.ts:784-786 | a run that has ended never changes again |
| CrossChainLifecycle.NoSubmissionAfterExpiry | packages/domain/src/index.ts:871-881 | after expiry nothing is submitted |

## Left out

- Cryptographic internals (X25519, HKDF, AES-GCM, Ed25519, Poseidon, SHA-256): arbitrary functions here. The refusal of low-order public keys by X25519 is not part of this model.
- JSON text, regular expressions, Unicode normalization and case folding: field elements, addresses and times are numbers, labels are the ranks of folded keys, documents are datatypes.
- The privacy SDK's builder, note discovery and proof decoding in `packages/agent-sdk/src/confidential.ts`: readings and proofs are inputs of the transition system.
- The confidential client as an object: it is a transition system on values, because a crash between any two awaits is the point. The final receipt read after reconciling in `broadcast` only decides which message the caller sees and is not a step.
- Repair of the journal by hand after an unknown outcome: the run stays blocked. Receipts are final and returned hashes are fresh, as the client assumes of its chain; one client funds each side.
- Agreements are numbers: the accepted spellings of a felt string, and comparisons of agreements as JSON text, are not part of this model.
- The deal half of `src/lib/otc.ts` (`transitionDeal` and the accept functions) and rows written by older versions: the first follows the payment machine's pattern, and runs start from empty storage. A release of a record that is not stored, where the code returns nothing, is a refusal.
- EscrowContract.AuthorizedInvocationValidates: assumes that the network's ECDSA check accepts every signature the wallet's library accepts (`AcceptsWalletSignatures`), because both are arbitrary functions here; the number of calls and the empty additional data are not part of this model.
- `check_actions` of the Cairo contract is a recursive function on the same stream: its span is consumed, and a value is what remains.
- The built-in sort: any ascending permutation would do, and the model uses an insertion sort as its specification.
- The address book's label order on display, labels that differ only in case, its encryption and its storage format. A book that fails to load changes nothing.
- The signature and scope checks of a backup snapshot: a restore starts from an authenticated one.
- RFQ storage below `save` and `saveTombstone`: the revision, mode, evidence and deletion checks of a write are modelled, while what else it preserves of the replaced record (terms, quote, settlement, attempts, observations, standing) is a function under the law `RfqRestore.SavingIsTimeless`. Alias migration and other tabs are not part of this model. Stored rows have one row an id, so the duplicate checks on them are not part of this model.
- `restoreRfqLifecycle` is modelled by its verdicts in their order: malformed, without a reorg signal, contradictory, expired. Which rows are malformed or contradictory are functions under the laws of `RfqRestore.Lawful`. Rows of the first lifecycle schema, and the verdict on a foreign wallet or chain, which a row read under its own identity cannot get, are not part of this model; times and revisions have no upper limit.
- A negotiation evaluated without an equivocation store: the model always has one.
- Keys of the reservation and equivocation stores are tuples, not joined strings: a directory digest or conversation id that contains the separator is not part of this model.
- Opening an envelope before it is reserved (`openEnvelopeThenReserve`), and the production store of the maker node.
- Intent validation and the canonical JSON behind the intent digest; times are numbers, compared as the parsed dates are.
- Text lengths count characters, not UTF-16 units.
- Settlement, wallet, RPC and storage code behind the modelled functions, and all UI.
