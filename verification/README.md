# solana-keychain: what every signing run keeps

This project models the client-side protocols of solana-keychain that move money: sending a transaction
through a provider that signs and broadcasts it (Crossmint, Fordefi), signing a transaction slot by slot and
broadcasting it once, signing batches concurrently, polling a provider, and the canonical encodings whose bytes
get hashed or signed. It proves what every run keeps.

How the model is built:

* **Providers are arbitrary.** A provider, a caller-supplied `send` and a batch signer are functions of everything
  they were asked so far (`Core.Channel`), so every statement is about every sequence of answers, transport
  failures and statuses, adaptive ones included. A cancelled Go context is an arbitrary predicate on the log.
* **Foreign code is a parameter.** Ed25519, SHA-256, base58/base64 and the Solana wire format are the fields of
  `Core.Primitives`, total functions about which nothing is assumed unless a lemma requires it.
* **Code that updates state is imperative.** Transactions, the pending-id list, channels, loops and buffers are
  classes and methods; each method is proved equal to a function, and the guarantees are lemmas about that function
  for all inputs, all runs or all reachable states.
* A run starts on a fresh channel, so its log is the record of that run alone (`requires channel.log == []`).
* A response body is represented by what a client's decoder makes of it (its `id` field, whether it names an error,
  its typed form). Where both clients read one body, each has a view of its own and nothing ties the two together
  unless a lemma says so. Status strings are constructors with a catch-all; failures are the constructors of
  `Core.Detail`, whatever words a client uses for them.

Where the code and its documentation disagree, the model follows the code:

* `rust/src/lib.rs:476-478` says that what `send` returns propagates unchanged; `rust/src/send.rs:81-89` wraps a
  failure as `BroadcastUnconfirmed`, and so does `SendGate`.
* `rust/src/remote_util.rs:59-62` says that dot-only segments are escaped; `rust/src/remote_util.rs:75-88` keeps
  dots literal (`UriComponent.DotSegmentsStayLiteral`).

Where the two clients differ, the model follows each and the difference is stated:

* The Go Crossmint client reports a refused create with an unreadable body as unconfirmed, the Rust client as a plain
  error; whatever their decoders do, that is the only difference in retryability
  (`CrossmintClients.GoAndRustReadCreatesAlike`).
* Rust demands a `status` in a response (`rust/src/crossmint/types.rs:30`, `rust/src/fireblocks/types.rs:78`), Go reads
  a missing one as empty and goes on polling (`CrossmintClients.StatuslessCreateDivides`,
  `Fireblocks.EmptyBodyDivides`).
* A cancelled context cuts a Go sleep short; a Rust sleep cannot be interrupted, and the run goes on to fetch. Agreement
  of whole runs is stated exactly as far as the decoders agree and sleeps are not cut short
  (`CrossmintClients.GoAndRustRunAlikeIff`, `CrossmintClients.GoRunTrailsRust`, `Fireblocks.RustAndGoAgree`).
* Of a failed `send` Rust passes on the sender's text, Go writes its own (`SendGate.GoRefinesRust`).

Files: `Core` (values, errors, channels), `Transactions` (slots, attach, several signers), `SendGate`,
`Crossmint`, `CrossmintGuarantees` and `CrossmintClients`, `Fordefi` and `FordefiGuarantees`, `PendingSlot`, `Idempotency`, `Replays`,
`Batch`, `Polling`, `Fireblocks`, `CanonicalJson`, `JsonText`, `PrivyPayload`, `WalletJwt`, `UriComponent`, `Sanitize`,
`HexComponents`.
`dafny verify dfyconfig.toml` checks them together.

## Model

| member | source | states |
|---|---|---|
| CrossmintGuarantees.RetryableIffNothingCouldHaveRun | rust/src/crossmint/mod.rs:658-695 | In every run, an error other than BroadcastUnconfirmed is returned exactly when every create handed to the transport was answered by a 4xx other than 408 (for the Go client: with a readable body) |
| CrossmintGuarantees.CreateStatusDecides | rust/src/transaction_util.rs:67-85 | A create answered with status n leaves a retryable error exactly for 400 <= n < 500 other than 408 (Go: with a readable body); 408 and every n >= 500 are unconfirmed under that status (Go: where the body is readable) |
| CrossmintGuarantees.FailedCreateSpelled | rust/src/crossmint/mod.rs:211-238 | Every failed create in full: what was unreadable, what was refused, and under which recovery id, status and key the rest is unconfirmed |
| CrossmintGuarantees.LostCreateIsUnconfirmed | rust/src/crossmint/mod.rs:211-222 | A create lost by the transport is unconfirmed under its key |
| CrossmintGuarantees.UnsentRunsSayWhy | rust/src/crossmint/mod.rs:658-672 | A run sends nothing exactly without a wallet key, a serializable transaction or a usable URL, and says which |
| CrossmintGuarantees.AnswerIsTakenIff | rust/src/crossmint/mod.rs:297-336 | An answer is taken exactly below 400 with a usable id and a typed form; every other answer fails with its own reason |
| CrossmintGuarantees.RecordsTheCreatedId | rust/src/crossmint/mod.rs:673-694 | A run records exactly the id of a create that was taken, and clears it again |
| CrossmintGuarantees.ErrorsNameTheCreatedId | rust/src/crossmint/mod.rs:671-690 | Once a create returned an id, every later error is BroadcastUnconfirmed carrying exactly that id and the create's key, whatever ids later answers show; that id is not blank where the typed form agrees with the body |
| CrossmintGuarantees.ReadableIdIsNeverLost | rust/src/crossmint/mod.rs:224-237 | An id readable in an unrefused create's body reaches the caller even if the body is otherwise unusable, with the key and the failing status |
| CrossmintGuarantees.OneCreatePerRun | rust/src/crossmint/mod.rs:197-222 | A run sends at most one create, as its first request, under the key of its message |
| CrossmintGuarantees.FailedCreatesStop | rust/src/crossmint/mod.rs:207-237 | A create without a readable answer below 400 ends the run with nothing else sent |
| CrossmintGuarantees.PollIsFirstTerminal | rust/src/crossmint/mod.rs:362-400 | The budgeted loop with its final check is decided by the first terminal response among the first n+1, and otherwise reports missing approval or timeout |
| CrossmintGuarantees.OkIsStable | rust/src/crossmint/mod.rs:362-400 | A success within a budget is the same success, through the same requests, within any larger budget |
| CrossmintGuarantees.PollStaysWithinBudget | go/signers/crossmint/signer.go:213-253 | A poll with budget n makes at most n requests, at most one approval and no create |
| CrossmintGuarantees.ApprovalsAnswerOurChallenge | rust/src/crossmint/mod.rs:402-475 | Every approval was sent for a response awaiting approval, addresses the first pending entry with our locator, and signs exactly that entry's message |
| CrossmintGuarantees.ApprovalIsGiven | rust/src/crossmint/mod.rs:402-475 | A poll that awaits our approval and can give it does so as its next event, for the first entry with our locator |
| CrossmintGuarantees.ApprovalIsRefused | go/signers/crossmint/signer.go:271-312 | A poll that cannot give the approval ends there: no key, locator or entry, no message, or an undecodable one |
| CrossmintGuarantees.FetchesFollowTheResponse | rust/src/crossmint/mod.rs:381-385 | Every fetch follows a sleep and asks for the id of the latest response |
| CrossmintGuarantees.ExtractIffEvidence | rust/src/crossmint/mod.rs:601-633 | Extraction succeeds exactly on a verified fee-payer slot, or on txId when the transaction is absent or unusable; never when it decoded but failed verification |
| CrossmintGuarantees.ExtractionIsDecided | rust/src/crossmint/mod.rs:553-633 | A decoded transaction with a filled fee-payer slot decides by whether that slot verifies, whatever txId says; only without one does txId decide |
| CrossmintGuarantees.NothingToExtractSaysWhy | rust/src/crossmint/mod.rs:553-600 | Without a usable transaction and a txId, why: nothing there, undecodable, too few keys, no keys, or an empty fee-payer slot |
| CrossmintGuarantees.OkRestsOnEvidence | rust/src/crossmint/mod.rs:697-703 | Every Ok of a run rests on a success response reached by polling whose on-chain data is evidence for the signature |
| CrossmintClients.GoAndRustReadCreatesAlike | go/signers/crossmint/client.go:87-112 | For arbitrary decoders, the two clients differ on the retryability of a create exactly for an unreadable refusal; they accept alike exactly when their decoders agree on the body of a create answered below 400 |
| CrossmintClients.StatuslessCreateDivides | go/signers/crossmint/client.go:35-41 | A create body without a status is accepted by Go and reported as unconfirmed by Rust |
| CrossmintClients.GoAndRustRunAlikeIff | go/signers/crossmint/signer.go:150-183 | For arbitrary decoders, providers and cancellations, the two clients send the same requests and return the same result exactly when they read the create alike and act alike on every answer reached: same end, same approval, or an uncut sleep and a fetch of the same id |
| CrossmintClients.GoRunTrailsRust | go/signers/crossmint/signer.go:213-253 | Where the decoders agree on the answers of the Rust run, the Go requests are a prefix of the Rust ones, ending at the first sleep cut short, where Go reports an unconfirmed broadcast; logs are equal exactly when no sleep is cut short, results then exactly when the create was not a failure only one client can describe |
| Crossmint.PollTransaction | rust/src/crossmint/mod.rs:362-400 | The imperative loop returns and logs what the specification says; only the Go client's sleep can be interrupted |
| Crossmint.ExecuteManagedTransaction | rust/src/crossmint/mod.rs:658-703 | The whole imperative run equals its specification, never writes the caller's transaction, records the created id on the pending list and clears it, and leaves the list with the ids it had |
| FordefiGuarantees.RetryableIffNothingCouldHaveRun | rust/src/fordefi/mod.rs:730-768 | An error other than BroadcastUnconfirmed means every submit of the run was refused; a run that submitted returns one exactly then |
| FordefiGuarantees.SubmitStatusDecides | rust/src/transaction_util.rs:67-85 | A submit answered with status n leaves a retryable error exactly for 400 <= n < 500 other than 408; 408 and every n >= 500 are unconfirmed under that status |
| FordefiGuarantees.FailedSubmitSpelled | rust/src/fordefi/mod.rs:267-306 | Every failed auto submit in full: what was refused, and under which recovery id, status and key the rest is unconfirmed |
| FordefiGuarantees.LostSubmitIsUnconfirmed | rust/src/fordefi/mod.rs:267-279 | A submit lost by the transport is unconfirmed under its key |
| FordefiGuarantees.SubmitIsAcceptedIff | rust/src/fordefi/mod.rs:281-306 | In either mode a submit is accepted exactly under the non-blank id of a 2xx answer; a manual one otherwise says why |
| FordefiGuarantees.RecordsTheSubmittedId | rust/src/fordefi/mod.rs:745-767 | An auto run records exactly the id that the answer to its submit names, and clears it again |
| FordefiGuarantees.ErrorsNameTheSubmittedId | rust/src/fordefi/mod.rs:745-767 | Once a submit returned an id, every error is BroadcastUnconfirmed with exactly that id |
| FordefiGuarantees.ReadableIdIsNeverLost | rust/src/fordefi/mod.rs:281-305 | An id readable in an unrefused submit's body reaches the caller with the failing status even if the body is otherwise unusable; a blank id is never taken for one |
| FordefiGuarantees.OneSubmitPerRun | rust/src/fordefi/mod.rs:242-306 | A run submits at most once, first, the message bytes under the configured terms and the key both hash to |
| FordefiGuarantees.OkRestsOnEvidence | rust/src/fordefi/mod.rs:773-802 | Every Ok is slot 0 of the transaction in a completed response, verified under its key 0, with the vault's own slot verified over the same message |
| FordefiGuarantees.SubmittedOnlyWhenUnsigned | rust/src/fordefi/mod.rs:808-829 | An auto run submits exactly a transaction whose sole required signer is the vault and which holds no signature in any slot, once the request can be signed; otherwise it says why |
| FordefiGuarantees.ManualSubmitsWhenFeePayer | rust/src/fordefi/mod.rs:949-957 | A manual run submits exactly when the vault pays the fee and the request can be signed |
| FordefiGuarantees.AutoRunEndsWhenDecided | rust/src/fordefi/mod.rs:333-390 | An auto run ends at the first fetch whose answer is not an open state, or with its budget; the eight failure states and a timeout are unconfirmed failures, and completed succeeds exactly when its transaction is signed by the vault and the fee payer |
| FordefiGuarantees.ManualRunEndsWhenDecided | rust/src/fordefi/mod.rs:922-947 | A manual run ends at the first answer that is not in flight: the eight failure states fail it and leave the transaction alone, signed and completed replace it exactly by a decoded, vault-signed, serializable transaction with its bytes and signature |
| FordefiGuarantees.UnusableStatusSaysWhy | rust/src/fordefi/mod.rs:773-802 | Why a status that ends the poll leads to no signature or replacement |
| FordefiGuarantees.FetchLogSpelled | rust/src/fordefi/mod.rs:333-352 | The fetches ask for the submitted id, with a sleep between them |
| FordefiGuarantees.PollEndsWhenDecided | rust/src/fordefi/mod.rs:357-386 | In either mode the poll goes on exactly while answers are in flight (or, for auto, signed) and budget is left, and reports what the deciding answer says |
| FordefiGuarantees.ReplacementIsAtomic | rust/src/fordefi/mod.rs:922-992 | Manual mode: on success the caller holds the returned transaction, its serialization, a verified vault slot and a truthful tag; on any error what it submitted |
| FordefiGuarantees.ManualIsNeverUnconfirmed | rust/src/fordefi/mod.rs:267-273 | Manual mode reports no unconfirmed broadcast of its own |
| Fordefi.SignAndBroadcastTransaction | rust/src/fordefi/mod.rs:730-768 | The imperative auto run equals its specification, records the submitted id on the pending list and clears it, and leaves the list with the ids it had |
| Fordefi.ModifyAndSignTransaction | rust/src/fordefi/mod.rs:922-992 | The imperative manual run equals its specification, caller's transaction included |
| PendingSlot.SlotIsWhatIsHeld | rust/src/transaction_util.rs:31-43 | In every reachable state of any number of concurrent, finished or cancelled sends, the list holds each id exactly as often as it was recorded and not cleared |
| PendingSlot.OnlyCancelledIdsRemain | rust/src/transaction_util.rs:18-29 | Once no send is running the list holds exactly the ids of cancelled sends |
| PendingSlot.DroppedCallsLeaveTheirId | rust/src/transaction_util.rs:8-16 | A call can be dropped at any time before it ends, and then its id stays on the list |
| PendingSlot.SlotIsInRecordingOrder | rust/src/transaction_util.rs:23-43 | While held ids are pairwise distinct the list is in recording order |
| PendingSlot.OrderIsKeptIff | rust/src/transaction_util.rs:23-43 | In every run, repeated ids included, a step keeps the list in recording order exactly unless it finishes a call whose own entry has another id between it and a copy of its id |
| PendingSlot.EndingCutsItsRank | rust/src/transaction_util.rs:31-43 | The recording order after a call ends is the one before it without exactly the entry at that call's rank |
| PendingSlot.ClearKeepsOrderIff | rust/src/transaction_util.rs:37-43 | Removing the first copy of an id is removing a given later copy exactly when every entry between them is that id |
| PendingSlot.OrderCanBeLost | rust/src/transaction_util.rs:37-43 | A run of four steps that reaches a list out of recording order |
| PendingSlot.PendingTransactionId.Clear | rust/src/transaction_util.rs:37-43 | Removes the first equal entry and nothing else |
| Idempotency.CrossmintPreimageInjective | rust/src/crossmint/mod.rs:544-549 | The length-prefixed pre-image is injective in locator and message, colons included |
| Idempotency.FordefiPreimageInjective | rust/src/fordefi/mod.rs:443-456 | With colon-free vault and fee strings the pre-image determines mode, chain, vault, rendered fee and message |
| Idempotency.FordefiCollisionIffPrefix | rust/src/fordefi/mod.rs:447-455 | Any two sets of terms collide on some messages exactly when mode and chain agree and one rendering of vault and fee starts with the other |
| Idempotency.ColonFreeTermsCollideIff | rust/src/fordefi/mod.rs:447-455 | Colon-free terms collide with others on some messages exactly when mode and chain agree and the others' rendered vault and fee start with theirs |
| Idempotency.ColonInVaultCollides | rust/src/fordefi/mod.rs:447-455 | A vault id ending in a colon collides with the one without it |
| Idempotency.CanonicalFeeInjective | rust/src/fordefi/mod.rs:43-63 | Pipe-free fees render alike exactly when they are equal up to absent against empty |
| Idempotency.FeeIsNamedIffPipeFree | rust/src/fordefi/mod.rs:43-63 | The rendering of a fee names it among all fees, up to absent against empty, exactly when its own strings are pipe-free |
| Idempotency.PipeInFeeCollides | rust/src/fordefi/mod.rs:46-53 | A pipe in a fee string makes two different fees render alike; the exact condition is FeeIsNamedIffPipeFree |
| Idempotency.SameKeyIffSame122Bits | rust/src/transaction_util.rs:49-65 | Two digests give one key exactly when they agree on the 122 bits the UUID keeps |
| Idempotency.KeyIsVersion4 | go/core/canonical.go:39-43 | Every key is a dashed version-4 UUID |
| Idempotency.KeySpellsTheDigest | rust/src/transaction_util.rs:49-65 | The key spells the first sixteen digest bytes in order in lower-case hex, bytes 6 and 8 masked for version and variant |
| Idempotency.CrossmintPreimageSpelled | rust/src/crossmint/mod.rs:544-549 | The pre-image is the name, the locator length in plain decimal, the locator and the message |
| Idempotency.FordefiPreimageSpelled | rust/src/fordefi/mod.rs:443-456 | The pre-image is the name, mode, chain, vault, fee and message |
| Idempotency.CanonicalFeeSpelled | rust/src/fordefi/mod.rs:43-63 | The text of every kind of fee |
| Replays.ReplaysExecuteAtMostOnce | rust/src/crossmint/mod.rs:649-653 | Any number of replays of one message under one locator, with any losses and failures, executes at most once at a deduplicating provider |
| Replays.AutoReplaysExecuteAtMostOnce | rust/src/fordefi/mod.rs:417-421 | The same for Fordefi auto under one set of terms |
| Replays.DifferentSendsGetDifferentKeys | rust/src/crossmint/mod.rs:544-549 | Without a hash collision on the two pre-images, keys are equal exactly for the same locator and message |
| Replays.DifferentSubmitsGetDifferentKeys | rust/src/fordefi/mod.rs:443-456 | Without a hash collision and with delimiter-free terms, submits share a key exactly when mode, chain, vault, fee and message agree |
| Replays.BlindRetriesExecuteAtMostOnce | rust/src/transaction_util.rs:67-85 | A caller that retries only after errors other than BroadcastUnconfirmed, through Crossmint and Fordefi auto in any mixture, never has more than one request that may have led to a transaction; no deduplication is assumed |
| Transactions.RunsKeepTheTransaction | rust/src/signature_util.rs:96-105 | Any sequence of verify-then-attach runs keeps the message, leaves unwritten slots alone, and every written slot verifies over the caller's message under the key at that slot |
| Transactions.FailureBeforeAttachmentChangesNothing | rust/src/turnkey/mod.rs:228-239 | A failed run has changed the transaction exactly when it got a verified signature for a required key that the transaction did not hold; then only the final serialization failed |
| Transactions.AttachFrame | rust/src/transaction_util.rs:176-193 | An attachment writes one slot, pads with unsigned slots and changes nothing else |
| Transactions.AttachmentReports | go/core/sign.go:64-73 | The result of an attachment carries the serialization and that very signature, complete exactly when every required slot is filled |
| Transactions.ExtractReturnedIff | rust/src/signature_util.rs:64-105 | The signature taken from a returned transaction is the one where our key signs there, at any index, exactly when filled and verified over the submitted message |
| Transactions.ExtractRewrittenIff | rust/src/signature_util.rs:107-121 | A rewritten transaction is taken exactly when our key signed its own message in it |
| Transactions.UntakenTransactionsSayWhy | rust/src/signature_util.rs:64-121 | Why a returned or rewritten transaction is not taken: it does not decode, our slot is missing, or it does not verify |
| Transactions.NoPositionIsExplained | rust/src/transaction_util.rs:153-173 | Too few keys, or a key that is not a required signer |
| Transactions.OrderIndependent | rust/src/transaction_util.rs:176-193 | Lists naming the same required signers, in any order and with repetitions, end in the same transaction |
| Transactions.CompleteExactlyWhenAllSigned | rust/src/transaction_util.rs:196-219 | From an unsigned transaction, the result is complete exactly when no key is required twice and every required key signed |
| Transactions.PartialUntilTheLast | go/core/txutil.go:51-72 | Along any permutation of distinct required signers the result is partial until the last one and complete exactly then |
| Transactions.CompletableIffKeysDistinct | go/core/txutil.go:21-47 | An unsigned transaction can be completed by its signers exactly when its required keys are distinct |
| Transactions.Transaction.SigningPosition | go/core/txutil.go:21-32 | The scan finds the first required position of the key or reports why there is none |
| Transactions.Transaction.AddSignature | go/core/txutil.go:36-47 | Growing and writing the slots equals the attachment on values; an error changes nothing |
| Transactions.Transaction.HasAllRequiredSignatures | rust/src/transaction_util.rs:196-207 | True exactly when every required slot is filled |
| Transactions.Transaction.AttachSignature | go/core/sign.go:64-73 | Placing, serializing and classifying in place equals the same on values |
| Transactions.Transaction.SignWith | go/core/sign.go:147-166 | The signer is asked once, for exactly the message bytes, and what it produced is attached |
| Transactions.Transaction.SignWithReturned | go/core/sign.go:36-73 | One signing run: extract, verify over the caller's message, attach, serialize, classify |
| SendGate.SendsOnceAndOnlyWhenComplete | rust/src/send.rs:24-90 | Behind every kind of signer (signing the bytes directly, extracting from a returned transaction, rewriting), a sign-and-send run sends at most once, and only the serialization of a fully signed transaction with a filled slot 0 |
| SendGate.SendFailureIsUnconfirmed | rust/src/send.rs:81-89 | After a send, success is returned verbatim and failure as BroadcastUnconfirmed under the slot-0 signature |
| SendGate.UnsentRunsSayWhy | rust/src/send.rs:33-36 | A run that sends nothing passes on the signer's error or reports a partial result; a fully signed one is sent |
| SendGate.GateSpelled | rust/src/send.rs:56-90 | Behind any signer: a partial result or a missing fee-payer signature is not sent, and a failed send is unconfirmed under slot 0 |
| SendGate.Slot0GuardNeverRejects | rust/src/send.rs:74-80 | Behind attaching, extracting and rewriting signers the slot-0 guard never rejects: complete results are always sent |
| SendGate.SignersTellTheTruth | rust/src/transaction_util.rs:210-219 | A successful signing result is the serialization of the transaction left behind, tagged truthfully |
| SendGate.SignAndSendTransaction | go/core/sign.go:88-132 | The imperative Go function over any signer equals its specification, its own text on a failed send included; without send a signer that cannot broadcast is not called, and with a broadcasting signer send is not called |
| SendGate.GoNeverWastesASignature | go/core/sign.go:88-145 | Whatever the signer answers, it is called at most once and exactly when what it signs can be used; send gets only what the signer called complete under a filled slot 0; a broadcast without a signature is an error. That a sending signer leaves the transaction untouched is an assumption (go/core/types.go:94-96) |
| SendGate.BroadcastComesThrough | go/core/sign.go:89-99 | A broadcasting signer's signature and error come through as they are; only a default signature becomes an error |
| SendGate.GoRefusalsSayWhy | go/core/sign.go:101-126 | Which interface is called, and what is reported without a capability, without send, for a signing error, a partial result and a missing fee-payer signature |
| SendGate.GoRefinesRust | go/core/sign.go:112-131 | Behind the signers of the library the Go function leaves the same transaction and makes the same sends as the Rust one; results are equal exactly unless a send failed with another text than Go's own, and then only the text differs |
| SendGate.SignAndSendAttaching | rust/src/memory/mod.rs:94-107 | Sign-and-send behind a signer that signs the message bytes directly equals its specification and asks that signer once |
| SendGate.SignAndSendExtracting | rust/src/send.rs:24-36 | The imperative sign-and-send behind a returned transaction equals its specification |
| SendGate.ModifyAndSend | rust/src/send.rs:42-54 | The imperative modify-and-send equals its specification |
| Batch.ConcurrencyIsBounded | go/core/batch.go:26-29 | In every reachable state at most MaxConcurrency tasks hold a slot |
| Batch.SuccessIsTheMap | go/core/batch.go:24-48 | A batch that ends without error returns, for every i, the result of signing item i |
| Batch.FinishedBatchDecides | go/core/batch.go:57-85 | Unless the caller cancels, a finished batch succeeds exactly when every item signs, and otherwise returns an item's own error |
| Batch.ErrorIsTheFirstFailure | go/core/batch.go:44-47 | The helper returns an error exactly when a task failed, and it is that of the task that failed first in time |
| Batch.OnlyWaitingTasksAreGivenUp | go/core/batch.go:109-128 | A cancelled group gives up exactly the tasks that hold a slot granted before their turn and have not started their call |
| Batch.CancelledIff | go/core/batch.go:24-29 | A group is cancelled exactly when its caller cancelled it or a task failed, and stays so |
| Batch.StartsWhenDue | go/core/batch.go:109-128 | No call starts before start+i*delay, and under a prompt scheduler it starts at the later of that and its slot grant |
| Batch.DelaysDoNotCompound | go/core/batch.go:103-117 | With slots granted at the start every call has started by start+(n-1)*delay |
| Batch.NoDeadlock | go/core/batch.go:31-44 | From every reachable unfinished state some working step is enabled after at most one wait |
| Batch.StepsUseUpWork | go/core/batch.go:31-43 | At every point of every run, working steps taken, replies saved by giving up and work remaining add up to 3n, and the batch is finished exactly when none remains |
| Batch.SignSequential | go/core/batch.go:87-101 | The sequential form returns exactly the results before the first failure, makes no call beyond it and none after an interrupted delay |
| Polling.PollUntilIsFirstDecisive | rust/src/remote_util.rs:37-57 | poll_until is decided by its first decisive attempt or times out after exactly max attempts |
| Polling.AttemptLogShape | rust/src/remote_util.rs:32-50 | Fetches and sleeps alternate and the last event is a fetch, so no sleep follows the last attempt |
| Polling.GoAgrees | go/signers/fireblocks/client.go:248-278 | The Go loop is poll_until, event for event, exactly when no sleep of the poll is cut short; otherwise it ends on the first cut sleep with the cancellation |
| Polling.EndsWhenDecided | rust/src/remote_util.rs:43-56 | After k pending attempts the next one settles the poll, uses up its budget or is followed by another |
| Polling.PollUntilLoop | rust/src/remote_util.rs:37-57 | The imperative loop equals its specification |
| Polling.PollGoLoop | go/signers/fireblocks/client.go:247-281 | The Go loop equals its specification |
| Fireblocks.PollForCompletion | rust/src/fireblocks/mod.rs:335-383 | The Rust poll equals its specification over the pair table |
| Fireblocks.PollForSignature | go/signers/fireblocks/client.go:247-281 | The Go poll equals its specification over the two switches |
| Fireblocks.RustAndGoAgree | rust/src/fireblocks/mod.rs:335-383 | For every mode, budget, answer stream and cancellation both implementations give the same verdict through the same fetches and sleeps exactly when, at every attempt the Rust poll reaches, the sleep before it is not cut short and the decoders agree on its answer |
| Fireblocks.TablesAgreeIff | go/signers/fireblocks/client.go:254-272 | The pair table and the two switches read an answer alike exactly when the decoders agree on it, or on its kind where its contents are not returned |
| Fireblocks.TablesFollowKind | rust/src/fireblocks/mod.rs:351-380 | In both clients every status has the verdict of its kind: returned, escaped, failed or pending |
| Fireblocks.StatuslessAnswersFail | go/signers/fireblocks/client.go:225-240 | An answer without a status fails both polls with its own reason |
| Fireblocks.EmptyBodyDivides | go/signers/fireblocks/client.go:74-80 | An empty object is malformed for Rust and pending for Go |
| Fireblocks.UnconfirmedExactlyOnBroadcast | rust/src/fireblocks/mod.rs:351-369 | In either client, each in its own loop, BroadcastUnconfirmed is reported under the polled id exactly by a PROGRAM_CALL that gets to an attempt showing BROADCASTING, CONFIRMING or COMPLETED, in Go with no sleep before it cut short; never in RAW |
| Fireblocks.CutSleepHidesABroadcast | go/signers/fireblocks/client.go:258-278 | A cancelled context makes the Go poll miss a broadcast that the next status would show |
| Fireblocks.SelectVaultAddressRust | rust/src/fireblocks/mod.rs:190-218 | Chooses an address exactly when the eligible addresses are that one, and reports none or the exact count otherwise |
| Fireblocks.SelectVaultAddressGo | go/signers/fireblocks/client.go:170-193 | The same specification for the map-plus-list scan |
| Fireblocks.DecidesIsUnique | go/signers/fireblocks/client.go:182-192 | The specification has one answer, so the two scans agree on every input |
| Fireblocks.SelectionIgnoresOrder | rust/src/fireblocks/mod.rs:186-204 | Entry order and duplicates do not matter |
| Fireblocks.IdentitySpelled | rust/src/fireblocks/mod.rs:190-204 | An address counts exactly when some entry lists it, not empty, for no asset, an empty one or ours |
| CanonicalJson.SortIsCanonical | rust/src/wallet_jwt.rs:44-60 | Two values with distinct keys sort alike exactly when they differ only in object key order, at any depth |
| CanonicalJson.SortIsIdempotent | rust/src/wallet_jwt.rs:44-60 | Sorting a sorted value changes nothing |
| CanonicalJson.SortedKeysAscend | go/signers/privy/authorization.go:277-283 | In a sorted value the keys of every object, at any depth, ascend by code point |
| CanonicalJson.LessIsLexicographic | rust/src/wallet_jwt.rs:47-48 | The key order is decided by the code point at the first difference |
| JsonText.RenderReadsBack | rust/src/wallet_jwt.rs:77-80 | A reader written from RFC 8259 reads every printed value back, whatever punctuation follows it |
| JsonText.EscapedIff | go/signers/privy/authorization.go:301-311 | Exactly quote, backslash, controls and, in Go, the two line separators are escaped |
| JsonText.SortedTextIdentifies | rust/src/wallet_jwt.rs:77-80 | For both encoders, two values sorted and printed give one text exactly when they differ only in object key order |
| WalletJwt.HashedTextIdentifies | rust/src/wallet_jwt.rs:63-84 | Two bodies have one hashed text exactly when both are absent, null or empty, or they differ only in key order |
| WalletJwt.ReqHashBindsTheBody | rust/src/wallet_jwt.rs:63-84 | Nothing is hashed exactly for an absent, null or empty-object body; otherwise the hash is the lower-case hex of the digest of a text that reads back as the body with ascending keys |
| WalletJwt.ReqHashIdentifies | rust/src/wallet_jwt.rs:82-83 | Without a digest collision on the two texts, the same for the hash in the token |
| JsonText.QuoteReadsBack | go/signers/privy/authorization.go:303-311 | A string literal of either encoder is read back as the string it was written for, whatever follows it |
| PrivyPayload.CanonicalizeIsRenderOfSort | go/signers/privy/authorization.go:257-299 | Printing canonically is sorting and then printing |
| PrivyPayload.CanonicalTextIdentifies | go/signers/privy/authorization.go:257-299 | Two values print to one text exactly when they differ only in object key order |
| PrivyPayload.PayloadIdentifies | go/signers/privy/authorization.go:145-172 | Two requests have one signed payload exactly when all parts agree up to key order, the empty-object body reading as the empty string |
| PrivyPayload.PayloadReadsBack | go/signers/privy/authorization.go:145-172 | The payload reads back as one object with ascending keys whose members are the version, method, url, body and headers of the request |
| UriComponent.EncodeUriComponent | rust/src/remote_util.rs:70-96 | The loop computes the percent-encoding |
| UriComponent.EncodedByteSpelled | rust/src/remote_util.rs:75-93 | Exactly letters, digits and nine marks stay literal; any other byte becomes a percent sign and two upper-case digits |
| UriComponent.RoundTrip | go/core/remote.go:73-89 | Every byte string survives encoding and decoding |
| UriComponent.EncodeAppends | rust/src/remote_util.rs:70-96 | Encoding distributes over concatenation |
| UriComponent.EncodeIsSafe | rust/src/remote_util.rs:75-93 | The encoding emits no slash, question mark or hash |
| UriComponent.UnescapedIffUnreserved | rust/src/remote_util.rs:75-90 | A segment is left unescaped exactly when all its bytes are unreserved |
| UriComponent.DotSegmentsStayLiteral | rust/src/remote_util.rs:75-88 | "." and ".." are not escaped |
| UriComponent.PathSurvivesParserIff | rust/src/crossmint/mod.rs:256-274 | Behind a URL parser that removes dot-segments (section 5.2.4 of RFC 3986) the path still splits back into its parts exactly when no part is "." or ".." |
| UriComponent.DotDotLeavesTheWallets | rust/src/crossmint/mod.rs:265-271 | The locator ".." makes the parsed path leave the wallets collection |
| UriComponent.BuildWalletsUrl | rust/src/crossmint/mod.rs:256-274 | The built URL is the prefix and the encoded parts joined by slashes |
| UriComponent.UrlPrefixSpelled | rust/src/crossmint/mod.rs:264-265 | Trailing slashes of the base are dropped and the versioned collection follows |
| UriComponent.PathSplitsBack | rust/src/crossmint/mod.rs:265-271 | The path splits back into exactly the locator and segments |
| UriComponent.UrlsAreInjective | go/signers/crossmint/client.go:144-162 | For one base, equal URLs name equal locators and segments |
| Sanitize.IdempotentIffRoomForPlaceholder | go/core/errors.go:196-216 | Sanitizing is idempotent on every input exactly when maxLength is at least 23 |
| Sanitize.SanitizedIsClean | go/core/errors.go:183-216 | The result is never empty, has no ASCII control character and at most maxLength+12 runes (or is the placeholder) |
| Sanitize.SanitizedSpelled | go/core/errors.go:196-216 | Plain text within the limit is unchanged, longer plain text is cut at the limit and marked, and text in which nothing is visible becomes the placeholder |
| Sanitize.NormalizedSpelled | go/core/errors.go:177-206 | Normalized text is visible characters and single spaces, with a visible character at each end; within the text only U+0085 escapes the collapse |
| Sanitize.VisibleTextSurvives | go/core/errors.go:187-206 | Normalizing changes only whitespace and control characters |
| Sanitize.NormalTextIsKept | go/core/errors.go:208-214 | Normal text within the limit is returned as it is |
| Sanitize.SanitizeRemoteResponse | go/core/errors.go:196-216 | The rune loop computes the specification |
| HexComponents.SignatureFromComponents | go/core/signature.go:62-82 | Accepts exactly the lengths the padding mode allows and places each component right-aligned in its half |
| HexComponents.PaddingKeepsTheNumbers | go/core/signature.go:78-81 | Each half spells the number its component spelled |
| HexComponents.SameSignatureIffSameNumbers | go/core/signature.go:58-82 | Two component pairs assemble to one signature exactly when they spell the same two numbers |

## Left out

- HTTP clients, headers, timeouts, redirects, TLS policy and `read_body_capped`: a call is a transport failure or a status with a body, and a body may be unreadable.
- Ed25519, P-256, RSA, SHA-256, HKDF, base58, base64, JWT signing and the Solana wire format: arbitrary functions in `Core.Primitives`. Message serialization is total there, as in Rust; the Go failure of `MarshalBinary` on a message is not modelled.
- JSON decoding of provider responses: the typed form of a body is given per client, so the decoding rules of serde and of Go (case-insensitive field names among them) are not modelled; lemmas that compare the clients say which agreement they need.
- Error display, redaction, logging and the interpolated parts of failure texts.
- One-shot signers (AWS KMS, GCP KMS, Vault, Para, Openfort, Turnkey, Dfns, CDP, memory, Ledger): their single request is not modelled; what they do with its answer is `SendGate.Attaching` or `SendGate.Extracting`.
- Config constructors, availability probes, wallet lookup, base-URL normalization and Fordefi's vault check: single-branch checks.
- Hex decoding and the optional `0x` prefix of signature components: `HexComponents` starts from the decoded bytes.
- Fordefi black-box and message signing: they broadcast nothing and sign without a rewrite, so retry safety and replacement do not arise. The Go Fordefi client is not part of this model.
- Fireblocks signature extraction: the Rust and Go clients pick the signature from different places by design, so there is no common statement. `generateAuthorizationSignatures` collects one signature per key and sign function over one payload, in list order; the payload is what is proved to identify the request.
- The routing of `SignTransactions` to its sequential or concurrent form by `HasServerSideEffects`: a single branch.
- Time is an integer clock; Go duration overflow and timer inaccuracy are not modelled. The prompt scheduler of the exact start times is an assumption of those clauses only.
- Sanitize.SanitizeRemoteResponse: takes a natural number as limit, because the Go code panics on a negative one for non-empty text; invalid UTF-8 input has already become U+FFFD.
- CanonicalJson.SortIsCanonical: orders keys by code point, which is the bytewise order of their UTF-8 forms; invalid UTF-8 keys are not modelled.
- PrivyPayload.PayloadIdentifies: the error path for a body that cannot be marshalled is not modelled, because a `Json` value always can.
- Crossmint.ExecuteManagedTransaction: dropping the Rust future midway is not a step of this method; the steps it leaves behind on the pending list are those of `PendingSlot`.
- Mutex poisoning: the list's lock is atomic.
