# Verified model of the verifiable-credential services

A Dafny model of the stateful and concurrent parts of the credential services, with proofs about whole runs:

- **Credential status lists.** `CreateStatusID` hands out slots (a list and an index), `UpdateVC` writes the bit of a
  slot inside an encoded byte array of a signed list credential, and `ValidateVCStatus` reads the bit back.
  `StatusLists.dfy` states the service on values; the classes of `BitString.dfy`, `CslStore.dfy` and
  `CredentialStatus.dfy` work in place as the source does and are proved equal to it, call by call, including every
  error and every store write that fails or that fails and still takes effect. `StatusAnswers.dfy` says which calls
  succeed and how the others are refused; `StatusRuns.dfy` proves what all runs of these calls keep.
- **Event bus and life cycle.** `EventBus.dfy` and `Lifecycle.dfy` are step machines: any number of goroutines call
  Publish, Subscribe and Stop; one goroutine drains the bounded queue into bounded channels; every interleaving of
  the atomic steps is covered, the two-step Subscribe included.
- **Certificate pool.** `CertPool.dfy` is the class with its name index and dirty flag, `CertPoolSteps.dfy` the same
  protocol under any interleaving of Add and Get.
- **OIDC4VP transactions.** `NonceStore.dfy` (one-time nonces with expiry and purges), `OidcVp.dfy` (transaction
  manager and the gate in front of received claims, as classes), `OidcSteps.dfy` (all interleavings of concurrent
  requests, failing stores, clock ticks and purges).
- **Log spec.** `LogSpec.dfy` has the parser, the printer under any map order, and the round trip.

`Wrappers.dfy` and `Text.dfy` hold the shared result types and Go's decimal and string-splitting forms.

## What the proofs found

The model keeps the code as it is. Four promises fail; for each of them lemmas give runs that break it and the exact
condition under which it breaks.

- A lost counter write strands a list. Rollover is tested by equality, so a full list stored without moving the counter
  on is filled past `listSize` (`StatusRuns.BoundKeptIff` is exact, `StatusRuns.LostRolloverOverfills` the shortest
  run). After it, creations that all succeed hand out index after index of that list (`StatusRuns.StrandedRun`), until
  an issued status lies past the bit array and the verifier rejects it (`StatusRuns.LostRolloverIsRejected`;
  `StatusRuns.RevocationIsExact` says that this is the only way to be rejected).
- A Subscribe that tests the state, is overtaken by a complete Stop and then takes the lock writes to a nil map
  (`EventBus.NilMapWriteIff`, `EventBus.SubscribeOvertakenByStop`).
- Publish returns no error for entries that nobody delivers: those still queued when the publisher goroutine takes the
  signal of Stop, which its select may do before it empties the queue, and those queued afterwards by a Publish that
  had tested the state in time (`EventBus.LossIff`, `EventBus.WhatIsLost`, `EventBus.LostBeforeStop`,
  `EventBus.LostAfterStop`). One that meets a full queue then never returns (`EventBus.PublishBlockedByStop`); by
  `EventBus.RestAfterStop` nothing else is left waiting.
- The comment on `CertPool.Get` promises the certificates of any previous Add. A Get that starts after Add returned
  misses one if and only if the pool lacked it then and no pool was swapped before the read, which takes another Get
  that has taken the flag down and not yet rebuilt (`CertPoolSteps.GetAfterAddMissesIff`,
  `CertPoolSteps.OverlappingGetMisses`).

Smaller ones:

- The printed log spec sets back exactly when there is a default level, no module name contains a separator, and all
  levels are among the six named ones (`LogSpec.RoundTripIff`).
- `SetSpec` ignores what follows a second `=`: `a=info=x` sets `a` (`LogSpec.SpecAcceptedIff`). Its comment lists
  "critical" as a level and leaves out two that exist; the model follows `ParseLevel`.
- `GetAndDelete` never reports a store error: the zero document of a failed read counts as expired, so its error
  branch is dead (`NonceStores.TxNonceStore.GetAndDelete` ensures `!failed`).
- `UpdateLatestListID` on a missing counter changes nothing and reports nothing (`CslStores.Store.UpdateLatestListID`).

## Model

| member | source | states |
|---|---|---|
| Text.AtoiOfItoa | pkg/service/credentialstatus/credentialstatus_service.go:118 | every int survives formatting and parsing, so an issued index string parses back to its number |
| Text.AtoiIff | pkg/service/credentialstatus/credentialstatus_service.go:202 | an index string is read exactly when it is a decimal number that fits an int, perhaps with zeros in front and a sign, and then as that number |
| Text.DigitsAreDecimal | pkg/service/credentialstatus/credentialstatus_service.go:118 | an index is written in decimal, most significant digit first, without zeros in front |
| Text.ListKeyInjective | pkg/service/credentialstatus/credentialstatus_service.go:314 | the key of a list determines both its URL and its number |
| Text.ListKeyIsNotCounterKey | pkg/storage/mongodb/cslstore/csl_store.go:22-27 | no list key equals the key of the counter document, so the two kinds never share a document |
| BitStrings.ShiftIsMask | pkg/internal/common/utils/bitstring.go:64-70 | shifting one left by n gives exactly the mask of bit n |
| BitStrings.WriteBitOf | pkg/internal/common/utils/bitstring.go:64-70 | writing bit m of a byte gives it its value and leaves the other seven |
| BitStrings.ByteWritten | pkg/internal/common/utils/bitstring.go:56-73 | the masked byte update of the buffer is an update of one boolean of the sequence it stands for |
| BitStrings.BitLayout | pkg/internal/common/utils/bitstring.go:76-87 | bit p of the buffer is the bit of weight 2 to the p mod 8 in byte p div 8 |
| BitStrings.SetBytesBits | pkg/internal/common/utils/bitstring.go:56-73 | the bytes after Set stand for the old booleans with one replaced, or for the old ones if the position is out of range |
| BitStrings.LastWriteWins | pkg/internal/common/utils/bitstring.go:34-103 | after any sequence of Sets and of trips through the encoding, the bit at p is the last value set at p, or what it was; length and decodability survive, and out-of-range reads are rejected |
| BitStrings.BitString.New | pkg/internal/common/utils/bitstring.go:28-31 | a new bit string holds at least the asked number of bits, fewer than eight more, all clear |
| BitStrings.BitString.DecodeBits | pkg/internal/common/utils/bitstring.go:34-53 | decoding fails exactly when the codec does and otherwise holds exactly the decoded bytes |
| BitStrings.BitString.Set | pkg/internal/common/utils/bitstring.go:56-73 | accepts exactly the positions of the array; the booleans change at that position alone, and not at all when rejected |
| BitStrings.BitString.Get | pkg/internal/common/utils/bitstring.go:76-87 | returns the boolean at the position, or rejects a position outside the array |
| BitStrings.BitString.EncodeBits | pkg/internal/common/utils/bitstring.go:90-103 | what is encoded decodes to the same bytes |
| CslStores.StripRestore | pkg/storage/mongodb/cslstore/csl_store.go:54-59 | a document is stored without the id, and putting the key back on the way out restores the credential exactly when its id was the key |
| CslStores.Store.Upsert | pkg/storage/mongodb/cslstore/csl_store.go:45-67 | the document under the credential's id gets the list's fields and keeps others; no other document changes; a failed write changes nothing unless it took effect |
| CslStores.Store.Get | pkg/storage/mongodb/cslstore/csl_store.go:70-100 | returns the stored fields with the id restored, not-found for a missing document, and for the counter's document a wrapper without a credential whose number is the counter |
| CslStores.Store.CreateLatestListID | pkg/storage/mongodb/cslstore/csl_store.go:102-112 | inserts the counter, and fails without effect if it is there |
| CslStores.Store.UpdateLatestListID | pkg/storage/mongodb/cslstore/csl_store.go:114-126 | moves an existing counter; with none it changes nothing and still succeeds |
| CslStores.Store.GetLatestListID | pkg/storage/mongodb/cslstore/csl_store.go:128-154 | returns the counter, not-found without one |
| CredentialStatus.StoredMeans | pkg/service/credentialstatus/credentialstatus_service.go:216-231 | a signed, serialized, stored and parsed list stands for the same issuer, counters and bits |
| CredentialStatus.LatestProofDecides | pkg/service/credentialstatus/credentialstatus_service.go:384-433 | a list whose latest proof names purpose, method and type is signed again with these, the method only where it is not the profile's own; older proofs do not matter |
| CredentialStatus.UnreadableProofIff | pkg/service/credentialstatus/credentialstatus_service.go:384-445 | the old proof is refused exactly when one of the three entries is no string or the type is unknown |
| CredentialStatus.Service.CreateVC | pkg/service/credentialstatus/credentialstatus_service.go:339-381 | signs a list of max(listSize, 128000) bits rounded up to bytes, all clear, under the given id and the signer's DID; that the DID is the issuer the verifier needs is StatusRuns.RevocationIsExact |
| CredentialStatus.Service.GetCSLWrapper | pkg/service/credentialstatus/credentialstatus_service.go:271-284 | returns the stored list with its parsed credential; not-found, read and parse errors as the abstract lookup says |
| CredentialStatus.Service.GetRevocationListVC | pkg/service/credentialstatus/credentialstatus_service.go:262-269 | returns the stored credential exactly when the list exists and can be read |
| CredentialStatus.Service.GetLatestCSLWrapper | pkg/service/credentialstatus/credentialstatus_service.go:287-337 | refines StatusLists.Obtain: same new state, same error, or a wrapper that stands for the same list |
| CredentialStatus.Service.CommitStatus | pkg/service/credentialstatus/credentialstatus_service.go:118-145 | refines StatusLists.Commit: index handed out, counters stored, counter moved on a full list, for every fate of the two writes |
| CredentialStatus.Service.CreateStatusID | pkg/service/credentialstatus/credentialstatus_service.go:111-146 | refines StatusLists.Create: the class over documents, bytes and signatures and the abstract slot allocator reach the same state and the same answer |
| CredentialStatus.Service.WriteStatusBit | pkg/service/credentialstatus/credentialstatus_service.go:207-214 | rejects a position outside the array, else re-encodes bytes standing for the old bits with one replaced |
| CredentialStatus.Service.SignAndStore | pkg/service/credentialstatus/credentialstatus_service.go:211-231 | the stored list gets the new bits and keeps counters, number and issuer; a signing failure leaves the store alone |
| CredentialStatus.Service.UpdateVC | pkg/service/credentialstatus/credentialstatus_service.go:170-232 | refines StatusLists.Update: same new state and same answer, error cases in the source's order; on success the store holds the credential with its new bit string and no old proof, signed with the options read off the old one |
| CredentialStatus.Verifier.ValidateVCStatus | pkg/service/verifycredential/verifycredential_service.go:180-226 | answers exactly what the abstract verifier answers on the abstract state, error cases in the source's order |
| StatusAnswers.IllDescribedIsRefused | pkg/service/verifycredential/verifycredential_service.go:228-250 | a status that is missing, of another type or without one of the three fields is refused by both services with the error of its first fault, and changes nothing |
| StatusAnswers.UnnamedIsRefused | pkg/service/verifycredential/verifycredential_service.go:186-192 | so is one whose index is no number or whose fields are no strings |
| StatusAnswers.VerifierAnswers | pkg/service/verifycredential/verifycredential_service.go:180-226 | for a status that names a slot: unreadable and missing lists, a foreign issuer, another purpose and a position past the end are refused, each exactly then; otherwise the bit decides |
| StatusAnswers.UpdateAnswers | pkg/service/credentialstatus/credentialstatus_service.go:170-232 | an update succeeds exactly when the list is there and readable, its proof is readable, the position exists, the new list can be signed and the write succeeds; PositionInvalid exactly for a position past the end; no other list and no other bit changes |
| StatusAnswers.CreateAnswers | pkg/service/credentialstatus/credentialstatus_service.go:111-146 | a creation succeeds exactly when every read, build and write it needs does; it returns the next index of the list url/id at the latest number, 1 at first, and moves the number on exactly when the list is full |
| StatusAnswers.FirstStatusNamesIssuer | pkg/service/credentialstatus/credentialstatus_service.go:339-354 | a list that a creation adds is issued by the DID that asked |
| StatusAnswers.CapacityIs | pkg/service/credentialstatus/credentialstatus_service.go:357-363 | a list has 128000 bits up to that size, and above it the bits asked for, rounded up to a byte |
| StatusRuns.ObtainFacts | pkg/service/credentialstatus/credentialstatus_service.go:287-337 | the list handed over has the latest number and the key of the URL, and is fresh exactly when it was not stored |
| StatusRuns.StoredUnderItsID | pkg/service/credentialstatus/credentialstatus_service.go:314 | a list stored under url/id has number id |
| StatusRuns.CreateKeeps | pkg/service/credentialstatus/credentialstatus_service.go:111-146 | whatever fails, a creation keeps the invariant, loses no list, moves no counter back, and a slot it returns was free before and is taken after |
| StatusRuns.RunKeepsInv | pkg/service/credentialstatus/credentialstatus_service.go:111-232 | in every run, with any failures: each list is stored under its own number, no number exceeds the counter, Size equals the next index, and the bit array has full capacity |
| StatusRuns.RunGrows | pkg/service/credentialstatus/credentialstatus_service.go:111-232 | between any two moments of a run no list is lost, the counter and the next indices never decrease, issuers and numbers never change |
| StatusRuns.SlotsAreUnique | pkg/service/credentialstatus/credentialstatus_service.go:111-146 | no two successful creations of a run return the same list and index, over any URLs, list sizes, updates in between and store failures |
| StatusRuns.CreateBits | pkg/service/credentialstatus/credentialstatus_service.go:111-146 | an allocation disturbs no bit, and a list it adds has none set |
| StatusRuns.UpdateBits | pkg/service/credentialstatus/credentialstatus_service.go:170-232 | an update sets the bit it names to the value passed, if it was stored, and disturbs no other bit of any list |
| StatusRuns.BitsAreLastMarks | pkg/service/credentialstatus/credentialstatus_service.go:111-232 | after any run every bit of every list is the last stored mark of its slot, clear without one |
| StatusRuns.ListIssuer | pkg/service/credentialstatus/credentialstatus_service.go:354 | in any run in which one DID asks for all statuses under a URL, it is the issuer of every list under that URL |
| StatusRuns.StatusNamesSlot | pkg/service/credentialstatus/credentialstatus_service.go:137-145 | the status handed out for a slot names its list and its index, for revocation |
| StatusRuns.AnswerToIssuer | pkg/service/verifycredential/verifycredential_service.go:180-226 | in any run with any failures, for any taken slot and any claimed issuer: IssuerMismatch exactly for one other than the list's, PositionInvalid exactly past the bit array, Revoked exactly when the last stored update passed true |
| StatusRuns.RevocationIsExact | pkg/service/verifycredential/verifycredential_service.go:180-226 | the same told the DID that asked for the statuses under the URL: revoked exactly when the last stored update passed true, rejected exactly when the index is past the bit array, accepted otherwise |
| StatusRuns.ForeignIssuerIsRefused | pkg/service/verifycredential/verifycredential_service.go:197-199 | and told any other DID the verifier turns the slot away, revoked or not |
| StatusRuns.RevokedIffLastUpdateSaidSo | pkg/service/verifycredential/verifycredential_service.go:180-226 | without failures, told the DID that asked for the statuses: revoked exactly when the last update passed true, accepted otherwise |
| StatusRuns.BoundKeptIff | pkg/service/credentialstatus/credentialstatus_service.go:123-135 | a creation keeps every Size within listSize, and below it at the latest number, if and only if it does not store a full list without moving the counter |
| StatusRuns.LostRolloverOverfills | pkg/service/credentialstatus/credentialstatus_service.go:127-135 | the run of two calls in which one lost counter write makes a list exceed listSize |
| StatusRuns.StrandedCreate | pkg/service/credentialstatus/credentialstatus_service.go:113-135 | when the counter stands at a full list, a creation without failure returns the list's next index and leaves the counter where it is |
| StatusRuns.StrandedRun | pkg/service/credentialstatus/credentialstatus_service.go:113-135 | after any number m of such creations the list has m more statuses and the counter has not moved |
| StatusRuns.LostRolloverIsRejected | pkg/service/verifycredential/verifycredential_service.go:211-219 | after one lost rollover in any run, creations without failure issue a status whose index is past the bit array, and the verifier rejects its position |
| StatusRuns.FaultlessRunIsBounded | pkg/service/credentialstatus/credentialstatus_service.go:113-135 | without failures the bound holds in every run |
| StatusRuns.FaultlessCallsSucceed | pkg/service/credentialstatus/credentialstatus_service.go:111-232 | without failures every creation succeeds, and so does every update of a taken slot |
| StatusRuns.TakenMeansIssued | pkg/service/credentialstatus/credentialstatus_service.go:113-146 | without failures the indices below each list's Size are exactly the slots issued so far |
| StatusRuns.SizesCountStatuses | pkg/service/credentialstatus/credentialstatus_service.go:113-146 | without failures the Sizes of all lists add up to the number of statuses issued |
| StatusRuns.KthStatus | pkg/service/credentialstatus/credentialstatus_service.go:111-146 | with one URL and no failures the k-th creation returns list 1 + k div listSize, index k mod listSize, whatever updates come between |
| Lifecycles.RunHasShape | pkg/lifecycle/lifecycle.go:84-113 | every interleaving of Start and Stop callers is in one of seven states that fix the state's history, the calls made and who is inside |
| Lifecycles.StateOnlyMovesForward | pkg/lifecycle/lifecycle.go:84-113 | the state goes through its four values in order; the store of Started never overwrites Stopped |
| Lifecycles.FunctionsRunOnceInOrder | pkg/lifecycle/lifecycle.go:84-113 | start runs at most once, stop at most once and only after start has returned |
| Lifecycles.StartedMeansBetween | pkg/lifecycle/lifecycle.go:84-118 | State reads Started exactly between the store that ends Start and the swap that begins Stop |
| Lifecycles.StartedIff | pkg/lifecycle/lifecycle.go:84-98 | the start function has been called if and only if some thread has called Start |
| Lifecycles.StoppedIff | pkg/lifecycle/lifecycle.go:101-113 | the service is stopped if and only if some thread has called Stop when it was started |
| Lifecycles.RestIsSettled | pkg/lifecycle/lifecycle.go:84-113 | when no call can go on, every function that was called has returned and the state is not Starting |
| EventBus.RunKeepsInv | component/event/bus.go:84-185 | the invariant of all interleavings: one stopper, the handshake, the registry, how far closing has come, queue order, and what each channel was sent |
| EventBus.ShutdownIsSafe | component/event/bus.go:84-107 | in every interleaving the publisher goroutine never sends on a closed channel and no channel is closed twice |
| EventBus.ClosedOnlyAfterExit | component/event/bus.go:84-107 | a closed channel means that the handshake is over and the publisher goroutine gone |
| EventBus.EnqueuedIsPublished | component/event/bus.go:131-142 | the queue has been given, in order, exactly the entries of the callers that found the bus started and then found room |
| EventBus.ChannelsAreJoined | component/event/bus.go:111-126 | there is one channel for each registration by a caller that found the bus started and then the map in place, with its topic and its place among the processed entries |
| EventBus.FirstInFirstOut | component/event/bus.go:131-163 | processed entries are always a prefix of the published ones |
| EventBus.DeliveryIsExact | component/event/bus.go:165-185 | what was sent into a channel is the messages of every entry on its topic processed since its registration, in order, except for at most a tail of the entry being sent |
| EventBus.StreamGrows | component/event/bus.go:165-185 | one more processed entry adds its messages to the stream of its own topic and nothing to any other |
| EventBus.SendsUnlessFull | component/event/bus.go:176-184 | the next message is sent to the next subscriber exactly when fewer than 250 wait there |
| EventBus.HandlersSeeTheStream | component/event/subscriber.go:63-89 | a handler has seen a prefix of that stream, and all of it once listen has returned |
| EventBus.RestMeansDelivered | component/event/bus.go:111-185 | a bus that was not stopped only comes to rest when every call has returned, every published entry is processed and every handler has been given all it is due |
| EventBus.RestAfterStop | component/event/bus.go:84-185 | a stopped bus only comes to rest when stop has returned, the goroutine has gone and every listener has returned with all it was due; only a Publish at a full queue still waits |
| EventBus.StoppedIff | pkg/lifecycle/lifecycle.go:101-113 | the bus is stopped if and only if somebody called Stop when it was started |
| EventBus.ExitIsFinal | component/event/bus.go:149-163 | once the publisher goroutine has taken the signal to stop, no entry is processed in any continuation |
| EventBus.LossIff | component/event/bus.go:131-163 | with the goroutine gone some published entry is unprocessed if and only if it took the signal while the queue was not empty, or an entry was queued afterwards |
| EventBus.WhatIsLost | component/event/bus.go:149-163 | the lost entries are those in the queue when the goroutine took the signal and all queued after that |
| EventBus.LostBeforeStop | component/event/bus.go:149-163 | the five-step run in which an entry is lost whose Publish had returned before Stop began |
| EventBus.LostAfterStop | component/event/bus.go:131-142 | the five-step run in which an entry is lost whose Publish was overtaken by Stop |
| EventBus.BlockedForGood | component/event/bus.go:136-139 | a Publish at a full queue stays there in every continuation once the goroutine has taken the signal |
| EventBus.PublishBlockedByStop | component/event/bus.go:131-142 | a run that gets there: 250 entries queued, one more Publish past its state test, then Stop |
| EventBus.NilMapWriteIff | component/event/bus.go:84-126 | a run writes to the nil map if and only if some registration that had found the bus started took its lock after the winner of the swap had left stop |
| EventBus.SubscribeOvertakenByStop | component/event/bus.go:84-126 | the seven-step interleaving in which that happens |
| CertPools.PositionsExact | internal/pkg/tls/certpool.go:78-84 | the index entry of a subject holds exactly the positions of its certificates, once each, increasing |
| CertPools.IndexAddExact | internal/pkg/tls/certpool.go:78-84 | appending a certificate and its position keeps the index exact for every subject |
| CertPools.IndexFindsAll | internal/pkg/tls/certpool.go:118-129 | looking under the subject finds an equal certificate exactly when a scan of all stored ones does |
| CertPools.UnknownInOrder | internal/pkg/tls/certpool.go:117-129 | filtering keeps exactly the non-nil arguments that are not stored, in the order given |
| CertPools.DistinctIsFirstOccurrences | internal/pkg/tls/certpool.go:135-148 | duplicates removed means the first occurrence of each pointer, in order, and nothing else |
| CertPools.AdmittedExactly | internal/pkg/tls/certpool.go:111-148 | one Add admits each non-nil pointer not equal to a stored certificate, once |
| CertPools.BuiltGrows | internal/pkg/tls/certpool.go:99-105 | the pool built from more of the queue extends the pool built from less |
| CertPools.BuiltHoldsAll | internal/pkg/tls/certpool.go:99-105 | a rebuilt pool holds exactly the system's and the queued certificates |
| CertPools.CertPool.Get | internal/pkg/tls/certpool.go:49-63 | the pool returned is built from every stored certificate; a pool returned earlier is left as it was |
| CertPools.CertPool.SwapCertPool | internal/pkg/tls/certpool.go:90-108 | the loop builds a fresh pool from the whole queue |
| CertPools.CertPool.Add | internal/pkg/tls/certpool.go:66-88 | the queue grows by exactly the admitted certificates, the index stays exact, and dirty is set if there were any |
| CertPools.CertPool.FilterCerts | internal/pkg/tls/certpool.go:111-133 | the search through the index admits what a full scan would, in order |
| CertPools.CertPool.RemoveDuplicates | internal/pkg/tls/certpool.go:135-148 | the loop keeps the first occurrences |
| CertPoolSteps.RunKeepsInv | internal/pkg/tls/certpool.go:49-108 | the invariant of all interleavings of Add and Get |
| CertPoolSteps.MissingIsAnnounced | internal/pkg/tls/certpool.go:49-108 | if a stored certificate is missing from the pool then dirty is set, or an Add is inside its locked region before setting it, or a Get has won the swap and not yet replaced the pool |
| CertPoolSteps.QuiescentPoolIsComplete | internal/pkg/tls/certpool.go:49-108 | with no call in progress and dirty clear the pool holds exactly the system's and all added certificates |
| CertPoolSteps.RestMeansReturned | internal/pkg/tls/certpool.go:49-108 | no thread waits for good: when nothing can move every Add and Get has returned, and the pool is complete unless dirty is set |
| CertPoolSteps.SwapBegins | internal/pkg/tls/certpool.go:49-57 | a Get goes on to rebuild exactly when it found dirty set, and leaves it clear |
| CertPoolSteps.ReturnedPoolsGrow | internal/pkg/tls/certpool.go:49-108 | pools returned one after the other only grow |
| CertPoolSteps.HeldIff | internal/pkg/tls/certpool.go:90-108 | between any two moments of a run a stored certificate gets into the pool if and only if some Get swaps pools |
| CertPoolSteps.GetMissesIff | internal/pkg/tls/certpool.go:49-63 | what one Get returns lacks a certificate stored at its swap of the flag if and only if the pool lacked it then and no Get swapped pools between that swap and its read |
| CertPoolSteps.MissFoundFlagDown | internal/pkg/tls/certpool.go:51-57 | a Get before whose read nobody swapped pools had found dirty clear |
| CertPoolSteps.GetAfterAddMissesIff | internal/pkg/tls/certpool.go:46-88 | the same for a Get that starts after the Add of the certificate has returned; a miss means that dirty was clear and another Get had won its swap and not yet swapped pools |
| CertPoolSteps.FilterAgreesWithScan | internal/pkg/tls/certpool.go:111-133 | at every moment of every interleaving filtering through the index equals a full scan |
| CertPoolSteps.OverlappingGetMisses | internal/pkg/tls/certpool.go:46-63 | the interleaving in which a Get started after Add returned misses its certificate |
| NonceStores.TxNonceStore.GetAndDelete | pkg/storage/mongodb/oidcnoncestore/tx_nonce_store.go:70-89 | the nonce is gone and its transaction returned exactly when it was stored and unexpired; store errors are never reported |
| NonceStores.TxNonceStore.SetIfNotExist | pkg/storage/mongodb/oidcnoncestore/tx_nonce_store.go:92-115 | stores the nonce unless any document, expired or not, is there; nothing else changes |
| NonceStores.PurgeInvisibleIff | pkg/storage/mongodb/oidcnoncestore/tx_nonce_store.go:80 | a purge is invisible to the map of unexpired nonces if and only if all it drops expired strictly before now |
| NonceStores.TakeRefines | pkg/storage/mongodb/oidcnoncestore/tx_nonce_store.go:70-89 | consuming answers from the unexpired nonces alone and removes the nonce from them |
| NonceStores.PutRefines | pkg/storage/mongodb/oidcnoncestore/tx_nonce_store.go:92-115 | setting adds to the unexpired nonces; it says false exactly when a document is stored, and then changes nothing |
| NonceStores.FailuresGiveNoAnswer | pkg/storage/mongodb/oidcnoncestore/tx_nonce_store.go:70-115 | a failed call answers nothing, and has the effect asked for or none |
| NonceStores.PurgeTimingIrrelevant | pkg/storage/mongodb/oidcnoncestore/tx_nonce_store.go:70-115 | two stores driven by the same calls, clock and store failures but purged differently give the same answers and hold the same unexpired nonces, as long as each SetIfNotExist inserted in both or in neither |
| NonceStores.LatePurgeOnlyRefuses | pkg/storage/mongodb/oidcnoncestore/tx_nonce_store.go:92-115 | one store inserts and the other does not only because the other still holds the expired document, and then it answers false |
| OidcVp.TxStore.Create | pkg/storage/mongodb/oidc4vptxstore/oidc4vp_tx_store.go:52-76 | adds one transaction without claims, and no other changes |
| OidcVp.TxStore.Update | pkg/storage/mongodb/oidc4vptxstore/oidc4vp_tx_store.go:105-141 | sets the claims of an existing transaction and nothing else |
| OidcVp.TxManager.TryCreateTxNonce | pkg/service/oidc4vp/txmanager.go:128-145 | at most ten attempts; success returns a nonce without a document before and mapped to the transaction after, expiring one life time after that attempt, everything else unchanged; exhaustion adds nothing and all ten candidates were in use |
| OidcVp.TxManager.CreateTx | pkg/service/oidc4vp/txmanager.go:73-90 | success adds one transaction and one nonce that leads to it until its time of setting plus the interaction's life time; any error leaves at most that transaction and one such nonce behind; nothing else ever changes |
| OidcVp.TxManager.CreateAndRedeem | pkg/service/oidc4vp/txmanager.go:73-126 | the nonce of a created transaction yields that transaction at any time up to the end of its life time, nothing after it, and nothing a second time |
| OidcVp.TxManager.StoreReceivedClaims | pkg/service/oidc4vp/txmanager.go:92-94 | sets the claims of the named transaction alone, for every fate of the write |
| OidcVp.TxManager.GetByOneTimeToken | pkg/service/oidc4vp/txmanager.go:111-126 | the nonce is spent whatever comes of it; the transaction is the one it led to |
| OidcVp.Service.CheckVCSubject | pkg/service/oidc4vp/oidc4vp_service.go:372-403 | true exactly when every credential has a readable subject ID and the sub of its JWT, or the subject ID if it has none, is the signer, in any iteration order |
| OidcVp.GateIff | pkg/service/oidc4vp/oidc4vp_service.go:269-356 | claims pass exactly when the profile is known, the presentation verifies without a failed check, matches the definition without its JWT, and, if the profile asks for it, every credential is about the signer in that sense |
| OidcVp.Service.ExtractClaimData | pkg/service/oidc4vp/oidc4vp_service.go:326-370 | for any token: claims are stored exactly when the cleared presentation matches, passes the subject check if the profile asks for it, and the transaction exists; no other transaction changes |
| OidcVp.Service.VerifyOIDCVerifiablePresentation | pkg/service/oidc4vp/oidc4vp_service.go:250-302 | the nonce is always spent; claims reach the named transaction exactly when the nonce was its own and unexpired and the gate opened; each refusal up to the failed checks exactly in its case; nothing else changes but the JWT of a verified presentation, which is cleared |
| OidcSteps.RunKeepsInv | pkg/service/oidc4vp/txmanager.go:73-145 | the invariant of all interleavings: each transaction has one right to be completed, in one place |
| OidcSteps.OneNoncePerTransaction | pkg/service/oidc4vp/txmanager.go:73-145 | at most one nonce is ever set for a transaction |
| OidcSteps.OneRequestPerTransaction | pkg/service/oidc4vp/txmanager.go:111-145 | while a request works on a transaction no other does, no nonce leads to it and no claims were stored for it |
| OidcSteps.ClaimsStoredOnce | pkg/service/oidc4vp/oidc4vp_service.go:250-370 | claims are stored at most once per transaction, under any concurrency, failures and purges |
| OidcSteps.OnlyAdmissibleClaims | pkg/service/oidc4vp/oidc4vp_service.go:250-403 | stored claims come from a request that consumed the nonce of that transaction before it expired, asked for that transaction, verified without failed checks, matched its definition and met the profile's subject check |
| OidcSteps.ReceivedIsWhatWasStored | pkg/service/oidc4vp/oidc4vp_service.go:358-361 | a transaction has claims exactly when such a request stored those claims |
| OidcSteps.CreatedInTurn | pkg/service/oidc4vp/txmanager.go:73-90 | a thread that meets no failure creates the transaction and its nonce, and nothing else |
| OidcSteps.AttemptedInTurn | pkg/service/oidc4vp/txmanager.go:128-145 | a free candidate is set and ends the call, one in use changes nothing and the call goes on while attempts are left |
| OidcSteps.ServedInTurn | pkg/service/oidc4vp/oidc4vp_service.go:250-361 | a thread that meets no failure stores claims exactly when the nonce had not expired, was presented for its own transaction and the gate opens |
| LogSpec.LevelNamesParseBack | internal/pkg/log/logger.go:37-74 | a level parses back from its name exactly when it is one of the six named levels |
| LogSpec.ParsesIff | internal/pkg/log/logger.go:57-74 | the accepted names are those of the six levels and WARNING, all capitals or all small letters |
| LogSpec.LevelNumbers | internal/pkg/log/logger.go:57-84 | which of zapcore's numbers each name stands for |
| LogSpec.AcceptedIff | internal/pkg/log/logger.go:193-216 | a list of parts is accepted exactly when every part names a level and at most one part is a default |
| LogSpec.SpecAcceptedIff | internal/pkg/log/logger.go:186-216 | the accepted strings are exactly the parts, joined by ':', that are each a level or module=level, perhaps with a second '=' and anything after it, at most one of them a bare level |
| LogSpec.WrittenSpecParses | internal/pkg/log/logger.go:178-216 | modules with their levels in any accepted spelling, then a default, say exactly that |
| LogSpec.AcceptedSpecMeans | internal/pkg/log/logger.go:218-226 | each named module gets its last listed level, the default the explicit one or INFO unless a pair names it, and every other module keeps its own |
| LogSpec.ModuleLevels.SetSpec | internal/pkg/log/logger.go:186-229 | all or nothing: a rejected spec changes no level, an accepted one applies what was parsed |
| LogSpec.LevelAfterSpec | internal/pkg/log/logger.go:218-226 | after an accepted spec every module answers with its last listed level, else the level of its own that it had, else the new default: the last one listed for the empty module, the explicit one, or INFO |
| LogSpec.ModuleLevels.GetSpec | internal/pkg/log/logger.go:239-253 | the loop prints the pairs in whatever order the map yields, the default last |
| LogSpec.PrintThenSet | internal/pkg/log/logger.go:186-253 | for every iteration order, setting the spec printed from a clean state overrides any other state with it |
| LogSpec.RoundTripIff | internal/pkg/log/logger.go:186-253 | printing and setting back works, for every order and every other state, if and only if there is a default, no module name has a separator and all levels are named |

## Left out

- Concurrent CreateStatusID and UpdateVC calls: the source reads, changes and writes a list without a lock, so the results about lists are for calls one after the other.
- gzip and base64 are a codec that loses nothing; signing keeps id, issuer and subject, and what a signer returns serializes and parses back to the same list; the names of the signature types are a parameter.
- A change of signature format: a list stored as a JWT and signed again by a profile that has moved to linked-data proofs may keep its old JWT when serialized, which is up to the credential library and not part of this model.
- Lists with malformed subjects or encodings, which the service never stores: the casts and decoding errors on its own lists are not modelled; a custom field holding null is modelled as a missing one.
- HTTP transport of a list from the issuing to the verifying service, and its proof check: the verifier reads the issuer's store.
- UpdateVCStatus and GetCredentialStatusURL, which only parse and forward; UUIDs of statuses.
- Widths: an index parses only within a Go int, but Size and the counter do not wrap around at 64 bits.
- Event bus and life cycle have no class: their behaviour is the interleaving of goroutines, which is modelled on values, one atomic step at a time, so aliasing of the subscriber slices is not captured.
- Event bus: progress (a full subscriber buffer can block Stop), the data an event copy shares with its original, the process dying from the nil-map write, and handler errors, which are only logged.
- Certificate pool: loading the system pool always succeeds and yields the same certificates; two certificates with the same bytes have the same subject.
- The stored certificates are not claimed to be free of equal ones: the source compares pointers within one Add and filters before it locks, so equal certificates behind different pointers, or from racing Adds, are stored twice.
- Nonces: whether the database purges a document at the very instant it expires is outside the repository (NonceStores.PurgeInvisibleIff says when it matters); the clock is past the zero time; set-up of the expiry index.
- OIDC4VP: random nonces, the database's ids and the clock are parameters; failing to decode a stored transaction counts as a failed read.
- Transaction store: serializing claims never fails, and a malformed id counts as one that is not there.
- InitiateOidcInteraction, request objects, RetrieveClaims and event payloads: they build values from a transaction.
- Log: the map that All reads after releasing its lock, and the wiring of zap.
- pkg/service/oidc4vc, component/oidc/fositemongo, controllers, generated code, key management, webhooks and start-up: single-branch checks, field copying and plumbing.
