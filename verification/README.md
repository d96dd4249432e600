# ossx verification

A Dafny model of `pkg/ossx`, an object storage layer: a `Store` that checks each request, runs the
adapter call through a retry loop inside a circuit breaker (one breaker per operation name), and offers
multipart upload sessions, over an in-memory adapter. Four linked pieces are modelled and proved:

- **Retry and breaker** (`Errors`, `Retry`, `Breaker`, `Outage`, `Runs`, `Isolation`, `OwnBreakers`): the bounded retry
  loop, the three-state breaker driven by an explicit clock, their agreement, what any interleaving of calls does to
  a breaker, how many adapter calls an outage can cause, and the breakers of different operations kept apart.
- **The in-memory store** (`Memory`, `InMemory`, `Listing`, `StoreSpec`, `Store`, `Refusals`, `Refinement`, `Walks`): the
  adapter as functions on its state, as a class over shared byte slices and maps, and the store above it
  as a refinement of a plain map; token pagination, also while the store changes.
- **Multipart uploads** (`Text`, `Parts`, `Accesses`, `Uploads`, `Staging`, `Concurrent`, `Sequential`): upload ids, staged
  parts, and a transition system in which any number of operations of any number of sessions interleave between
  their checks, their mark, their adapter calls and their return.
- **Checksums** (`Digests`, `ChecksumReader`, `Invariants`, `VerifiedReads`): the verifying stream reader, the agreement of
  streaming and one-shot digests, and the invariant that every stored checksum is valid.

`Keys`, `Policy` and `Config` hold the key rules, the permission and retention gates, and the configuration
checks that these proofs rely on. `Arith` and `Wrappers` are helpers.

Code that changes state is a class or a method whose contract equates the new state with a function of the old
one (`Breaker.CircuitBreaker`, `ChecksumReader.ChecksumReader`, `InMemory.InMemoryAdapter`, `Store.Store`,
`Store.MultipartSession`, the loops in `Retry.WithRetry`, `Parts.SortParts`, `Policy.ValidateKeyPolicy`). What the
source promises is then proved about those functions.

What the code does not control is a parameter. A context is the sequence of what successive looks at it show;
the clock is a function from readings to times; a body reader is the sequence of what each read-to-end finds,
bytes and then EOF or an error; a digest is a fold over bytes; UTF-8 validity is a predicate; the adapter under
the retry loop and in the interleaving system is arbitrary unless a statement names the in-memory one. Times
and durations are whole nanoseconds, 64-bit wrap-around and saturation included in the retention gate.

Where the code and its comments disagree, the model follows the code:

- `pkg/ossx/helpers.go:88` says that the reader is closed on a checksum mismatch. It is not: the error is
  returned once and later reads go on (`ChecksumReader.ChecksumReader.Read`).
- `pkg/ossx/inmemory.go:319` says that completing concatenates the staged parts. The stored body is empty, so that
  holds if and only if every staged part is empty (`Staging.ConcatenatesIff`); the size that Complete returns is
  the size a Head reports if and only if it is zero (`Staging.ReportedSizeIff`).
- `pkg/ossx/multipart.go:24-25` says that missing or inconsistent parts are rejected. What was staged is never
  looked at (`Staging.StagedPartsIgnored`): an inconsistent list is rejected exactly when it is not the full
  ordered set 1..n (`Staging.InconsistentRejectedIff`).
- `pkg/ossx/multipart.go:201` unmarks a failed Complete so that it can be tried again. If an Abort has finished
  meanwhile, its mark goes too (`Concurrent.AbortMarkLost`; exactly when: `Concurrent.StaysMarkedIff`).
- The adapter copies maps in and out except in `InitiateMultipart`, which keeps the caller's own maps
  (`InMemory.ChangedAfterInitiate`). A caller's write to a map reaches the adapter exactly when it changes the map
  and a live upload was initiated with it (`InMemory.CallerWrites`).
- `Put` and `UploadPart` retry with the reader where the failed attempt left it, so an upload can succeed with part
  of the content missing (`Refinement.PutCompleteIff` and `Staging.PartCompleteIff` say exactly when it does not).
- Retention is kept exactly up to 106751 days; beyond that the product with 24h wraps (`Policy.RetentionKeptIff`).
- A continuation token whose key is no longer listed restarts the listing (`Listing.TokenHonouredIff`).

`dafny verify dfyconfig.toml` checks the project.

## Model

| member | source | states |
|---|---|---|
| Errors.BuiltErrorsAgree | pkg/ossx/errors.go:45-52 | on every error tree whose typed nodes come from the constructors the two tests agree |
| Errors.WrappingRules | pkg/ossx/errors.go:102-121 | annotating keeps the class of an error, wrapping replaces it by the class of the new kind: four transient kinds are retried, a cancellation is fatal, the rest fail for good; what the constructors make has a flag that matches its kind |
| Errors.HandMadeErrorDisagrees | pkg/ossx/errors.go:57-64 | a hand-made exported Error makes the loop's test and the breaker's test disagree |
| Retry.WithRetry | pkg/ossx/retry.go:67-97 | the loop computes the recursive run that the exact law below characterises: state, error and requested waits |
| Retry.RetryLawExact | pkg/ossx/retry.go:56-97 | a run is lawful, and only the run of withRetry is: each call under a context live at the look before it and, from the second on, during the backoff; on the state the last one left; after retryable failures only and the backoffs due; ended by its last call or by the context, whose error is then the cause |
| Retry.RetryLaw | pkg/ossx/retry.go:56-97 | so at most MaxAttempts calls, all but the last failed retryably, and nil exactly when the last call succeeded |
| Retry.DelayExact | pkg/ossx/retry.go:44-54 | the wait before an attempt is the greatest whole number of nanoseconds within MaxWait and InitialWait*M^(k-2), none before the first |
| Retry.PolicyHonoursConfig | pkg/ossx/retry.go:24-42 | positive retry settings are kept, the others become 3 attempts, 100 ms, 5 s and a factor of 2 |
| Retry.DelayMonotone | pkg/ossx/retry.go:44-54 | waits never shrink from attempt to attempt when the multiplier is at least one |
| Retry.BackoffBound | pkg/ossx/retry.go:45-96 | each wait is within MaxWait, and one run's waits total at most (MaxAttempts-1)*MaxWait and at most the geometric sum |
| Breaker.CircuitBreaker.Allow | pkg/ossx/retry.go:130-147 | admission and the move to half-open, as functions of the breaker and the clock |
| Breaker.CircuitBreaker.RecordSuccess | pkg/ossx/retry.go:149-154 | clears the counter and closes |
| Breaker.CircuitBreaker.RecordFailure | pkg/ossx/retry.go:156-164 | counts and opens from the threshold on, stamping the time |
| Breaker.CircuitBreaker.Do | pkg/ossx/retry.go:168-181 | admission, the retry run and what is recorded, as one function |
| Breaker.CountsExactlyIff | pkg/ossx/retry.go:168-181 | over one adapter call, failures are recorded exactly for exhausted runs, under every policy and context, if and only if every error that a retry loop can see from it has a flag that matches its kind |
| Breaker.BuiltIsTrustworthy | pkg/ossx/errors.go:102-110 | adapters whose errors all come from the constructors meet that condition |
| Breaker.DoLaw | pkg/ossx/retry.go:67-181 | over every adapter call with such errors: refused without a call, or closed exactly on a last success, one failure counted exactly when MaxAttempts calls all failed retryably, otherwise unchanged (half-open stays half-open) |
| Breaker.HistoryRefined | pkg/ossx/retry.go:130-164 | in every interleaving the counter is the number of failures since the last success, the breaker is closed exactly below the threshold, and openedAt is the latest failure |
| Breaker.AdmittedIff | pkg/ossx/retry.go:120-147 | on a breaker made with given numbers (5 and 30 s for those not positive), whether a call is admitted depends on that history and those numbers alone |
| Breaker.NoEarlyAdmission | pkg/ossx/retry.go:130-164 | no admission within the configured cooldown of a tripping failure unless a success came in between |
| Breaker.HalfOpenAdmitsAll | pkg/ossx/retry.go:136-143 | after the configured cooldown any number of calls is admitted until one records a result |
| Outage.OutageLoadBound | pkg/ossx/retry.go:67-181 | calls one after another, none cancelled, on a fresh breaker made with the configured numbers, while every attempt fails retryably: the adapter calls of those that start in a window of width W number at most MaxAttempts*(threshold + floor(W/cooldown)) |
| Runs.TripsAtThreshold | pkg/ossx/retry.go:120-164 | on a fresh store, after k exhausted runs of an operation, a call within the configured cooldown of the last is admitted if and only if k is below the configured threshold |
| OwnBreakers.OwnBreakersOnly | pkg/ossx/blobstore.go:107-130 | what an operation stores and answers depends on no breaker but its own, and it changes no other operation's |
| Isolation.QuietRuns | pkg/ossx/blobstore.go:107-130 | after any sequential run over the in-memory adapter, whatever contexts and readers, every breaker but those of put and multipart_upload_part is as new |
| Isolation.OnlyReadersCanTrip | pkg/ossx/blobstore.go:107-130 | so in such runs no other operation is ever refused by an open circuit |
| Isolation.InterleavedQuiet | pkg/ossx/retry.go:168-181 | the same of every interleaving of admissions and ends of do calls, each attempt finding the adapter as others left it: the breaker of an operation that reads no body never counts a failure and admits every call |
| Isolation.FailingReaderCounts | pkg/ossx/inmemory.go:61-64 | a reader that fails at every attempt does count against put |
| Store.BreakerTable.BreakerFor | pkg/ossx/blobstore.go:107-116 | one breaker object per operation name: found again or newly made, all others untouched |
| Store.BreakerTable.Run | pkg/ossx/blobstore.go:119-130 | a run changes the breaker of its own operation only, as the breaker's do says |
| Digests.AbsorbConcat | pkg/ossx/helpers.go:119-123 | writing a stream in any two cuts is writing it whole |
| Digests.HexEncodeDecodes | pkg/ossx/helpers.go:55-69 | byte i of a digest is read back from the two hexadecimal digits at 2i and 2i+1, in lower case |
| Digests.BigEndianValue | pkg/ossx/helpers.go:63-65 | the four bytes of a CRC-32 read as a big-endian number give it back |
| Digests.CrcTextAgrees | pkg/ossx/helpers.go:63-65 | eight-digit hexadecimal text of a CRC-32 is the hexadecimal text of its four big-endian bytes |
| Digests.StreamedIsOneShot | pkg/ossx/helpers.go:54-83 | the streaming digest and the one-shot checksum agree for every supported algorithm and content |
| Digests.InferInvertsCompute | pkg/ossx/inmemory.go:414-427 | guessing the algorithm from the length of a computed checksum gives it back |
| ChecksumReader.ChecksumReader.Read | pkg/ossx/helpers.go:119-134 | delivers the base bytes; verified exactly when EOF was met with a matching digest of everything delivered; a mismatch is reported at the first EOF only |
| ChecksumReader.ReadAll | pkg/ossx/helpers.go:85-134 | for every base stream and every buffer size, reading to the end delivers exactly the content and ends verified or in the checksum error |
| Keys.SplitInverse | pkg/ossx/object.go:31-50 | splitting a key cuts at every slash and nowhere else |
| Keys.ValidKeyHasNoTraversal | pkg/ossx/object.go:28-50 | an accepted key has no empty, dot or dot-dot segment between any two slashes, and no slash at its ends |
| Keys.NewKeyExact | pkg/ossx/object.go:31-50 | exactly the keys of 1 to 1024 bytes of UTF-8 in which no segment is empty, dot or dot-dot are accepted; the others fail for the first thing wrong with them |
| Keys.MetadataFitsIff | pkg/ossx/object.go:83-96 | metadata passes exactly when it has at most 64 entries, non-empty keys and values of at most 2048 bytes |
| Keys.HasPrefixIff | pkg/ossx/blobstore.go:430-432 | a key has a prefix exactly when it is the prefix followed by something |
| Policy.KeyPolicyError | pkg/ossx/policy.go:12-34 | nil exactly for keys outside all denied prefixes and inside an allowed one, if any are given |
| Policy.ValidateKeyPolicy | pkg/ossx/policy.go:15-34 | the scanning loops decide exactly that |
| Policy.RetentionKeptIff | pkg/ossx/policy.go:36-52 | objects are protected exactly while younger than MaxDays days if and only if MaxDays is at most 106751 |
| Policy.RetentionOff | pkg/ossx/policy.go:40-52 | no refusal without a mode, without days or without a creation time; governance and compliance are modes |
| Config.ConstructedIsSound | pkg/ossx/blobstore.go:74-104 | every accepted configuration has MaxParts of at least one and the other bounds, and filling defaults again changes nothing |
| Config.AcceptedIff | pkg/ossx/config.go:140-214 | exactly which configurations are accepted, before any default is filled in |
| Config.DefaultsFilled | pkg/ossx/config.go:237-253 | every setting that is not zero is kept, and the defaults are these numbers |
| Text.UploadIdInjective | pkg/ossx/inmemory.go:267-268 | the text of an upload id determines its number and its key |
| Text.SortedUnique | pkg/ossx/helpers.go:28-34 | there is one ascending listing of a set of keys, so map iteration order is invisible |
| Text.LessIff | pkg/ossx/helpers.go:28-34 | the order is byte order: one string is before another exactly when at the first difference it ends or has the smaller byte |
| Text.DecimalIsUsual | pkg/ossx/inmemory.go:267-268 | the numeral in an upload id has only digits, no leading zero, and stands for its number |
| InMemory.CopyStringMap | pkg/ossx/helpers.go:17-26 | a fresh map with the same entries, nil for nil |
| InMemory.SortedInfos | pkg/ossx/helpers.go:28-34 | a permutation in key order, strictly ascending when the keys are distinct |
| Memory.TagsIdentify | pkg/ossx/inmemory.go:66-182 | stored objects have equal ETags exactly when their contents have equal MD5 texts, and none has that of a multipart object |
| Memory.PartTagsIdentify | pkg/ossx/inmemory.go:279-298 | parts have equal ETags exactly when number and MD5 text are equal |
| InMemory.InMemoryAdapter.PutObject | pkg/ossx/inmemory.go:55-89 | the state and answer of Memory.PutObject; everything stored is fresh and shared with no one |
| InMemory.InMemoryAdapter.GetObject | pkg/ossx/inmemory.go:92-117 | the stored body and info, as fresh copies |
| InMemory.InMemoryAdapter.HeadObject | pkg/ossx/inmemory.go:120-142 | the stored info with fresh maps |
| InMemory.InMemoryAdapter.DeleteObject | pkg/ossx/inmemory.go:145-159 | removes the key; a missing key is an error only when strict |
| InMemory.InMemoryAdapter.CopyObject | pkg/ossx/inmemory.go:162-204 | stores and answers the copy with its overrides, sharing nothing with the source or the caller |
| InMemory.InMemoryAdapter.ListObjects | pkg/ossx/inmemory.go:207-254 | the page of Memory.PageOf, whatever the map iteration order, with fresh maps |
| InMemory.InMemoryAdapter.InitiateMultipart | pkg/ossx/inmemory.go:261-276 | issues the next id and keeps the caller's own maps |
| InMemory.InMemoryAdapter.UploadPart | pkg/ossx/inmemory.go:279-298 | files the part under its number; a failed read changes nothing stored |
| InMemory.InMemoryAdapter.ListParts | pkg/ossx/inmemory.go:301-317 | the staged parts in ascending order |
| InMemory.InMemoryAdapter.CompleteMultipart | pkg/ossx/inmemory.go:320-361 | publishes the object with fresh copies of the maps as they are now and releases the upload |
| InMemory.InMemoryAdapter.AbortMultipart | pkg/ossx/inmemory.go:364-372 | releases the upload; nothing else changes |
| InMemory.InMemoryAdapter.Close | pkg/ossx/inmemory.go:402-412 | empties and closes; a second call changes nothing |
| InMemory.ChangedAfterPut | pkg/ossx/inmemory.go:65-88 | changing the map passed to a put, or the maps returned by it, does not reach the stored object |
| InMemory.ChangedAfterInitiate | pkg/ossx/inmemory.go:269-274 | changing the map passed to an initiate, with whatever options, does reach the object that its completion publishes |
| InMemory.CallerWrites | pkg/ossx/inmemory.go:269-274 | in every state a caller's write to a map leaves the adapter's contents unchanged if and only if it writes what was there or no live upload was initiated with that map; stored objects are never reached |
| Listing.PageLaw | pkg/ossx/inmemory.go:231-253 | a page whose token is listed holds the next matching keys in ascending order and misses none up to its own token |
| Listing.PageFills | pkg/ossx/blobstore.go:332-335 | a page has as many of the keys left as the requested size has room for, 1000 if that is not 1 to 1000, each described as stored, and is truncated exactly when some are left out |
| Listing.WalkUnderChange | pkg/ossx/inmemory.go:207-254 | however the store changes between pages, a walk whose tokens are still stored when used returns strictly increasing keys, and every key present at all fetches exactly once |
| Listing.TokenHonouredIff | pkg/ossx/inmemory.go:232-240 | a page has only keys beyond its token exactly when the token is listed or all matching keys are beyond it anyway |
| Listing.WalkOfFixedStore | pkg/ossx/blobstore.go:325-346 | on an unchanged store a token walk ends after PageCount pages whose items are the sorted matching keys |
| Listing.PageCountIsCeiling | pkg/ossx/blobstore.go:332-335 | that count is max(1, ceil(n / page size)) |
| Walks.ListAnswers | pkg/ossx/blobstore.go:325-346 | in a reachable open store List with a live context answers exactly the adapter's page, whatever failed before |
| Walks.ReachableWalk | pkg/ossx/blobstore.go:325-346 | so a walk through List covers the matching keys of any reachable state |
| Parts.SortParts | pkg/ossx/inmemory.go:430-436 | in place: sorted by number and a permutation |
| Parts.CollectParts | pkg/ossx/inmemory.go:311-316 | for any iteration order the result is the one ascending listing of the table |
| Parts.ListingUnique | pkg/ossx/inmemory.go:300-317 | a table of parts has only one strictly ascending listing |
| Parts.PartsAcceptedIff | pkg/ossx/multipart.go:174-189 | Complete's checks pass exactly for parts 1..n in order, all with tags, within MaxParts |
| Parts.PartsRefused | pkg/ossx/multipart.go:174-189 | a refused list is empty, or the error is that of its first entry with a wrong number or no tag, or it is longer than MaxParts |
| Parts.ValidateParts | pkg/ossx/multipart.go:174-189 | the loop decides exactly that |
| Parts.FullTableCompletes | pkg/ossx/inmemory.go:300-339 | a table that holds exactly the parts 1..n is listed as exactly n ascending parts, the list is accepted, and the returned size is the sum |
| Staging.StagedTable | pkg/ossx/inmemory.go:279-298 | over every sequence of adapter calls that leaves the upload alive, its table holds exactly the last content read under each number |
| Staging.StagedPartsComplete | pkg/ossx/inmemory.go:279-349 | so parts 1..n staged in any order, with any re-uploads, failures and other calls in between, are listed as exactly n parts with the last tag and size of each, are accepted, and the returned size is the sum |
| Staging.UploadPartEffect | pkg/ossx/multipart.go:118-149 | through a session, under every context, breaker and reader, a part is returned exactly when it was staged, with what the first read that did not fail gave |
| Staging.UploadPartSucceeds | pkg/ossx/multipart.go:118-149 | on an open store with a live upload, a live context, an admitting breaker and fewer failed reads than attempts, UploadPart succeeds if and only if the number is in 1..MaxParts |
| Staging.InitiateSucceeds | pkg/ossx/multipart.go:87-116 | likewise Initiate succeeds if and only if the key is valid and permitted and the metadata fits |
| Staging.InitiatedIsOpen | pkg/ossx/multipart.go:87-116 | a session's Initiate that returns an id leaves a live upload under it, with that key, those options and an empty table |
| Staging.TableIsReturned | pkg/ossx/multipart.go:118-149 | whatever else happens to the store, the staged table is exactly the part that UploadPart returned last for each number, and the upload keeps its key and options |
| Staging.TurnReturns | pkg/ossx/multipart.go:118-149 | a part in bounds uploaded at any point with a live context, an admitting breaker and few enough failed reads is then the last one returned for its number |
| Staging.SessionCompletes | pkg/ossx/multipart.go:118-208 | so once parts 1..n have been returned, the session's ListParts gives exactly those parts ascending and its Complete of that list succeeds with the sum of their sizes |
| Staging.CompletePublishes | pkg/ossx/inmemory.go:320-361 | a Complete that succeeds publishes under the upload's key, and nowhere else, an object with its content type, metadata and tags, created when Complete called the adapter; one that fails publishes nothing |
| Staging.UploadPublishes | pkg/ossx/multipart.go:87-208 | from Initiate through any turns that leave the upload alone to a successful Complete: Head describes the options given to Initiate and the time of the Complete, and a Delete within MaxDays of the Complete is refused |
| Staging.PartCompleteIff | pkg/ossx/multipart.go:133-137 | a returned part has the size of everything the reader delivered if and only if no failed read delivered a byte |
| Staging.ConcatenatesIff | pkg/ossx/inmemory.go:319-349 | the published body is the concatenation of the staged parts if and only if all of them are empty |
| Staging.ReportedSizeIff | pkg/ossx/inmemory.go:335-353 | Complete returns the size that a Head then reports if and only if the submitted sizes add up to zero |
| Staging.StagedPartsIgnored | pkg/ossx/inmemory.go:320-350 | Complete of the adapter succeeds if and only if it is open and the upload is live; the staged table changes neither its result nor what it leaves |
| Staging.InconsistentRejectedIff | pkg/ossx/multipart.go:24-26 | a part list that is not the listing of the staged parts is rejected exactly when it is not the full ordered set 1..n within MaxParts |
| Store.Store.Put | pkg/ossx/blobstore.go:143-182 | checks in order, then one run; new state, rest of the reader and result |
| Store.Store.Get | pkg/ossx/blobstore.go:185-213 | checks, run, and the verifier when asked for and possible |
| Store.Store.Head | pkg/ossx/blobstore.go:289-309 | checks and run |
| Store.Store.Exists | pkg/ossx/blobstore.go:312-322 | Head with a missing object turned into false |
| Store.Store.Delete | pkg/ossx/blobstore.go:216-256 | the Head and retention gate, then the delete, with a missing object forgiven unless strict |
| Store.Store.Copy | pkg/ossx/blobstore.go:259-286 | checks on both keys, policy on the target only, then the run |
| Store.Store.List | pkg/ossx/blobstore.go:325-346 | page sizes outside 1..1000 become 1000, then the run |
| Store.Store.Close | pkg/ossx/blobstore.go:383-392 | the flag and one adapter close |
| Refusals.RefusalExact | pkg/ossx/blobstore.go:143-286 | what each operation finds wrong with its arguments, in its order, told by key segments, metadata bounds, offered algorithms, prefixes and part numbers; always the caller's fault, never retryable, never counted, never a missing object |
| Refusals.ContextErrorExact | pkg/ossx/blobstore.go:396-407 | an operation stops at its entry exactly when its context has ended: a timeout if the deadline passed, otherwise cancelled, with the context's error as the cause |
| Refusals.RefusedChangesNothing | pkg/ossx/blobstore.go:143-346 | a closed store, an ended context or a refused argument leaves adapter, breakers and guards as they were |
| Refinement.RequestMatches | pkg/ossx/blobstore.go:143-322 | one request with a live context and a reader that does not fail, on a store that represents a table, answers what the table answers and represents its successor |
| Refinement.StoreRefinesMap | pkg/ossx/blobstore.go:143-322 | every sequence of such puts, gets, heads, exists, copies (also onto the source) and deletes on a new store gives the replies, refusals included, and the contents of the reference map |
| Refinement.PutStoresTheRest | pkg/ossx/blobstore.go:173-177 | after failed reads within MaxAttempts a put succeeds and stores only what its last read delivered |
| Refinement.PutCompleteIff | pkg/ossx/blobstore.go:173-177 | the stored body is everything the reader delivered if and only if no failed read delivered a byte |
| Refinement.DeleteSparesTheYoung | pkg/ossx/blobstore.go:226-248 | with 1..106751 days of retention no delete, strict or not, cancelled or not, removes a younger object; with a live context it is refused |
| Refinement.RetentionAgrees | pkg/ossx/policy.go:40-52 | the gate refuses exactly protected objects, so an older one is never refused |
| Invariants.GateInvariant | pkg/ossx/multipart.go:94-131 | in every reachable state every stored key and every upload's key passed the key rules and the permission policy, and staged part numbers are in 1..MaxParts under their own index |
| Invariants.ChecksumInvariant | pkg/ossx/inmemory.go:65-76 | through any chain of puts, copies and completions every stored checksum is the checksum of the stored body |
| Invariants.VerifiedGetMatches | pkg/ossx/blobstore.go:207-211 | in a reachable state a verified Get hands out a verifying reader exactly for an object with a checksum, and its content streams to the expected digest |
| VerifiedReads.ReadToEnd | pkg/ossx/helpers.go:85-134 | reading what a verified Get returned to its end, in reads of any size, gives the stored body without error, and ChecksumVerified is set exactly when the object has a checksum |
| Invariants.ChecksAllow | pkg/ossx/blobstore.go:150-164 | the checks of an operation's arguments admit only adapter calls with permitted keys, algorithms, part numbers and part lists |
| Store.MultipartSession.MarkDone | pkg/ossx/multipart.go:74-85 | true for the first of any calls with one id until it is unmarked |
| Store.MultipartSession.Initiate | pkg/ossx/multipart.go:87-116 | checks in order, then one run |
| Store.MultipartSession.UploadPart | pkg/ossx/multipart.go:118-149 | number bounds, the run, and the checks of the returned part |
| Store.MultipartSession.ListParts | pkg/ossx/multipart.go:151-165 | checks, then one run |
| Store.MultipartSession.Complete | pkg/ossx/multipart.go:167-208 | checks, mark or conflict, run, unmark on failure |
| Store.MultipartSession.Abort | pkg/ossx/multipart.go:210-232 | mark whatever was there, run, keep the mark |
| Uploads.IdsNeverRepeat | pkg/ossx/inmemory.go:261-276 | over every sequence of adapter calls no id is issued twice |
| Uploads.PublishedOnce | pkg/ossx/inmemory.go:320-350 | over every sequence of adapter calls an id is published at most once |
| Uploads.AbortIsFinal | pkg/ossx/inmemory.go:364-372 | once an issued id is aborted no later adapter call publishes it |
| Uploads.IdsPartition | pkg/ossx/inmemory.go:261-372 | until Close the issued ids are exactly the live, the published and the aborted ones, disjointly |
| Uploads.SettledIsMissing | pkg/ossx/inmemory.go:279-372 | UploadPart, ListParts and Complete of a published or aborted id fail as not found, Abort succeeds, and nothing changes |
| Uploads.ClosedForGood | pkg/ossx/inmemory.go:401-412 | from Close on the adapter is empty and unchanged; later calls get the closed error, or nil where idempotent |
| Concurrent.AtMostOneCompletion | pkg/ossx/multipart.go:190-207 | in every interleaving over any adapter at most one Complete of an id in a session is in flight past the mark or successful |
| Concurrent.SuccessIsFinal | pkg/ossx/multipart.go:74-85 | after a success every Complete of that id in that session that reaches the mark returns the conflict |
| Concurrent.StaysMarkedIff | pkg/ossx/multipart.go:190-218 | a mark stays for good exactly when no Complete of that upload is in flight that may still fail |
| Concurrent.AbortMarkLost | pkg/ossx/multipart.go:200-218 | a run in which an Abort returned nil and its mark is gone |
| Concurrent.AbortWins | pkg/ossx/multipart.go:210-232 | over the in-memory adapter, once an Abort of an already issued id has returned nil no Complete of it that starts later succeeds, in any session |
| Concurrent.IssuedIdsPartition | pkg/ossx/inmemory.go:261-372 | the partition of issued ids at every moment of every run before Close |
| Concurrent.OneSuccessAcrossSessions | pkg/ossx/multipart.go:167-208 | over the in-memory adapter one id is completed at most once across all sessions |
| Concurrent.ClosesOnce | pkg/ossx/blobstore.go:383-392 | however many Close calls race, over any adapter, its Close is called at most once |
| Concurrent.LateStart | pkg/ossx/blobstore.go:132-139 | an operation that starts after the closed flag is set returns ErrClosed (a further Close nil) and never calls the adapter |
| Concurrent.ClearedForGood | pkg/ossx/inmemory.go:401-412 | after the adapter's Close, operations that were past the closed check write nothing |
| Concurrent.GatedInEveryInterleaving | pkg/ossx/blobstore.go:150-163 | in every interleaving of operations that pass their checks and then make their own adapter calls, the gate and checksum invariants hold at every moment |
| Concurrent.AnswersLinearize | pkg/ossx/inmemory.go:55-412 | in every interleaving the answer of every operation that succeeds is the one that the adapter gives a single caller at some moment between the operation's start and its return |
| Sequential.OperationIsRun | pkg/ossx/blobstore.go:143-392 | every operation, undisturbed, is a run of the interleaving system: same adapter, same marks, same answer |
| Sequential.EventsAreRun | pkg/ossx/blobstore.go:143-392 | so is every sequence of operations on a new store, answer by answer |
| Sequential.CompleteIsRun | pkg/ossx/multipart.go:167-208 | an undisturbed Complete is one of the runs of the interleaving system: same result, adapter and marks |
| Sequential.AbortIsRun | pkg/ossx/multipart.go:210-232 | an undisturbed Abort is one of them too |

## Left out

- `adapters/aliyun`: its behaviour is that of an SDK and a remote service.
- Metrics, audit hooks, `SanitizedScope`, tracing: side channels without effect on results.
- Presigned URLs, `Health`, `Config.Sanitize`, environment loading: short chains of gates or I/O.
- Digest algorithms, UTF-8 validity, hexadecimal library code other than what is proved here: Go library code, given as folds and predicates with fixed output lengths.
- Floating-point rounding in `delay`: the multiplier is a real number and the wait is truncated.
- 64-bit overflow of the upload counter, of body sizes and of their sum: unbounded integers.
- Races on the package-level upload counter between different adapters: one adapter, whose counter step is under its lock.
- Byte content of multipart objects: the in-memory adapter does not keep it.
- ObjectInfo's ModifiedAt, StorageClass, Version and Location, and Error's Code: never set or always equal to a modelled field; the quoted values inside some error messages are left out too.
- The StoreAdapter interface: `Store.Store` holds the in-memory adapter's state as a value, tied to the object `InMemory.InMemoryAdapter` by the functions of `Memory` that both implement. Freedom from aliasing is proved for the adapter's parameters and results, not carried on to the maps that pass through the store; there the options of an upload stay as Initiate got them, which `InMemory.CallerWrites` makes exact.
- Retention in `Concurrent`: a Delete there may call the adapter's delete with or without its Head, and may be refused at any time; that young objects are spared is proved of undisturbed deletes (`Refinement.DeleteSparesTheYoung`).
- Retry bounds and breakers in `Concurrent`: an operation there may call the adapter any number of times until a success and may give up at any time, which includes every retry policy, breaker and cancellation.
- The order that `sort.Slice` gives to equal keys: unspecified there, the order of arrival here.
