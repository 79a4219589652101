# Chuvar, verified

A Dafny model of the parts of Chuvar where consent is decided and kept: the signing broker, the scope
algebra and its SQL form, the transactional store, the review queue and its event stream, and the
enrollment gate for second factors. Each module models one component and proves what it promises over all
inputs, all runs or all interleavings.

* **Scopes and disclosure.** `Scopes` is the dotted scope algebra. `LikeFilter` is its translation into
  escaped `LIKE` patterns, with a model of `LIKE` (section 9.7.1 of the PostgreSQL manual). `Disclosure` is
  the depth rule of the read path and of the duplicate check.
* **Broker.** `HeaderFolding` and `CommitParser` are the commit-object parser, `Base64` and `SshSig` the
  signature encoding (RFC 4648; section 5 of RFC 4251; section 2 of PROTOCOL.sshsig), `RateLimiter` the
  sliding window with its in-place compaction, `Cache` the grant cache, `CacheProtocol` its race between
  reloads and revocations, `Broker` the two operations and `BrokerRuns` whole runs of them.
* **Store.** `FactStore` has the statements of committing and rejecting diffs, `FactRuns` and
  `FactDuplicates` what their interleavings keep, `FactOperations` the operations run alone. `Consent`,
  `ConsentRuns` and `ConsentOperations` do the same for grants and grant requests. `DataKeys` is the
  creation and rewrapping of data keys, `FixedWindow` the proposal counter.
* **Review queue.** `Cursor` is the list cursor (RFC 4648 section 5, RFC 3339 section 5.6), `Pagination` the
  keyset walk, `EventStream` one poll, `ApproverModel` the approver's queue, `Replica` the agreement of the
  two, `Served` the handler's loop and the items shown, `PendingWindow` the bounded listing under insertion
  and decision.
* **Enrollment.** `Enrollment` has the handlers around reviewer tokens and passkeys, `EnrollmentRuns` their
  whole runs, `EnrollmentRace` the statements of minting interleaved with all of them.

Objects whose methods update fields are classes; each method is proved against a function of the old state,
and the properties are lemmas about those functions. Concurrent behaviour is a state machine over
statements: row locks, conditional updates evaluated after a lock wait, writes that appear at commit, and an
abort possible at any step.

## What the proofs found

* A renewal compares the expiry with the start of its transaction, so one begun in time and delayed past the
  expiry brings a lapsed grant back, although the comment on `RenewGrant` says a lapsed grant cannot be
  reinstated. `ConsentRuns.DelayedRenewalRevives` is such a run. It can happen if and only if no instant
  between the grant's expiry and now bounds every expiry its open renewals can still set
  (`ConsentRuns.LapsedComesBackIff`).
* A renewal can also change the scopes a subject is granted at that instant, exactly when the grant's being in
  force changes with its expiry and some scope of it comes at its depth from no other grant
  (`ConsentRuns.RenewalKeepsGrantedScopes`).
* The gate of `createToken` and its insert are separate statements. One at a time, a single mint can succeed
  with no factor proven. Interleaved, `k` more can exactly while the gate is open or while `k` mints in flight
  finished reading it open (`EnrollmentRace.UnprovenMintsIff`).
* The tombstone lifetime is exactly the bound needed: with any longer gap between a snapshot and its swap a
  removed grant can come back (`CacheProtocol.SafeIffGapWithinTombstoneLife`).
* Two overlapping commits can leave two active facts of equal content, as the comment in `CommitDiff` says.
  Contents stay distinct throughout a run if and only if no commit adds content that another added since its
  own check (`FactDuplicates.DistinctThroughoutIff`).
* The event stream can announce a pending row as resolved, exactly when a seen row has a full window of
  pending rows before it; in a run it never can if and only if no row is inserted before the end of a full
  window whose last row was seen (`PendingWindow.NeverMisleadsIff`).
* A cursor whose year does not take four digits does not come back (`Cursor.CursorRoundTripIff`).
* `Grant.Active` and the SQL test differ on an unrevoked grant exactly at the instant of its expiry, so a
  listing then shows as active what grants nothing (`ConsentRuns.ShownIsGrantedIff`).

## Model

| member | source | states |
|---|---|---|
| Scopes.KindsPartitionValidScopes | backend/internal/scope/scope.go:143-259 | the memory and the capability validators accept disjoint halves of the valid scopes and together all of them, told apart by a colon |
| Scopes.ValidScopeHasOneDelimiter | backend/internal/scope/scope.go:111-172 | in a valid scope splitting at the first colon and at every colon agree, so the cut is unambiguous |
| Scopes.ValidIffSpelled | backend/internal/scope/scope.go:99-259 | the valid scopes are exactly those of a grammar: dotted words, then perhaps a target of allowed characters that climbs nowhere, in at most 256 characters; memory scopes have no target and capability scopes have one |
| Scopes.OpCoversIsSegmentPrefix | backend/internal/scope/scope.go:266-271 | ancestor matching is prefixing segment by segment, never inside a segment |
| Scopes.CoversMeaning | backend/internal/scope/scope.go:286-296 | coverage holds exactly when targets are identical or both absent and the operation is the same or a dotted ancestor |
| Scopes.CoversIsPartialOrder | backend/internal/scope/scope.go:286-296 | coverage is reflexive, antisymmetric and transitive |
| Scopes.CoversStaysInKind | backend/internal/scope/scope.go:212-296 | a grant never covers a valid scope of the other kind |
| Scopes.Missing | backend/internal/scope/scope.go:312-325 | the loop returns exactly the uncovered scopes, each once in first-appearance order, and none exactly when the request is satisfied |
| Scopes.SatisfiedMeaning | backend/internal/scope/scope.go:332-334 | a request is satisfied exactly when every one of its scopes is covered by some grant, with an equal target and an operation that the grant's is a segment-wise prefix of |
| Scopes.SatisfiedMonotone | backend/internal/scope/scope.go:299-334 | broader grants never take an authorization away |
| Scopes.Dedupe | backend/internal/scope/scope.go:342-353 | keeps first appearances in order, and changes nothing exactly when there was no duplicate |
| LikeFilter.DescendantPatternIsPrefixTest | backend/internal/store/facts.go:22-61 | for all strings, matching the escaped pattern is having the scope and a dot as prefix, whatever metacharacters the scope holds |
| LikeFilter.ScopePrefixes | backend/internal/store/facts.go:55-61 | the loop builds one such pattern per granted scope, in order |
| LikeFilter.TagMatchesMeaning | backend/internal/store/sqlcgen/facts.sql.go:44-58 | equal to a granted scope or like one of its patterns exactly when some granted scope covers the tag's operation |
| LikeFilter.VisibleIffSatisfied | backend/internal/store/sqlcgen/facts.sql.go:44-58 | for untargeted tags the double negation selects a row exactly when it is active, tagged, and its tags are satisfied by the grants |
| LikeFilter.TagSafeForSqlIff | backend/internal/store/facts.go:24-41 | the target-blind test agrees with coverage under every grant exactly when the tag has no colon or no dot |
| LikeFilter.MemoryTagsAreSafe | backend/internal/store/facts.go:34-41 | tags that pass the write-time validation are untargeted, so the translation is exact on them |
| LikeFilter.TargetedTagLeaks | backend/internal/store/facts.go:24-33 | a targeted tag extended by a dot would be shown to a grant that does not cover it |
| Disclosure.EffectiveDepth | backend/internal/store/facts.go:217-243 | the nested scan returns the deepest level at which every tag is readable, summary if a tag is uncovered or there is none, and an error exactly when the first tag it stops at meets an invalid depth |
| Disclosure.BestRank | backend/internal/store/facts.go:219-230 | the inner loop finds the most permissive rank among the grants covering a tag, failing exactly on an invalid covering depth |
| Disclosure.EffectiveDepthIsUnique | backend/internal/store/facts.go:217-243 | the specification of the depth leaves no choice |
| Disclosure.FailsIff | backend/internal/store/facts.go:217-243 | the scan fails exactly when a tag is covered by a grant of an unknown depth while every tag before it is covered, and by known depths alone |
| Disclosure.ThresholdLaw | backend/internal/store/facts.go:217-243 | for valid grants a depth is reached exactly when every tag has some covering grant at it or deeper, and without tags it is summary |
| Disclosure.DepthIsMonotone | backend/internal/store/facts.go:217-243 | more grants and fewer tags, as long as there is one, never lower the depth |
| Disclosure.DepthIgnoresOrderAndRepetition | backend/internal/store/facts.go:217-243 | the depth depends on the sets of tags and grants only |
| Disclosure.SearchFacts | backend/internal/store/facts.go:152-186 | each returned row is projected at its own effective depth, whatever the ranking, and valid grants never fail the search |
| Disclosure.VisibleIff | backend/internal/store/sqlcgen/facts.sql.go:44-58 | a row with untargeted tags is visible exactly when it is active and has tags, each covered by some grant |
| Disclosure.ReadShowsContentIff | backend/internal/store/facts.go:152-186 | a visible row shows its content exactly when every tag is granted at facts or full and otherwise only its summary, and its provenance exactly when every tag is granted at full |
| Disclosure.DisclosureForProposer | backend/internal/store/staged_diffs.go:199-212 | the proposer's answer is computed at the depth the read path would use for that row |
| Disclosure.DisclosureMatchesReadPath | backend/internal/store/staged_diffs.go:199-212 | with a near or equal visible fact the proposer learns its id and which it is exactly when a search under the same grants would return that fact's content, and otherwise gets one constant answer; with none it learns that |
| HeaderFolding.SplitHeaderLines | backend/internal/broker/commit/commit.go:230-241 | the loop joins each continuation to the line before it, and nothing else |
| HeaderFolding.FoldingIsLossless | backend/internal/broker/commit/commit.go:230-241 | unfolding the split of any block gives the block back |
| HeaderFolding.UnfoldingIsInvertible | backend/internal/broker/commit/commit.go:230-241 | splitting an unfolded list gives the list back when no line after the first starts with a space |
| HeaderFolding.CutIsUnique | backend/internal/broker/commit/commit.go:135-138 | the block before the first blank line is the only one with no blank line in it and no newline at its end |
| CommitParser.MatchIdentityIff | backend/internal/broker/commit/commit.go:88 | the identity pattern matches exactly the rendered forms of valid identities, with those parts |
| CommitParser.Parse | backend/internal/broker/commit/commit.go:134-222 | accepts a payload exactly when some well-formed commit prints to it, and returns that commit |
| CommitParser.WellFormedMeans | backend/internal/broker/commit/commit.go:88-222 | the commits whose print is accepted have object names of 40 or 64 hex letters, an author, a committer with the address reported, and further headers under other keys than the five refused, all down to the characters allowed |
| CommitParser.ParseParents | backend/internal/broker/commit/commit.go:163-170 | the loop collects the run of parent headers right after the tree and fails exactly on a bad object id in it |
| CommitParser.CheckTail | backend/internal/broker/commit/commit.go:208-215 | the loop over the remaining headers reports the first that must not be there |
| CommitParser.ParseInvertsPrint | backend/internal/broker/commit/commit.go:134-222 | parsing and printing are inverse, for arbitrary multi-line extension headers outside the five refused keys |
| CommitParser.PrintIsInjective | backend/internal/broker/commit/commit.go:134-222 | no two well-formed commits with their extensions share a payload |
| CommitParser.UnambiguousIdentity | backend/internal/broker/commit/commit.go:43-222 | every accepted payload has one committer line, never continued, with one bracket pair, so first-wins and last-wins readers agree on the email, and no physical line that begins with a signature key and a space |
| CommitParser.LateParentIsIgnored | backend/internal/broker/commit/commit.go:208-215 | a parent header after the committer is tolerated and does not become a parent |
| CommitParser.ContinuedSignatureKeyIsAccepted | backend/internal/broker/commit/commit.go:208-245 | a signature key is refused alone or before a space, and accepted where its line ends after the key and is continued |
| Base64.RawRoundTrip | backend/internal/api/pagination.go:114-117 | unpadded base64 decodes to what was encoded, in either alphabet |
| Base64.PaddedRoundTrip | backend/internal/broker/sshsig/sshsig.go:125-140 | padded base64 decodes to what was encoded and uses no newline or dash |
| Base64.TableOf | backend/internal/api/pagination.go:114-117 | the letters are those of the standard and the URL-safe tables |
| Base64.GroupsAreNumbers | backend/internal/broker/sshsig/sshsig.go:125-140 | three bytes and their four sextets are one 24-bit number, most significant first, and a short last group is filled with zero bits |
| SshSig.WireStringRoundTripIff | backend/internal/broker/sshsig/sshsig.go:51-56 | a wire string followed by anything reads back exactly when it is shorter than 2^32 bytes |
| SshSig.Buffer.WriteString | backend/internal/broker/sshsig/sshsig.go:51-56 | appends the wire form of its argument and nothing else |
| SshSig.Buffer.WriteUint32 | backend/internal/broker/sshsig/sshsig.go:58-62 | appends the four big-endian bytes |
| SshSig.SignedData | backend/internal/broker/sshsig/sshsig.go:74-84 | what the buffer holds reads, by the format, as the preamble, the namespace, an empty reserved field, the hash name sha256 and the digest, and no more |
| SshSig.SignedBlobIsInjective | backend/internal/broker/sshsig/sshsig.go:74-84 | different namespaces or digests never give the same bytes to sign |
| SshSig.SignedDataReadsBack | backend/internal/broker/sshsig/sshsig.go:74-84 | a verifier reading the signed bytes by the format finds this namespace, an empty reserved field, the hash name sha256 and this digest |
| SshSig.DecodeInvertsEncodeIff | backend/internal/broker/sshsig/sshsig.go:92-120 | a decoder recovers every field of the signature blob exactly when each is shorter than 2^32 bytes |
| SshSig.Sign | backend/internal/broker/sshsig/sshsig.go:92-120 | fails exactly on an empty namespace; else a reader of the text finds version 1, the key, the namespace, sha256 and the signature over bytes that read as this namespace and digest |
| SshSig.Armor | backend/internal/broker/sshsig/sshsig.go:125-140 | the loop writes the base64 text in lines between the two markers |
| SshSig.DearmorInvertsArmor | backend/internal/broker/sshsig/sshsig.go:125-140 | removing the armor gives the bytes back, and every body line has at most 70 characters |
| SshSig.ArmoredSignatureIsRecoverable | backend/internal/broker/sshsig/sshsig.go:92-140 | from the returned text a reader recovers version, key, namespace, hash name and signature |
| RateLimiter.Limiter.Allow | backend/internal/broker/ratelimit.go:41-64 | decides by the recent entries of the key's list and leaves exactly those, with the call appended if it is admitted; other keys keep theirs |
| RateLimiter.Compact | backend/internal/broker/ratelimit.go:52-57 | moving survivors down within the same array yields the filter of the old list |
| RateLimiter.RunInvariant | backend/internal/broker/ratelimit.go:41-64 | over ordered calls the stored list is the recent part of the admissions, at most limit long, and the admissions are paced |
| RateLimiter.SlidingWindow | backend/internal/broker/ratelimit.go:41-64 | no half-open interval one window long, closed at either end, holds more than limit admissions of a key |
| RateLimiter.RefusalIff | backend/internal/broker/ratelimit.go:58-61 | a call is refused exactly when the limiter is on and limit admissions of its key lie in the window that ends now |
| RateLimiter.KeysAreIndependent | backend/internal/broker/ratelimit.go:41-64 | a key's list and admissions are those of its own calls alone |
| FixedWindow.Store.CheckProposeWriteRateLimit | backend/internal/store/rate_limit.go:61-81 | increments one counter or none and answers by the new count, failing closed on bad configuration, database errors and a full counter |
| FixedWindow.CounterInvariant | backend/internal/store/sqlcgen/rate_limit.sql.go:14-20 | a counter holds the increments that ran, up to 2^31-1, and admits no more than it counts nor than the limit, even when answers are lost |
| FixedWindow.WindowAdmitsExactly | backend/internal/store/rate_limit.go:61-81 | each subject and window admits exactly the smaller of its calls and the limit, whatever the interleaving |
| FixedWindow.AnswerIff | backend/internal/store/rate_limit.go:61-81 | after any run a call is admitted exactly while fewer calls of its subject in its window than the limit reached the database, limited from then on, and failed when limit or window is not positive, the database fails or the counter is full |
| FixedWindow.AtMostTwiceTheLimit | backend/internal/store/rate_limit.go:29-33 | no interval at most one window long holds more than twice the limit for a subject |
| FixedWindow.TwiceTheLimitIsReached | backend/internal/store/rate_limit.go:29-33 | for every limit the counter can hold the bound is attained across a boundary |
| FixedWindow.SubjectsAreIndependent | backend/internal/store/rate_limit.go:44-52 | a subject's admissions are those of its own calls alone |
| Cache.Store.Apply | backend/internal/broker/cache.go:140-197 | installs the indexes of the accepted rows less the grants under a live tombstone, and prunes the rest of the tombstones, in whatever order the map yields them |
| Cache.Store.Remove | backend/internal/broker/cache.go:251-264 | tombstones the grant whether cached or not and drops the key recorded for it |
| Cache.Store.Lookup | backend/internal/broker/cache.go:227-243 | finds the entry under the token's hash exactly when it is there and its expiry, if any, is still to come |
| Cache.ParseScopes | backend/internal/broker/cache.go:206-216 | accepts a row's scopes exactly when each is a valid targeted scope |
| CacheProtocol.InverseIffDistinctIds | backend/internal/broker/cache.go:140-180 | with distinct hashes the two maps are inverse exactly when accepted ids are distinct |
| CacheProtocol.IndexConsistent | backend/internal/broker/cache.go:140-180 | distinct ids suffice for eviction to reach every entry of a grant, even with equal hashes |
| CacheProtocol.DuplicateIdSurvivesRemove | backend/internal/broker/cache.go:172-179 | two rows for one grant would leave a token of it findable after its removal |
| CacheProtocol.SharedHashHidesTheOther | backend/internal/broker/cache.go:172-179 | two grants with one hash are safe but removing one hides the other |
| CacheProtocol.RemovedIsNeverFound | backend/internal/broker/cache.go:61-97 | in every interleaving whose reloads keep within the tombstone lifetime, a grant that was removed is never found again under any token |
| CacheProtocol.SafeIffGapWithinTombstoneLife | backend/internal/broker/cache.go:91-97 | that safety holds for a bound on the gap if and only if the bound is at most five minutes, the tombstone lifetime |
| CacheProtocol.ReloadAfterRevocationClears | backend/internal/broker/cache.go:117-126 | whatever notifications are lost, once a reload begun after the revocation has swapped in, the grant is absent for good |
| CacheProtocol.LookupRefinesSnapshot | backend/internal/broker/cache.go:140-243 | with distinct hashes a token finds an entry exactly when an undropped row of the last applied snapshot carries it, has valid targeted scopes and has not expired; the entry has that row's fields, and only revoked grants are dropped |
| Broker.Broker.Preflight | backend/internal/broker/broker.go:89-105 | answers from the cache alone and changes nothing |
| Broker.Broker.Sign | backend/internal/broker/broker.go:125-200 | looks up, spends the rate, decides, and writes the audit row exactly when the insert runs; the cache is untouched |
| Broker.AnswersMean | backend/internal/broker/broker.go:89-271 | without a cached grant the answer is that; with one, a denial exactly when the request is not authorized by it, a backend failure exactly when it is but key or audit fails, else the signature; the audit row tells whose grant, which scope and what payload |
| BrokerRuns.SignaturesAndAuditRowsCorrespond | backend/internal/broker/broker.go:125-200 | in every interleaving audit rows and the calls that wrote them match one to one, each for an authorized commit payload, and every returned signature has its row |
| BrokerRuns.NoneStartsAfterRemove | backend/internal/broker/broker.go:125-129 | no call starts under a grant on which the cache's removal has run |
| BrokerRuns.PreflightForetellsSigning | backend/internal/broker/broker.go:89-271 | in every interleaving a call the rate does not stop is refused for its grant or scope exactly when preflight would have refused it as it started, and for that reason |
| BrokerRuns.SignaturesAreRateLimited | backend/internal/broker/broker.go:131-133 | no window holds more than limit audited signatures of one grant, however calls interleave |
| BrokerRuns.SignAlone | backend/internal/broker/broker.go:125-200 | run with nothing in between, the steps of a call answer, spend the rate and audit exactly as the method does |
| FactStore.RunInvariant | backend/internal/store/staged_diffs.go:382-545 | every statement of every transaction keeps the invariant of facts, links, log, locks and counts |
| FactRuns.CommitsAndFactsCorrespond | backend/internal/store/staged_diffs.go:426-545 | a diff is committed exactly when one fact came from it, each fact supersedes exactly its diff's target and no other does, and the active facts number the committed diffs without a target |
| FactRuns.ChainsAreDisjoint | backend/internal/store/sqlcgen/staged_diffs.sql.go:435-438 | in every run supersession chains are finite and end in an active fact, and two facts lead to the same end exactly when one leads to the other |
| FactRuns.OneAuditRowPerDecision | backend/internal/store/staged_diffs.go:382-545 | a decided diff has exactly one truthful audit row, a pending one none |
| FactRuns.StepsDoAsPromised | backend/internal/store/staged_diffs.go:382-545 | in every run a committed rejection marks its diff and logs it and touches nothing else; a committed commit turns a pending diff with valid, distinct scopes into one active fact, supersedes its active target and logs it; no other step changes anything but proposals |
| FactRuns.OneAuditRowPerCommit | backend/internal/store/staged_diffs.go:382-545 | the log grows by exactly one row at each commit and at no other step |
| FactRuns.DecisionsAreFinal | backend/internal/store/staged_diffs.go:382-545 | decided diffs, superseded facts and audit rows never change again |
| FactDuplicates.DuplicatesOnlyFromOverlap | backend/internal/store/staged_diffs.go:442-464 | of two active facts with equal content the later one's check ran before the earlier one committed |
| FactDuplicates.StaysDistinctIff | backend/internal/store/staged_diffs.go:442-464 | from a reached state with distinct active contents a commit leaves them distinct if and only if no active fact committed since its check, other than its target, has its content; other steps always do |
| FactDuplicates.DistinctThroughoutIff | backend/internal/store/staged_diffs.go:442-464 | active contents stay pairwise distinct throughout a run if and only if no step of it commits content that an active fact other than its target got since its check |
| FactDuplicates.SerialContentsAreDistinct | backend/internal/store/staged_diffs.go:442-464 | with one transaction open at a time active contents are pairwise distinct |
| FactDuplicates.OverlappingCommitsDuplicate | backend/internal/store/staged_diffs.go:442-453 | a run of two overlapping commits that leaves two active facts with one content |
| FactOperations.Store.CommitDiff | backend/internal/store/staged_diffs.go:426-545 | alone, succeeds exactly for a pending diff with valid, distinct, untargeted scopes, an active target if any, and content no other active fact has, and then writes the fact, the link, the status and the audit row; otherwise reports the first failing check and changes nothing |
| FactOperations.Store.RejectDiff | backend/internal/store/staged_diffs.go:382-407 | rejects exactly a pending diff: its status and one audit row change, nothing else |
| FactOperations.CommitAlone | backend/internal/store/staged_diffs.go:426-545 | with no other transaction open the statements all go through exactly when the method succeeds, and leave the same database |
| FactOperations.RejectAlone | backend/internal/store/staged_diffs.go:382-407 | with no other transaction open the statements of a rejection go through exactly when the method succeeds, and leave the same database |
| Consent.RunInvariant | backend/internal/store/grant_requests.go:174-296 | every statement of every transaction keeps grants fitting, requests settled, the log truthful and locks exclusive |
| ConsentRuns.EveryGrantHasOneOrigin | backend/internal/store/grant_requests.go:174-264 | each grant fits its kind and comes from exactly one direct creation or one approved request with equal subject, kind, depth and scopes |
| ConsentRuns.OneDecisionPerRequest | backend/internal/store/sqlcgen/grant_requests.sql.go:15-51 | a decided request has exactly one logged decision, a pending one none |
| ConsentRuns.OneAuditRowPerCommit | backend/internal/store/grants.go:185-456 | the log grows by exactly one row at each commit and at no other step |
| ConsentRuns.StepsDoAsPromised | backend/internal/store/grants.go:185-456 | in every run each committed creation, approval, denial, revocation and renewal writes exactly its own row or rows and its audit row, on the rows and terms it is allowed on; no other step changes anything but newly placed requests |
| ConsentRuns.ApprovedLifetime | backend/internal/store/grant_requests.go:206-210 | the grant of an approval that commits expires the requested seconds after its insert, and never if none were requested |
| ConsentRuns.RenewedLifetime | backend/internal/store/grants.go:408-456 | a renewal that commits leaves its grant to expire the called lifetime after the instant it computed the expiry, however long it waited |
| ConsentRuns.DecisionsAreFinal | backend/internal/store/grants.go:366-394 | a request leaves pending at most once, a grant's terms never change, and a revoked grant is never active again |
| ConsentRuns.LapsedComesBackIff | backend/internal/store/grants.go:408-456 | with each renewal's expiry computed before its wait for the row, a lapsed grant can become active again if and only if no instant from its expiry to now bounds every expiry its open renewals can still set |
| ConsentRuns.LapsedForGood | backend/internal/store/grants.go:396-407 | a grant that lapses with no renewal of it open never becomes active again |
| ConsentRuns.DelayedRenewalRevives | backend/internal/store/grants.go:408-456 | a run in which a renewal begun in time commits after the lapse and reinstates the grant |
| ConsentRuns.RenewalKeepsGrantedScopes | backend/internal/store/sqlcgen/grants.sql.go:15-24 | at the instant a renewal commits no subject's granted scopes and depths change if and only if the grant was in force just when its new expiry is to come, or each scope of it comes at its depth from another grant |
| ConsentRuns.ShownIsGrantedIff | backend/internal/store/types.go:36-46 | the listing's test and the query's differ exactly on an unrevoked grant at the instant of its expiry, and a subject is shown what it is granted exactly when every scope of such grants comes from another |
| ConsentOperations.KindAndDepth | backend/internal/store/grants.go:94-109 | accepts exactly a memory kind, possibly omitted, with a known depth or a capability kind with none |
| ConsentOperations.Store.CreateGrant | backend/internal/store/grants.go:185-247 | succeeds exactly for wanted, unrepeated scopes and an actor, and inserts one fitting grant and one audit row |
| ConsentOperations.Store.RequestGrant | backend/internal/store/grant_requests.go:73-122 | stages a pending request with duplicates removed, and never a grant |
| ConsentOperations.Store.ApproveGrantRequest | backend/internal/store/grant_requests.go:174-264 | succeeds exactly for a pending, valid request and creates an unrevoked grant with its terms, which expires the requested seconds from now or never |
| ConsentOperations.Store.DenyGrantRequest | backend/internal/store/grant_requests.go:267-296 | denies exactly a pending request, logs it and never touches grants |
| ConsentOperations.Store.RevokeGrant | backend/internal/store/grants.go:366-394 | revokes exactly an unrevoked grant, logs it and changes nothing else; fails otherwise |
| ConsentOperations.Store.RenewGrant | backend/internal/store/grants.go:408-456 | sets the expiry exactly for a memory grant unrevoked and unexpired when the transaction began |
| ConsentOperations.StagedRequestsAreApprovable | backend/internal/store/grant_requests.go:84-93 | every request that can be staged can be approved into a fitting grant, and without the removal of duplicates exactly those with none |
| ConsentOperations.CreateAlone | backend/internal/store/grants.go:185-247 | with no other transaction open its statements all go through exactly for a wanted row with unrepeated scopes, and leave the database the method leaves |
| ConsentOperations.ApproveAlone | backend/internal/store/grant_requests.go:174-264 | with no other transaction open its statements all go through exactly for a pending, valid request, and leave the database the method leaves |
| ConsentOperations.DenyAlone | backend/internal/store/grant_requests.go:267-296 | with no other transaction open its statements all go through exactly for a pending request, and leave the database the method leaves |
| ConsentOperations.RevokeAlone | backend/internal/store/grants.go:366-394 | with no other transaction open its statements all go through exactly for an unrevoked grant, and leave the database the method leaves |
| ConsentOperations.RenewAlone | backend/internal/store/grants.go:408-456 | with no other transaction open its statements all go through exactly for a memory grant in force and a positive lifetime, and leave the database the method leaves |
| DataKeys.Store.LoadOrCreateDataKey | backend/internal/store/data_keys.go:28-80 | returns what the stored row opens to under the caller's master, its own key only if that is the row stored |
| DataKeys.Store.RewrapDataKey | backend/internal/store/data_keys.go:91-121 | succeeds exactly when the old master opens the row read, and re-wraps the same key |
| DataKeys.EveryProcessGetsTheStoredKey | backend/internal/store/data_keys.go:28-121 | in every interleaving of boots, rewraps and crashes all processes get one key per purpose, the one the stored wrapping opens to under its current master alone |
| DataKeys.SealedDataStillOpens | backend/internal/store/data_keys.go:82-121 | what was sealed before any rewraps opens for every process that gets the key later |
| DataKeys.StepsDoAsPromised | backend/internal/store/data_keys.go:28-121 | in every run the first insert for a purpose stores the key minted under its process's master, a rewrap stores the same key under the new master, and no other step changes a row |
| DataKeys.BootAlone | backend/internal/store/data_keys.go:28-80 | run with nothing in between, the steps of a boot store and return what the method does |
| DataKeys.RewrapAlone | backend/internal/store/data_keys.go:91-121 | run with nothing in between, the steps of a rewrap store what the method stores, exactly when the old master opens the row |
| DataKeys.BootOpensIffMasterIsCurrent | backend/internal/store/data_keys.go:33-47 | with a row stored, a boot gets the key exactly when its master is the one the row is wrapped with |
| Cursor.StampRoundTripIff | backend/internal/api/pagination.go:58-117 | formatting then parsing an instant gives it back exactly when its year takes four digits |
| Cursor.FieldsStand | backend/internal/api/pagination.go:58-117 | a four-digit year is written as RFC 3339 says, each field in decimal at its place, with a fraction only if it is not zero |
| Cursor.CheckUuid | backend/internal/api/pagination.go:90-108 | the loop accepts exactly the canonical hex form |
| Cursor.CursorRoundTripIff | backend/internal/api/pagination.go:58-117 | decoding an encoded cursor gives it back exactly for four-digit years and canonical ids |
| Pagination.TotalOrder | backend/internal/store/sqlcgen/staged_diffs.sql.go:297-306 | creation time and then id order the rows totally, in either direction |
| Pagination.OrderIsChronological | backend/internal/store/sqlcgen/staged_diffs.sql.go:297-306 | rows are ordered by instant, and at one instant by id as text; descending is the reverse |
| Pagination.ListPage | backend/internal/store/staged_diffs.go:305-334 | from one row more than asked it returns the page and a cursor to its last row exactly when another row exists |
| Pagination.CursorIsFaithful | backend/internal/api/pagination.go:114-129 | the wire carries every storable row key unchanged |
| Pagination.NothingIsRepeated | backend/internal/store/sqlcgen/staged_diffs.sql.go:297-306 | whatever is inserted or removed between pages no row is returned twice and all come in order |
| Pagination.NothingIsMissed | backend/internal/store/sqlcgen/grants.sql.go:276-285 | a completed walk returns every row that matched throughout it |
| Pagination.StaticWalkReturnsAll | backend/internal/store/grants.go:284-324 | over an unchanging table a completed walk returns each matching row once, in order |
| Pagination.StaticWalkEnds | backend/internal/store/grants.go:284-324 | such a walk completes within one request more than the full pages in the table |
| EventStream.Stream.Poll | backend/internal/api/events.go:158-260 | announces each newly listed row, then each seen row no longer listed that can be fetched, keeps the ids of those that cannot, and warns of each expiring grant key once |
| EventStream.AnnounceGone | backend/internal/api/events.go:187-210 | whatever order the map yields, exactly the seen, unlisted and fetchable ids are announced, and the others kept |
| ApproverModel.Model.Upsert | backend/cmd/approver/model.go:77-83 | appends a new item or replaces one in place |
| ApproverModel.Model.Remove | backend/cmd/approver/model.go:85-120 | deletes the item, closes its prompt and moves the cursor index as its position demands |
| ApproverModel.Model.Apply | backend/cmd/approver/model.go:126-159 | an added frame upserts, a resolved frame removes, others leave the queue |
| ApproverModel.Model.MoveSelection | backend/cmd/approver/model.go:168-179 | moves the cursor and stops at the ends |
| ApproverModel.AddKeepsQueue | backend/cmd/approver/model.go:77-83 | an addition appends a new id and leaves the order, the other items, the prompt and the cursor |
| ApproverModel.RemoveKeepsQueue | backend/cmd/approver/model.go:85-120 | removal keeps the others in their order, closes the prompt only if it is for the item, and keeps the cursor on the same item, unless that is the one removed and then on its successor |
| ApproverModel.CursorStays | backend/cmd/approver/model.go:97-120 | however many frames arrive the cursor stays on its item unless that item is resolved |
| ApproverModel.MoveStaysOnList | backend/cmd/approver/model.go:168-179 | a move takes the cursor to the place on the list nearest to where it leads and changes nothing else; its opposite undoes it unless an end was hit |
| Replica.ReplicaAgrees | backend/internal/api/events.go:158-260 | after every completed poll, folding a connection's frames into an empty queue leaves exactly the seen ids, and into an older queue at least those |
| Replica.AddedAndResolvedAlternate | backend/internal/api/events.go:171-211 | each id's frames strictly alternate, and the last is an addition exactly for the ids still seen |
| Replica.EachExpiryWarnedOnce | backend/internal/api/events.go:244-258 | one connection warns of each grant and expiry once if a completed poll listed it, and else never |
| Served.Serve | backend/internal/api/events.go:262-281 | polling until a listing fails, with the ready frame after the first poll, sends exactly the frames of a possible connection and remembers what it does |
| Served.ItemsAreShownAsListed | backend/cmd/approver/model.go:77-83 | for each id announced and not resolved the approver shows the row as listed by the poll that last found it unseen |
| PendingWindow.NoneResolvedWhilePending | backend/internal/store/sqlcgen/staged_diffs.sql.go:244-251 | if new rows sort last no poll announces a pending row resolved, and seen pending rows stay listed |
| PendingWindow.StepKeepsIff | backend/internal/store/sqlcgen/staged_diffs.sql.go:244-251 | with every seen pending row listed, a step leaves them so unless it inserts before the end of a full window whose last row was seen |
| PendingWindow.CanMisleadIff | backend/internal/api/events.go:187-211 | some poll can announce a pending row resolved exactly when a seen pending row has a full window of pending rows before it |
| PendingWindow.NeverMisleadsIff | backend/internal/api/events.go:158-211 | wherever new rows sort, no state of a run lets a poll announce a pending row resolved if and only if no insertion of it went before the end of a full window whose last row was seen |
| PendingWindow.RowSortingFirstPushesOut | backend/internal/api/events.go:50-62 | for every limit, one row sorting before a full window lets the next poll announce a pending row resolved |
| Enrollment.Server.Bootstrap | backend/cmd/apiserver/main.go:285-318 | creates a token without a secret exactly when no active token exists, and leaves the latch |
| Enrollment.Server.VerifySecondFactor | backend/internal/api/api.go:315-327 | an assertion header wins over a code; it passes exactly when it decodes, meets a pending challenge and names the caller's own live, uncloned passkey, and uses the challenge up; a code passes exactly when it is valid and the caller has a secret |
| Enrollment.Server.CreateToken | backend/internal/api/tokens.go:169-237 | behind the gate of ever-enrolled rows or latch, inserts an enrolled token and sets the latch together |
| Enrollment.Server.RegisterBegin | backend/internal/api/api.go:362-407 | refuses a caller with no factor of its own, and stores a challenge only after one is proven |
| Enrollment.Server.RegisterFinish | backend/internal/api/webauthn.go:199-284 | consumes the challenge whatever comes of it, and inserts a passkey and the latch together |
| Enrollment.Server.ConsumeChallenge | backend/internal/store/webauthn.go:481-493 | finds and deletes exactly an unexpired challenge of that token and purpose |
| Enrollment.Server.RevokeToken | backend/internal/store/reviewer_tokens.go:196-205 | marks exactly an active token revoked and keeps its row and secret |
| Enrollment.Server.RevokeCredential | backend/internal/store/webauthn.go:437-449 | marks revoked exactly an active passkey of the caller |
| EnrollmentRuns.AtMostOneUnprovenMint | backend/internal/api/tokens.go:169-237 | with each handler run as a whole, from a fresh install at most one token is ever minted with no factor proven, and the gate is closed exactly when the latch is set, even after factors are cleared |
| EnrollmentRuns.SucceedsIff | backend/internal/api/api.go:315-437 | in every run each handler succeeds exactly when its caller is active and has what it asks for; where a factor is checked that is the caller's valid code and stored secret, or without a clone its own live passkey on a pending challenge |
| EnrollmentRuns.HandlersDoAsPromised | backend/internal/api/webauthn.go:154-428 | in every run a handler changes exactly what checking a factor spends and, on success, its own row, challenge or latch |
| EnrollmentRuns.LatchNeverGoesBack | backend/internal/store/reviewer_tokens.go:49-98 | the latch stays set, and after it no mint run as a whole is unproven |
| EnrollmentRuns.EverEnrolledNeverDrops | backend/internal/store/reviewer_tokens.go:218-238 | in every run, no handler unenrolls a token, deletes a passkey or undoes a revocation, so the counts of the gate never drop |
| EnrollmentRuns.FactorlessTokensStayPowerless | backend/internal/api/webauthn.go:154-284 | a token created with no factor never owns a passkey or a pending challenge, cannot register and passes no strong-factor gate |
| EnrollmentRuns.EachPasskeyCostsAProof | backend/internal/api/webauthn.go:187-284 | in every run a token has registered no more passkeys than registrations it began by proving a factor, pending ones counted in |
| EnrollmentRuns.AssertionsAreSingleUse | backend/internal/api/webauthn.go:321-428 | in every run a token has passed no more assertions than it was challenged to, the pending challenge counted in, and each one passed used up its challenge and named the caller's own live passkey |
| EnrollmentRace.UnprovenMintsIff | backend/internal/api/tokens.go:169-237 | with mints in flight statement by statement and every other handler between, `k` more can succeed unproven if and only if the gate is open or at least `k` in flight finished reading it while it was |
| EnrollmentRace.GateReadIsAtomic | backend/internal/api/tokens.go:170-199 | the two counts and the latch read one after the other find the gate open exactly when it is open at the last read, and tokens created with no factor stay powerless |
| EnrollmentRace.MintAlone | backend/internal/api/tokens.go:169-237 | run with nothing in between, the statements of a mint leave the rows as the handler does and mint unproven exactly when it does |

## Left out

- HTTP routing, CORS, JSON, sockets, timeouts, the MCP adapters and the web pages: input and output around the modelled decisions.
- Cryptography: hashes, signatures, sealing and code checks are functions or oracles; sealing is symbolic, a box opens under its own key alone.
- Search ranking, embeddings and summaries: the search returns its visible rows in an arbitrary order, and the nearest candidate and its distance are given.
- Custody backends, the signing keyring, configuration, migrations, signing policies and agent tokens.
- PostgreSQL beyond what the state machines state: read-committed statements, row locks, conditional updates evaluated after a lock wait, insertion that yields to a conflict, atomic commit and rollback. A deadlock or a violated constraint is an abort.
- Clocks: the database and the processes read one clock; the fixed window counts microseconds, the resolution of its column.
- Strings: a character stands for one byte.
- Timestamps and metadata of facts and diffs other than the ones that decide, and the visibility check when a diff proposes a target: in `FactStore` any existing fact can be targeted and any scopes staged, since the commit checks again.
- Cursor.ParseListCursor: accepts timestamps in UTC with every field at full width; forms with an offset or a short hour field, which the server never hands out, are not modelled.
- EventStream.Stream.Poll: a frame that cannot be written ends the connection and is not modelled; a failed listing is.
- RateLimiter.SlidingWindow: assumes times do not decrease in lock order, because the clock is read before the lock is taken.
- Replica.ReplicaAgrees: assumes a diff and a request never share an id.
- Enrollment.Server.VerifySecondFactor: the sign counter of a passkey and the audit rows of the enrollment handlers are not modelled; a suspected clone revokes the passkey.
- Consent.RunInvariant: an approval computes the new grant's expiry in the same step as its insert, which waits for no lock.
- EnrollmentRace.UnprovenMintsIff: runs the check of a factor, and every handler but the mint, in one step each.
- Served.Serve: the frames a failing poll sends before it fails are not modelled; the connection ends with it.
- The page-size parameter, the listing of grants near expiry and the audit rows of reads: they would only add easy members.
