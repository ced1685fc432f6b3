# Machine bridge: verified state machines

This Dafny 4.11 project models the durable state machines and stream algorithms of the machine bridge, and proves what
they guarantee over whole runs. `dafny verify dfyconfig.toml` checks all of it.

Each subject has a file of specification functions on values, files of lemmas about every reachable state or every
input, and, where the program changes things step by step, classes or methods with loops that are proved equal to those
functions.

| files | subject |
|---|---|
| Records, Lists, StableSort, ExpiryPruning | JavaScript objects as ordered dictionaries, array functions, stable sorts, and pruning by expiry |
| OAuthStores, RefreshFamilies, RefreshExchange, RefreshBounds, RefreshRuns, RefreshGuarantees, RefreshSuccess, RefreshWitnesses, RefreshAuthorities, RefreshEntitlement, RefreshInheritance, RefreshTombstones, RefreshService | refresh-token families: entitlement, rotation, replay detection, retry grace, bounded eviction (section 6 of RFC 6749, section 4.14.2 of RFC 9700) |
| RefreshShards | the eight storage shards of consumed markers |
| DaemonHttpChannel, DaemonHttpExchange, DaemonHttpAnswers, DaemonHttpController | the HTTPS fallback relay between Worker and daemon |
| EventStream, HeartbeatProxy, HeartbeatVisibility | heartbeats in a proxied event stream (section 9.2.6 of the WHATWG HTML standard) |
| Utf8, BoundedWriter, DocumentSource, DocumentPrefix, DocumentWalk, DocumentEscapes | the page source within a byte budget |
| Base64, TaskResultCodec, TaskStore, TaskStoreRuns, TaskStoreAccess, TaskStoreService | MCP tasks and their chunked results |
| Authorities, AuthorityRevocations | the queue of revoked authorities |
| DerSignature | DER signatures to fixed-width ones (section 2.2.3 of RFC 3279, sections 8.1.3 and 8.3 of X.690) |
| CancellationRegistry, NonceStore, MonitorClaims, MonitorClaimRuns, MonitorClaimAccess, MonitorClaimStore | bounded replay, cancellation and recency structures |

## Reading the models

- A run is a sequence of actions from the empty state. Each body of the OAuth lock, each storage transaction and each
  HTTP exchange is one step; what happens at random or outside is an argument of the action.
- Refresh secrets are free terms: random ones never repeat, and the derived replacement of a secret is injective in the
  token version and the secret. The hash of a secret stands for itself; the order of hashes is a parameter. Identifiers
  are numbers in the order of `localeCompare`.
- The refresh history (issued, spent, revoked), the sent and handled logs of a relay session, the unbounded
  cancellation registry and the results of completed tasks are ideal state that the program does not keep. The
  invariants tie the program's bounded state to them.
- A commit of the OAuth stores may fail; then the exchange has no effect and answers with an error. Whether a DPoP proof
  is still unused is part of the request. Administration (accounts, clients, authorization failures, client expiry,
  deleted codes and tokens) is one action that may change accounts and clients in any way and drop any tokens.
- The relay handler's treatment of a daemon message is an argument too: handled, refused or failed, with whatever it
  tries to send meanwhile.

## What is not as one might expect

- The newest token is the one that a prune drops on an expiry tie at the cap (`ExpiryPruning.NewestSurvives`), and a new
  token is pruned while the one it replaces is still there. So an answer of success can carry a dead pair;
  `RefreshSuccess.SuccessIsLiveIff` says exactly when, and `RefreshWitnesses` has a run and a state in which it does.
- A heartbeat in front of an upstream that starts with a byte order mark costs it the mark, and so the first line after
  it; when a page notices is said by `HeartbeatVisibility.VisibleOnlyThroughTheByteOrderMark`.
- The page source of an exhausted budget is not always a prefix of the serialization without limits. A text that starts
  with U+FEFF loses it when the text is cut, and a lone surrogate comes back as U+FFFD (`DocumentPrefix.ExhaustedIsPrefix`
  and `CutCanHarmText`); and a length limit that applied before the cut has already changed it (`LimitCanHarmPrefix`).
- Breaking `--` in a comment does not always keep it from ending early: of `--->` the last two dashes survive
  (`DocumentEscapes.CommentEndsEarlyIff`).
- A DPoP proof can be consumed once more in the last second of its inclusive window (`NonceStore.SecondUseIff`); the
  half-open windows of the daemon requests have no such second.
- Issuing a monitor claim at the renumbering threshold returns an id that is not stored, because the array is taken
  before the counter replaces it (`MonitorClaimRuns.IssueKeepsInv`). The counter reaches that threshold only after
  about nine quadrillion operations.

## Model

| member | source | states |
|---|---|---|
| RefreshGuarantees.RotationIsLinear | src/worker/oauth-refresh-exchange.ts:80-108 | In every run from empty stores, at each step boundary: at most one live refresh token per family, live and consumed secrets are disjoint, and a live token carries the expiry its family got when its code was redeemed |
| RefreshGuarantees.RevocationIsPermanent | src/worker/oauth-refresh-families.ts:271-286 | Once a family is revoked (by a replay, or because one of its markers was evicted), no later state of the run holds an access or refresh token of it in either store, even after its tombstone has expired or been dropped |
| RefreshGuarantees.RotationSpends | src/worker/oauth-refresh-exchange.ts:80-108 | A rotation spends a secret that was never spent before, hands out exactly the pair derived from it, and that refresh secret was never issued before |
| RefreshGuarantees.ReplayNeverMints | src/worker/oauth-refresh-exchange.ts:37-78 | Presenting any secret that was ever rotated away mints nothing: no secret is issued and both token tables only lose entries |
| RefreshGuarantees.LateReplayRevokesFamily | src/worker/oauth-refresh-exchange.ts:37-77 | While a family still has a live refresh token, every secret ever spent in it still has its marker; presenting one after its grace, in a request that commits, is answered by revoking the whole family |
| RefreshGuarantees.EarlyReplayRevokesFamily | src/worker/oauth-refresh-exchange.ts:41-77 | Within the grace as well: while the family has a live token, presenting a secret whose replacement was itself spent, in a request that passes validation and commits, is answered by revoking the whole family |
| RefreshGuarantees.RetryIsIdempotent | src/worker/oauth-refresh-exchange.ts:41-64 | A retry returns exactly the pair that the rotation of this secret issued, both halves live, leaves both token tables as they were, and is granted at most twice per secret over the whole run |
| RefreshGuarantees.RunsAreCapped | src/worker/oauth-refresh-families.ts:142-166 | Every reachable state holds at most 4096 markers and 1024 tombstones, and at most 500 refresh and 500 access tokens, of them at most 20 of each kind of any one client |
| RefreshGuarantees.RotationWithRoom | src/worker/oauth-refresh-exchange.ts:80-108 | With room for one more token of the client in both tables and one more marker, an answer of success leaves both halves of the pair live, the old secret gone and its marker filed with the full retry allowance |
| RefreshGuarantees.TablesCapped | src/worker/oauth-token-issuance.ts:84-87 | After a pair was issued at most 20 tokens of its client and 500 in all are left in either table |
| RefreshGuarantees.StepExtends | src/worker/oauth-refresh-exchange.ts:31-109 | No step of the service forgets what was issued, spent or revoked, and none moves a family expiry |
| RefreshGuarantees.ExchangeOfLateReplay | src/worker/oauth-refresh-exchange.ts:65-77 | The exchange itself, from any state that satisfies the invariant: a late replay is answered by revocation and leaves no token of the family |
| RefreshGuarantees.ExchangeRetries | src/worker/oauth-refresh-exchange.ts:41-64 | The exchange itself: a retry answer implies a spent secret with allowance left, and both stored tables unchanged |
| RefreshSuccess.SuccessIsLiveIff | src/worker/oauth-refresh-exchange.ts:80-108 | For every answer of success in every run: the new refresh token is live afterwards if and only if fewer than 20 of the client's refresh tokens and fewer than 500 of all expire at its time or later and no marker of its family was among those evicted; the same for the access token; the old token is always gone, and its marker there unless it was evicted itself |
| RefreshSuccess.IssuedSurvives | src/worker/oauth-token-issuance.ts:71-88 | Either half of an issued pair is present afterwards if and only if fewer than 20 older tokens of the client and fewer than 500 in all, of its kind, expire at its time or later |
| RefreshSuccess.RotatedPairFate | src/worker/oauth-refresh-exchange.ts:80-108 | The exact fate of a rotated pair from any state that satisfies the invariant |
| RefreshSuccess.EvictedIsSignedOut | src/worker/oauth-refresh-families.ts:146-156 | Where a marker of the family was evicted, neither store has a token of it left, though the answer is a success |
| RefreshSuccess.EvictedWithoutTrace | src/worker/oauth-refresh-families.ts:146-164 | With both caps full, the marker just filed the oldest and the tombstone of its family the first to expire, the answer is a success, and the same prune has signed the family out and dropped its tombstone |
| RefreshWitnesses.SuccessCanCarryDeadPair | src/worker/oauth-refresh-exchange.ts:80-108 | A run from empty stores in which a success hands out a dead refresh token: in the last days of its family the new token ties with the one it replaces, is pruned behind it and 19 others, and the old one is deleted |
| RefreshWitnesses.SuccessCanSignOut | src/worker/oauth-refresh-families.ts:146-164 | A state that satisfies the invariant, with 4096 markers and 1024 tombstones, in which a success signs its own family out |
| RefreshAuthorities.QueuedAuthoritiesAreOwners | src/worker/oauth-refresh-families.ts:90-94 | Every authority that a load or an exchange queues for the daemon is the account, version and client of the very family that it revoked |
| RefreshAuthorities.RevokedFamiliesAreQueued | src/worker/oauth-refresh-authority.ts:10-26 | Conversely, whenever a load or an exchange revokes a family that still has a token of either kind when pruning begins, its authority is queued |
| RefreshEntitlement.ValidationVerdict | src/worker/oauth-refresh-exchange.ts:112-157 | Of all inputs: validation grants exactly when the request comes from the token's own client, under its key (or binds a bearer token, where that is allowed), for its resource and that of the server, asks for no more than its canonical scope, the account is active at the token's version and role, the client's trust names just these, and the token version is the server's; it asks for a token version only after the request itself is in order |
| RefreshEntitlement.RotateAnswers | src/worker/oauth-refresh-exchange.ts:80-108 | The answer to a live token is the one of the table, and only at the cap of markers can it be a revoked family instead |
| RefreshEntitlement.RotationHands | src/worker/oauth-token-issuance.ts:61-83 | A rotation answered as a success files an access token of the answered scope for fifteen minutes, a refresh token of the old scope for fourteen days or the rest of the family, both with the presented token's authority and the proof's key, and a marker with a retry grace of thirty seconds or the rest of the family; of accounts and clients only the time of use changes |
| RefreshEntitlement.RedeemHands | src/worker/oauth-token-issuance.ts:46-83 | The pair of a redeemed code carries exactly what the code granted, for fifteen minutes and fourteen days of a family of thirty |
| RefreshEntitlement.OtherAnswersEffect | src/worker/oauth-refresh-exchange.ts:41-98 | A retry counts one more issue in its marker and touches the client, and nothing else; a refusal changes nothing, except that the token of an expired family is deleted |
| RefreshEntitlement.LoadKeepsTheGood | src/worker/oauth-refresh-families.ts:51-96 | Loading keeps exactly the refresh tokens that are unexpired, of an unrevoked family, of an active account with the same version and role and of a registered client, unless their family was evicted; markers that are unexpired keep their retry until its grace is over; accounts and clients are untouched |
| RefreshInheritance.EveryAnswer | src/worker/oauth-refresh-exchange.ts:31-109 | In every run each committed refresh grant is answered exactly as a table of fields says, both ways: rotation, retry, refusal, revocation, exhausted retries or a missing token version; the one exception is a rotation at the cap of markers that evicts its own family |
| RefreshInheritance.SuccessIsEntitled | src/worker/oauth-refresh-exchange.ts:121-151 | In every run whoever is handed a pair, by rotation or retry, is the client the presented token was issued to, proves its key with an unused proof where it has one, asks for its resource and at most its scope, and the account, the client's trust and the server's token version are those of the token |
| RefreshInheritance.AuthorityNeverGrows | src/worker/oauth-token-issuance.ts:58-83 | In every run every access and refresh token has the client, account, version, role and resource that its family's code was redeemed with, and the code's key if it had one; a refresh token has exactly the code's scope and an access token no more |
| RefreshInheritance.StepInherits | src/worker/oauth-refresh-exchange.ts:31-109 | Every action keeps that, and that a retry source and the pair derived from its secret belong to one family and one scope |
| RefreshInheritance.ReplayAnswers | src/worker/oauth-refresh-exchange.ts:37-77 | The answer to a consumed secret is the one of the table; in a reachable state a derived pair is active exactly when both halves are there and unexpired |
| RefreshTombstones.TombstonesOutliveTokens | src/worker/oauth-refresh-families.ts:271-286 | In every run each tombstone is that of a revoked family and stands exactly until the family would have expired |
| RefreshTombstones.TombstonesDropEarliest | src/worker/oauth-refresh-families.ts:157-164 | Of more than 1024 tombstones exactly 1024 are kept, none of which expires before a dropped one |
| RefreshRuns.StepKeepsInv | src/worker/oauth-refresh-exchange.ts:31-109 | Every action (administration, a load, a redeemed code, a refresh grant that commits or not) keeps the invariant that ties both stores to the history of what was issued, spent and revoked |
| RefreshRuns.EvictKeepsInv | src/worker/oauth-refresh-families.ts:146-156 | Evicting markers at the cap keeps that invariant, with the families of the evicted markers revoked |
| RefreshRuns.LoadKeepsInv | src/worker/oauth-refresh-families.ts:51-96 | Expiry, compaction and pruning on load keep it: a marker is dropped only with its whole family |
| RefreshRuns.RotationKeepsInv | src/worker/oauth-refresh-exchange.ts:83-101 | Filing the new pair, deleting the old secret and marking it consumed keeps it, before any pruning |
| RefreshRuns.ReplayKeepsInv | src/worker/oauth-refresh-exchange.ts:37-78 | All answers to a consumed secret keep it |
| RefreshRuns.RedeemKeepsInv | src/worker/oauth-token-issuance.ts:46-89 | A pair issued for a redeemed code with a new family keeps it |
| RefreshRuns.ReplayEffect | src/worker/oauth-refresh-exchange.ts:37-78 | A consumed secret does exactly one of three things: revoke its family, count one retry, or change nothing |
| RefreshRuns.RotationEffect | src/worker/oauth-refresh-exchange.ts:80-108 | A rotation changes the stores by exactly: issue, delete, mark, prune, touch the client |
| RefreshBounds.EvictionEffect | src/worker/oauth-refresh-families.ts:149-156 | Evicting markers removes exactly those markers and exactly the tokens, of both kinds, of their families, and leaves a tombstone for each family |
| RefreshBounds.ExcessIsOldest | src/worker/oauth-refresh-families.ts:146-150 | The evicted markers are the oldest ones, exactly as many as exceed 4096 |
| RefreshBounds.PruningIsBounded | src/worker/oauth-refresh-families.ts:142-166 | Pruning leaves min(n, 4096) markers, none older than a dropped one, no token of a dropped marker's family, and at most 1024 tombstones |
| RefreshBounds.NoAuthorityNoToken | src/worker/oauth-refresh-authority.ts:10-26 | Where no authority is found for a family, neither store holds a token of it |
| RefreshBounds.SilentLoadSparesOAuth | src/worker/oauth-refresh-families.ts:90-94 | A load that queued no revocation left the OAuth store unchanged, which is why saving the refresh store alone keeps both in agreement |
| RefreshBounds.IssuedWithRoom | src/worker/oauth-token-issuance.ts:71-88 | With fewer than 20 tokens of the client and fewer than 500 in each table, issuing drops nothing and both halves are present |
| RefreshBounds.PruningWithinCap | src/worker/oauth-refresh-families.ts:142-166 | Within the cap, pruning the replay state revokes and drops no token and no marker |
| RefreshService.DurableStorage.ExchangeRefreshToken | src/worker/oauth-refresh-exchange.ts:31-109 | The locked section, run on the stored records with its loops and early returns, leaves in durable storage exactly what the step of the runs says, and answers with its outcome |
| RefreshService.DurableStorage.RotateToken | src/worker/oauth-refresh-exchange.ts:80-108 | The same for the live-token half |
| RefreshService.DurableStorage.ReplayToken | src/worker/oauth-refresh-exchange.ts:37-78 | The same for the consumed half |
| RefreshService.DurableStorage.LoadOAuthRefreshStore | src/worker/oauth-refresh-families.ts:51-96 | Loading deletes, compacts, prunes and saves exactly what the specification of loading says |
| RefreshService.DurableStorage.Save | src/worker/oauth-token-issuance.ts:101-116 | Both stores and the revocations are saved together or not at all |
| RefreshService.RevokeRefreshFamilyRecords | src/worker/oauth-refresh-families.ts:271-286 | The two delete loops leave no token of the family in either store, everything else in place, and its tombstone |
| RefreshService.EvictExcessMarkers | src/worker/oauth-refresh-families.ts:145-156 | The eviction loop removes exactly the excess markers of a stable sort by age, in that order, and reports their authorities |
| RefreshService.DropExcessTombstones | src/worker/oauth-refresh-families.ts:157-164 | The second loop drops exactly the tombstones that expire first |
| RefreshService.PruneOAuthRefreshReplayState | src/worker/oauth-refresh-families.ts:142-166 | Both loops together |
| RefreshService.RecordConsumedRefreshToken | src/worker/oauth-refresh-families.ts:99-126 | Files the marker with its grace and a fresh allowance, then prunes |
| RefreshService.CompactMarkers | src/worker/oauth-refresh-families.ts:70-83 | Drops expired markers, and strips the retry source of those whose grace is over |
| RefreshService.DropExpired | src/worker/oauth-refresh-families.ts:53-89 | Drops unusable tokens, expired markers and expired tombstones |
| RefreshService.IssueTokenPair | src/worker/oauth-token-issuance.ts:46-89 | Files both halves with their lifetimes and prunes both tables; refuses an expired family |
| ExpiryPruning.PrunedKeepsLongest | src/worker/oauth-state.ts:317-323 | A prune leaves min(keep, n) entries unchanged, and every dropped expiry is at most every kept one |
| ExpiryPruning.PrunedWithinKeepsLongest | src/worker/oauth-state.ts:306-315 | The same among one client's entries, with every other client's entries in place |
| ExpiryPruning.NewestSurvives | src/worker/oauth-state.ts:306-323 | On ties at the cap the newest entry is the one dropped: it survives if and only if fewer than `keep` older entries expire at its time or later |
| ExpiryPruning.FiledSurvives | src/worker/oauth-state.ts:306-323 | Filed last and then pruned by both functions, an entry stays if and only if fewer than 20 entries of the client and fewer than 500 in all (any two caps) expire at its time or later |
| ExpiryPruning.PrunedTwiceIsCapped | src/worker/oauth-state.ts:306-323 | Both prunes together leave each cap satisfied |
| ExpiryPruning.PruneRecordByExpiry | src/worker/oauth-state.ts:317-323 | The delete loop leaves exactly the entries that expire last |
| ExpiryPruning.PruneClientRecordByExpiry | src/worker/oauth-state.ts:306-315 | The same for one client |
| StableSort.SortSorts | src/worker/oauth-state.ts:310 | The stable sort that the prune functions call permutes its input and orders it |
| RefreshShards.PersistenceEntries | src/worker/oauth-refresh-persistence.ts:55-83 | Saving succeeds exactly when every key is well formed and no shard overflows 1024 markers, and then files each marker under its first digit modulo 8 |
| RefreshShards.ShardHoldsTwoDigits | src/worker/oauth-refresh-persistence.ts:99-101 | A key has a shard exactly if it is sha256: and 64 lower-case hexadecimal digits, and shard i holds those whose first digit is i or i + 8 |
| RefreshShards.LoadShards | src/worker/oauth-refresh-persistence.ts:26-53 | A load is valid exactly when no present shard is malformed, overfull or holds a marker of another shard; it is complete exactly when all eight are present |
| RefreshShards.LoadShard | src/worker/oauth-refresh-persistence.ts:43-50 | The marker loop of one shard refuses any marker that belongs elsewhere |
| RefreshShards.ShardsRoundTrip | src/worker/oauth-refresh-persistence.ts:26-83 | Whatever was saved loads again as valid and complete, and gives back exactly the markers that were saved |
| DaemonHttpChannel.HttpChannel.Send | src/worker/daemon-http-channel.ts:66-80 | A message is queued under the next number, deferred or refused, exactly by activation and the three caps |
| DaemonHttpChannel.HttpChannel.AcknowledgeWorker | src/worker/daemon-http-channel.ts:88-96 | The shift loop drops exactly the acknowledged front and keeps the byte count equal to the rest; unknown numbers are refused |
| DaemonHttpChannel.HttpChannel.OutboundMessages | src/worker/daemon-http-channel.ts:98-110 | A batch is a prefix of the queue within the envelope budget, and the longest one |
| DaemonHttpChannel.BatchIsLongest | src/worker/daemon-http-channel.ts:98-110 | A prefix of the queue fits the budget if and only if it is part of the batch |
| DaemonHttpChannel.AcknowledgeKeepsValid | src/worker/daemon-http-channel.ts:88-96 | After an acknowledgement exactly the messages beyond it are left, in place |
| DaemonHttpChannel.SendKeepsValid | src/worker/daemon-http-channel.ts:66-80 | Sending keeps the queue consecutive, counted and within its caps |
| DaemonHttpChannel.HttpChannel.AcceptDaemonSequence | src/worker/daemon-http-channel.ts:112-117 | New, duplicate or gap |
| DaemonHttpChannel.Accept | src/worker/daemon-http-channel.ts:112-117 | New if and only if it is the next number, duplicate if and only if it was handled |
| DaemonHttpChannel.HttpChannel.CommitDaemonSequence | src/worker/daemon-http-channel.ts:119-122 | Only the next number can be committed |
| DaemonHttpChannel.HttpChannel.VerifyReady | src/worker/daemon-http-channel.ts:49-59 | Only an activated channel becomes ready |
| DaemonHttpChannel.HttpChannel.Close | src/worker/daemon-http-channel.ts:124-128 | Closing empties the queue |
| DaemonHttpExchange.ExactlyOnceInOrder | src/worker/daemon-http-controller.ts:114-139 | Over any run of lost, repeated, stale or reordered exchanges the handled log has one entry for each number from 1 to the acknowledged one, in order, each a payload received under that number |
| DaemonHttpExchange.HandledIsPrefixOfDaemonLog | src/worker/daemon-http-controller.ts:114-139 | For a daemon that always sends the same payload under the same number, the handled log is a prefix of its log |
| DaemonHttpExchange.QueueIsTheUnacknowledgedRest | src/worker/daemon-http-channel.ts:66-110 | In every run the queue of an open session is exactly the messages after the last acknowledged number, its byte count is their sum, and all caps hold |
| DaemonHttpExchange.OnlyAcknowledgedMessagesLeave | src/worker/daemon-http-controller.ts:110-112 | A message leaves the queue of a session that stays open only through an exchange that carries the activation token and acknowledges it or a later one that was sent |
| DaemonHttpExchange.NoMessageIsStuck | src/worker/daemon-http-channel.ts:98-110 | A response always carries at least the oldest unacknowledged message, so long as wrapping a payload with a number given out so far costs at most 65023 bytes |
| DaemonHttpExchange.ReadyOnlyAfterControlFlush | src/worker/daemon-http-controller.ts:118-124 | A session becomes ready only in an exchange with the activation token, at an https_ready message before which the control offer was made and every message sent so far was acknowledged |
| DaemonHttpExchange.OfferCarriesRevocations | src/worker/daemon-http-controller.ts:21-34 | A completed offer carries, between resume_calls and ready_ack, every revocation queued in storage, each of at most 65536 encoded bytes |
| DaemonHttpExchange.ResponseReportsHandled | src/worker/daemon-http-controller.ts:143 | A response acknowledges exactly the number of handled messages, and is a ready one exactly once the announcement was handled |
| DaemonHttpExchange.ServeKeepsInv | src/worker/daemon-http-controller.ts:105-163 | One exchange, however it ends, keeps the invariant of queue, logs and handshake |
| DaemonHttpExchange.AdvanceKeepsInv | src/worker/daemon-http-controller.ts:21-34 | Offering or re-queueing keeps it, even when a send throws half way |
| DaemonHttpExchange.ConsumeKeepsInv | src/worker/daemon-http-controller.ts:114-139 | Consuming messages only appends to both logs, and acknowledges nothing on the daemon's behalf |
| DaemonHttpAnswers.RefusedIff | src/worker/daemon-http-controller.ts:110-112 | An open session refuses exactly the exchanges without its activation token and those that acknowledge a message that was not sent, and then nothing changes |
| DaemonHttpAnswers.OnlyTheTokenIsServed | src/worker/daemon-http-controller.ts:146-148 | In every run an exchange without the token is refused, or finds no session, and leaves the session as it was |
| DaemonHttpAnswers.WindowIsHandled | src/worker/daemon-http-controller.ts:114-139 | A daemon that sends its unacknowledged messages again together with new ones has exactly those handled that were not handled yet, in order |
| DaemonHttpAnswers.WindowIsAcknowledged | src/worker/daemon-http-controller.ts:140-143 | Once the offer was made, such an exchange is answered with the number of the last message of its window |
| DaemonHttpAnswers.OffenceCloses | src/worker/daemon-http-controller.ts:166-173 | A number out of turn, a refused message, or readiness announced before the offer is flushed or after it was announced closes the session; the messages before it stay handled and none from it on is |
| DaemonHttpAnswers.FailureCanBeRetried | src/worker/daemon-http-controller.ts:133-138 | A message whose handling throws stays unhandled in a session that stays open, so that its number is still the next one |
| DaemonHttpAnswers.ReadyOnceFlushed | src/worker/daemon-http-controller.ts:118-124 | Conversely, once the offer was made and everything sent is acknowledged, announcing readiness makes the session ready |
| DaemonHttpAnswers.QueuedIff | src/worker/daemon-http-channel.ts:66-80 | In every open session a payload is queued, last and under the next number, exactly if it has at most 8 MiB, fewer than 64 messages wait, and all together have at most 16 MiB; else nothing changes |
| DaemonHttpAnswers.OfferIsMade | src/worker/daemon-http-controller.ts:21-31 | With an empty queue and at most 62 stored revocations the offer is made, resume_calls first |
| DaemonHttpAnswers.RevocationsAreQueued | src/worker/daemon-http-controller.ts:21-34 | After the offer every stored revocation is in the queue once an exchange was served, if there is room for all |
| DaemonHttpAnswers.RevocationsQueueOnce | src/worker/daemon-http-channel.ts:82-86 | and none of them waits there twice |
| DaemonHttpController.Controller.HandleExchange | src/worker/daemon-http-controller.ts:105-163 | The handler with its loops and early returns does exactly the step of the runs, and its batch is the longest that fits; without the activation token, or with an acknowledgement of what was not sent, it answers with a refusal and no message and changes nothing |
| DaemonHttpController.Controller.ConsumeMessages | src/worker/daemon-http-controller.ts:114-139 | The message loop, which stops at the first gap or refused message |
| DaemonHttpController.Controller.AdvanceHandshake | src/worker/daemon-http-controller.ts:21-34 | Offers once, when the queue is empty and at most 62 revocations are queued; otherwise queues revocations |
| DaemonHttpController.Controller.QueueDaemonHttpRevocations | src/worker/authority-revocations.ts:181-189 | Skips what is queued already and stops at the first one that does not fit |
| DaemonHttpController.OpenSession | src/worker/daemon-http-controller.ts:94-101 | A new session starts with an activated channel and a first offer |
| HeartbeatProxy.HeartbeatsAreInvisible | src/worker/mcp-response-proxy.ts:84-109 | For every upstream byte stream, chunking and timer schedule, interpreting the proxied stream gives what interpreting the upstream gives; a heartbeat before the first byte only costs those bytes the byte order mark rule |
| HeartbeatProxy.ForwardsInOrder | src/worker/mcp-response-proxy.ts:137-146 | What is forwarded is a prefix of what was received, all of it while the public stream is open |
| HeartbeatProxy.QuietStreamGetsHeartbeats | src/worker/mcp-response-proxy.ts:90-104 | While open, a timer sends a heartbeat exactly where no byte came yet or the last bytes ended a frame |
| HeartbeatProxy.EndsWithFrameBoundary | src/worker/mcp-response-proxy.ts:116-127 | True if and only if the chunk ends in LF LF or CR LF CR LF |
| HeartbeatProxy.BoundaryIsBlank | src/worker/mcp-response-proxy.ts:116-127 | Whatever came before, such an ending leaves an event-stream parser with nothing pending |
| HeartbeatProxy.HeartbeatIsInvisible | src/worker/mcp-response-proxy.ts:11 | The heartbeat bytes change nothing for a parser with nothing pending |
| HeartbeatProxy.ClosedIff | src/worker/mcp-response-proxy.ts:55-81 | In every schedule the public stream is closed exactly if the upstream ended or failed before any abort, an abort was followed by the settling of its cancellation, or the consumer cancelled; and the closure is finished exactly then or after an abort |
| HeartbeatProxy.UpstreamEndIsPublicEnd | src/worker/mcp-response-proxy.ts:137-149 | When the upstream of an unfinished stream ends or fails, the public stream is closed and has carried everything received |
| HeartbeatProxy.NothingAfterTheEnd | src/worker/mcp-response-proxy.ts:55-65 | A closed public stream stays closed and not a byte is written to it |
| HeartbeatProxy.NoHeartbeatAfterAbort | src/worker/mcp-response-proxy.ts:90-94 | No heartbeat follows an abort |
| HeartbeatProxy.ResponseStream.OnAbort | src/worker/mcp-response-proxy.ts:66-78 | An abort finishes the closure and leaves the public stream open until its cancellation has settled |
| HeartbeatProxy.ResponseStream.OnCancellationSettled | src/worker/mcp-response-proxy.ts:69-74 | Settling the cancellation closes the public stream |
| HeartbeatProxy.ResponseStream.OnTimer | src/worker/mcp-response-proxy.ts:90-94 | The timer callback |
| HeartbeatProxy.ResponseStream.OnChunk | src/worker/mcp-response-proxy.ts:141-146 | One chunk through the pump, with the gate updated before it is enqueued |
| HeartbeatProxy.ResponseStream.OnUpstreamDone | src/worker/mcp-response-proxy.ts:139-142 | The end of the upstream closes the public stream, unless the stream was finished before |
| HeartbeatProxy.ResponseStream.OnUpstreamError | src/worker/mcp-response-proxy.ts:147-149 | An upstream error ends the public stream, unless the stream was finished before |
| HeartbeatProxy.ResponseStream.Finish | src/worker/mcp-response-proxy.ts:55-61 | Only the first finisher is told that it is the first |
| HeartbeatVisibility.VisibleOnlyThroughTheByteOrderMark | src/worker/mcp-response-proxy.ts:90-104 | On which upstreams a page can notice a heartbeat at some moment of some schedule, in its events, last event id or reconnection time: if and only if the stream starts with a byte order mark and the first line after it is a retry field of digits, a data field with a blank line later, an id that a blank line takes over before the next id, or a type other than message under which the next blank line dispatches data before the type is set again |
| HeartbeatVisibility.NoticedIff | src/worker/mcp-response-proxy.ts:90-104 | The same of a line that is missing in front of other lines |
| HeartbeatVisibility.StateDiffersOnlyAfterTheMark | src/worker/mcp-response-proxy.ts:90-104 | When the state of the parser, what it has pending included, can differ at some moment: if and only if the first line after a leading mark is a data field, an event or id field with a usable value, or a retry field of digits |
| HeartbeatVisibility.MarkHidesFirstLine | src/worker/mcp-response-proxy.ts:90-104 | A mark that is not dropped costs a stream exactly its first line |
| HeartbeatVisibility.MarkedStreamLosesItsEvent | src/worker/mcp-response-proxy.ts:90-104 | One schedule that a page notices: a heartbeat, then a marked stream of one event, which the page does not see |
| HeartbeatVisibility.TypeAloneIsNotNoticed | src/worker/mcp-response-proxy.ts:90-104 | A marked stream that sets only a type: the state differs, but no page can notice |
| EventStream.ReadingIsParsing | src/worker/mcp-response-proxy.ts:116-127 | Reading byte by byte builds exactly what splitting into lines and interpreting them builds, by section 9.2.6 of the WHATWG HTML standard |
| DocumentWalk.BoundedDocumentSource | browser-extension/browser-operations.js:1068-1169 | The explicit-stack walk writes the pieces of the recursive serialization in order within the budget, stopping early only at the node limit; a result not marked truncated is the whole recursive serialization with the number of its nodes and open shadow roots, a page short of every limit is never marked, one whose budget ends in a piece before any length limit applied is a prefix of it exactly when that piece is unharmed, and its encoding never exceeds the byte count nor that the budget |
| DocumentWalk.UntruncatedIsFull | browser-extension/browser-operations.js:1158-1163 | Not truncated implies equal to the recursive serialization without limits |
| DocumentWalk.GetSource | browser-extension/browser-operations.js:193-211 | Over all frames, each walked within its own share: the UTF-8 bytes of all sources together stay within what is charged, and that within the maximum; each frame reached has at least an equal share, and a frame is left out only when the maximum is used up |
| DocumentWalk.WriteElement | browser-extension/browser-operations.js:1126-1150 | Opening tag, then the stack stands for the children, the shadow template and the close tag, in that order, and for as many nodes and shadow roots as are below |
| DocumentWalk.WriteLeaf | browser-extension/browser-operations.js:1151-1156 | Text is escaped except in script and style; comments cannot end early |
| DocumentWalk.WriteItem | browser-extension/browser-operations.js:1120-1157 | One round of the loop keeps the written pieces a prefix and the stack the rest, and counts its node and shadow root |
| DocumentWalk.PushReversed | browser-extension/browser-operations.js:1147-1148 | Pushing last first puts the first child on top |
| DocumentWalk.WriteAttributes | browser-extension/browser-operations.js:1129-1136 | The attribute loop, which stops when the budget is exhausted |
| DocumentPrefix.ExhaustedIsPrefix | browser-extension/browser-operations.js:1084-1107 | For every document: where the budget ends in a piece and no length limit applied up to that one, the source has the whole pieces before it and as many whole characters of it as fit, is at most three bytes short of the budget, and is a prefix of the recursive serialization without limits if and only if those characters contain no lone surrogate, and consist of nothing but U+FEFF if they start with it |
| DocumentPrefix.ExhaustedStops | browser-extension/browser-operations.js:1084-1107 | An exhausted budget always ends in one of the pieces |
| DocumentPrefix.CutIsPrefixOfPieces | browser-extension/browser-operations.js:1084-1107 | For any pieces, limited or not, the same of what the pieces join to |
| DocumentPrefix.DocumentFront | browser-extension/browser-operations.js:1116-1157 | As long as no length limit applied, the first pieces of a document join to a prefix of its recursive serialization without limits |
| DocumentPrefix.LimitCanHarmPrefix | browser-extension/browser-operations.js:1108-1116 | A page whose document type is longer than its limit: its source is cut with nothing harmed, and is a prefix of its pieces but not of the serialization without limits |
| DocumentPrefix.CutFrontIsPrefix | browser-extension/browser-operations.js:1097-1103 | The front that is kept of one text is a prefix of it, and of whatever follows, under the same condition |
| DocumentPrefix.CutCanHarmText | browser-extension/browser-operations.js:1097-1103 | Two one-paragraph pages whose cut source is not a prefix: one loses a U+FEFF, the other shows U+FFFD for half a character |
| DocumentSource.DocumentJoins | browser-extension/browser-operations.js:1116-1157 | Where no length limit applies, the pieces join to the recursive serialization |
| DocumentSource.PiecesJoin | browser-extension/browser-operations.js:1126-1156 | The same for one node, with everything below it |
| DocumentEscapes.EscapesReadBack | browser-extension/browser-operations.js:1113-1114 | Escaped text holds neither angle bracket and an escaped attribute value no quote, and read with its references resolved each is exactly what was escaped |
| DocumentEscapes.EscapesEachUnit | browser-extension/browser-operations.js:1113-1114 | The replacements one after the other come to replacing each unit by itself |
| DocumentEscapes.TextInElement | browser-extension/browser-operations.js:1151-1155 | Text is written as it is in script and style elements, and escaped anywhere else |
| DocumentEscapes.CommentEndsEarlyIff | browser-extension/browser-operations.js:1156 | Breaking -- in a comment leaves a --> in it if and only if its data holds an odd number of dashes, three at least, before > |
| DocumentEscapes.CommentIsWhole | browser-extension/browser-operations.js:1156 | Exactly then does a written comment end before its own end |
| DocumentEscapes.CommentCanEndEarly | browser-extension/browser-operations.js:1156 | The data ---> is such |
| BoundedWriter.Writer.Append | browser-extension/browser-operations.js:1084-1107 | The append closure |
| BoundedWriter.DecodablePrefix | browser-extension/browser-operations.js:1097-1102 | The decode loop finds the longest prefix that ends between characters |
| BoundedWriter.AllWritten | browser-extension/browser-operations.js:1084-1107 | After any pieces, either all are there whole, or the budget is used up and the pieces before the first that does not fit are there whole, with as many characters of that one as fit |
| BoundedWriter.WithinBudget | browser-extension/browser-operations.js:1084-1107 | The encoded output never exceeds the byte count, nor that the budget, even where two halves of a character meet |
| Utf8.CutDecodes | browser-extension/browser-operations.js:1099-1102 | A fatal decoder accepts a prefix of an encoded string if and only if it ends between characters, and drops a leading byte order mark |
| Utf8.PrefixDecodes | browser-extension/browser-operations.js:1099-1102 | The same without the byte order mark rule |
| TaskStoreRuns.StorageIsAccountedFor | src/worker/mcp-task-store.ts:212-242 | In every run: at most 128 tasks under distinct ids, 8 MiB reserved by exactly the active ones, no result above 8 MiB and only of completed tasks, results and reservations within 32 MiB, and the chunk keys in storage are exactly those of the tasks in the state |
| TaskStoreRuns.ReservationSuffices | src/worker/mcp-task-store.ts:158-173 | Completing an active task stores its result if and only if it has at most 8 MiB, whatever other tasks hold |
| TaskStoreRuns.CompletedResultSurvives | src/worker/mcp-task-store.ts:93-117 | From its completion through any later operations, until expiry or revocation, the owner reads back exactly the bytes |
| TaskStoreRuns.ResultIsReadBack | src/worker/mcp-task-store.ts:98-113 | In every reachable state an unexpired stored result is returned, never an integrity error |
| TaskStoreRuns.TerminalStatesAbsorb | src/worker/mcp-task-store.ts:134-143 | No step moves a task out of a terminal state, except completed without a result to failed; an id is used again only after expiry |
| TaskStoreRuns.StoredTaskStays | src/worker/mcp-task-store.ts:140-143 | A task with a stored result, and that result, no longer change |
| TaskStoreRuns.StepKeepsInv | src/worker/mcp-task-store.ts:44-198 | Every operation keeps the store valid and its chunks owned |
| TaskStoreRuns.UpdateKeepsInv | src/worker/mcp-task-store.ts:119-182 | Updating does so, with or without a result |
| TaskStoreRuns.CreateKeepsInv | src/worker/mcp-task-store.ts:48-80 | Creating does so |
| TaskStore.ChunksAreOwned | src/worker/mcp-task-store.ts:271-275 | A chunk key is stored if and only if it belongs to a task |
| TaskStore.RemovedKeepsInv | src/worker/mcp-task-store.ts:259-263 | Pruning and revoking leave every kept task whole and nothing of a dropped one |
| TaskStoreAccess.ResultAnswers | src/worker/mcp-task-store.ts:93-117 | In every reachable state getResult answers with bytes exactly if the caller, in all five fields of its authority, owns an unexpired task of that id with a stored result, and they are that result; it never throws |
| TaskStoreAccess.GetAnswers | src/worker/mcp-task-store.ts:82-91 | get answers with a task exactly if it has that id, is unexpired and the caller owns it |
| TaskStoreAccess.CreateAnswers | src/worker/mcp-task-store.ts:48-80 | create answers with the caller's own unexpired task of that id, or, where nobody has one, the id is well-formed and there is room, with a new working task that reserves 8 MiB for a day; otherwise with nothing |
| TaskStoreAccess.UpdateAnswers | src/worker/mcp-task-store.ts:119-182 | updateStatus finds the caller's own unexpired task or nothing; it answers with exactly the record of a table, replaces that task alone, and touches no other chunk |
| TaskStoreAccess.CancelAnswers | src/worker/mcp-task-store.ts:184-197 | Revoking an authority removes exactly the tasks of its account version, client and family, says how many, and leaves no chunk of them |
| TaskStoreAccess.StrangersGetNothing | src/worker/mcp-task-store.ts:253-257 | In every run whoever does not own the task of an id neither reads it nor its result, nor changes it |
| TaskStoreAccess.InvalidStateIsRefused | src/worker/mcp-task-store.ts:200-219 | Over a stored state with too many tasks, too many bytes, repeated ids or an ill-formed task every operation throws and changes nothing |
| TaskStoreService.McpTaskStore.Create | src/worker/mcp-task-store.ts:48-80 | The transaction, with pruning and every refusal |
| TaskStoreService.McpTaskStore.Get | src/worker/mcp-task-store.ts:82-91 | The transaction |
| TaskStoreService.McpTaskStore.GetResult | src/worker/mcp-task-store.ts:93-117 | The read loop, concatenation and integrity check; a failure leaves storage as it was |
| TaskStoreService.McpTaskStore.UpdateStatus | src/worker/mcp-task-store.ts:119-182 | The transaction, with its chunk writes |
| TaskStoreService.McpTaskStore.CancelAuthority | src/worker/mcp-task-store.ts:184-197 | Removes exactly the matching tasks and their chunks |
| TaskStoreService.McpTaskStore.RemoveOthers | src/worker/mcp-task-store.ts:259-263 | The filter and the nested delete loops |
| TaskStoreService.McpTaskStore.PutChunks | src/worker/mcp-task-store.ts:164-168 | The chunk loop |
| TaskResultCodec.ResultChunkKeyInjective | src/worker/mcp-task-result-codec.ts:1-3 | Different tasks or indexes have different chunk keys |
| TaskResultCodec.ChunksJoin | src/worker/mcp-task-store.ts:164-168 | The chunks of a result, joined, are the result |
| TaskResultCodec.Concatenate | src/worker/mcp-task-result-codec.ts:38-44 | Fills the buffer with the chunks in order; refuses any other total length |
| TaskResultCodec.EncodeBase64 | src/worker/mcp-task-result-codec.ts:21-27 | Encodes in slices, and decodes to the same bytes |
| Base64.Base64RoundTrip | src/worker/mcp-task-result-codec.ts:21-36 | Decoding undoes encoding (section 4 of RFC 4648) |
| Base64.AnnouncedSizeIsDecodedSize | browser-extension/browser-operations.js:1441-1445 | The size computed without decoding is the size of the decoded bytes |
| Base64.GroupsKeepTheirBits | src/worker/mcp-task-result-codec.ts:21-27 | Each group of three bytes is written as the four digits of its 24-bit number, an incomplete one as if filled up with zeros |
| Base64.DigitsAreTheAlphabet | src/worker/mcp-task-result-codec.ts:21-27 | The digits are those of table 1 of RFC 4648 |
| AuthorityRevocations.CoversIsInclusion | src/worker/authority-revocations.ts:139-144 | One record covers another if and only if it denies everyone whom the other denies |
| AuthorityRevocations.CoversIsPreorder | src/worker/authority-revocations.ts:139-144 | Covering is reflexive and transitive |
| AuthorityRevocations.RunKeepsQueueOk | src/worker/authority-revocations.ts:50-84 | In every run the queue is an antichain of at most 1024 well-formed records under distinct ids |
| AuthorityRevocations.MergeKeepsQueueOk | src/worker/authority-revocations.ts:123-137 | One merge keeps it so |
| AuthorityRevocations.MergeIsSound | src/worker/authority-revocations.ts:123-137 | A merge denies exactly what was denied before and what the candidate denies; when it collapses, besides that exactly the rest of the candidate's account version |
| AuthorityRevocations.MergeIsExactWithRoom | src/worker/authority-revocations.ts:123-137 | With fewer than 1024 records a merge neither throws nor widens: exactly those are denied who were before and the owners of the revoked account version, client and family |
| AuthorityRevocations.MergeThrowsIff | src/worker/authority-revocations.ts:126-136 | A merge throws if and only if the queue is full and holds no record of the candidate's account version |
| AuthorityRevocations.WriteIsAtomic | src/worker/authority-revocations.ts:50-61 | In every run a write denies all its candidates and whoever was denied before, or where one merge throws changes nothing; with room for all of them it does not throw |
| AuthorityRevocations.AcknowledgeRemovesOnlyItsRecord | src/worker/authority-revocations.ts:74-84 | An acknowledgement drops one record, and only what that record denied can stop being denied |
| AuthorityRevocations.NothingIsForgotten | src/worker/authority-revocations.ts:50-84 | An owner denied at some point of a run and not at its end was denied by a record acknowledged in between |
| AuthorityRevocations.MergedAllDenies | src/worker/authority-revocations.ts:50-61 | Writing several revocations denies all of them, and nobody of another account version |
| AuthorityRevocations.RevocationQueue.MergeRevocation | src/worker/authority-revocations.ts:123-137 | The merge, step by step |
| AuthorityRevocations.RevocationQueue.WriteAuthorityRevocations | src/worker/authority-revocations.ts:50-61 | All candidates are merged, or storage is left as it was |
| AuthorityRevocations.RevocationQueue.AcknowledgeAuthorityRevocation | src/worker/authority-revocations.ts:74-84 | True if and only if a record had the id |
| DerSignature.AcceptsExactlySignatures | native/macos/MachineBridgeTrustBroker.swift:225-259 | The accepted inputs are exactly the encodings of two integers below 2 to the 256 with nothing after them; the output is their values, 32 bytes each |
| DerSignature.DerRoundTrip | native/macos/MachineBridgeTrustBroker.swift:225-259 | Parsing the DER encoding of any r and s below 2 to the 256 gives both numbers as 32 big-endian bytes |
| DerSignature.OutputKeepsValues | native/macos/MachineBridgeTrustBroker.swift:236-245 | Both halves of the output have the unsigned values that were encoded |
| DerSignature.DerReader.DerToP1363Bytes | native/macos/MachineBridgeTrustBroker.swift:225-259 | The reader with its shared index |
| DerSignature.DerReader.ReadLengthOctets | native/macos/MachineBridgeTrustBroker.swift:232-240 | Short form, or long form with one or two octets |
| DerSignature.DerReader.ReadIntegerOctets | native/macos/MachineBridgeTrustBroker.swift:244-254 | One integer |
| DerSignature.ToThirtyTwo | native/macos/MachineBridgeTrustBroker.swift:250-252 | The strip and pad loops give the 32-byte form of the value, and fail if and only if it does not fit |
| CancellationRegistry.NoCancellationIsLost | src/worker/mcp-request-cancellation.ts:34-87 | A key cancelled while not active and first opened within the time to live opens already aborted, whatever happens in between, even when the tombstones overflow |
| CancellationRegistry.OpensAbortedExactlyIf | src/worker/mcp-request-cancellation.ts:57-72 | A request opens aborted if and only if it was itself aborted, an unbounded registry would remember its key as cancelled, or the registry is failing closed |
| CancellationRegistry.TombstonesAreBounded | src/worker/mcp-request-cancellation.ts:42-53 | The table never exceeds its cap, and failing closed ends within one time to live |
| CancellationRegistry.StepKeepsInv | src/worker/mcp-request-cancellation.ts:34-106 | Every operation keeps the bounded registry tied to the unbounded one |
| CancellationRegistry.AbortedIff | src/worker/mcp-request-cancellation.ts:37-71 | In every run a controller is aborted exactly if its key was cancelled while it was the active one, its lease or request aborted it, or it was opened aborted; nothing undoes that |
| CancellationRegistry.ActiveIff | src/worker/mcp-request-cancellation.ts:71-79 | In every run a key stands for a controller exactly from the open that made it until the release by its own lease |
| CancellationRegistry.CancelAbortsTheActive | src/worker/mcp-request-cancellation.ts:37-41 | In every run cancelling an open request aborts its controller and no other, keeps it registered and remembers nothing for later |
| CancellationRegistry.EarlyCancelAbortsNothing | src/worker/mcp-request-cancellation.ts:42-54 | Cancelling a key that is not open aborts nothing yet |
| CancellationRegistry.AbortedStays | src/worker/mcp-request-cancellation.ts:60-63 | An aborted controller stays aborted |
| CancellationRegistry.FailsClosedOnlyWhenFull | src/worker/mcp-request-cancellation.ts:43-53 | In every run the registry fails closed only on account of a cancellation for which no tombstone was free, and for one time to live after it |
| CancellationRegistry.McpRequestCancellationRegistry.Cancel | src/worker/mcp-request-cancellation.ts:34-55 | The operation; the controller of an active key is aborted by it |
| CancellationRegistry.McpRequestCancellationRegistry.Open | src/worker/mcp-request-cancellation.ts:57-87 | The operation; a duplicate identity throws |
| CancellationRegistry.McpRequestCancellationRegistry.Release | src/worker/mcp-request-cancellation.ts:74-79 | Only the lease that owns the key releases it |
| CancellationRegistry.McpRequestCancellationRegistry.Prune | src/worker/mcp-request-cancellation.ts:100-106 | Drops exactly the expired tombstones, and ends failing closed when its time is over |
| NonceStore.AcceptedIsValid | src/worker/nonce-store.ts:35-60 | What is accepted has the pattern and expires after now and within the window; anything else leaves the store alone |
| NonceStore.SingleUse | src/worker/nonce-store.ts:30-46 | Over any run with a clock that does not go back, a nonce is accepted at most once before its recorded expiry |
| NonceStore.SignedRequestIsConsumedOnce | src/worker/daemon-http-auth.ts:39-56 | With the half-open windows of the daemon preflight and relay, a signed request is consumed at most once ever, whatever other requests carry its nonce |
| NonceStore.ProofIsConsumedTwiceOnlyAtTheEnd | src/worker/dpop.ts:40-75 | With the inclusive DPoP window a proof is consumed a second time only in the last second of its window, and never a third time |
| NonceStore.SecondUseIff | src/worker/dpop.ts:40-75 | In any run, a proof consumed before is consumed again if and only if that is the last second of its window and later than before, no acceptance of its nonce in between is unexpired, and the record has room |
| NonceStore.SecondUseHappens | src/worker/dpop.ts:40-75 | Used alone, within its window and then in its last second, a proof is consumed twice |
| NonceStore.UnexpiredUse | src/worker/nonce-store.ts:30-46 | In any run the record holds an unexpired use of a nonce if and only if an earlier acceptance of it has not expired |
| NonceStore.AcceptsIff | src/worker/nonce-store.ts:30-46 | In a run a nonce is accepted if and only if it has no unexpired use and the record has room |
| NonceStore.RecordIsBounded | src/worker/nonce-store.ts:43 | The record never exceeds its maximum |
| NonceStore.NonceStorage.ConsumeBoundedNonce | src/worker/nonce-store.ts:20-46 | The transaction, with its option checks |
| NonceStore.ValidNonceRecord | src/worker/nonce-store.ts:62-73 | The counting loop accepts exactly the records within the maximum, the pattern and the latest expiry |
| MonitorClaimRuns.ClaimsAreBounded | src/worker/mcp-job-monitor-store.ts:103-116 | In every run: at most 128 claims, under distinct ids and distinct sequences from 1 up to the counter, at most one per job and owner |
| MonitorClaimRuns.NotClaimedBeforeActivation | src/worker/mcp-job-monitor-store.ts:44-70 | No claim, refresh or lookup succeeds under an id that no activation accepted earlier in the run |
| MonitorClaimRuns.ReplacedIsNeverAccepted | src/worker/mcp-job-monitor-store.ts:32-42 | An id that a newer issue for the same job and owner replaced is never accepted again |
| MonitorClaimRuns.IssueKeepsInv | src/worker/mcp-job-monitor-store.ts:32-42 | Issuing replaces the earlier claim of the job and owner; the claim whose id it returns is stored if and only if the counter is below its renumbering threshold |
| MonitorClaimRuns.TouchKeepsInv | src/worker/mcp-job-monitor-store.ts:83-94 | Activating, claiming or refreshing makes that claim the most recent one |
| MonitorClaimRuns.TouchKeepsOrder | src/worker/mcp-job-monitor-store.ts:141-144 | The other claims keep their order of use, even when all are renumbered |
| MonitorClaimRuns.RetiredStaysRetired | src/worker/mcp-job-monitor-store.ts:32-95 | An issued id that has left the store never comes back |
| MonitorClaims.EvictsLeastRecent | src/worker/mcp-job-monitor-store.ts:140 | Eviction drops the claim with the smallest sequence |
| MonitorClaims.BumpedKeepsInv | src/worker/mcp-job-monitor-store.ts:141-144 | After a bump the counter is above every sequence in use; renumbering keeps the order and everything else |
| MonitorClaimAccess.ActivatesIff | src/worker/mcp-job-monitor-store.ts:83-94 | Activation succeeds exactly for the holder's own issued and unexpired claim of that job and id |
| MonitorClaimAccess.ClaimsIff | src/worker/mcp-job-monitor-store.ts:48-56 | claim succeeds exactly for the holder's own claim that was taken before, or is active and unexpired |
| MonitorClaimAccess.RefreshesIff | src/worker/mcp-job-monitor-store.ts:58-70 | refresh succeeds exactly for the holder's own taken claim, expired or not; has also asks that it is unexpired |
| MonitorClaimAccess.SuccessMoves | src/worker/mcp-job-monitor-store.ts:139-144 | A success gives that claim its new state, five minutes and the latest number, and keeps every other standing claim but for its number |
| MonitorClaimAccess.IssueFiles | src/worker/mcp-job-monitor-store.ts:37-40 | Below the renumbering threshold the new claim is filed for five minutes under the next number, above all others |
| MonitorClaimAccess.IssueSpares | src/worker/mcp-job-monitor-store.ts:32-42 | Issuing keeps every standing claim of other jobs and holders while they are fewer than 128, and otherwise all but the least recently used |
| MonitorClaimAccess.CancelAnswers | src/worker/mcp-job-monitor-store.ts:72-81 | Revoking an authority removes exactly its claims; the counter starts over once none is left |
| MonitorClaimStore.ManagedJobMonitorClaimStore.Issue | src/worker/mcp-job-monitor-store.ts:32-42 | The transaction on shared arrays: the push goes to the array taken before the counter moved |
| MonitorClaimStore.ManagedJobMonitorClaimStore.Activate | src/worker/mcp-job-monitor-store.ts:83-94 | The transaction |
| MonitorClaimStore.ManagedJobMonitorClaimStore.TakeClaim | src/worker/mcp-job-monitor-store.ts:48-56 | The transaction |
| MonitorClaimStore.ManagedJobMonitorClaimStore.Refresh | src/worker/mcp-job-monitor-store.ts:63-70 | The transaction, which does not prune first |
| MonitorClaimStore.ManagedJobMonitorClaimStore.CancelAuthority | src/worker/mcp-job-monitor-store.ts:72-81 | Removes exactly the matching claims; the counter goes with the last one |
| MonitorClaimStore.WorkingState.BumpSequence | src/worker/mcp-job-monitor-store.ts:141-144 | Sorts in place, then replaces the array |
| MonitorClaimStore.WorkingState.EvictOldest | src/worker/mcp-job-monitor-store.ts:140 | Removes the first smallest sequence |

## Left out

- WebSocket transport, the choice between several channels, standby and takeover in the relay handler: one HTTPS session is modelled from its activation on.
- Liveness timeouts, alarms, observability, diagnostics and the attachment of a channel: no property here depends on them.
- Pending calls and their settlement: `pending-calls.ts` is not part of this model; a tool call is a payload sent at any time.
- Awaiting inside an exchange or a lock: each is one step.
- Cryptography, random tokens, hashing and DPoP signatures: free terms or parameters, as described above.
- Reading and writing JSON, URLs, headers and regular-expression field checks: inputs are typed values; JSON text is a parameter or a byte string. What a stored value fails in its field checks is one `Malformed` case, and a refresh store that fails them is not modelled.
- The argument checks of recordConsumedRefreshToken: its only caller always meets them.
- Scopes of the refresh grant are the two canonical strings, or text that is not canonical.
- Access tokens always carry a family, as every pair that is issued does; authorization codes and their redemption are the one action that starts a family.
- Cancellation reasons, abort listeners and the observability callback of failing closed; one operation of the cancellation registry happens at one instant.
- The clocks of signature verification and of consuming a DPoP proof or a preflight nonce are one instant.
- Nonces that are names of properties every object has: the patterns of all callers exclude them.
- Lower-casing of tag names is a parameter of the page source, and the DOM is an immutable tree.
- Parsing the JSON of a task result after its integrity check.
- Roles and policies, pages, CORS, tool descriptions, widgets and counters: easy, or user interface.
- DaemonHttpExchange.NoMessageIsStuck: assumes that wrapping a payload with a number given out so far costs at most 65023 bytes; the encoding itself is a parameter.
- DaemonHttpExchange.OfferCarriesRevocations: assumes that each revocation at hand is encoded in at most 65536 bytes; its fields are identifiers of bounded length.
- RefreshService.DurableStorage.LoadOAuthRefreshStore: its own save is taken to commit; where it does not, the request fails before it changes anything.
- RefreshService.DurableStorage.Save: keeps the markers as one record; that their eight shards give back exactly what was saved is RefreshShards.ShardsRoundTrip, and a shard that overflows is a commit that fails.
- RefreshWitnesses.SuccessCanSignOut: a state that satisfies the invariant of all runs, not a run that leads to it.
- DocumentEscapes.CommentEndsEarlyIff: is about `-->` alone; a comment that starts with `>` or `->`, or holds `--!>`, ends early in HTML too.
