# Session platform: verified models

Dafny models of four connected parts of a live-session platform (a Go back end and a SvelteKit web
tier), and proofs of what they are for.

- **Tamper-evident trail.** Canonical encodings, the Merkle tree of sections 2.1 and 2.1.1 of RFC 6962,
  the hash-chained signed audit log and consent ledger, the presence checkpoint worker and its
  verifier. Main results: `Merkle.RootBinding`, `Merkle.VerifyProofExact`, `Audit.LastHashBindsLog`,
  `AuditStore.EveryRunVerifies`, `Presence.SuccessBindsRows`, `PresenceRuns.EveryRunVerifies`,
  `PresenceProgress.AllVerified`, `PresenceAnchors.DetectsExactly`, `AuditEffects.AccountsFollowLog`.
- **Session credentials.** Single-use refresh rotation with family revocation, the revoke-all
  generation, and the web tier's single-flight refresh. Main results: `RefreshTokens.RunKeepsInv`,
  `RotatesOnce`, `ReuseEndsFamily`, `RefreshOutcomes.TokenLivesExactly`,
  `Sessions.RevokedForGood`, `Sessions.RevokeAllInterleaved`,
  `Sessions.SessionLivesExactly`, `SingleFlight.NeverSpentTwice`, `SingleFlight.ReuseExactly`,
  `SingleFlight.LostAnswerExactly`.
- **Recording behind consent.** The recording status machine, the latest-wins gate and the hook that
  stops a recording on withdrawal. Main results: `ConsentLedger.GateMeansAsked`,
  `Recording.StoreKeepsOneInFlight`, `Recording.RunKeeps`, `Recording.ConsentHoldsWhileRecording`,
  `Recording.StatementGuardExactly`, `Egresses.ConsentHoldsWhileLive`.
- **Bounded caches.** The token-bucket limiter and the two dedupe maps, against versions that never
  forget. Main results: `RateLimiter.RateBoundedExactly`, `RateLimiter.SweepUnobservableExactly`,
  `RateLimiter.ConfiguredExactly`, `RateDecisions.SweptDecisionExactly`, `Dedupe.AuditExactly`,
  `Dedupe.DuplicateExactly`.

How the models are built:

- SHA-256 is an arbitrary function to 32-byte strings. No injectivity is assumed. A binding result says
  "equal, or these two inputs collide", and the two inputs are computed from the arguments
  (`RootCollision`, `ProofCollision`, `ChainEvidence`, `TrailCollision`).
- A signature scheme is an arbitrary triple; the only assumption is that what a key signs, its public
  key verifies (`HashChain.SignaturesVerify`). MACs and jsonb normalisation are arbitrary functions too.
- An object or table that the source updates is a class; each method's postcondition equates the new
  contents with a step function of the old ones, and the theorems are about every sequence of steps.
  A transaction or a service call is one step. Database and network failures are parameters.
- Clocks, fresh ids and answers of external services are parameters of the step they occur in.
- Integers are unbounded, except where the source's width matters: length prefixes and versions are
  reduced modulo 2^32, seqs and times are 64-bit, `token_version` is a 32-bit column.

Where code and its own documentation differ, the code is followed:

- The stores' comments call terminal recording states sticky; `SetRecordingEgress` has no such guard.
  `Recording.ExecSticky` gives the exact condition, `Recording.LateHandOffReopens` the race, and
  `Recording.LateHandOffIgnoresWithdrawal` what it does to a withdrawn consent. Whole service calls do
  keep finished recordings frozen (`Recording.RunKeeps`). A hand-off that fails leaves an egress that no
  withdrawal stops (`Egresses.LostHandOffOutlivesWithdrawal`).
- "Every present participant consents while recording" is restored only on a consent change: a join
  does not reconcile. `Recording.JoinExactly` says when a join breaks it and
  `Recording.JoinBreaksGuarantee` gives a run from the empty system that does.
- "Non-positive values fall back to permissive defaults": with rps below one and no burst, the burst is
  zero (`RateLimiter.Configure`).
- The idle sweep is described as bounding memory only. It is unobservable exactly when the burst is at
  least one and rate * 600 reaches it, and the rate bound holds exactly then too
  (`RateLimiter.ConfiguredExactly`). A limiter built with rps 0.5 and no burst meets neither: a key is
  let in once, refused for ever, and let in again after a sweep (`RateLimiter.ZeroBurstShows`).
- An audit entry whose metadata does not survive jsonb storage byte for byte makes the log stop
  verifying (`AuditStore.CommitExact`; `AuditStore.SpacedMetadataBreaksLog` is the input). No present
  caller supplies metadata, so every entry the program writes today carries the empty object.
- The presence verifier looks at a signed entry's target and not at its action. The moderation endpoint
  for the instructor capability takes the target id from the request path, and its UPDATE does not fail
  for an id that names no user, so a moderator's request reaches an entry that reads as a commitment and
  anchors made-up rows (`PresenceAnchors.ModeratorTargetAnchors`). Rewriting is detected exactly when the
  log holds no such entry (`PresenceAnchors.DetectsExactly`).
- Revoke-all and refresh are not transactions. A refresh that rotates before a revoke-all and mints after
  it hands out an access token that validates (`Sessions.RefreshStraddlesRevokeAll`); everything issued
  or minted before stays refused under any interleaving (`Sessions.RevokeAllInterleaved`).
- Encodings are injective only while no length wraps at 2^32 (`Contracts.AuditPayloadWraps`).

## Model

| member | source | states |
|---|---|---|
| `FieldCodec.PutField` | pkg/contracts/audit.go:88-91 | appending to the buffer extends the encoded field list by exactly one length-prefixed field |
| `FieldCodec.TakeFieldsInverse` | pkg/contracts/audit.go:88-91 | a parser recovers any list of fields shorter than 2^32 bytes, and what follows them |
| `Contracts.SignedAuditPayload` | pkg/contracts/audit.go:76-104 | the growing buffer ends as version, time and the eight fields in canonical order |
| `Contracts.AuditPayloadRoundTrip` | pkg/contracts/audit.go:76-104 | parsing a payload gives back every signed field if and only if no length or version is cut to 32 bits |
| `Contracts.AuditPayloadInjective` | pkg/contracts/audit.go:76-104 | entries within the limits that share a payload share every signed field |
| `Contracts.AuditPayloadWraps` | pkg/contracts/audit.go:76-104 | beyond the limits it fails: two different entries with 2^32-byte fields share a payload |
| `Contracts.SignedConsentPayload` | pkg/contracts/consent.go:53-81 | the growing buffer ends as the canonical consent encoding |
| `Contracts.PutConsentTail` | pkg/contracts/consent.go:71-80 | the decision byte, the time and the key id close the buffer |
| `Contracts.ConsentPayloadRoundTrip` | pkg/contracts/consent.go:53-81 | parsing gives back every signed field if and only if no length or version is cut down |
| `Contracts.ConsentPayloadInjective` | pkg/contracts/consent.go:53-81 | records within the limits that share a payload share every signed field |
| `Contracts.EncodeLeaf` | internal/presence/presence.go:160-181 | the growing buffer ends as the canonical leaf encoding |
| `Contracts.LeafRoundTrip` | internal/presence/presence.go:160-181 | parsing a leaf gives back the event (to the second) if and only if no field length is cut down |
| `Contracts.LeafInjective` | internal/presence/presence.go:160-181 | events within the limits with one leaf encoding are equal |
| `Merkle.LargestPow2LessThan` | pkg/merkle/merkle.go:35-41 | the doubling loop finds the largest power of two strictly below n |
| `Merkle.RootBinding` | pkg/merkle/merkle.go:17-56 | two leaf lists of any lengths with one root are equal, or the extractor names a hash collision |
| `Merkle.SmallTreesAgree` | pkg/merkle/merkle.go:17-56 | empty, leaf and node hash inputs are told apart by their first byte |
| `Merkle.PathVerifies` | pkg/merkle/merkle.go:68-114 | the audit path of leaf m rebuilds the root |
| `Merkle.ProofBinding` | pkg/merkle/merkle.go:89-114 | a proof that rebuilds the real root is leaf m with its own path, or the extractor names a collision |
| `Merkle.VerifyProofExact` | pkg/merkle/merkle.go:58-114 | verification accepts exactly the right leaf with its own proof, up to a named collision, and nothing out of range |
| `Merkle.PathLength` | pkg/merkle/merkle.go:68-77 | a proof of length d over more than one leaf satisfies 2^(d-1) < number of leaves |
| `HashChain.AcceptanceMeans` | internal/audit/audit.go:95-118 | a chained log is accepted if and only if its links match and each record passes on its own |
| `HashChain.RejectionSticks` | internal/audit/audit.go:95-118 | a rejected prefix decides the verdict, so every prefix of an accepted log is accepted |
| `HashChain.FailureLocated` | internal/audit/audit.go:95-118 | a rejection is the error of the first record at which the prefix stops being accepted |
| `HashChain.WalkStep` | internal/audit/audit.go:101-116 | one turn of the walk stops with the link or record error, or accepts one record more |
| `HashChain.AppendAccepted` | internal/audit/audit.go:95-118 | one more record is accepted if and only if the log is, the link matches and the record passes |
| `HashChain.ChainBinding` | internal/audit/audit.go:99-118 | linked payload lists ending in one digest are equal, or a collision or genesis preimage is named |
| `HashChain.AcceptedIsLinked` | internal/audit/audit.go:99-118 | an accepted log's payloads are linked by their own digests |
| `Audit.VerifyEntry` | internal/audit/audit.go:81-93 | accepted if and only if the stored hash is the content's, the key is known and the signature verifies; errors name the cause and the seq |
| `Audit.VerifyChain` | internal/audit/audit.go:99-118 | the loop returns the first error, and none exactly when linkage and every entry are in order |
| `Audit.LastHashBindsLog` | internal/audit/audit.go:99-118 | accepted logs with one last hash agree in length and every signed field, or a collision or genesis preimage is named |
| `ConsentLedger.VerifyChain` | internal/consent/consent.go:112-128 | the loop returns the first error, and none exactly when linkage and every signature are in order |
| `ConsentLedger.LastHashBindsLedger` | internal/consent/consent.go:112-128 | accepted ledgers with one last hash agree in length and every signed field, or evidence is named |
| `ConsentLedger.NewRecordPasses` | internal/store/consent.go:49-62 | a freshly signed record passes under any key set that knows its signer |
| `ConsentLedger.ChainRecord` | internal/store/consent.go:30-76 | the new record links to the hash of the tail record, or to the genesis hash |
| `ConsentLedger.AppendKeepsVerifying` | internal/store/consent.go:30-76 | an append leaves an accepted ledger accepted |
| `ConsentLedger.ConsentStore.UseSigner` | internal/store/consent.go:30-76 | changing the key keeps the ledger accepted |
| `ConsentLedger.ConsentStore.AppendConsent` | internal/store/consent.go:30-76 | all or nothing: succeeds exactly with a signer and no fault, keeps the ledger accepted, and makes the decision asked for effective for its subject, session and purpose and no other |
| `ConsentLedger.RecordSays` | internal/store/consent.go:49-62 | the appended record carries what was asked, when, and under which key |
| `ConsentLedger.AppendDecides` | internal/store/consent.go:49-94 | after an append the decision asked for is the effective one where it was asked, and every other stands |
| `ConsentLedger.LastAskDecides` | internal/store/consent.go:80-94 | after any list of appends, effective consent is the last decision asked for on that subject, session and purpose |
| `ConsentLedger.EffectiveIsLast` | internal/store/consent.go:80-94 | effective consent is the decision of the last matching record, false with none |
| `ConsentLedger.LatestIsEffective` | internal/store/consent.go:101-123 | the newest-per-subject query agrees with effective consent for every subject |
| `ConsentLedger.GateMeans` | internal/store/consent.go:96-123 | the two counts agree if and only if someone is present and every present participant's effective consent is granted |
| `ConsentLedger.GateMeansAsked` | internal/store/consent.go:96-123 | the gate over any list of appends: someone is present, and the last decision each participant present asked for is a grant |
| `Text.ParseFormat` | internal/store/presence_checkpoint.go:47-76 | decimal parsing inverts formatting for every int64 |
| `Text.SplitJoin` | internal/store/presence_checkpoint.go:55-58 | splitting distributes over a separator between any two strings |
| `Text.SplitWhole` | internal/recording/playtoken.go:58-61 | a string splits into itself alone if and only if it lacks the separator |
| `Text.CutJoin` | internal/recording/playtoken.go:43-46 | cutting at the first separator undoes joining when the left part lacks it |
| `Base64.EncodeAlphabet` | internal/recording/playtoken.go:33-38 | encoded text uses only the alphabet (and padding, where there is any) |
| `Base64.DecodeEncode` | internal/recording/playtoken.go:33-73 | decoding inverts encoding for every byte string under both alphabets (sections 4 and 5 of RFC 4648) |
| `CheckpointTarget.TargetRoundTrip` | internal/store/presence_checkpoint.go:47-76 | parsing inverts encoding for every root, of any length, and every int64 range and count |
| `PlayToken.ReadBack` | internal/recording/playtoken.go:58-73 | a payload reads back exactly when not expired and both ids are nonempty and free of the separator |
| `PlayToken.TokenRoundTrip` | internal/recording/playtoken.go:33-73 | a minted token parses to its subject and recording exactly then, and is refused otherwise |
| `CodecOutcomes.SplitExactly` | internal/recording/playtoken.go:58-61 | splitting cuts at every separator and nowhere else |
| `CodecOutcomes.CutExactly` | internal/recording/playtoken.go:43-46 | cutting fails only without a separator and otherwise cuts at the first |
| `CodecOutcomes.ParseIntExactly` | internal/recording/playtoken.go:62-65 | parsing accepts exactly an optional sign, any zeros and the digits of a number that fits in 64 bits |
| `CodecOutcomes.DecodeExactly` | internal/recording/playtoken.go:47-57 | what decodes is, line breaks aside, the encoding of what comes out, up to the spare bits of its last character |
| `CodecOutcomes.TargetExactly` | internal/store/presence_checkpoint.go:54-76 | a text parses to a commitment if and only if it is four colon-free parts that read as its root, range and count |
| `CodecOutcomes.TargetErrors` | internal/store/presence_checkpoint.go:54-76 | of four parts, the first that does not read is the one complained of |
| `CodecOutcomes.ParseExactly` | internal/recording/playtoken.go:42-73 | a token, however made, is accepted if and only if its signature decodes to the MAC of its payload and the payload to that subject and recording, unexpired |
| `AuditStore.Store.PrepareEntry` | internal/store/audit.go:39-72 | the entry links to the tail, defaults its metadata, and carries its hash and signature |
| `AuditStore.Store.InAuditTx` | internal/store/audit.go:86-146 | the transaction performs exactly the step function: mutation (a suspension with its refresh-token revocation) and entry together, or neither |
| `AuditEffects.AuditedExactly` | internal/store/audit.go:39-146 | an operation commits exactly with a signer, statements that go through, JSON metadata and no fault; then its target is changed as the action says, nobody else is, and one linked entry says so; otherwise log and accounts stay |
| `AuditEffects.LogRecordsCommitted` | internal/store/audit.go:128-146 | after any run the log has grown by one entry for each committed operation, in order |
| `AuditEffects.AccountsFollowLog` | internal/store/audit.go:86-118 | after any run each account is what the committed operations, in log order, make of it: status by the last suspension or reinstatement, capability by the last grant or withdrawal, version by the number of suspensions |
| `AuditEffects.TokensFollowLog` | internal/store/audit.go:89-99 | after any run a refresh token is revoked if and only if it was before or a committed suspension of its user was in it |
| `AuditStore.NewEntryVerifies` | internal/store/audit.go:57-72 | a freshly signed entry passes `VerifyEntry`, whatever seq it is given |
| `AuditStore.CommitExact` | internal/store/presence_checkpoint.go:34-38 | the log stays accepted if the metadata survives jsonb storage, and only then up to a named collision |
| `AuditStore.SpacedMetadataBreaksLog` | internal/store/audit.go:53-56 | metadata written as "{ }" and stored as "{}" commits, and its log is rejected or its two payloads collide |
| `AuditStore.StepKeepsInv` | internal/store/audit.go:39-146 | every operation, failed or not, keeps the log accepted and its seqs increasing |
| `AuditStore.RunKeepsInv` | internal/store/audit.go:39-146 | so does every sequence of operations and key changes |
| `AuditStore.EveryRunVerifies` | internal/store/audit.go:39-146 | every prefix of the log any run leaves is accepted under all keys used |
| `AuditStore.EntryBySeq` | internal/store/presence_checkpoint.go:185-208 | a hit is an entry of the log with that seq |
| `AuditStore.EntryFound` | internal/store/presence_checkpoint.go:185-208 | every entry of a log with increasing seqs is found by its seq |
| `Presence.Verify` | internal/presence/presence.go:98-155 | one pass computes the outcome, and the inclusion-proof failure it guards against cannot occur |
| `Presence.LeavesAndIndex` | internal/presence/presence.go:114-121 | the loop fills the leaves of all rows and finds the position of the event |
| `Presence.LeavesInjective` | internal/presence/presence.go:160-181 | row lists with one leaf list are equal |
| `Presence.RowsBind` | internal/presence/presence.go:110-137 | rows whose tree has the checkpointed root are the checkpointed rows, or a collision is named |
| `Presence.AnchorBinds` | internal/presence/presence.go:139-154 | a passed entry check against the genuine payload gives the genuine root |
| `Presence.SuccessBindsRows` | internal/presence/presence.go:98-181 | if verification succeeds over arbitrary tables, the rows now in range are exactly those checkpointed and include the event, or a collision is named |
| `PresenceOutcomes.CoveringExactly` | internal/store/presence_checkpoint.go:165-181 | the checkpoint found contains the seq and ends last of those that do; none is found only if there is none |
| `PresenceOutcomes.RangeExactly` | internal/store/presence_checkpoint.go:102-115 | a range read returns exactly the rows in the range |
| `PresenceOutcomes.LatestExactly` | internal/store/presence_checkpoint.go:78-84 | the resume point is the largest end of any checkpoint, 0 with none |
| `PresenceOutcomes.UncoveredExactly` | internal/presence/presence.go:98-108 | no verifier exactly without keys; not checkpointed exactly when no checkpoint contains the seq |
| `PresenceOutcomes.CoveredExactly` | internal/presence/presence.go:110-154 | each other outcome is reported exactly when its condition is the first to fail: row stored, rows intact, entry there and valid, target well-formed, root the same |
| `PresenceRuns.Worker.Checkpoint` | internal/presence/presence.go:70-92 | one tick reads on from the resume point, hashes the batch and writes entry and index row together, or nothing |
| `PresenceProgress.TickExactly` | internal/presence/presence.go:70-92 | a tick writes if and only if a row is uncovered, there is a signer and no fault; then it covers its batch of rows more, or all there are |
| `PresenceProgress.WriteSays` | internal/store/presence_checkpoint.go:129-163 | the entry is the system's, commits to root, range and count, and the index row says the same and points at it |
| `PresenceProgress.CaughtUp` | internal/presence/presence.go:70-92 | with no row arriving meanwhile, ticks cover exactly the rows they offer to, up to all there are, whatever fails or happens between them |
| `PresenceProgress.AllVerified` | internal/presence/presence.go:70-155 | once enough such ticks have followed the last append, every stored row verifies |
| `PresenceRuns.ResumePoint` | internal/store/presence_checkpoint.go:78-84 | the resume point is the seq of the last covered row and separates covered from uncovered rows |
| `PresenceRuns.TickEvents` | internal/store/presence_checkpoint.go:86-100 | a tick takes up the rows right after the covered ones, without gap or overlap |
| `PresenceRuns.WriteAnchors` | internal/store/presence_checkpoint.go:129-163 | a written checkpoint's signed entry is found by its seq and commits to root, range and count |
| `PresenceRuns.StepKeepsInv` | internal/presence/presence.go:70-92 | appends, other audited actions and ticks keep the checkpoints an exact tiling of the covered rows |
| `PresenceRuns.RunKeepsInv` | internal/presence/presence.go:70-92 | so does every run |
| `PresenceRuns.RangesIncrease` | internal/store/presence_checkpoint.go:80-163 | checkpoint ranges are increasing and disjoint |
| `PresenceRuns.CoveredVerifies` | internal/presence/presence.go:98-155 | every covered row verifies |
| `PresenceRuns.LaterNotCovered` | internal/presence/presence.go:98-108 | every later row is reported as not checkpointed |
| `PresenceRuns.EveryRunVerifies` | internal/presence/presence.go:70-155 | in the state any run leaves, rows up to the resume point verify, later ones are not checkpointed, and ranges are disjoint and increasing |
| `PresenceAnchors.RewritingIsDetected` | internal/presence/presence.go:94-155 | presence and checkpoint rows rewritten at will after any run verify through the entry of a given checkpoint only if the rows in range are those it was taken over, or a collision is named |
| `PresenceAnchors.EntryAnchorsExactly` | internal/presence/presence.go:126-154 | over an accepted log, a made-up checkpoint row that points at an entry makes made-up rows verify, each of them, if and only if the entry's target commits to those rows |
| `PresenceAnchors.DetectsExactly` | internal/presence/presence.go:94-155 | in every state a run can leave, whatever verifies over rewritten rows verifies over rows some checkpoint was taken over (or a collision is named), if and only if no entry of another action commits to rows of its own |
| `PresenceAnchors.RunKeepsParse` | internal/store/presence_checkpoint.go:133-163 | when no other action's target reads as a commitment, every entry whose target does is a checkpoint's |
| `PresenceAnchors.RewritingAlwaysDetected` | internal/presence/presence.go:94-155 | a sufficient condition to check action by action: if no other action's target reads as a commitment, whatever verifies over rewritten rows, ordered or not, verifies over rows some checkpoint was taken over, or a collision is named |
| `PresenceAnchors.DiscreetRunsDetect` | internal/presence/presence.go:94-155 | such runs meet the exact condition of `DetectsExactly` |
| `PresenceAnchors.ModeratorSignsAnyId` | internal/moderation/moderation.go:87-106 | in every reachable state an instructor grant or withdrawal commits whatever id it names, and leaves that id in a signed entry |
| `PresenceAnchors.ModeratorTargetAnchors` | internal/moderation/moderation.go:91-106 | in every reachable state, one such action whose id is a commitment's text makes rows that were never stored verify, all of them, and rewriting is no longer detected |
| `PresenceAnchors.ModeratorRunUndetected` | internal/moderation/moderation.go:91-106 | from the empty store: a legal run without any checkpoint or presence row after which rewriting goes undetected |
| `RefreshTokens.RefreshStore.IssueRefreshToken` | internal/store/store.go:103-111 | inserts a token that names its own family, or nothing when id or hash is taken |
| `RefreshTokens.RefreshStore.RotateRefreshToken` | internal/store/store.go:141-192 | not found, reuse (whole family revoked and committed), expired, or the successor inserted and linked |
| `RefreshOutcomes.RotateExactly` | internal/store/store.go:141-192 | a token rotates if and only if it is live, before its expiry and its successor can be inserted; it is expired exactly when live and at or past its expiry, and reused exactly when revoked |
| `RefreshOutcomes.UnknownNotFound` | internal/store/store.go:116-152 | not found exactly when no row has the hash |
| `RefreshOutcomes.RotateWrites` | internal/store/store.go:160-191 | a rotation writes the successor with its owner, family and expiry, and the link from the one token presented; reuse revokes that family and no other row; nothing else writes |
| `RefreshOutcomes.RevokedExactly` | internal/store/sqlcdb/refresh.sql.go:78-104 | a row is revoked after a step if and only if it was before, or it was rotated, or its family or its user was revoked |
| `RefreshOutcomes.TokenLivesExactly` | internal/store/store.go:103-192 | from the step that hands it out, a token rotates when presented if and only if it is before the expiry it was given, its successor can be inserted, and no step since has ended it |
| `RefreshOutcomes.ExpiryHonoured` | internal/store/store.go:166-171 | in no run does a token rotate at or after its expiry |
| `RefreshTokens.RefreshStore.RevokeRefreshFamilyByHash` | internal/store/store.go:116-124 | revokes the presented token's whole family |
| `RefreshTokens.FamilyExec` | internal/store/sqlcdb/refresh.sql.go:78-104 | updates commute with taking a family: no row ever changes family or order |
| `RefreshTokens.RevokeKeepsInv` | internal/store/sqlcdb/refresh.sql.go:94-104 | revoking by family or user keeps every family a simple path |
| `RefreshTokens.IssueKeepsInv` | internal/store/store.go:103-111 | issuing starts a new path |
| `RefreshTokens.RotateExtendsPath` | internal/store/store.go:141-192 | rotation hangs the successor on the end of the presented token's path and leaves other families alone |
| `RefreshTokens.LiveIsLast` | internal/store/store.go:141-192 | an unrevoked token is the last of its family |
| `RefreshTokens.OneLivePerFamily` | internal/store/store.go:141-192 | a family has at most one unrevoked token |
| `RefreshTokens.StepKeepsInv` | internal/store/store.go:103-192 | every operation keeps ids and hashes unique and every family one path from its first token |
| `RefreshTokens.RunKeepsInv` | internal/store/store.go:103-192 | so does every run |
| `RefreshTokens.RunGrows` | internal/store/sqlcdb/refresh.sql.go:51-104 | no run removes, renames or un-revokes a token |
| `RefreshTokens.SpentStaysSpent` | internal/store/store.go:141-192 | a revoked token presented after any run is reported as reuse |
| `RefreshTokens.RotatesOnce` | internal/store/store.go:141-192 | a token that rotated once is reported as reuse ever after in the run |
| `RefreshTokens.DeadStaysDead` | internal/store/store.go:141-192 | no operation revives a family without a live token |
| `RefreshTokens.ReuseEndsFamily` | internal/store/store.go:141-192 | after one detected reuse no token of the family rotates again |
| `Sessions.AuthService.Mint` | internal/auth/service.go:195-227 | claims carry the user's token version as it stands |
| `Sessions.AuthService.IssueSession` | internal/auth/service.go:113-137 | performs exactly the step function, refusing accounts that may not hold a session |
| `SessionOutcomes.IssueExactly` | internal/auth/service.go:113-137 | a login is answered with a session if and only if the account is pending or active, its identity is found, the refresh token can be inserted and the access token minted; shut out exactly when suspended or deleted |
| `Sessions.AuthService.Refresh` | internal/auth/service.go:143-170 | the rotation stays committed even when the account is then refused |
| `SessionOutcomes.RefreshExactly` | internal/auth/service.go:143-170 | a refresh is answered with a session if and only if the token rotates and the owner's account, identity and mint are as for a login |
| `SessionOutcomes.FreshTokenRefreshes` | internal/auth/service.go:113-170 | a login's refresh token, presented before its expiry, brings a new session |
| `SessionOutcomes.AccountsExactly` | internal/store/sqlcdb/users.sql.go:12-33 | each call changes at most its own user's account, and only as stated |
| `SessionOutcomes.ShutOutStays` | internal/auth/service.go:189-193 | without a reactivation, a suspended or deleted user stays shut out in every run |
| `SessionOutcomes.NoSessionWhileShutOut` | internal/auth/service.go:113-170 | and is handed no session by any login or refresh |
| `Sessions.AuthService.Logout` | internal/auth/service.go:176-187 | revokes the presented token's family, if known, and denies a nonempty jti |
| `SessionOutcomes.LoggedOutForGood` | internal/auth/service.go:172-187 | after a logout no token with its jti ever validates and no token of the presented one's family is ever accepted; other families and all accounts are left alone |
| `Sessions.AuthService.RevokeAll` | internal/store/repos.go:158-164 | revokes all refresh tokens, then bumps the version; the first stays when the second fails |
| `Sessions.StepKeepsInv` | internal/auth/service.go:113-227 | no call mints a token from the future, lowers a version or un-revokes a refresh token |
| `Sessions.RunKeepsInv` | internal/auth/service.go:113-227 | so in every run |
| `Sessions.RevokedForGood` | internal/store/repos.go:158-164 | after a successful revoke-all or suspension and any later run of calls and single statements, no earlier access token validates and every earlier refresh token is refused as reuse |
| `Sessions.TokensRevokedForGood` | internal/store/sqlcdb/tokens.sql.go:72-81 | the refresh half alone: from the revoking statement on, whether or not the version bump follows |
| `Sessions.AccessRevokedForGood` | internal/store/sqlcdb/tokens.sql.go:13-26 | the access half alone: from the version bump on, also for account closure |
| `Sessions.RevokeAllInterleaved` | internal/store/repos.go:154-164 | with anything between the two statements, refresh tokens issued before the first and access tokens minted before the second are refused for good |
| `Sessions.RefreshStraddlesRevokeAll` | internal/auth/service.go:143-197 | a refresh that rotates before and mints after a revoke-all yields a valid access token beside a refused refresh token |
| `Sessions.ValidExactly` | pkg/token/validate.go:48-71 | a token at its user's current version validates after a run if and only if its jti is not denied and no step bumped the version |
| `Sessions.SessionLivesExactly` | internal/auth/service.go:113-227 | every session, from the call that hands it out, lasts exactly until its jti is denied or its user's version is bumped, whatever calls and statements follow |
| `SingleFlight.RotateAlive` | internal/store/store.go:141-192 | presenting a live token is never reuse, and its successor is live, new and of the same family |
| `SingleFlight.RunKeepsInv` | web/src/lib/server/authd.ts:63-105 | every interleaving keeps one refresh in flight and the cookie in step with the token table |
| `SingleFlight.NeverSpentTwice` | web/src/lib/server/authd.ts:63-105 | whatever others do to the table: no refresh token is presented twice, callers that share a refresh retry with one access token, and reuse is reported only of tokens that others revoked |
| `SingleFlight.AloneNeverReused` | web/src/lib/server/authd.ts:63-105 | when others leave the request's family alone, reuse is never reported |
| `SingleFlight.ReuseExactly` | internal/store/store.go:141-192 | in every state reached, the next refresh served is reported as reuse if and only if others have revoked the token it presents |
| `FlightOutcomes.GrantedRefreshRetries` | web/src/lib/server/authd.ts:72-104 | a granted refresh leaves the new pair in both cookies and the waiting call tries again with the new access token |
| `FlightOutcomes.RefusedRefreshThrows` | web/src/lib/server/authd.ts:75-100 | a refused one clears both cookies and the waiting call throws |
| `FlightOutcomes.UnauthorizedRefreshes` | web/src/lib/server/authd.ts:68-99 | a call that gets a 401 joins the refresh under way, or starts one with the refresh cookie |
| `FlightOutcomes.NeverStuck` | web/src/lib/server/authd.ts:63-105 | while some call has not ended, some event moves the request on |
| `FlightOutcomes.EventsFinish` | web/src/lib/server/authd.ts:63-105 | every event of the request leaves less to do, so every call ends |
| `FlightOutcomes.EndsAsRefreshed` | web/src/lib/server/authd.ts:95-105 | a call that met a 401 tried again if and only if its refresh brought a token |
| `SingleFlight.LostAnswerExactly` | web/src/lib/server/authd.ts:72-90 | after a lost refresh the next one presents the same token, and reuse is reported if and only if the server had already rotated it, granted or refused, or others have revoked it |
| `SingleFlight.ForeignRevocationTripsReuse` | internal/store/repos.go:158-164 | a revoke-all from elsewhere while the request is on its way makes the store report reuse |
| `SingleFlight.TwoRequestsOneCookie` | web/src/lib/server/authd.ts:60-63 | two requests that hold one cookie: once the other has rotated it, this one's refresh is reported as reuse, and the other's new token is refused too |
| `RateLimiter.Configure` | internal/httpx/ratelimit.go:36-49 | the rate is positive; the burst is at least one exactly when burst > 0, rps <= 0 or rps >= 1 |
| `RateLimiter.Limiter.Allow` | internal/httpx/ratelimit.go:52-76 | sweeps above 1024 buckets, refills, and spends a token or refuses |
| `RateLimiter.Limiter.Sweep` | internal/httpx/ratelimit.go:78-84 | the deleting loop keeps exactly the buckets idle no longer than ten minutes |
| `RateDecisions.MemoryBounded` | internal/httpx/ratelimit.go:28-84 | after any request the map holds at most 1025 buckets, or only those of keys that made a request within ten minutes |
| `RateLimiter.StatesShadow` | internal/httpx/ratelimit.go:52-84 | the swept map is the full one minus long-idle buckets, and decides alike |
| `RateLimiter.CountBound` | internal/httpx/ratelimit.go:52-76 | without sweeping, a window of length d lets at most burst + rate*d requests of a key through |
| `RateDecisions.DecisionExactly` | internal/httpx/ratelimit.go:52-76 | a request is let in if and only if that keeps every window that ends with it within burst + rate * length |
| `RateDecisions.SweptDecisionExactly` | internal/httpx/ratelimit.go:52-84 | and so with sweeping, whenever rate*600 >= burst |
| `RateLimiter.CountsAgree` | internal/httpx/ratelimit.go:52-84 | sweeping does not change how many are let through |
| `RateLimiter.EarlySweepExceeds` | internal/httpx/ratelimit.go:78-84 | swept before it could refill, a key gets two bursts in a window that earns less |
| `RateLimiter.RateBoundedExactly` | internal/httpx/ratelimit.go:28-84 | the bound holds in every run, for every key and window, if and only if burst >= 1 and rate*600 >= burst |
| `RateLimiter.SweepUnobservableExactly` | internal/httpx/ratelimit.go:28-84 | sweeping changes no decision in any run if and only if burst >= 1 and rate*600 >= burst |
| `RateLimiter.ZeroBurstShows` | internal/httpx/ratelimit.go:52-84 | with burst zero the sweep lets in a key that would otherwise be refused for ever |
| `RateLimiter.ConfiguredExactly` | internal/httpx/ratelimit.go:36-84 | for all constructor arguments, each guarantee holds if and only if (burst > 0, rps <= 0 or rps >= 1) and rate*600 >= burst |
| `Dedupe.Handler.ShouldAuditPlay` | internal/recording/http.go:265-281 | no within the window, otherwise yes, with stale keys evicted and this one noted |
| `Dedupe.Handler.WebhookDuplicate` | internal/recording/http.go:350-367 | answers from before the eviction it performs; the empty key never dedupes |
| `Dedupe.Handler.RememberWebhook` | internal/recording/http.go:370-377 | notes a nonempty key |
| `Dedupe.Evict` | internal/recording/http.go:274-278 | the deleting loop keeps exactly the keys in the window |
| `Dedupe.OnlyWindowLeft` | internal/recording/http.go:265-281 | a pass leaves exactly the keys in the window, untouched, and an audit adds its own |
| `Dedupe.AuditExactly` | internal/recording/http.go:265-281 | a playback check audits if and only if the full history has no audit of its key within the window |
| `Dedupe.AuditsApart` | internal/recording/http.go:265-281 | two audits of one key are at least the window apart |
| `Dedupe.DuplicateExactly` | internal/recording/http.go:350-377 | a delivery is a duplicate if and only if its key was remembered within the window |
| `Recording.ActiveRecording` | internal/store/recordings.go:66-80 | an in-flight row of the session, or -1 exactly when there is none |
| `RecordingOutcomes.StatusesExactly` | internal/recording/recording.go:263-289 | which LiveKit statuses give each recording status, and which are terminal |
| `RecordingOutcomes.CountExactly` | internal/store/recordings.go:82-92 | the number of rows in flight |
| `RecordingOutcomes.StatementsExactly` | internal/store/recordings.go:25-42 | an insert is refused exactly by its id or by the index, a hand-off exactly by the index; each writes one row and no other |
| `Recording.StoreKeepsOneInFlight` | internal/store/recordings.go:25-64 | under any interleaving of store statements a session has at most one recording in flight |
| `Recording.ExecSticky` | internal/store/recordings.go:35-64 | a statement keeps finished rows frozen if and only if it is not an egress hand-off that rewrites one |
| `Recording.LateHandOffReopens` | internal/store/recordings.go:35-42 | a hand-off that arrives after an abort reopens the recording |
| `Recording.Service.StopActive` | internal/recording/recording.go:219-235 | aborts locally without an egress, keeps everything when the stop call fails, else records the answered status unless the store fails |
| `RecordingOutcomes.StopWrites` | internal/recording/recording.go:219-235 | what is answered and what the row becomes, in each case |
| `Recording.Service.StopSession` | internal/recording/recording.go:178-190 | host only, and only with a recording in flight |
| `RecordingOutcomes.StopAnswers` | internal/recording/recording.go:178-190 | refused exactly without the host or a recording in flight, and then nothing changes; else the recording in flight is stopped |
| `Recording.Service.ReconcileForSession` | internal/recording/recording.go:196-209 | stops the recording in flight exactly when the gate no longer passes |
| `RecordingOutcomes.HookActs` | internal/recording/recording.go:196-209 | the hook acts exactly when a recording is in flight and someone present does not consent or nobody is present |
| `Recording.Service.ConsentChanged` | internal/consent/consent.go:64-79 | a failed append returns before the hook; otherwise the record is in the ledger before the hook reconciles its session |
| `Recording.Service.StartRecording` | internal/recording/recording.go:118-175 | performs exactly the step function, through every refusal and a failing outcome statement, to the hand-off |
| `RecordingOutcomes.StartRefused` | internal/recording/recording.go:118-156 | each refusal is given exactly in its case, and changes nothing |
| `RecordingOutcomes.StartWrites` | internal/recording/recording.go:151-175 | any other start leaves exactly one new row: with egress and status when accepted and stored, failed and ended with the message when refused, else starting |
| `RecordingOutcomes.CapHolds` | internal/recording/recording.go:135-149 | with every start held to one cap, the recordings in flight never exceed it in any run |
| `Recording.Service.HandleWebhookEvent` | internal/recording/recording.go:294-322 | updates the matching recording unless unknown or finished |
| `RecordingOutcomes.WebhookWrites` | internal/recording/recording.go:294-322 | a webhook brings the newest row with its egress to the reported status, output and error unless that is finished, and touches no other; without such a row it touches none |
| `Recording.StepKeeps` | internal/recording/recording.go:118-322 | every service call keeps one recording in flight per session and finished ones frozen |
| `Recording.RunKeeps` | internal/recording/recording.go:118-322 | so does every run, whatever order or repetition webhooks arrive in |
| `Recording.StartAddsOneRow` | internal/recording/recording.go:118-175 | a start changes no older row and adds at most one, to its own session |
| `Recording.StopEndsRolling` | internal/recording/recording.go:219-235 | stopping the rolling recording ends the rolling if and only if the stop takes effect (egress answers or, without one, the store does) |
| `Recording.ConsentExactly` | internal/consent/consent.go:64-79 | a consent change with its hook keeps the guarantee, for its own session and every other, if and only if it is not a withdrawal whose stop does not take effect while a recording is rolling |
| `Recording.StepGuardExactly` | internal/recording/recording.go:118-322 | every service call keeps the guarantee if and only if it is harmless; starts, stops, webhooks and people leaving always are |
| `Recording.ConsentHoldsWhileRecording` | internal/recording/recording.go:192-235 | every state of a run has everyone's latest consent behind each recording not told to stop, if and only if no step is a withdrawal whose stop fails or a join without consent while one is rolling |
| `Recording.JoinExactly` | internal/session/session.go:191-205 | a join keeps the guarantee if and only if nothing is rolling, the join is refused, or the newcomer has consented |
| `Recording.JoinBreaksGuarantee` | cmd/authd/main.go:276-283 | join, grant, start, join of another: the recording rolls, guarded, and then no longer guarded |
| `Recording.StatementGuardExactly` | internal/recording/recording.go:118-175 | statement by statement, the guarantee survives if and only if the statement puts nothing in flight or everyone present consents at that moment |
| `Recording.LateHandOffIgnoresWithdrawal` | internal/recording/recording.go:152-169 | gate, insert, withdrawal (aborted locally), hand-off: an active recording without consent that nobody told to stop |
| `Egresses.LiveStepExactly` | internal/recording/recording.go:118-322 | every service call keeps consent behind every live egress if and only if it is not a withdrawal that leaves one unstopped or an arrival without consent while one is live |
| `Egresses.ConsentHoldsWhileLive` | internal/recording/recording.go:118-235 | so every state of a run has consent behind every live egress if and only if every step is of that kind |
| `Egresses.HookLive` | internal/recording/recording.go:196-235 | after a hook that found the gate closed, the live egresses are exactly those not on the session's recording in flight, or all of them if LiveKit did not answer |
| `Egresses.StepTracks` | internal/recording/recording.go:118-322 | a step whose hand-off goes through keeps a rolling row standing for every live egress |
| `Egresses.RowsSpeakForEgresses` | internal/recording/recording.go:118-322 | in every run whose hand-offs go through, a live egress has its recording rolling, so the guarantee on recordings is one on egresses |
| `Egresses.LostHandOffOutlivesWithdrawal` | internal/recording/recording.go:158-169 | when the hand-off statement fails, a withdrawal aborts the row and the egress runs on without consent |

## Left out

- HTTP handlers, routing, JSON bodies, cookies' attributes and pages: plumbing around the modelled operations.
- Clients for mail, SMS, eKYC, OIDC, Vault and LiveKit: their answers are parameters of the step that calls them.
- Cryptographic internals and random ids: arbitrary functions and parameters; ids and hashes that clash with stored ones are refused by the unique indexes.
- Configuration, command-line tools and wiring, apart from the consent-to-recording hook.
- Profile, class, moderation and entitlement checks: single-branch conditions.
- Requirements of the database: the adult-activation trigger is a parameter of `Accounts.Mutate`; append-only triggers on the audit log and consent table are taken for granted by the step functions.
- Isolation below one statement or transaction: each is one step. Service calls are steps too; where their statements can interleave, recordings and sessions are also treated statement by statement (`Recording.StoreKeepsOneInFlight`, `Recording.StatementGuardExactly`, `Sessions.RevokeAllInterleaved`).
- Presence rows that become visible out of seq order, or two checkpoint workers: excluded by hypothesis (`PresenceRuns.Allowed`), since the resume point is only the largest seq checkpointed.
- Recording.Service.StartRecording: the host check and the start limiter are parameters; failing reads, which change nothing, are not distinguished from refusals.
- Recording.Service.HandleWebhookEvent: a webhook whose update fails changes nothing and is not a step of its own.
- SingleFlight: the promise map is modelled on values as a state machine over the awaits, not as an object; a refresh token is named by the hash it is stored under.
- SingleFlight.NeverSpentTwice: assumes that answers are delivered; `LostAnswerExactly` says when that matters.
- Egresses: an egress ends when LiveKit reports it over or answers a stop; one that ends unreported counts as live.
- RateLimiter: token arithmetic is over reals, so floating-point rounding and infinite or NaN rates are not captured.
- Sessions: an access token enters after its signature and expiry have been checked; the claims' tier and capabilities are not modelled.
- Timestamps finer than a second: leaves and entries encode whole seconds, and so do the rows here.
- Error texts, logging and metrics.
