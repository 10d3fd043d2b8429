# A verified model of the signing platform's core

This project models, in Dafny, the parts of the platform where the order of steps, the failure of a
call or the shape of a text decides whether a promise is kept, and proves what the code achieves.
`dafny verify dfyconfig.toml` checks all of it.

| file | what it models |
|---|---|
| `DocumentChain.dfy`, `DocumentTransactionService.dfy`, `DocumentWriters.dfy`, `DocumentEvidence.dfy` | the hash chain of each document: one call, the service, any number of concurrent writers under the advisory lock, and what the newest hash commits to |
| `AuditLedger.dfy`, `AuditWriters.dfy` | the global audit ledger: what its head hash commits to, and concurrent writers together with the deletion of documents |
| `MongoAudit.dfy` | the audit trail kept in Mongo and what its hashes cover |
| `Outbox.dfy`, `OutboxRuns.dfy` | the transactional outbox: one flush, progress over many, and runs with rollbacks, several flushers and crashes |
| `Idempotency.dfy`, `Invitations.dfy` | its consumers' claims, and invitation acceptance as its client |
| `Migration.dfy` | the migration that merges accounts and memberships, and its reverse |
| `TrustWalk.dfy` | the walk along certificate issuers |
| `Stamping.dfy`, `PageGeometry.dfy` | where signatures are drawn |
| `Finalisation.dfy`, `SigningRuns.dfy` | finishing a document over several stores that no transaction spans, and everything its signers' calls can do to it |
| `LikePattern.dfy`, `ApiKey.dfy` | the escaped search pattern; printing and parsing API keys |
| `VerificationCodes.dfy` | one-time codes |
| `Catalogue.dfy`, `DirectoryUpsert.dfy` | the cached catalogue of accounts; adding collaborators to the directory |
| `Collections.dfy`, `Wrappers.dfy` | shared facts and datatypes |

## Conventions

- Digests, ciphers and signatures are uninterpreted functions. Nothing assumes that a digest is
  injective: tamper evidence is stated by handing out the two inputs that collide.
- Clocks, generated ids, the answers of the database to a query and the failure of a call are
  parameters, so each statement is about every value they can take. A parameter such as `records` or
  `previous` comes with a predicate that says which answers a query may give.
- Where the source changes state there is a class with the tables as fields, whose methods are proved
  against functions; where calls interleave there is a state machine and statements about all its runs.
- Source paths are relative to the root of the repository.

## Assumptions that the theorems state

- `DocumentWriters.CommittedRecordsFormOneLine` assumes that the clock read in a critical section is
  after every committed record of that document. `DocumentChain.LineSurvivesIffClockAdvances` shows
  that the assumption is needed: it is equivalent to the line surviving.
- The chain of a document is served only after its initial record was written. The creation flows call
  `createInitial` before they announce the document (src/document/applications/create-document.use-case.ts:226-231).
- `TrustWalk` assumes that two certificates of the directory with one SHA-256 fingerprint are the same.
- `Migration` calls a state well formed when organization details exist exactly for organization
  accounts, a user is a member of at most one personal account, document creators are members of the
  document's account, `organization_id` is unused, and no role or subscription points anywhere.

## Where the code does less than its comments or its names say

Each is a theorem, with the exact condition under which the code does keep the promise.

- A document opened with an empty hash gets a second completion record (`DocumentChain.OneCompletionIffInitialHash`).
- The hash of a Mongo audit record covers no nested property: the sorted list of the outermost names is
  also the filter for the inner objects, so geolocation, users, actor and evidence leave no trace but
  their presence and the number of users (`MongoAudit.SameTextIff`, `MongoAudit.PlaceIsNotCovered`).
- The serial ids of the global ledger are covered by no hash: two valid ledgers hold the same events if and
  only if one is the other renumbered (`AuditLedger.SameEventsIffRenumbered`).
- A body with the key `topic` loses it on publication, and body keys override the envelope
  (`Outbox.BodyIsPublishedIff`, `Outbox.EnvelopeIsPublishedIff`); an empty topic is retired in silence.
- Twenty rows that always fail, all older than the rest, stop the outbox (`Outbox.StarvationBound`).
- Events of the direct path carry no event id and are not deduplicated
  (`Idempotency.WithoutIdEveryDeliveryStarts`); an error while claiming lets the handler start.
- `down()` is said to lose nothing; outside the conventions a document can pass every key and come back
  to another account (`Migration.GuestDocumentMoves`, and `Migration.DocumentIsRestoredIff` for exactly which).
- The issuer walk tries only the first issuer, and stops at a self-issued leaf
  (`TrustWalk.FirstIssuerHidesRoot`, `TrustWalk.SelfIssuedLeafIsRefused`).
- Stacked signatures overlap when the document's box is out of range and lower than 40 points, because
  the size is replaced and the step is not (`Stamping.StackIsApartIff`).
- The preview of a partially signed document is said to be the final stamping with fewer signers; a
  stacked signer who signs before an earlier one is shown in another place (`Stamping.PreviewIsFinalIff`).
- A failed stamping leaves the document PENDING_SIGNATURE so that it can be tried again, the comments say
  (src/document/document.service.ts:1295-1298, src/document/applications/sign-document.use-case.ts:206-208).
  It cannot be: the signer's claim is not taken back, so there is never a second attempt
  (`SigningRuns.AtMostOneAttempt`, `SigningRuns.FailedAttemptIsFinal`, `SigningRuns.FailedStampingSticks`).
- Two signers who load the document before either claims both see the other as pending, and nobody
  finishes it (`SigningRuns.BothSawTheOther`); `SigningRuns.CanBeSignedIff` says exactly when a document
  that waits for signatures can still become SIGNED.
- A rejection is claimed before the document is marked; in between, the last signer finishes the
  document over it (`SigningRuns.SignedOverARejection`, and `SigningRuns.FinishedMeansEverybodyAnswered`
  for what a finished document does guarantee).
- A late seal that the provider refuses is not tried again, although the comment promises it: the mark is
  cleared before the provider is asked (`SigningRuns.FailedLateSealIsRetriedIff`). From then on only a
  posted seal helps (`SigningRuns.CanBeSealedIff`).
- The count of signatures is taken from the row a call had loaded, so it can lose one
  (`SigningRuns.CountIsOneMoreThanLoaded`, `SigningRuns.CountLosesASignature`).
- A page below 1 is said to become the last one; it becomes the first (`Stamping.StampIsAtItsPosition`).
- The pattern for API keys accepts keys that can never be generated (`ApiKey.AcceptedIsGeneratedIff`).
- Changing a member's role or reactivating them, and granting access directly, leave the cached
  catalogue stale (`Catalogue.SilentUpdateKeepsSyncIff`, `Catalogue.SilentInsertKeepsSyncIff`).
- A request consumes codes of one event only if and only if it names that event
  (`VerificationCodes.ConsumesOnlyIff`). The endpoint that verifies a document's code names none, so a
  newer code for opening a public session is consumed in place of the one for signing, which then is
  refused (`VerificationCodes.AnyEventIsConsumed`).

## Model

| member | source | states |
|---|---|---|
| `DocumentChain.FindCompletion` | src/document/document-transaction.service.ts:183-186 | what is found is a completion record of the list, and nothing is found only if there is none |
| `DocumentChain.LineAt` | src/document/document-transaction.service.ts:157-214 | in a line, the first record has an empty chainHash and each later one carries the actualHash of the one before and a later time |
| `DocumentChain.LineIsStrictlyIncreasing` | src/document/document-transaction.service.ts:163-168 | ordering a line by time gives back its order |
| `DocumentChain.NewestIsEndOfLine` | src/document/document-transaction.service.ts:163-172 | whatever the order of ties, the first row of the query is the end of the line |
| `DocumentChain.StepKeepsLine` | src/document/document-transaction.service.ts:157-214 | one critical section run alone with a later clock extends the line of its document |
| `DocumentChain.SerialHistoryIsLine` | src/document/document-transaction.service.ts:65-214 | after every serial history the records of every document form one line |
| `DocumentChain.LineSurvivesIffClockAdvances` | src/document/document-transaction.service.ts:163-210 | a new record keeps some time order of the rows a line if and only if its time is after all of them |
| `DocumentChain.CompletionIsUnique` | src/document/document-transaction.service.ts:17-19 | a well-opened document has at most one record that counts as its completion |
| `DocumentChain.SerialHistoryIsWellOpened` | src/document/document-transaction.service.ts:65-90 | the initial record is never mistaken for a completion, over every history that opens the document with a non-empty hash |
| `DocumentChain.TableOnlyGrows` | src/document/document-transaction.service.ts:195-210 | no history takes a record away |
| `DocumentChain.CompletionIsIdempotent` | src/document/document-transaction.service.ts:126-144 | a repeated completion appends nothing and returns the record of the first |
| `DocumentChain.OneCompletionIffInitialHash` | src/document/document-transaction.service.ts:17-19 | no history of a document appends two completions if and only if it was opened with a non-empty hash |
| `DocumentChain.TwoCompletions` | src/document/document-transaction.service.ts:183-186 | the concrete history with an empty initial hash that appends two |
| `DocumentTransactions.DocumentTransactionService.constructor` | src/document/document-transaction.service.ts:45-50 | a new service has an empty table |
| `DocumentTransactions.DocumentTransactionService.CreateInitial` | src/document/document-transaction.service.ts:65-90 | the initial record with an empty chainHash is appended, or nothing if the insert fails |
| `DocumentTransactions.DocumentTransactionService.RegisterSignature` | src/document/document-transaction.service.ts:98-112 | a signature always appends a record of that collaborator at that time, linked to the newest, whose digest is of document, collaborator, signature hash, link and time |
| `DocumentTransactions.DocumentTransactionService.RegisterCompletion` | src/document/document-transaction.service.ts:126-144 | a completion returns the existing one unchanged; if there is none it appends one, linked to the newest, whose digest is of document, signed hash, link and time |
| `DocumentTransactions.DocumentTransactionService.AppendChained` | src/document/document-transaction.service.ts:157-214 | the outcome and the new table are those of the decision, and the document still forms one line |
| `DocumentWriters.StepKeepsInvariant` | src/document/document-transaction.service.ts:157-214 | every step of every writer, commits and rollbacks included, keeps the invariant: who is inside holds the lock and has seen the current rows |
| `DocumentWriters.InterleavingIsSerial` | src/document/document-transaction.service.ts:157-214 | the committed transactions of every interleaving are a serial history, in commit order |
| `DocumentWriters.CommittedRecordsFormOneLine` | src/document/document-transaction.service.ts:157-214 | in every reachable state the committed records of every document form one line in time order |
| `DocumentWriters.CriticalSectionsExclude` | src/document/document-transaction.service.ts:157-162 | two writers are never inside the critical section of one lock key |
| `DocumentWriters.ConcurrentCompletionsAgree` | src/document/document-transaction.service.ts:126-144 | in every interleaving the later of two completions returns the record of the earlier |
| `DocumentEvidence.NewestHashCommitsToAccount` | src/document/document-transaction.service.ts:103-139 | two accounts of a document with one newest hash that differ in a request, a time, a link or the file yield a concrete collision, or a payload whose digest is the hash of a file |
| `DocumentEvidence.ContentDeterminesRecords` | src/document/document-transaction.service.ts:188-210 | equal requests, links and times for one file fix every stored record but the opening one, and the newest hash |
| `DocumentEvidence.HistoryIsSealed` | src/document/document-transaction.service.ts:157-214 | the records that any serial history leaves of a document recompute, link by link, from the requests it served |
| `DocumentEvidence.CommittedHashCommits` | src/document/document-transaction.service.ts:157-214 | two databases reached by any interleavings whose newest records carry one hash registered the same, or exhibit a break of the digest |
| `AuditLedger.PreimageIsUnambiguous` | src/audit-chain/audit-chain.service.ts:66-94 | the concatenation that is hashed, though it has no separators, can be read in one way only |
| `AuditLedger.HeadHashCommitsToHistory` | src/audit-chain/audit-chain.service.ts:66-94 | two valid ledgers with one head hash and different events yield a concrete collision or a preimage of the genesis value |
| `AuditLedger.EventsDetermineHashes` | src/audit-chain/audit-chain.service.ts:66-94 | valid ledgers of the same events agree in everything but the serial ids |
| `AuditLedger.RenumberingKeepsValid` | src/audit-chain/audit-chain.service.ts:74-92 | whatever the serial ids are changed to, the ledger stays valid with the same head |
| `AuditLedger.SameEventsIffRenumbered` | src/audit-chain/audit-chain.service.ts:74-92 | two valid ledgers hold the same events if and only if one is the other renumbered |
| `AuditLedger.NewestIsHead` | src/audit-chain/audit-chain.service.ts:66-76 | the row with the largest id is the end of the ledger |
| `AuditLedger.AuditChainService.constructor` | src/audit-chain/audit-chain.service.ts:49-52 | an empty ledger is in order |
| `AuditLedger.AuditChainService.RecordEvent` | src/audit-chain/audit-chain.service.ts:54-102 | a committed call appends the one row linked to the head (sixty-four zeros at first), whose digest is of document, cipher, link, type and time in that order, and keeps the ledger valid; a failed one leaves no row |
| `AuditWriters.ErasureKeepsLinks` | src/migrations/1784300000016-CreateAuditChain.ts:30-32 | rows whose document was deleted keep the links and the head of the ledger |
| `AuditWriters.StepKeepsInvariant` | src/audit-chain/audit-chain.service.ts:54-102 | every step of every writer, and every deletion of a document, keeps the invariant |
| `AuditWriters.CommittedRowsFormOneLine` | src/audit-chain/audit-chain.service.ts:54-102 | in every reachable state the committed rows are linked from the genesis hash, by increasing id, and are what a valid ledger leaves |
| `AuditWriters.ErasedDocumentsStayCommitted` | src/migrations/1784300000016-CreateAuditChain.ts:30-32 | the head still commits to the deleted document ids: two ways to fill them in give a collision |
| `AuditWriters.SameEventsSameRows` | src/audit-chain/audit-chain.service.ts:66-94 | two valid ledgers behind one erased table with the same events are the same rows |
| `MongoAudit.PartsAreDropped` | src/common/hash/hash.service.ts:45-57 | of a nested part nothing is printed, whatever is in it |
| `MongoAudit.ContentIsThePayload` | src/audit/audit.service.ts:82-86 | what is hashed has the caller's properties, each with its value, and a part exactly if it was given |
| `MongoAudit.ContentIsChained` | src/audit/audit.service.ts:88-93 | and the index, the two hashes once they are known, and nothing else |
| `MongoAudit.SameTextIff` | src/common/hash/hash.service.ts:45-57 | two records print the same text if and only if their summaries, indices and seals are the same |
| `MongoAudit.HeadHashCommitsToSummaries` | src/audit/audit.service.ts:82-99 | two valid trails with one last chainHash and different summaries yield a concrete collision |
| `MongoAudit.SummariesDetermineHashes` | src/audit/audit.service.ts:82-99 | valid trails with the same summaries carry the same hashes |
| `MongoAudit.PartsCanBeExchanged` | src/audit/audit.service.ts:82-99 | exchanging the nested parts of a record leaves the trail valid |
| `MongoAudit.PlaceIsNotCovered` | src/common/hash/hash.service.ts:45-57 | two signatures made in different places print the same text |
| `MongoAudit.IndicesHaveNoGaps` | src/audit/audit.service.ts:75-80 | a valid trail has exactly the indices 1 to n |
| `MongoAudit.NewestIsEndOfTrail` | src/audit/audit.service.ts:75-78 | the record with the largest index is the end of the trail |
| `MongoAudit.RunsLeaveValidTrails` | src/audit/audit.service.ts:71-112 | over every sequential run of calls, any of which fail, each trail is valid and holds exactly what went through, in order |
| `MongoAudit.AuditService.constructor` | src/audit/audit.service.ts:61-65 | an empty collection is in order |
| `MongoAudit.AuditService.Create` | src/audit/audit.service.ts:71-112 | the sealed and linked record is appended, one after the previous index, if and only if nothing fails, a signature has its time and the signing steps say who acted; otherwise nothing changes |
| `Outbox.BodyIsPublishedIff` | src/event/outbox.service.ts:91-111 | the message carries the body if and only if the body does not use the key topic |
| `Outbox.EnvelopeIsPublishedIff` | src/event/outbox.service.ts:91-111 | the message carries the envelope if and only if the body does not give its keys other values |
| `Outbox.ClientsPublishBodyAndEnvelope` | src/kafka/notification-events.producer.ts:66-80 | all three bodies the platform enqueues are published whole, and beside them exactly eventId, occurredAt, version 1 and actorUserId |
| `Outbox.MessageOfEnqueued` | src/event/outbox.service.ts:156-162 | key by key: an enqueued row is published with its id as eventId, its creation time, version 1 and its author (or null), unless the body has that key |
| `Outbox.MarkedMeansHandedOver` | src/event/outbox.service.ts:137-173 | a row of the batch stays pending if and only if one of its calls fails, and one with a topic is not marked without its message |
| `Outbox.OutboxService.constructor` | src/event/outbox.service.ts:63-70 | the table starts empty |
| `Outbox.OutboxService.Enqueue` | src/event/outbox.service.ts:91-111 | one pending row is added, which carries topic, body and author |
| `Outbox.OutboxService.MarkPublished` | src/event/outbox.service.ts:150-176 | exactly that row is marked |
| `Outbox.OutboxService.Publish` | src/event/outbox.service.ts:137-173 | one row is handed over if it has a topic and marked if no call fails |
| `Outbox.OutboxService.Drain` | src/event/outbox.service.ts:129-176 | exactly the rows of the batch that have no topic or were handed over are marked, however many of the others fail |
| `Outbox.OutboxService.Flush` | src/event/outbox.service.ts:129-176 | a flush hands over the messages of the oldest rows in order; a row stays pending if and only if one of its calls fails, none with a topic is marked without its message in the log, nothing but the mark changes, and the answer counts the rows handed over and marked |
| `Outbox.BatchReachesPublishable` | src/event/outbox.service.ts:29 | with fewer failing rows than the batch holds, every flush reaches a publishable row |
| `Outbox.FlushRetires` | src/event/outbox.service.ts:129-176 | a flush retires exactly the publishable rows of its batch and no failing row |
| `Outbox.BatchReachesOld` | src/event/outbox.service.ts:130-134 | while fewer than twenty old rows fail, a flush reaches an old publishable row before any younger one |
| `Outbox.HappeningDrains` | src/event/outbox.service.ts:129-176 | a flush retires an old publishable row if there is one, and neither a flush nor an arrival adds to them |
| `Outbox.FlushesDrain` | src/event/outbox.service.ts:129-176 | every publishable row of a moment is published after at most as many flushes as there are such rows, whatever is enqueued meanwhile |
| `Outbox.StarvationBound` | src/event/outbox.service.ts:29 | k rows that always fail never starve the outbox if and only if k is less than twenty |
| `OutboxRuns.ReachableIsInvariant` | src/event/outbox.service.ts:91-176 | every step of transactions, flushers and crashes keeps the protocol's invariant |
| `OutboxRuns.OnlyCommittedEventsAreEmitted` | src/event/outbox.service.ts:91-176 | each emitted message is the message of a committed row, never of one rolled back |
| `OutboxRuns.CommittedEventsAreNotLost` | src/event/outbox.service.ts:129-176 | a committed row with a topic that is marked was emitted |
| `OutboxRuns.EventIdNamesTheEvent` | src/event/outbox.service.ts:156-162 | in every run two messages from bodies that leave the key alone carry one eventId if and only if one repeats the other |
| `OutboxRuns.CommittedRowsStay` | src/event/outbox.service.ts:129-176 | committed rows stay and only their mark changes |
| `OutboxRuns.TracesAreRetiredInSilence` | src/event/event.service.ts:20-28 | rows without a topic are never emitted |
| `OutboxRuns.CrashPublishesTwice` | src/event/outbox.service.ts:129-176 | a crash between handing over and marking makes the event go out twice |
| `Idempotency.IdempotencyService.constructor` | src/event/idempotency.service.ts:28-32 | no event is marked at first |
| `Idempotency.IdempotencyService.Claim` | src/event/idempotency.service.ts:51-86 | the claim succeeds exactly when the mark is new, there is no id or the database fails |
| `Idempotency.IdempotencyService.Release` | src/event/idempotency.service.ts:118-131 | the release deletes that mark and no other, unless the database fails |
| `Idempotency.IdempotencyService.Once` | src/kafka/document-events.controller.ts:66-77 | the handler starts exactly when the claim succeeds: never for a non-empty id already claimed, always without an id |
| `Idempotency.StepKeepsBalance` | src/event/idempotency.service.ts:51-131 | every step keeps the balance of marks, starts, successes, releases and errors of a key |
| `Idempotency.StartsAreBounded` | src/event/idempotency.service.ts:51-131 | the handler starts at most once, plus once per release and once per database error while claiming |
| `Idempotency.SuccessAtMostOnce` | src/event/idempotency.service.ts:51-131 | the work succeeds at most once, plus once per database error while claiming |
| `Idempotency.OnceStartsAtMostOnce` | src/kafka/document-events.controller.ts:66-77 | over any number of deliveries and instances `once` starts the handler at most once, without database errors |
| `Idempotency.ReleaseAllowsRetry` | src/event/idempotency.service.ts:118-131 | after a release the next delivery's claim starts the handler again |
| `Idempotency.WithoutIdEveryDeliveryStarts` | src/event/idempotency.service.ts:51-60 | without an id every single delivery starts the handler |
| `Invitations.AcceptingKeepsConsistent` | src/account/organization-invitation.service.ts:193-224 | accepted invitations, their memberships and their events stay in one-to-one correspondence |
| `Invitations.ExpiringKeepsConsistent` | src/account/organization-invitation.service.ts:314-321 | expiring an invitation touches no accepted one |
| `Invitations.JoiningIsAnnounced` | src/kafka/organization-member.producer.ts:62-77 | the event published for a new member has the topic organization.member.joined and exactly the organization, account, user, role and envelope |
| `Invitations.OrganizationInvitationService.constructor` | src/account/organization-invitation.service.ts:44-60 | without accepted invitations the correspondence holds |
| `Invitations.OrganizationInvitationService.ResolveInvitation` | src/account/organization-invitation.service.ts:274-321 | the first access after the deadline stores EXPIRED, and nothing else changes |
| `Invitations.OrganizationInvitationService.AcceptByRfc` | src/account/organization-invitation.service.ts:145-227 | it succeeds if and only if the invitation is pending and not past its deadline, the user is known and has no membership there and no statement fails; then membership, ACCEPTED and the announcement appear together, otherwise none of them |
| `Invitations.OrganizationInvitationService.FinalizeAcceptance` | src/account/organization-invitation.service.ts:178-271 | all three writes are installed or none, and a membership in any state refuses the acceptance |
| `Migration.CreatorsAccountMatches` | src/migrations/1784300000005-MergeAccountAndOrganization.ts:143-167 | on a well-formed state a document matches one account only, its creator's membership in its tenant |
| `Migration.DocumentsFollowTheirCreators` | src/migrations/1784300000005-MergeAccountAndOrganization.ts:143-167 | after `up` each document's account belongs to its creator and has the document's organization |
| `Migration.UpSucceeds` | src/migrations/1784300000005-MergeAccountAndOrganization.ts:130-181 | on a well-formed state `up` violates no key, whatever the database chooses |
| `Migration.MembershipsBecomeAccounts` | src/migrations/1784300000005-MergeAccountAndOrganization.ts:99-112 | the accounts are the memberships, id by id, each with its user's email and password, its tenant's type and dates, its own role, position and activity, ACTIVE if and only if it is active, and the organization that took over the tenant |
| `Migration.DocumentAfterUp` | src/migrations/1784300000005-MergeAccountAndOrganization.ts:143-160 | on every state the schema allows: a document gets an organization if and only if its tenant is one with details, and an account of its creator in that context if there is one, else it keeps its tenant's id |
| `Migration.UpSucceedsIff` | src/migrations/1784300000005-MergeAccountAndOrganization.ts:114-174 | on every state the schema allows `up` violates no key if and only if every document has an account to go to and roles and subscriptions point at new ids only |
| `Migration.DetailsSurvive` | src/migrations/1784300000005-MergeAccountAndOrganization.ts:205-215 | organization_details is rebuilt row by row |
| `Migration.DocumentIsRestoredIff` | src/migrations/1784300000005-MergeAccountAndOrganization.ts:235-247 | on every state the schema allows, a document gets its account back if and only if its account has details and is an organization, or is the personal account chosen for its creator |
| `Migration.WellFormedIsRecoverable` | src/migrations/1784300000005-MergeAccountAndOrganization.ts:235-247 | on a well-formed state that is every document |
| `Migration.DownUndoesUp` | src/migrations/1784300000005-MergeAccountAndOrganization.ts:184-276 | `down` right after `up` violates no key and rebuilds every table, row by row |
| `Migration.GuestDocumentMoves` | src/migrations/1784300000005-MergeAccountAndOrganization.ts:235-247 | a state outside the conventions on which both directions succeed and a document changes its account |
| `Migration.MergeAccountAndOrganization.constructor` | src/migrations/1784300000005-MergeAccountAndOrganization.ts:40 | the database holds the given tables |
| `Migration.MergeAccountAndOrganization.RollBack` | src/migrations/1784300000005-MergeAccountAndOrganization.ts:40 | an aborted migration leaves the tables as they were |
| `Migration.MergeAccountAndOrganization.RunUp` | src/migrations/1784300000005-MergeAccountAndOrganization.ts:57-181 | the statements of `up`, one after the other, produce the migrated tables, with every membership turned into its account column by column |
| `Migration.MergeAccountAndOrganization.Up` | src/migrations/1784300000005-MergeAccountAndOrganization.ts:40-182 | `up` takes effect if and only if the new keys hold, a condition stated on the old tables; then every membership is its account column by column |
| `Migration.MergeAccountAndOrganization.Down` | src/migrations/1784300000005-MergeAccountAndOrganization.ts:184-276 | `down` takes effect if and only if the rebuilt details have their keys, every document finds an account and the other keys hold |
| `Migration.CreateOrganizations` | src/migrations/1784300000005-MergeAccountAndOrganization.ts:57-66 | one organization per details row, which remembers its tenant |
| `Migration.MoveDocuments` | src/migrations/1784300000005-MergeAccountAndOrganization.ts:143-167 | the two updates in sequence are the one rewriting of each document |
| `Migration.RebuildDetails` | src/migrations/1784300000005-MergeAccountAndOrganization.ts:205-215 | every organization that remembers a tenant gives that tenant its details back, and nothing else appears |
| `Migration.UpThenDown` | src/migrations/1784300000005-MergeAccountAndOrganization.ts:40-276 | both directions on a running database leave it as it was |
| `TrustWalk.FirstIssuer` | src/efirma/efirma.service.ts:145-148 | what is found is in the directory and verifies; nothing is found only if nothing does |
| `TrustWalk.FirstIssuerIsFirst` | src/efirma/efirma.service.ts:145-148 | of several issuers it is the one listed first |
| `TrustWalk.Shrinks` | src/efirma/efirma.service.ts:160-165 | each step that goes on uses up one fingerprint of the directory |
| `TrustWalk.ValidarCadenaConfianza` | src/efirma/efirma.service.ts:122-168 | the loop ends after at most one certificate more than there are fingerprints, with the specified answer |
| `TrustWalk.AcceptedIffGreedyPath` | src/efirma/efirma.service.ts:122-168 | for every directory: accepted if and only if the path of first issuers leads to a trusted root |
| `TrustWalk.AcceptedIffPath` | src/efirma/efirma.service.ts:122-168 | with at most one issuer each: accepted if and only if some path leads to a trusted root |
| `TrustWalk.CycleIffEndless` | src/efirma/efirma.service.ts:160-164 | a cycle is reported if and only if every path of first issuers can go on, so none meets a root |
| `TrustWalk.AnswerIsImmediateIssuer` | src/efirma/efirma.service.ts:117-121 | the answer is the leaf itself if it is a root, else an issuer of the leaf that is itself on a path to a root |
| `TrustWalk.AnchoredIffPath` | src/efirma/efirma.service.ts:127-143 | stopping at self-issued certificates loses nothing but self-issued leaves outside the directory |
| `TrustWalk.FirstIssuerHidesRoot` | src/efirma/efirma.service.ts:145-155 | a dead end listed first hides a root |
| `TrustWalk.SelfIssuedLeafIsRefused` | src/efirma/efirma.service.ts:127-137 | a self-issued leaf that a trusted root issued is refused |
| `PageGeometry.FullTurnsDoNotMatter` | src/common/document-signing/page-geometry.ts:54-57 | angles that differ by full turns, negative ones included, are the same quarter turn |
| `PageGeometry.NearestQuadrant` | src/common/document-signing/page-geometry.ts:54-57 | multiples of 90 are kept, any other angle goes to the nearest quarter |
| `PageGeometry.DisplayedPageIsThePage` | src/common/document-signing/page-geometry.ts:63-70 | a point is on the page if and only if it is shown inside the displayed size |
| `PageGeometry.AppearsAtIff` | src/common/document-signing/page-geometry.ts:105-126 | the placement is the only one with which the image is seen upright where it was put, for every rotation |
| `PageGeometry.InsideIffRatios` | src/common/document-signing/page-geometry.ts:134-153 | the box is inside the displayed page if and only if its ratios are between 0 and 1 |
| `PageGeometry.MeasuredComesBack` | src/common/document-signing/page-geometry.ts:134-153 | ratios measured on a box give the box back |
| `PageGeometry.RatiosComeBack` | src/common/document-signing/page-geometry.ts:134-153 | measuring the box of some ratios gives these ratios back |
| `Stamping.Clamp` | src/common/document-signing/document-signing.service.ts:348-351 | the page that is used is the page of the document nearest to the one asked for |
| `Stamping.StampPositions` | src/document/document.service.ts:1381-1427 | one stamp for each explicit position, in order, and each where `Stamping.StampIsAtItsPosition` says |
| `Stamping.StampSigner` | src/document/document.service.ts:1356-1447 | one round of the loop draws that signer's stamps and advances the stack only for stacked signers |
| `Stamping.StampIsAtItsPosition` | src/document/document.service.ts:1383-1427 | a ratio position is drawn on its page (or the nearest) on the box that measures those ratios, without resizing; an absolute one on the last page at its corner, with its size if that is 60 to 320 by 24 to 128 and else 200 by 80; a code inside its box, undistorted and centred |
| `Stamping.SignerIsStampedAt` | src/document/document.service.ts:1356-1447 | what a signer gets: nothing without an image, one stamp for each explicit position, or one place in the stack |
| `Stamping.StretchesArePlaced` | src/document/document.service.ts:1356-1447 | in the whole result every signer's stretch is placed so, with the stack counted over the signers before |
| `Stamping.StampSignaturesOnto` | src/document/document.service.ts:1338-1451 | each signer's stretch of the result is where it should be: explicit positions on the page asked for and on the box the user measured, the k-th stacked signer on the last page k steps above the anchor, (50, 200, 100, 80) by default, and nothing for biometric signers or an e.firma still to be made |
| `Stamping.StampsOfSigner` | src/document/document.service.ts:1356-1447 | each signer's stamps are one stretch of the result |
| `Stamping.ExplicitPositionsOnceEach` | src/document/document.service.ts:1376-1382 | a signer with explicit positions gets one stamp for each and none for an empty list |
| `Stamping.CodeFits` | src/common/document-signing/document-signing.service.ts:496-513 | a code keeps its proportions, is centred, touches two sides of the box and stays inside |
| `Stamping.StackIsApartIff` | src/common/document-signing/document-signing.service.ts:520-536 | the places of the stack are pairwise apart if and only if the box is in range, or at least 40 points high (or at most -120) |
| `Stamping.StackedSignersAreApart` | src/document/document.service.ts:1428-1447 | under that condition no two stacked signers of a list draw over one another |
| `Stamping.LowBoxOverlaps` | src/document/document.service.ts:1349 | two stacked signatures in a box 30 points high overlap |
| `Stamping.FinalStampsOfSigner` | src/document/document.service.ts:1338-1451 | what the finished document shows of a signer is that signer's stretch of the final stamping |
| `Stamping.RefreshPartiallySignedPreview` | src/document/document.service.ts:1467-1495 | the preview is the stamping of those who signed, or the previous one if nobody has or a call fails |
| `Stamping.PreviewIsFinalIff` | src/document/document.service.ts:1332-1337 | the preview shows the final places if and only if nobody stacked who signed comes after somebody stacked who has not |
| `Stamping.SignedPrefixIsPrefix` | src/document/document.service.ts:1467-1484 | if the signers sign in the order of the list, the preview is the beginning of the final stamping |
| `Stamping.LateSignerMoves` | src/document/document.service.ts:1332-1337 | the second of two stacked signers, signing first, is shown in the first one's place |
| `Finalisation.ResolveDocumentBucket` | src/document/document.service.ts:447-462 | the finalised bucket is served exactly for SIGNED and CANCELLATION_PENDING, the cancelled and the rejected one exactly for their states, the preview exactly for a pending document that somebody signed |
| `Finalisation.AttemptKeepsInvariant` | src/document/document.service.ts:1242-1313 | an attempt on an unfinished document keeps the invariant wherever it stops, and makes it SIGNED only by its last step |
| `Finalisation.SealStays` | src/document/document.service.ts:1030-1062 | an attempt never replaces a seal that is there |
| `Finalisation.RestartIsSafeIff` | src/document/document.service.ts:1242-1313 | why the caller must not start it on a SIGNED document: it would stay whole if and only if the attempt does nothing, gets as far as the new sheet, or stamps the same bytes |
| `Finalisation.PrintedSealCoversHashIff` | src/document/document.service.ts:1290-1305 | the printed seal was made for the printed hash if and only if no seal for another hash was there before the attempt |
| `Finalisation.AdvancedSealIff` | src/document/document.service.ts:1009-1054 | an unsealed document gets a seal of its advanced signatures if and only if there are some, no evidence is missing, the provider answers and it is stored; it is returned if and only if it was saved |
| `Finalisation.SealedIsReadAgainIff` | src/document/document.service.ts:1047-1051 | a sealed document keeps its seal, which is returned if and only if reading it again works |
| `Finalisation.MarkedPendingIff` | src/document/document.service.ts:1064-1079 | the mark is set if and only if evidence is missing and there was no mark; in the store only if the write works |
| `Finalisation.SimpleSealIff` | src/document/document.service.ts:957-968 | simple signatures are sealed, with the stored hash, if and only if the document qualifies and the calls work |
| `Finalisation.SheetPrintsSealIff` | src/document/document.service.ts:1291-1305 | exactly when the final sheet prints a seal, and which one, in terms of the inputs and the earlier seal |
| `Finalisation.AttemptLeaves` | src/document/document.service.ts:1242-1308 | what has changed when an attempt stops after each of its steps, and when the SIGNED document is marked as waiting for its seal |
| `Finalisation.DocumentService.constructor` | src/document/document.service.ts:162-165 | a document opens unsigned and without objects |
| `Finalisation.DocumentService.MarkSealingPending` | src/document/document.service.ts:1064-1080 | the first mark is kept, in memory even if the write fails |
| `Finalisation.DocumentService.SealAdvancedSignatures` | src/document/document.service.ts:986-1053 | a document without seal gets one, and is told of it, exactly if somebody signed with an e.firma, no evidence is missing and the calls work; it is newly marked exactly if evidence is missing and there was no mark |
| `Finalisation.DocumentService.SealSimpleSignatures` | src/document/document.service.ts:957-972 | the hash just stored is sealed, or the existing seal is read again |
| `Finalisation.DocumentService.FinalizeSignedDocument` | src/document/document.service.ts:1242-1313 | the stores are left as the attempt's last step says; at the end hash, time, objects and status agree and the sheet prints a seal exactly under the stated condition on the inputs |
| `Finalisation.DocumentService.AttachSignaturesSheet` | src/document/document.service.ts:1514-1569 | the final object is the stamped document and a sheet with its hash and seal |
| `SigningRuns.StepKeepsCalls` | src/document/applications/sign-document.use-case.ts:948-1034 | every step keeps it: who may finish the document saw every other answer, and there is one such call at most |
| `SigningRuns.RunIsSound` | src/document/applications/sign-document.use-case.ts:934-1079 | every run of signing, rejecting, dying, sealing and cancelling keeps the invariant |
| `SigningRuns.AtMostOneAttempt` | src/document/applications/sign-document.use-case.ts:1029-1042 | however the signers' calls interleave, the document is finished by at most one of them, once |
| `SigningRuns.FinishedDocumentsAreWhole` | src/document/document.service.ts:1242-1313 | in every run a served final document is whole: stored hash, printed hash and both objects speak of the same bytes |
| `SigningRuns.PrintedSealsCoverTheHash` | src/document/document.service.ts:1277-1305 | in every run the printed seal is the stored one and was not made for another hash, seals posted by others included |
| `SigningRuns.SignedIffAttemptSucceeded` | src/document/applications/sign-document.use-case.ts:1036-1042 | if nobody rejects, the document leaves PENDING_SIGNATURE if and only if an attempt got to its last step |
| `SigningRuns.FinishedMeansEverybodyAnswered` | src/document/applications/sign-document.use-case.ts:1029-1036 | a finished document has every answer, and they are all signatures if and only if nobody rejected |
| `SigningRuns.LostForEver` | src/document/applications/sign-document.use-case.ts:770-778 | once no answer is missing and no call is about to finish the document, nobody ever tries to finish it |
| `SigningRuns.FailedAttemptIsFinal` | src/document/document.service.ts:1295-1298 | after a failed attempt no run ever finishes the document or attempts it again |
| `SigningRuns.CanBeSignedIff` | src/document/applications/sign-document.use-case.ts:934-1042 | a document that waits for signatures can still become SIGNED if and only if an answer is missing or a call is about to finish it |
| `SigningRuns.LateSealIff` | src/document/applications/get-public-document.use-case.ts:203-228 | a late seal changes only mark and seal; it is stored if and only if the document is marked, the evidence is complete and the calls work, and the mark is cleared if and only if evidence is not missing again |
| `SigningRuns.FailedLateSealIsRetriedIff` | src/document/applications/get-public-document.use-case.ts:196-202 | a marked document that stays unsealed stays marked if and only if the provider was not asked in vain |
| `SigningRuns.CanBeSealedIff` | src/document/applications/get-public-document.use-case.ts:196-202 | in every run a SIGNED document without seal can still get one, unless somebody posts it, if and only if it is marked |
| `SigningRuns.CountIsOneMoreThanLoaded` | src/document/applications/sign-document.use-case.ts:1035 | a counted signature writes one more than its call had loaded, and nothing else |
| `SigningRuns.CountLosesASignature` | src/document/applications/sign-document.use-case.ts:1035 | two signatures are counted and the document shows one |
| `SigningRuns.FailedStampingSticks` | src/document/applications/sign-document.use-case.ts:206-208 | the only signer has signed, stamping fails, and the document can never be SIGNED |
| `SigningRuns.BothSawTheOther` | src/document/applications/sign-document.use-case.ts:1029-1053 | two signers see each other pending and nobody finishes the document |
| `SigningRuns.SignedOverARejection` | src/document/applications/reject-document.use-case.ts:107-142 | a document ends SIGNED although one of its signers rejected it |
| `LikePattern.EscapedIsLiteral` | src/directory/directory-contacts.service.ts:86-88 | an escaped text inside a pattern matches itself and nothing else |
| `LikePattern.SearchFindsSubstrings` | src/directory/directory-contacts.service.ts:330-332 | the filter keeps a string if and only if the term is a substring of it |
| `LikePattern.EscapedAloneIsEquality` | src/directory/directory-contacts.service.ts:86-88 | without wildcards around it the escaped text tests for equality |
| `LikePattern.SearchPatternIsWellFormed` | src/directory/directory-contacts.service.ts:330-332 | no term makes the database reject the pattern |
| `LikePattern.UnescapeUndoesEscape` | src/directory/directory-contacts.service.ts:86-88 | unescaping undoes escaping |
| `LikePattern.EscapeIsInjective` | src/directory/directory-contacts.service.ts:86-88 | different terms have different patterns |
| `LikePattern.UnescapedFindsMore` | src/directory/directory-contacts.service.ts:70-76 | the unescaped term of the comment does find a string it should not |
| `ApiKey.FromHexUndoesHex` | src/api-key/api-key-secret.service.ts:79 | hexadecimal gives the bytes back |
| `ApiKey.DecodeUndoesEncode` | src/api-key/api-key-secret.service.ts:80 | unpadded base64url gives the bytes back |
| `ApiKey.SextetsUndoOctetsIff` | src/api-key/api-key-secret.service.ts:80 | digits come back if and only if the bits left over are zero |
| `ApiKey.HexDigitsOfByte` | src/api-key/api-key-secret.service.ts:79 | each byte is two digits of 0-9a-f, the high half first |
| `ApiKey.DigitsSpellTheBytes` | src/api-key/api-key-secret.service.ts:80 | in the alphabet of section 5 of RFC 4648, each four digits are the big-endian number that three bytes are, with zero bits after the last |
| `ApiKey.ParsedIffPrinted` | src/api-key/api-key-secret.service.ts:123-127 | a token parses to two parts if and only if they have the form of a key and print to it |
| `ApiKey.GeneratedIsAccepted` | src/api-key/api-key-secret.service.ts:78-89 | a generated key is fma_live_, the id and the secret, is accepted, and gives back its random bytes |
| `ApiKey.OneReading` | src/api-key/api-key-secret.service.ts:19-25 | although the secret may contain the separator, a token has one reading |
| `ApiKey.AcceptedIsGeneratedIff` | src/api-key/api-key-secret.service.ts:23-25 | an accepted key could have been generated if and only if the value of its last digit is a multiple of four |
| `VerificationCodes.StepKeepsInvariant` | src/document/verification-code.service.ts:80-126 | every step of every verification keeps used rows and successful calls in correspondence |
| `VerificationCodes.ConsumedAtMostOnce` | src/document/verification-code.service.ts:117-125 | in every interleaving no code is consumed by two calls |
| `VerificationCodes.OnlyMatchingCodesAreConsumed` | src/document/verification-code.service.ts:91-115 | a consumed code belongs to the document, the signer and the event asked for, matches, and had not expired when checked |
| `VerificationCodes.UsedIffConsumed` | src/document/verification-code.service.ts:117-125 | a row is used if and only if some call succeeded with it; a rollback frees it |
| `VerificationCodes.HasConsumedCodeIff` | src/document/verification-code.service.ts:129-138 | the answer is true if and only if some verification consumed a code of that document, signer and event |
| `VerificationCodes.VerificationCodeService.constructor` | src/document/verification-code.service.ts:17-21 | no code is issued at first |
| `VerificationCodes.VerificationCodeService.IssueCode` | src/document/verification-code.service.ts:29-55 | one unused row, valid for 900000 milliseconds |
| `VerificationCodes.VerificationCodeService.VerifyAndConsume` | src/document/verification-code.service.ts:80-126 | it succeeds if and only if a pending code is found that matches and has not expired; then exactly that row is marked, and otherwise nothing changes |
| `VerificationCodes.VerificationCodeService.FindConsumedCode` | src/document/verification-code.service.ts:152-162 | the code of the most recent consumption, if there is one |
| `VerificationCodes.FreshCodeIsLatest` | src/document/verification-code.service.ts:91-101 | the code just issued is the one and only the next request of its signer finds |
| `VerificationCodes.IssueThenVerifyTwice` | src/document/verification-code.service.ts:29-126 | beside any older codes, a fresh one verifies up to 900000 milliseconds later and is not consumed again |
| `VerificationCodes.ConsumesOnlyIff` | src/document/verification-code.service.ts:91-101 | a request consumes no code of another event if and only if it names its own |
| `VerificationCodes.AnyEventIsConsumed` | src/document/applications/verify-document-code.use-case.ts:32-36 | for every signer: the code for a public session is consumed in place of the older one for signing |
| `Catalogue.Without` | src/account/account.service.ts:745-748 | exactly the entries with another id are kept |
| `Catalogue.FindIndex` | src/account/account.service.ts:711-714 | an entry with that id, or -1 if and only if there is none |
| `Catalogue.AccountService.constructor` | src/account/account.service.ts:56-60 | an empty cache agrees with no accounts |
| `Catalogue.AccountService.AppendAccountToCatalog` | src/account/account.service.ts:659-678 | the account's entry is added at the end, or nothing if Redis fails |
| `Catalogue.AccountService.ReplaceAccountInCatalog` | src/account/account.service.ts:700-726 | the entry is replaced where there is one, and no other catalogue changes |
| `Catalogue.AccountService.RemoveAccountFromCatalog` | src/account/account.service.ts:733-758 | the entries of that id go, and no other catalogue changes |
| `Catalogue.AccountService.RefreshCatalogForOrganizationMembers` | src/account/account.service.ts:685-698 | in every catalogue exactly the entries of the listed members are renewed |
| `Catalogue.AccountService.CreateAccount` | src/account/applications/add-organization-member.use-case.ts:143-183 | catalogue and accounts agree afterwards if and only if Redis answered |
| `Catalogue.AccountService.CreateOrganization` | src/account/applications/create-organization.use-case.ts:74-80 | catalogue and accounts agree after a new organization |
| `Catalogue.AccountService.UpdateOrganization` | src/account/applications/update-organization.use-case.ts:52-65 | every active member's one entry shows the new profile, beside the member's own role and type |
| `Catalogue.AccountService.RevokeAccess` | src/account/applications/revoke-account-access.use-case.ts:46-51 | the entry disappears with the membership |
| `Catalogue.OperationKeepsSync` | src/account/account.service.ts:659-758 | each operation with its cache method keeps catalogues and accounts in agreement |
| `Catalogue.CatalogueIsTheImage` | src/account/account.service.ts:659-758 | over every sequence of creations, renames and revocations each user's catalogue is the image of that user's active accounts, each once |
| `Catalogue.ActiveAccountIsShown` | src/account/account.service.ts:659-678 | in agreement, an active account has one entry, with its own type, role and dates and the profile of its organization |
| `Catalogue.ShownIsActive` | src/account/account.service.ts:659-678 | and an entry belongs to an active account of that user |
| `Catalogue.SilentUpdateKeepsSyncIff` | src/account/applications/update-account-member.use-case.ts:120 | a membership changed without the catalogue leaves them agreeing if and only if its entry is the same, or it is inactive before and after |
| `Catalogue.SilentInsertKeepsSyncIff` | src/account/applications/grant-account-access.use-case.ts:83-99 | an account inserted without the catalogue leaves them agreeing if and only if it is inactive |
| `DirectoryUpsert.FirstWithIsFirst` | src/directory/directory-collaborators.service.ts:146-150 | the collaborator that counts for an email is the first one that has it |
| `DirectoryUpsert.EveryCollaboratorIsActive` | src/directory/directory-collaborators.service.ts:141-190 | each collaborator's email has its contact, and it is active |
| `DirectoryUpsert.OthersAreNotTouched` | src/directory/directory-collaborators.service.ts:117-125 | contacts that were active, of other directories, or named by nobody are not touched |
| `DirectoryUpsert.NewRowsAreWanted` | src/directory/directory-collaborators.service.ts:156-176 | no row disappears and a new one belongs to some collaborator |
| `DirectoryUpsert.FirstCollaboratorIsListed` | src/directory/directory-collaborators.service.ts:156-189 | column by column: the first collaborator with an email gives a new or archived contact its names; an active one stays as it is |
| `DirectoryUpsert.AddingAgainChangesNothing` | src/directory/directory-collaborators.service.ts:141-190 | adding the same people again changes no row, whoever does it |
| `DirectoryUpsert.OutcomeIsUnique` | src/directory/directory-collaborators.service.ts:141-190 | the resulting table is determined |
| `DirectoryUpsert.DirectoryCollaboratorsService.constructor` | src/directory/directory-collaborators.service.ts:38 | no directory and no contact at first |
| `DirectoryUpsert.DirectoryCollaboratorsService.FindOrCreateDirectory` | src/directory/directory-collaborators.service.ts:206-232 | the owner's directory, created only if it is missing |
| `DirectoryUpsert.DirectoryCollaboratorsService.ByEmail` | src/directory/directory-collaborators.service.ts:146-150 | each normalised email once, with the first collaborator that has it |
| `DirectoryUpsert.DirectoryCollaboratorsService.Upsert` | src/directory/directory-collaborators.service.ts:156-189 | a missing contact is created, an archived one comes back under the new name, an active one stays |
| `DirectoryUpsert.DirectoryCollaboratorsService.AddManualCollaboratorsToDirectory` | src/directory/directory-collaborators.service.ts:141-190 | every row is as the first collaborator with its email asks, column by column, in the directory of the organization or of the person; nothing happens for an empty list or a membership without organization |

## Left out

- Controllers, modules, DTO validation, health checks, Swagger documentation and `main.ts`: wiring.
- Postgres, Mongo, Kafka, Redis, MinIO, the seal provider and the PDF library themselves: they are tables, logs and calls that may fail.
- SHA-256, AES-GCM, HMAC, RSA and OCSP: uninterpreted; `matchesSecret` and `hashSecret` are not modelled.
- `emit` to Kafka is a hand-off that is not awaited; a message lost after it is outside the model, as the code does not notice it either.
- Billing, subscriptions and permissions; of the sign, reject and cancel use cases, everything but what they do to the document, its signers and its seals.
- The other migrations, and the names of constraints and indexes in the modelled one.
- Two users accepting one invitation at the same time, and concurrent writes of one Redis catalogue: the code takes no lock there.
- The order of turns in sequential documents, which only allows fewer runs, and approval, linking and expiry.
- A signer's call reads the document and the signers in one step, and an attempt to finish is one step of a run: a seal posted, or a count written, while it is under way comes before or after it.
- The opacity of stamps, and the failure of reading a signature image, which aborts the stamping.
- The directory of trusted certificates is given; reading and parsing it, and the validity dates, are not modelled.
- `MongoAudit.HeadHashCommitsToSummaries`: commits to summaries and not to whole records, because that is all the hash covers; JSON texts are represented by the values they print.
- `MongoAudit.AuditService.Create`: does not model the cipher kept beside the hashes, which no hash covers, nor concurrent calls, for which the code takes no lock.
- `DocumentWriters.CommittedRecordsFormOneLine`: assumes a clock that advances between critical sections, because the code orders the rows by it.
- `TrustWalk.AcceptedIffPath`: requires at most one issuer per certificate, because the code tries only the first; `TrustWalk.AcceptedIffGreedyPath` needs no such condition.
- `VerificationCodes.OnlyMatchingCodesAreConsumed`: says that the code had not expired when it was checked, because the update that consumes it does not check again.
- `Catalogue.AccountService.UpdateOrganization`: is stated with Redis answering; with a failing Redis the old entries stay.
- `DirectoryUpsert.DirectoryCollaboratorsService.AddManualCollaboratorsToDirectory`: does not model the rollback of the document's transaction, which undoes it as a whole; trimming and lower-casing an email is a parameter.
- `PasswordResetCodeService` and the email verification codes: the same shape without the conditional update.
