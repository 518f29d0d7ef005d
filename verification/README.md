# mcp-coordinator: verified model of its stateful core

The coordinator lets several coding agents announce work, consult each other and receive messages.
This project models the six parts of it whose correctness is about whole runs, and proves what each
of them keeps.

- **Listener queue** (`ListenerModel.dfy`, `MqttBridge.dfy`): the per-agent queue of the MQTT bridge
  with its blocked waiter, its one in-flight batch, its sticky acknowledgement mode and its cap of
  1000. The objects carry a ghost history; their state is always the model run of that history.
- **Consultation threads** (`ConsultationModel.dfy`, `ClaimModel.dfy`, `Consultation.dfy`): the thread
  table under announce, the scored respondents that replace the announced ones, late joiners, post,
  claim, unclaim, propose, approve, contest, cancel, close, departure, timeout sweep and the deletion
  of old messages. An approval is two steps, the status check and the transaction, with anything in
  between.
- **Audit hash chain** (`AuditChain.dfy`, `AuditRuns.dfy`): the verifier script, the boot-time
  backfill, chained appends and retention; then the table over whole runs, with boots that rewrite
  outcomes, backfill, and insert migration rows without a hash. The digests are parameters. Where a
  lemma asks for ideal digests (injective, and on no cycle), `AuditRuns.IdealDigestsExist` shows that
  this can be met.
- **Data-repairing migrations** (`AgentMigration.dfy`, `Revocation.dfy`): recovery of agents that
  rows reference but no organisation has, the status merge, re-parenting, and the re-scoping of
  revocations, which every boot runs again.
- **Token encryption** (`EncryptionModel.dfy`, `BootEncryption.dfy`, `TokenMigration.dfy`): boot
  guards, plaintext sweep and wrapped provider over any sequence of boots and crashes, and the
  cursor-batched command-line migration.
- **Graph and index code** (`BlastRadius.dfy`, `CoChange.dfy`, `ScoringModel.dfy`,
  `ImpactScorer.dfy`): the blast-radius walk, co-change counting with its predictor cap, and the
  impact scorer's precomputed indexes against a direct evaluation of its layers.

`Common.dfy` holds options, the string order and module-path overlap. `dafny verify dfyconfig.toml`
checks everything. Where a file has a model module beside it, the class or method proves that it
performs the model's step, and the theorems are stated once, on the model.

## Where the code and its promises differ

Each of these is stated as the exact condition under which the code does what is promised.

- A second `waitForMessage` overwrites the first: a waiter whose timer has fired was answered if and
  only if no second wait arrived while it was registered (`ListenerModel.AnsweredUnlessSuperseded`).
- Approvals belong to a round, not to a proposal: proposing another text voids none, reopening voids
  all that are written (`ConsultationModel.ProposingKeepsApprovals`,
  `ConsultationModel.ReopeningVoidsApprovals`). An approval counts for the round in which it passed its
  check if and only if no contest reopened the thread before its transaction
  (`ConsultationModel.ApprovalCountsForItsRound`); otherwise it counts for a proposal its agent never
  saw (`ConsultationModel.LateApprovalCountsForNextRound`).
- Claiming is to keep two agents from holding open threads with a common target file. It does so
  throughout a run if and only if no contest reopens a claimed thread while somebody else holds one of
  its files (`ClaimModel.ExclusiveThroughout`, smallest run `ClaimModel.ContestBreaksExclusivity`).
- A thread given up twice is poisoned so that nobody claims it again. It stays out of the pool if and
  only if no proposal for it is accepted (`ClaimModel.OutOfPoolUnlessProposed`,
  `ClaimModel.PoisonedCanBeReclaimed`).
- A departure ends an open thread of the organisation if and only if the thread waits for nobody
  else, so directed and kept-open tasks that wait for nobody are ended by anybody's departure
  (`ConsultationModel.DepartureEndsOpenThread`).
- The backfill is documented to keep the chain unbroken. It hashes un-hashed rows onto the newest
  hash, wherever they stand, and unkeyed. Boot inserts its migration rows after the backfill, and
  later appends are chained past them. On an intact chain, un-hashed rows and rows chained past them,
  the result is accepted if and only if there was nothing to fill, or nothing was chained past and the
  chain had not gone keyed (`AuditChain.BackfillAcceptedIff`, smallest case
  `AuditChain.OneChainedPastOne`).
- Over whole runs the table is accepted if and only if a ledger without hashes is in order
  (`AuditRuns.AcceptedIffInOrder`). Without retention this can be told from the operations alone
  (`AuditRuns.AcceptedIffWatched`): the newest rows have their hashes, nothing was appended past
  un-hashed rows or unkeyed after a keyed row, and no boot found a chained row without an outcome, or
  un-hashed rows on a keyed chain. A boot that reports a migration is rejected at once
  (`AuditRuns.MigrationRowRejected`), and a chained row without an outcome is rejected after the next
  boot (`AuditRuns.RewrittenOutcomeRejected`).
- `verified_rows` is a lower bound of the clean rows, exact if and only if no row fails in two ways
  (`AuditChain.VerifiedRowsIsALowerBound`).
- The revocation pass is documented to run once; boot rewinds the schema version, so it runs at every
  start. A boot revokes a registered agent that nobody revoked if and only if its id has a revocation
  in an organisation that does not have the agent (`Revocation.BootSpreads`).
- The rotation override keeps every ciphertext under the stored fingerprint if and only if there is no
  ciphertext (`EncryptionModel.RotationSoundIffNoCiphertext`); a confirmed token loss also drops a
  plaintext token if and only if its row holds a ciphertext (`EncryptionModel.TokenLossKeepsCiphertexts`).
- The predictor cap is documented as a share of commits; it adds up a file's companions
  (`CoChange.CapCountsCompanions`). The two agree on a file if and only if the difference does not carry
  the count across two fifths of the commits (`CoChange.CapAgreesWithDocumentation`, with
  `CoChange.RareFileExcluded` and `CoChange.LoneFileKept` as small cases). The cap makes Layer 4's
  score of 60 unreachable (`CoChange.SixtyIsUnreachable`). A file with a bar in its name is never
  excluded (`CoChange.BarredNeverExcluded`), and a pair's count exceeds its commits exactly by the
  other pairs that share its key (`CoChange.PairCountIsCommitCount`).
- The scorer's composite keys can confuse pairs of a file and an agent when both contain a bar
  (`ImpactScorer.BarsCollide`). The scores are those of the direct evaluation for every peer all the
  same, since the names in built co-change rows hold no bar (`CoChange.BuiltRowsAreBarFree`). The
  reasons are too if and only if, for each target file the peer touched recently, the key gives the
  reason that the peer's own symbols give (`ImpactScorer.SameEvaluation`, a case where it does not:
  `ImpactScorer.ReasonConfused`).

## Model

| member | source | states |
|---|---|---|
| ListenerModel.EveryMessageHasOneFate | src/mqtt-bridge.ts:232-249 | over any run, an arrival is handed out, acknowledged, dropped, in flight or queued, exactly one of these, and every drop has one record |
| ListenerModel.StepFates | src/mqtt-bridge.ts:507-562 | a step adds one fate for the message it delivers and otherwise only moves messages between fates |
| ListenerModel.RunInv | src/mqtt-bridge.ts:458-562 | conservation, arrival order, bounds and one answer per waiter are kept by every run |
| ListenerModel.OwedInArrivalOrder | src/mqtt-bridge.ts:448-456 | in-flight followed by queue is strictly increasing by arrival and never longer than two full queues |
| ListenerModel.HandedInArrivalOrder | src/mqtt-bridge.ts:458-539 | over any run without acknowledgement, what waits, waiters and drains hand out is in arrival order and older than the queue |
| ListenerModel.SettlingNeverForgets | src/mqtt-bridge.ts:516-522 | the branch that forgets an in-flight batch because acknowledgement was never asked for is unreachable |
| ListenerModel.UnacknowledgedBatchReturns | src/mqtt-bridge.ts:507-539 | whatever happens between two drains, the unacknowledged drain returns exactly the newest 1000 of batch then queue, one drop record for each message that did not fit |
| ListenerModel.DeliveryKeepsNewest | src/mqtt-bridge.ts:237-247 | a delivery keeps the newest 1000 and drops the oldest |
| ListenerModel.LaterDrainsAreNewer | src/mqtt-bridge.ts:516-538 | once acknowledged, a message is never owed again and every later drain is strictly newer |
| ListenerModel.AcknowledgingDrainIsNewer | src/mqtt-bridge.ts:517-521 | a drain that names the batch acknowledges it and returns the queue untouched, all of it newer |
| ListenerModel.AckConsumerLosesNothingUncounted | src/mqtt-bridge.ts:483-506 | a consumer that asked for acknowledgement and only drains: every arrival is acknowledged, still owed, or dropped with a record |
| ListenerModel.SettledBatchStaysSettled | src/mqtt-bridge.ts:541-554 | an id no longer in flight is never accepted again over any run that does not draw it anew |
| ListenerModel.ForgottenNeverAnswered | src/mqtt-bridge.ts:471-480 | a waiter that is neither registered nor answered never gets an answer |
| ListenerModel.WaiterIsAnswered | src/mqtt-bridge.ts:237-249 | the registered waiter gets the arriving message, or nothing when its own timer fires |
| ListenerModel.AnsweredUnlessSuperseded | src/mqtt-bridge.ts:471-480 | after its timer fired, a waiter has been answered iff no second wait arrived while it was registered |
| MqttBridge.AgentListener.Receive | src/mqtt-bridge.ts:232-249 | the message goes to the waiter, or to the end of the queue, whose oldest is lost when it is full; nothing else changes |
| MqttBridge.AgentListener.WaitForMessage | src/mqtt-bridge.ts:458-473 | the message returned is the one that leaves the head of the queue, and is logged as returned; or a waiter is registered under a new name |
| MqttBridge.AgentListener.Timeout | src/mqtt-bridge.ts:474-479 | the timer acts only on its own waiter |
| MqttBridge.AgentListener.TrimQueue | src/mqtt-bridge.ts:557-562 | the loop drops exactly the excess, oldest first, and counts it |
| MqttBridge.AgentListener.SettleInFlight | src/mqtt-bridge.ts:516-529 | a named batch is acknowledged; else it goes back in front of the queue, and exactly what exceeds the cap is lost, oldest first |
| MqttBridge.AgentListener.GetQueuedMessages | src/mqtt-bridge.ts:507-539 | which messages are returned, acknowledged and lost, the batch id, and the state left, from the state before |
| MqttBridge.AgentListener.AckBatch | src/mqtt-bridge.ts:549-554 | true iff the id names the batch in flight, whose messages are then acknowledged; else nothing changes |
| MqttBridge.AgentListener.EveryMessageAccounted | src/mqtt-bridge.ts:232-249 | after any calls, the messages that arrived are those returned, acknowledged, lost, in flight and queued, each as often as it arrived |
| MqttBridge.Bridge.RegisterListener | src/mqtt-bridge.ts:416-421 | idempotent; an existing listener keeps its state |
| MqttBridge.Bridge.RemoveListener | src/mqtt-bridge.ts:423-430 | forgets exactly that listener and releases its waiter |
| MqttBridge.Bridge.QueueDepth | src/mqtt-bridge.ts:448-456 | queued plus in flight, at most 2000, and 0 without a listener |
| MqttBridge.DeliverAll | src/mqtt-bridge.ts:232-249 | every listener of the organisation receives the message once; reports exactly the full ones |
| MqttBridge.Bridge.Route | src/mqtt-bridge.ts:217-257 | no other organisation is touched; the drop records are exactly malformed, no listener, or one per full listener |
| ConsultationModel.StepContinues | src/consultation.ts:310-522 | no operation changes a thread's organisation, initiator, limits or creation; the round grows by one exactly when a contest reopens it |
| ConsultationModel.RespondentsAre | src/consultation.ts:188-206 | asked are exactly the online agents, other than the announcer, with a module in the tree of a target |
| ConsultationModel.RemainingAre | src/sweeper/index.ts:343-349 | retention keeps exactly the messages it does not delete |
| ConsultationModel.RunInv | src/consultation.ts:256-522 | 1 <= round <= max_rounds, no message from a later round, ended threads carry their end time, over any run |
| ConsultationModel.ReopenedLessThanMaxRounds | src/consultation.ts:364-376 | over any run a thread is reopened at most max_rounds - 1 times |
| ConsultationModel.SweepMeetsDeadline | src/consultation.ts:475-522 | after any history, a sweep later than created + timeout * max_rounds leaves no thread with a positive timeout live |
| ConsultationModel.SweepEndsExactly | src/consultation.ts:475-522 | a sweep ends exactly the open and resolving threads with a positive timeout that has passed once per round, and leaves every other row as it is |
| ConsultationModel.SweepAnnounces | src/consultation.ts:475-522 | one timeout event for each thread a sweep ends, none for any other |
| ConsultationModel.NoEarlyTimeout | src/consultation.ts:475-522 | over any run, a timeout is announced only for a thread with a positive timeout, and only after it has passed since creation |
| ConsultationModel.StepEvents | src/consultation.ts:325-412 | a step announces a thread exactly when it moves it from open or resolving to resolved, once, under the step's own kind, auto-resolution after scoring included |
| ConsultationModel.EventsAreMoves | src/consultation.ts:310-522 | over any run and for each kind, the events of a thread are its moves into resolved |
| ConsultationModel.EndedStaysQuiet | src/consultation.ts:310-522 | a resolved or cancelled thread stays ended over any run without a proposal for it |
| ConsultationModel.RevivedIffProposed | src/consultation.ts:310-323 | a step makes an ended thread live again iff it is an accepted proposal for it |
| ConsultationModel.EventsSeparatedByPropose | src/consultation.ts:310-522 | two announcements of one thread always have a proposal for it in between |
| ConsultationModel.QuorumWhenResolved | src/consultation.ts:453-460 | whenever approval or departure ends a resolving thread, every remaining respondent has approved in its round, and one event is written |
| ConsultationModel.ConsensusWasCalledFor | src/consultation.ts:325-352 | over any run, each respondent of a thread ended by approval or departure had itself passed the status check of an approval for it, in that round or an earlier one |
| ConsultationModel.ApprovalCountsForItsRound | src/consultation.ts:325-352 | whatever happens between check and transaction, the approval is stamped with the round of its check iff no contest reopened the thread in between; if it resolves the thread, it does so as many rounds later as there were reopenings |
| ConsultationModel.LateApprovalCountsForNextRound | src/consultation.ts:329-338 | an approval checked before a contest and committed after the next proposal resolves that proposal |
| ConsultationModel.ReopeningVoidsApprovals | src/consultation.ts:364-376 | after a reopening contest no agent has an approval of the current round |
| ConsultationModel.ProposingKeepsApprovals | src/consultation.ts:310-323 | a new proposal keeps every approval of the round |
| ConsultationModel.DeparturePostState | src/consultation.ts:424-469 | every column of every row afterwards: the agent is no longer expected and nobody else is lost, open claims of it are given up, no open thread waits for nobody and no resolving one has full approval; other organisations and ended threads are unchanged; one event per ended thread |
| ConsultationModel.DepartureEndsOpenThread | src/consultation.ts:461-467 | an open thread is ended iff it belongs to the organisation and waits for nobody but the departing agent |
| ClaimModel.StepExclusive | src/http/rest-handlers.ts:516-536 | a step keeps claims on common files exclusive iff it does not reopen a claimed thread into a clash |
| ClaimModel.ExclusiveThroughout | src/http/rest-handlers.ts:500-536 | over any run, no two agents hold open threads of one organisation with a common target file at any moment, iff no contest reopens a claimed thread while another agent holds one of its files |
| ClaimModel.ContestBreaksExclusivity | src/consultation.ts:364-376 | propose, claim by another agent, contest: both hold the file |
| ClaimModel.OutOfPoolUnlessProposed | src/http/rest-handlers.ts:404-428 | over any run, a poisoned or otherwise ended thread stays out of the pool and unclaimed iff no proposal for it is accepted |
| ClaimModel.PoisonedCanBeReclaimed | src/http/rest-handlers.ts:404-428 | a proposal and a contest let a poisoned thread be claimed again |
| Consultation.Service.AllRespondentsApproved | src/consultation.ts:739-762 | true iff every expected agent has an approval stamped with the current round |
| Consultation.Service.EmitResolution | src/consultation.ts:103-154 | the event carries the thread's organisation, summary, creation and end time, whether it has messages, and the approver with the name it gave or its id |
| Consultation.Service.AnnounceWork | src/consultation.ts:156-254 | every column of the new thread: who is asked, that it starts resolved iff nobody is asked and it is neither kept open nor directed, timeout 0 or 600, 4 rounds |
| Consultation.Service.OverrideRespondents | src/announce-workflow.ts:105-123 | performs the model's step: the scored agents replace the respondents; an open thread that concerns nobody, with nobody else online, ends with one event |
| Consultation.Service.JoinRespondents | src/http/rest-handlers.ts:816-834 | performs the model's step: a concerned agent joins a live thread once |
| Consultation.Service.ClaimTask | src/http/rest-handlers.ts:516-536 | performs the model's step: open, unclaimed, not reserved for another, and no overlapping thread held by another agent |
| Consultation.Service.OtherHolds | src/http/rest-handlers.ts:523-534 | true iff another agent holds an open thread of the organisation with a common target file |
| Consultation.Service.UnclaimTask | src/http/rest-handlers.ts:404-430 | performs the model's step: only the claimant, poisoned at the second time |
| Consultation.Service.PostToThread | src/consultation.ts:256-308 | appends one message of the current round; refused exactly for unknown and cancelled threads |
| Consultation.Service.ProposeResolution | src/consultation.ts:310-323 | resolving with the text and a message of the round; accepted exactly from initiator or claimant |
| Consultation.Service.ApproveCheck | src/consultation.ts:325-329 | passes exactly for a resolving thread, and changes nothing but the pending approvals |
| Consultation.Service.ApproveTransaction | src/consultation.ts:336-352 | posts the approval; resolves, with one event naming the approver, iff the thread is resolving and everybody expected has approved in the round |
| Consultation.Service.ContestResolution | src/consultation.ts:354-377 | refused unless resolving; reopens in the next round without the summary, or ends at the last one with one event |
| Consultation.Service.CancelThread | src/consultation.ts:379-392 | the initiator ends the thread cancelled, in any status, with a message iff a reason is given and no event |
| Consultation.Service.CloseThread | src/consultation.ts:394-412 | the initiator of a live thread resolves it with the text and one event |
| Consultation.Service.DepartThread | src/consultation.ts:446-467 | one thread of the departure loop: shortened, and resolved with one event under the two conditions |
| Consultation.Service.HandleAgentDeparture | src/consultation.ts:424-469 | unclaiming and the loop together perform the row-wise departure of the model |
| Consultation.Service.CheckTimeouts | src/consultation.ts:475-522 | every row afterwards: ended iff live, with a positive timeout passed once per round, else unchanged; events after the update, in row order |
| AuditChain.Verify | scripts/verify-audit-chain.ts:130-251 | the loop's findings are, row by row, what each row deserves given the rows before it |
| AuditChain.CheckRow | scripts/verify-audit-chain.ts:186-247 | one row's findings and what is carried to the next |
| AuditChain.AcceptedIffChainOk | scripts/verify-audit-chain.ts:360-371 | no failure iff every hash is present and recomputes with the available key, id-adjacent rows are linked and nothing unkeyed follows something keyed |
| AuditChain.ReportedIffDeserved | scripts/verify-audit-chain.ts:151-247 | each kind of finding is reported iff some row has its cause: a gap, a missing hash, another hash than the last one since the gap, a keyed hash without a key, an unkeyed one after a keyed one, a digest that does not recompute |
| AuditChain.GapsAccountForIds | scripts/verify-audit-chain.ts:151-156 | gap sizes plus rows equal last id - first id + 1 |
| AuditChain.VerifiedRowsIsALowerBound | scripts/verify-audit-chain.ts:363-371 | verified_rows never exceeds the rows without a failure, with equality iff no row fails twice |
| AuditChain.DeletionKeepsAcceptance | scripts/verify-audit-chain.ts:157-184 | deleting any set of rows from an accepted table leaves an accepted table |
| AuditChain.TipBindsTable | scripts/verify-audit-chain.ts:130-251 | with injective hashes, two accepted gap-free tables over the same ids with the same tip hash are equal, first prev_hash included |
| AuditChain.FindTip | src/database.ts:55-59 | the newest stored hash or the genesis constant |
| AuditChain.Backfill | src/database.ts:54-89 | the in-place walk equals hashing each un-hashed row onto the one before, unkeyed |
| AuditChain.BackfillWrites | src/database.ts:54-89 | only the hash columns of un-hashed rows change: an unkeyed digest of their own fields onto the newest stored hash, or onto the row filled just before |
| AuditChain.BackfillIdempotent | src/database.ts:41-53 | a second backfill changes nothing, whatever the table |
| AuditChain.BackfillResumes | src/database.ts:41-53 | backfilling in two goes equals one go when the un-hashed rows are the newest |
| AuditChain.BackfillAcceptedIff | src/database.ts:54-89 | on an intact chain, then un-hashed rows, then rows chained past them, with consecutive ids and digests on no cycle: accepted iff there was nothing to fill, or nothing was chained past and the chain had not gone keyed |
| AuditChain.OneChainedPastOne | src/security/audit.ts:166-171 | the smallest rejected case, on a chain that was never keyed |
| AuditChain.AppendAccepted | src/boot-orgs-uniqueness.ts:276-326 | a chained append keeps acceptance iff it does not put an unkeyed row after a keyed one |
| AuditRuns.RunCoupled | src/database.ts:784-843 | over any run and whatever the digests, rows the ledger calls hashed, unchanged and linked are |
| AuditRuns.RunExact | src/database.ts:784-843 | over any run with ideal digests the ledger misses nothing: a rewritten row does not recompute, a row not marked as linked is not linked |
| AuditRuns.AppendWrites | src/security/audit.ts:157-227 | an append adds one row with the next id, the given fields and the digest of both onto the tip |
| AuditRuns.BootWrites | src/database.ts:784-843 | every row after a boot: empty outcomes marked, a note iff there was one, every hash present, stored hashes kept, then the un-hashed migration rows |
| AuditRuns.AcceptedIffInOrder | src/database.ts:784-843 | over any run of appends, retention and boots that rewrite outcomes, backfill and insert un-hashed rows, starting from any legacy rows: no failure iff the ledger is in order |
| AuditRuns.AcceptedIffWatched | src/security/audit.ts:157-227 | over any run without retention: no failure iff no append went past un-hashed rows or unkeyed after a keyed one, no boot found a chained row without an outcome or un-hashed rows on a keyed chain, and the newest rows have hashes |
| AuditRuns.WatchedLogVerifies | src/sweeper/index.ts:302-325 | the same condition suffices with any retention in between and whatever the digests |
| AuditRuns.MigrationRowRejected | src/database.ts:1295-1309 | after any run, a boot that inserts a migration row leaves a table with a failure |
| AuditRuns.RewrittenOutcomeRejected | src/database.ts:786-794 | a row chained without an outcome verifies before the next boot and not after it |
| AuditRuns.IdealDigestsExist | src/security/audit-chain.ts:162-210 | digests that are injective and on no cycle exist, so the exact theorems are not empty |
| AgentMigration.Collect | src/database.ts:1227-1250 | votes are exactly the references of each unknown id per organisation over the five tables |
| AgentMigration.CountIsNumber | src/database.ts:1227-1250 | a table's references to an id from an organisation are the number of such rows |
| AgentMigration.PickBest | src/database.ts:1281-1284 | the organisation with most votes, on ties the lowest in whatever strict total order is used |
| AgentMigration.BestIsUnique | src/database.ts:1278-1279 | two runs on the same data with the same order agree |
| AgentMigration.CodeUnitOrderIsStrictTotal | src/database.ts:1678-1685 | the order the status merge uses is a strict total order, so the orders asked for exist |
| AgentMigration.ResolveDangling | src/database.ts:1218-1292 | exactly one new agent per missing id, in its majority organisation, for every strict total order of ties; nobody else changes; refuses iff an id is missing and repair is off |
| AgentMigration.MergeStatus | src/database.ts:1686-1727 | whatever the deletion order, exactly the top row of each agent remains |
| AgentMigration.ExactlyOneSurvivor | src/database.ts:1678-1685 | every agent with a status keeps exactly one row, and it outranks all others |
| AgentMigration.SurvivorIsLatest | src/database.ts:1678-1685 | no row of the agent is later than the survivor; among equally late ones it is the one at home, else the one in the lowest organisation |
| AgentMigration.ReparentTables | src/database.ts:1729-1744 | same rows in the same order, each in its agent's organisation |
| AgentMigration.ReparentedKeysUnique | src/database.ts:1671-1685 | re-parenting merged status rows makes no two collide and loses no agent |
| AgentMigration.MigratedIsFixed | src/database.ts:1686-1744 | run again on its own result, the merge and re-parenting change nothing |
| AgentMigration.Database.Migrate | src/database.ts:1653-1744 | the pipeline's whole post-state: every row at home, status keys unique, nothing lost from the other tables, only missing agents added |
| Revocation.FindEarliest | src/database.ts:1358-1370 | the mark of an earliest revocation of the id |
| Revocation.RescopeId | src/database.ts:1382-1417 | one id: inserted for every organisation that has the agent, stale rows deleted, other ids untouched |
| Revocation.Rescope | src/database.ts:1346-1443 | the pass's outcome for every key |
| Revocation.RescopeIdempotent | src/database.ts:1386-1395 | a second pass changes nothing |
| Revocation.DeliberateRowsUntouched | src/database.ts:1386-1389 | rows of an id revoked only where it is registered are kept as they are |
| Revocation.PerOrgLookupMatchesGlobal | src/database.ts:1312-1323 | with globally unique ids the per-organisation lookup answers what the global one did |
| Revocation.RevocationIsPermanent | src/database.ts:1346-1443 | over any interleaving of registering, revoking and booting, a registered revoked agent stays revoked with the same mark |
| Revocation.RevocationHasOrigin | src/database.ts:1358-1395 | over any run, every revocation carries the mark of somebody's revoking that id |
| Revocation.BootSpreads | src/database.ts:1342-1344 | a boot revokes a registered unrevoked agent iff its id has a row in an organisation without the agent |
| Revocation.ForeignRevocationSpreads | src/auth.ts:265-270 | the smallest run in which that happens |
| EncryptionModel.CiphertextsMatchFingerprint | src/boot-encryption.ts:45-113 | over any run without rotation, every stored ciphertext is under the stored fingerprint's key and no boot adopts a key |
| EncryptionModel.RunSound | src/boot-encryption.ts:361-402 | the invariant over boots, encrypt calls, stores, crashes and token losses |
| EncryptionModel.KeyedBootEncryptsEverything | src/boot-encryption.ts:319-327 | after any run, a keyed boot that goes through leaves each token absent or encrypted under that key |
| EncryptionModel.KeylessBoot | src/boot-encryption.ts:178-268 | without a key a boot goes through iff no ciphertext is stored, or token loss is allowed and confirmed with the number of rows that hold one; refused it changes no table, confirmed it empties exactly those rows |
| EncryptionModel.KeyedBoot | src/boot-encryption.ts:279-327 | with a key a boot is refused iff another fingerprint is stored and rotation is not allowed; else exactly the plaintext tokens are encrypted, and the fingerprint left is stated |
| EncryptionModel.CiphertextChangesIff | src/boot-encryption.ts:178-327 | a step changes a stored ciphertext iff it stores another token there or is a confirmed loss |
| EncryptionModel.CiphertextStays | src/boot-encryption.ts:178-327 | over any run a stored ciphertext stays until one of these |
| EncryptionModel.EncryptedMeans | src/boot-encryption.ts:379-397 | what the provider returns, and when it stores the fingerprint |
| EncryptionModel.RotationSoundIffNoCiphertext | src/boot-encryption.ts:279-303 | the override keeps the invariant iff no ciphertext is stored |
| EncryptionModel.TokenLossKeepsCiphertexts | src/boot-encryption.ts:208-268 | every ciphertext is stashed; a plaintext token is lost iff its row holds a ciphertext |
| BootEncryption.Database.MigratePlaintextIdpTokens | src/boot-encryption.ts:45-113 | the row loop encrypts every plaintext token and stores the fingerprint iff there was one |
| BootEncryption.Database.InvalidateTokens | src/boot-encryption.ts:220-258 | the row loop empties exactly the rows with a ciphertext and stashes each ciphertext |
| BootEncryption.RunEncryptionGuards | src/boot-encryption.ts:160-333 | refuses exactly without a key on unconfirmed ciphertexts, or with another key than the stored fingerprint's and no rotation; then changes nothing, else performs the boot with its stated effect on the tables |
| BootEncryption.Provider.Encrypt | src/boot-encryption.ts:379-397 | the fingerprint is stored before the first ciphertext is returned |
| TokenMigration.UserTable.SelectAfter | cli/encryption/migrate.ts:215-228 | the batch starts at the first row above the cursor and holds the limit, or all that are left |
| TokenMigration.UserTable.SelectEncryptedAfter | cli/encryption/migrate.ts:275-290 | the batch holds exactly the limit of rows with a ciphertext, or fewer when none is left after it |
| TokenMigration.UserTable.CompareAndSet | cli/encryption/migrate.ts:248-251 | writes and counts a change iff the cell still holds the value read |
| TokenMigration.UserTable.RunEncryptBatches | cli/encryption/migrate.ts:200-259 | for every batch size: exactly the non-empty plaintext tokens of users with an id are encrypted, and each counter is the number of rows or tokens it names |
| TokenMigration.UserTable.RunDecryptBatches | cli/encryption/migrate.ts:261-320 | succeeds iff every ciphertext of a user with an id was made with the key, with the table and each counter as they should be; otherwise exactly the first k selected rows are decrypted, k being the number before the first unreadable one rounded down to whole batches |
| TokenMigration.CountersBalance | cli/encryption/migrate.ts:232-252 | the column counters add up to twice the rows scanned, and no compare-and-set is lost |
| TokenMigration.EncryptionMeans | cli/encryption/migrate.ts:232-252 | scanned, null_skipped, already_done and changed, each counted from the tables before and after |
| TokenMigration.DecryptionMeans | cli/encryption/migrate.ts:288-313 | the same for decryption, over the rows that hold a ciphertext |
| TokenMigration.DecryptUndoesEncrypt | cli/encryption/migrate.ts:261-320 | decrypting after encrypting restores a plaintext table and cannot fail |
| TokenMigration.EncryptIdempotent | cli/encryption/migrate.ts:239-242 | encrypting again, with any key, changes nothing |
| TokenMigration.LeftInPlaintext | cli/encryption/migrate.ts:213-238 | what stays plaintext: exactly empty tokens and the tokens of a user with an empty id |
| BlastRadius.BuildIndex | src/dependency-map.ts:190-201 | the index lists, per module, its dependents in table order with repetitions |
| BlastRadius.DependentsAre | src/dependency-map.ts:190-201 | a dependent is exactly a module of the table that lists it |
| BlastRadius.LevelComplete | src/dependency-map.ts:205-218 | when the walk reads an entry, everything up to that entry's distance has been visited |
| BlastRadius.WalkStep | src/dependency-map.ts:210-218 | reading one entry keeps the queue sorted by exact distance and the visited set exact |
| BlastRadius.GetBlastRadius | src/dependency-map.ts:187-231 | module, direct and indirect are exactly what depends on it through any chain; indirect has no repetition, is disjoint from both and sorted by shortest distance |
| CoChange.SplitJoin | src/git-cochange-builder.ts:113-116 | for names without a bar the key gives back the names |
| CoChange.CountPairs | src/git-cochange-builder.ts:237-256 | per key and for any weighting, what the nested loops add up over the counted commits |
| CoChange.EligibleAre | src/git-cochange-builder.ts:245-245 | a denied file is never paired, and of the others none is lost or repeated |
| CoChange.PairCountIsCommitCount | src/git-cochange-builder.ts:245-253 | whatever the names, a pair's count is the number of counted commits whose eligible files include both (times their repetitions), plus the other pairs that share its key |
| CoChange.NoBarsNoStrays | src/git-cochange-builder.ts:250-253 | without bars in the names that are paired no other pair shares a key |
| CoChange.CountFiles | src/git-cochange-builder.ts:112-117 | a file's count is the sum of the counts of its pairs |
| CoChange.BuildRows | src/git-cochange-builder.ts:118-158 | the rows are exactly those of pairs with both files under the cap, in name order |
| CoChange.PairHasRowIff | src/git-cochange-builder.ts:136-155 | a pair has a row iff both files are under the cap and their normalised names differ; the row is the pair in name order with its count |
| CoChange.SurvivorsAreRare | src/git-cochange-builder.ts:118-146 | every surviving row has 5 * count <= 2 * total |
| CoChange.BuiltRowsAreBarFree | src/git-cochange-builder.ts:136-155 | the names in built rows hold no bar, provided normalisation adds none |
| CoChange.SixtyIsUnreachable | src/impact-scorer.ts:359-368 | on a built index, whatever the names, Layer 4 scores 0 or 40 |
| CoChange.CapCountsCompanions | src/git-cochange-builder.ts:108-126 | whatever the names, a file's count is its companions plus what split keys misread, and it is excluded iff five times that exceeds twice the commits |
| CoChange.NoBarsNoMisreads | src/git-cochange-builder.ts:113-116 | without bars in the names that are paired nothing is misread |
| CoChange.CompanionsVersusCommits | src/git-cochange-builder.ts:108-126 | companions are the commits with the file, plus its companions beyond the first, minus the commits it is alone in |
| CoChange.CapAgreesWithDocumentation | src/git-cochange-builder.ts:107-126 | the cap excludes a file exactly when more than two fifths of the commits contain it, iff the difference of the two counts does not cross that threshold |
| CoChange.BarredNeverExcluded | src/git-cochange-builder.ts:112-117 | a file with a bar in its name is never excluded |
| CoChange.RareFileExcluded | src/git-cochange-builder.ts:108-126 | a file in one of three commits, under the documented cap, can be excluded |
| CoChange.LoneFileKept | src/git-cochange-builder.ts:108-126 | a file in every commit is kept when it always changes alone |
| ScoringModel.ConcernedIffSharesTarget | src/impact-scorer.ts:283-290 | a score of at least 90 iff a target file is shared through a live thread, 60-minute activity or an in-flight claim, whatever the keyed lookups answer |
| ScoringModel.ScoreIsJustified | src/impact-scorer.ts:148-280 | the score is the worth of the best reason, and zero iff there is no reason |
| ScoringModel.ActiveThreadsAre | src/impact-scorer.ts:125-132 | considered are exactly the open and resolving threads and those resolved within the window |
| ScoringModel.LatestIsNewest | src/impact-scorer.ts:296-310 | the symbols read are those of the row with the highest id that has a value |
| ScoringModel.ReasonsAreCaused | src/impact-scorer.ts:148-280 | each of the nine reasons is given iff the tables hold its cause |
| ScoringModel.ScoreMeans | src/impact-scorer.ts:148-280 | 100 iff a target file is shared, at least 80 iff also a dependency in either direction, 60 and 40 by co-change, 30 by a module: every threshold, from the tables |
| ImpactScorer.FileToAgents | src/file-tracker.ts:92-126 | the index holds exactly the recent (file, agent) pairs without the caller |
| ImpactScorer.InFlightToAgents | src/working-files-tracker.ts:125-148 | the index holds exactly the live claims without the caller |
| ImpactScorer.GroupByInitiator | src/impact-scorer.ts:137-145 | grouping keeps each initiator's threads in order |
| ImpactScorer.FileKeyInjective | src/impact-scorer.ts:320-320 | with agent ids without a bar the composite key names one pair |
| ImpactScorer.FileNameSplitsKey | src/impact-scorer.ts:404-404 | with file names without a bar it does too, whatever the ids |
| ImpactScorer.BarFreeIsUnambiguous | src/impact-scorer.ts:320-320 | among ids without a bar no key can be taken for another agent's |
| ImpactScorer.BarsCollide | src/impact-scorer.ts:320-320 | with a bar in both, two pairs share a key |
| ImpactScorer.CollectSymbols | src/impact-scorer.ts:292-326 | every key answers the symbols of the last row with that key which is the newest of its file and agent and parses |
| ImpactScorer.UnambiguousIsAnswered | src/impact-scorer.ts:292-326 | an agent no key confuses is answered the newest parseable symbols of its own |
| ImpactScorer.Layer4Candidates | src/impact-scorer.ts:340-372 | per target file its scoring partners in row order |
| ImpactScorer.PartnerActivity | src/impact-scorer.ts:382-406 | exactly the keys of recent activity on partner files; with partner files without a bar, a key is present iff that agent touched that file recently, for every agent |
| ImpactScorer.CandidatesAreRows | src/impact-scorer.ts:262-271 | walking prepared candidates gives what walking the co-change rows gives |
| ImpactScorer.SameEvaluation | src/impact-scorer.ts:148-280 | on rows without bars, the indexes give every peer the direct score, and the direct reasons iff each recently touched target file gets the reason of the peer's own symbols |
| ImpactScorer.ReasonConfused | src/impact-scorer.ts:207-226 | a family of tables in which a peer gets another agent's symbols as its reason |
| ImpactScorer.ScorePeer | src/impact-scorer.ts:148-280 | any peer: at least 90 iff it shares a target file; on rows without bars every score threshold and every reason from the tables, and the direct outcome under the exact condition |
| ImpactScorer.Score | src/impact-scorer.ts:50-281 | every online peer but the caller, in order, each with such an outcome |
| ImpactScorer.Categorize | src/impact-scorer.ts:283-290 | every peer but the caller is in its category and nobody else is: concerned iff it shares a target file, whatever the ids; on rows without bars gray zone iff it has any weaker link, else pass |

## Left out

- MQTT client, broker, HTTP and SSE wiring, authentication, loggers and metrics: input and output only.
- Real digests, ciphers and key derivation: parameters or constructors; a token that merely looks like a ciphertext is not represented.
- SQL text, table copies, indexes and pragmas: tables are sequences, sets or maps, and statements their row-level effect; the grouped counts of dangling references are taken row by row.
- Identifiers drawn at random and clocks: thread ids are row numbers, waiters are numbered, batch ids and times are parameters.
- `/api/reset`, which empties the tables of a test deployment: every run starts from an empty table.
- Message text, thread subject and plan: carried by no claim.
- String order in SQL and in JavaScript's `<` is code-unit order. `localeCompare` is any strict total order; that it may call two different spellings equal is not represented.
- Parsing of `git log`, path normalisation and the denylist patterns: parameters of the co-change model, normalisation being assumed to add no bar where a lemma says so; that two normalised pairs may collide on the table's key is not represented.
- Ratios against 0.4, 0.5 and 0.2 are compared exactly instead of in floating point.
- Removal of duplicates inside the text of the disjoint-symbols reason: the reason carries the lists as given.
- Migration v11 once two organisations share an id: its own premise is the unique index on ids.
- Batching of Tier 2 audit rows: a flushed batch is a run of appends; rows dropped before they reach the table leave no trace in it.
- Rotation of the audit key: one key per run, used or not at each append.
- Two processes writing tokens at once, and writers running beside the command-line migration: one process is modelled.
- Retries, lock files and the scheduler of the co-change builder: plumbing.
