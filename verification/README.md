# Atlas: a verified model

Atlas lets a language-model agent propose actions and runs them only behind RBAC, human approval, an
idempotency ledger and a hash-chained audit log. It also keeps a knowledge graph whose rows are scoped by
ACL, in an in-memory and a Postgres backend. This project models those parts in Dafny and proves what they
are for.

- **Resuming a paused thread.** `ResumeLock` is the refcounted lock table as interleaved atomic steps of any
  number of calls; `ResumeProtocol` composes it with the gate, the runs it admits and the ledger, with leases
  released at any time after the gate, threads owned and requests made by anybody; `ResumeOverlap` shows what a
  release before the commit costs, `ResumeProgress` that a resume can always be carried through; `Streaming` is
  the producer and the event trace of a streamed run.
- **The approval state machine.** `Actions` derives permissions from arguments; `Orchestration` is every run
  of planner, approval and executor over a shared log, with policy changes, mutated arguments, crashes,
  re-run nodes and other writers as steps; `AgentNodes` holds the nodes as loops over that log and proves that
  they follow the machine; `Approvals` covers resume payloads and the decisions that arrive over HTTP;
  `RunLimits` gives two runs that a reader may not expect.
- **The audit chain.** `AuditChain` treats digests symbolically, so collision freedom is explicit;
  `AuditAppender` is the Postgres appender as concurrent transactions under the advisory lock;
  `LedgerBackends` compares the two forms of the idempotency test.
- **The knowledge graph.** `Rbac`, `LikePattern`, `ReadAccess`, `RankFusion` and `Retrieval` compare the fast
  SQL paths with the simple definition; `Chunking`, `KnowledgeStore`, `Ingestion`, `ExtractionShape`,
  `IngestionSafety`, `IngestionAuthority`, `IngestionFrames`, `IngestionIsolation` and `IngestionCaps` cover the
  write path and what every sequence of ingests keeps. `Collections` and `Text` hold what the others share.

`dafny verify dfyconfig.toml` checks everything.

Where the code and its documentation disagree, the model follows the code:

- The audit module promises that any insertion, edit, reorder or deletion is detectable. `verify_chain` cannot notice a
  removed tail, a re-linked last record or a proper append; `AuditChain.DeletionDetectedIff`,
  `AuditChain.EditDetectedIff` and `AuditChain.InsertionDetectedIff` say exactly which changes it notices.
- Both audit backends are meant to answer `has_executed` alike. They differ on any `ok` value that SQL casts
  to true and Python does not take for `True` (a null, the number 1, the text "true"), and SQL raises on text
  that is no boolean; `LedgerBackends.BackendsAgreeIff` is the exact condition on the stored values.
- The resume lock is documented to be held through the whole stream. The response's background task and the
  generator's cleanup release the lease too, and after a disconnect they need not wait for the producer. A
  release after the run has committed is harmless; one between the gate and the commit lets a second run in
  (`ResumeOverlap.ExposedRunMayOverlap`, `ResumeOverlap.ExposedRunMayRunTwice`), and nothing else does
  (`ResumeProtocol.OrderlyIsCalm`). A stream whose client stays past the commit never releases in that window
  (`Streaming.StreamLifecycle`, `ResumeOverlap.StreamedReleaseIsEarlyIff`).
- The gate reads the checkpoint only, so a resume may run while the chat that created the thread is still
  returning (`ResumeOverlap.ResumeMayMeetChat`).
- The executor re-checks the permission just before it runs a tool. A policy edited between the check and the
  call still lets the call through (`RunLimits.RevocationCanComeLate`);
  `Orchestration.PermittedAtEffectIff` says exactly when the call is still permitted.
- Hybrid retrieval stops before fusing when no full-text row exists, so vector candidates are then dropped;
  `Retrieval.HybridAnswer`, which `Retrieval.HybridQuery` ensures, carries that condition.
- Re-ingesting is described as idempotent. It is for the same document; a shorter text leaves the surplus
  chunks of the longer one (`IngestionIsolation.SurplusChunksStay`).
- Ids are namespaced by owner so that two users never collide. With colons in user or source ids they do:
  `IngestionIsolation.DocumentIsIsolatedIff` says exactly when one document's ingests get in another's way,
  `IngestionIsolation.ChunkIsTakenOver` gives a family where one user's ingest takes over another's personal
  chunks, and `IngestionIsolation.ChunkWithinExtractionIsLost` one where it deletes them. The caps fail in
  such cases too, and `IngestionCaps.DocumentKeepsCapsIff` says exactly when.
- A raw payload may approve and reject one id. `Approvals.ConsistentIff` says which payloads do; the action
  then runs (`RunLimits.DecidedBothWaysRuns`). Only the request validator rules it out.

## Model

| member | source | states |
|---|---|---|
| `ResumeLock.MutualExclusion` | src/atlas/interface/resume_lock.py:51-91 | In every interleaving of acquires and repeated, concurrent or stale releases, two open leases on one thread id are the same lease. |
| `ResumeLock.RefcountsAreExact` | src/atlas/interface/resume_lock.py:66-91 | In every reachable state `refs` is the number of callers that bumped it and have not decremented; an entry is in the table exactly while that is positive; a thread id never has two live entries; a waiter is always queued on the entry in the table. |
| `ResumeLock.IdentityCheckAlwaysHolds` | src/atlas/interface/resume_lock.py:71-75 | Whenever a release is about to decrement, the table still maps its thread id to that very entry, so the identity test never fails. |
| `ResumeLock.UnlockIsOwnerSafe` | src/atlas/interface/resume_lock.py:52-71 | A release that unlocks finds the lock locked, has not unlocked its lease before, and no open lease exists on that thread: it never unlocks somebody else's hold. |
| `ResumeLock.BlockedOnlyByHolder` | src/atlas/interface/resume_lock.py:78-91 | A waiting acquire can proceed now, unless some call holds the lock of the same entry. |
| `ResumeLock.QuiescentTableIsEmpty` | src/atlas/interface/resume_lock.py:66-75 | Once all calls have returned and all leases are released, the table is empty, all locks are free, and each lease was unlocked exactly once. |
| `ResumeLock.RunKeepsInv` | src/atlas/interface/resume_lock.py:39-91 | The inductive invariant behind these facts holds at the end of every run. |
| `ResumeProtocol.HistoryKeepsLocks` | src/atlas/interface/resume_lock.py:66-141 | Whatever is released when, the lock table keeps its invariant, every lease and every waiting call belongs to a request, and no lease is released before its request has passed the gate. |
| `ResumeProtocol.HistoryKeepsInv` | src/atlas/interface/resume_lock.py:117-141 | As long as no two resumes have overlapped, gate, checkpoints, ledger and side effects keep their joint invariant over every history of chats, resumes by anybody, failures and releases; a chat returns at any time after its pause or its end is in the checkpoint. |
| `ResumeProtocol.GateAdmitsIff` | src/atlas/interface/security.py:96-122 | The gate lets in exactly an identified caller whose user and organisation are those of the identified owner of a known thread that awaits approval; anybody else leaves, and no thread, ledger entry, side effect or other request changes either way. |
| `ResumeProtocol.HistoryKeepsOwners` | src/atlas/interface/security.py:91-122 | Over every history, orderly or not, every request past the gate, and every side effect, is of a caller who may resume the thread it is on. |
| `ResumeProtocol.OwnersStay` | src/atlas/interface/security.py:91-93 | No move changes the owner in a checkpoint, and only entering makes a caller. |
| `ResumeProtocol.OnlyOwnersResume` | src/atlas/interface/resume_lock.py:117-141 | So whoever runs a thread, and whoever resumed it when a gated action took effect, is its owner. |
| `ResumeProtocol.ExposedByEarlyRelease` | src/atlas/interface/routes.py:342-344 | Only a release of the lease of a request that has passed the gate and not yet committed leaves such a request without its lease. |
| `ResumeProtocol.OrderlyIsCalm` | src/atlas/interface/sse.py:75-79 | A history without such a release never has two runs on one thread, although leases may be released while a run works, any number of times. |
| `ResumeProtocol.RunsNeverOverlap` | src/atlas/interface/routes.py:283-291 | In every history without a release between gate and commit, two resumes running on one thread are the same resume, and its thread awaits approval until it commits and executes afterwards, so the chat has committed its pause. |
| `ResumeOverlap.ResumeMayMeetChat` | src/atlas/interface/routes.py:207-217 | The chat's run need not have returned: there is such a history in which a resume has passed the gate while the chat is still going. |
| `ResumeProtocol.OneResumePerThread` | src/atlas/interface/resume_lock.py:117-141 | In every such history at most one request takes a given thread out of awaiting approval, although runs may fail anywhere. |
| `ResumeProtocol.OneEffectPerAction` | src/atlas/execution.py:32-40 | In every such history no gated action id has two successful side effects, each effect belongs to a gated action of its thread, and each successful ledger entry stands for an effect. |
| `ResumeProgress.RunCanFinish` | src/atlas/execution.py:24-40 | A run at work can be carried to its end: every gated action left is then recorded, those not recorded before have had their side effect, and the thread has ended. |
| `ResumeProgress.OwnerCanResume` | src/atlas/interface/resume_lock.py:78-141 | After every history, while the lock of a thread that awaits approval is free, its owner can enter, pass the gate, take the thread on once and see every gated action done and recorded. |
| `ResumeOverlap.ExposedRunMayOverlap` | src/atlas/interface/routes.py:222-237 | The condition cannot be weakened: any history with a request that lost its lease between gate and commit has overlapping runs in it or goes on to one that has, whoever holds or awaits the lock. |
| `ResumeOverlap.ExposedRunMayRunTwice` | src/atlas/execution.py:32-40 | From such a state, if nothing overlapped before, two requests can both take the thread out of awaiting approval and both have the side effect of its first gated action. |
| `ResumeOverlap.EarlyReleaseHappens` | src/atlas/interface/routes.py:338-345 | Such a history exists: a chat, a resume past the gate, and a release by a cleanup before the commit. |
| `ResumeOverlap.OverlapHappens` | src/atlas/interface/routes.py:338-345 | So there is a history in which two runs of one thread overlap and one gated action takes effect twice. |
| `ResumeOverlap.StreamedReleaseIsEarlyIff` | src/atlas/interface/sse.py:86-117 | The release of a streamed resume's lease falls between gate and commit exactly if the run went on after it and had not pulled the chunk of the commit. |
| `Streaming.ResumeLease.Release` | src/atlas/interface/resume_lock.py:66-75 | Release is idempotent: only the first call unlocks. |
| `Streaming.RunGraphStream` | src/atlas/interface/sse.py:59-124 | For every stream, detach point, failure point, cancellation point and release by another cleanup: the chunks are pulled up to the cancellation or to the end, a prefix cut at the detach point is sent, the failure is passed on, the lease is unlocked exactly once, and how far the run had come by then is exact. |
| `Streaming.EmitNodes` | src/atlas/interface/routes.py:212-216 | Node events of one update are sent in order without internal names, cut where the client left. |
| `Streaming.Consume` | src/atlas/interface/routes.py:196-216 | The consumer loop sends the body of the stream, stopping at the interrupt or where the client left, and knows whether it was interrupted. |
| `Streaming.StreamLifecycle` | src/atlas/interface/routes.py:159-238 | The client sees the full trace cut at its disconnection; the lease is unlocked once whatever the order of its releases; unless the client leaves while the run goes on, the run is drained and the lease covers all of it, and if it leaves, exactly until the first cleanup; a client that gets more than the chunks up to the commit have for it leaves no early release. |
| `Streaming.EndingTellsTheRun` | src/atlas/interface/routes.py:207-225 | For every run and fault: completed is sent exactly if the run started, did not raise, asked for no approval and could be read afterwards; awaiting exactly if an approval was asked for and its response could be made; error exactly if the start, the run, that response or the final read failed. |
| `Streaming.TraceTellsTheRun` | src/atlas/interface/routes.py:198-216 | The tokens are exactly the non-empty texts of the responder before the interrupt, and the node events exactly the non-internal names in the updates before it, each in order. |
| `Streaming.TraceIsWellFormed` | src/atlas/interface/routes.py:167-182 | Every undisturbed trace is in the language open (node or token)* (awaiting error? or completed or error) done. |
| `Streaming.EveryWellFormedTraceHappens` | src/atlas/interface/routes.py:183-238 | And every word of that language is the trace of some run, so the language is exact. |
| `Actions.ChannelValidationSettles` | src/atlas/tools.py:287-314 | Validating a validated channel changes nothing, except that a blank one is then refused. |
| `Actions.PostRefusedIff` | src/atlas/tools.py:287-314 | A post is refused exactly if channel or text is missing, the text is empty or over 40,000 characters, or the channel is empty, a mention, a user or a direct message. |
| `Actions.ChannelIsTheOneGiven` | src/atlas/tools.py:295-314 | The channel posted to is the one given without white space at its ends, in lower case if it is a `#name`. |
| `Actions.MailRefusedIff` | src/atlas/tools.py:195-206 | A mail is refused exactly if its recipient is not a name and a domain, both non-empty and without white space, around a single `@`. |
| `Actions.MailedAsGiven` | src/atlas/tools.py:249-257 | What is mailed is what was given; a missing subject or body is empty. |
| `Actions.PlainSentAsGiven` | src/atlas/tools.py:129-145 | Any other tool refuses exactly an empty or missing required argument, and gets each argument as given or its default. |
| `Actions.ValidationSettles` | src/atlas/tools.py:129-145 | Validation is idempotent for every schema, blank channels apart. |
| `Actions.FreshProposalResolvesIff` | src/atlas/orchestration/nodes.py:166-183 | Re-deriving the permission of a fresh proposal gives exactly its stamp, unless its channel was blank, and then it fails (and the action is denied). |
| `Actions.SegmentNamesPostedChannel` | src/atlas/tools.py:169-178 | The channel segment names the channel posted to. |
| `Actions.ChannelPermission` | src/atlas/tools.py:90-98 | For every valid post with base permission b the permission required is b, `:channel:` and the name of the channel posted to. |
| `Actions.DomainPermission` | src/atlas/tools.py:209-218 | For every recipient x@d it is b, `:domain:` and d in lower case. |
| `Actions.UnscopedPermission` | src/atlas/tools.py:181-192 | Without a resource, or without a base, it is the base. |
| `Actions.ChannelsAreToldApart` | src/atlas/tools.py:169-192 | Two posts of one tool require the same permission exactly if they go to the same channel name. |
| `Actions.DomainsAreToldApart` | src/atlas/tools.py:181-218 | Two mails do exactly if they go to the same domain, up to case. |
| `Actions.RequiresIff` | src/atlas/orchestration/nodes.py:166-183 | An action resolves to a permission exactly if its arguments are valid, they call for that permission and the stamp, if any, is the same. |
| `Actions.ProposalIsTagged` | src/atlas/tools.py:137-145 | Tier and permission of a proposal come from the tool and the validated arguments. |
| `Actions.AddressDomainIsNonEmpty` | src/atlas/tools.py:195-218 | A well-formed recipient always yields a non-empty lower-case domain, the part after its `@`. |
| `Orchestration.DecidesOnlyPending` | src/atlas/orchestration/nodes.py:365-399 | Whatever the payload, decisions name only pending actions. |
| `Orchestration.RunKeepsInv` | src/atlas/orchestration/nodes.py:186-301 | The joint invariant of checkpoint, log, effects and lost entries holds at the end of every run over a shared log, with arbitrary planner output, policy changes, mutated arguments, crashes, re-run nodes and entries of other writers. |
| `Orchestration.EveryEffectIsAuthorized` | src/atlas/orchestration/nodes.py:250-301 | Every tool invocation was permitted, when it was checked, for the arguments it ran with, which agree with the stamp if there is one; one that does more than read followed its APPROVED entry, itself after PROPOSED. |
| `Orchestration.JudgeAllowsIff` | src/atlas/orchestration/nodes.py:259-293 | The gate opens for exactly the actions of known tools whose arguments are valid, agree with the stamp and call for a permission the principal holds. |
| `Orchestration.PostedChannelWasGranted` | src/atlas/tools.py:169-192 | Over every run, whatever was posted was posted under a single grant of one of the roles that authorizes base, `:channel:` and the name of that channel. |
| `Orchestration.MailedDomainWasGranted` | src/atlas/tools.py:195-218 | Whatever was mailed to x@d, under one that authorizes base, `:domain:` and d in lower case. |
| `Orchestration.RedirectedPostIsDenied` | src/atlas/orchestration/nodes.py:166-183 | A stamped post whose arguments change while the run is paused passes the check, under any policy, exactly if it did before, the new arguments are valid and they name the same channel. |
| `Orchestration.GatedIff` | src/atlas/orchestration/nodes.py:226-237 | The ids put before a human are exactly those of proposed actions that do more than read. |
| `Orchestration.PlanPausesIff` | src/atlas/orchestration/nodes.py:353-359 | Whatever the plan, the planner ends in the approval pause exactly if some authorized action does more than read; a plan that only reads goes to the executor and an empty one to the responder. |
| `Orchestration.PermittedAtEffectIff` | src/atlas/orchestration/nodes.py:280-299 | When the tool runs it is still permitted exactly if the policy then in force still grants the derived permission; nothing else can have lapsed. |
| `Orchestration.UneditedPolicyHolds` | src/atlas/orchestration/nodes.py:280-299 | While nobody edits the policy, check and effect are under the same one. |
| `RunLimits.RevocationCanComeLate` | src/atlas/orchestration/nodes.py:290-299 | For every action, of every tier, allowed before an edit and not after it there is a run that executes it, approved if it needs approval, after the edit. |
| `Orchestration.ExecutedEntriesAreEarned` | src/atlas/orchestration/nodes.py:186-301 | Every EXECUTED entry under an id nobody else wrote under stands for an earlier authorized, successful effect; for a gated action PROPOSED and APPROVED for the same id precede it in that order. |
| `Orchestration.AtMostOnceUpToCrashes` | src/atlas/execution.py:24-40 | A gated id nobody else wrote under has at most one successful EXECUTED entry; its successful effects are exactly that entry, plus the crashes between effect and entry, plus the effect whose entry is due. |
| `Orchestration.FailureNeverBlocksRetry` | src/atlas/governance/audit.py:194-198 | Entries other than EXECUTED never change what the executor does; it runs the tool exactly if RBAC allows it and a gated action is approved and unrecorded. |
| `Orchestration.HasExecutedIsCount` | src/atlas/governance/audit.py:333-337 | The ledger answers yes exactly if it counts a successful EXECUTED entry. |
| `AgentNodes.LatestExistsIffExecuted` | src/atlas/execution.py:42-50 | The replay scan finds a prior entry exactly if the ledger says the action was executed. |
| `AgentNodes.PlanAllReaches` | src/atlas/orchestration/nodes.py:193-222 | The planner loop is a crash-free stretch of the run machine. |
| `AgentNodes.DecideAllReaches` | src/atlas/orchestration/nodes.py:226-247 | So is the approval loop. |
| `AgentNodes.ExecuteAllReaches` | src/atlas/orchestration/nodes.py:255-301 | So is the executor loop, effects and entries included. |
| `AgentNodes.ExecuteThroughDisposes` | src/atlas/orchestration/nodes.py:259-299 | Undisturbed, the checks, the approval gate and the ledger come to one disposition, with exactly its entry and its effect. |
| `AgentNodes.EveryActionIsAccountedFor` | src/atlas/orchestration/nodes.py:255-299 | Each action leaves exactly one entry: DENIED exactly if not permitted, SKIPPED exactly if permitted but not approved, REPLAY_SKIPPED exactly if cleared and recorded, otherwise EXECUTED or FAILED with exactly one effect of that action. |
| `AgentNodes.Worker.PlannerNode` | src/atlas/orchestration/nodes.py:193-222 | The planner's loop leaves the log and the authorized actions that the machine leaves. |
| `AgentNodes.Worker.ApprovalNode` | src/atlas/orchestration/nodes.py:226-247 | Likewise for the decisions, the approvals and the rejections. |
| `AgentNodes.Worker.ReplayResult` | src/atlas/execution.py:42-50 | The backward scan returns the latest successful entry for the id, if any. |
| `AgentNodes.Worker.ExecuteGuarded` | src/atlas/execution.py:24-40 | A recorded gated action is skipped with a replayed result and no effect; any other runs once, and its entry follows the effect. |
| `AgentNodes.Worker.ExecutePlanned` | src/atlas/orchestration/nodes.py:259-299 | One round of the executor does to log and effects what the machine's execution and recording steps do, and reports the same result. |
| `AgentNodes.Worker.ExecutorNode` | src/atlas/orchestration/nodes.py:255-301 | The whole loop does what the machine does, and reports one result per executed or replayed action. |
| `AgentNodes.Worker.Turn` | src/atlas/orchestration/nodes.py:353-359 | A whole turn on any ledger, routed through approval when something is gated, ends in a state the run machine reaches. |
| `AgentNodes.ReachedStatesAreSafe` | src/atlas/orchestration/nodes.py:186-301 | So every guarantee about runs holds of the nodes. |
| `Approvals.RequestDecidesExactly` | src/atlas/interface/resume_lock.py:98-114 | A request decides an id in one way exactly if the id is pending and the request answers it that way. |
| `Approvals.DecidedByCaller` | src/atlas/interface/resume_lock.py:98-114 | Every decision of a request names its caller. |
| `Approvals.ValidRequestIff` | src/atlas/interface/schemas.py:66-74 | The validator accepts exactly the requests that answer something, answer no id both ways and do not mix a blanket answer with lists. |
| `Approvals.ValidRequestIsConsistent` | src/atlas/interface/schemas.py:66-74 | A request that passes validation never decides one id both ways. |
| `Approvals.ParsesExactly` | src/atlas/orchestration/nodes.py:365-399 | In every accepted shape the parsed decisions are exactly what the payload says of pending ids. |
| `Approvals.ConsistentIff` | src/atlas/orchestration/nodes.py:365-399 | A payload decides no id both ways exactly if no pending id is in both lists, or no two items or entries on one pending id disagree. |
| `Approvals.RawListMayConflict` | src/atlas/orchestration/nodes.py:365-399 | A raw list that approves and rejects one id is accepted as it is. |
| `Approvals.RunsDespiteRejectionIff` | src/atlas/orchestration/nodes.py:225-301 | Over every run, a gated action that ran was approved by the payload whose decisions were committed, and is among the committed rejections exactly if that payload rejected it as well. |
| `RunLimits.DecidedBothWaysRuns` | src/atlas/orchestration/nodes.py:296-299 | For every permitted gated action there is a run that rejects it, approves it and executes it. |
| `Approvals.RejectedNeverRuns` | src/atlas/orchestration/nodes.py:296-298 | Over every run driven through the HTTP interface, a gated action that ran is among the committed approvals and not among the rejections. |
| `AuditChain.VerifyChain` | src/atlas/governance/audit.py:124-145 | The loop reports an intact chain exactly if every record checks out; otherwise it names the sequence number and the reason of the first faulty record. |
| `AuditChain.AppendKeepsVerifying` | src/atlas/governance/audit.py:159-169 | Linking one more event keeps a chain verifying. |
| `AuditChain.VerifiesIffLinked` | src/atlas/governance/audit.py:124-169 | A chain verifies exactly if it is the one `link` builds from its events. |
| `AuditChain.PrefixVerifies` | src/atlas/governance/audit.py:124-145 | Every prefix of a verifying chain verifies. |
| `AuditChain.LastHashDeterminesChain` | src/atlas/governance/audit.py:95-100 | Two verifying chains with the same last hash are the same chain, their length included. |
| `AuditChain.DivergencePropagates` | src/atlas/governance/audit.py:95-145 | Verifying chains that differ at an index differ in hash there and at every later index. |
| `AuditChain.DeletionDetectedIff` | src/atlas/governance/audit.py:124-145 | Deleting a record is noticed exactly if it is not the last one. |
| `AuditChain.EditDetectedIff` | src/atlas/governance/audit.py:124-145 | Replacing a record is noticed exactly unless it is the last one, properly re-linked. |
| `AuditChain.InsertionDetectedIff` | src/atlas/governance/audit.py:124-145 | Inserting a record is noticed exactly unless it is a proper append. |
| `AuditChain.ReorderDetected` | src/atlas/governance/audit.py:124-145 | No reordering of a verifying chain verifies. |
| `LedgerBackends.BackendsAgreeIff` | src/atlas/persistence/audit_store.py:44-50 | Whatever JSON values `ok` holds and in whatever order the rows are read, SQL and Python give the same answer exactly if every stored value of the id can be cast to boolean and a value that only SQL takes for a success comes with one that both do. |
| `LedgerBackends.OneValueParts` | src/atlas/governance/audit.py:333-337 | On a single entry with a null, the number 1, the text "true" or " YES " SQL says executed and Python does not; on other text or numbers SQL raises. |
| `LedgerBackends.OwnEntriesAgree` | src/atlas/governance/audit.py:226-238 | On entries with a true boolean, which is what the executor writes, they agree. |
| `LedgerBackends.RunsKeepBackendsAgreeing` | src/atlas/execution.py:24-40 | So over every run they agree on every id that nobody else writes under. |
| `AuditChain.InMemoryAuditLog.Append` | src/atlas/governance/audit.py:340-350 | Appending extends the records, keeps them verifying and adds the event at the end. |
| `AuditChain.InMemoryAuditLog.AlreadyExecuted` | src/atlas/governance/audit.py:194-198 | The scan answers whether a successful execution is on record. |
| `AuditAppender.AppendsNeverFork` | src/atlas/persistence/audit_store.py:99-128 | After any interleaving of appenders, aborts included, the stored rows are contiguous and verify, and hold exactly the committed events, each once, in lock order. |
| `AuditAppender.InsertNeverConflicts` | src/atlas/persistence/audit_store.py:99-123 | Under the advisory lock a primary-key violation is unreachable. |
| `AuditAppender.RunKeepsInv` | src/atlas/persistence/audit_store.py:99-123 | The lock discipline, the tail each transaction read and the stored chain stay in step over every run. |
| `AuditAppender.AppendCanComplete` | src/atlas/persistence/audit_store.py:99-123 | After every run, while the lock is free, an append that waits for it can be carried to its commit, which puts its event last in the chain. |
| `AuditAppender.HolderCanComplete` | src/atlas/persistence/audit_store.py:99-123 | And whoever holds the lock can be carried to its commit, which frees it. |
| `Rbac.ExpandRoles` | src/atlas/governance/rbac.py:71-88 | The accumulating loop with its early return computes the union of the known roles' grants, collapsed to the wildcard if it contains it. |
| `Rbac.ExpansionAuthorizesByOneGrant` | src/atlas/governance/rbac.py:71-109 | The expansion satisfies a permission exactly if a single grant of a single known role does, so the collapse changes nothing. |
| `Rbac.CoversIff` | src/atlas/governance/rbac.py:91-109 | A wildcard grant covers a permission exactly if it is some p and `:*`, and the permission starts with p and a colon. |
| `Rbac.CanByOneGrant` | src/atlas/governance/policy.py:34-44 | A principal can do something exactly if one grant of one of its known roles authorizes it. |
| `Rbac.CanByOneRow` | src/atlas/governance/policy.py:34-44 | Whoever is authorized is so by a single row of one of their roles. |
| `Rbac.PolicyTable.Grant` | src/atlas/persistence/policy_store.py:66-68 | After a grant everybody can do exactly what they could before, plus, with that role, what the new permission authorizes. |
| `Rbac.PolicyTable.Revoke` | src/atlas/persistence/policy_store.py:70-72 | After a revoke a permission is held exactly by those who held it and have another row that authorizes it; nobody gains any. |
| `Rbac.PolicyTable.Effective` | src/atlas/persistence/policy_store.py:56-63 | The SELECT over the principal's roles gives what the in-memory expansion of the grouped rows gives. |
| `Rbac.SelectionIsGrouping` | src/atlas/persistence/policy_store.py:74-80 | Selecting by role and grouping by role agree. |
| `Rbac.AuthorityIsMonotone` | src/atlas/governance/policy.py:34-44 | More rows never take authority away, wildcard collapse included. |
| `LikePattern.EscapeIsCharacterwise` | src/atlas/persistence/knowledge_store.py:231-235 | The three replacement passes do not disturb each other: together they escape each metacharacter once. |
| `LikePattern.EscapedTermIsLiteral` | src/atlas/persistence/knowledge_store.py:231-235 | An escaped term followed by any pattern matches exactly the strings that start with the term and whose rest matches the pattern. |
| `LikePattern.EscapedPrefixMatch` | src/atlas/persistence/knowledge_store.py:402-443 | `LIKE escape(t)%` is exactly `startswith(t)`, for all strings. |
| `LikePattern.EscapedSubstringMatch` | src/atlas/persistence/knowledge_store.py:469-479 | `LIKE %escape(t)%` is exactly `t in s`, for all strings. |
| `LikePattern.PercentIsAnyRun` | src/atlas/persistence/knowledge_store.py:143-194 | `%` stands for any run of characters, as SQL has it. |
| `LikePattern.MetacharactersMean` | src/atlas/persistence/knowledge_store.py:143-194 | `_` stands for any one character; an escaped character and a plain one for themselves. |
| `ReadAccess.SqlNeverHidesReadable` | src/atlas/persistence/knowledge_store.py:143-162 | `can_read` implies the SQL predicate, for every principal, ACL and set of grants. |
| `ReadAccess.SqlExactWithoutForeignIdentity` | src/atlas/persistence/knowledge_store.py:143-162 | Conversely, if no grant is somebody else's identity entry. |
| `ReadAccess.SqlEqualsCanReadIff` | src/atlas/persistence/knowledge_store.py:456-468 | The predicate equals `can_read` on all ACLs exactly if no grant is somebody else's identity entry. |
| `ReadAccess.IdentityAclIsPrivate` | src/atlas/knowledge/interfaces.py:54-91 | An identity entry answers to its user and to nobody else, wildcard holders included. |
| `ReadAccess.NoTermStraddlesNewline` | src/atlas/knowledge/memory_store.py:79-89 | A whitespace-free term occurs in `name\ncontent` exactly if it occurs in one of the two. |
| `ReadAccess.TermMatchParity` | src/atlas/persistence/knowledge_store.py:189-194 | For every text and every character-wise case folding that keeps white space and LIKE metacharacters apart, the ILIKE half of the query matches exactly what the in-memory store matches. |
| `RankFusion.RrfFuse` | src/atlas/persistence/knowledge_store.py:260-269 | The loops and the sort compute the fusion of the rankings. |
| `RankFusion.FusionMeansIt` | src/atlas/persistence/knowledge_store.py:260-269 | The fusion lists each id of the union once, by summed score with first-seen tie-breaking. |
| `RankFusion.FusionIsUnique` | src/atlas/persistence/knowledge_store.py:260-269 | At most one sequence keeps that promise. |
| `RankFusion.SortIsFusion` | src/atlas/persistence/knowledge_store.py:269-269 | A stable descending sort of the insertion order keeps it. |
| `RankFusion.DominanceIsRespected` | src/atlas/persistence/knowledge_store.py:260-269 | An id ahead of another wherever the other appears is ahead in the fusion. |
| `RankFusion.AgreementBeatsSingleList` | src/atlas/persistence/knowledge_store.py:260-269 | An id no deeper than rank k in both lists comes before every id that is in one list only. |
| `RankFusion.AgreementBoundIsTight` | src/atlas/persistence/knowledge_store.py:260-269 | One rank deeper in both lists, an id comes after the top of the first list even if that is in the first list only. |
| `RankFusion.TightBoundIsReached` | src/atlas/persistence/knowledge_store.py:260-269 | For every k there are two rankings in which that happens. |
| `RankFusion.SingleRankingUnchanged` | src/atlas/persistence/knowledge_store.py:260-269 | Fusing one ranking gives it back. |
| `Retrieval.ScanPage` | src/atlas/persistence/knowledge_store.py:500-506 | Re-filtering one page extends the readable rows so far, or stops with exactly the first `limit` of them all. |
| `Retrieval.FtsQuery` | src/atlas/persistence/knowledge_store.py:487-510 | Paging with early return computes "filter all rows, then take `limit`", for every table and limit, and terminates. |
| `Retrieval.CollectFused` | src/atlas/persistence/knowledge_store.py:566-576 | One pass over the fused order adds the readable rows not considered before, in that order and up to the limit; no lookup misses. |
| `Retrieval.HybridQuery` | src/atlas/persistence/knowledge_store.py:512-579 | Duplicate-free, readable, at most `limit`, at least as many as full text alone; if short, exactly the readable full-text rows plus, provided any full-text row exists, all readable vector candidates; in the order in which the pages, each fused with everything before it, bring ids up; the loop terminates. |
| `Retrieval.OnePageIsFusion` | src/atlas/persistence/knowledge_store.py:564-576 | If the full-text rows fit on one page, the answer is the readable part of the fusion, cut at the limit. |
| `Retrieval.AheadInFusionIsAheadInAnswer` | src/atlas/persistence/knowledge_store.py:547-576 | Over any number of pages, a readable row that is ahead of another in the fusion of every page prefix in which the other appears is ahead of it in the answer, so dominance and agreement carry over. |
| `Retrieval.PushdownIsExact` | src/atlas/persistence/knowledge_store.py:456-510 | Filtering in SQL and then in Python equals filtering in Python alone. |
| `Retrieval.SqlRowsAreRanked` | src/atlas/persistence/knowledge_store.py:164-195 | SQL returns as many rows as match and pass the predicate, each at the place that those before it leave to it. |
| `Retrieval.SoughtAreRanked` | src/atlas/persistence/knowledge_store.py:456-510 | So do the two filters together, for the rows that match and that `can_read` admits. |
| `Retrieval.CandidateIff` | src/atlas/persistence/knowledge_store.py:533-544 | A row is a vector candidate exactly if it passes the SQL predicate and fewer than max(4 * limit, limit) rows that do are nearer; candidates keep their order. |
| `Retrieval.SharedRowsLead` | src/atlas/persistence/knowledge_store.py:564-576 | On a page, a row no deeper than rank 60 in both lists is fused before every row of one list only. |
| `Retrieval.TextLeadsOnTie` | src/atlas/persistence/knowledge_store.py:564-576 | One at rank 61 in both is not: it ties with the first text row, and text comes first. |
| `Retrieval.QueryFullText` | src/atlas/persistence/knowledge_store.py:456-510 | The query returns the first `limit` matching rows that `can_read` admits: each of them at the place that those before it in the table leave to it, as many as there are or the limit allows. |
| `Retrieval.QueryHybrid` | src/atlas/persistence/knowledge_store.py:456-579 | Over the whole table, with the vector side as `CandidateIff` says, the query keeps the hybrid promise, order included. In terms of table and nearest rows: every result is stored, readable, and matches or is among the nearest; if fewer than `limit` come back, they are exactly the readable rows that match or, provided some matching row passes the SQL predicate, have fewer than 4 * limit rows that pass it nearer than themselves. |
| `Chunking.ChunkText` | src/atlas/knowledge/ingestion.py:107-136 | Bad sizes are refused; otherwise the chunks read in sequence, overlaps dropped, are the stripped text, each is at most one window long, and each later one is longer than the overlap. |
| `Text.StripOnlyTrims` | src/atlas/knowledge/ingestion.py:107-136 | Stripping removes white space at the two ends and nothing else. |
| `Chunking.NoChunksIff` | src/atlas/knowledge/ingestion.py:188-191 | Exactly blank text has no chunks. |
| `Chunking.ChunksLoseNothing` | src/atlas/knowledge/ingestion.py:107-136 | The same for the sliding windows of every text longer than one window. |
| `Chunking.ChunkCount` | src/atlas/knowledge/ingestion.py:107-136 | The number of chunks is ceil((length - overlap) / (size - overlap)). |
| `KnowledgeStore.PersistContents` | src/atlas/knowledge/memory_store.py:42-71 | A replacement leaves exactly the new entities under the prefix, everything else untouched, and exactly the old edges off the prefix plus the new ones. |
| `KnowledgeStore.InMemoryKnowledgeGraph.UpsertEntity` | src/atlas/knowledge/memory_store.py:30-31 | An upsert sets the entity under its id and keeps the place of an id already listed. |
| `KnowledgeStore.InMemoryKnowledgeGraph.AddRelation` | src/atlas/knowledge/memory_store.py:33-40 | An edge is added once. |
| `KnowledgeStore.InMemoryKnowledgeGraph.PersistExtraction` | src/atlas/knowledge/memory_store.py:42-71 | Wherever in the batch the store raises, the graph is either fully replaced or exactly as before. |
| `KnowledgeStore.InMemoryKnowledgeGraph.Query` | src/atlas/knowledge/memory_store.py:79-89 | The loop returns the readable, matching entities in insertion order, cut as a Python slice. |
| `KnowledgeStore.WantedIff` | src/atlas/knowledge/memory_store.py:79-89 | An entity is wanted exactly if the caller may read it and the question is blank or some word of it occurs, but for case, in the name or in the content. |
| `KnowledgeStore.WantedInOrder` | src/atlas/knowledge/memory_store.py:82-89 | The query lists every wanted entity, at the place that the wanted ones inserted before it leave to it, and nothing else. |
| `Text.TokenIsWord` | src/atlas/knowledge/memory_store.py:80-80 | Every token of a split text is a maximal stretch of it without white space. |
| `Text.WordIsToken` | src/atlas/knowledge/memory_store.py:80-80 | And every such stretch is a token. |
| `KnowledgeStore.WantedAreReadable` | src/atlas/knowledge/memory_store.py:79-89 | Everything a query may return is stored and readable by the caller. |
| `KnowledgeStore.BackendsAgree` | src/atlas/persistence/knowledge_store.py:402-443 | The SQL replacement, by escaped LIKE, and the in-memory one reach the same entities and edges, for every prefix. |
| `Ingestion.IngestionService.CollectConcepts` | src/atlas/knowledge/ingestion.py:331-352 | The loop deduplicates by kind and normalized name and stops at the cap. |
| `Ingestion.IngestionService.CollectRelations` | src/atlas/knowledge/ingestion.py:384-398 | The loop keeps new edges between extracted concepts, up to the cap. |
| `Ingestion.IngestionService.AnchorConcepts` | src/atlas/knowledge/ingestion.py:400-409 | Mentions from the first chunk fill what room is left. |
| `Ingestion.IngestionService.WriteChunks` | src/atlas/knowledge/ingestion.py:193-204 | The chunks before the failing one, or all of them, are upserted. |
| `Ingestion.IngestionService.Enrich` | src/atlas/knowledge/ingestion.py:274-313 | A raising extractor, or a store that raises at any write of the batch or at its end, leaves the graph as it was and reports zero; otherwise the extraction replaces the earlier one. |
| `Ingestion.IngestionService.IngestDocument` | src/atlas/knowledge/ingestion.py:178-248 | The method does to the store what the specification `Ingest` does to the graph, refuses exactly what `IngestionAuthority.RefusedIff` says, says when the store failed, reports the ids, scope, source and counts of what it wrote, and adds exactly one audit entry, by the writer and under the source id, when it completes. |
| `IngestionAuthority.RefusedIff` | src/atlas/knowledge/ingestion.py:178-272 | A request is refused exactly if nobody identified asks, the text is blank, a personal document names an organization ACL, or an organization document comes from somebody without a grant that authorizes `kg:write:org`. |
| `IngestionAuthority.LastWriter` | src/atlas/knowledge/ingestion.py:193-204 | After any sequence of ingests, what is stored under an id is what the last request that wrote the id put there. |
| `IngestionAuthority.OrgKnowledgeIsEntitled` | src/atlas/knowledge/ingestion.py:266-270 | That request, for an organization entity, came from a principal who held, under its policy, a grant that authorizes `kg:write:org`, and the ACL is the one its document asked for, or `kg:read:org` if it asked for none. |
| `IngestionAuthority.CanReadIff` | src/atlas/knowledge/interfaces.py:64-91 | `can_read` holds exactly if the ACL is empty, or an entry names the reader or, naming nobody, is authorized by a single grant of the reader. |
| `IngestionAuthority.OrgReadersIff` | src/atlas/knowledge/interfaces.py:64-91 | Hence, for every reader and policy, an organization entity is readable by exactly those whom the ACL that its last writer asked for admits. |
| `IngestionAuthority.WrittenUnderOwnName` | src/atlas/knowledge/ingestion.py:250-272 | Every id written starts with `org` or the writer, and then the source id given, or the hash of the title without one. |
| `IngestionFrames.IngestEventTells` | src/atlas/governance/audit.py:274-304 | Two ingests with the same audit entry agree on actor, source, scope and all the counts. |
| `ExtractionShape.ConceptsComeFromProposals` | src/atlas/knowledge/ingestion.py:331-352 | The concepts persisted are the first proposals of each kind and normalized name, in the order proposed, up to the cap, with the kind and name proposed, no content and the id of document, kind and digest. |
| `ExtractionShape.EdgesAreCollected` | src/atlas/knowledge/ingestion.py:384-398 | Edges are the first offers of each, in order, up to the cap: an offer runs from source to destination with the kind proposed, if both ends were extracted. |
| `ExtractionShape.EdgesComeFromProposals` | src/atlas/knowledge/ingestion.py:369-409 | Every edge persisted is one that a proposed relation draws between concepts, in its direction and of its kind, or a mention of a concept by the first chunk. |
| `ExtractionShape.RelationBecomesEdge` | src/atlas/knowledge/ingestion.py:384-398 | Below the cap every edge that a proposed relation draws is persisted. |
| `ExtractionShape.ConceptIsMentioned` | src/atlas/knowledge/ingestion.py:400-409 | Below the cap every concept is mentioned by the first chunk. |
| `IngestionSafety.ConceptsAreCapped` | src/atlas/knowledge/ingestion.py:331-352 | Concepts are within the cap, carry the server's scope and ACL, and lie under the document's extraction prefix. |
| `IngestionSafety.EdgesAreGood` | src/atlas/knowledge/ingestion.py:369-409 | Collected edges are within the cap, distinct, and join the anchor or extracted concepts to extracted concepts. |
| `IngestionSafety.ExtractorNeverDecidesAccess` | src/atlas/knowledge/ingestion.py:335-351 | Whatever the extractor returns, everything written carries the server-resolved scope and ACL. |
| `IngestionSafety.GraphStaysHealthy` | src/atlas/knowledge/ingestion.py:178-313 | After any sequence of ingests, failing extractors and store faults included, every edge has both endpoints stored and edges are unique. |
| `IngestionSafety.GraphStaysPrivate` | src/atlas/knowledge/ingestion.py:250-272 | After any sequence of ingests no entity is world-readable, and a personal one carries exactly the identity entry of its last writer; organization entities are `IngestionAuthority.OrgKnowledgeIsEntitled`. |
| `IngestionSafety.PersonalKnowledgeStaysPersonal` | src/atlas/knowledge/interfaces.py:64-91 | Under any policy a personal entity is readable by exactly the user whose ingest wrote it. |
| `IngestionSafety.QueryNeverLeaksPersonal` | src/atlas/knowledge/memory_store.py:79-89 | Hence no query returns it to anybody else. |
| `IngestionFrames.ChunkIdIsInjective` | src/atlas/knowledge/ingestion.py:195-203 | Zero-padded indices give distinct chunk ids, beyond four digits too. |
| `IngestionFrames.PaddedReads` | src/atlas/knowledge/ingestion.py:195-203 | A padded index has at least four digits, reads as the index, and has zeros in front only to make four. |
| `IngestionFrames.PersistTwice` | src/atlas/knowledge/memory_store.py:42-71 | Replacing an extraction by itself changes nothing, order included. |
| `IngestionFrames.ReingestIsIdempotent` | src/atlas/knowledge/ingestion.py:178-248 | Re-ingesting the same document with the same extraction leaves the graph exactly as it was. |
| `IngestionFrames.StoredChunksReadBack` | src/atlas/knowledge/ingestion.py:193-204 | After an undisturbed ingest the stored chunks read back to the document's text. |
| `IngestionFrames.IngestTouchesOnlyItsDocument` | src/atlas/knowledge/ingestion.py:412-426 | An ingest changes only entities under its own document prefix. |
| `IngestionFrames.IngestTouchesOnlyItsEdges` | src/atlas/knowledge/ingestion.py:369-409 | It removes only edges that touch its extraction and adds only edges inside its document. |
| `IngestionIsolation.IngestLookup` | src/atlas/knowledge/ingestion.py:178-248 | Under every id, an accepted ingest leaves what it wrote there last, nothing if it erased it, and otherwise what was there. |
| `IngestionIsolation.AffectedIff` | src/atlas/knowledge/memory_store.py:42-71 | A stored entity is removed or changed exactly if it is erased or something else is written under its id. |
| `IngestionIsolation.ErasedIff` | src/atlas/knowledge/memory_store.py:53-63 | It disappears exactly if the ingest replaces its extraction, the id lies under its extraction prefix and is not written again. |
| `IngestionIsolation.SurplusChunksStay` | src/atlas/knowledge/ingestion.py:193-204 | Under each chunk id of its document an ingest leaves the chunk it wrote, or, beyond those, exactly what was there. |
| `IngestionIsolation.ChunkIsStoredWhole` | src/atlas/knowledge/ingestion.py:193-204 | After an ingest without a store fault each chunk of the text is stored with the document's kind, the title and its number, the chunk itself, and the access the server resolved. |
| `IngestionIsolation.StoredChunksAreTextIff` | src/atlas/knowledge/ingestion.py:193-204 | The stored chunks of the document are then exactly those of its text if and only if no chunk beyond their number was stored before. |
| `IngestionIsolation.ReadsBackIff` | src/atlas/knowledge/ingestion.py:107-136 | And reading all stored chunks back gives the new text in exactly that case. |
| `IngestionIsolation.DocumentsShareIff` | src/atlas/knowledge/ingestion.py:193-203 | Two documents own an id in common, as a chunk or under their extraction prefix, exactly if they have one document prefix or one lies within the other's extraction. |
| `IngestionIsolation.ChunksCollideIff` | src/atlas/knowledge/ingestion.py:193-203 | Two chunks have one id exactly if their documents have one prefix and their indices are equal. |
| `IngestionIsolation.OtherDocumentsAreUntouched` | src/atlas/knowledge/ingestion.py:193-214 | Ingesting a document leaves everything that a document it does not clash with owns as it was. |
| `IngestionIsolation.IsolatedIff` | src/atlas/knowledge/ingestion.py:178-248 | An accepted request leaves alone, in every graph, everything another document owns exactly if it writes no chunk, or the documents have different prefixes, its own is not within the other's extraction, and the other's is not within an extraction it replaces. |
| `IngestionIsolation.DocumentIsIsolatedIff` | src/atlas/knowledge/ingestion.py:178-248 | All requests for a document do so exactly if the two documents do not clash. |
| `IngestionIsolation.UsersCollide` | src/atlas/knowledge/ingestion.py:257-264 | User `a` with source `b:c` and user `a:b` with source `c` have every chunk id in common. |
| `IngestionIsolation.ChunkIsTakenOver` | src/atlas/knowledge/ingestion.py:193-204 | Then the second user's ingest takes over the first user's personal chunk: under any policy the second can read it and the first no longer can. |
| `IngestionIsolation.ChunkWithinExtractionIsLost` | src/atlas/knowledge/interfaces.py:59-61 | A document within another one's extraction loses every chunk when the other is ingested with an extraction: under its id is a concept of that extraction or nothing. |
| `IngestionIsolation.ColonSourceIsErased` | src/atlas/knowledge/interfaces.py:59-61 | If its source id is the other one's plus `:entity`, nothing is left. |
| `IngestionIsolation.DocumentsAreSeparate` | src/atlas/knowledge/interfaces.py:59-61 | With colon-free user and source ids, documents that clash are the same document. |
| `IngestionCaps.EnrichedIngestIsCapped` | src/atlas/knowledge/ingestion.py:315-367 | After an enriched ingest the document's extracted entities and the edges that touch them are within the caps, whatever else the graph holds. |
| `IngestionCaps.ClearIngestKeepsCaps` | src/atlas/knowledge/ingestion.py:292-409 | An ingest keeps another document's caps whenever its own document is not within that document's extraction. |
| `IngestionCaps.LongDocumentBreaksCaps` | src/atlas/knowledge/interfaces.py:59-61 | If it is, any text of more chunks than the cap breaks them. |
| `IngestionCaps.CapsKeptIff` | src/atlas/knowledge/ingestion.py:292-409 | So a request with such a text keeps the caps exactly if its document is not within the other's extraction. |
| `IngestionCaps.DocumentKeepsCapsIff` | src/atlas/knowledge/ingestion.py:292-409 | All requests for a document keep another document's caps, on every graph, exactly if it is not within the other's extraction. |
| `IngestionCaps.EveryDocumentIsCapped` | src/atlas/knowledge/ingestion.py:292-409 | After any sequence of ingests, failing extractors and store faults included, a document's extraction is within the caps, provided no ingested document is within it. |
| `IngestionCaps.PlainRequestsAreClear` | src/atlas/knowledge/ingestion.py:412-426 | Colon-free user and source ids are enough for that. |

## Left out

- Provider clients, OAuth, the vault, language-model planning, extraction and narration: plans, extractions
  and the success of a tool run are arbitrary inputs of the model.
- FastAPI wiring, authentication of requests, rate limiting, configuration validators, egress checks,
  confidence scoring, demos and command-line scripts: they would only add easy members.
- SHA-256 and JSON canonicalisation: digests are symbolic and injective in the audit chain; in entity ids the
  name digest, the title hash and the name normalisation are arbitrary functions.
- Postgres full-text stemming and vector distance: a full-text match is an arbitrary predicate and the vector
  order an arbitrary ranking. SQL NULL ACLs, null embeddings and their backfill are not modelled.
- LangGraph: only per-node checkpoint commits, the approval interrupt, resuming and re-running a node.
- RankFusion.RrfFuse: scores are real numbers; float rounding, which can turn a tiny difference into a tie,
  is not modelled.
- ReadAccess.TermMatchParity: case folding is character-wise and the same in Python and Postgres; characters
  that fold to several, and locales that fold differently, are not modelled. Elsewhere folding covers ASCII
  letters; white space is the set that `str.split` uses.
- ResumeLock.MutualExclusion: the lock table is a state machine over values rather than objects updated in
  place; an entry's identity is its index in the heap of all entries ever made. Liveness under unfair
  scheduling is not stated.
- ResumeProtocol.OneEffectPerAction: covers one process, gated actions and action ids that differ between
  threads; a cross-process double resume and the actions that need no approval are not part of it.
- Orchestration.EveryEffectIsAuthorized: an action is read from the checkpoint once, so its arguments change
  between actions and not between its check and its call.
- Orchestration.AtMostOnceUpToCrashes: executions of one thread are serial, and the ledger's answer and the
  call are one step; ids under which others write, a resume of the same thread elsewhere included, are
  outside the claim.
- Streaming.StreamLifecycle: a cancelled producer stops after a pull; the network and the buffer's size are
  not modelled.
- Retrieval.QueryHybrid: the fall-back to full text when the query cannot be embedded is
  `Retrieval.QueryFullText`; the failure itself is not modelled.
- Ingestion.IngestionService.IngestDocument: the audit entry's detail is one text rather than a JSON object,
  and log lines are not modelled.
