# Verification of hermes-hybrid-core

Dafny models of the stateful cores of hermes-hybrid-core and proofs of what they promise. Each component has a
specification (functions and lemmas) and, where the Python code updates state, classes and methods that are proved equal to
it. `dafny verify dfyconfig.toml` checks everything.

| files | component |
|---|---|
| `DependencyGraph`, `Plan`, `PlanReplacement`, `PlanDeadlock`, `TaskDeadlock`, `PlanIds`, `PlanRounds`, `PlanTermination`, `PlanEngine` | the plan state machine (CAP-002): dependency graph, statuses, partial replans, deadlocks, generated ids, rounds of failure and replan |
| `Sorting`, `CanonicalJson`, `JsonReading`, `AuthorityModels` | canonical JSON texts that are hashed and signed |
| `AuthorityBroker`, `BrokerRuns`, `ApprovalReplay` | approval service, authority broker, nonce ledger, process gate check; concurrent requests as interleaved steps; what one approval is worth |
| `Guardian`, `GuardianPass`, `GuardianReplay`, `GuardianDaemon` | the core-file guardian v2.4: passes and what they return, tokens, snapshots, runs, replayed tokens |
| `OutputBudget` | UTF-8 truncation in the process gate |
| `CircuitBreakers`, `BreakerEngines` | the task breaker and the cron breaker |
| `CallDetectors`, `DetectorTrace`, `DetectorWindow` | loop detector, its answer at every place of a run, and duplicate-call detector |
| `OutputCompactor`, `SpoolQuota` | head and tail compaction, spool directory quota |
| `InlinePatch`, `PatchOutcome` | block search and rebuild of the inline patch engine, and when it succeeds |
| `QueryNormaliser`, `QueryWords`, `SemanticCache`, `RowLife`, `CacheRuns` | query normalisation, the cache, and its runs as a timed map |
| `Text`, `Wrappers` | numerals, white space, lines, slices; Option and Result |

## Conventions

- SHA-256, HMAC and Ed25519 are ideal: injective constructors or injective function parameters. A signature is accepted
  exactly when it is the value of the signing function.
- Clock readings, random identifiers, redaction, lower-casing, regular-expression verdicts and what the file system
  shows are parameters. Times are real numbers of seconds.
- Loops over a Python `dict` or `set` whose result does not depend on the order visit the elements in an arbitrary one.
- A Python exception is an `Err` result or an error value; the state it leaves behind is part of the contract.

## Where the code differs from its documentation

- `PlanStateMachine` promises to preserve COMPLETED work. `mark_failed` does not check that the task is RUNNING, and
  `partial_replan` overwrites tasks of the same id; `Plan.StepKeepsCompletedIff` says exactly when the promise fails, and
  `Plan.FailKeepsSoundIff` and `Plan.ReplanKeepsSoundIff` when the statuses stay consistent.
- `is_blocked` is documented to detect a deadlock but looks only for ESCALATED tasks. `TaskDeadlock.UnreportedDeadlockIff`
  says exactly which tasks of a plan that it does not report cannot be completed by starting and completing tasks: those
  that wait for a replan and those that are deadlocked. `PlanDeadlock.MissedDeadlockIff` says which plans without failed
  tasks cannot be finished in this way.
- Cache entries are said to be isolated by scope and caller (SECURITY.md:30). A read can return another owner's entry
  exactly if its query does not bypass the cache and can be stored, and its caller name ends with a colon, without white
  space before it, and the name of a trusted caller (`SemanticCache.ReaderIsIsolatedIff`, `SemanticCache.LeakIsRead`).
- A second store keeps the category and the hit count of the row it updates, so pruning in between shows in the next hit
  (`CacheRuns.PruningIsObservedIff`, `CacheRuns.PruningChangesCategory`).
- An approval token is meant to be used once. The digest ignores blanks around the nonce while the ledger does not, so one
  signature can yield two grants in time, exactly if the presented nonces differ (`ApprovalReplay.TwoGrantsIff`). And a
  request that is checked in time but reaches its critical section when the token has ended can consume it again
  (`ApprovalReplay.LateConsumptionGrantsTwice`, `ApprovalReplay.AcceptedAgainIff`).
- Consumed guardian tokens are meant to be refused. Unlock tokens are refused only while the persistent list holds them,
  and approvals also while the memory does, which forgets them (`GuardianReplay.ReplayedUnlockIff`,
  `GuardianReplay.ReplayedApprovalIff`, `GuardianReplay.LostListAllowsReplay`).
- A guardian that once found no manifest stays UNINITIALIZED although its passes succeed
  (`Guardian.CleanPassTrustsIff`, `Guardian.HealthyPass`).
- The patch engine is said to preserve exact characters (inline_patch_engine.py:178), but reads with newline translation
  and writes without it, so a carriage return in a replacement is gone at the next read (`Text.ReadBackIff`,
  `InlinePatch.CarriageReturnIsNotRestored`).
- The patch engine replaces overlapping matches twice (`InlinePatch.RebuildLengthIff`), and an empty target matches
  everywhere (`InlinePatch.EmptyTargetMatchesEverywhere`).

## Model

| member | source | states |
|---|---|---|
| Plan.ReplanKeepsDag | capabilities/planner_recovery/planner_recovery_engine.py:171-224 | replacing a failed task by a chain keeps a closed acyclic dependency graph closed and acyclic, and two surviving tasks depend on each other transitively after exactly when they did before |
| DependencyGraph.ChainReplacement | capabilities/planner_recovery/planner_recovery_engine.py:186-222 | the same for graphs: a node replaced by a chain of fresh nodes that inherits its dependencies and its dependents |
| DependencyGraph.AddNode | capabilities/planner_recovery/planner_recovery_engine.py:79-95 | a node added after its dependencies keeps the graph closed and acyclic |
| Plan.ReplanClosedIff | capabilities/planner_recovery/planner_recovery_engine.py:195-222 | a chain replan keeps the graph closed if and only if it rewires the dependents, or there are none, or the failed id is reused; an empty list or a last id that is the empty string skips the rewiring |
| PlanReplacement.ReplanKeepsDagIff | capabilities/planner_recovery/planner_recovery_engine.py:195-224 | a replan whose replacements name any dependencies, under fresh distinct ids of which the last is not empty, keeps the graph closed if and only if each of them exists afterwards, and acyclic if and only if the replacements do not ask for each other in a circle, directly or through a task that depended on the failed one |
| PlanReplacement.ReplacementIff | capabilities/planner_recovery/planner_recovery_engine.py:198-222 | the same for graphs: a node replaced by nodes with any dependencies |
| PlanReplacement.NamingEarlierIsEnough | capabilities/planner_recovery/planner_recovery_engine.py:200-203 | naming only earlier replacements and tasks that did not depend on the failed one keeps the graph acyclic |
| PlanReplacement.NamingDependentClosesCycle | capabilities/planner_recovery/planner_recovery_engine.py:200-203 | a last replacement that names a task which depended on the failed one closes a cycle |
| Plan.ReplanIsStartable | capabilities/planner_recovery/planner_recovery_engine.py:195-224 | right after a replan the first replacement is READY and every later one waits for its predecessor |
| Plan.DefaultIdsDistinct | capabilities/planner_recovery/planner_recovery_engine.py:195-196 | generated replacement ids are pairwise distinct, non-empty and never the failed id |
| Plan.RunKeepsSound | capabilities/planner_recovery/planner_recovery_engine.py:70-234 | over every run of a disciplined caller a task is PENDING exactly while a dependency is not COMPLETED, so every READY, RUNNING, COMPLETED, NEEDS_REPLAN or ESCALATED task has all its dependencies COMPLETED |
| Plan.RunKeepsCompleted | capabilities/planner_recovery/planner_recovery_engine.py:128-234 | a COMPLETED task is never lost or changed by any later call of a disciplined caller, replans included |
| Plan.StepKeepsSound | capabilities/planner_recovery/planner_recovery_engine.py:70-234 | each single operation keeps both properties |
| Plan.FailKeepsSoundIff | capabilities/planner_recovery/planner_recovery_engine.py:140-169 | mark_failed keeps the plan sound if and only if the task is not PENDING and, if COMPLETED, all its dependents are PENDING; the code does not check the status |
| Plan.ReplanKeepsCompletedIff | capabilities/planner_recovery/planner_recovery_engine.py:171-214 | a replan keeps all COMPLETED tasks if and only if no replacement takes the id of one |
| Plan.StepKeepsCompletedIff | capabilities/planner_recovery/planner_recovery_engine.py:70-234 | for every call on a sound plan: all COMPLETED tasks stay as they are if and only if the call is neither a failure reported for a COMPLETED task nor a replan that takes the id of one |
| Plan.ReplanKeepsSoundIff | capabilities/planner_recovery/planner_recovery_engine.py:171-234 | a replan keeps the plan sound if and only if every task that depends on an id it takes is PENDING or replaced itself |
| Plan.CompletedWorkCanBeLost | capabilities/planner_recovery/planner_recovery_engine.py:140-214 | concrete plan on which both unguarded calls lose completed work |
| Plan.RunKeepsCounts | capabilities/planner_recovery/planner_recovery_engine.py:154-212 | in every run of any calls replan_count never exceeds max_replans, and only a task with a replan left waits for one |
| Plan.RefreshIdempotent | capabilities/planner_recovery/planner_recovery_engine.py:99-111 | one refresh pass already reaches the fixpoint |
| Plan.SoundIsRefreshed | capabilities/planner_recovery/planner_recovery_engine.py:99-116 | between calls there is nothing left to refresh |
| Plan.NoDeadlock | capabilities/planner_recovery/planner_recovery_engine.py:113-116 | a closed acyclic non-empty plan without RUNNING, NEEDS_REPLAN or ESCALATED tasks is finished or has a READY task after a refresh |
| Plan.RunNeverDeadlocks | capabilities/planner_recovery/planner_recovery_engine.py:236-244 | every plan a disciplined and planned run reaches is empty, finished, or has a task that is READY, RUNNING, waiting for a replan or escalated |
| Plan.RunKeepsDag | capabilities/planner_recovery/planner_recovery_engine.py:70-234 | every such run keeps the dependency graph closed and acyclic |
| Plan.AddClosedIff | capabilities/planner_recovery/planner_recovery_engine.py:79-95 | add_task keeps a closed graph closed if and only if all dependencies already exist |
| PlanRounds.AddOutcome | capabilities/planner_recovery/planner_recovery_engine.py:79-97 | adding a new id gives a PENDING or READY task with the given dependencies and limit that has not been replanned, READY exactly if every dependency is COMPLETED, and only refreshes the others |
| PlanRounds.FailureOutcome | capabilities/planner_recovery/planner_recovery_engine.py:140-169 | for every plan and every task, whatever its status, a reported failure makes it wait for a replan if and only if it was replanned less often than its limit, escalates it otherwise, and changes nothing else but what a refresh does |
| PlanRounds.SurvivesExactly | capabilities/planner_recovery/planner_recovery_engine.py:118-224 | in every plan of a plain run a READY task survives exactly as many rounds of start, failure and replan along its replacements as it has replans left, and the next failure escalates the last replacement |
| PlanRounds.AddedTaskSurvivesExactly | capabilities/planner_recovery/planner_recovery_engine.py:70-224 | a task added with limit m survives exactly m such rounds |
| PlanDeadlock.FinishableIff | capabilities/planner_recovery/planner_recovery_engine.py:99-138 | for a sound plan of PENDING, READY, RUNNING and COMPLETED tasks, some sequence of start and complete calls finishes it if and only if it is not empty, every dependency of a task that is not COMPLETED exists, and the graph of these tasks is acyclic |
| PlanDeadlock.MissedDeadlockIff | capabilities/planner_recovery/planner_recovery_engine.py:236-244 | such a plan is never reported as blocked, although it cannot be finished exactly if an open task names a missing one or open tasks depend on each other in a circle; every plan in which nothing can be started or completed is of this kind |
| PlanDeadlock.UnfinishableGetsStuck | capabilities/planner_recovery/planner_recovery_engine.py:118-138 | a plan that cannot be finished is stuck, and not reported, after some sequence of complete calls |
| TaskDeadlock.CompletableIff | capabilities/planner_recovery/planner_recovery_engine.py:99-138 | some sequence of start and complete calls completes a task of a sound plan if and only if it and every task it needs exists and is COMPLETED, or is PENDING, READY or RUNNING and does not depend on itself |
| TaskDeadlock.UnreportedDeadlockIff | capabilities/planner_recovery/planner_recovery_engine.py:236-244 | in any sound plan without ESCALATED tasks, which is never reported, a task cannot be completed by such calls if and only if it needs a missing task, or one that depends on itself, or one that waits for a replan |
| TaskDeadlock.DeadlockBesideReplan | capabilities/planner_recovery/planner_recovery_engine.py:242-244 | a plan with a task that waits for a replan and two others that wait for each other is not reported, and these two cannot be completed |
| PlanDeadlock.ForwardReferencesCanDeadlock | capabilities/planner_recovery/planner_recovery_engine.py:79-95 | two added tasks that name each other are stuck at once |
| PlanIds.DefaultsAreFresh | capabilities/planner_recovery/planner_recovery_engine.py:195-214 | generated ids are new in every plan whose ids come from added ids without the mark "_alt_" |
| PlanIds.GeneratedIdsAreFresh | capabilities/planner_recovery/planner_recovery_engine.py:186-224 | in runs that add each id once, none containing "_alt_", every replan that generates its ids is a chain replacement and overwrites nothing |
| PlanIds.CarefulRunsSucceed | capabilities/planner_recovery/planner_recovery_engine.py:70-244 | such a run that adds dependencies first and reports failures only for started tasks stays sound, closed, acyclic and is never stuck |
| PlanTermination.ProgressDecreasesWeight | capabilities/planner_recovery/planner_recovery_engine.py:118-224 | a weight that is exponential in the replans left strictly decreases with every start, completion, replan, and failure of a PENDING, READY or RUNNING task |
| PlanTermination.FailureDecreasesIff | capabilities/planner_recovery/planner_recovery_engine.py:140-169 | a reported failure decreases the weight if and only if the task was PENDING, READY or RUNNING; for a task that waits for a replan the call succeeds and changes nothing |
| PlanTermination.RunsAreFinite | capabilities/planner_recovery/planner_recovery_engine.py:118-224 | no run of such steps is longer than the weight of its first plan |
| PlanEngine.PlanStateMachine.RefreshTaskStates | capabilities/planner_recovery/planner_recovery_engine.py:99-111 | the loop over the task objects, in any order, refreshes all tasks at once |
| PlanEngine.PlanStateMachine.AddTask | capabilities/planner_recovery/planner_recovery_engine.py:70-97 | the object update equals the plan operation, errors included |
| PlanEngine.PlanStateMachine.GetReadyTasks | capabilities/planner_recovery/planner_recovery_engine.py:113-116 | refreshes and returns the READY tasks in the order of the dictionary |
| PlanEngine.PickedParts | capabilities/planner_recovery/planner_recovery_engine.py:113-116 | that list has each READY task exactly once, in the order of the dictionary |
| PlanEngine.PlanStateMachine.StartTask | capabilities/planner_recovery/planner_recovery_engine.py:118-126 | the object update equals the plan operation, errors included |
| PlanEngine.PlanStateMachine.MarkCompleted | capabilities/planner_recovery/planner_recovery_engine.py:128-138 | the object update equals the plan operation, errors included |
| PlanEngine.PlanStateMachine.MarkFailed | capabilities/planner_recovery/planner_recovery_engine.py:140-169 | the object update equals the plan operation, without a status check |
| PlanEngine.PlanStateMachine.PartialReplan | capabilities/planner_recovery/planner_recovery_engine.py:171-234 | insertion loop, rewiring loop and refresh together equal the plan operation and return the injected ids; the failed task leaves the dictionary, and each new id goes to its end |
| PlanEngine.PlanStateMachine.IsAllCompleted | capabilities/planner_recovery/planner_recovery_engine.py:236-240 | true exactly for a non-empty plan of COMPLETED tasks |
| PlanEngine.PlanStateMachine.IsBlocked | capabilities/planner_recovery/planner_recovery_engine.py:242-244 | true exactly if some task is ESCALATED |
| CanonicalJson.SerialiseInjective | hermes_core/authority/models.py:124 | compact escaped JSON text determines the value (section 7 of RFC 8259) |
| CanonicalJson.Unique | hermes_core/authority/models.py:124 | unique readability: the text of a value followed by anything that cannot continue a number determines the value and the rest |
| CanonicalJson.UnitsInjective | hermes_core/authority/models.py:124 | strings without an adjacent surrogate pair are determined by their UTF-16 code units |
| CanonicalJson.SurrogatePairCollides | hermes_core/authority/models.py:124 | without that condition two strings share their JSON text |
| JsonReading.StringReads | hermes_core/authority/models.py:124 | a reader of JSON escapes gets back the code units of every string (section 7 of RFC 8259) |
| JsonReading.EscapeForm | hermes_core/authority/models.py:124 | which escape is used for each code unit |
| JsonReading.SecondsReads | hermes_core/authority/models.py:239-240 | a time is printed as sign, whole seconds, point and up to four places without superfluous zeros, and these stand for its ten-thousandths |
| JsonReading.ValueReads | hermes_core/authority/models.py:124 | lists and records are their parts with commas between them, in brackets and braces, each key in quotation marks with a colon |
| AuthorityModels.PreimageIff | hermes_core/authority/models.py:108-125 | two execution semantics have the same hash preimage if and only if eight fields agree and env_allowlist is the same multiset |
| AuthorityModels.GrantPayloadIff | hermes_core/authority/models.py:235-249 | two grants have the same signature payload if and only if all signed fields agree, lists as multisets and times to ten-thousandths of a second |
| AuthorityModels.ApprovalTextIff | hermes_core/approval/service.py:22-42 | two approvals share their digest text if and only if their fields agree after stripping and rounding |
| AuthorityModels.TicksAreNearest | hermes_core/authority/models.py:239-240 | signed times are rounded to a nearest ten-thousandth, and to the even one of two |
| Sorting.SortEqualIff | hermes_core/authority/models.py:120 | two lists sort to the same list exactly if they are the same multiset |
| AuthorityBroker.ApprovalWindow | hermes_core/approval/service.py:74-171 | an issued approval verifies for its own hash exactly from one second before issue to the end of its clamped time to live |
| AuthorityBroker.ApprovalTamperEvident | hermes_core/approval/service.py:128-171 | an approval carrying the signature of another is accepted only if all signed fields agree after stripping and rounding |
| AuthorityBroker.AdmitIff | hermes_core/authority/broker.py:298-377 | what the checks before the first nonce establish, and that nothing else is asked |
| AuthorityBroker.AdmittedIff | hermes_core/authority/broker.py:298-377 | in terms of the request itself: a permitted request is admitted without an approval if and only if no configured verifier rejects its ingress signature, its primitive is none of the four high-risk ones, and its tag is neither EXTERNAL_UNTRUSTED nor, unsigned, HUMAN_CONFIRMED or SYSTEM_INTERNAL; on its approval if and only if it is not forged, must be approved, and the approval is genuine, for this execution and in time |
| AuthorityBroker.RefusalReasons | hermes_core/authority/broker.py:298-377 | which error each other request gets |
| AuthorityBroker.ConsumeOutcome | hermes_core/authority/broker.py:472-511 | a nonce is a replay exactly if it is blank or stored; otherwise exactly the expired entries go, and it is stored with its expiry unless the cap is reached by the others |
| AuthorityBroker.IssuedGrantIsJustified | hermes_core/authority/broker.py:286-470 | every issued grant names a permitted primitive, carries the manifest's resources, rests on a consumed approval of the same hash where one is needed, and is accepted by the broker exactly on [issued, issued + 30) |
| AuthorityBroker.GateWindow | hermes_core/gates/process_gate.py:126-172 | the gate accepts an issued grant exactly for process primitives, on [issued - 1, issued + 30), for semantics with the same canonical text |
| AuthorityBroker.GateIsBrokerWithSkew | hermes_core/gates/process_gate.py:126-172 | for any grant for a process primitive broker acceptance implies gate acceptance; if it ends after its issue the gate adds only one second of skew, and otherwise the broker never accepts it |
| AuthorityBroker.GateAcceptsUnapprovedIff | hermes_core/gates/process_gate.py:126-172 | no process primitive is high-risk, so an issued grant that the gate accepts rests on a human approval exactly if its request was effectively untrusted |
| AuthorityBroker.GrantTamperEvident | hermes_core/authority/broker.py:443-470 | a grant carrying the signature of another is accepted by broker or gate only if all signed fields agree |
| AuthorityBroker.Broker.AtomicConsumeNonce | hermes_core/authority/broker.py:472-511 | the critical section with its collection loop equals the ledger operation, refusals included |
| AuthorityBroker.Broker.EvaluateRequest | hermes_core/authority/broker.py:286-441 | the request pipeline equals its specification, ledger and result |
| BrokerRuns.NonceReuseIsLate | hermes_core/authority/broker.py:472-511 | in every interleaving the ledger stays within its cap, and a nonce is consumed again only at a clock that has reached its earlier expiry |
| BrokerRuns.RunKeepsSound | hermes_core/authority/broker.py:379-511 | the invariant behind it, kept by every step of every thread |
| BrokerRuns.CriticalAnswers | hermes_core/authority/broker.py:379-441 | a critical section either moves its request from the approval to the grant, or answers it: with a grant, which is logged, or refused with nothing logged; no other request changes |
| BrokerRuns.SameNonceIsLate | hermes_core/authority/broker.py:379-402 | of two grants on approvals with the same nonce one consumed its approval at a clock that had reached the other's end |
| BrokerRuns.OneGrantPerNonce | hermes_core/authority/broker.py:379-402 | grants that consumed their approvals in time do not share a raw nonce and end of validity |
| BrokerRuns.EveryGrantIsJustified | hermes_core/authority/broker.py:286-470 | in every interleaving each issued grant was admitted at its time of issue, is signed, and is accepted by the broker exactly on [issued, issued + 30) |
| BrokerRuns.EveryGrantIsWarranted | hermes_core/authority/broker.py:298-470 | in every interleaving a grant was issued without an approval exactly if its request need not be approved in those terms, and otherwise on the request's own approval of exactly this execution, valid at the time of issue |
| ApprovalReplay.TwoGrantsIff | hermes_core/approval/service.py:22-42 | two requests admitted on approvals with one signature can both be granted before the signed end if and only if the presented nonces differ and are not blank (the ledger holding at least four entries) |
| ApprovalReplay.OneSignatureTwoGrants | hermes_core/approval/service.py:38-38 | a run in which one signature yields two grants in time: once as issued, once with a blank before the nonce |
| ApprovalReplay.OneGrantPerSignature | hermes_core/authority/broker.py:379-402 | if every arriving nonce equals its stripped form, one signature yields at most one grant in runs that consume before the signed end |
| ApprovalReplay.LateConsumptionGrantsTwice | hermes_core/authority/broker.py:487-511 | for every request admitted on an approval there is a run with two admissions in time that grants it twice, the second by consuming the approval when it ends |
| ApprovalReplay.AcceptedAgainIff | hermes_core/authority/broker.py:472-511 | a stored nonce is accepted again if and only if a call for an unstored, non-blank nonce with a reading at or past the stored expiry came in between, and the ledger has room |
| ApprovalReplay.RunIsCalls | hermes_core/authority/broker.py:472-511 | the ledger of every run is the result of the calls of its critical sections |
| Guardian.CleanPassEnforces | haos/haos_guardian_v2.4_p1_62.py:431-526 | after a pass that returns true without error or lock every core file with a regular snapshot equals it, none is missing or a link, and the stored manifest verifies again |
| Guardian.PassRespectsTokens | haos/haos_guardian_v2.4_p1_62.py:226-340 | in every pass a snapshot changes only by consuming an unexpired genuine token for that file and content, and the lock is left only by consuming an unlock token |
| Guardian.RunRespectsTokens | haos/haos_guardian_v2.4_p1_62.py:494-526 | the same for each turn of every run, with the environment replacing the current files before each pass |
| Guardian.RunConsumesOnce | haos/haos_guardian_v2.4_p1_62.py:83-106 | over every run no signature is consumed twice, and none that was stored before |
| GuardianReplay.ApprovalAcceptedIff | haos/haos_guardian_v2.4_p1_62.py:283-340 | an approval is found exactly if a genuine token is listed that neither the memory nor the persistent list holds |
| GuardianReplay.UnlockAcceptedIff | haos/haos_guardian_v2.4_p1_62.py:226-281 | the lock is opened exactly if a valid unlock token is listed that the persistent list does not hold |
| GuardianReplay.ReplayedApprovalIff | haos/haos_guardian_v2.4_p1_62.py:283-340 | if the list is complete whenever it can be read, a consumed approval is accepted again if and only if the list cannot be read and the approval has left the memory |
| GuardianReplay.ReplayedUnlockIff | haos/haos_guardian_v2.4_p1_62.py:226-281 | under the same condition a consumed unlock token is accepted again if and only if the list cannot be read |
| GuardianReplay.OtherTokenMakesForget | haos/haos_guardian_v2.4_p1_62.py:83-106 | while the list cannot be read, consuming another token makes a refused approval acceptable again |
| GuardianReplay.TwiceOnlyAfterLoss | haos/haos_guardian_v2.4_p1_62.py:71-106 | in every run, with restarts and replacements of the list, a token is consumed twice only if the list loses its signature in between |
| GuardianReplay.LostListAllowsReplay | haos/haos_guardian_v2.4_p1_62.py:71-93 | a run in which one unlock token is consumed twice around a loss of the list |
| Guardian.ChangeIsApprovedOrUndone | haos/haos_guardian_v2.4_p1_62.py:474-492 | a changed file becomes the snapshot exactly if an unused valid token is listed, and is rolled back otherwise |
| Guardian.DeniedFilesAreNotOverwritten | haos/haos_guardian_v2.4_p1_62.py:460-482 | a file to which access is denied is never overwritten, and the guardian locks |
| Guardian.CleanPassTrustsIff | haos/haos_guardian_v2.4_p1_62.py:494-526 | a pass that returns true without error or lock ends TRUSTED if and only if it did not start UNINITIALIZED |
| Guardian.HealthyPass | haos/haos_guardian_v2.4_p1_62.py:494-526 | worlds with a genuine manifest in which the pass succeeds, and an UNINITIALIZED guardian stays so |
| Guardian.UninitializedStays | haos/haos_guardian_v2.4_p1_62.py:524-526 | no pass whatsoever leads from UNINITIALIZED to TRUSTED |
| GuardianPass.PassReturnsIff | haos/haos_guardian_v2.4_p1_62.py:494-526 | a pass returns true if and only if the guardian is or gets unlocked, the manifest is genuine and names all snapshots, and the script found has exactly the hash that the manifest names |
| GuardianPass.TamperedScriptLocks | haos/haos_guardian_v2.4_p1_62.py:205-224 | if the script differs from the one the manifest names, the pass returns false, ends in EMERGENCY_LOCK and leaves current files, snapshots and manifest as they are |
| GuardianPass.GoneFile | haos/haos_guardian_v2.4_p1_62.py:448-474 | a missing or linked file is restored from a regular snapshot, and the guardian locks without one |
| GuardianPass.PresentFile | haos/haos_guardian_v2.4_p1_62.py:431-482 | a file that is there is left alone if it has no snapshot or equals it, and makes the guardian lock if it or its snapshot cannot be read |
| GuardianPass.IrregularFile | haos/haos_guardian_v2.4_p1_62.py:474-492 | without an approval: what happens to a file that is not regular, or whose snapshot is not or exceeds the copy limit |
| GuardianPass.ApprovedChangeIsSigned | haos/haos_guardian_v2.4_p1_62.py:399-429 | after an approved change the new manifest is signed, names the guardian's hash and each regular snapshot; an error is raised, and the old manifest stays, exactly if another core file's snapshot cannot be read |
| GuardianPass.AttackIsUndone | haos/haos_guardian_v2.4_p1_62.py:431-526 | without approval tokens one pass of an intact guardian restores every core file that was changed, deleted or replaced by a link |
| GuardianDaemon.GuardianV22.TryConsumeTokenAtomic | haos/haos_guardian_v2.4_p1_62.py:83-106 | the object update equals the specification |
| GuardianDaemon.GuardianV22.CheckUnlockToken | haos/haos_guardian_v2.4_p1_62.py:226-281 | the loop over unlock tokens equals the specification |
| GuardianDaemon.GuardianV22.GetValidApprovalToken | haos/haos_guardian_v2.4_p1_62.py:283-340 | the loop over approval tokens equals the specification |
| GuardianDaemon.GuardianV22.VerifyStoredManifest | haos/haos_guardian_v2.4_p1_62.py:158-203 | the checks and the loop over manifest entries, in any order, equal the specification |
| GuardianDaemon.GuardianV22.VerifyGuardianSelfIntegrity | haos/haos_guardian_v2.4_p1_62.py:205-224 | equals the specification |
| GuardianDaemon.GuardianV22.UpdateSnapshotAndManifest | haos/haos_guardian_v2.4_p1_62.py:399-429 | copy, rebuilt file map and new signature equal the specification, partial effects of an error included |
| GuardianDaemon.GuardianV22.CheckAndEnforceFile | haos/haos_guardian_v2.4_p1_62.py:431-492 | the per-file branches equal the specification |
| GuardianDaemon.GuardianV22.CheckAndEnforceAll | haos/haos_guardian_v2.4_p1_62.py:494-526 | the whole pass equals the specification |
| OutputBudget.CutIsLongestPrefix | hermes_core/gates/process_gate.py:324-330 | cutting the UTF-8 encoding at a budget and decoding with errors ignored gives exactly the longest whole-character prefix that fits (section 3 of RFC 3629) |
| OutputBudget.TruncateMeaning | hermes_core/gates/process_gate.py:319-331 | unchanged within the limit, otherwise the longest prefix that leaves room for the marker, and the marker |
| OutputBudget.OutputIsBounded | hermes_core/gates/process_gate.py:319-331 | at most MAX_OUTPUT_BYTES bytes are returned, and a fitting output is returned unchanged |
| OutputBudget.DecodeInvertsEncode | hermes_core/gates/process_gate.py:324-330 | decoding inverts encoding |
| OutputBudget.WellFormedIff | hermes_core/gates/process_gate.py:324-330 | the decoder finds a character exactly where the encoding of one starts, and finds that character (section 3 of RFC 3629) |
| CircuitBreakers.MachinesAgree | capabilities/operator_deadletter/cron_circuit_breaker_engine.py:67-145 | over every sequence of calls the task breaker and allow-run-record on the cron engine run the same calls and agree on state, failures, error, failure time and probe time |
| CircuitBreakers.OutageCost | hermes_core/circuit_breaker.py:57-104 | an outage met with k failures costs at most 3 - k executions plus one per full probe interval |
| CircuitBreakers.CronOutageCost | capabilities/operator_deadletter/cron_circuit_breaker_engine.py:67-145 | the same bound, 3 + floor(T / 300), for the cron engine |
| CircuitBreakers.AlertIffTrips | capabilities/operator_deadletter/cron_circuit_breaker_engine.py:104-145 | an alert is raised exactly when a job moves from healthy into quarantine; a reset arms the next one |
| CircuitBreakers.OneAlertPerOutage | capabilities/operator_deadletter/cron_circuit_breaker_engine.py:104-145 | one outage raises exactly one alert, and exactly if the job is quarantined, which takes three failures |
| CircuitBreakers.RunsStaySettled | hermes_core/circuit_breaker.py:57-104 | between calls a job is healthy with fewer than three failures or quarantined with at least three |
| CircuitBreakers.RunsIff | hermes_core/circuit_breaker.py:57-104 | over every sequence of calls to a new task or job a call runs if and only if fewer than three runs failed since the last success or the last run is at least 300 seconds ago |
| CircuitBreakers.ThirdFailureAlerts | capabilities/operator_deadletter/cron_circuit_breaker_engine.py:67-145 | in whatever order questions and results reach a new job, exactly the third failure in a row raises an alert, and the quarantine is dated by the latest result that found the job outside it |
| CircuitBreakers.ResetIsNew | capabilities/operator_deadletter/cron_circuit_breaker_engine.py:155-165 | after a reset every sequence of calls runs and alerts as for a new job |
| BreakerEngines.TaskBreakers.CheckAndExecuteTask | hermes_core/circuit_breaker.py:57-104 | the stored entry and the returned flags equal one protected call; other entries stay |
| BreakerEngines.CronCircuitBreakerEngine.ShouldAllowExecution | capabilities/operator_deadletter/cron_circuit_breaker_engine.py:67-90 | the entry update and answer equal the specification; unknown jobs are allowed |
| BreakerEngines.CronCircuitBreakerEngine.RecordResult | capabilities/operator_deadletter/cron_circuit_breaker_engine.py:92-145 | creates the entry if needed, updates it as specified, and reports the alert |
| BreakerEngines.CronCircuitBreakerEngine.ResetBreaker | capabilities/operator_deadletter/cron_circuit_breaker_engine.py:155-163 | resets a known job and reports whether it exists |
| DetectorWindow.WindowIff | agent/runtime_control.py:201-235 | the 50-entry history gives every call of every run of a new detector the verdict an unbounded log would if and only if the window is between 1 and 50 calls |
| CallDetectors.BoundIsUnobservable | agent/runtime_control.py:161-235 | for windows of 1 to 50 the same from every state |
| CallDetectors.AdmittedCallsAreSpread | agent/runtime_control.py:201-235 | any w + 1 consecutive admitted calls hold each signature at most twice |
| CallDetectors.SuppressionIsFinal | agent/runtime_control.py:166-172 | no later call of a suppressed tool is admitted |
| CallDetectors.RunsStaySound | agent/runtime_control.py:174-216 | the breaker is tripped exactly when a tool is suppressed; the search tool passes at most three times; a blocked signature of a tool not suppressed was blocked once |
| DetectorTrace.EveryAnswer | agent/runtime_control.py:161-235 | for every run, window and position, from the calls and answers before it: a call is admitted if and only if its tool was not halted, it is no session search after three others, it is not broad, and fewer than two of the admitted calls in the window are like it; and which of the other five answers it gets otherwise |
| CallDetectors.ToolLoopDetector.InspectToolCall | agent/runtime_control.py:161-235 | the object update and verdict equal the specification |
| CallDetectors.DequeIsEncoding | hermes_core/circuit_breaker.py:215-240 | the deque holds the last maxlen groups of the trace's canonical run-length encoding, and the last call trips if and only if the current run is at least two calls and reaches the limit |
| CallDetectors.NoRoomNeverTrips | hermes_core/circuit_breaker.py:215-240 | with maxlen 0 nothing ever trips |
| CallDetectors.ToolDuplicateCallDetector.RecordAndCheck | hermes_core/circuit_breaker.py:219-240 | each call extends the recorded trace as specified |
| OutputCompactor.CompactIsFaithful | hermes_core/runtime_compactor.py:214-307 | the text is at most max_chars long, unchanged exactly if it fits, and otherwise, when the banner fits, front piece + banner + end piece, disjoint in the content |
| OutputCompactor.LinesAreExact | hermes_core/runtime_compactor.py:275-307 | when the kept lines and the banner fit, the text is exactly the first keep_head lines, the banner and the last keep_tail (at least one) lines |
| OutputCompactor.BannerReportsOmission | hermes_core/runtime_compactor.py:281-287 | the numbers in that banner are exactly those of the lines and characters between the kept lines |
| OutputCompactor.ContentInThree | hermes_core/runtime_compactor.py:254-282 | head, middle and tail lines make up the content |
| OutputCompactor.CutShares | hermes_core/runtime_compactor.py:262-307 | which characters are kept: of few lines the front gets floor(1/3) of what the banner leaves and the end the rest; of many lines that do not fit, the first lines get floor(35%) and the last ones the rest |
| OutputCompactor.NoRoomForBanner | hermes_core/runtime_compactor.py:264-296 | a banner as long as the budget is not shown for few lines, and the text is then a piece of the content; of many lines it is the start of head, banner and tail |
| OutputCompactor.BannerSays | hermes_core/runtime_compactor.py:257-290 | which banner is shown: that of few lines names the characters above the budget, that of many the lines and characters between the kept ones |
| OutputCompactor.GroupedReads | hermes_core/runtime_compactor.py:259-289 | the numerals in the banners stand for these numbers, with a comma exactly before every third digit from the end |
| SpoolQuota.EvictsShortestPrefix | hermes_core/runtime_compactor.py:93-105 | cleanup removes exactly the shortest oldest-first prefix that meets both limits |
| SpoolQuota.EvictsAllItCan | hermes_core/runtime_compactor.py:93-105 | with failing removals, a limit stays exceeded only if no removable file is left |
| SpoolQuota.OldestGoFirst | hermes_core/runtime_compactor.py:75-105 | whichever files resist removal: of two removable, unexpired files of which a cleanup removes one and keeps the other, the removed one is not younger |
| SpoolQuota.FewestOldestGo | hermes_core/runtime_compactor.py:75-105 | the cleanup keeps a suffix of the counted files in order of modification time, the longest one within both limits |
| SpoolQuota.WriteSpares | hermes_core/runtime_compactor.py:149-202 | a write removes no regular file of at most a day from a directory of at most 100 files and 100 MB |
| SpoolQuota.CleanMeetsQuota | hermes_core/runtime_compactor.py:71-105 | a cleanup leaves no link, no expired file and both limits met |
| SpoolQuota.DirectoryStaysBounded | hermes_core/runtime_compactor.py:149-202 | after every write of every run the written path and at most 101 files and 110 MB are present, none older than a day |
| SpoolQuota.Payload | hermes_core/runtime_compactor.py:188-200 | at most 10 MB are written, a longer text as a prefix and the marker |
| SpoolQuota.SpoolDirectory.Scan | hermes_core/runtime_compactor.py:75-90 | the first loop removes links and expired files and collects exactly the counted ones |
| SpoolQuota.SpoolDirectory.RemoveOldest | hermes_core/runtime_compactor.py:93-105 | the decrementing removal loop equals the specification |
| SpoolQuota.SpoolDirectory.CleanQuota | hermes_core/runtime_compactor.py:59-107 | the scan and the removal loop equal the specification |
| InlinePatch.SearchIsComplete | capabilities/inline_patch/inline_patch_engine.py:84-113 | both searches find exactly their matches in increasing order, and every exact match is a normalised one |
| InlinePatch.RebuildReplacesBlocks | capabilities/inline_patch/inline_patch_engine.py:226-237 | for matches at least a target length apart exactly the matched blocks are replaced and all other lines kept in order |
| InlinePatch.RebuildLengthIff | capabilities/inline_patch/inline_patch_engine.py:226-237 | the line count is (orig lines) + k((repl lines) - (target lines)) if and only if no two matches overlap |
| InlinePatch.OverlapIsReplacedTwice | capabilities/inline_patch/inline_patch_engine.py:226-237 | concrete overlapping matches |
| InlinePatch.PatchBackRestores | capabilities/inline_patch/inline_patch_engine.py:165-272 | patching a file and patching the written result back, each at a single exact match, restores what was read if the new lines are whole and without carriage returns and the blocks are completed alike |
| InlinePatch.CarriageReturnIsNotRestored | capabilities/inline_patch/inline_patch_engine.py:165-213 | a replacement with a carriage return after which patching back fails as ambiguous, because reading translates it to a line feed |
| InlinePatch.ReplacedIsReadBackIff | capabilities/inline_patch/inline_patch_engine.py:165-272 | the lines written after replacing one block are read back if and only if the replacement is made of whole lines without carriage returns that start and end where its neighbours do |
| Text.ReadBackIff | capabilities/inline_patch/inline_patch_engine.py:165-272 | written lines are read back and split into the same lines if and only if they are whole and contain no carriage return |
| Text.FirstReturnIsRead | capabilities/inline_patch/inline_patch_engine.py:167-169 | reading translates a carriage return, with or without a line feed after it, to one line feed, and keeps everything else |
| Text.SplitJoinIff | capabilities/inline_patch/inline_patch_engine.py:178-237 | joining lines and splitting the text again gives the same lines if and only if each is one line that ends where the next one starts |
| InlinePatch.NotFoundIff | capabilities/inline_patch/inline_patch_engine.py:192-213 | the target is not found exactly if no stretch of lines agrees with it up to trailing white space |
| PatchOutcome.Outcome | capabilities/inline_patch/inline_patch_engine.py:192-224 | a patch succeeds if and only if its block stands somewhere, exactly or else up to trailing white space, and only once unless more are allowed; not found exactly if nowhere, ambiguous otherwise; a patch replaces all these places and says whether it ignored white space |
| PatchOutcome.FilledIs | capabilities/inline_patch/inline_patch_engine.py:182-190 | a block without a final line feed or carriage return gets a line feed exactly if the first line of the file ends with one |
| InlinePatch.EmptyTargetMatchesEverywhere | capabilities/inline_patch/inline_patch_engine.py:192-200 | an empty target matches before every line and at the end |
| InlinePatch.FindBlockMatches | capabilities/inline_patch/inline_patch_engine.py:84-97 | the loop returns the exact matches |
| InlinePatch.FindNormalizedMatches | capabilities/inline_patch/inline_patch_engine.py:100-113 | the loop returns the normalised matches |
| InlinePatch.Rebuild | capabilities/inline_patch/inline_patch_engine.py:226-236 | the loop returns the specified lines |
| InlinePatch.ApplyInlinePatch | capabilities/inline_patch/inline_patch_engine.py:165-237 | reading with newline translation, search, fallback, both error cases and rebuilding as specified |
| CacheRuns.ReadIsLatestStore | hermes_core/semantic_cache.py:151-273 | after every run of stores, reads and prunings with a monotone clock a read finds something exactly while the latest store under its key is unexpired: its redacted response and remaining time, the category of the first store since the row came into being, and the hits since then |
| CacheRuns.StoreIsRead | hermes_core/semantic_cache.py:37-46 | what was just stored is found by its owner, after every run, unless the query contains one of the five bypass words, and for exactly as many seconds as the argument says within 1 to 86400, or else 60, 180, 600 or 300 by category |
| CacheRuns.StoredIff | hermes_core/semantic_cache.py:213-229 | a response is stored if and only if its caller is trusted, query and response have at most 4096 and 16384 characters, the response is not blank, and the normalised query is neither empty nor holds a NUL; otherwise nothing changes |
| CacheRuns.StoreKeepsOthers | hermes_core/semantic_cache.py:244-258 | a store changes no other row, and of an existing row neither category, hits, scope nor caller |
| CacheRuns.StoresOfOwner | hermes_core/semantic_cache.py:123-131 | unless a reader's normalised query can be stored and its caller name has that form, the stores under its key are, in every run, exactly those for its own scope, caller and normalised query |
| RowLife.RowIsItsLife | hermes_core/semantic_cache.py:244-255 | a row is determined by the stores and reads since the pruning that last removed it |
| CacheRuns.PruningIsObservedIff | hermes_core/semantic_cache.py:264-273 | leaving out all prunings never changes whether a read is a hit, its response or its remaining time; it leaves the whole hit unchanged if and only if there is none, or no pruning removed a row of this key, or the first removed store had the same category and was never hit |
| CacheRuns.PruningChangesCategory | hermes_core/semantic_cache.py:244-255 | a store, a pruning and a second store after which a read returns the second category, and the first one without the pruning |
| SemanticCache.KeysAreUnique | hermes_core/semantic_cache.py:123-131 | for callers and queries without a colon the hashed text can be decoded in one way only |
| SemanticCache.ReaderIsIsolatedIff | hermes_core/semantic_cache.py:151-262 | a read returns what was stored for somebody else, for some store, if and only if its query does not ask to bypass the cache and can be stored in its normalised form, and its caller name is a text without white space at its end, a colon, and the name of a trusted caller |
| SemanticCache.LeakIsRead | hermes_core/semantic_cache.py:151-262 | what "agent" stores under the scope "default:x" is read under "default" by "x:agent" |
| SemanticCache.TrustedCallersHaveNoColon | hermes_core/semantic_cache.py:26 | writers are trusted callers, whose names contain no colon |
| SemanticCache.Cache.GetCachedResponse | hermes_core/semantic_cache.py:151-195 | bypass, empty query, expiry and hit count as specified |
| SemanticCache.Cache.SetCachedResponse | hermes_core/semantic_cache.py:198-261 | refusals and the insert-or-update of a row as specified |
| SemanticCache.Cache.PruneExpiredCache | hermes_core/semantic_cache.py:264-273 | removes exactly the expired rows and returns their number |
| QueryNormaliser.NoNoiseLeft | hermes_core/semantic_cache.py:105-114 | the prefix loop terminates with a text that starts with no noise prefix |
| QueryNormaliser.OrderIsIrrelevant | hermes_core/semantic_cache.py:116-118 | replacing the stop words in any order gives the same text |
| QueryNormaliser.ReplaceCommutes | hermes_core/semantic_cache.py:116-118 | replacing two words that share no character commutes |
| QueryNormaliser.StopWordsAreSeparate | hermes_core/semantic_cache.py:35 | the stop words share no character and contain no blank |
| QueryNormaliser.NormalisedHasNoSeparator | hermes_core/semantic_cache.py:94-120 | a normalised query contains no white space and no punctuation |
| QueryWords.NormaliseKeepsWords | hermes_core/semantic_cache.py:94-120 | the normalised query joins the words of the redacted, lower-cased query, from whose front noise prefixes were taken until none was left, and from which the stop words were taken; nothing else is lost or reordered |
| QueryWords.CollapseKeepsWords | hermes_core/semantic_cache.py:103 | collapsing punctuation keeps every word and leaves single blanks between them |
| QueryWords.NoiseIsPeeled | hermes_core/semantic_cache.py:105-114 | what the loop takes off the front are noise prefixes and white space, one after the other, and nothing else |
| QueryWords.ReplacedAtOnce | hermes_core/semantic_cache.py:116-118 | replacing the stop words one after the other, in any order, equals one pass from left to right that replaces whichever starts at each place |
| QueryNormaliser.RemoveNoise | hermes_core/semantic_cache.py:105-114 | the nested loops equal the specification |
| QueryNormaliser.RemoveStopWords | hermes_core/semantic_cache.py:116-118 | the loop over the set, in any order, gives the one result |
| QueryNormaliser.NormalizeQuery | hermes_core/semantic_cache.py:94-120 | the whole normalisation as specified |

## Left out

- Plan: titles, descriptions, evidence, error history, timestamps, `export_ledger`, and a replacement entry whose `dependencies` value is null.
- CanonicalJson.Seconds: times print as plain decimals; the exponent notation from 1e16 seconds on and the sign of a negative zero are not modelled.
- AuthorityModels.Ticks: rounds the exact real number half to even; the binary representation of floats is not modelled.
- AuthorityModels: the `to_dict`/`from_dict` pairs, which only copy fields.
- AuthorityBroker: sockets, peer credentials, thread start and stop, base64 decoding and provenance digests; provenance verification is a function parameter. The default nonce retention is modelled, but no caller uses it.
- BrokerRuns: manifests registered while requests are in flight; the manifest store is constant during a run.
- Guardian: failing writes other than onto a directory or an unreachable path, short reads, changes made by others during a pass, log events. Consumed token files stay listed, as when their removal fails.
- Guardian.SafeCopy: file modes and the verification of the temporary file.
- OutputCompactor.FoldLines: the head share is the exact floor of 35 percent; the rounding of the float product is not modelled.
- OutputCompactor.Compact: a negative `max_chars`, for which no text is short enough.
- SpoolQuota: permission checks, link checks of the directory, redaction, file name cleaning, and the checks on a file that already exists.
- CircuitBreakers: unreadable or oversized state files, the negative cache, the approval timeout shield; in paired calls the clock does not move between allow and record.
- CallDetectors: the broad-scan patterns (a flag of the call) and the truncated argument hash (the canonical text itself); message texts.
- InlinePatch: path sandbox, file errors, syntax check and diff; writing leaves line feeds as they are, as on systems whose line separator is one.
- SemanticCache: SQLite and its failures, the keyword table of `infer_category` (a parameter), the `strict_caller_check` exception instead of a refusal.
- Network and storage gates, path sanitizer, security filter, fast path, skeleton streamer, speculative executor: input and output or pattern tables.
