# AnsFlow backend: verified models

A Dafny 4.11 model of the algorithms, protocols and caches behind the AnsFlow backend, with proofs
about every input or every run. `dafny verify dfyconfig.toml` checks the whole project.

| file | what it models |
|---|---|
| `Paths.dfy`, `Options.dfy`, `Selections.dfy` | walks, reachability, acyclicity; optional values; what filtering keeps |
| `PipelineModel.dfy` | one pipeline run as a transition system: scheduler wake-ups, worker starts and ends, approvals, stop |
| `PipelineEngine.dfy` | the in-place engine code, each method proved to take exactly one step of that system |
| `PipelineSafety.dfy`, `PipelineConfluence.dfy`, `PipelineTermination.dfy` | what every run keeps, its unique result, its end |
| `PipelineEffects.dfy` | what steps and runs do to one entry of the graph, said on the entries themselves |
| `RetryWave.dfy` | the ancestor search and the retry request |
| `DagFilter.dfy` | filtering a generated graph by splicing edges |
| `DagOrder.dfy`, `DagLayout.dfy` | the visiting order of the breadth-first search; levels and positions |
| `YamlGraph.dfy` | building and laying out a graph from a CI file's jobs |
| `Roles.dfy`, `PermissionCache.dfy` | role inheritance, refresh sets, and the permission cache |
| `ApprovalTickets.dfy` | approval tickets from interception to execution |
| `DiagnosisRuns.dfy` | ownership of a diagnosis run among competing tasks |
| `PromptBudget.dfy` | packing diagnosis evidence into a bounded prompt |
| `PromptCompaction.dfy` | shortening the values inside the prompt |
| `Redaction.dfy` | hiding secrets and merging an edited copy back |
| `ConfigCache.dfy` | the configuration cache and its three overlapping views |

## Assumptions

- Pipeline: one wake-up, one worker start, one worker end, one API call is one atomic step. The source
  takes no lock, so this is an assumption. The graph and each node's retry limit are fixed for a run. The
  queue neither loses nor duplicates messages, except that Stop may kill running executions, any of which
  may survive the signal. A node body is an arbitrary success or failure.
- Permission cache: a table change and the dispatch of its refresh are one step. A read that misses, and
  each user's turn of a refresh task, compute in one step and store in another; a task's next turn may
  compute before the last one stores. An entry may vanish at any time.
- Tickets: each API call, task and final write is one step, as the row locks and bulk updates make it.
  Role tables and policies may change between steps. A response below 400 means the request took effect,
  an error response that it did not; an exception may come before or after the effect.
- Diagnosis: claim, recovery, and the final ownership check with its save are atomic, a task id has one
  live execution at a time, and every execution has a task id.
- Configuration cache: cache operations succeed, the categories are fixed and items are not renamed. A
  write with its cache updates is one step. So is a miss in `CacheRefinesTable`, while
  `SplitMissesCoherent` takes its table read and its cache write apart.

## What the proofs found

- The engine's own `cancelled` verdict (`apps/pipeline_management/tasks.py:863-864`) is never reached:
  only Stop makes cancelled nodes, and Stop ends the run (`OnlyStopCancels`).
- A retried run's start node is blocked by a self-loop or an edge from an unknown node, and by nothing
  else (`StartIsReady`).
- When the prompt falls back to core metadata, all evidence is already gone: its evidence list and the
  identifier list are always empty, and their trimming loops never run (`EnforceFinalBudget`).
- A diagnosis success can be overwritten when enqueues of one run overlap, because the task id is
  registered after the task was sent; exactly a registration during execution exposes it
  (`OverlapOverwrites`, `LateRegistrationExposes`).
- An approved ticket whose resumer dies before its final write, for example on an unsupported method,
  stays approved for good and answers every later identical request (`OrphanReached`, `OrphanForever`);
  it can leave that status exactly while its resumer lives (`ApprovedMoves`).
- Inserting a ticket beside an approved one is stopped by the database constraint alone
  (`InsertNeedsConstraint`); the approve action never relies on it.
- The configuration cache is right in every run exactly when no category name, with its colon, begins
  another name's, and none begins `category:` followed by a name in use (`CacheRefinesTable`). A category
  named `category` clashes with itself (`WordCategoryBreaks`).
- A permission read or refresh that is overtaken by the refresh it needed stores outdated permissions that
  nothing will refresh (`OvertakenRead`); no other step exposes the cache (`OvertakingExposes`).
- A configuration read that stores after a write to what it looked up leaves the old value in the cache,
  whatever the names (`StaleFill`); no other event exposes the cache (`OutdatingExposes`).
- An execution that took effect but is recorded as failed by a later exception can take effect again
  (`EffectTwice`), as long as its ticket has not expired and is not blocked by an orphaned one
  (`RunsAgain`); without such a loss it takes effect at most once (`AtMostOneEffect`).
- Edited lists are merged by position: deleting an element hands its secrets to the next one unless each
  later element can be recovered from the one before it (`DeleteElement`, `DeletedSecretMoves`).
- A retry over a graph with a repeated node id fails, and leaves a stored run that nothing but Stop can
  ever move (`Retry`, `StrandedForever`).
- A `label` parameter can draw an edge of a CI graph from right to left (`LabelCanReverse`).

## Model

| member | source | states |
|---|---|---|
| PipelineEngine.PipelineRun.AdvanceEngine | apps/pipeline_management/tasks.py:727-879 | one wake-up takes exactly the Advance step: ended runs untouched, empty graph fails, records created, ready nodes dispatched, otherwise the verdict |
| PipelineEngine.PipelineRun.CreateMissingRecords | apps/pipeline_management/tasks.py:769-789 | existing records stay, each configured id without one gets a pending record of its first configuration entry |
| PipelineEngine.PipelineRun.FindReady | apps/pipeline_management/tasks.py:819-838 | finds exactly the pending nodes all of whose incoming edges come from succeeded or skipped nodes |
| PipelineEngine.PipelineRun.Dispatch | apps/pipeline_management/tasks.py:840-853 | approval nodes wait, the others run and get one execute message each, nothing else changes |
| PipelineEngine.PipelineRun.DecideFinalStatus | apps/pipeline_management/tasks.py:855-866 | the verdict follows from failed, pending and cancelled records |
| PipelineEngine.PipelineRun.StartNode | apps/pipeline_management/tasks.py:117-134 | takes the Start step: runs the node, or fails it when the run was cancelled |
| PipelineEngine.PipelineRun.FinishNode | apps/pipeline_management/tasks.py:664-699 | takes the Finish step: success, bounded retry without waking the scheduler, or failure |
| PipelineEngine.PipelineRun.ApproveNode | apps/pipeline_management/views.py:547-579 | accepted exactly for waiting nodes, and then takes the Approve step |
| PipelineEngine.PipelineRun.StopRun | apps/pipeline_management/views.py:237-299 | accepted exactly for unfinished runs, and then takes the Stop step |
| PipelineSafety.StepInv | apps/pipeline_management/tasks.py:726-879 | every step keeps the joint invariant on messages, wake-ups, causality, retries and settled runs |
| PipelineSafety.NoLostWakeUp | apps/pipeline_management/tasks.py:821-853 | in every run an unfinished run has a wake-up queued, a running node with its one message, or a waiting node; no node has two messages; without Stop messages match running nodes; ended runs have none |
| PipelineSafety.CausalSafety | apps/pipeline_management/tasks.py:823-852 | in every run, Stop and retries included, a dispatched node's sources are recorded and succeeded or skipped |
| PipelineSafety.DoneForever | apps/pipeline_management/tasks.py:664-699 | a succeeded or skipped node never changes again |
| PipelineSafety.EndedForever | apps/pipeline_management/tasks.py:740-741 | an ended run keeps its status under all later messages and requests |
| PipelineSafety.StartOrder | apps/pipeline_management/tasks.py:823-852 | every started node passed a wake-up before which it had not started and all its sources were done |
| PipelineSafety.StopSettles | apps/pipeline_management/views.py:255-297 | a cancelled run has nothing pending or waiting, and once its messages are gone every node is finished or cancelled |
| PipelineSafety.NothingStartsAfterStop | apps/pipeline_management/tasks.py:124-129 | after a stop no node body begins |
| PipelineConfluence.ExecutedFixpoint | apps/pipeline_management/tasks.py:823-838 | the least closed set of nodes is a fixed point: a node is in it exactly when all its sources open |
| PipelineConfluence.OnlyStopCancels | apps/pipeline_management/tasks.py:863-864 | no run without a Stop is ever cancelled, so the engine's own cancelled verdict is never reached |
| PipelineConfluence.Confluence | apps/pipeline_management/tasks.py:820-879 | with fixed outcomes and no Stop every interleaving that ends has the same node map and verdict; the executed nodes are the least fixed point |
| PipelineConfluence.StuckNeverStarts | apps/pipeline_management/tasks.py:829-838 | in every run, Stop and retries included, nothing on or behind a cycle or behind an unknown source ever starts, unless the way from there is skipped |
| PipelineConfluence.AllGoodVerdict | apps/pipeline_management/tasks.py:855-866 | a fresh or retried run in which everything succeeds ends in success exactly when the graph is non-empty and, apart from what leads into skipped nodes, acyclic and without unknown sources |
| PipelineConfluence.DeadlockMeansBadGraph | apps/pipeline_management/tests.py:263-286 | a run that fails without a failed node has an empty graph, a cycle or an unknown source |
| PipelineTermination.StepFalls | apps/pipeline_management/tasks.py:678-699 | every step lowers one natural-number measure |
| PipelineTermination.BodyStartsBounded | apps/pipeline_management/tasks.py:678-693 | the starts of a node body plus the attempts it has left never exceed max(0, max_retries) + 1 |
| PipelineTermination.Completes | apps/pipeline_management/tasks.py:740-879 | from every state that keeps the invariant some continuation with the given outcomes ends the run |
| PipelineTermination.Termination | apps/pipeline_management/tasks.py:678-699 | every run is within an explicit step bound and attempt bound, and a run in which only Stop is possible has ended |
| PipelineEffects.ApprovalWaits | apps/pipeline_management/tasks.py:769-853 | in every run from a fresh one, the first entry of an id decides: an approval node is never running and has no message, any other node never waits |
| PipelineEffects.AdvanceEffect | apps/pipeline_management/tasks.py:819-853 | entry by entry, a wake-up makes dispatchable approval nodes wait, runs the other dispatchable ones with one message each, and leaves the rest |
| PipelineEffects.AdvanceVerdict | apps/pipeline_management/tasks.py:855-879 | the run's status after a wake-up, from the node statuses it leaves |
| PipelineEffects.FinishEffect | apps/pipeline_management/tasks.py:664-699 | the status, retry count, messages and wake-ups that the end of a node body leaves, by its entry's retry limit |
| PipelineEffects.FailsAfterAllRetries | apps/pipeline_management/tasks.py:678-693 | in a run that was not stopped, the body of a failed node was started exactly max(0, max_retries) + 1 times |
| RetryWave.GetAncestors | apps/pipeline_management/views.py:15-37 | ends on any graph and lists exactly the other nodes that can reach the start |
| RetryWave.StartNodeIs | apps/pipeline_management/views.py:317-334 | the requested node if it exists, else the first node without an incoming edge, else the first node; empty only without nodes or for an empty id |
| RetryWave.Retry | apps/pipeline_management/views.py:302-387 | rejects unfailed runs and missing starts; skips exactly the nodes that can reach the start; a repeated id fails the request after storing the run and the records before the repetition |
| RetryWave.WaveRecords | apps/pipeline_management/views.py:355-380 | one record per node up to the first repeated id, skipped for ancestors and pending otherwise |
| RetryWave.SkippedClosedUpstream | apps/pipeline_management/views.py:339-371 | whatever leads into a skipped node is skipped, the start, or no node of the graph |
| RetryWave.StartIsReady | apps/pipeline_management/tasks.py:823-838 | the first wake-up dispatches the start exactly when every edge into it comes from another real node |
| RetryWave.ApprovalWaitsAgain | apps/pipeline_management/tasks.py:769-853 | in every retried run approval nodes are never executed and the others never wait for a person |
| RetryWave.WaveVerdict | apps/pipeline_management/views.py:355-383 | a retried run in which everything succeeds ends in success exactly when the part it runs again has no cycle and no unknown source |
| DagFilter.SpliceOut | apps/pipeline_management/utils.py:154-166 | the new edges are the old ones away from the node plus its sources joined to its targets without self-loops; surviving edges stay in front, each new one comes once, in the order of the edges it replaces |
| DagFilter.FilterDag | apps/pipeline_management/utils.py:148-170 | keeps the remaining nodes in order and splices the removed ids out one after the other, in the order of their nodes |
| DagFilter.KeptSelects | apps/pipeline_management/utils.py:148-168 | the kept nodes are those at rising positions, and exactly those that are not removed |
| DagFilter.RemovedExactly | apps/pipeline_management/utils.py:134-153 | a node with an id is removed exactly for one of two types or one of six words within its name or label |
| DagFilter.SplicingPreservesReach | apps/pipeline_management/utils.py:154-166 | for any removed ids, kept ends reach each other as before, no edge touches a removed id, acyclicity is kept |
| DagFilter.FilterPreservesMeaning | apps/pipeline_management/utils.py:148-170 | with distinct ids, kept nodes reach each other exactly as before filtering |
| DagLayout.Search | apps/pipeline_management/utils.py:188-197 | the queue loop ends; exactly the nodes reachable from a root get a level, their shortest hop distance, in the order of the queue, which is layer by layer |
| DagOrder.VisitsAreLayers | apps/pipeline_management/utils.py:189-197 | handing out nodes from the queue is visiting whole layers, each the unseen successors of the one before in first-occurrence order |
| DagLayout.OrderMeaning | apps/pipeline_management/utils.py:188-202 | by positions in the lists: roots come as listed, then each reached node by its earliest-visited parent and, under the same parent, by its first edge from it; unreached nodes follow as listed |
| DagLayout.FindRoots | apps/pipeline_management/utils.py:173-186 | the roots are the nodes without incoming known edge, in order, or the first node when there are none |
| DagLayout.RootsExactly | apps/pipeline_management/utils.py:173-186 | the roots are exactly the nodes without incoming known edge, or only the first node when every node has one |
| DagLayout.FillUnreached | apps/pipeline_management/utils.py:199-202 | unreached nodes follow the visited ones in their own order and share the level after the last one |
| DagLayout.AcyclicReached | apps/pipeline_management/utils.py:184-197 | every node of an acyclic graph is reached from a node without incoming edges |
| DagLayout.Place | apps/pipeline_management/utils.py:204-214 | columns by level, rows by rank within the level |
| DagLayout.PlacedFollows | apps/pipeline_management/utils.py:204-214 | a level's first node stands at the top of its column, every other one row below the last earlier one of that level |
| DagLayout.PositionsDistinct | apps/pipeline_management/utils.py:209-214 | no two nodes share a position, and columns order as levels do |
| DagLayout.Layout | apps/pipeline_management/utils.py:172-214 | the whole layout: shortest-hop levels for reached nodes, one further column for the rest, rows by roots, first parents and first edges, nobody unreached on an acyclic graph |
| YamlGraph.YamlToGraphParser.Parse | apps/pipeline_management/yaml_parser.py:17-74 | one node per job; an edge for each existing need, single or listed, and no other; longest-path depths as levels, columns by label |
| YamlGraph.YamlToGraphParser.GetLevel | apps/pipeline_management/yaml_parser.py:82-96 | the memoised recursion ends on acyclic needs and finds the longest-path depth, keeping the memo right |
| YamlGraph.YamlToGraphParser.PlaceNodes | apps/pipeline_management/yaml_parser.py:101-111 | each node in its label's column below the earlier nodes there |
| YamlGraph.EdgesAsListed | apps/pipeline_management/yaml_parser.py:48-66 | the edges come job by job and need by need, unknown needs left out and repeated ones repeated |
| YamlGraph.EdgesAreNeeds | apps/pipeline_management/yaml_parser.py:48-66 | an edge joins two jobs exactly when the target's needs are the source's name or a list with it |
| YamlGraph.NeedRelIs | apps/pipeline_management/yaml_parser.py:82-94 | the same for the pairs that depths are computed from, where one empty name counts as no needs |
| YamlGraph.DrawnMeans | apps/pipeline_management/yaml_parser.py:27-111 | each node has its job's name, type and label; its label's depth gives the column, and each further node of a column stands one row below the last earlier one |
| YamlGraph.PlacesDistinct | apps/pipeline_management/yaml_parser.py:101-111 | no two nodes share a position, whatever their labels |
| YamlGraph.EdgesGoRight | apps/pipeline_management/yaml_parser.py:76-111 | every edge joins two nodes and goes strictly left to right exactly when the jobs its ends' labels name have rising longest-path depths; with default labels, exactly when the needs are not one empty name |
| YamlGraph.LabelCanReverse | apps/pipeline_management/yaml_parser.py:39-42 | a concrete acyclic file whose label parameter draws an edge backwards |
| Roles.RoleWalk.CollectIds | apps/rbac_permission/models.py:61-74 | the shared-accumulator recursion adds exactly the ids of the newly seen roles, which are reachable and closed under parents |
| Roles.RoleWalk.CollectDescendants | apps/rbac_permission/models.py:86-97 | the same for children, adding each child as it is met |
| Roles.GetAllIds | apps/rbac_permission/models.py:61-74 | exactly the ids held by the role or any ancestor, on cyclic graphs too |
| Roles.GetAllDescendantRoles | apps/rbac_permission/models.py:86-97 | exactly the roles that inherit over at least one step |
| Roles.CalculateUserPerms | utils/logic.py:3-15 | exactly the active codes granted through the user's roles and their ancestors |
| Roles.UserMatchesApproverRoles | apps/approval_center/views.py:17-28 | true exactly for superusers, missing or empty requirements, or a role that is or inherits a required one |
| Roles.OnRoleStructureChange | apps/rbac_permission/signals.py:33-40 | exactly the users with the role or an heir of it |
| Roles.OnPermissionChange | apps/rbac_permission/signals.py:65-75 | exactly the superusers and the users granted the permission |
| Roles.OnMenuChange | apps/rbac_permission/signals.py:45-60 | exactly the superusers and the users holding the menu by inheritance |
| PermissionCache.AffectedUsers | apps/rbac_permission/signals.py:24-81 | the dispatched set for each kind of change |
| PermissionCache.WhoReachesIsStable | apps/rbac_permission/signals.py:33-40 | changing a role's own parent edges does not change who reaches it, nor what the others reach |
| PermissionCache.RefreshCovers | apps/rbac_permission/signals.py:24-81 | every user whose permission set a change alters is in the dispatched set |
| PermissionCache.RefreshBulkCacheTask | apps/rbac_permission/tasks.py:35-43 | sends the consecutive slices of at most 500 users |
| PermissionCache.ChunksPartition | apps/rbac_permission/tasks.py:39-43 | the slices put together are the list, each non-empty and within the limit |
| PermissionCache.ChunkAt | apps/rbac_permission/tasks.py:39-43 | slice k holds the 500 ids from position 500 * k on, or what is left |
| PermissionCache.Cache.RefreshUserCacheChunk | apps/rbac_permission/tasks.py:11-21 | overwrites exactly the entries of the chunk's existing users with freshly computed permissions |
| PermissionCache.Cache.ReadThrough | utils/rbac_permission.py:71-93 | answers from the entry, or computes and stores it |
| PermissionCache.CoherentStep | apps/rbac_permission/signals.py:7-21 | changes, refresh turns, reads, stores and expiries keep every entry right, its refresh queued or the right value pending, while pending stores are timely |
| PermissionCache.OvertakingExposes | utils/rbac_permission.py:73-93 | storing what is pending can leave a wrong entry with nothing to refresh it exactly when the last queued refresh overtook a pending value |
| PermissionCache.OvertakenRead | apps/rbac_permission/tasks.py:18-21 | a concrete run from an empty cache in which a lost permission stays cached with nothing queued or pending |
| PermissionCache.CacheCoherence | apps/rbac_permission/tasks.py:10-43 | over every run in which nothing pending is overtaken, each entry is absent, exact, or has its refresh queued or the right value pending |
| ApprovalTickets.TicketTable.InterceptIfNeeded | apps/approval_center/engine.py:106-151 | cancels the request's expired tickets, then finds its active ticket or creates one |
| ApprovalTickets.InterceptMeans | apps/approval_center/engine.py:106-151 | a ticket is created exactly without an approved or unexpired pending one of the request; which old tickets are cancelled and what the new one holds |
| ApprovalTickets.TicketTable.ApproveTicket | apps/approval_center/views.py:153-182 | each answer exactly in its case, with the policy's roles looked up; cancels when timed out, claims when all guards pass, else changes nothing |
| ApprovalTickets.TicketTable.FinishExecution | apps/approval_center/engine.py:218-257 | failed after an exception or a status code from 400 up, finished otherwise |
| ApprovalTickets.TicketTable.RejectTicket | apps/approval_center/views.py:208-222 | rejects exactly pending tickets, by a superuser or a holder of one of the policy's roles if it names any |
| ApprovalTickets.SweepIsFinal | apps/approval_center/tasks.py:8-17 | after the expiry task nothing pending has expired; what it cancelled stays cancelled and is never executed again, everything else is as before |
| ApprovalTickets.StepInv | apps/approval_center/views.py:153-184 | every step keeps one active ticket per fingerprint, resumers on approved tickets only, and the success count |
| ApprovalTickets.TicketSafety | apps/approval_center/models.py:124-133 | over every run: one active ticket per request, no execution started after expiry or by somebody without the policy's roles, at most one execution per ticket recorded as successful, which is then finished |
| ApprovalTickets.ClaimsCleared | apps/approval_center/views.py:165-166 | over every run, whoever started an execution under a policy that names roles is a superuser or inherits one of them |
| ApprovalTickets.AtMostOneEffect | apps/approval_center/engine.py:214-257 | as long as no effect is recorded as a failure, each ticket's request takes effect at most once, retries included |
| ApprovalTickets.RunsAgain | apps/approval_center/views.py:157-184 | whatever happened before, a ticket's request can take effect once more exactly while it executes, or is pending or failed, unexpired and not blocked |
| ApprovalTickets.EffectTwice | apps/approval_center/engine.py:244-257 | a concrete run from an empty table in which one ticket's request takes effect twice |
| ApprovalTickets.ApprovedUntilResumed | apps/approval_center/engine.py:218-257 | in every run an approved ticket stays as it is until its own resumer writes |
| ApprovalTickets.SettledForever | apps/approval_center/views.py:157-164 | finished, rejected and canceled are final |
| ApprovalTickets.ExpiredNeverClaimed | apps/approval_center/views.py:159-164 | once expired, no later approval starts the ticket's execution |
| ApprovalTickets.OrphanForever | apps/approval_center/engine.py:195-210 | an approved ticket without resumer stays approved and answers every later identical request |
| ApprovalTickets.ApprovedMoves | apps/approval_center/engine.py:195-257 | some continuation takes an approved ticket out of that status exactly while its resumer lives |
| ApprovalTickets.OrphanReached | apps/approval_center/engine.py:195-210 | a concrete run from an empty table that leaves an approved ticket without resumer |
| ApprovalTickets.InsertNeedsConstraint | apps/approval_center/models.py:124-133 | a new pending ticket keeps uniqueness exactly when no approved one exists |
| DiagnosisRuns.DiagnosisRow.ClaimTask | apps/sre_management/tasks.py:1121-1146 | claims exactly uncompleted, unsuperseded runs without a fresh heartbeat |
| DiagnosisRuns.DiagnosisRow.FinishTask | apps/sre_management/tasks.py:1311-1343 | only the registered owner records success, retry or failure |
| DiagnosisRuns.RecoveryRestarts | apps/sre_management/tasks.py:1347-1369 | once the task that stale recovery or a manual retry sent is registered, its claim is accepted whenever it comes, whatever other tasks do before, unless the owner is changed |
| DiagnosisRuns.LeaseHolds | apps/sre_management/tasks.py:1128-1139 | until its heartbeat is older than the limit, no claim and no recovery takes a run from its executing owner |
| DiagnosisRuns.ClaimStartsLease | apps/sre_management/tasks.py:1128-1146 | an accepted claim of the registered task writes status, start and heartbeat, and that row stays for the time of the limit |
| DiagnosisRuns.FailsAtThirdEnd | apps/sre_management/tasks.py:1325-1343 | over every run an executing task has ended at most twice before; its owner's failure is retried at the first two ends and final at the third |
| DiagnosisRuns.RegisteredTaskRules | apps/sre_management/tasks.py:76-82 | from its registration until the next registration, recovery or manual retry, the registered task is the only one whose end changes the row |
| DiagnosisRuns.DisownedForever | apps/sre_management/tasks.py:1311-1329 | a registered task that lost the row never owns it again |
| DiagnosisRuns.RecoveryIsFinal | apps/sre_management/tasks.py:1358-1367 | after stale recovery the old task records nothing, ever |
| DiagnosisRuns.SuccessIsFinal | apps/sre_management/tasks.py:1128-1130 | when enqueues do not overlap, no run of enqueue, claim, finish and recover overwrites a recorded success |
| DiagnosisRuns.LateRegistrationExposes | apps/sre_management/tasks.py:76-82 | registering a task exposes a recorded success exactly when that task is executing |
| DiagnosisRuns.OverlapOverwrites | apps/sre_management/tasks.py:76-82 | a concrete run with overlapping enqueues in which a success is overwritten |
| PromptBudget.FitItems | apps/sre_management/diagnosis_prompt.py:321-336 | greedy selection over the projected items, with its counts |
| PromptBudget.FitIsMaximal | apps/sre_management/diagnosis_prompt.py:329-334 | the section is an in-order subsequence within budget to which no omitted item could be appended |
| PromptBudget.ReferencesSelect | apps/sre_management/diagnosis_prompt.py:388-392 | the references are those of the evidence that has one, in order |
| PromptBudget.PromptContext.LargestLast | apps/sre_management/diagnosis_prompt.py:354-357 | the first populated list whose last item is largest |
| PromptBudget.PromptContext.TrimToFit | apps/sre_management/diagnosis_prompt.py:353-360 | removes largest last items until the context fits or nothing is left, keeping counts equal to lengths |
| PromptBudget.PromptContext.FallBack | apps/sre_management/diagnosis_prompt.py:365-410 | the core prompt exactly when it fits without evidence, as it is or shortened, else identifiers; the longest fitting part of evidence or references, and the counts |
| PromptBudget.PromptContext.EnforceFinalBudget | apps/sre_management/diagnosis_prompt.py:338-410 | ends; the exact conditions for the whole, the core and the identifier prompt, and the latter two's exact content; counts match lengths until fallback and never exceed what was available |
| PromptCompaction.CutString | apps/sre_management/diagnosis_prompt.py:482-488 | a string beyond the limit keeps its first limit minus 14 characters and gets the mark |
| PromptCompaction.CompactList | apps/sre_management/diagnosis_prompt.py:467-477 | a list keeps its first items, each compacted one level deeper |
| PromptCompaction.CompactDict | apps/sre_management/diagnosis_prompt.py:455-466 | an object keeps those of its first fields that are not raw payloads, in order, each compacted one level deeper |
| PromptCompaction.CompactFixed | apps/sre_management/diagnosis_prompt.py:442-488 | compaction leaves a value alone exactly when its depth, containers and strings are within the limits and no key is `raw` |
| PromptCompaction.CompactFits | apps/sre_management/diagnosis_prompt.py:442-488 | compaction always lands within the limits |
| PromptCompaction.CompactTwice | apps/sre_management/diagnosis_prompt.py:442-488 | compacting twice is compacting once |
| PromptCompaction.FitsIsSmall | apps/sre_management/diagnosis_prompt.py:442-477 | a value within the limits has no more parts than the full tree of that depth and width |
| Redaction.RedactMasks | apps/sre_management/diagnosis_security.py:38-48 | at every depth each sensitive key holds the mask |
| Redaction.RedactHidesSecrets | apps/sre_management/diagnosis_security.py:38-48 | the redacted copy does not depend on any secret value |
| Redaction.RedactAt | apps/sre_management/diagnosis_security.py:38-48 | in every public place: strings redacted as text, other plain values unchanged, lists and objects of the same shape with sensitive keys masked |
| Redaction.MergeRestores | apps/sre_management/diagnosis_security.py:51-66 | merging the redacted copy of one value with another restores the first exactly when everything hidden in it stands in the other at the same place |
| Redaction.RoundTrip | apps/sre_management/diagnosis_security.py:51-66 | merging the unedited redacted copy restores the value exactly when text redaction alters no part of a public string |
| Redaction.EditOnePlace | apps/sre_management/diagnosis_security.py:51-66 | editing one public place merges there only; every secret elsewhere comes back |
| Redaction.PutElsewhere | apps/sre_management/diagnosis_security.py:51-66 | an edit in one place leaves every place on another path alone |
| Redaction.EditOneLeaf | apps/sre_management/diagnosis_security.py:51-66 | a new plain value other than the mask is stored as it is, and nothing else changes |
| Redaction.DeleteElement | apps/sre_management/diagnosis_security.py:60-65 | deleting a list element in the redacted copy deletes just that element exactly when each later element can be recovered from the one before it |
| Redaction.DeletedSecretMoves | apps/sre_management/diagnosis_security.py:60-65 | a concrete list in which the deleted element's password ends up with the next element |
| ConfigCache.KeysApart | utils/config_manager.py:12-28 | under the exact condition no view of a category shares its key with another view |
| ConfigCache.ItemKeysCollide | utils/config_manager.py:26-28 | two categories share an item key exactly when one name with its colon begins the other |
| ConfigCache.ItemMeetsCategory | utils/config_manager.py:15-28 | an item key of one category is the category key of another exactly when its name with the colon begins `category:` and that name |
| ConfigCache.ColonFreeIsExact | utils/config_manager.py:26-28 | colon-free names other than `category` meet the exact condition |
| ConfigCache.TableAfter | apps/config_center/views.py:116-160 | which row each accepted write leaves and that nothing else in the table changes; refused writes and reads change nothing |
| ConfigCache.ReadsBack | utils/config_manager.py:53-74 | after any further reads, evictions and writes elsewhere, a lookup answers with what the last accepted write of the item stored, or with the default after a deletion |
| ConfigCache.StepCoherent | utils/config_manager.py:52-149 | under the exact condition every read, write and eviction keeps the cached views right |
| ConfigCache.SplitMissesCoherent | utils/config_manager.py:59-149 | with lookups and stores apart, every run in which no write changes the view behind a pending store keeps every cached view right |
| ConfigCache.OutdatingExposes | utils/config_manager.py:59-71 | some pending store makes a cached view wrong exactly after a write that changed the view behind it |
| ConfigCache.StaleFill | utils/config_manager.py:59-71 | for any item of any category a run from an empty cache in which the old value stays cached |
| ConfigCache.LateFill | utils/config_manager.py:59-71 | a late store is harmless when only reads, evictions and expiries came in between |
| ConfigCache.CacheRefinesTable | apps/config_center/views.py:116-160 | every run from an empty cache leaves every cached view equal to the one recomputed from active rows, if and only if the names meet the exact condition |
| ConfigCache.ClashBreaks | utils/config_manager.py:12-28 | any clash of names makes some single read of an empty cache wrong |
| ConfigCache.WordCategoryBreaks | utils/config_manager.py:15-28 | a category named `category` clashes with itself |
| ConfigCache.ConfigCache.GetItem | utils/config_manager.py:53-74 | on a coherent cache answers with the active row's value or the default, filling the entry |
| ConfigCache.ConfigCache.GetCategoryItems | utils/config_manager.py:77-96 | answers with the category's active rows |
| ConfigCache.ConfigCache.GetAllConfigs | utils/config_manager.py:99-115 | answers with all categories' active rows |
| ConfigCache.ConfigCache.SetItem | utils/config_manager.py:118-140 | writes an active row, refreshes its entry and drops the two views that contain it |
| ConfigCache.ConfigCache.Invalidate | utils/config_manager.py:143-149 | drops the three entries that may show the item |
| ConfigCache.ConfigCache.PerformCreate | apps/config_center/views.py:116-119 | inserts exactly this row and drops its entries, unless the key exists |
| ConfigCache.ConfigCache.PerformUpdate | apps/config_center/views.py:121-127 | puts exactly the new row in place of an active one and drops its entries |
| ConfigCache.ConfigCache.PerformDestroy | apps/config_center/views.py:129-135 | deactivates an active row, keeping its value, and drops its entries |
| ConfigCache.ConfigCache.RollBack | apps/config_center/views.py:251-279 | puts the old value into an active row and drops its entries; a missing old value is refused |

## Left out

- Node bodies (git, docker, kaniko, ansible, helm, webhooks), workspaces, websocket pushes and notifications: a node body is a success or a failure.
- The engine's catch-all handler (apps/pipeline_management/tasks.py:890-898), the mid-run graph swap (apps/pipeline_management/tasks.py:198-212), and interleavings inside one wake-up or one worker end.
- Edge and node-type normalisation before filtering (apps/pipeline_management/utils.py:93-132), and nodes without an id, which are treated like nodes with an empty one.
- Recursion errors on cyclic `needs`, and YAML text: the parser is modelled from the loaded jobs on.
- The content of menu trees (utils/logic.py:18-65), data-scope policies, reverse many-to-many edits, and deletion of roles, permissions or users.
- Policy matching and the fingerprint hash (apps/approval_center/engine.py:41-100): interception starts from a matched policy and a fingerprint; tickets are not edited outside these actions.
- Stale recovery lists its rows before it updates them (apps/sre_management/tasks.py:1351-1363); the model takes the two as one step.
- Direct calls of the diagnosis task without a task id, failures to enqueue, and the diagnosis content itself.
- JSON text, and the content of the prompt's sections (apps/sre_management/diagnosis_prompt.py:86-319): packed items are known by their size.
- PromptCompaction.CompactFits: asks for string limits of at least eleven characters, because a shorter limit cuts the mark for a cut container again; every caller passes at least 100.
- The key and text patterns of redaction are parameters, and tuples, which JSON does not have, are absent.
- Encryption of configuration values, change logs, subscribers and broadcast, category edits and item renames.
- PermissionCache.Cache.RefreshUserCacheChunk: does not model the menu and data-scope entries it also writes or deletes, because only permissions are modelled.
- PermissionCache.Cache.ReadThrough: does not model the entry's lifetime, because expiry is a separate step that may happen at any time; that computing and storing may be apart is in the run theorems instead.
