# Verified model of the repository-analysis kernels

A Dafny model of the algorithmic kernels behind the analysis platform: the two graph
builders of the worker, the chat branch tree, the shared-repository and run protocols,
the glob engine, the chunked insert with its statistics, the file tree of the graph
explorer, and two wire parsers. `dafny verify dfyconfig.toml` checks everything.

| module | what it is about |
|---|---|
| `Cfg`, `CfgSimulation`, `CfgFrontier`, `CfgNecessity`, `CfgReach`, `CfgExits`, `CfgShape`, `CfgKinds` | The control-flow-graph builder as a small compiler: a mutating builder refines a translation function; executions are walks of the graph, exactly when they come to every nested block at the node it is entered from; exactly when every node is reached from ENTRY and leads to EXIT; the finished graph's shape; which nodes are branches. |
| `ChatTree`, `ChatRoundTrip`, `ChatPaging` | A thread as a message tree with `active` flags kept by id-range updates: exactly one branch stays active, what coming back to an answer restores, pages and pager metadata. |
| `RepoCount` | `user_count` as a reference count under concurrent creates, joins and deletes with crashes between any two writes. |
| `RunProtocol` | Analysis runs under concurrent relaunches, retries, joins, reconciliations and worker writes. |
| `Relaunch` | Which row a relaunch lands on, by version floor or unique key, and why asking twice adds nothing. |
| `Dfg`, `DfgTheorems`, `DfgSource` | The data-flow-graph builder: its two caches refine a backward scan; where its edges come from; when it has cycles; and, read off the source, which names, declarators, assignments and reads it draws. |
| `Glob` | Globs compiled to regular-expression text, read back and given meaning; the database prefilter of the recursive listing. |
| `InsertRetry`, `PipelineStats` | Chunked insertion against an adversarial server, and the statistics built on it up to the orchestrator. |
| `FileTree` | Common-prefix stripping, trie building and chain collapsing. |
| `Sse`, `PktLine`, `Text`, `Batching`, `Counting`, `Wrappers` | The incremental server-sent-events decoder (WHATWG HTML, sections 9.2.5 and 9.2.6), Git's pkt-line and ref advertisement ("pkt-line Format" in gitprotocol-common), and small helpers. |

Code that mutates in place is modelled by classes and methods proved against
specification functions; the theorems are lemmas about those functions. The two
protocols are state machines whose events are single-document writes; a run is any list
of events, so every interleaving and every crash point is covered. The server of the
chunked insert, the row order of unsorted queries, the version order and the locale's
string order are parameters about which only what the code needs is supposed.

Where the code and its comments disagree, the model follows the code:

* backend/app/repos/service.py:735-740 says a creator's link cannot collide. It can: the
  same user may join the row between its insertion and the link (`RepoCount.CreatorCanCollide`).
  It does exactly when that join has written its link and no delete has removed it
  (`RepoCount.CreatorCollidesExactly`). The slot then leaks, which keeps the count on the
  safe side.
* `delete_repo` counts down without looking at what the delete removed. The count stays
  right exactly as long as no link is deleted twice (`RepoCount.CountedExactly`,
  `RepoCount.DeletedTwice`).
* A terminal run status is not final: a dispatch that failed after the worker took the run
  overwrites what the worker wrote (`RunProtocol.CompletedOverwritten`). What changes a
  terminal status, and from when on it is final, is stated exactly
  (`RunProtocol.TerminalChangesExactly`, `RunProtocol.TerminalIsFinalExactly`).
* Selecting any answer of a thread is allowed; the active messages stay one branch exactly
  when the answer's question was active (`ChatTree.SelectKeepsExactly`,
  `ChatTree.SelectedOffBranch`).
* A nested block or try takes only the first node of its entry frontier, so the graph misses
  executions exactly when one of them comes from another node, or a switch without default
  leaves a case open (`CfgNecessity.SimulatesExactlyWhenClean`).
* A `finally` after a `try` that always returns is cut off from ENTRY although the language
  allows it, unless its node heads the frontier of a branch or loop body
  (`CfgShape.EveryNodeReachedExactly`, `CfgShape.FinallyIsCutOff`,
  `CfgShape.EmptyFinallyIsReached`).
* The chat client splits a text at blank lines after normalising each chunk on its own, so
  a chunk boundary between CR and LF changes what is decoded, and no other does
  (`Sse.ChunksDecodeExactly`).
* Keys keep a field apart from a local of its name only where both are known. A use in the
  body goes by the field's key first, so after `this.x = 1; int x;` a use of `x` is joined to
  the field (`DfgTheorems.LocalIsTakenForField`); and where the field was not written,
  `String name = this.name;` is joined to itself, in a cycle
  (`DfgTheorems.FieldCopyIsCyclic`).
* worker/app/pipeline/service.py:184-192 says nothing is persisted for a skipped file. When
  an exception escapes after the file document was stored, the result still counts the file
  as not persisted (`PipelineStats.ComputeFileRepresentations`).
* worker/app/pipeline/orchestrators.py:182-190 fails a run that "persisted none" of its file
  documents. It also fails runs that persisted some: exactly those in which none was
  catalogued and no file whose document was written was processed to the end
  (`PipelineStats.GateTellsExactly`, `PipelineStats.StoredButFailed`).

## Model

| member | source | states |
|---|---|---|
| `Cfg.BuildMethodCfg` | worker/app/graphs/service/cfg_builder/java.py:132-171 | The mutating builder ends with dense node ids in source order and exactly the edges the translation function gives. |
| `Cfg.Builder.AddNode` | worker/app/graphs/service/cfg_builder/java.py:173-207 | Ids are handed out consecutively; the node map stays exactly the ids below the counter. |
| `Cfg.Builder.Connect` | worker/app/graphs/service/cfg_builder/java.py:436-437 | Adds one edge from every frontier node to the new node and no other. |
| `Cfg.Builder.ProcessBlock` | worker/app/graphs/service/cfg_builder/java.py:309-340 | Threads the frontier through a list of statements: nodes, edges and last frontier are those of the list. |
| `Cfg.Builder.ProcessStatement` | worker/app/graphs/service/cfg_builder/java.py:342-400 | Dispatch on the statement kind; a nested block is entered from the first frontier node only. |
| `Cfg.Builder.ProcessIf` | worker/app/graphs/service/cfg_builder/java.py:402-453 | Branch node, both arms entered from it, the extra edges to the heads of the arms' frontiers, and the joint frontier. |
| `Cfg.Builder.ProcessLoop` | worker/app/graphs/service/cfg_builder/java.py:455-546 | Condition node, body, back edges and the extra edge, leaving only the condition open (while and for alike). |
| `Cfg.Builder.ProcessTry` | worker/app/graphs/service/cfg_builder/java.py:548-623 | Block, catches from the entry frontier, and a finally node fed by everything left open. |
| `Cfg.Builder.ProcessSwitch` | worker/app/graphs/service/cfg_builder/java.py:625-688 | Switch node with one edge per case, bodies without fall-through, and the union of their frontiers or the switch itself. |
| `CfgSimulation.MethodSimulates` | worker/app/graphs/service/cfg_builder/java.py:309-738 | Every structured execution of a clean method (any branches, any number of iterations, early returns) is a walk from ENTRY to EXIT; unreachable code and switches that always return included. |
| `CfgSimulation.EndsThere` | worker/app/graphs/service/cfg_builder/java.py:309-738 | An execution that runs past a statement does so at one of the statement's ends. |
| `CfgSimulation.TraceInRange` | worker/app/graphs/service/cfg_builder/java.py:309-738 | An execution visits only nodes the statement itself owns. |
| `CfgKinds.MethodBranches` | worker/app/graphs/service/cfg_builder/java.py:132-171 | An execution meets one branch node for each choice it makes, and no other branch node. |
| `CfgNecessity.SimulatesExactlyWhenClean` | worker/app/graphs/service/cfg_builder/java.py:391-399 | Exactness for legal code without try: all executions are walks if and only if executions come to every nested block at the node it is entered from, and every switch without default leaves no case open. |
| `CfgNecessity.RunTo` | worker/app/graphs/service/cfg_builder/java.py:309-738 | Conversely each of a statement's ends is where some execution runs past it, whatever the statement. |
| `CfgNecessity.BlockAfterIfIsDropped` | worker/app/graphs/service/cfg_builder/java.py:391-399 | Concrete method whose false branch is not a path: a block after an if without else is entered from one node only. |
| `CfgNecessity.ReturningSwitchIsClean` | worker/app/graphs/service/cfg_builder/java.py:391-399 | Concrete method whose block follows two open nodes and which is clean all the same, because executions come from one of them alone. |
| `CfgFrontier.StmtShaped` | worker/app/graphs/service/cfg_builder/java.py:342-738 | Edges start at the entry or inside and end inside or at EXIT; a statement leaves a frontier exactly when it is open, with try included, in code where nothing follows a statement that leaves nothing open. |
| `CfgFrontier.LegalIsOrdered` | worker/app/graphs/service/cfg_builder/java.py:309-340 | Code in which nothing follows a statement that cannot complete, as the language demands, is such code. |
| `CfgReach.EntryReaches` | worker/app/graphs/service/cfg_builder/java.py:342-738 | A set of nodes that holds the entry frontier and is closed under edges holds every node of a statement whose `finally` nodes are all entered. |
| `CfgReach.CutOff` | worker/app/graphs/service/cfg_builder/java.py:608-623 | A `finally` that is not entered has no edge to its node, whatever the graph around it adds to frontiers. |
| `CfgExits.StmtLeads` | worker/app/graphs/service/cfg_builder/java.py:309-738 | A set that holds EXIT, what leads into it and the part of the frontier the code goes on from holds every node of the statement. |
| `CfgExits.StmtTraps` | worker/app/graphs/service/cfg_builder/java.py:391-399 | Otherwise some of the statement's nodes form a set that nothing leads out of: what a nested block or try did not take over. |
| `CfgExits.ReturnsExit` | worker/app/graphs/service/cfg_builder/java.py:690-722 | A statement has an edge to EXIT if and only if it holds a return. |
| `CfgShape.LeadsOut` | worker/app/graphs/service/cfg_builder/java.py:342-738 | Every node leads to the frontier or to EXIT when blocks are entered from one node. |
| `CfgShape.MethodShape` | worker/app/graphs/service/cfg_builder/java.py:132-171 | ENTRY has no predecessor, EXIT no successor, edges join existing nodes; when every node is reached from ENTRY, or every node leads to EXIT, the graph is one weak component with at least nodes - 1 edges. |
| `CfgShape.EveryNodeReachedExactly` | worker/app/graphs/service/cfg_builder/java.py:132-171 | Every node is reached from ENTRY if and only if every `finally` is entered: something before it is left open, or its node heads the frontier of a branch or loop body. |
| `CfgShape.EveryNodeOnAWalkExactly` | worker/app/graphs/service/cfg_builder/java.py:132-171 | Every node lies on a walk from ENTRY to EXIT if and only if, besides, nothing a nested block or try fails to take over is left without a way on. |
| `CfgShape.ElseIsStranded` | worker/app/graphs/service/cfg_builder/java.py:391-399 | Concrete legal method in which a block after if and else takes over one arm only, and the other does not lead to EXIT. |
| `CfgShape.OneEntryLeadsOut` | worker/app/graphs/service/cfg_builder/java.py:391-399 | When nested blocks and tries are entered from one node, every node leads to EXIT. |
| `CfgShape.ClampNeverFires` | worker/app/graphs/service/cfg_builder/java.py:148-152 | For every graph with a node, edges - nodes + 2 * components is at least 1, so the complexity is never clamped. |
| `CfgShape.FinallyIsCutOff` | worker/app/graphs/service/cfg_builder/java.py:608-621 | Concrete legal method whose finally, after an all-returning try, has no predecessor. |
| `CfgShape.EmptyFinallyIsReached` | worker/app/graphs/service/cfg_builder/java.py:442-443 | Concrete legal method whose finally after an all-returning try is reached all the same, over the extra edge of the branch around it. |
| `ChatTree.Thread.Append` | backend/app/chat/service.py:226-290 | An ordinary turn continues the active leaf: the branch grows by one question and one answer and stays the only active path. |
| `ChatTree.Thread.Regenerate` | backend/app/chat/service.py:485-513 | After a regeneration the active messages are the branch cut at the turn with the new answer in place; unknown and inactive targets are refused unchanged. |
| `ChatTree.Thread.SelectVariant` | backend/app/chat/service.py:931-978 | The two overlapping range updates leave exactly the selected set active; one path again when the answer's question was active. |
| `ChatTree.Thread.KeepBranch` | backend/app/chat/service.py:945-968 | The downward walk terminates and collects the question, the answer and the follow-ups of its branch. |
| `ChatTree.LeafIsTip` | backend/app/chat/service.py:81-102 | The newest active answer is the leaf of the active branch, so the next turn extends it. |
| `ChatTree.RegenerateKeeps` | backend/app/chat/service.py:485-513 | One id-range update keeps the active set exactly one root-to-leaf path. |
| `ChatTree.WalkCompletes` | backend/app/chat/service.py:956-968 | Walking down from any path completes it to a root-to-leaf path. |
| `ChatTree.SelectKeeps` | backend/app/chat/service.py:931-978 | Selecting an answer whose question is active leaves one root-to-leaf path active. |
| `ChatTree.SelectKeepsExactly` | backend/app/chat/service.py:931-978 | Exactness: the active messages are one root-to-leaf path after a selection if and only if the answer's question was active. |
| `ChatTree.SelectedOffBranch` | backend/app/chat/service.py:931-978 | Concrete thread, reached by two turns and a regeneration, in which selecting an answer of the hidden branch leaves no path active. |
| `ChatRoundTrip.ReselectChangesNothing` | backend/app/chat/service.py:956-978 | Selecting an already active answer changes no flag. |
| `ChatRoundTrip.RestoresExactly` | backend/app/chat/service.py:956-978 | Coming back to a left answer restores exactly the old active set if and only if every follow-up is still the newest of its group and nothing was added after the leaf. |
| `ChatRoundTrip.RegenerateRoundTrip` | backend/app/chat/service.py:485-513 | Regenerating and selecting the old answer again restores the branch if and only if its follow-ups were the newest of their groups. |
| `ChatRoundTrip.ComesBackElsewhere` | backend/app/chat/service.py:963-965 | Concrete thread whose older follow-up is on the branch: regenerating the first answer and selecting it again does not restore the branch. |
| `ChatRoundTrip.SamePrefix` | backend/app/chat/service.py:226-290 | Two paths through one question agree up to it. |
| `ChatPaging.GetThreadMessages` | backend/app/chat/service.py:755-786 | One page is the last `limit` active messages below the cursor; the next cursor is its first message exactly when older ones remain; a foreign cursor is refused; metadata may be skipped without variants. |
| `ChatPaging.ReadAll` | backend/app/chat/service.py:755-786 | Following next_cursor terminates and the pages concatenate to exactly the active messages in id order, for every limit of at least 1. |
| `ChatPaging.PageCompletes` | backend/app/chat/service.py:755-786 | A full page and everything older than its first message make up the list. |
| `ChatPaging.Annotate` | backend/app/chat/service.py:105-143 | Whatever order the rows come in, the metadata is that of every answer to a question on the page. |
| `ChatPaging.PagersExactly` | backend/app/chat/service.py:105-143 | An answer gets a pager exactly when its question has another answer and one of its answers is on the page. |
| `ChatPaging.GroupPositions` | backend/app/chat/service.py:549-576 | Numbering a group in any row order gives each answer its rank by id; a single answer gets no pager. |
| `ChatPaging.NothingToAnnotate` | backend/app/chat/service.py:778-782 | Without variants there is nothing to annotate, so skipping loses nothing. |
| `ChatPaging.Neighbours` | backend/app/chat/service.py:549-576 | prev and next are mutually inverse and numbered consecutively from 1 to count. |
| `ChatPaging.StablePositions` | backend/app/chat/service.py:549-576 | Adding a message changes no existing index and no way back. |
| `ChatPaging.RegeneratedIsLast` | backend/app/chat/service.py:515-530 | A regenerated answer is the last of at least two, so the fallback position is never used. |
| `RepoCount.RunDrift` | backend/app/repos/service.py:63-86 | Conservation in every interleaving with crashes: user_count is live links plus held slots minus the stale deletes performed. |
| `RepoCount.CountedExactly` | backend/app/repos/service.py:1103-1106 | Every slot is accounted for if and only if no delete counted down for a link already gone. |
| `RepoCount.EverySlotAccounted` | backend/app/repos/service.py:37-86 | When no link is deleted by two requests, user_count is always live links + in-flight claims + in-flight releases + leaks. |
| `RepoCount.OneDeleteIsNeverStale` | backend/app/repos/service.py:1090-1106 | One delete request per link means no stale delete, over whole runs. |
| `RepoCount.LeakedBecause` | backend/app/repos/service.py:63-86 | Every leaked slot was left by a crash of a request holding it, or by a creator's colliding link. |
| `RepoCount.QuietRunBalances` | backend/app/repos/service.py:63-86 | When all requests have stopped, without such a leak and without a stale delete, user_count is exactly the live links. |
| `RepoCount.RequestsProceed` | backend/app/repos/service.py:63-86 | A request left alone comes to its end in at most two writes and disturbs no other. |
| `RepoCount.JoinCounts` | backend/app/repos/service.py:63-86 | A first join adds one slot and one link. |
| `RepoCount.JoinTwiceIsUndone` | backend/app/repos/service.py:73-84 | Joining a repository one already lists changes nothing in the end. |
| `RepoCount.DeleteCounts` | backend/app/repos/service.py:1090-1106 | Deleting a live link gives back its slot. |
| `RepoCount.CreateCounts` | backend/app/repos/service.py:755-765 | A creation ends with a row of one holder, linked. |
| `RepoCount.AdmitsExactly` | backend/app/repos/models.py:39-53 | A creation is refused exactly when a counted row has the key, a join exactly when the row is not counted. |
| `RepoCount.RunConsistent` | backend/app/repos/models.py:39-53 | At most one counted row per key and one link per user and row, in every interleaving. |
| `RepoCount.NeverRevived` | backend/app/repos/service.py:63-72 | A repository that reached 0 never counts again, however the run goes on. |
| `RepoCount.ZeroIsUnreferenced` | backend/app/repos/service.py:37-60 | The count is at least the live links; at 0 nobody lists the repository and no request is about to. |
| `RepoCount.LinkedIsLive` | backend/app/repos/service.py:43-50 | A listed repository is seen by deduplication and by its unique key. |
| `RepoCount.DeletedTwice` | backend/app/repos/service.py:1103-1106 | Two concurrent deletes of one link take a repository another user lists to 0. |
| `RepoCount.CreatorCanCollide` | backend/app/repos/service.py:755-765 | The creator's own link insert can collide with the same user's join, leaking the creator's slot. |
| `RepoCount.CreatorCollidesExactly` | backend/app/repos/service.py:755-765 | In every run a creator's link collides if and only if the same user's own join has written its link and no delete has removed it; without such a join it never does. |
| `RunProtocol.EveryRunIsConsistent` | backend/app/repos/service.py:89-113 | In every interleaving with crashes and any worker write: one non-terminal run per repository, each run dispatched at most once and only by its inserter, every retried run has a strictly newer one. |
| `RunProtocol.StepOneInFlight` | backend/app/pipeline/models.py:53-61 | Each step keeps at most one non-terminal run per repository. |
| `RunProtocol.StepDispatched` | backend/app/pipeline/service.py:281-285 | Each step keeps every run dispatched at most once, by its inserter. |
| `RunProtocol.StepRetried` | backend/app/repos/service.py:703-719 | Each step keeps a strictly newer run beside every run stamped retried_at. |
| `RunProtocol.StepSound` | backend/app/repos/service.py:669-719 | A request between two writes still owns the run it inserted and nobody else has sent it. |
| `RunProtocol.StepExtends` | backend/app/repos/service.py:669-719 | No run changes repository or owner, and a first retried_at stamp is never overwritten. |
| `RunProtocol.JoinClaimsExactly` | backend/app/repos/service.py:409-418 | A join goes on to claim a run exactly when the newest run failed. |
| `RunProtocol.RelaunchClaimsExactly` | backend/app/repos/service.py:511-523 | A relaunch does exactly when there is no run or the newest one failed. |
| `RunProtocol.RetryRunsThrough` | backend/app/repos/service.py:701-719 | A retry left to itself ends with one more run, PENDING and sent once by it, and its predecessor stamped unless it was stamped before. |
| `RunProtocol.FirstRunGoesOut` | backend/app/repos/service.py:509-518 | The same without a predecessor; a worker that is not reached leaves the run FAILED. |
| `RunProtocol.WorkerWritesExactly` | worker/app/pipeline/service.py:386-391 | A worker write takes effect unless it is in flight and another run of the repository is. |
| `RunProtocol.ProbesInFlight` | backend/app/pipeline/service.py:184-202 | Reconciliation probes runs in flight only and remembers the status it saw. |
| `RunProtocol.SettleSparesTerminalRuns` | backend/app/pipeline/service.py:224-241 | Reconciliation changes at most one run, only from the in-flight status it observed, and only to FAILED. |
| `RunProtocol.TerminalChangesExactly` | backend/app/pipeline/service.py:324-347 | A terminal status changes in one step if and only if the worker writes another status the index admits, or a request that could not reach the worker marks a completed run failed. |
| `RunProtocol.TerminalIsFinalExactly` | backend/app/pipeline/service.py:324-347 | Once the worker is done with a run, its terminal status is final in every continuation if and only if it is FAILED or no request is still launching the run. |
| `RunProtocol.LateStatusSurvives` | backend/app/pipeline/service.py:224-241 | A status written between probe and settlement survives. |
| `RunProtocol.SettlingFreesTheClaim` | backend/app/pipeline/service.py:181-243 | After a settlement a waiting claim succeeds and owns the new run. |
| `RunProtocol.ClaimIsExclusive` | backend/app/repos/service.py:89-113 | A claim succeeds exactly when no run is in flight, and no second claim then does. |
| `RunProtocol.CompletedOverwritten` | backend/app/pipeline/service.py:324-347 | A dispatch that timed out can overwrite COMPLETED with FAILED: terminal is not final. |
| `Relaunch.FindLive` | backend/app/repos/service.py:216-259 | The floor lookup finds a live row of the source at that version, or there is none. |
| `Relaunch.FindLiveByKey` | backend/app/repos/service.py:262-285 | The key lookup finds the live owner of the unique key, or there is none. |
| `Relaunch.Store.AcquireRepoLink` | backend/app/repos/service.py:37-86 | A refused join leaves rows and links unchanged; a granted one adds one slot and one link. |
| `Relaunch.Store.JoinAnalysis` | backend/app/repos/service.py:366-418 | Joining adds at most one link and slot and always answers for the row joined; a failed analysis is restarted and any other run left alone. |
| `Relaunch.Store.StartNewAnalysis` | backend/app/repos/service.py:722-770 | A key collision changes nothing; otherwise a row, its link and its run appear together. |
| `Relaunch.Store.RelaunchAtNewVersion` | backend/app/repos/service.py:537-626 | The caller lands on the floor row, else the key owner, else a new row, never a lost race without a winner; a new row gets its one run, sent by this call. |
| `Relaunch.Store.RelaunchAtCurrentVersion` | backend/app/repos/service.py:472-534 | Refused exactly when the latest run exists and has not failed. Otherwise, with none in flight, one more run, the newest, is inserted and sent once by this call, PENDING or FAILED as the worker was reached, and a failed predecessor carries a stamp; with one in flight nothing is written. "Pending" means that a run is in flight. |
| `Relaunch.Store.RelaunchRepo` | backend/app/repos/service.py:932-995 | Without access to the remote, or without the worker's version, nothing is written; then a dead run is settled, the landed row differs from the caller's exactly when the row was stale, 409 comes exactly when the landing row is already held or, at the current version, the settled latest run has not failed, and otherwise the runs are those of the repair or of the row landed on. |
| `Relaunch.DeadRunIsRepaired` | backend/app/repos/service.py:932-995 | A latest run that is in flight but confirmed dead does not lead to a refusal: once settled it counts as failed and its claim is free. |
| `Relaunch.PendingIsInFlight` | backend/app/repos/service.py:472-534 | After a repair, the answer "pending" means that a run of the repository is in flight. |
| `Relaunch.StaleExactly` | backend/app/repos/service.py:443-469 | A row is stale exactly when the worker is newer than every version it names. |
| `Relaunch.FindsOutput` | backend/app/repos/service.py:216-259 | The floor lookup answers with a live row of the source whose output is at the version, and with none exactly when there is none. |
| `Relaunch.PrefersGreatest` | backend/app/repos/service.py:240-259 | Among several it prefers the greatest version asked for. |
| `Relaunch.CollisionIsFound` | backend/app/repos/service.py:262-363 | An insertion collides if and only if the key lookup finds a winner. |
| `Relaunch.LandsElsewhere` | backend/app/repos/service.py:1324-1328 | Being stale rules out the caller's own row, by floor and by key. |
| `Relaunch.LandingSettles` | backend/app/repos/service.py:589-626 | After a relaunch, any holder of the source at that version lands on the same row. |
| `Relaunch.RelaunchTwice` | backend/app/repos/service.py:589-626 | Repeating a relaunch of a stale repository answers 409 and changes no row, link or count. |
| `Relaunch.RelaunchAfterStamp` | backend/app/repos/service.py:338-363 | The same after the worker stamped the new row with another version, found then only by its key. |
| `Relaunch.HoldersConverge` | backend/app/repos/service.py:288-335 | Two holders of one source end on one row, counted for both. |
| `Dfg.BuildMethodDfg` | worker/app/graphs/service/dfg_builder/java.py:445-522 | The mutating builder produces exactly the graph of the flattened method, whose content `DfgSource` states. |
| `Dfg.Builder.AddNode` | worker/app/graphs/service/dfg_builder/java.py:172-238 | Both caches stay equal to a backward scan over the definitions and writes. |
| `Dfg.Builder.ConnectDefToUse` | worker/app/graphs/service/dfg_builder/java.py:317-345 | The cached lookup adds the edge a backward scan by key, then by name, would add. |
| `Dfg.Builder.AnalyzeLocalVarDecl` | worker/app/graphs/service/dfg_builder/java.py:590-627 | Definition first, then each use of the initialiser with its def-use and init edges. |
| `Dfg.Builder.AnalyzeAssignment` | worker/app/graphs/service/dfg_builder/java.py:645-660 | Uses of the right side, then writes, with a flow edge from each use to each write. |
| `Dfg.Builder.AnalyzeExpression` | worker/app/graphs/service/dfg_builder/java.py:629-684 | Only assignments, calls, binary operations and calls on this are analysed. |
| `Dfg.Builder.AnalyzeStatement` | worker/app/graphs/service/dfg_builder/java.py:540-588 | Statements in source order; other kinds add nothing. |
| `DfgTheorems.UsesResolve` | worker/app/graphs/service/dfg_builder/java.py:317-345 | Every use has exactly the def-use edge its lookup gives, from the newest definition if and only if no local of a field's name was declared since that field's last write. |
| `DfgTheorems.LocalIsTakenForField` | worker/app/graphs/service/dfg_builder/java.py:331-345 | Concrete method whose use of a local is joined to the earlier write of the field of that name, not to the newest definition. |
| `DfgTheorems.NewestExactly` | worker/app/graphs/service/dfg_builder/java.py:331-345 | Lookup by key first equals the newest definition by name exactly when the variable is not shadowed. |
| `DfgTheorems.UsesComeFromNewest` | worker/app/graphs/service/dfg_builder/java.py:317-345 | Where no parameter or local shares a field's name, a use has an edge if and only if an earlier definition exists, from the greatest such id. |
| `DfgTheorems.AssignmentFlows` | worker/app/graphs/service/dfg_builder/java.py:645-660 | Into each write of an assignment lead flow edges from all its right-hand uses and from nothing else, where it is added. |
| `DfgTheorems.DeclarationFlows` | worker/app/graphs/service/dfg_builder/java.py:619-627 | Into a declared variable lead init edges from all uses of its initialiser and from nothing else, where it is added. |
| `DfgTheorems.WritesTakeTheirUses` | worker/app/graphs/service/dfg_builder/java.py:645-660 | In the finished graph of every method, each written node belongs to an assignment, and the edges into it are exactly flow edges from the uses of that assignment's right side. |
| `DfgTheorems.DefinitionsTakeTheirInits` | worker/app/graphs/service/dfg_builder/java.py:590-627 | In the finished graph, each definition in the body belongs to a declaration, and the edges into it are exactly init edges from the uses of its initialiser. |
| `DfgTheorems.ParametersTakeNothing` | worker/app/graphs/service/dfg_builder/java.py:445-522 | In the finished graph no edge leads into a parameter. |
| `DfgSource.VarsAreListed` | worker/app/graphs/service/dfg_builder/java.py:686-756 | The names extracted from an expression are those that stand at analysed positions under it, in source order. |
| `DfgSource.NamesThisExactly` | worker/app/graphs/service/dfg_builder/java.py:706-710 | A qualifier names this when the four letters stand in it, in either case. |
| `DfgSource.MethodOpsAreSites` | worker/app/graphs/service/dfg_builder/java.py:524-588 | What is analysed are the declarators, assignments and reads that stand in the body, in source order. |
| `DfgSource.DeclaratorsAreDrawn` | worker/app/graphs/service/dfg_builder/java.py:590-627 | Every declarator anywhere in the body has its definition, and into it lead init edges from a use of each name in its initialiser and from nothing else. |
| `DfgSource.AssignmentsAreDrawn` | worker/app/graphs/service/dfg_builder/java.py:645-660 | Every name on the left of an assignment anywhere in the body has its write, and into it lead flow edges from a use of each name on the right and from nothing else. |
| `DfgSource.ReadsAreDrawn` | worker/app/graphs/service/dfg_builder/java.py:540-588 | Every name read by an initialiser, a right side, a condition, an operand, an argument or a return has a use. |
| `DfgSource.NothingElseIsDrawn` | worker/app/graphs/service/dfg_builder/java.py:445-522 | Every node but the parameters is one that a declarator, assignment or read in the body calls for. |
| `DfgSource.ParametersAreDrawn` | worker/app/graphs/service/dfg_builder/java.py:445-522 | The parameters come first, in order, as definitions under keys of their own. |
| `DfgTheorems.AcyclicExactly` | worker/app/graphs/service/dfg_builder/java.py:590-680 | The graph has a topological rank if and only if no declarator's initialiser uses its own variable (earlier field writes under that name apart). |
| `DfgTheorems.FieldCopyIsCyclic` | worker/app/graphs/service/dfg_builder/java.py:590-627 | Concrete method, a local initialised from the field of its name, whose graph has no topological rank. |
| `DfgTheorems.AcyclicUnshared` | worker/app/graphs/service/dfg_builder/java.py:590-680 | Without shared names: acyclic if and only if no initialiser names its own variable. |
| `Glob.GlobToRegex` | backend/app/chat/tools.py:44-75 | The emitted text parses back to the intended items, anchored at both ends, and accepts exactly the one-line paths the glob matches. |
| `Glob.ParseEmitted` | backend/app/chat/tools.py:56-74 | Every metacharacter is escaped: what is emitted reads as nothing else. |
| `Glob.CompilationIsFaithful` | backend/app/chat/tools.py:44-75 | For every pattern and one-line path, the compiled expression accepts it if and only if the glob matches. |
| `Glob.MatchesAtItsDepth` | backend/app/chat/tools.py:61-66 | A pattern without a double star matches at its own depth only: neither * nor ? crosses a slash. |
| `Glob.MatchesAtAnyDepth` | backend/app/chat/tools.py:56-60 | A leading **/ reaches the rest of the pattern at any depth, the top included. |
| `Glob.MatchesBeneath` | backend/app/chat/tools.py:278-279 | If an ancestor directory matches P, the path matches P + "/**", absorbed slash included. |
| `Glob.MatchingDirsAre` | backend/app/chat/tools.py:297-306 | A directory is listed if and only if it lies above a path of the catalogue and matches the pattern. |
| `Glob.MatchingFilesAre` | backend/app/chat/tools.py:289-297 | A file is listed as often as it is catalogued if it matches, and not at all otherwise. |
| `Glob.ListsBelow` | backend/app/chat/tools.py:262-279 | Asked for a plain directory, the pattern matches exactly what lies below it and matches the rest. |
| `Glob.SpecialIsEscaped` | backend/app/chat/tools.py:68-70 | Every character that is special in a regular expression is escaped, the two wildcards apart. |
| `Glob.PrefilterLosesNothing` | backend/app/chat/tools.py:278-306 | Prefilter then collect equals collecting over the whole catalogue. |
| `Glob.RecursiveListing` | backend/app/chat/tools.py:276-343 | One page of the matching directories in order, each once, followed by the matching files in order, of the whole catalogue. |
| `Glob.PagesShowAll` | backend/app/chat/tools.py:338-343 | Page after page shows every entry once, in order, for every page size of at least 1. |
| `Glob.ListingIsUnique` | backend/app/chat/tools.py:306-306 | The listing does not depend on the order the database answers in, so pages of separate calls fit together. |
| `Text.LessExactly` | backend/app/chat/tools.py:306-306 | The order of entries: a text comes before another where they first differ, or as its beginning. |
| `InsertRetry.SortErrors` | worker/app/core/database.py:222-243 | One chunk's tallies, retried documents in error order and permanent codes. |
| `InsertRetry.SortingConserves` | worker/app/core/database.py:222-243 | Each document of a chunk is stored, retried or refused, exactly once. |
| `InsertRetry.LandedIsStored` | worker/app/core/database.py:222-243 | Every document counted as succeeded has its key stored. |
| `InsertRetry.InsertRound` | worker/app/core/database.py:196-243 | One round sends the pending documents in consecutive chunks, keeps the books for every chunk size, and leaves pending what the answers throttled. |
| `InsertRetry.InsertMany` | worker/app/core/database.py:185-263 | Documents are sent round after round until none is pending or the budget is spent: what is sent, and what is given up, is that of the rounds; failed is the refusals plus what is pending then, and the codes are theirs. Against any server, succeeded + failed misses the number of documents by the excess of placed errors over distinct indices; against one whose errors are well indexed they are equal, succeeded keys are stored and nothing else is. |
| `InsertRetry.RetriedExactly` | worker/app/core/database.py:222-238 | Sent again is exactly what an error with a throttling code names within the chunk. |
| `InsertRetry.NothingGivenUp` | worker/app/core/database.py:192-257 | One round below the budget without throttling, and nothing is given up. |
| `InsertRetry.NothingFails` | worker/app/core/database.py:192-263 | With a budget of at least one round and no errors, nothing fails. |
| `InsertRetry.ThrottledOnce` | worker/app/core/database.py:192-263 | A document throttled once, with either code, is sent again and stored in the second round. |
| `InsertRetry.TallyExactly` | worker/app/core/database.py:222-243 | For arbitrary error lists, a chunk's count is right if and only if the placed errors are as many as the indices they name. |
| `InsertRetry.UnplacedIsLost` | worker/app/core/database.py:222-236 | A throttled error without an index loses its document from both totals. |
| `PipelineStats.PersistScopedGraphs` | worker/app/graphs/service/persistence.py:70-102 | Counts add up to the graphs given, the failed ones are those the insertion gave up or all when writing raised, and as many as counted are in the store; the sentinel -1 comes exactly for a failed build. |
| `PipelineStats.ComputeFileRepresentations` | worker/app/pipeline/service.py:210-293 | A completed file reports its graphs truthfully, with the failures of its own insertions, and never the sentinel; a file that cannot be stored reports a skip. What the collections then hold is what those insertions leave. |
| `PipelineStats.ProcessFileBatch` | worker/app/pipeline/activities.py:157-198 | One result per file, a skip for each exception, each counting the failures of its own file; as many graphs as the results count are in the collections afterwards. |
| `PipelineStats.PersistFileDocuments` | worker/app/pipeline/service.py:337-366 | The counts cover every catalogued path, failed is what the insertion gave up; as many of their documents as counted are in the store. |
| `PipelineStats.CatalogComplete` | worker/app/pipeline/service.py:337-366 | With a budget of at least one round and no errors, no catalogued document is counted as failed. |
| `PipelineStats.GraphsComplete` | worker/app/graphs/service/persistence.py:70-102 | And no graph of a file, unless its write raises. |
| `Batching.Batches` | worker/app/pipeline/orchestrators.py:100-132 | Batches concatenate back to the elements, none empty, all but the last full. |
| `PipelineStats.Partition` | worker/app/pipeline/orchestrators.py:86-97 | Each path goes to exactly one language group or to the rest, in order: to its language's group exactly when one is detected and, with languages targeted, targeted. |
| `PipelineStats.CountExtensions` | worker/app/pipeline/orchestrators.py:153-161 | Each extension's count is its number of files and the counts sum to all files. |
| `PipelineStats.StatsBalance` | worker/app/pipeline/orchestrators.py:163-190 | The statistics balance for every list of per-file results. |
| `PipelineStats.Analyze` | worker/app/pipeline/orchestrators.py:86-202 | End to end: files, AST, documentation, index, CFG and DFG totals are conserved, file_success is the catalogued documents plus the files processed to the end, as many catalogued documents and graphs as counted are in their collections at the end, and what is counted as failed is what the insertions gave up. The sentinel never reaches a sum, and the run fails exactly when files were found, none was catalogued and none was processed to the end. |
| `PipelineStats.GateTellsExactly` | worker/app/pipeline/orchestrators.py:182-190 | The gate fires whenever no file document was written; it fires although some were exactly when none was catalogued and none of the files whose document was written was processed to the end. |
| `PipelineStats.StoredButFailed` | worker/app/pipeline/orchestrators.py:182-190 | One file whose document is written but whose source cannot be read fails the run. |
| `FileTree.CommonLength` | frontend/src/app/features/analysis/graph-explorer/file-tree/file-tree.model.ts:22-33 | The longest shared directory prefix, file names apart; none for a single file. |
| `FileTree.InsertStores` | frontend/src/app/features/analysis/graph-explorer/file-tree/file-tree.model.ts:38-54 | Inserting a file adds it under its own path and moves nothing. |
| `FileTree.StaysFree` | frontend/src/app/features/analysis/graph-explorer/file-tree/file-tree.model.ts:38-54 | Inserting one path leaves room for every path that is no prefix or extension of it. |
| `FileTree.Collapse` | frontend/src/app/features/analysis/graph-explorer/file-tree/file-tree.model.ts:67-78 | Collapsing keeps every file's path and ends at a folder that does not hold one folder only. |
| `FileTree.MapToNodes` | frontend/src/app/features/analysis/graph-explorer/file-tree/file-tree.model.ts:58-104 | Nodes show exactly the map's files under the same paths, ids form one range, folders precede files, each sorted by name. |
| `FileTree.BuildFileTree` | frontend/src/app/features/analysis/graph-explorer/file-tree/file-tree.model.ts:12-107 | For segment-prefix-free paths: leaves are the files, names on the way down spell each path, the stripped prefix is the longest run of whole directories several paths share so that they never end in one folder, siblings share no first segment and a file's name is one segment, ids are unique, no folder's only child is a folder. |
| `Sse.NormalizePieces` | frontend/src/app/core/api/chat.service.ts:157-157 | Normalising in two pieces equals normalising at once, except that a cut between CR and LF adds exactly one line end. |
| `Sse.DrainMore` | frontend/src/app/core/api/chat.service.ts:159-169 | Taking events off early loses and changes nothing. |
| `Sse.ChunksDecodeExactly` | frontend/src/app/core/api/chat.service.ts:145-170 | Chunked decoding gives the blocks and the residual of the whole text if and only if no chunk boundary separates a CR from its LF. |
| `Sse.EachCutAddsALineEnd` | frontend/src/app/core/api/chat.service.ts:157-157 | Each such boundary adds exactly one line end to the decoded text. |
| `Sse.GlueDrained` | frontend/src/app/core/api/chat.service.ts:159-169 | Blocks and residual determine the text they were taken from. |
| `Sse.EmitEvent` | frontend/src/app/core/api/chat.service.ts:188-213 | One block yields the event its field lines describe, or none without data. |
| `Sse.LinesAreFields` | frontend/src/app/core/api/chat.service.ts:188-213 | Every line is a field up to its first colon, or one without a value: event names, data adds a line less one leading space, any other changes nothing. |
| `Sse.Pump` | frontend/src/app/core/api/chat.service.ts:145-170 | The loop emits the events of the normalised text and its buffer never holds a blank line. |
| `Sse.ChunkIndependence` | frontend/src/app/core/api/chat.service.ts:145-170 | Against a cutting that keeps CR LF together, another cutting of the same text gives the same blocks and residual if and only if it keeps them together too. |
| `Sse.DecodeSent` | frontend/src/app/core/api/chat.service.ts:148-213 | Encoding events and pings with LF, CRLF or CR and decoding returns exactly the events. |
| `Sse.StreamRoundTrip` | frontend/src/app/core/api/chat.service.ts:145-213 | The same through any chunking that keeps line ends whole. |
| `Sse.SeparatedLineEnd` | frontend/src/app/core/api/chat.service.ts:157-169 | A cut between CR and LF ends an event early. |
| `PktLine.IterPktLines` | backend/app/repos/git.py:84-108 | The loop yields the payloads up to the first packet that cannot be read. |
| `PktLine.DecodeEncoded` | backend/app/repos/git.py:84-108 | Encoded payloads with flush packets anywhere come back exactly, in order. |
| `PktLine.TruncatedIsPrefix` | backend/app/repos/git.py:94-107 | Decoding a truncated stream gives a prefix of decoding the whole. |
| `PktLine.StopsThere` | backend/app/repos/git.py:94-107 | After any encoded packets, decoding stops at a header cut off or not hexadecimal, at a length of 1 to 3 and at one beyond the data. |
| `PktLine.DigitsExactly` | backend/app/repos/git.py:97-99 | Exactly the hexadecimal digits are read, letters in either case. |
| `PktLine.ParseAdvertisedRefs` | backend/app/repos/git.py:136-172 | The loop absorbs one line after another into the ref map and the first HEAD symref. |
| `PktLine.ReadsRefLine` | backend/app/repos/git.py:150-163 | A line is a sha, a space, a name and newlines, and what follows a NUL are its capabilities. |
| `PktLine.SkipsLine` | backend/app/repos/git.py:151-162 | The service line, and a line without a space before its NUL, name no ref. |
| `PktLine.LaterRefWins` | backend/app/repos/git.py:163-171 | A later line for a ref wins; the first HEAD symref stays. |
| `PktLine.AdvertisementRoundTrip` | backend/app/repos/git.py:136-172 | Parsing a printed advertisement returns its ref map and default branch. |
| `PktLine.HeadAmong` | backend/app/repos/git.py:166-171 | With one HEAD symref among the capabilities its target is the default branch. |

## Left out

- CfgSimulation.MethodSimulates: inclusion of executions, not equality, because the builder adds extra edges from a branch node to the head of each arm's frontier; no claim is made that complexity equals decisions plus one.
- CfgNecessity.SimulatesExactlyWhenClean: methods with `try`, or with a statement after one that cannot complete, are outside its scope. That is the language's rule for code without `break`, `continue` and `throw`; a switch that completes only through a `break` counts as one that cannot complete, since `break` is a plain statement in the code.
- ChatTree.Thread.SelectVariant: promises one branch only when the answer's question was active; `ChatTree.SelectKeepsExactly` shows that this is exactly when it holds.
- FileTree.BuildFileTree: covers paths none of which is another or leads through another; for others the code would treat a stored file as a map.
- Glob.RecursiveListing: the alternation of the two compiled expressions is taken as the union of what they accept.
- PipelineStats.Analyze: an exception that escapes `persist_file_docs`, and the activity retries around it, are not modelled; the result of one successful run of each activity is.
- Relaunch.Store.RelaunchRepo: access to the remote, the worker's version and whether a run in flight is past its grace period and confirmed dead are parameters.
- Labels, statement text, source references, stmt keys and hashes: opaque; a git blob path is taken as injective in url and commit.
- `do`, `break`, `continue`, `throw` and synchronized statements: plain statements of the control-flow graph, as in the code; the data-flow graph ignores them and switches. An enhanced `for` has no test there, only a body.
- Exceptions swallowed by the analysers' `try` blocks, and lower-casing outside ASCII in the "this" test.
- The `input` checkpoint and prompt look-ups that resolve an entry point (409 answers), checkpointer internals and `_prepare_safe_stream`: a turn continues the active leaf.
- A chat turn is stored atomically and operations on one thread are sequential; message and checkpoint ids are fresh and increasing.
- The `resume_chat_stream` path, streaming queues, titles and sources of answers.
- Repository garbage collection, recounting and thread or analysis deletion inside `delete_repo`.
- The grace period, the probe's verdict table and the meta written by reconciliation: any in-flight run may be probed and any probe may end in a settlement or in nothing.
- Retry sleep times and the concurrency semaphore of the chunked insert; exceptions other than bulk write errors.
- The in-place nested maps of the file tree: modelled as values, so aliasing between maps is not captured; folders' `fullPath` and file ids are omitted.
- The non-recursive directory listing, `fnmatch` and the text around a page.
- Mapping an SSE event onto a typed chat event, the byte-to-text decoder, and the `[DONE]` sentinel.
- Python's lenient `int(..., 16)` forms: a pkt-line length is four strict hexadecimal digits; names and object ids are kept as bytes, without UTF-8 decoding.
- HTTP, MongoDB, Blob and search calls, authentication, language and version caches, deep analysis, the AST parser and the user interface.
