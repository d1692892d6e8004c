# Verified models of the SecFusion agent's evaluation, delegation and evidence code

This project models, in Dafny, the parts of the repository whose correctness is not visible from one
function body, and proves what they are for. Each module stands for one concern:

| module | what it models |
|---|---|
| `RelationPaths`, `DecisionEvidence`, `GoldProvenance` | relation paths between Knowledge objects (bounded depth-first search and two-hop join), the paths a decision may claim, and fail-closed validation of frozen gold against cited evidence |
| `DecisionProjection`, `PinnedQuestion` | projecting decisions into benchmark form with and without the investigation state, and pinning a live question to one Knowledge revision |
| `ArtifactMigration` | moving artifacts from object storage to the filesystem under crashes, reruns and concurrent migrators |
| `Budgets`, `Delegation`, `DelegationSafety` | budget accounts with reservations and overruns, delegated child runs that replay idempotently, and WATCH wakes that copy budgets and envelopes |
| `ObservationPipeline`, `SandboxLifecycle`, `StepMerge` | route, invoke, commit and promote; the life of a sandbox; merging step results |
| `GeneratedBlocks`, `RenderedFiles` | splicing generated text between markers, and checking that nothing is stale |
| `CpeNames`, `CpeReaders`, `PercentCoding`, `GithubRecords`, `GithubSelections` | CPE 2.3 splitting (section 6.2 of NISTIR 7695), percent-coding (section 2.1 of RFC 3986), GitHub record URLs |
| `JsonTrees`, `NvdConfigurations`, `CsafProducts`, `CsafGold`, `CsafStatements` | walks over NVD configuration trees and CSAF product trees (sections 3.2.2 and 3.2.3.9 of CSAF 2.0) and the gold facts read from them |
| `ImportClosure`, `CaseSelection`, `RequestSpacing`, `IndexMatch` | import closure of a build manifest, quota-based selection, request spacing against a clock, ranked best match |
| `Ordering`, `Texts`, `KnowledgeStore` | orders, sorting and de-duplication; prefixes of texts; the Knowledge rows that are read |

The code that updates things step by step is modelled by methods and classes, each tied by its `ensures`
to a specification function or predicate; the lemmas are about those. Protocols are state machines whose
steps are the atomic transactions of the source, and their invariants are proved over every run. Hashes,
UUIDs, case folding, white space, policies and the printing of sentences are function parameters about
which nothing is assumed unless a lemma says so. Other processes, back ends and clocks answer arbitrarily,
within what the lemma or the class states about them.

## What turned out not to hold as one might expect

* A retried delegation raises once the parent's context was forked into a new context, or the child's own
  context was refreshed with further objects; `DelegationSafety.RetryExact` says exactly when it returns.
* When the end marker stands before the place of the write, or the begin marker after it, a first render succeeds
  and doubles that marker, and every later call raises (`GeneratedBlocks.MisorderedWriteBreaks`);
  `GeneratedBlocks.RenderThenCheckExact` is the exact condition for rendering and then checking to work.
* The two-hop join keeps paths that return to their first object, which the general search drops
  (`RelationPaths.JoinKeepsCycles`).
* The two CPE readers also differ on white space around a field: `CpeNames.ReadersAgreeExact` gives the exact
  condition on strings without backslash or percent sign.
* Canonical keys are unique only within one object type, so an absence check on a key that two objects share can
  depend on which row the query returns (`GoldProvenance.SharedKeyDecidesByChance`);
  `GoldProvenance.AbsencesDecidedExact` says exactly when the checks are forced to pass, forced to fail, or open.
* Absence, unlike presence, is not convex in the revision (`GoldProvenance.GapNotConvex`); it is exactly when no
  accepted claim came and went between the two revisions (`GoldProvenance.GapConvexExact`).
* Static routes fulfil no obligation, so a policy that states one for a promotion blocks it
  (`ObservationPipeline.ObligationsNeverMet`).
* Two sources can share an idempotency key exactly when one name continues the other after a colon
  (`ObservationPipeline.ShareTextExact`, `ObservationPipeline.KeysSeparateExact`).
* A commit that its provider reports beyond the reservation can pass a budget's limit (`Budgets.CommitMayOverrun`);
  over any history budgets stay within their limits throughout exactly when every commit consumes at most what it
  reserved and what remains (`DelegationSafety.HistoryBudgetsExact`). The other guarantees about delegation do not
  depend on it.
* The range check on citation indexes in both projections can never fire: an index outside the conclusions is
  not eligible and was skipped before (an assertion in `DecisionProjection.CheckCitations`).

## Model

| member | source | states |
|---|---|---|
| Ordering.StableUnique | apps/evaluation_runtime.py:1923-1931 | the loop returns the non-empty values, first occurrences in order |
| Ordering.NonEmptyInOrder | apps/evaluation_runtime.py:1923-1931 | what is kept are the non-empty values, in their order |
| Ordering.UniqueFirsts | apps/evaluation_runtime.py:1923-1931 | de-duplication keeps the first occurrence of every value, in order |
| Ordering.UniqueAssociates | apps/perception_execution.py:436-449 | order-preserving de-duplication may be done early or late, on either side |
| RelationPaths.BuildAdjacency | apps/evaluation_runtime.py:1719-1721 | the dictionary maps every source to its relations, in order |
| RelationPaths.Collector.Walk | apps/evaluation_runtime.py:1724-1737 | the recursive walk adds to the found set exactly the key sequences reached from its node through unvisited known objects within the hop limit |
| RelationPaths.SearchPaths | apps/evaluation_runtime.py:1717-1743 | above two hops: sorted, without duplicates, exactly the key sequences of simple directed paths of 2 to min(maximum_hops, 6) hops |
| RelationPaths.FromSourcesExact | apps/evaluation_runtime.py:1739-1743 | starting from every source misses no simple path and invents none |
| RelationPaths.JoinPaths | apps/evaluation_runtime.py:1745-1766 | the default branch: all joins of two consecutive edges with known ends, first occurrences in row order |
| RelationPaths.RelationPathsForRefs | apps/evaluation_runtime.py:1690-1766 | prefix filter, row and object selection, then the branch that the hop limit selects, over all references |
| RelationPaths.TwoHopSearchIsJoin | apps/evaluation_runtime.py:1717-1766 | with unique canonical keys the two-hop results of the search are exactly the join's paths whose three objects differ |
| RelationPaths.JoinKeepsCycles | apps/evaluation_runtime.py:1745-1766 | in any edge set, an edge and its way back form a join path; when canonical keys are unique the search never returns it |
| RelationPaths.PathsMonotone | apps/evaluation_runtime.py:1690-1766 | more edges and more known objects never lose a path |
| KnowledgeStore.SelectObjectsExact | apps/evaluation_runtime.py:1707-1717 | the objects looked up are exactly the stored ends of the selected relations |
| DecisionEvidence.UsedRelationRefs | apps/evaluation_runtime.py:1769-1826 | the references collected are exactly those of accepted, unsuperseded relations that a supported citation cites and its conclusion relies on |
| DecisionEvidence.UsesExact | apps/evaluation_runtime.py:1781-1826 | a citation uses a relation exactly when it is supported or a fact without verdict, its evidence is that live accepted relation or the link of one, and its conclusion names the relation or, being a fact, is the sentence that states it |
| DecisionEvidence.DecisionRelationPaths | apps/evaluation_runtime.py:1769-1828 | the decision's paths are exactly the simple paths of 2 to 6 hops over the relations it uses |
| DecisionEvidence.EveryHopSupported | apps/evaluation_runtime.py:1781-1828 | every hop of every decision path is an accepted, unsuperseded relation that a supported citation cites and its conclusion relies on |
| DecisionEvidence.RaisingVerdictAddsPaths | apps/evaluation_runtime.py:1781-1828 | turning a verdict true can only add decision paths |
| GoldProvenance.Gather | apps/evaluation_runtime.py:670-739 | the evidence loop gets through exactly when every reference resolves to rows visible at the pin from a declared source, and then has collected exactly their sentences, sources and relation references |
| GoldProvenance.CitationExact | apps/evaluation_runtime.py:670-739 | a reference resolves to a source and a sentence exactly when a visible link of its reference kind leads to a visible accepted claim or relation whose ends say that sentence |
| GoldProvenance.ValidatePositive | apps/evaluation_runtime.py:657-757 | returns normally exactly when sources match, every expected fact is rendered from a cited row and every required path is a path of cited relations |
| GoldProvenance.ValidateAbsences | apps/evaluation_runtime.py:758-784 | the loop ends as some choice of rows with the checked keys makes it end |
| GoldProvenance.AbsencesDecidedExact | apps/evaluation_runtime.py:758-784 | the checks can pass exactly when each has a row showing its gap, and can fail exactly when some check has a row without it or no row |
| GoldProvenance.GapExact | apps/evaluation_runtime.py:758-784 | a row shows the gap exactly when it has the checked key, existed by then, and no claim on it with the predicate was accepted and visible |
| GoldProvenance.Validate | apps/evaluation_runtime.py:646-784 | the whole validation: it needs the positive part, then ends as the absence checks may; exact when the rows of every checked key agree on the gap |
| GoldProvenance.PositiveBetween | apps/evaluation_runtime.py:1895-1908 | the positive part, valid at two revisions, is valid at every revision between them |
| GoldProvenance.GapConvexExact | apps/evaluation_runtime.py:758-784 | a gap at two revisions holds at all between exactly when no accepted claim on it was created after the first and superseded by the second |
| GoldProvenance.GapNotConvex | apps/evaluation_runtime.py:758-784 | a store in which a gap is seen at two revisions and not between them |
| GoldProvenance.SharedKeyDecidesByChance | apps/evaluation_runtime.py:758-784 | a store with a shared key in which the same check may pass and may fail |
| DecisionProjection.CheckCitations | apps/evaluation_runtime.py:961-994 | one check for every citation of a fact or inference, in order, decided by its verdict or else the fallback; the verdicts left over are exactly the stale ones; the range check never fires |
| DecisionProjection.ChecksExact | apps/evaluation_runtime.py:961-994 | the checks are those of the citations of facts and inferences, in the order of the citations, each judged by its verdict or else the fallback |
| DecisionProjection.FallbacksExact | apps/evaluation_runtime.py:1911-1920 | the fallback of a state asks for a confirmed item with that statement and that evidence; the other one for a fact |
| DecisionProjection.ProjectedInOrder | apps/evaluation_runtime.py:1001-1023 | stated facts and reasoning references are those of every conclusion but recommendations, in the order of the conclusions |
| DecisionProjection.ProjectFromState | apps/evaluation_runtime.py:940-1035 | the error order, exactly the stale verdict maps rejected, and the projected prediction with everything passed through |
| DecisionProjection.ProjectValidated | apps/evaluation_runtime.py:1467-1534 | the same without a state, facts supported by default |
| DecisionProjection.ValidatedSupportIsStateSupport | apps/evaluation_runtime.py:1486-1514 | both check the same citations; with every fact citation backed by confirmed state, validated support implies state support |
| DecisionProjection.ProjectionsAgreeExact | apps/evaluation_runtime.py:961-1001 | the checks are equal exactly when every citation without a verdict cites a fact just if confirmed state backs it |
| DecisionProjection.AgreeWithoutVerdicts | apps/evaluation_runtime.py:1911-1920 | with facts backed and no verdicts, they agree exactly when confirmed state backs nothing but facts |
| DecisionProjection.PathCitationsAreSupported | apps/evaluation_runtime.py:1781-1828 | a citation that lets a relation into a decision path is projected as supported |
| PinnedQuestion.World.Execute | apps/evaluation_runtime.py:1229-1284 | for every interleaving with writers that only raise the revision: a pinned question is answered exactly when the log shows the pin and nothing else in the contexts of its own runs behind the latest hundred model requests, the revision is the pin at both readings and answering does not raise; each other outcome exactly; and the revision was the pin at every moment between the two readings |
| PinnedQuestion.World.LoadTimeout | apps/evaluation_runtime.py:1404-1453 | a timed-out question is projected under a pin exactly when the log shows the pin and nothing else in the contexts of its own runs; then the revision was the pin ever since each of them was recorded |
| PinnedQuestion.PinnedContexts | apps/evaluation_runtime.py:1259-1264 | the recorded set equals the singleton of the pin exactly when a context names the pin and none names another revision |
| PinnedQuestion.ContextsArePinned | apps/evaluation_runtime.py:1250-1264 | at a constant revision the context check can only fail because no context names a revision or because of one recorded before the first reading |
| ArtifactMigration.ResolvesExact | packages/intelligence/storage/artifacts.py:56-126 | a row resolves exactly when its URI of object storage or of the filesystem leads to bytes with its hash |
| ArtifactMigration.NextSafe | scripts/migrate_artifact_store.py:37-84 | every step of any migrator, producer or restart keeps rows that resolve resolving, and moves rows only from object storage to the filesystem |
| ArtifactMigration.RunSafe | scripts/migrate_artifact_store.py:20-86 | the same over every run, with any crashes, reruns and concurrent migrators |
| ArtifactMigration.TargetUriHash | packages/intelligence/storage/artifacts.py:56-126 | equal target URIs mean equal content hashes |
| ArtifactMigration.Deployment.MigrateRow | scripts/migrate_artifact_store.py:44-84 | one pass of the loop body: the specified world and outcome, which `MigrationExact` decides over whole migrations |
| ArtifactMigration.Deployment.Migrate | scripts/migrate_artifact_store.py:37-86 | for distinct rows: it raises exactly when some row names no bucket, has bytes of another hash, or has a target file of another hash; otherwise every row of object storage whose object exists has its target URI and file, no other row changed, and each counter is the number of rows of its kind |
| ArtifactMigration.MigrationExact | scripts/migrate_artifact_store.py:37-86 | the same of the specified migration: when it raises, which rows move, which files are added, and every counter by itself |
| ArtifactMigration.IterationIsRun | scripts/migrate_artifact_store.py:44-84 | one iteration of the loop is a run of the step machine |
| ArtifactMigration.MigrationPreserves | scripts/migrate_artifact_store.py:37-86 | a whole undisturbed migration preserves every resolving row |
| ArtifactMigration.DryRunKeepsRows | scripts/migrate_artifact_store.py:37-84 | an undisturbed dry run changes no row |
| ArtifactMigration.DryRunsKeepRows | scripts/migrate_artifact_store.py:37-84 | beside any producers, and through crashes and restarts, any number of dry runs change no row |
| ArtifactMigration.CountersAddUp | scripts/migrate_artifact_store.py:37-86 | an undisturbed migration counts every selected row once: migrated, missing, already on target or of another scheme |
| ArtifactMigration.CountersAddUpDisturbed | scripts/migrate_artifact_store.py:37-86 | the same however others change the world between and during the iterations |
| ArtifactMigration.MigrateOnePossible | scripts/migrate_artifact_store.py:44-84 | an undisturbed iteration has one of the outcomes that sum assumes |
| ArtifactMigration.CompletedSettles | scripts/migrate_artifact_store.py:37-84 | a complete migration leaves every selected row migrated, missing or of another scheme |
| ArtifactMigration.RerunMigratesNothing | scripts/migrate_artifact_store.py:37-86 | after a complete undisturbed migration an undisturbed rerun migrates nothing and changes nothing |
| ArtifactMigration.SettledBesideOthers | scripts/migrate_artifact_store.py:37-84 | in any run of migrators and producers a settled row stays settled, unless a producer stores the object it was missing, and then the row is as it was |
| Delegation.Dimensions | apps/investigation_delegation.py:216-223 | the loop returns the sorted distinct dimensions, or raises on an unknown one |
| Delegation.DelegationAdapter.DelegateEnrichment | apps/investigation_delegation.py:58-214 | the transaction commits, for a first delegation, a child run with contract, context, budget account and envelope field by field, and nothing else, or leaves the store as it was |
| Delegation.FirstWrites | apps/investigation_delegation.py:89-205 | field by field what a first delegation leaves: the contract of the request, the context pinned to the child's budget, the account of the child taking from the parent's, the envelope naming that account, the policy's scopes and the parent's deadline and revision, and the run queued by one event |
| Delegation.FirstReturnsExact | apps/investigation_delegation.py:65-205 | a first delegation returns exactly when the parent may delegate, the target and the scopes are allowed, rows that stand already equal those it would write, and the budget can be reserved |
| Delegation.ReplayReturnsExact | apps/investigation_delegation.py:65-205 | a delegation whose child is stored returns exactly when the request is sound, the child is this parent's with the contract of the request and a context that differs in revision and world only, and account and envelope are those it would write |
| Delegation.AdmitExact | apps/watch_runtime.py:47-153 | each refusal of a wake, and its admission, exactly; an admitted wake has an account of its own with the previous limits and an envelope with the template's scopes |
| Delegation.UpdateContextExact | packages/task_runtime/storage/service.py:271-318 | a context update is taken exactly from a live run, for the same contract and role, as a later revision or as a fork of the current context, and then moves that run only |
| Delegation.TransitionExact | packages/task_runtime/storage/service.py:321-366 | which status may follow which, and that a transition changes that run only |
| DelegationSafety.FirstDelegation | apps/investigation_delegation.py:65-205 | a first delegation keeps the invariant, queues the child, and leaves its contract, context, account and envelope field by field |
| DelegationSafety.ReplayChangesNothing | apps/investigation_delegation.py:120-205 | a replay that returns changes nothing |
| DelegationSafety.ApplyAllSafe | apps/investigation_delegation.py:58-214 | every sequence of delegations, context updates, status moves, wakes, budget operations and rows added by other code only adds rows and keeps the invariant: complete children queued once, scopes within their origin |
| DelegationSafety.OneChildForever | apps/investigation_delegation.py:65-205 | after a first delegation, whatever follows, rows of other code included: one child, its first contract, pinned context and envelope, its account still its own and taking from the parent's, queued exactly once |
| DelegationSafety.EndedForever | packages/task_runtime/storage/service.py:271-348 | a run that has ended is never changed again, whatever follows |
| DelegationSafety.RetryExact | apps/investigation_delegation.py:65-158 | a retry returns exactly when parent and child contexts still allow it, and then changes nothing |
| DelegationSafety.ConflictingRetryRaises | apps/investigation_delegation.py:83-158 | a retry that asks for anything else raises and leaves the store unchanged |
| DelegationSafety.RetryAfterRefreshes | packages/task_runtime/context/service.py:160-200 | parent and child may move to later worlds independently, and the retry still returns the same child |
| DelegationSafety.ForkedParentConflicts | packages/task_runtime/storage/service.py:271-318 | after the parent's context is replaced by a forked one the retry raises |
| DelegationSafety.ChildObjectRefreshConflicts | apps/investigation_delegation.py:149-158 | so it does after a refresh adds an object to the child's context |
| DelegationSafety.AdmitStep | apps/watch_runtime.py:47-153 | an admitted wake was permitted with its obligations fulfilled at the right policy revision, adds the account and envelope of the wake field by field and changes no other row, and keeps the invariant |
| DelegationSafety.ScopesNeverGrowInHistory | apps/watch_runtime.py:106-145 | along any chain of delegations and wakes, in any history, capability and identity scopes never grow |
| Budgets.ReserveKeeps | packages/runtime/budget/service.py:112-188 | reserving never breaks a limit, keeps every account and keeps the ledger sound |
| Budgets.ReleaseKeeps | packages/runtime/budget/service.py:237-263 | releasing never breaks a limit, keeps every account and keeps the ledger sound |
| Budgets.CommitExact | packages/runtime/budget/service.py:190-235 | a commit keeps all limits exactly when it consumes of each resource at most its reservation plus what remains |
| Budgets.OrdinaryCommitFits | packages/runtime/budget/service.py:220-223 | a commit that may not overrun always consumes at most that |
| Budgets.CloseKeeps | packages/runtime/budget/service.py:265-292 | closing a child charges its parent what it committed, and never breaks a limit while all are kept |
| Budgets.CreateKeeps | packages/runtime/budget/service.py:51-110 | a new account, a child's reservation in its parent included, never breaks a limit |
| Budgets.ReserveExact | packages/runtime/budget/service.py:112-188 | a reservation succeeds exactly when it is positive and fits what remains, or repeats one of its group; a new one adds its amounts to what is used and touches nothing else |
| Budgets.CommitDoes | packages/runtime/budget/service.py:190-235 | a commit succeeds exactly for a reserved group within its amounts unless it may overrun, or as a repetition; what it consumed replaces what it had reserved |
| Budgets.ReleaseDoes | packages/runtime/budget/service.py:237-263 | a release succeeds exactly for a group not committed, and gives back what it had reserved |
| Budgets.CloseDoes | packages/runtime/budget/service.py:265-292 | closing a child raises what its parent has committed by exactly what the child committed, and changes no other account |
| Budgets.CreateDoes | packages/runtime/budget/service.py:51-110 | an account is opened exactly when an active parent has its limits left and can reserve them; the parent then holds a reservation of these limits for the child |
| Budgets.CommitMayOverrun | packages/runtime/model/service.py:373-379 | a ledger in which a commit reported by the provider passes a limit |
| DelegationSafety.ApplyBudgetsExact | packages/runtime/budget/service.py:51-292 | every event keeps the ledger sound, and keeps all budgets within their limits exactly when it is no commit, or one that raises, or one that fits its reservation and what remains |
| DelegationSafety.HistoryBudgetsExact | packages/runtime/budget/service.py:51-292 | over any history budgets stay within their limits throughout exactly when every commit fits when it happens |
| DelegationSafety.NoOverrunsNoExcess | packages/runtime/budget/service.py:190-235 | budgets stay within their limits throughout every history in which no commit may overrun its reservation |
| ObservationPipeline.Pipeline.Promote | apps/observation_promotion.py:43-171 | promotes exactly when the policy, asked about the task's principal, contract and run, the route's source and target kind, this observation and this target, permits with nothing left to fulfil, and source, provenance and stored rows agree; otherwise the store is unchanged |
| ObservationPipeline.Pipeline.External | apps/perception_execution.py:293-364 | one external step: the outcome, the invocation row and the attachment as `StepExact` decides them field by field |
| ObservationPipeline.AttachesJustified | apps/observation_promotion.py:51-171 | an attached link has behind it a committed observation, a permit for exactly this principal, source, contract, run, observation, target kind and target with everything fulfilled, an artifact of the task run's own execution, an acquisition of the route's source, and a locator with the route's own id and revision |
| ObservationPipeline.StepExact | apps/perception_execution.py:293-364 | how a step ends, field by field: which invocation row it leaves, that it is denied exactly when the envelope or the policy does not permit, and promotes exactly when every gate holds, writing exactly the stated link and evidence |
| ObservationPipeline.AuthorizedExact | apps/observation_promotion.py:51-85 | a promotion is authorized exactly at the config's policy revision, with a permit for this very question that asks for nothing, and a known source |
| ObservationPipeline.AttachmentExact | apps/observation_promotion.py:86-171 | the rows let an attachment through exactly when there is a place for it, and then the link and the evidence are those of route, step and observation |
| ObservationPipeline.RunSafe | apps/perception_routes.py:124-165 | in every run, among any other writers, what a step attached is justified in every later store |
| ObservationPipeline.RetryAttachesOnce | packages/intelligence/ingestion/attachment.py:41-92 | a retried promotion finds the same link and changes nothing, whatever the broker would now answer |
| ObservationPipeline.AttachedFromRouteSource | packages/intelligence/ingestion/evidence.py:37-66 | where keys separate sources, attached evidence, new or replayed, is of the route's source |
| ObservationPipeline.ShareTextExact | packages/sources/contracts.py:177-179 | two sources can share the text the key is hashed from exactly when their names are equal or one continues the other after a colon |
| ObservationPipeline.KeysSeparateExact | packages/intelligence/ingestion/evidence.py:52-66 | with an injective hash, idempotency and collision keys separate a set of sources exactly when no name continues another after a colon |
| ObservationPipeline.AttachedUnderHash | packages/intelligence/ingestion/evidence.py:37-66 | with an injective hash and such names, attached evidence is of the route's source |
| SandboxLifecycle.Sandboxes.Execute | apps/perception_execution.py:173-249 | for every answer of the back end: the calls made, an instance obtained is torn down exactly once and last, and what is returned |
| SandboxLifecycle.RunWithinTimeouts | apps/perception_execution.py:190-200 | a sandbox runs under the smaller of the two timeouts |
| SandboxLifecycle.RawRefExact | apps/perception_execution.py:206-217 | the raw artifact is standard output if there is one, and else the first export |
| SandboxLifecycle.Sandboxes.RunAll | apps/perception_execution.py:247-249 | the instances, the log of calls and every result are those of folding the invocations one after another |
| SandboxLifecycle.NoneLeftActive | apps/perception_execution.py:247-249 | any sequence of invocations leaves no further sandbox active while tearing down succeeds |
| SandboxLifecycle.OneLifeEach | apps/perception_execution.py:173-249 | from nothing, with teardowns that succeed, every sandbox is created once, used by one invocation, torn down once and last, or never touched |
| StepMerge.MergeAssociative | apps/perception_execution.py:436-449 | merging step results is associative |
| StepMerge.EmptyIsIdentity | apps/perception_execution.py:436-449 | the empty result is an identity exactly for results in canonical form |
| StepMerge.MergedIsFixed | apps/perception_execution.py:436-449 | merging brings results into canonical form, so merging a merged result with nothing changes nothing |
| StepMerge.MergeKeepsEverything | apps/perception_execution.py:436-449 | nothing of either side is lost, the left side's candidates and propositions come before the right side's, and costs of the right side win |
| GeneratedBlocks.Repository.ReplaceBlock | scripts/render_readme_evidence.py:427-439 | one block: the text between its markers becomes a newline, the body without its trailing space, and a newline; or it stands already; or it raises; no other file touched |
| GeneratedBlocks.Repository.Render | scripts/render_readme_evidence.py:442-473 | all blocks in order, the files whose text changed listed in order, stopping at the first raise |
| GeneratedBlocks.SeamOccurrence | scripts/render_readme_evidence.py:433-435 | a newline-free marker cannot straddle a seam of a splice |
| GeneratedBlocks.SpliceKeepsOnce | scripts/render_readme_evidence.py:427-439 | a marker outside the block still occurs once after the splice |
| GeneratedBlocks.UpdatedIsCurrent | scripts/render_readme_evidence.py:427-439 | a written block is current, so a second render changes nothing |
| GeneratedBlocks.RenderThenCheckExact | scripts/render_readme_evidence.py:427-439 | render-then-check works exactly when both markers occur once, no end marker stands before the write and no begin marker after it, overlapping occurrences included |
| GeneratedBlocks.BlockIsParted | scripts/render_readme_evidence.py:427-439 | markers that occur once and in order meet that condition |
| GeneratedBlocks.PartsAreBlock | scripts/render_readme_evidence.py:427-439 | two newline-free markers that stand nowhere else, in order, make a well-formed block of what is between them |
| GeneratedBlocks.BlockParts | scripts/render_readme_evidence.py:427-439 | and a well-formed block has its markers in order, each counted once |
| GeneratedBlocks.MisorderedWriteBreaks | scripts/render_readme_evidence.py:427-439 | otherwise the first write doubles a marker and every later call raises |
| GeneratedBlocks.UpdatesCommute | scripts/render_readme_evidence.py:442-473 | two blocks of one file can be written in either order |
| RenderedFiles.RenderThenCheck | scripts/render_readme_evidence.py:442-473 | on well-formed files a render never raises, a check after it never raises, and a second render changes nothing |
| RenderedFiles.RenderExact | scripts/render_readme_evidence.py:427-473 | on well-formed files a render leaves between every pair of markers a newline, the body without its trailing space, and a newline, leaves all text outside the blocks as it was, and lists exactly the files whose text changed, in order |
| RenderedFiles.CheckExact | scripts/render_readme_evidence.py:427-473 | on well-formed files a check changes nothing and passes exactly when every block holds its text |
| PercentCoding.UnquoteQuote | apps/github_investigation_observation.py:200-202 | percent-decoding undoes percent-encoding, for every text |
| PercentCoding.LeadExact | apps/github_investigation_observation.py:200-202 | the character read from bytes is the one they encode, and U+FFFD for a byte exactly where no encoding starts |
| PercentCoding.HexValueExact | apps/github_investigation_observation.py:200-202 | hexadecimal digits are read in either case |
| GithubRecords.SelectedIsBound | apps/github_investigation_observation.py:195-220 | a URL selects only valid records, over https, on the site itself, of the bound repository |
| GithubRecords.SegmentsRecovered | apps/github_investigation_observation.py:200-202 | splitting before decoding recovers every list of non-empty segments, slashes included |
| GithubRecords.ParseInvertsPrint | apps/github_investigation_observation.py:195-226 | the canonical URL of every pull, issue, commit, release and compare record of the bound repository selects that record |
| GithubSelections.SelectExact | apps/github_investigation_observation.py:195-226 | a query selects a record exactly when it is "releases" or a URL on the site whose path names a page of that record in the bound repository, and is refused as another repository's exactly when its path is not under the bound one |
| GithubSelections.SegmentsExact | apps/github_investigation_observation.py:203-226 | which lists of segments name a page of which record |
| GithubSelections.UserInfoIgnored | apps/github_investigation_observation.py:195-200 | the host of a URL is that after its user information |
| GithubSelections.PortIgnored | apps/github_investigation_observation.py:195-200 | and before its port, in lower case |
| GithubSelections.LowerIs | apps/github_investigation_observation.py:195-200 | lower case changes capital letters only |
| GithubSelections.QueryIgnored | apps/github_investigation_observation.py:195-200 | scheme, host and path of a URL do not depend on its query and fragment |
| GithubSelections.BlanksIgnored | apps/github_investigation_observation.py:195-200 | nor on leading blanks, or on tabs and line ends anywhere |
| GithubSelections.PartsMissing | apps/github_investigation_observation.py:195-200 | without two slashes there is no host, and without a colon no scheme |
| CpeNames.SplitCpe23 | scripts/evaluate_real_enrichment.py:363-383 | the loop computes the escape-aware split |
| CpeNames.SplitPrint | scripts/evaluate_real_enrichment.py:363-383 | splitting undoes escaping and joining, for every non-empty list of strings |
| CpeNames.SplitsAgree | scripts/evaluate_cvelist_v5.py:79-84 | without backslashes it is the plain split at colons |
| CpeNames.AwareReadsPrinted | scripts/evaluate_real_enrichment.py:351-360 | the escape-aware reader returns the fields a printed name was made of, or none for a wildcard |
| CpeNames.ReadersAgreeExact | scripts/evaluate_cvelist_v5.py:79-97 | without backslash and percent sign the two readers agree exactly when no field is decided, one is a wildcard, or all are free of surrounding space |
| CpeNames.EscapedColonCutsNaive | scripts/evaluate_cvelist_v5.py:79-97 | an escaped colon cuts the naive reader's vendor in two |
| CpeReaders.StripExact | scripts/evaluate_cvelist_v5.py:93-95 | stripping removes exactly the leading and trailing space |
| CpeReaders.OldNames | scripts/evaluate_cvelist_v5.py:79-97 | the naive reader reads an old name from its first three components |
| CpeReaders.NewNames | scripts/evaluate_cvelist_v5.py:79-97 | and a new name from its third to fifth |
| CpeReaders.LegacyNames | scripts/evaluate_cvelist_v5.py:79-97 | it reads the part, vendor and product an old name was made of, where the escape-aware reader reads nothing |
| CpeReaders.OtherTexts | scripts/evaluate_cvelist_v5.py:79-97 | neither reader reads a text with another beginning |
| NvdConfigurations.Walk | scripts/evaluate_real_enrichment.py:321-334 | every object node reachable through object nodes, exactly once, in preorder, with a path that indexes back to it |
| JsonTrees.WalkExtends | scripts/evaluate_real_enrichment.py:321-334 | a node and its subtree extend a preorder walk |
| NvdConfigurations.Applicability | scripts/evaluate_real_enrichment.py:275-318 | exactly the facts of vulnerable product matches, in strictly increasing coordinates |
| NvdConfigurations.NoneCollapses | scripts/evaluate_real_enrichment.py:275-318 | facts differ in root, path or match, so none is lost when gold becomes a set |
| NvdConfigurations.MatchExact | scripts/evaluate_real_enrichment.py:288-297 | a match gives a fact exactly when it says vulnerable and its criteria name a product |
| CsafProducts.Indexer.Walk | scripts/evaluate_redhat_csaf_vex.py:108-118 | the recursive walk records the products of the preorder walk into the dictionary it shares |
| CsafProducts.ProductIndex | scripts/evaluate_redhat_csaf_vex.py:103-120 | the index holds exactly the declared identifiers, each with its last declaration in document order |
| CsafProducts.ConsistentIndexExact | scripts/evaluate_redhat_csaf_vex.py:103-120 | the index is exactly the declared relation if and only if the tree declares no identifier twice differently |
| CsafProducts.IndexIgnoresShape | scripts/evaluate_redhat_csaf_vex.py:103-120 | regrouping or reordering the branches of such a tree leaves the index alone |
| CsafProducts.RelationshipIndex | scripts/evaluate_redhat_csaf_vex.py:123-134 | relationships by the product they form, the last one winning |
| CsafProducts.FormsExact | scripts/evaluate_redhat_csaf_vex.py:123-134 | a relationship forms exactly the product of its full product name |
| CsafProducts.Flags | scripts/evaluate_redhat_csaf_vex.py:175-189 | the labels of every product in document order, and no entry for a product without labels |
| CsafProducts.LabelsExact | scripts/evaluate_redhat_csaf_vex.py:175-189 | a label is listed for a product exactly when a flag with that label names it |
| CsafProducts.FlagExact | scripts/evaluate_redhat_csaf_vex.py:175-189 | a flag gives a label exactly when it has a text label and a list of product ids |
| CsafGold.GoldForCase | scripts/evaluate_redhat_csaf_vex.py:192-233 | the gold list exactly, in order and with repetitions: the advisory, then each status's products with context and justification |
| CsafGold.FactsOfCaseExact | scripts/evaluate_redhat_csaf_vex.py:192-233 | the list holds the advisory and one fact for each listed product of each status, and nothing else |
| CsafStatements.StatementExact | scripts/evaluate_redhat_csaf_vex.py:192-233 | a statement is listed exactly with the state its status maps to, its target, the component and platform its relationship references, and the labels of its product |
| CsafStatements.StatementsInOrder | scripts/evaluate_redhat_csaf_vex.py:35-41 | statements come in the order affected, not affected, fixed, under investigation |
| CsafStatements.VulnerabilityFirst | scripts/evaluate_redhat_csaf_vex.py:199-202 | the vulnerability read is the first one about the CVE |
| CsafStatements.NamespaceExact | scripts/evaluate_redhat_csaf_vex.py:96-100 | the namespace is the publisher's stated one, or the default when it states none |
| CsafStatements.EntryExact | scripts/evaluate_redhat_csaf_vex.py:192-202 | the entry is read from the payload's list of vulnerabilities |
| CsafStatements.GoldIsOfParts | scripts/evaluate_redhat_csaf_vex.py:192-233 | the gold of a document is made of the branches and relationships of its product tree, its namespace, and the flags and statuses of the entry |
| CsafStatements.GoldNeedsStatuses | scripts/evaluate_redhat_csaf_vex.py:199-211 | gold needs an entry for the CVE with its statuses |
| CsafGold.GoldIgnoresShape | scripts/evaluate_redhat_csaf_vex.py:192-233 | with consistent identifiers the gold list does not depend on how branches group and order the products |
| ImportClosure.InitialKeys | scripts/check_product_gate.py:388-396 | the worklist terminates and returns exactly the keys reachable from the entry, duplicates, cycles and absent keys included |
| ImportClosure.InitialFiles | scripts/check_product_gate.py:396-404 | the forbidden-chunk verdict is exact over reachability, and so are the files |
| ImportClosure.ClosedHoldsPath | scripts/check_product_gate.py:388-396 | a set closed under imports that holds the entry holds the end of every import path |
| ImportClosure.ImportsExact | scripts/check_product_gate.py:388-396 | a key leads to the imports of its own manifest entry, and to nothing without one |
| ImportClosure.ContainsExact | scripts/check_product_gate.py:402-403 | a file name counts as forbidden exactly when the name stands anywhere in it |
| CaseSelection.Candidates | scripts/discover_real_enrichment_cases.py:98-117 | one candidate for every usable CVE, from the first advisory that names it, in the order of the advisories |
| CaseSelection.UsableExact | scripts/discover_real_enrichment_cases.py:98-105 | an advisory is usable exactly when it is not withdrawn and names a CVE |
| CaseSelection.BucketExact | scripts/discover_real_enrichment_cases.py:69-76 | the bucket of a candidate as a function of its four features |
| CaseSelection.QuotaIs | scripts/discover_real_enrichment_cases.py:113-119 | the quotas are a third, a sixth and a third of the count, at least one, and the whole count |
| CaseSelection.Select | scripts/discover_real_enrichment_cases.py:119-146 | the nested loops compute the specified selection |
| CaseSelection.SelectionExact | scripts/discover_real_enrichment_cases.py:119-146 | exactly min(count, number of candidates) distinct candidates |
| CaseSelection.QuotaRespected | scripts/discover_real_enrichment_cases.py:119-137 | the first pass holds of every bucket its earliest candidates in order, within the quota, fewer only when the bucket is exhausted or the selection full |
| CaseSelection.SelectedByPriority | scripts/discover_real_enrichment_cases.py:119-137 | the first pass takes range and fix before range only before CWE and EPSS before the others |
| CaseSelection.RemainderEarliest | scripts/discover_real_enrichment_cases.py:138-146 | the rest are the earliest candidates the first pass left out, in order |
| RequestSpacing.Refresher.Query | scripts/refresh_enrichment_cases.py:87-110 | the attempts are exactly the replies up to and with the first that is not one of the two caught failures, at most six, spaced, and the last reply decides |
| RequestSpacing.SixAtMost | scripts/refresh_enrichment_cases.py:89-109 | a case is asked at most six times, and six times exactly when the first five replies are the two caught failures |
| RequestSpacing.Refresher.Run | scripts/refresh_enrichment_cases.py:112-120 | over a whole run the cases are asked in order, each exactly as often as its replies need, up to the first that is not answered; the run completes exactly when all are; consecutive requests, and a retry after its failure, are an interval apart, less the slack of a sleep |
| RequestSpacing.SpanAtLeast | scripts/refresh_enrichment_cases.py:65-66 | k requests span at least (k - 1) intervals |
| IndexMatch.BestIndexMatch | apps/registered_source_observation.py:322-336 | the earliest of the qualifying entries with the most matching terms, or none when none qualifies |
| IndexMatch.QualifiesExact | apps/registered_source_observation.py:322-336 | an entry qualifies exactly with half of the terms, at least one, and two from three terms on |
| IndexMatch.TextExact | apps/registered_source_observation.py:322-336 | the text matched is the title, or the URL when there is no title |
| IndexMatch.HeadOfSorted | apps/registered_source_observation.py:335-336 | the head of the stable descending sort is the first of the largest |
| IndexMatch.FullMatchWins | apps/registered_source_observation.py:322-336 | an entry with every term of the query is never passed over for one without |
| IndexMatch.LaterEntriesMustBeBetter | apps/registered_source_observation.py:322-336 | entries indexed later replace the choice only by matching strictly more terms |
| ObservationPipeline.OthersAttachNothing | apps/perception_execution.py:322-364 | corollary: every other outcome leaves links and evidence unchanged |
| ObservationPipeline.ObligationsNeverMet | apps/perception_routes.py:128-145 | corollary: static routes fulfil no obligation, so a policy that states any constraint or obligation for the promotion of a step attaches nothing |
| DecisionProjection.SameStaleVerdicts | apps/evaluation_runtime.py:1843-1854 | corollary: past their own checks both projections reject exactly the same verdict maps, with the same keys |
| DecisionProjection.PathCitationFromState | apps/evaluation_runtime.py:1911-1920 | corollary: projected from state it is supported exactly when a verdict or the confirmed state backs it |

## Left out

* Hash functions, UUIDs and JSON canonicalisation are function parameters; nothing is claimed about collisions except where `KeysSeparate` says so.
* The text functions of Python (lower-casing, stripping, word matching) are parameters applied character by character or as a whole; special casing of several characters at once is not modelled.
* SQL, transactions' isolation, asyncio scheduling, HTTP clients, S3 and Redis: transactions are atomic steps, and a back end answers with one of the outcomes the source distinguishes.
* Floating point: `IndexMatch` ranks by real quotients and `RequestSpacing` reads the clock as a real; decimal budgets are integers.
- RequestSpacing.Refresher.Run: the spacing is the interval less a slack by which a sleep may wake early, because the source does not look at the clock again after sleeping.
- PercentCoding.UnquoteQuote: malformed UTF-8 decodes to replacement characters in some number, which is not claimed to be Python's number.
- GithubRecords.ParseInvertsPrint: decimal digits outside ASCII, and the selection from object properties when no URL is given, are not modelled.
- ImportClosure.InitialFiles: the compressed-size budget computed from the files is not modelled.
- Delegation.DelegationAdapter.DelegateEnrichment: contract, context manifest and envelope have only the fields the adapter or its checks read or vary, and the deadline is a number.
- DelegationSafety.ApplyAllSafe: other code adds rows of any kind, but no delegated child, no envelope handed down from another and no account that takes from another; in the source those come from delegations and wakes only.
- ArtifactMigration.RunSafe: stored objects are never deleted by others, and path normalisation of the filesystem store is not modelled.
- ObservationPipeline.Pipeline.External: argument projection is one answer, and so are the contract's check of a request and the registry's binding; restoring a lost artifact during replay, and two uses of one request at the same time, are not modelled.
- ObservationPipeline.RunSafe: other writers are assumed only to add rows, not to rewrite invocations, acquisitions, artifacts or evidence.
- PinnedQuestion.World.Execute: the projection of the answer after the checks is not modelled; requests and contexts are read in one step, and only requests of the decision purpose are recorded.
- NvdConfigurations.Applicability: a fact carries its coordinates, identity and criteria; the operators, negation and version ranges copied from the record are not modelled.
- CaseSelection.Candidates: the four features of an advisory are inputs; how they are read off its fields is not modelled.
- CsafGold.GoldForCase: the payload is a JSON value without duplicate object keys, and predictions are not modelled.
* The acquisition-run life cycle and repository binding of the GitHub executor, the CVE List gold builder, and the retrieval of predictions from the database: straight-line bookkeeping around code modelled here.
* Browser checks, text checks on deployment files, Markdown tables, number formatting and argument parsing.
