# Verified model of the capagent decision engine

capagent measures a host with probes, turns what they observe into evidence, resolves evidence into capability
states, and evaluates requirement documents over them. This project models the algorithms on that way and proves what
they promise. It verifies with `dafny verify dfyconfig.toml`.

The modules that follow the source prove each loop and each update equal to a function or relation. The modules named
after outcomes state what these come to with the source's own numbers, ranks and names written out, over inputs and
results alone.

**Probe scheduler.** `SchedulerProtocol` is `Orchestrator.Run` as a transition system. A step is what the source does
atomically: one critical section, one counter increment, one channel operation, or the return of a probe. Each worker has
a program counter; probe outcomes, interleavings and cancellation are free. `SchedulerInvariant` and `SchedulerSettle`
prove one invariant for every step, and `SchedulerTheorems` derives safety, freedom from deadlock, a bound on the
length of every run, exact skips and confluence. `SchedulerOutcomes` says which outcome each probe ends with, from what
it returned and its dependencies. `SchedulerState` holds the record operations as functions, and
`SchedulerRun` has the queue and the locked segments as they run, on an array and a mutable queue, proved equal to the
steps.

**Dependency sorts.** `RegOrderHeap` and `KahnSort` are the heap and the in-degree sort of the probe registry,
`ProbeRegistry` the registry that seals a graph and compiles a plan, `CapabilityGraph` the other sort, with a list that
is re-sorted by name. `TopologicalOrder` says what both compute: the least topological order for a ranking, or a cycle.

**Evidence to verdict.** `Dataset` validates the evidence graph, `Resolver` resolves ranked evidence,
`CapabilityRegistry` evaluates definitions in dependency order, `RequirementDocument` validates documents on arbitrary
pointer graphs, `RequirementEvaluation` evaluates them in three-valued logic (`RequirementLogic`). The theorems are in
`CapabilityAgreement` (whatever the resolver decides passes the independent check of the requirement engine),
`RequirementTheorems` (a definite verdict is the classical value) and `RequirementTrace` (report limits, compaction).
`EvidenceModel` has the shared records and `Chains` the runs over a list of definitions. `DatasetOutcomes`,
`ResolverOutcomes`, `DefinitionOutcomes`, `RequirementOutcomes` and `TraceOutcomes` say what each of these modules
accepts and answers, over the records themselves, and `CatalogOutcomes` what the whole evaluation comes to.

**Memory file system.** `MemoryPath` is the walk along a path with symbolic links, a root and a hop limit, as a worklist
machine and as the recursive walk that it computes; `Paths` and `PathOutcomes` have the lexical path functions that the
walk calls. `MemoryReference` and `MemoryRelative` are a second account of the walk, on lists of components, which it
is proved to agree with.

**Helper searches.** `HelperPlans` has the plans of the network helpers and the check that recomputes them, and
`HelperSearch` the search for configured helpers and its independent validator. `HelperOutcomes` says which names are
tried, which plans are made and which states are given.

**Kernels.** `SubIDs` (subordinate id files), `EngineConfig` and `NetworkConfig` (layered configuration and its
collectors), `BoundedIO` (bounded buffer and reader), `CommandKey` (self-delimiting command keys); `SubIDLines`,
`ConfigOutcomes`, `InputOutcomes` and `NamingOutcomes` say what they come to line by line and document by document.
`Text`, `Seqs` and `Options` are shared helpers.

Four statements that one would expect hold only with a condition. Each is proved with its exact condition, and where an
input breaks the plain statement, so is that input:

- A network plan that is not inherited is accepted by `networkPlanBound` unless the network command path is marked
  invalid and still has text: the producer uses such text, the validator does not
  (`HelperPlans.ProducedPlansAreBound`, `HelperPlans.InvalidCommandPathIsUnbound`). Parsing never leaves text in an
  invalid string, so collected configurations never meet the case (`HelperPlans.CollectedPlansAreBound`).
- The bounded buffer copies fewer than twice its capacity exactly when the capacity is positive; with capacity zero it
  copies nothing, which is not fewer (`BoundedIO.WriteAll`).
- With `followFinal` the walk may still return a link: some path does, if and only if the root entry is a link that can
  be read (`MemoryPath.LinkIsReturnedIffRootIsLink`), and then the path `/` does
  (`MemoryPath.RootLinkIsReturned`).
- The report accepts the verdict on an accepted document if and only if all candidate scopes are valid
  (`RequirementTrace.ReportAcceptsVerdict`): a candidate with an invalid scope is answered with that scope.

One statement goes beyond what the three-valued logic promises: a document that asks for each capability once is
indeterminate exactly when both truth values are possible (`RequirementTheorems.OpenExactlyWhenBothPossible`). One that
asks twice may stay indeterminate although its truth is certain (`RequirementTheorems.AskingTwiceStaysOpen`). A definite
verdict is right in either case.

## Model

| member | source | states |
|---|---|---|
| SchedulerInvariant.InitEstablishesInv | internal/probe/orchestrator.go:225-259 | the state `Run` starts its workers in satisfies the protocol invariant, for every plan and every worker count |
| SchedulerSettle.StepKeepsInv | internal/probe/orchestrator.go:293-434 | every atomic step of a worker, of the main goroutine or of the context keeps the invariant: counters equal the unmet dependency edges with multiplicity, every open probe has at most one token (in the queue, in a worker or about to be pushed), the finalized counter plus the increments still owed equals the finalized records, a final record is Skipped exactly when a dependency did not succeed |
| SchedulerSettle.ReachableInv | internal/probe/orchestrator.go:225-286 | the invariant holds in every state that any interleaving reaches |
| SchedulerSettle.RecordKeepsInv | internal/probe/orchestrator.go:352-394 | the locked segment of `recordFinal` keeps the invariant, and the record it meets is always still open: the early return for a final record is never taken |
| SchedulerInvariant.CheckFinalKeepsInv | internal/probe/orchestrator.go:302-308 | a popped probe is never already final: the fast path always admits it |
| SchedulerInvariant.CountSkippedKeepsInv | internal/probe/orchestrator.go:377-382 | an increment made for a cascade leaves the counter below the total, although the source does not check it |
| SchedulerInvariant.PushReleasedKeepsInv | internal/probe/orchestrator.go:384-388 | no push ever meets a closed queue |
| SchedulerInvariant.HeldIsOpen | internal/probe/orchestrator.go:293-351 | a probe in the hands of a worker is not final, its counter is zero and all its dependencies succeeded |
| SchedulerInvariant.OwedIsUncounted | internal/probe/orchestrator.go:376-403 | as long as a worker owes an increment, the completion channel and the queue are open |
| SchedulerInvariant.CloserIsFirst | internal/probe/orchestrator.go:395-403 | the worker about to close the completion channel finds it open and the counter at the total, and no other worker is about to close it |
| SchedulerTheorems.CompletionIsSafe | internal/probe/orchestrator.go:352-403 | the counter never exceeds the finalized records, reaching the total means every record is final, the increment that reaches it is never one of a cascade, the channel closes once, no push meets a closed queue |
| SchedulerTheorems.ProbesRunAtMostOnce | internal/probe/orchestrator.go:302-374 | in every reachable state a counter is the number of unmet dependency edges, each probe was enqueued at most once and run at most once, and only with all dependencies succeeded |
| SchedulerTheorems.StepLowersMeasure | internal/probe/orchestrator.go:141-434 | every step lowers one natural-number measure of the whole system |
| SchedulerTheorems.RunsAreBounded | internal/probe/orchestrator.go:225-286 | with n probes and c effective workers no run from the initial state is longer than (8 + c) n + 3 c + 4 steps |
| SchedulerTheorems.OldestOpenIsInPlay | internal/probe/orchestrator.go:365-374 | an open probe whose dependencies are all final is in the queue, in a worker or about to be pushed |
| SchedulerTheorems.NeverStuck | internal/probe/orchestrator.go:225-286 | for an acyclic plan every reachable state in which `Run` has not returned has an enabled step other than cancellation |
| SchedulerTheorems.StoppedRunsAreComplete | internal/probe/orchestrator.go:225-286 | a state without enabled steps is one in which `Run` has returned, the queue is closed and drained, all workers have exited and every probe is final |
| SchedulerTheorems.RunsComplete | internal/probe/orchestrator.go:225-286 | from every reachable state some continuation returns, with the same final conditions |
| SchedulerTheorems.ReturnedIsFinished | internal/probe/orchestrator.go:277-283 | when `Run` collects results every record is final, so its fallback result is unreachable |
| SchedulerTheorems.SkippedExactly | internal/probe/orchestrator.go:365-434 | in any finished run, cancelled or not, a probe is Skipped if and only if a direct dependency did not end Succeeded |
| SchedulerTheorems.RunComputesDenotation | internal/probe/orchestrator.go:225-286 | without cancellation every finished run under fixed probe outcomes returns the statuses of a recursive reference definition over the plan |
| SchedulerTheorems.Confluence | internal/probe/orchestrator.go:225-286 | two finished runs with the same probe outcomes, any interleavings and any two worker counts return the same statuses |
| SchedulerState.ReleaseCounters | internal/probe/orchestrator.go:365-374 | releasing dependents lowers each counter by the number of edges to it |
| SchedulerState.ReleaseListed | internal/probe/orchestrator.go:365-374 | a dependent is released once if its counter reaches zero in this call, and not otherwise |
| SchedulerState.CascadeSpec | internal/probe/orchestrator.go:409-434 | the cascade only turns open records into Skipped, leaves no open record with a failed dependency, skips none without one, and reports exactly how many it finalized |
| SchedulerRun.Prepare | internal/probe/orchestrator.go:230-259 | the record array and the first queue content of a run: one counter per dependency list, the nodes without dependencies in registration order |
| SchedulerRun.RunQueue.Push | internal/probe/orchestrator.go:157-169 | an open queue takes the id at the end and wakes every waiting worker; on a closed queue nothing changes |
| SchedulerRun.RunQueue.TryPop | internal/probe/orchestrator.go:170-184 | takes the oldest item; on an empty queue it reports that the queue is closed, or makes the worker wait |
| SchedulerRun.RunQueue.Close | internal/probe/orchestrator.go:185-194 | closes the queue, keeps its items and wakes every waiting worker; a second close changes nothing |
| SchedulerRun.QueueStepsAreOperations | internal/probe/orchestrator.go:141-194 | every step of the protocol changes queue, closed flag and waiting workers exactly as one of these operations does, or not at all |
| SchedulerRun.ReleaseDependents | internal/probe/orchestrator.go:365-374 | the loop over the downstream list computes the released records and ids of the step relation |
| SchedulerRun.CascadeSkip | internal/probe/orchestrator.go:409-434 | the explicit-stack loop computes the cascade of the step relation on the array, and its count |
| SchedulerRun.RecordFinalLocked | internal/probe/orchestrator.go:352-394 | the locked segment, on the array, is the step relation on an open record and changes nothing on a final one |
| SchedulerRun.Collect | internal/probe/orchestrator.go:277-286 | results are collected in plan order |
| SchedulerOutcomes.CheckDecides | internal/probe/orchestrator.go:309-316 | a canceled context is found before the probe runs, and the probe is recorded as Cancelled without having run; otherwise it runs |
| SchedulerOutcomes.FinishDecides | internal/probe/orchestrator.go:336-345 | a return without error is a success, one with the context's error after cancellation a cancellation, any other a failure |
| SchedulerOutcomes.OutcomesAreReturns | internal/probe/orchestrator.go:225-350 | in any finished run, cancelled or not, a probe that returned ran once and ended Succeeded, Failed or Cancelled by its error and by whether the context was canceled then; one that did not return never ran, and is Skipped, or Cancelled because the context is |
| SchedulerOutcomes.OutcomesUnderOracle | internal/probe/orchestrator.go:225-374 | without cancellation, a probe ends Succeeded if and only if all its dependencies did and it returns no error, Failed if and only if all of them did and it returns one, Skipped if and only if not all did, and never Cancelled |
| SchedulerOutcomes.RefusedEndsCancelled | internal/probe/orchestrator.go:309-316 | a probe that ended Succeeded or Failed ran once; one that never ran although all its dependencies succeeded ended Cancelled, under a canceled context |
| SchedulerOutcomes.RootsMean | internal/probe/orchestrator.go:245-258 | a run starts with exactly the probes without dependencies, each once, in registration order |
| SchedulerOutcomes.ReleasesInOrder | internal/probe/orchestrator.go:365-374 | a success hands on exactly the dependents that waited for one dependency, in the order of the downstream list |
| SchedulerOutcomes.ConcurrencyIsBounded | internal/probe/orchestrator.go:225-243 | in every state of every run at most as many probes run as there are workers, whose number is the smaller of the option and the number of probes |
| RegOrderHeaps.RegOrderHeap.Push | internal/probe/registry.go:237-239 | keeps heap order and adds exactly the item |
| RegOrderHeaps.RegOrderHeap.Pop | internal/probe/registry.go:241-249 | keeps heap order, removes exactly the returned item, and that item is of least order |
| RegOrderHeaps.RegOrderHeap.Up | internal/probe/registry.go:231-249 | sifting up restores heap order that is broken only at one entry, and permutes |
| RegOrderHeaps.RegOrderHeap.Down | internal/probe/registry.go:231-249 | sifting down restores heap order of a prefix that is broken only below one entry, permutes, and leaves the rest alone |
| RegOrderHeaps.RootIsFirst | internal/probe/registry.go:231-249 | the root of an ordered heap is of least order |
| KahnSort.CountEdges | internal/probe/registry.go:184-195 | the counting loop yields exact in-degrees and exact dependents with multiplicity, in whatever order the ids come |
| KahnSort.PlaceFirst | internal/probe/registry.go:206-215 | one round places the first ready node by registration and keeps in-degrees and heap exact for the longer plan |
| KahnSort.KahnTopoSort | internal/probe/registry.go:180-221 | returns an order exactly when the graph has no cycle; the order is a topological permutation and takes the first ready node by registration at every place; otherwise it reached fewer nodes than there are |
| TopologicalOrder.GreedyIsTopological | internal/probe/registry.go:180-221 | a complete greedy order is a permutation of the nodes with dependencies first |
| TopologicalOrder.GreedyIsLeast | internal/probe/registry.go:180-221 | and it is the lexicographically least topological order for the ranking |
| TopologicalOrder.GreedyIsUnique | internal/probe/registry.go:180-221 | two greedy orders that are both stuck are equal, so nothing depends on map iteration order |
| TopologicalOrder.StuckHasCycle | internal/probe/registry.go:213-219 | when a greedy order cannot go on and nodes are left, a cycle exists |
| TopologicalOrder.CycleForbidsOrder | internal/probe/registry.go:180-221 | a graph with a cycle has no topological order at all |
| TopologicalOrder.GreedyCompleteIffAcyclic | internal/probe/registry.go:213-221 | a stuck greedy order is complete if and only if the graph has no cycle |
| ProbeRegistry.CompilePlan | internal/probe/registry.go:262-275 | the compiled plan mirrors the declared dependencies by position, and its two adjacency tables count every edge equally often, with dependents in registration order |
| ProbeRegistry.CompiledPlanIsAcyclic | internal/probe/registry.go:251-275 | a plan compiled from a graph with a topological order is ranked, which the scheduler theorems need |
| ProbeRegistry.Registry.Register | internal/probe/registry.go:58-88 | accepts exactly a present probe with a nonempty new id before sealing; a rejected call changes nothing |
| ProbeRegistry.Registry.FindBadDependency | internal/probe/registry.go:104-121 | a reported self dependency is a cycle, a reported unknown one is declared by the reported probe and not registered, and no report means neither exists |
| ProbeRegistry.Registry.Analyse | internal/probe/registry.go:90-136 | succeeds exactly when all dependencies are registered and acyclic, and then order and plan are the ones to publish; otherwise the reported error is true of the graph |
| ProbeRegistry.Registry.Resolve | internal/probe/registry.go:90-136 | seals the registry with that verdict, whose error is true of the graph; a second call changes nothing and repeats the first result |
| ProbeRegistry.Registry.Execution | internal/probe/registry.go:278-288 | hands out the compiled plan only after a successful resolve |
| ProbeRegistry.DefaultConcurrency | internal/probe/orchestrator.go:75-80 | the CPU count, raised to one and lowered to the cap |
| ProbeRegistry.NewOrchestrator | internal/probe/orchestrator.go:81-119 | a nil registry or an option below one is rejected before the registry is touched; otherwise the last option, or the default, sets the workers, of which there is at least one; the plan is valid, acyclic and compiled from the registry; a registry not resolved before gives an orchestrator exactly when its graph is closed and acyclic |
| CapabilityGraph.CountDeclarations | internal/capability/graph.go:131-157 | the declaration loop accepts closed graphs without repeated dependencies and within the reference limit, with exact counts; a reported problem is one of the graph |
| CapabilityGraph.OrderReady | internal/capability/graph.go:158-180 | the re-sorted ready list yields the greedy order by name |
| CapabilityGraph.Topological | internal/capability/graph.go:131-180 | returns an order exactly when the graph is within both limits, closed, without repeated dependencies and acyclic; the order is topological and greedy by name; a reported cycle exists |
| CapabilityGraph.SortsAgree | internal/capability/graph.go:131-180 | the heap sort and the re-sorted list give the same order whenever their rankings agree |
| Dataset.IndexContexts | internal/capability/graph.go:182-201 | accepts exactly the valid context lists and indexes their ids |
| Dataset.AddFact | internal/capability/graph.go:101-114 | accepts exactly a valid fact with a new id within the limit over all observations |
| Dataset.IndexObservations | internal/capability/graph.go:86-117 | accepts exactly the valid observation lists, whose fact ids are distinct across all observations |
| Dataset.CheckReferences | internal/capability/graph.go:203-216 | accepts exactly the references that exist, match the probe and support the timestamp, scope and completeness of the evidence |
| Dataset.IndexEvidence | internal/capability/graph.go:42-70 | accepts exactly the evidence lists that are valid one by one, distinct and within the reference limit |
| Dataset.CheckDependencies | internal/capability/graph.go:71-83 | accepts exactly when each dependency exists with the same scope, is not newer and is complete where the dependent is |
| Dataset.ValidateDataset | internal/capability/graph.go:27-84 | accepts a dataset if and only if contexts, observations, evidence and the dependency graph are all valid |
| Dataset.SupportIsSound | internal/capability/graph.go:71-81 | in an accepted dataset everything that evidence rests on, over any number of steps, has its scope, is not newer, and is complete if it is |
| Dataset.SupportIsAcyclic | internal/capability/graph.go:82-83 | in an accepted dataset no evidence rests on itself, over any number of steps |
| DatasetOutcomes.ValidityMeans | internal/capability/graph.go:27-216 | the accepted datasets, written out over their records: named and canonical fields, known contexts, facts and evidence no later than and as complete as what they rest on, references that exist, no repeated names, the limits 4096 and 16384, and no circle of evidence |
| Resolver.SelectUsable | internal/capability/resolver.go:30-43 | the first loop selects exactly the usable claims, in order, with the least rank among them and one diagnostic for each claim excluded |
| Resolver.Combine | internal/capability/resolver.go:44-69 | the second loop, with its running first flag, computes consensus, weakest confidence and references of the evidence of the best rank, and lists the others as superseded |
| Resolver.Resolve | internal/capability/resolver.go:21-69 | for some sorting by id of the input, the result is the specified resolution of it |
| Resolver.Weaker | internal/capability/resolver.go:98-101 | the weaker level is one of the two and at most each |
| Resolver.ConfidenceOf | internal/capability/resolver.go:87-96 | a level never exceeds what the evidence states nor the ceiling of its rank, which `ResolverOutcomes.ConfidenceByRank` gives level by level |
| Resolver.DefiniteMeansUnanimous | internal/capability/resolver.go:44-69 | the state is definite if and only if the evidence of the best rank is unanimous on a definite state; then all of it has that state, nothing usable has a better rank, and confidence is at most the ceiling of the rank |
| ResolverOutcomes.ExclusionIsExact | internal/capability/resolver.go:71-85 | evidence counts if and only if it is of this run, no later than now, of this scope, well formed with canonical fields and complete; otherwise the code names the first thing that is wrong |
| ResolverOutcomes.ConfidenceByRank | internal/capability/resolver.go:87-96 | live and runtime evidence lends the confidence it states, configuration at most derived, knowledge and heuristics at most heuristic confidence |
| ResolverOutcomes.ResolutionDecides | internal/capability/resolver.go:21-69 | with the evidence that counts and that no other outranks: the state is definite if and only if all of it reports that state, and the confidence then is exactly the least that it lends, and unknown otherwise |
| ResolverOutcomes.ResolutionCites | internal/capability/resolver.go:44-69 | the evidence that leads is cited and the other evidence that counts is superseded, both in the order of ids |
| ResolverOutcomes.ResolutionExplains | internal/capability/resolver.go:30-43 | there is a diagnostic for exactly the claims that do not count, with what is wrong |
| ResolverOutcomes.OpenForAReason | internal/capability/resolver.go:44-69 | the reason of an open state: no evidence counts, or leading evidence disagrees |
| ResolverOutcomes.SelectedForAReason | internal/capability/resolver.go:44-69 | the reason of a selected state names the rank of the leading evidence |
| ResolverOutcomes.InvalidQuestionIsRefused | internal/capability/resolver.go:22-27 | an invalid scope, claim or time decides nothing and is reported |
| Resolver.OrderDoesNotMatter | internal/capability/resolver.go:21-69 | with distinct ids the whole result is the same for every permutation of the input |
| Resolver.IrrelevantEvidenceIsIgnored | internal/capability/resolver.go:30-85 | adding evidence that is unusable or of a worse rank changes neither state, confidence nor supporting references |
| CapabilityRegistry.NewRegistry | internal/capability/registry.go:29-56 | a registry is made if and only if the definitions are valid and distinct and their graph is acceptable; its definitions are the given ones in the least order with dependencies first |
| CapabilityRegistry.MissingPrerequisite | internal/capability/registry.go:121-128 | reports the first dependency not supported so far; no reason means all are supported |
| CapabilityRegistry.FindContext | internal/capability/registry.go:74-82 | finds the context of the scope exactly when one is named, with its identity flag |
| CapabilityRegistry.EvaluateDefinition | internal/capability/registry.go:85-111 | a successful step is a step of the evaluation relation, and a failed one means that the relation has none |
| CapabilityRegistry.FilterScope | internal/capability/registry.go:113-117 | keeps exactly the evidence of the scope, in order |
| CapabilityRegistry.Registry.Evaluate | internal/capability/registry.go:66-119 | succeeds exactly when the evaluation relation has a result, and returns it |
| CapabilityRegistry.EvaluationIsDeterministic | internal/capability/registry.go:66-119 | the relation has at most one result |
| CapabilityAgreement.FinalEvidenceIsValid | internal/capability/registry.go:102-105 | the dataset with all generated evidence is valid again |
| CapabilityAgreement.CandidateIsAccepted | internal/requirement/evaluate.go:115-142 | every candidate that an evaluation builds passes the independent index of the requirement engine |
| CapabilityAgreement.DecidedIsSupported | internal/requirement/evaluate.go:166-189 | every decided capability has references, and each is evidence in the candidate that the requirement engine accepts for that capability and state |
| CapabilityAgreement.DecisionsAgree | internal/requirement/evaluate.go:166-189 | for every definition the requirement engine reads the evaluated state as it is: supported as satisfied, unsupported and misconfigured as unsatisfied, everything else as open |
| CapabilityAgreement.DependenciesAreSupported | internal/capability/registry.go:121-128 | if a capability is decided, everything it depends on over any number of declared steps is supported |
| RequirementLogic.All | internal/requirement/logic.go:56-62 | unsatisfied if and only if some state is, satisfied if and only if all are |
| RequirementLogic.Any | internal/requirement/logic.go:68-74 | satisfied if and only if some state is, unsatisfied if and only if all are |
| RequirementLogic.ConnectivesAreMonotone | internal/requirement/logic.go:8-50 | deciding an open operand never changes a definite result of the connectives |
| RequirementLogic.ConnectivesAreClassical | internal/requirement/logic.go:8-50 | on definite operands the connectives are the classical ones |
| RequirementDocument.Validation.ValidateNode | internal/requirement/evaluate.go:41-79 | on an arbitrary pointer graph, with the path being walked as the active set: accepts exactly when the unfolding within the remaining depth exists and fits the node limit, counts its size, and restores the active set; a cycle error means that a cycle exists |
| RequirementDocument.Validate | internal/requirement/evaluate.go:36-39 | accepts a document if and only if its unfolding has at most 512 nodes and depth at most 32 and every node has one operator and a valid id |
| RequirementDocument.CyclesDoNotUnfold | internal/requirement/evaluate.go:50-53 | a node on a cycle has no unfolding of any depth |
| RequirementEvaluation.IndexCandidate | internal/requirement/evaluate.go:115-142 | reports the first fault of the candidate, or indexes its capabilities and evidence |
| RequirementEvaluation.AcceptedMeansWellFormed | internal/requirement/evaluate.go:115-142 | no fault is found if and only if scope, limits, every capability and the uniqueness of ids are in order |
| RequirementEvaluation.EvaluateNode | internal/requirement/evaluate.go:144-164 | the recursion over pointers terminates on every document with an unfolding and computes the three-valued value of that tree with all diagnostics |
| RequirementEvaluation.Evaluate | internal/requirement/evaluate.go:84-107 | a rejected document or candidate list is indeterminate; otherwise the result is the disjunction over the candidates |
| RequirementTheorems.DefiniteVerdictIsClassical | internal/requirement/evaluate.go:144-189 | a definite verdict of a tree equals the classical truth value under every way to decide the open predicates |
| RequirementTheorems.VerdictIsMonotone | internal/requirement/evaluate.go:144-164 | a definite verdict stays when more predicates become definite |
| RequirementTheorems.DefiniteDocumentIsClassical | internal/requirement/evaluate.go:84-107 | the same over all candidates: a definite verdict says whether some candidate meets the requirement, however open predicates are decided |
| RequirementTheorems.OpenVerdictIsExplained | internal/requirement/evaluate.go:144-193 | an indeterminate tree always carries a diagnostic |
| RequirementTheorems.OpenDocumentIsExplained | internal/requirement/evaluate.go:84-107 | and so does an indeterminate document |
| RequirementTheorems.OpenExactlyWhenBothPossible | internal/requirement/evaluate.go:144-164 | a tree that asks for each capability once is indeterminate if and only if both truth values are possible |
| RequirementTheorems.AskingTwiceStaysOpen | internal/requirement/evaluate.go:144-164 | a tree that asks twice may stay indeterminate although its truth value is certain: any of a capability and its negation |
| RequirementTrace.ValidateRequirement | internal/output/trace.go:130-153 | accepts exactly the result trees within depth and node limits whose states and scopes are valid, and counts their nodes |
| RequirementTrace.ReportAcceptsVerdict | internal/output/trace.go:130-153 | every verdict on an accepted document is within the report limits, and it is accepted if and only if all candidate scopes are valid |
| RequirementTrace.RequirementDiagnosticBytes | internal/app/requirement_diagnostics.go:23-32 | sums the text of all diagnostics of a tree |
| RequirementTrace.OmitIntermediateDiagnostics | internal/app/requirement_diagnostics.go:34-42 | clears the diagnostics of every node with children, at any depth, and nothing else |
| RequirementTrace.EvaluationTrace.Compact | internal/app/requirement_diagnostics.go:12-21 | compacts exactly when the limit is exceeded, and then adds one diagnostic that says so |
| RequirementTrace.VerdictsAggregate | internal/requirement/evaluate.go:84-107 | in every verdict the diagnostics of an inner node are the concatenation of those of its children |
| RequirementTrace.CompactionIsLossless | internal/app/requirement_diagnostics.go:12-42 | the original tree can be rebuilt from the compacted one |
| RequirementTrace.CompactionKeepsStates | internal/app/requirement_diagnostics.go:12-42 | all states, reasons and scopes and the diagnostics of the root stay |
| RequirementTrace.CompactedWeighsTwiceTheLeaves | internal/app/requirement_diagnostics.go:12-42 | a compacted tree with children weighs exactly twice its leaves |
| RequirementOutcomes.UnfoldsToRepresented | internal/requirement/evaluate.go:20-79 | a pointer graph that represents a tree, node by node with one operator each, unfolds to that tree |
| RequirementOutcomes.UnfoldedIsRepresented | internal/requirement/evaluate.go:41-79 | and whatever unfolds within a depth is represented and no deeper |
| RequirementOutcomes.AcceptedExactly | internal/requirement/evaluate.go:115-142 | the candidates taken up: proper scope, at most 4096 entries, every capability canonical and of that scope, no id twice |
| RequirementOutcomes.PredicateDecides | internal/requirement/evaluate.go:166-193 | a capability is satisfied if and only if it is in the index as supported with evidence that all vouches for it, unsatisfied if and only if it is so in another state than supported, unknown or unavailable, and otherwise open with exactly one diagnostic, whose code is the first thing missing |
| RequirementOutcomes.TreeDecides | internal/requirement/evaluate.go:144-189 | over the candidate's own records: a tree is satisfied if and only if they prove that it holds, unsatisfied if and only if they prove that it does not |
| RequirementOutcomes.AnswerDecides | internal/requirement/evaluate.go:84-107 | a document of at most 32 levels and 512 nodes over one to 128 candidates is satisfied if and only if some acceptable candidate proves it, unsatisfied if and only if all are acceptable and disprove it; there is one result per candidate, under its scope |
| RequirementOutcomes.AnswerRefuses | internal/requirement/evaluate.go:84-90 | any other document, and no or too many candidates, are answered as indeterminate with the one diagnostic for it |
| RequirementOutcomes.RefusedCandidate | internal/requirement/evaluate.go:92-100 | a candidate that is not acceptable is open under its own scope, with its diagnostic |
| RequirementOutcomes.ResultShape | internal/requirement/evaluate.go:144-164 | a result names its operator and has the results of its children in order, with their diagnostics |
| RequirementOutcomes.GatheredInOrder | internal/requirement/evaluate.go:159-163 | diagnostics of a list are those of its elements one after the other |
| TraceOutcomes.AcceptedReportMeans | internal/output/trace.go:130-153 | the report validator accepts exactly the trees of at most 34 levels and 66000 nodes in which every node has one of the three states and a proper scope or none |
| TraceOutcomes.WeightMeans | internal/app/requirement_diagnostics.go:23-32 | the weight of a report is the text of all diagnostics of all its nodes and 64 characters for each |
| TraceOutcomes.CompactionMeans | internal/app/requirement_diagnostics.go:12-42 | up to 131072 the report stays; above, the root keeps its diagnostics and below it exactly the nodes without children do, everything else being unchanged |
| CatalogOutcomes.CapabilityFollowsEvidence | internal/capability/registry.go:71-117 | every capability of an evaluation: held back with the reason when the target is not identified or a dependency, the first one named, is not supported; otherwise its state is the one that the leading evidence of the candidate reports, with the least confidence that this evidence lends |
| CatalogOutcomes.ChainComesOut | internal/capability/registry.go:90-117 | the evidence at the end is what was there and what the definitions that ran added, in order |
| CatalogOutcomes.DocumentReadsCatalog | internal/requirement/evaluate.go:84-193 | a requirement document over an evaluated catalog is satisfied if and only if the capability states show that it holds, unsatisfied if and only if they show that it does not, and otherwise open with a diagnostic |
| CatalogOutcomes.UnknownNameStaysOpen | internal/requirement/evaluate.go:166-170 | a capability that no definition names, or its negation, is never decided and comes with a diagnostic |
| CatalogOutcomes.DiagnosticsMean | internal/capability/registry.go:105-110 | the diagnostics of an evaluation are those of its resolutions one after the other |
| CatalogOutcomes.ScopeKeepsOrder | internal/capability/registry.go:111-115 | the evidence of a candidate keeps its order |
| DefinitionOutcomes.RegistrableMeans | internal/capability/registry.go:31-59 | the catalogs that can be registered, written out over the definitions: valid, named once, dependencies defined and not repeated, at most 4096 definitions and 16384 dependencies, and no circle |
| DefinitionOutcomes.CatalogMeans | internal/capability/registry.go:50-59 | in a registered catalog every dependency is defined earlier |
| NamingOutcomes.CapabilityIDMeans | internal/model/capability.go:68-91 | an id is valid if and only if it is a canonical namespace and at least one more dot-separated segment of lower-case letters, digits and underscores |
| NamingOutcomes.LessMeans | internal/capability/resolver.go:28-29 | ids are ordered by their first different character, a proper prefix coming first |
| MemoryPath.MemoryWalk.LookUp | internal/platform/memory_path.go:75-84 | returns the entry, its forced error or not-exist, and records the path looked up |
| MemoryPath.MemoryWalk.Expand | internal/platform/memory_path.go:86-109 | counts the link first, fails over the limit, on an empty target and on a target outside the root, and otherwise puts the target before the rest of the path |
| MemoryPath.MemoryWalk.GoUp | internal/platform/memory_path.go:42-52 | refuses to leave the root and otherwise moves to the parent |
| MemoryPath.MemoryWalk.Enter | internal/platform/memory_path.go:55-69 | one component: stops, descends or follows a link, and changes the fields accordingly |
| MemoryPath.MemoryWalk.Resolve | internal/platform/memory_path.go:35-73 | the loop terminates by the remaining hops and then the pending length, and does what the recursive walk does, including every path it looks up |
| MemoryPath.ResolvePath | internal/platform/memory_path.go:22-33 | starts the walk at the root, or at the slash or dot when there is none |
| MemoryPath.WalkConcat | internal/platform/memory_path.go:35-73 | walking one path after another is walking their concatenation |
| MemoryPath.LinkResolvesInPlace | internal/platform/memory_path.go:60-65 | following a link is walking its target from where it stands and then the rest |
| MemoryPath.HopsAreBounded | internal/platform/memory_path.go:86-90 | a walk that starts within the limit follows at most as many links as the limit, and fails for too many only when it goes one over |
| MemoryPath.LimitOnlyCutsOff | internal/platform/memory_path.go:86-90 | raising the limit changes no walk that was not cut off by it |
| MemoryPath.WalkStaysUnder | internal/platform/memory_path.go:35-73 | from a directory below the root every lookup and every place reached is below the root, through directories |
| MemoryPath.ResolutionIsContained | internal/platform/memory_path.go:35-116 | for every tree and every clean absolute root all lookups are clean absolute paths within the root, and with followFinal a link is returned only as the root entry itself |
| MemoryPath.RootLinkIsReturned | internal/platform/memory_path.go:36-73 | the plain promise fails: when the root entry is a link that can be read, the path / returns it, followFinal or not |
| MemoryPath.LinkIsReturnedIffRootIsLink | internal/platform/memory_path.go:35-73 | with followFinal some path returns a link if and only if the root entry is a link that can be read |
| MemoryPath.PlainPathIsFound | internal/platform/memory_path.go:55-72 | a plain path through directories is found with one lookup per component and no hops |
| Paths.CleanIsRender | internal/platform/memory_path.go:55-55 | cleaning an absolute path yields normal components, joined |
| Paths.JoinRender | internal/platform/memory_path.go:55-55 | joining one normal component to a clean path appends it |
| Paths.DirRender | internal/platform/memory_path.go:44-44 | the parent of a clean path drops its last component, and the root is its own parent |
| MemoryReference.WalkIsLocate | internal/platform/memory_path.go:35-116 | below a clean absolute root, or from the top of the tree, the walk on path strings is a walk on lists of components that reads kinds and link targets from the stored entries: same place or same error, after as many links |
| MemoryReference.ResolutionIsLocated | internal/platform/memory_path.go:22-73 | so resolution returns the entry at the place that the path's components lead to, or the error found there or on the way |
| MemoryReference.RelativeLinkLeads | internal/platform/memory_path.go:60-65 | a relative target of plain names leads down from the directory that holds the link |
| MemoryReference.UpwardLinkLeads | internal/platform/memory_path.go:42-65 | a target that starts with .. leads down from the directory above the one that holds the link |
| MemoryReference.AbsoluteLinkLeads | internal/platform/memory_path.go:94-107 | an absolute target below the root leads to itself |
| MemoryRelative.RelativeIsLocated | internal/platform/memory_path.go:22-116 | the same account of relative paths without a root: .. may leave the working directory upwards without end, and an absolute link leads to the top of the tree |
| PathOutcomes.CleaningMeans | internal/platform/memory_path.go:44-55 | cleaning drops empty components and dots, and .. takes away the name before it and does nothing at the root |
| PathOutcomes.CleanRelative | internal/platform/memory_path.go:44-55 | a relative path of leading .. and plain names is clean |
| PathOutcomes.JoinUpRelative | internal/platform/memory_path.go:45-47 | joining .. to a relative path leads out of its last name or one level further up |
| PathOutcomes.DirRelative | internal/platform/memory_path.go:44-44 | the directory of a relative path drops its last name |
| SubIDs.ReadLines | internal/host/subids.go:36-83 | the scanning loop takes exactly the first records up to the limit, collects ranges, records and intervals in file order, and reports a malformed line or the limit exactly when there is one |
| SubIDs.SweepFindsClashes | internal/host/subids.go:85-93 | in a list sorted by start, comparing with the largest end before and the next start finds exactly the intervals that meet another one |
| SubIDs.Sweep | internal/host/subids.go:84-93 | however ties are sorted, marks exactly the selected records whose interval meets another interval of the file, and reports malformed exactly when there is one |
| SubIDs.ParseSubIDs | internal/host/subids.go:23-103 | the allocation is valid if and only if the input and limit are in order, every line looked at parses and no selected record overlaps; overlapped records are marked; a valid allocation has pairwise disjoint ranges that the model check accepts and an exact total of at most 2^32 - 1 |
| SubIDs.ValidFileGivesPool | internal/host/subids.go:94-102 | the ranges of a valid file pass the model check, are pairwise disjoint and add up to at most 2^32 - 1 |
| SubIDs.RangesAreValid | internal/model/target.go:87-111 | sorting a copy and sweeping it accepts exactly the lists of valid, pairwise disjoint ranges |
| SubIDs.DisjointTotal | internal/model/target.go:79-111 | disjoint ranges below a bound add up to at most the bound |
| SubIDLines.LineMeans | internal/host/subids.go:45-70 | a line is about the user if and only if its first field is the user's nonempty name or number, and gives a range if and only if it has three fields: a name, the start and the length, both numbers below 2^32 - 1 |
| SubIDLines.WrittenLineMeans | internal/host/subids.go:45-70 | the line made of a name, a start and a length gives back exactly that start and that length |
| SubIDLines.OverlapMeans | internal/host/subids.go:84-93 | the record of a line about the user is marked if and only if its range and that of another line, about anyone, have an id in common |
| SubIDLines.RangesMean | internal/host/subids.go:61-66 | the ranges of a file are those of the lines about the user, in order |
| SubIDLines.RecordsMean | internal/host/subids.go:49-83 | the record of each line about the user has its number, its first field, its range if it gives one, and its problem: overlap, invalid or none |
| SubIDLines.EveryRecordIsALine | internal/host/subids.go:49-83 | and there are no other records |
| SubIDLines.ValidityMeans | internal/host/subids.go:36-103 | a file is valid if and only if it has at most 2048 lines that count, each gives a valid range, and none about the user has an id in common with another |
| SubIDLines.RefusedMeans | internal/host/subids.go:25-27 | a file with too much text, too many or too long lines or a NUL, and a user with unacceptable numbers or groups, are refused with nothing listed |
| SubIDLines.OneLineFile | internal/host/subids.go:23-103 | a file of one well-formed line gives its range, its length as the total and one record when the line is about the user, and nothing when it is not |
| NamingOutcomes.DecimalMeans | internal/host/target.go:77-88 | numbers are read in base ten, digit by digit |
| EngineConfig.MergeList | internal/config/engine.go:226-259 | one merge: an absent layer keeps the previous list, a sticky append flag extends it, anything else restarts it, with one origin per value and shifted marks |
| EngineConfig.FoldIsConcatenation | internal/config/engine.go:226-259 | folding any layers gives the entries since the last reset, each with its own value, origin and marks; the flag is the last one given and the inherited default survives only without a reset |
| EngineConfig.LastResetIsLast | internal/config/engine.go:240-246 | the last reset is one and no later layer is |
| EngineConfig.MergeRedacted | internal/config/engine.go:261-281 | one merge of the redacted list |
| EngineConfig.RedactionCommutes | internal/config/engine.go:261-281 | folding the redacted lists is redacting the fold: same count, flag, inherited default and source over any layers |
| EngineConfig.MergeEngine | internal/config/engine.go:192-213 | merges each field by its own rule and remembers overrides |
| EngineConfig.ListsFold | internal/config/engine.go:192-213 | over any number of documents the four lists of the engine are the folds of the lists of its documents, the environment in redacted form |
| EngineConfig.ScalarsFold | internal/config/engine.go:192-224 | over any number of documents the runtime is the last one set, the cgroup manager is the last one set with the invalid mark of its document, an override anywhere stays, and the counts of unprojected fields add up |
| EngineConfig.RuntimesFold | internal/config/engine.go:192-213 | a runtime entry is that of the last document that names it, started afresh, and others stay |
| EngineConfig.EngineCollector.File | internal/runtime/podman/engine.go:211-301 | the configuration is always the fold of the documents parsed before the first failing source, and the start if the sources are not known to apply; a later document is not applied |
| NetworkConfig.MergeNetwork | internal/config/network.go:170-203 | one merge field by field: strings and port are replaced with their source, lists follow the overlay rule of the engine, pasta options the redacted rule, counts add up, and plans derived earlier are dropped |
| NetworkConfig.NetworkListsFold | internal/config/network.go:170-203 | over any number of documents every list is the fold of its own layers, and so are the redacted pasta options |
| NetworkConfig.NetworkScalarsFold | internal/config/network.go:170-203 | over any number of documents every string and the port are the last ones set, with their source and mark |
| NetworkConfig.NetworkCollector.File | internal/runtime/podman/network_configuration.go:71-129 | the network configuration is always the fold of the documents parsed before the first failing source, under the same proviso |
| NetworkConfig.FoldKeepsRedaction | internal/config/network.go:205-234 | merging any number of parsed documents never leaves text in a string marked invalid |
| ConfigOutcomes.ListMeans | internal/config/engine.go:226-259 | a list after any layers: the entries of the layers since the last that starts it anew, behind the starting list when none does; a layer starts anew unless the last append flag given, up to and including its own, is true |
| ConfigOutcomes.ListSourceMeans | internal/config/engine.go:226-259 | a list is there when it was or some layer has it, and its source is that of the last such layer |
| ConfigOutcomes.RuntimeMeans | internal/config/engine.go:192-213 | the runtime is that of the last document that sets one |
| ConfigOutcomes.CgroupManagerMeans | internal/config/engine.go:192-213 | the cgroup manager is that of the last document that sets one, with that document's mark |
| ConfigOutcomes.CountsMean | internal/config/engine.go:192-213 | an override in any document counts, and fields outside the model add up |
| ConfigOutcomes.NamedRuntimeMeans | internal/config/engine.go:192-213 | a named runtime has exactly the values, marks and flag of the last document that names it, all with that source |
| ConfigOutcomes.UnnamedRuntimeMeans | internal/config/engine.go:192-213 | a runtime that no document names stays as it was |
| ConfigOutcomes.StringMeans | internal/config/network.go:170-203 | a network string is that of the last document that sets it, with its mark and that source |
| ConfigOutcomes.PortMeans | internal/config/network.go:170-203 | the port is that of the last document that sets one |
| ConfigOutcomes.NetworkCountsMean | internal/config/network.go:170-203 | fields outside the model add up, and any merge drops earlier plans |
| ConfigOutcomes.ParsedStringMeans | internal/config/network.go:205-234 | an unknown choice is marked invalid and loses its text, an unacceptable path or name is refused, and an old version ignores the firewall driver |
| ConfigOutcomes.AppliedMeans | internal/runtime/podman/engine.go:211-301 | documents count, in order, as long as no source has failed; after a failure none does |
| HelperPlans.NetworkHelperPaths | internal/runtime/podman/network_configuration.go:154-202 | no plans for an incomplete or unmodelled engine; otherwise exactly the specified plan of each of the four roles |
| HelperPlans.WalkDirectories | internal/runtime/podman/network_configuration.go:177-192 | the directory loop stops at the first $BINDIR and gives each earlier directory its path and origin |
| HelperPlans.NetworkPlanBound | internal/capability/network_helpers.go:153-187 | the validator accepts exactly the plans it recomputes from the engine |
| HelperPlans.ProducedPlansAreBound | internal/capability/network_helpers.go:153-187 | a produced plan that is not inherited is accepted by the validator if and only if it is not the slirp4netns plan of a command path marked invalid that still has text |
| HelperPlans.MergedPlansAreBound | internal/capability/network_helpers.go:153-187 | over merged configurations, whose invalid strings carry no text, every produced plan that is not inherited is accepted |
| HelperPlans.CollectedPlansAreBound | internal/capability/network_helpers.go:153-187 | every produced plan that is not inherited, over a network configuration folded from parsed documents, is accepted |
| HelperPlans.InvalidCommandPathIsUnbound | internal/capability/network_helpers.go:158-162 | the exception is real: a concrete network configuration whose produced plan is rejected |
| HelperOutcomes.PlansMean | internal/runtime/podman/network_configuration.go:154-202 | which of the four network programs gets a plan, and what it is: the configured command path of slirp4netns alone, or the program in each directory before the first $BINDIR, with its origin, and for pasta and slirp4netns in the two system directories |
| HelperOutcomes.BinDirMeans | internal/runtime/podman/network_configuration.go:177-192 | a directory depends on the build when it holds $BINDIR anywhere |
| HelperOutcomes.PlanBoundMeans | internal/capability/network_helpers.go:153-187 | a plan is bound if and only if it is not inherited and is the valid command path of slirp4netns alone, or the full list of paths over known directories without $BINDIR |
| HelperSearch.Search.Candidate | internal/runtime/podman/configured_helpers.go:96-139 | records what was measured of one name, fails exactly on the limit, cancellation, an unsafe path, an unreadable entry, an unanswered access query or a special fallback, and stops a complete search exactly at a name that may be taken |
| HelperSearch.RunConfigured | internal/runtime/podman/configured_helpers.go:31-94 | a complete search measured the configured names and then the fallbacks in order, selected the first suitable one and stopped there, or tried them all; without trouble it is complete |
| HelperSearch.RunNetwork | internal/runtime/podman/network_helpers.go:31-58 | the same over the plan of a network role |
| HelperSearch.ConfiguredPathsMatch | internal/capability/engine.go:137-181 | the validator accepts exactly the candidate lists that follow the names it recomputes |
| HelperSearch.NetworkPathsMatch | internal/capability/network_helpers.go:30-43 | the same for a network plan |
| HelperSearch.ConfiguredState | internal/capability/engine.go:98-135 | the state given to a configured search: unknown unless the parse is supported and the names match, else decided by its last candidate |
| HelperSearch.NetworkHelperState | internal/capability/network_helpers.go:45-70 | the state given to a network search, with and without the access query |
| HelperSearch.ConfiguredSearchIsDecided | internal/capability/engine.go:98-181 | a complete search over a supported parse is accepted, and it is supported exactly when the selected file can be run and misconfigured otherwise |
| HelperSearch.NetworkSearchIsDecided | internal/capability/network_helpers.go:30-70 | the same for network searches |
| HelperSearch.MeasureConfigured | internal/capability/engine.go:98-135 | search and validator composed: a complete measurement over a supported parse is supported if and only if the first suitable name is a regular file with an execute bit that the process may run, and misconfigured otherwise |
| HelperSearch.MeasureNetwork | internal/capability/network_helpers.go:45-70 | the same for network searches |
| HelperSearch.SearchSelectsChosen | internal/runtime/podman/configured_helpers.go:96-139 | a complete search selects the first suitable name and stops there, with as many candidates: a configured name is suitable by its kind alone, regular or for conmon anything but a directory, whatever access answers, and a fallback when it is regular and access is granted; without a suitable name it tries all of them |
| HelperOutcomes.ConmonNames | internal/runtime/podman/configured_helpers.go:75-81 | the names for conmon: its configured paths, then /usr/bin/conmon and /bin/conmon |
| HelperOutcomes.RuntimeNames | internal/runtime/podman/configured_helpers.go:75-95 | the names for the runtime: an absolute path as configured and as fallback, or the paths of its name and then the name in the two system directories |
| HelperOutcomes.QuietMeans | internal/runtime/podman/configured_helpers.go:96-128 | a search meets no trouble if and only if there is room for every name, the context is not canceled, every name is safe to look at, and the file system answers what is asked |
| HelperOutcomes.MeasuredMeans | internal/runtime/podman/executables.go:102-140 | what is recorded of a name: whether it is there, its kind and execute bits, and whether it can be run |
| HelperOutcomes.SafeInfoPathMeans | internal/runtime/podman/info_values.go:52-55 | a clean absolute path is looked at if and only if it has at most 4096 bytes and no control character |
| HelperOutcomes.SafeInfoPathIsClean | internal/runtime/podman/info_values.go:52-55 | and nothing else is looked at |
| HelperOutcomes.ConfiguredStateMeans | internal/capability/engine.go:98-181 | from any record: supported if and only if the sources are in order, nothing overrides the selection, the record lists the names up to the selected one and its last candidate is a regular file that can be run; unknown if and only if the record does not fit or says too little |
| HelperOutcomes.NetworkHelperStateMeans | internal/capability/network_helpers.go:30-70 | the same for network helpers over their plan, where without the access query the execute bits decide |
| BoundedIO.BoundedBuffer.Grow | internal/platform/runner.go:118-125 | a regrowth makes room within the capacity and copies only what is held |
| BoundedIO.BoundedBuffer.Write | internal/platform/runner.go:108-129 | takes everything it is given, keeping the buffer at the first capacity bytes of all writes, with the backing and the copied bytes within their bounds |
| BoundedIO.BoundedBuffer.Bytes | internal/platform/runner.go:132-137 | the first capacity bytes of everything written |
| BoundedIO.BoundedBuffer.Truncated | internal/platform/runner.go:139-144 | true exactly when more than the capacity was written |
| BoundedIO.WriteAll | internal/platform/runner.go:99-144 | over any writes: contents, truncation, allocation within capacity, and fewer than twice capacity bytes copied in all regrowths when the capacity is positive, none when it is zero |
| BoundedIO.ReadBounded | internal/platform/bounded_io.go:66-97 | ends for every reader within 9 (limit + 1) calls, each asked for the space left and never more than one byte over the limit; the data are the first limit bytes of all answers; over the limit exactly when they hold more, successful exactly when the last answer is the end and the context is not canceled, incomplete exactly within the limit on cancellation, another error, or one interruption more than the eight retried |
| BoundedIO.ReadingIsAnswered | internal/platform/bounded_io.go:66-97 | those answers are the reader's own, call by call, each for the space that was left, as long as nothing ends the reading |
| BoundedIO.AnswersAreDetermined | internal/platform/bounded_io.go:66-97 | any series of answers with that property that has come to its end is the same series, so the result is determined by the reader |
| InputOutcomes.ReadMeans | internal/platform/bounded_io.go:66-97 | each call is given 4096 bytes, one more than the limit, or one more than is left of it, whichever is least; the reading stops at the end, over the limit, at a failure, at the ninth interruption in a row without bytes after the first, or when canceled, and returns the first bytes with the outcome that says which |
| CommandKey.KeyBuilder.WriteField | internal/platform/runner.go:318-337 | appends the length, a colon and the text |
| CommandKey.FakeKey | internal/platform/runner.go:318-337 | builds the key of a command |
| CommandKey.DecodeUndoesKey | internal/platform/runner.go:318-337 | a decoder recovers path, directory, timeout, arguments and environment from every key |
| CommandKey.KeyIsInjective | internal/platform/runner.go:318-337 | two commands have the same key if and only if path, directory, timeout, argument vector and effective environment list are equal |
| InputOutcomes.KeyParts | internal/platform/runner.go:318-337 | a key is the path, the directory, the signed decimal timeout, the arguments behind their number and the variables behind theirs, each text behind its length and a colon |
| InputOutcomes.DefaultEnvironment | internal/platform/runner.go:318-337 | a command without an environment of its own has the key of one with LC_ALL=C and the default PATH |

## Left out

- MemoryPath.ResolutionIsContained: is stated for a clean absolute root, and for an empty root with an absolute path; a relative path without a root walks relative names, to which containment does not apply.
- BoundedIO.ReadBounded: relies on the contract of a read call, that a call with a negative count delivers nothing and has an error; a reader that breaks it is not modelled.
- HelperPlans.MergedPlansAreBound: leaves out configurations with text in an invalid string, for which `HelperPlans.ProducedPlansAreBound` gives the exact condition.
- EngineConfig.EngineCollector.File: a source is reduced to absent, failing or parsed; limits, digests and the records kept of each source are left out.
- NetworkConfig.NetworkCollector.File: the same for the network documents.
- RequirementTheorems.OpenExactlyWhenBothPossible: is limited to documents that ask for each capability once, because `RequirementTheorems.AskingTwiceStaysOpen` shows a document that asks twice for which it fails.
- Resolver.OrderDoesNotMatter: needs distinct evidence ids, as the registry ensures before it resolves; the source's sort leaves the order of equal ids open.
- CapabilityRegistry.Registry.Evaluate: takes evaluators as pure functions of scope and observations; the bodies of the built-in evaluators are not modelled.
- Orchestrator.Run with no probes returns at once; the transition system starts from at least one probe.
- The scheduler counter is an unbounded integer; its 32-bit width, durations and observations of a probe are left out.
- Mutexes are modelled by making each critical section one step; memory effects between unlocked accesses and spurious wakeups of the condition variable are left out.
- Contexts appear as one cancellation step at any time (scheduler) or as an answer at each step (searches and reader).
- Observation payloads, facts beyond their metadata, and cloning of records: values are immutable here.
- Whether the execution and target identity of a context are known is an input of the evaluation.
- Timestamps are integers with zero as the unset time.
- Error texts are constructors; wrapped messages are not modelled, and a rejected document keeps its reason open.
- Parsing of TOML, JSON and requirement files: parsed layers and documents are inputs.
- Result of the requirement engine and its projection into the report share one type; the projection copies field by field.
- Evidence builders around the search states and the binding of configuration versions: only the decided state is modelled.
- Helper roles are an enumeration with one open case, and strings are sequences of characters taken as bytes.
- Generator masks, ownership and device numbers of executables: the searches modelled do not decide by them.
- SubIDs models the parser of a file; reading the files and choosing a provider is left out.
- System calls, descriptors, process spawning, signals and the command runner around the bounded buffer.
- Command-line handling, explanations, fixtures and the other host probes, which map values one by one.
