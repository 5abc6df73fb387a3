# Verification of the agent orchestration core

This project models the decision-making core of the repository in Dafny and proves what it promises over all
inputs, all interleavings and all reachable states. `dafny verify dfyconfig.toml` checks the whole project.

**The execution scheduler** (`Graph`, `Validation`, `SchedulerModel`, `SchedulerSafety`, `SchedulerConfluence`,
`SchedulerProgress`, `SchedulerDeadlock`, `BlockDependents`). `SchedulerModel` is a state machine
with one step for each synchronous stretch of `ExecutionGraph.ts` between two awaits; suspended calls are multisets
of nodes (waiting for a slot, in the handler, backing off, about to give a slot back), and the outcome of each
attempt comes from an oracle on (node, attempt). Proved are safety of every reachable state, confluence (the final
status of each node is a recursive function of the graph and the outcomes), termination, and the exact condition for
progress: a retrying node keeps its old slot while it waits for a new one, so a graph can get stuck with every slot
held by nodes waiting to retry, and no run gets stuck if and only if every set of retry-capable nodes of which none
depends on another is smaller than the concurrency limit.

**Handlers that throw at once** (`SchedulerStack`, `SchedulerRefinement`, `SchedulerStackRuns`, `SchedulerPoised`,
`SchedulerShortcut`, `SchedulerTwice`, `SchedulerEntries`, `DefinitionOutcome`, `ExecutionGraph`). A node whose type
has no handler, or whose handler throws synchronously instead of returning a promise, fails inside the loop that
schedules it, and its dependents are scheduled in a loop inside that loop. (An `async` handler that throws returns a
rejected promise and suspends.) The second machine therefore carries the call stack. The program can then schedule a
node twice, against its own bound on attempts (`ScheduledTwice`). The exact condition is proved: no run does so,
whatever the limit and the handlers, if and only if the definition has no shortcut (`NeverTwiceExactly`). Without a
shortcut every run refines one of the first machine and inherits its theorems. `SchedulerEntries` makes exact, on this
machine, what the entry loop does with a list of entry nodes that repeats or leaves out roots. The class
`ExecutionGraph.Scheduler` has the source's fields and methods, each shown to take steps of the second machine, up to
`Execute` and the end-to-end `RunGraph`. `DefinitionOutcome` says what a run ends with in terms of the definition
alone: who runs, and after how many of its 1 + maxRetries attempts.

**Condition expressions** (`Whitespace`, `ConditionLexer`, `ConditionParser`, `ConditionEvaluator`,
`ConditionMeaning`, `ConditionChains`, `ConditionNumbers`): a string evaluates to true if and only if it is the
printing, with any white space, of an expression with a truthy value, and it is the printing of at most one tree. The
grammar comment (`StandardPipelines.ts:1726-1733`) allows chains of comparisons; the code takes at most one operator,
and the model follows the code: no accepted string holds a chain anywhere (`ChainedComparisonIsFalse`). What the
operators mean is said of whole numbers and truth values (`ComparisonIsTrue`, `ConnectivesMean`).

**Critical path** (`CriticalPath`): the memoised search is optimal over all dependency chains.

**Message buses** (`MessageBus`, `MessageBusRuns`, `MessageBusDelivery`, `RedisBus`): run invariants of the in-memory
bus and the four ways, no more and no fewer, in which a message leaves its queue; safety of the request and response
protocol of any number of Redis bus instances over a lossy channel, and that at
any point of a run a request to a registered agent can still be answered.

**Shared context** (`SharedContext`, `SharedHistories`, `ContextQuery`, `StoreQuery`): every answer of both stores
follows from the operations before it alone (`MemAnswersByHistory`, `RedisAnswersByHistory`). The Redis store and the
in-memory store agree on a history if and only if it holds no read, by an agent it was shared with, of an entry that
was set as PRIVATE and shared since (`share` does not rewrite the metadata key that `get` looks at first). Queries
filter and page alike however a scan is batched; the Redis query does not look at the metadata and gives exactly those
entries that the Redis `get` denies for that reason.

**Rate limiter** (`RateLimiter`): lazy clean-up is unobservable as long as clock readings do not go back, the
retry-after is exact, and the sharp bound on admissions in an interval of one window is 2 * Limit - 1.

**Approvals** (`Approvals`, `ApprovalManager`): requests are decided at most once and promises agree with them. Two
ways in which they can fail to agree are made exact: a decision taken by a listener of the "requested" event comes
before the promise listens and is lost, and without `autoDenyOnTimeout` a timed-out, rejected request can still be
approved. Without batches a tenant never exceeds its number of pending requests; a batch can take it over.

**Kernels**: budgeted AST serialisation (`AstBudget`), the chunked event-stream reader (`EventStream`), the check
digit test of ISO/IEC 7812-1 Annex B (`Luhn`) and the ustar reader (`TarArchive`, `TarEncoding`), which reads back
every ustar archive but can run backwards or for ever on an archive with a negative size field.

## Model

| member | source | states |
|---|---|---|
| `Validation.CycleSearch.Dfs` | services/orchestrator/src/agents/ExecutionGraph.ts:203-221 | a throw comes with a concrete dependency cycle; a return ranks the node above all its dependencies and restores the recursion stack |
| `Validation.SearchFromAll` | services/orchestrator/src/agents/ExecutionGraph.ts:222-231 | the search from every node throws if and only if the dependency relation has a cycle, and otherwise yields a topological ranking |
| `Validation.DetectCycles` | services/orchestrator/src/agents/ExecutionGraph.ts:199-231 | the same for the graph built from a list of node definitions, whatever the list |
| `Validation.CheckNodes` | services/orchestrator/src/agents/ExecutionGraph.ts:150-178 | passes exactly when the schema bounds of every field but `config` hold, ids are unique and dependencies exist; each error names a real offender |
| `Validation.ValidateGraph` | services/orchestrator/src/agents/ExecutionGraph.ts:150-197 | accepts exactly the well-formed acyclic graphs; the cycle error appears exactly for well-formed cyclic ones; the "no entry nodes" error is unreachable |
| `Validation.AcyclicHasEntry` | services/orchestrator/src/agents/ExecutionGraph.ts:183-194 | a ranked well-formed graph has a node without dependencies, so derived entries are never empty |
| `Validation.RootsListedOnce` | services/orchestrator/src/agents/ExecutionGraph.ts:183-187 | derived entry nodes list every root exactly once and nothing else |
| `Graph.RankedHasNoCycle` | services/orchestrator/src/agents/ExecutionGraph.ts:199-231 | a topological ranking excludes every cycle: the converse that makes cycle detection an equivalence |
| `BlockDependents.BuildDependencyMap` | services/orchestrator/src/agents/ExecutionGraph.ts:237-247 | the map sends each node to exactly the nodes that depend on it, once each and in the order of the definition |
| `BlockDependents.MarkBlockedDependents` | services/orchestrator/src/agents/ExecutionGraph.ts:528-555 | the breadth-first loop blocks exactly the PENDING nodes reachable from the failed node through PENDING nodes, and changes nothing else |
| `BlockDependents.SpreadIsMarkBlocked` | services/orchestrator/src/agents/ExecutionGraph.ts:528-555 | a partly blocked status map closed under the spreading rule is the declarative blocked set |
| `SchedulerSafety.InitInv` | services/orchestrator/src/agents/ExecutionGraph.ts:288-304 | the state after scheduling the entry nodes satisfies the run invariant |
| `SchedulerSafety.StepKeeps` | services/orchestrator/src/agents/ExecutionGraph.ts:362-555 | with handlers that suspend, every stretch of code between two awaits (and `stop`) keeps the run invariant |
| `SchedulerSafety.RunInv` | services/orchestrator/src/agents/ExecutionGraph.ts:288-555 | with handlers that suspend, the invariant holds in every state of every run, under every interleaving |
| `SchedulerSafety.BlockedIsDescendants` | services/orchestrator/src/agents/ExecutionGraph.ts:506-555 | the BLOCKED nodes are exactly the descendants of nodes FAILED without continueOnError |
| `SchedulerSafety.RunSafety` | services/orchestrator/src/agents/ExecutionGraph.ts:362-555 | with handlers that suspend, in every reachable state: RUNNING nodes <= activeExecutions <= limit; started nodes have satisfied dependencies; no node is scheduled twice; waiting, running and retry-waiting nodes are not BLOCKED; attempts <= maxRetries + 1; BLOCKED is exact |
| `SchedulerConfluence.RankIrrelevant` | services/orchestrator/src/agents/ExecutionGraph.ts:370-400 | the recursive final status does not depend on the ranking used to compute it |
| `SchedulerConfluence.TerminalIsFinal` | services/orchestrator/src/agents/ExecutionGraph.ts:414-555 | a node that is terminal in any reachable unstopped state already has its recursive final status and number of attempts |
| `SchedulerConfluence.Confluence` | services/orchestrator/src/agents/ExecutionGraph.ts:288-555 | every complete run, whatever the interleaving and limit, ends with the recursively defined status and attempts of each node, and throws exactly when some node without continueOnError finally fails |
| `SchedulerConfluence.RunsAgree` | services/orchestrator/src/agents/ExecutionGraph.ts:288-555 | two complete runs of a graph with any two limits and entry orders end in the same statuses and attempts |
| `SchedulerConfluence.ThrowsIffFailsHard` | services/orchestrator/src/agents/ExecutionGraph.ts:309-325 | the failure test over the final statuses agrees with the recursive definition |
| `SchedulerProgress.MeasureFalls` | services/orchestrator/src/agents/ExecutionGraph.ts:402-555 | every step other than polling and `stop` lowers a natural-number measure |
| `SchedulerProgress.RunsAreFinite` | services/orchestrator/src/agents/ExecutionGraph.ts:402-592 | an unstopped run has at most as many steps as the initial measure |
| `SchedulerProgress.StuckMeansBackoff` | services/orchestrator/src/agents/ExecutionGraph.ts:402-412 | a stuck state is one in which every slot is held by a node waiting to retry |
| `SchedulerProgress.BackoffIsAntichain` | services/orchestrator/src/agents/ExecutionGraph.ts:467-498 | the nodes waiting to retry are retry-capable and none depends on another |
| `SchedulerProgress.Progress` | services/orchestrator/src/agents/ExecutionGraph.ts:402-412 | if every antichain of retry-capable nodes is smaller than the limit, no reachable state is stuck |
| `SchedulerDeadlock.StuckRunExists` | services/orchestrator/src/agents/ExecutionGraph.ts:467-498 | conversely, from any antichain of retry-capable nodes as large as the limit a run into a stuck state is built |
| `SchedulerDeadlock.ProgressExactly` | services/orchestrator/src/agents/ExecutionGraph.ts:402-412 | no run for any outcomes gets stuck if and only if every antichain of retry-capable nodes is smaller than the limit |
| `SchedulerDeadlock.FewRetryingNodes` | services/orchestrator/src/agents/ExecutionGraph.ts:467-498 | fewer retry-capable nodes than slots is enough |
| `SchedulerDeadlock.OneSlotOneRetryIsStuck` | services/orchestrator/src/agents/ExecutionGraph.ts:497-498 | with limit 1, one node with a retry policy whose first attempt fails is stuck for ever |
| `SchedulerDeadlock.MaximalRunsEndRight` | services/orchestrator/src/agents/ExecutionGraph.ts:288-592 | with enough slots every unstopped run is bounded, and one that cannot go on has all nodes terminal with their final outcome |
| `SchedulerEntries.EntryScheduledAgain` | services/orchestrator/src/agents/ExecutionGraph.ts:362-412 | from the first mention of a root on, the entry loop schedules it again if and only if it is mentioned again and either no slot was free or its handler threw at once and it may retry; without a free slot it waits once per mention |
| `SchedulerEntries.EntryScheduledExactly` | services/orchestrator/src/agents/ExecutionGraph.ts:362-412 | for any entry list and any handlers the loop comes to the first mention of each listed root, and that condition there is exact for its being scheduled more than once |
| `SchedulerEntries.EntriesScheduled` | services/orchestrator/src/agents/ExecutionGraph.ts:362-412 | with handlers that suspend, a listed root is scheduled once if fewer different roots than there are slots come before its first mention, and otherwise once per mention |
| `SchedulerEntries.LoopsEnd` | services/orchestrator/src/agents/ExecutionGraph.ts:362-368 | every scheduling loop, with the loops that throwing handlers start inside it, comes to its end |
| `SchedulerEntries.DoubledEntryWaitsTwice` | services/orchestrator/src/agents/ExecutionGraph.ts:362-412 | entries `[b, a, a]` with limit 1: `a` waits for a slot twice |
| `SchedulerEntries.DoubledEntryBeginsOnce` | services/orchestrator/src/agents/ExecutionGraph.ts:362-412 | entries `[a, a]` with limit 10: `a` is scheduled once, since it is RUNNING at its second mention |
| `SchedulerEntries.DoubledEntryThrows` | services/orchestrator/src/agents/ExecutionGraph.ts:362-498 | the same entries and limit with a retry and a handler that throws at once: `a` is PENDING again at its second mention and is scheduled twice |
| `SchedulerEntries.MissingRootNeverRuns` | services/orchestrator/src/agents/ExecutionGraph.ts:288-304 | whatever the handlers, a root that a supplied entry list leaves out never runs, and no run completes |
| `SchedulerEntries.EntriesMustBeRoots` | services/orchestrator/src/agents/ExecutionGraph.ts:288-304 | if some run completes, the entry list names every root at least once |
| `SchedulerRefinement.LoopedTwiceIsShortcut` | services/orchestrator/src/agents/ExecutionGraph.ts:362-368 | a node that may run from an inner scheduling loop while an outer one still has it as a candidate is reached by a shortcut |
| `SchedulerRefinement.VisitKeeps` | services/orchestrator/src/agents/ExecutionGraph.ts:362-368 | without a shortcut every turn of a scheduling loop, also one that runs a throwing handler to its end, keeps the order of the call stack and is followed by steps of the machine without it |
| `SchedulerRefinement.EventKeeps` | services/orchestrator/src/agents/ExecutionGraph.ts:362-555 | the same for every event of the scheduler with a call stack |
| `SchedulerStackRuns.Refines` | services/orchestrator/src/agents/ExecutionGraph.ts:288-555 | without a shortcut every run with handlers that may throw at once is followed by a run with handlers that suspend and the same outcomes |
| `SchedulerStackRuns.StackSafety` | services/orchestrator/src/agents/ExecutionGraph.ts:362-555 | run safety for any handlers, missing ones and ones that throw synchronously instead of returning a promise included, on definitions without a shortcut through such nodes |
| `SchedulerStackRuns.StackConfluence` | services/orchestrator/src/agents/ExecutionGraph.ts:288-555 | confluence for any handlers on such definitions |
| `SchedulerStackRuns.EventFalls` | services/orchestrator/src/agents/ExecutionGraph.ts:362-555 | every event but `stop` lowers a well-founded measure |
| `SchedulerStackRuns.StackProgress` | services/orchestrator/src/agents/ExecutionGraph.ts:402-412 | with enough slots for retries some event is possible until all nodes are terminal |
| `SchedulerStackRuns.StopEndsRetries` | services/orchestrator/src/agents/ExecutionGraph.ts:466-471 | once a run is stopped no failure is retried: the calls that wait to retry are among those that already did |
| `SchedulerPoised.PoisedIsReachable` | services/orchestrator/src/agents/ExecutionGraph.ts:402-459 | with two slots or more, a run leads to the state in which a given node is the only one left in its handler, all that does not depend on it is completed, and nothing else has begun |
| `SchedulerShortcut.FoundBeforeItsTurn` | services/orchestrator/src/agents/ExecutionGraph.ts:362-368 | where there is a shortcut, the loop over the dependents of its first node schedules its last one from within before it turns to it |
| `SchedulerShortcut.ShortcutIsTaken` | services/orchestrator/src/agents/ExecutionGraph.ts:362-412 | where there is a shortcut, some limit and some handlers give a run in which a node waits for a slot twice |
| `SchedulerShortcut.NeverTwiceExactly` | services/orchestrator/src/agents/ExecutionGraph.ts:362-525 | whatever the limit and the handlers, no run schedules a node twice if and only if the definition has no shortcut: no node `y` that depends on `n` both directly and through other nodes, all of them marked continueOnError and without retries (or with, if runs may be stopped), the first of which come before `y` in the definition |
| `SchedulerTwice.ScheduledTwice` | services/orchestrator/src/agents/ExecutionGraph.ts:362-412 | n, x (on n, continueOnError, throwing at once) and y (on n and x) with two slots: y waits twice, and then runs its handler twice at the same time on more attempts than it is granted |
| `ExecutionGraph.Scheduler.CheckExecutable` | services/orchestrator/src/agents/ExecutionGraph.ts:370-400 | the loop answers whether the node is PENDING with every dependency COMPLETED or FAILED with continueOnError |
| `ExecutionGraph.Scheduler.ScheduleNode` | services/orchestrator/src/agents/ExecutionGraph.ts:402-412 | waits for a slot, or takes it and calls the handler, with all that follows if the handler throws at once |
| `ExecutionGraph.Scheduler.ScheduleNodes` | services/orchestrator/src/agents/ExecutionGraph.ts:362-368 | for any candidates the loop takes exactly the turns of the machine's loop, nested loops included |
| `ExecutionGraph.Scheduler.WakeWaiting` | services/orchestrator/src/agents/ExecutionGraph.ts:403-411 | polling: takes the acquire step if a slot is free and otherwise changes nothing |
| `ExecutionGraph.Scheduler.WakeRetry` | services/orchestrator/src/agents/ExecutionGraph.ts:497-498 | after the backoff: takes a second slot while still holding the first, or changes nothing |
| `ExecutionGraph.Scheduler.HandlerResolved` | services/orchestrator/src/agents/ExecutionGraph.ts:440-459 | a resolved handler refines the Resolve step |
| `ExecutionGraph.Scheduler.CatchBlock` | services/orchestrator/src/agents/ExecutionGraph.ts:460-525 | refines the catch block of the machine: back off, or fail and block the dependents, or fail and schedule them |
| `ExecutionGraph.Scheduler.HandlerRejected` | services/orchestrator/src/agents/ExecutionGraph.ts:460-525 | a rejected handler refines the Reject step |
| `ExecutionGraph.Scheduler.GiveBack` | services/orchestrator/src/agents/ExecutionGraph.ts:409-411 | the `finally` clause refines the Release step |
| `ExecutionGraph.Scheduler.CheckDone` | services/orchestrator/src/agents/ExecutionGraph.ts:574-592 | the polling loop answers whether all nodes are terminal |
| `ExecutionGraph.Scheduler.FailedNodes` | services/orchestrator/src/agents/ExecutionGraph.ts:309-316 | collects exactly the nodes FAILED without continueOnError |
| `ExecutionGraph.Scheduler.AnyEvent` | services/orchestrator/src/agents/ExecutionGraph.ts:402-555 | unless nothing but polling is possible, some method can be called, and it takes a step of the machine |
| `ExecutionGraph.Scheduler.Execute` | services/orchestrator/src/agents/ExecutionGraph.ts:288-351 | for any handlers without a shortcut: the run ends with every node in its recursively defined final status and throws exactly when some node fails without continueOnError, or it hangs in a stuck state, which never happens with enough slots |
| `ExecutionGraph.TakesKeeps` | services/orchestrator/src/agents/ExecutionGraph.ts:414-525 | a method step (one machine step, then slots filled) keeps the invariant and lowers the measure |
| `ExecutionGraph.DerivedEntriesProper` | services/orchestrator/src/agents/ExecutionGraph.ts:180-194 | a validated definition with derived entries satisfies the hypotheses of the run theorems |
| `DefinitionOutcome.AttemptsGranted` | services/orchestrator/src/agents/ExecutionGraph.ts:466-471 | an accepted node is granted one attempt without a retry policy and 1 + maxRetries with one, a fraction counting as a whole, and never more than 11 |
| `DefinitionOutcome.WholeRetries` | services/orchestrator/src/agents/ExecutionGraph.ts:466-471 | for every whole number r, maxRetries = r grants r + 1 attempts |
| `DefinitionOutcome.OneTaskAccepted` | services/orchestrator/src/agents/ExecutionGraph.ts:84-102 | a definition of one node is accepted if and only if id and name are not empty and retries, backoff and timeout are within their bounds |
| `DefinitionOutcome.OutcomeOfDefinition` | services/orchestrator/src/agents/ExecutionGraph.ts:370-525 | the final outcome, node by node of the definition: a node whose dependencies all completed, or failed with continueOnError, completes at the first success among its 1 + maxRetries attempts and fails after all of them otherwise; every other node is BLOCKED without an attempt |
| `DefinitionOutcome.RunsEndAsDefined` | services/orchestrator/src/agents/ExecutionGraph.ts:288-555 | every complete run of a definition without a shortcut, whatever the interleaving, the limit and the handlers, ends so |
| `ExecutionGraph.RunGraph` | services/orchestrator/src/agents/ExecutionGraph.ts:130-351 | validation, wiring and execution together, with derived entry nodes or a supplied list of the roots in any order: accepted exactly when well formed and acyclic; unless it hangs, which it does not with enough slots, every node ends as the definition says (see `OutcomeOfDefinition`), and it throws exactly when a node without continueOnError has failed |
| `CriticalPath.Search.CalculatePath` | services/orchestrator/src/agents/PipelineMonitoring.ts:385-417 | the memoised recursion returns a real dependency chain ending at the node whose durations sum to the result, at least as long as every other such chain |
| `CriticalPath.Search.BestDependency` | services/orchestrator/src/agents/PipelineMonitoring.ts:402-410 | the inner loop finds the longest of the dependencies' paths |
| `CriticalPath.CalculateCriticalPath` | services/orchestrator/src/agents/PipelineMonitoring.ts:372-429 | the result is a real chain and the maximum total duration over all dependency chains of the graph |
| `CriticalPath.CalculateUtilization` | services/orchestrator/src/agents/PipelineMonitoring.ts:431-447 | the loop computes the clamped ratio of total time to critical time per node; it is no number exactly when there are no nodes and the duration is not zero |
| `CriticalPath.DistinctWithinTotal` | services/orchestrator/src/agents/PipelineMonitoring.ts:431-447 | a chain of distinct measured nodes takes at most the total time |
| `CriticalPath.UtilizationInRange` | services/orchestrator/src/agents/PipelineMonitoring.ts:431-447 | with a positive critical duration the ratio lies between 1/n and 1, so the clamp never changes it |
| `ConditionLexer.Tokenize` | services/orchestrator/src/agents/StandardPipelines.ts:1763-1883 | the index loop computes the token list of the recursive lexer, or fails exactly where it fails |
| `ConditionLexer.ReadToken` | services/orchestrator/src/agents/StandardPipelines.ts:1773-1878 | one loop iteration reads the token that stands at the position and stops at its end |
| `ConditionLexer.ScanNumber` | services/orchestrator/src/agents/StandardPipelines.ts:1834-1866 | the number scan stops where the declarative number ends and fails exactly on malformed decimals |
| `ConditionLexer.TokenReads` | services/orchestrator/src/agents/StandardPipelines.ts:1763-1883 | every token followed by anything that cannot extend it is read back |
| `ConditionLexer.LayoutLexes` | services/orchestrator/src/agents/StandardPipelines.ts:1763-1883 | tokens of an expression laid out with any white space between them lex to themselves |
| `ConditionLexer.LexIsLayout` | services/orchestrator/src/agents/StandardPipelines.ts:1763-1883 | conversely every string that lexes is a layout of its tokens |
| `ConditionLexer.LexOneReadsText` | services/orchestrator/src/agents/StandardPipelines.ts:1773-1878 | the token read is the text that stands there |
| `ConditionParser.ParsePrinted` | services/orchestrator/src/agents/StandardPipelines.ts:1886-1974 | parsing the printed tokens of any grammar tree returns that tree |
| `ConditionParser.AcceptedIsPrintedOnce` | services/orchestrator/src/agents/StandardPipelines.ts:1886-1974 | a token list parses to a tree if and only if it is the printing of that tree |
| `ConditionParser.DisjShape` | services/orchestrator/src/agents/StandardPipelines.ts:1894-1974 | printed trees never put two tokens side by side that would run together |
| `ConditionEvaluator.Parser.Primary` | services/orchestrator/src/agents/StandardPipelines.ts:1935-1965 | the closure advances `pos` and returns the value of the primary the grammar parses there, or fails with it |
| `ConditionEvaluator.Parser.Comparison` | services/orchestrator/src/agents/StandardPipelines.ts:1916-1933 | at most one comparison operator is taken; value and position agree with the grammar |
| `ConditionEvaluator.Parser.Conjunction` | services/orchestrator/src/agents/StandardPipelines.ts:1905-1914 | the && loop evaluates the left-nested tree the grammar parses |
| `ConditionEvaluator.Parser.Disjunction` | services/orchestrator/src/agents/StandardPipelines.ts:1894-1903 | the || loop evaluates the left-nested tree the grammar parses |
| `ConditionEvaluator.EvaluateCondition` | services/orchestrator/src/agents/StandardPipelines.ts:1706-1717 | the result is true exactly when the string is an expression with a truthy value |
| `ConditionEvaluator.TrimKeepsTokens` | services/orchestrator/src/agents/StandardPipelines.ts:1706-1708 | trimming the condition first never changes its tokens |
| `ConditionMeaning.PrintsItself` | services/orchestrator/src/agents/StandardPipelines.ts:1886-1974 | adding the parentheses an expression tree needs and removing them again gives the tree back |
| `ConditionMeaning.DisjFewest` | services/orchestrator/src/agents/StandardPipelines.ts:1886-1974 | that printing has the fewest tokens of all printings of the expression: its parentheses are minimal |
| `ConditionMeaning.PrintedEvaluates` | services/orchestrator/src/agents/StandardPipelines.ts:1706-1974 | every expression, printed with minimal parentheses and any white space, evaluates to its own value |
| `ConditionMeaning.OneReading` | services/orchestrator/src/agents/StandardPipelines.ts:1886-1974 | a string is the printing of at most one tree |
| `ConditionMeaning.TrueExactlyWhenWritten` | services/orchestrator/src/agents/StandardPipelines.ts:1706-1974 | a string evaluates to true if and only if it writes some expression with a truthy value; every other string is false |
| `ConditionNumbers.DecimalReads` | services/orchestrator/src/agents/StandardPipelines.ts:1834-1866 | the text of n / 10^i, with sign and i decimal places, is a number token |
| `ConditionNumbers.ValueScales` | services/orchestrator/src/agents/StandardPipelines.ts:1957-1962 | the value read from that text times 10^i is n |
| `ConditionNumbers.ComparisonIsTrue` | services/orchestrator/src/agents/StandardPipelines.ts:1916-1933 | a comparison of two such numbers, or of `true` and `false`, with any white space is true if and only if the relation holds between the two as whole numbers, for all six signs; the words count as 1 and 0 for the ordering signs and are never `===` to a number |
| `ConditionNumbers.OperandIsTrue` | services/orchestrator/src/agents/StandardPipelines.ts:1706-1709 | a number or word by itself is true unless it is zero or `false` |
| `ConditionNumbers.ConnectivesMean` | services/orchestrator/src/agents/StandardPipelines.ts:1894-1914 | for any two accepted conditions in parentheses, && is true if and only if both are and || if and only if one is |
| `ConditionNumbers.AndBindsTighter` | services/orchestrator/src/agents/StandardPipelines.ts:1894-1914 | in a mix of the two, && binds more tightly on either side |
| `ConditionChains.DisjHasNoChain` | services/orchestrator/src/agents/StandardPipelines.ts:1916-1974 | nowhere in a printed expression does a comparison sign follow a primary that follows one |
| `ConditionChains.ChainIsNotAccepted` | services/orchestrator/src/agents/StandardPipelines.ts:1916-1974 | tokens with two comparison signs around one primary, whatever it is and whatever stands before and after, are not accepted |
| `ConditionChains.ChainedComparisonIsFalse` | services/orchestrator/src/agents/StandardPipelines.ts:1706-1974 | a condition with such a chain anywhere in it, which the grammar comment allows, evaluates to false |
| `RedisBus.Bus.HandleIncoming` | services/orchestrator/src/agents/RedisMessageBus.ts:190-264 | a message starts the handler of an agent if and only if it is no reply, the agent is local with a handler for its kind, and it is addressed to that agent or is a broadcast by another agent and addressed to no local one; a reply settles exactly the pending request it names, a response with its value and an error as a rejection |
| `RedisBus.Bus.OpenRequest` | services/orchestrator/src/agents/RedisMessageBus.ts:543-572 | from then on a response with the correlation id settles the request, and no other message is treated differently; the instance is the one after the protocol's Ask step |
| `RedisBus.Bus.Shutdown` | services/orchestrator/src/agents/RedisMessageBus.ts:601-609 | rejects exactly the requests that some message could still have settled; afterwards no message settles anything; the settlements are those of the protocol's Close step and no others |
| `RedisBus.StepKeeps` | services/orchestrator/src/agents/RedisMessageBus.ts:190-335 | every step of any instance, with messages lost, delayed or repeated, keeps the protocol invariant |
| `RedisBus.RunInv` | services/orchestrator/src/agents/RedisMessageBus.ts:190-609 | the invariant holds in every state of every run of any number of instances |
| `RedisBus.RequestSafety` | services/orchestrator/src/agents/RedisMessageBus.ts:190-609 | whatever correlation ids users give to requests of their own, each request promise settles at most once, only at the issuing instance, and a fulfilled value was returned by a handler for that very request |
| `RedisBus.SettledForGood` | services/orchestrator/src/agents/RedisMessageBus.ts:207-234 | what a promise settled with never changes |
| `RedisBus.RequestCanBeAnswered` | services/orchestrator/src/agents/RedisMessageBus.ts:190-572 | at any point of any run, a new request to an agent with a handler on some instance has steps that settle it at the asking instance with the value the handler returns, or reject it if the handler throws |
| `MessageBus.Mailbox.InsertByPriority` | services/orchestrator/src/agents/AgentCommunication.ts:590-607 | the splice inserts before the first envelope of lower priority |
| `MessageBus.Mailbox.Remove` | services/orchestrator/src/agents/AgentCommunication.ts:383-412 | removes the envelope by id and keeps the rest in order |
| `MessageBus.Mailbox.CleanUp` | services/orchestrator/src/agents/AgentCommunication.ts:543-569 | the loop keeps exactly the unexpired envelopes and counts the others |
| `MessageBus.InsertedKeeps` | services/orchestrator/src/agents/AgentCommunication.ts:590-607 | insertion keeps the queue ordered by descending priority and first-in-first-out within a priority, and adds nothing else |
| `MessageBus.RemovedKeeps` | services/orchestrator/src/agents/AgentCommunication.ts:383-412 | removal keeps the order and takes away exactly one id |
| `MessageBus.UnexpiredKeeps` | services/orchestrator/src/agents/AgentCommunication.ts:543-569 | clean-up keeps the order and exactly the unexpired envelopes |
| `MessageBusRuns.StepKeeps` | services/orchestrator/src/agents/AgentCommunication.ts:248-446 | every step of sending, delivering, handling, retrying, expiring and registering keeps the bus invariant |
| `MessageBusRuns.RunInv` | services/orchestrator/src/agents/AgentCommunication.ts:248-446 | the invariant holds in every state of every run |
| `MessageBusRuns.BusSafety` | services/orchestrator/src/agents/AgentCommunication.ts:248-446 | in every reachable state: queues ordered and bounded, at most one delivery pass per agent, each handler succeeds at most once and is invoked at most maxRetries + 1 times per envelope |
| `MessageBusDelivery.QueuedUntilTakenOut` | services/orchestrator/src/agents/AgentCommunication.ts:358-446 | a step takes an envelope out of its queue if and only if its handler succeeds, fails for the time maxRetries + 1, the bus cleans up after its expiry, or its agent is unregistered |
| `MessageBusDelivery.NeverJustLost` | services/orchestrator/src/agents/AgentCommunication.ts:248-446 | over every stretch of every run an envelope that is gone from its queue was taken out by such a step |
| `MessageBusDelivery.TriedUntilTheEnd` | services/orchestrator/src/agents/AgentCommunication.ts:358-446 | an unexpired envelope of a registered agent is gone only after its handler succeeded once or failed maxRetries + 1 times |
| `MessageBusDelivery.NewPassHasAll` | services/orchestrator/src/agents/AgentCommunication.ts:358-366 | a delivery pass that begins is to handle exactly the queued envelopes that have not expired |
| `MessageBusDelivery.SentIsQueued` | services/orchestrator/src/agents/AgentCommunication.ts:590-607 | a message sent to a queue with room is queued, and none leaves for it |
| `RateLimiter.Limiter.Allow` | apps/gateway-api/internal/gateway/global_rate_limit.go:182-216 | decides and updates as the window function says, with lazy clean-up exactly when due |
| `RateLimiter.Limiter.MaybeCleanup` | apps/gateway-api/internal/gateway/global_rate_limit.go:218-231 | deletes exactly the expired windows, at most once per interval |
| `RateLimiter.CleanupUnobservable` | apps/gateway-api/internal/gateway/global_rate_limit.go:182-231 | for non-decreasing clock readings every decision and retry-after equals that of a limiter which never deletes windows |
| `RateLimiter.CleanupShowsWhenTheClockGoesBack` | apps/gateway-api/internal/gateway/global_rate_limit.go:182-231 | with a reading that goes back, after clean-up, a call gets through that the deleted window would have refused |
| `RateLimiter.RetryAfterIsRight` | apps/gateway-api/internal/gateway/global_rate_limit.go:182-216 | a refused key is refused at every call up to the retry-after it was told, is told the same moment again, and is admitted at its first call after it |
| `RateLimiter.LessThanTwiceTheLimit` | apps/gateway-api/internal/gateway/global_rate_limit.go:182-216 | from any state whose count for the key is within the limit, at most 2 * Limit - 1 requests for a key are admitted in a closed interval of length Window |
| `RateLimiter.LimiterBound` | apps/gateway-api/internal/gateway/global_rate_limit.go:182-231 | the same for the limiter with clean-up, counted over its own decisions from the start |
| `RateLimiter.BoundIsReached` | apps/gateway-api/internal/gateway/global_rate_limit.go:182-216 | for every limit and window some calls reach 2 * Limit - 1, so the bound is sharp |
| `SharedContext.SharedContextManager.Get` | services/orchestrator/src/agents/AgentCommunication.ts:715-735 | value, denial or nothing, by the entry's own scope, owner and access list |
| `SharedContext.SharedContextManager.Set` | services/orchestrator/src/agents/AgentCommunication.ts:685-713 | writes the entry with its scope and owner |
| `SharedContext.SharedContextManager.Delete` | services/orchestrator/src/agents/AgentCommunication.ts:737-752 | only the owner deletes, and the access list goes with the entry |
| `SharedContext.SharedContextManager.Share` | services/orchestrator/src/agents/AgentCommunication.ts:754-779 | only the owner shares; the scope becomes SHARED and the agents are added |
| `SharedContext.ParseMetadata` | services/orchestrator/src/agents/RedisSharedContext.ts:119-129 | splitting at the last colon returns the owner and scope that were encoded, colons in the owner included, and nothing for other strings |
| `SharedContext.EncodeInjective` | services/orchestrator/src/agents/RedisSharedContext.ts:104-129 | two owner and scope pairs with one encoding are equal |
| `SharedContext.RedisSharedContext.Set` | services/orchestrator/src/agents/RedisSharedContext.ts:215-275 | writes entry, metadata and version, and every metadata string stays readable |
| `SharedContext.RedisSharedContext.Get` | services/orchestrator/src/agents/RedisSharedContext.ts:277-324 | denies early by metadata, then decides by the entry |
| `SharedContext.RedisSharedContext.Delete` | services/orchestrator/src/agents/RedisSharedContext.ts:355-388 | only the owner deletes, and all four keys go |
| `SharedContext.RedisSharedContext.Share` | services/orchestrator/src/agents/RedisSharedContext.ts:390-435 | only the owner shares; entry and access list change, the metadata does not |
| `SharedContext.StepKeepsMatch` | services/orchestrator/src/agents/RedisSharedContext.ts:215-435 | every operation keeps the two stores in agreement on entries and access lists |
| `SharedContext.AnswersAgreeExactly` | services/orchestrator/src/agents/RedisSharedContext.ts:277-435 | the two stores answer an operation alike if and only if it is not a read, by an agent it was shared with, of an entry whose metadata still says PRIVATE |
| `SharedContext.HistoriesAgreeExactly` | services/orchestrator/src/agents/RedisSharedContext.ts:215-435 | two whole histories of answers agree if and only if no such read occurs in them |
| `SharedContext.StoresAgree` | services/orchestrator/src/agents/RedisSharedContext.ts:215-435 | a history that never shares a PRIVATE entry gets the same answers and denials from both stores |
| `SharedContext.NewStoresAgree` | services/orchestrator/src/agents/RedisSharedContext.ts:215-435 | both statements for histories that start with empty stores |
| `SharedContext.SharedPrivateEntryDiffers` | services/orchestrator/src/agents/RedisSharedContext.ts:411-422 | sharing a PRIVATE entry with a friend: the in-memory store serves it, the Redis store denies it |
| `SharedHistories.HistoryTold` | services/orchestrator/src/agents/AgentCommunication.ts:685-779 | after any history of operations the in-memory store holds, key by key, what the last set in force and the shares and deletions around it say |
| `SharedHistories.VersionTold` | services/orchestrator/src/agents/AgentCommunication.ts:685-752 | versions count how often the key was set since it was last deleted |
| `SharedHistories.MemAnswersByHistory` | services/orchestrator/src/agents/AgentCommunication.ts:685-860 | every answer follows from the operations before it alone: another agent than the setter finds the value if and only if it was set as GLOBAL and not shared since, or was set as SHARED or shared since and the agent is named in a share since the last deletion; only the agent of the last set deletes and shares |
| `SharedHistories.RedisAnswersByHistory` | services/orchestrator/src/agents/RedisSharedContext.ts:215-435 | the same for the Redis store, except that sharing does not open what was set as PRIVATE |
| `SharedHistories.QueriedByHistory` | services/orchestrator/src/agents/AgentCommunication.ts:781-860 | the in-memory query gives an agent exactly the entries that the history lets it read and whose scope in force, setter, prefix and pattern it asks for |
| `ContextQuery.Query` | services/orchestrator/src/agents/AgentCommunication.ts:781-820 | the filtering loop returns take(limit, drop(offset, matching entries)) |
| `ContextQuery.ScanQuery` | services/orchestrator/src/agents/RedisSharedContext.ts:437-510 | the batched scan loop returns the page of the keys scanned within the iteration cap; below the cap the batching does not matter |
| `ContextQuery.PagesAreAPrefix` | services/orchestrator/src/agents/RedisSharedContext.ts:437-510 | consecutive pages concatenate to a prefix of the filtered list |
| `ContextQuery.PagesCoverAll` | services/orchestrator/src/agents/RedisSharedContext.ts:437-510 | enough consecutive pages concatenate to the whole filtered list |
| `StoreQuery.QueryMemory` | services/orchestrator/src/agents/AgentCommunication.ts:781-820 | the page of the entries that the requester may see and that pass the scope, owner, prefix and pattern filters |
| `StoreQuery.QueryRedis` | services/orchestrator/src/agents/RedisSharedContext.ts:437-510 | the same filters on the keys that the scan matched with the prefix, without a look at the metadata |
| `StoreQuery.QueriesAgree` | services/orchestrator/src/agents/RedisSharedContext.ts:437-510 | on stores that match, both answer every query with the same page if the scan returns keys in the order of the in-memory store |
| `StoreQuery.SameEntriesPass` | services/orchestrator/src/agents/RedisSharedContext.ts:437-510 | in whatever order the scan returns keys, the same entries pass |
| `StoreQuery.QueryGivesWhatGetDenies` | services/orchestrator/src/agents/RedisSharedContext.ts:277-324 | the Redis query gives an agent an entry that the Redis get denies it exactly when the entry was private when set and has been shared with it since |
| `Approvals.StepKeeps` | services/orchestrator/src/approvals/ApprovalManager.ts:154-458 | with autoDenyOnTimeout every step keeps, for every id, the agreement between request, promise, listeners and timer, and never changes a settled promise |
| `Approvals.RunInv` | services/orchestrator/src/approvals/ApprovalManager.ts:154-630 | the agreement holds in every state of every run |
| `Approvals.ApprovalSafety` | services/orchestrator/src/approvals/ApprovalManager.ts:154-630 | over every run a request leaves PENDING at most once and is not deleted before; its promise is unsettled exactly while it is PENDING and resolves true exactly when it became APPROVED; the one exception is a request decided by a listener of its announcement, whose promise never settles |
| `Approvals.DecisionDuringAnnouncementIsLost` | services/orchestrator/src/approvals/ApprovalManager.ts:190-277 | a listener of "requested" that approves at once leaves an APPROVED request with a waiting promise |
| `Approvals.DenyingOnTimeoutMatters` | services/orchestrator/src/approvals/ApprovalManager.ts:201-218 | a rejected promise and an APPROVED request never meet in any run if and only if autoDenyOnTimeout is set |
| `Approvals.CleanedExactly` | services/orchestrator/src/approvals/ApprovalManager.ts:599-630 | clean-up expires exactly the overdue PENDING requests and deletes exactly those resolved more than an hour ago, in whatever order it visits them |
| `Approvals.DecidedExactly` | services/orchestrator/src/approvals/ApprovalManager.ts:448-452 | deciding a list of ids decides those that are PENDING and no others |
| `Approvals.ExpiresAfterTimeout` | services/orchestrator/src/approvals/ApprovalManager.ts:599-616 | a request nobody decides is expired by the first clean-up after its timeout and by none before |
| `Approvals.TenantWithinLimit` | services/orchestrator/src/approvals/ApprovalManager.ts:562-565 | in every run without batches a tenant has at most maxPendingPerTenant requests PENDING, or 100 if that is zero |
| `Approvals.RefusedAtLimit` | services/orchestrator/src/approvals/ApprovalManager.ts:168-175 | in such runs a request is refused if and only if its tenant has exactly that many |
| `Approvals.BatchGoesOverLimit` | services/orchestrator/src/approvals/ApprovalManager.ts:382-433 | a batch is not counted: one of sufficient size takes its tenant over the limit |
| `ApprovalManager.Manager.Resolve` | services/orchestrator/src/approvals/ApprovalManager.ts:283-377 | approve, deny and cancel succeed exactly on PENDING requests and take the machine's decision step |
| `ApprovalManager.Manager.RequestApproval` | services/orchestrator/src/approvals/ApprovalManager.ts:154-278 | takes the machine's opening step: refused over the tenant limit, otherwise announced and then listened for |
| `ApprovalManager.Manager.CountPending` | services/orchestrator/src/approvals/ApprovalManager.ts:488-500 | counts exactly the PENDING requests of the tenant |
| `ApprovalManager.Manager.TimerFires` | services/orchestrator/src/approvals/ApprovalManager.ts:201-218 | takes the timeout step: expire, or reject the promise |
| `ApprovalManager.Manager.CreateBatchOf` | services/orchestrator/src/approvals/ApprovalManager.ts:382-433 | adds PENDING requests without promise or expiry; fails when batches are disabled |
| `ApprovalManager.Manager.ResolveBatch` | services/orchestrator/src/approvals/ApprovalManager.ts:438-483 | the number returned is exactly the number of the batch's requests that were PENDING |
| `ApprovalManager.Manager.CleanupExpired` | services/orchestrator/src/approvals/ApprovalManager.ts:599-630 | goes once through the map and takes the clean-up step |
| `ApprovalManager.Manager.GetStats` | services/orchestrator/src/approvals/ApprovalManager.ts:519-557 | the five counts are exact and sum to the matching requests |
| `AstBudget.SerializeNode` | services/indexer/src/ast.rs:115-172 | the nodes shown are the first min(remaining, N) in preorder of the depth-limited tree, and remaining and total move by exactly that many |
| `AstBudget.BuildAst` | services/indexer/src/ast.rs:84-113 | the output shows the first min(max_nodes, N) nodes of the preorder; it fails exactly for a zero budget; truncated means max_nodes <= N, so without it nothing was dropped |
| `AstBudget.LimitedShowsAll` | services/indexer/src/ast.rs:154-170 | the depth-limited preorder shows exactly the nodes reached from the root by at most max_depth steps through named children, each once and in preorder |
| `AstBudget.OutlineDetermines` | services/indexer/src/ast.rs:115-172 | the preorder of kinds and depths determines the output tree, so the prefix statement pins it down |
| `EventStream.HandLines` | packages/sdk/src/client/OrchestratorClient.ts:184-195 | the line loop hands on the payloads of the data lines before [DONE], and says whether it was met |
| `EventStream.Stream` | packages/sdk/src/client/OrchestratorClient.ts:170-199 | for every way of cutting the text into chunks the payloads handed on are those of the concatenated text |
| `EventStream.SplitAppend` | packages/sdk/src/client/OrchestratorClient.ts:180-182 | splitting chunk by chunk and carrying the rest over completes the same lines as splitting the whole text |
| `EventStream.SplitOfText` | packages/sdk/src/client/OrchestratorClient.ts:181-182 | splitting inverts joining: a text's break-free lines and rest are the only ones |
| `EventStream.TextOfSplit` | packages/sdk/src/client/OrchestratorClient.ts:181-182 | the lines and the carried rest make up the text again and hold no line break |
| `EventStream.PayloadsInOrder` | packages/sdk/src/client/OrchestratorClient.ts:184-195 | every data line before the first [DONE] contributes its trimmed payload, in order |
| `EventStream.PayloadsOnlyFromData` | packages/sdk/src/client/OrchestratorClient.ts:184-195 | and nothing else is handed on |
| `EventStream.SentIsHandedOn` | packages/sdk/src/client/OrchestratorClient.ts:180-195 | payloads without line breaks and outer white space, each sent on a data line, come back as sent, and nothing after [DONE] does |
| `Luhn.LuhnCheck` | services/indexer/src/security.rs:333-349 | the loop over the reversed digits decides whether the sum, with every second digit from the end replaced by the digit sum of its double, is a multiple of ten |
| `Luhn.OneDigitChangeIsCaught` | services/indexer/src/security.rs:333-349 | replacing one digit of a valid string of any length keeps it valid if and only if the digit is the same |
| `Luhn.SwapIsCaught` | services/indexer/src/security.rs:333-349 | swapping two adjacent digits of a valid string keeps it valid if and only if they are equal or a 0 and a 9 |
| `Luhn.ExactlyOneCheckDigit` | services/indexer/src/security.rs:333-349 | every payload is completed to a valid string by exactly one final digit |
| `TarArchive.ReadBlock` | infra/policies/build.js:79-94 | one turn of the loop files what stands at the offset and goes on where the signed size and padding lead, negative and unreadable sizes included |
| `TarArchive.ExtractFiles` | infra/policies/build.js:74-98 | whenever the loop ends, the result is what its turns file |
| `TarArchive.GoesTo` | infra/policies/build.js:93-95 | a size and its padding are a whole number of blocks: rounded up if positive, and as many blocks backwards as fit into it if negative |
| `TarArchive.GrowsExactly` | infra/policies/build.js:93-95 | the offset grows if and only if the size is above -512, and stays if and only if it is from -1023 to -512 |
| `TarArchive.GrowingHalts` | infra/policies/build.js:79-96 | the loop ends on every archive none of whose blocks reads as a header with a size of -512 or below |
| `TarArchive.HaltsExactly` | infra/policies/build.js:79-96 | the loop ends if and only if it never comes back to an offset, and if and only if it has ended within 2 * length + 512 files |
| `TarArchive.StandingStill` | infra/policies/build.js:79-96 | a header with a size from -1023 to -512 is read for ever |
| `TarEncoding.ReadForEver` | infra/policies/build.js:79-96 | a one-block archive with the size text -1000 on which the loop never ends |
| `TarEncoding.SizeReadsBack` | infra/policies/build.js:68-90 | an 11-digit octal size field ended by NUL or space is read back as the size |
| `TarEncoding.RoundTrip` | infra/policies/build.js:74-98 | on any ustar encoding of entries with names of at most 100 bytes and sizes below 8^11 the loop ends and files exactly those contents |
| `TarEncoding.ExtractsOnce` | infra/policies/build.js:74-98 | what is extracted is determined by the archive |
| `TarEncoding.LastWins` | infra/policies/build.js:92 | the names filed are those of the entries, each with the content of the last entry that has it |
| `TarEncoding.ArchiveRoundTrip` | infra/policies/build.js:68-98 | for ASCII names that are trimmed, with any number of slashes before them, the extracted map is exactly name without slashes to content, the last entry winning |

## Left out

- SchedulerSafety.StepKeeps: like the other results about the machine without a call stack, it is about handlers that suspend; `SchedulerStackRuns` extends them to all handlers.
- SchedulerSafety.RunInv: is about handlers that suspend, as above.
- SchedulerSafety.RunSafety: is about handlers that suspend; `SchedulerStackRuns.StackSafety` is about all handlers on definitions without a shortcut, and `SchedulerShortcut.NeverTwiceExactly` shows the condition to be exact when any node may throw. For a known set of throwing nodes only the one direction is stated: whether a given shortcut is then ever taken also depends on which slots are free at that moment.
- Entry nodes given by the caller: the run theorems assume they list every root exactly once, as derived ones do. The code does not check this. `SchedulerEntries` shows for any list and all handlers which roots are scheduled more than once and which never; what a run with a doubled root ends with is not modelled.
- Stopped runs: `stop` is a step of the safety theorems, but confluence, progress and termination are about runs without it, since a stopped run may leave nodes PENDING; a second `execute` is not modelled.
- ExecutionGraph.RunGraph: requires that a supplied entry list names every root once and that the definition has no shortcut through nodes that throw at once, since with one the program may run handlers twice; what a run then ends with is not modelled.
- ExecutionGraph.Scheduler.Execute: requires the same, and takes one interleaving; statements over all interleavings are those about the state machines. A run that would never return is reported as `Hangs`.
- Backoff delays, handler timeouts, timestamps, metrics, events, node outputs and error texts of the scheduler; a timed-out handler is a failed attempt.
- Event listeners that throw or call back into the emitting object, except for decisions taken during the "requested" event of approvals.
- IEEE floating point: durations are reals and the numbers of conditions exact decimals; 32-bit overflow of the Luhn sum, which needs hundreds of millions of digits.
- RedisBus.RequestSafety: assumes that users do not send RESPONSE or ERROR messages, that the correlation ids `request` makes up differ from each other and from those of users' own requests, and that instance ids are fresh.
- RateLimiter.LimiterBound: assumes clock readings that do not go back. The code reads the clock before it takes the mutex (`global_rate_limit.go:191-193`), so concurrent calls may be decided in another order than they were read; `RateLimiter.CleanupShowsWhenTheClockGoesBack` shows what then fails.
- RateLimiter.CleanupUnobservable: assumes the same.
- SharedContext.SharedContextManager.Get: expiry of entries is set aside.
- SharedContext.SharedContextManager.Set: the error for a full store is set aside.
- SharedContext.RedisSharedContext.Set: time-to-live and the index of keys by owner are not modelled.
- Validation.CheckNodes: the schema of the `config` record and of descriptions is not modelled.
- Validation.ValidateGraph: acceptance is exact up to the same fields.
- Redis connection loss, JSON serialisation, glob characters in query prefixes, pipeline membership of entries, and concurrent operations on the shared context; histories are sequential.
- ContextQuery.ScanQuery: beyond the iteration cap the page is that of the keys scanned; a scan that returns a key twice is not modelled in `StoreQuery`.
- MessageBusRuns.BusSafety: message contents, request promises and metrics of the in-memory bus are not modelled.
- Audit logging, request details and metadata of approvals, and what happens after `shutdown`.
- AstBudget.SerializeNode: a node is shown by its kind and place; positions, byte ranges and text snippets are not modelled.
- AstBudget.BuildAst: the same, and the parse tree is given, so parse errors are not modelled.
- EventStream.Stream: starts from decoded text and ends with the payloads given to `JSON.parse`; decoding of bytes, parsing and HTTP errors are not modelled.
- TarArchive.ExtractFiles: requires that the loop ends, because otherwise the original never returns (see `TarArchive.HaltsExactly`); UTF-8 decoding is a parameter of which only its effect on ASCII is assumed.
- Pipeline node tables, tool calls and template substitution, authentication handlers, secret and TLS handling, pattern scanning, the command line, graphical and browser clients, and generated code: plumbing or calls into other libraries.
