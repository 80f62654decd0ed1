# Task-control layer: verified model

This project models the task-control layer of a coding-assistant plugin: the parts that decide which context a task is
given, whether that context is enough, whether two strategies are the same, what survives a crash of the journal, and
when a task may be called done. The main results are theorems about all inputs or all runs of the model. Where a
property one would expect fails, the project gives a concrete input on which it fails and the exact condition under
which it holds.

## What is modelled

**The context graph** (`GraphModel`, `GraphRuns`, `ContextGraph`, `CycleSearch`, `DepthWalk`, `DepthLimit`,
`RouterDepth`, `CycleReport`, `Reachability`). A typed graph kept in two edge indexes that mirror each other. Every
run of the public operations keeps the mirror exact. Validation reports a cycle if and only if the artifact relation
has one. The node it names need not lie on a cycle; it does for every insertion order exactly when every node that
leads into a cycle lies on one. What is upstream and downstream is stated in terms of edges and their types, and
lifted to both walks. The depth-limited walk is sound for every limit, and the exact pairs (number of nodes, limit)
for which it misses nothing within the limit are characterised: the limit is at most 2 or the graph has at most one
node more than the limit. Every larger size has a graph, built by a run of the public operations, on which it fails.
The router's limit of 5 therefore covers the graphs of at most six nodes, and no larger size.

**Closures and the oracle** (`DependencyClosure`, `SufficiencyOracle`, `Minimality`). Capped breadth-first traversal
lists nodes nearest first and, when no cap was hit, exactly the reachable ones. The oracle's closure is the least set
closed in both edge directions, so closures of two tasks are equal or disjoint; the leave-one-out minimality test
built on it can never find a redundant node. Two facts about the code as it is: the oracle's edge vocabulary does not
occur in graphs built through the context graph's own operations (there the closure is the task alone), and of the two
edge types the traversals follow, `addEdge` accepts one.

**Budgeted selection** (`RateDistortion`, `ContextRouter`, `RouterRequired`, `ContextSelection`). Skip-greedy
selection grows along the derived budget sweep. Along budgets of the caller's choosing it grows exactly when the items
that cost something come in rising cost. Which nodes the router requires, which of them it keeps whatever the budget
and when the budget overflows are stated in terms of edges, types and marks. Its admission leaves out only what no
longer fits and does not depend on the order in which nodes were collected. The dependency fill terminates and leaves
no dependency that would still fit.

**Canonical forms** (`Json`, `JsonNesting`, `FieldOrder`, `StableSort`, `StrategyIdentity`, `StableKeys`,
`StrategyHash`). A JSON printer and an RFC 8259 parser with parsing undoing printing. Two strategies have the same
canonical form exactly when they are similar: same values under the same steady keys, and arrays that agree on the
elements of every stable key. The fifteen keys that do not count are written out. Stable keys are not injective, not
even on values without separator characters: an array inside an array, or an object inside an object, can share its
key with another value. Without separators and such nesting they are injective, and what they tell in general is
stated exactly. Hashing an identity equals hashing its raw strategy exactly when the raw strategy does not carry the
identity flag itself, short of a collision of two different texts; no assumption is made about the hash function.

**The journal** (`CanonicalText`, `LineFraming`, `TransactionLog`, `Replay`). An entry holds the operation that was
appended; it reads back as that operation, and replay applies it. Whatever the point at which the file is cut, what
reads back is the first entries appended and at most one garbled line. Replay gives every key what its last writer
left; replaying a suffix again is harmless, but replay is not idempotent by sequence number as its documentation says,
and the exact condition for a late copy to be harmless is given. After any run of appends, crashes, reopenings and
truncations, the next entry appended is readable exactly when the file is empty or ends in a newline; otherwise it
reads as one garbled line together with what the crash left of the line before.

**Guards** (`Apportionment`, `RateLimiter`, `MultiSigner`). Largest-remainder weights sum exactly to one, stay within
one unit of their share and never invert an order. The fixed-window limiter lets through at most twice its limit in
any stretch of one window's length, and that bound is reached. Any two changes approved by more than half of the
signers share a signer, and the bound is exact. The multi-signer documentation says that a signer cannot both propose
and approve a change; the code has no notion of a proposer, and neither has the model.

**State machines** (`ContextLifecycle`, `MemoryLayers`, `ContextManager`, `ContractGate`, `CommandEffects`,
`TaskStore`, `Assessment`). Item histories stay paths of the transition table over every run. Eviction succeeds
exactly when everything it chooses is ACTIVE or STALE, and then leaves every layer within its capacity; a layer
overfull with freshly registered items always makes it fail. The completion gate opens exactly on a claim about a
complete task, and of the commands modelled it is the only way into DONE. Two properties one would expect afterwards
fail, and the steps that break them are named exactly: DONE means that every requirement is verified until one of them
is marked as something else, and an approved contract has nothing blocking until a message makes one of its active
assumptions material, which reopens a question without withdrawing the approval. What every contract command leaves
behind is stated field by field. The verdict of an assessment equals a recursion over the two values and is stated
rule by rule.

## How it is written

Objects that change in place are classes whose methods are proved against functions on values; the theorems over runs
are about those functions. Loops of the original are loops here. Ids are strings, numbers that the original computes
in floating point are reals, the clock, hash function, scores, check results and message classification are
parameters.

## Model

| member | source | states |
|---|---|---|
| `ContextGraphs.ContextGraph.constructor` | `src/context/context-graph.js:72-79` | A new graph is empty and well indexed. |
| `ContextGraphs.ContextGraph.AddNode` | `src/context/context-graph.js:88-99` | Adds or replaces exactly this node; a node without id or with an unknown type is refused and nothing changes; the indexes stay exact. |
| `ContextGraphs.ContextGraph.UpdateNode` | `src/context/context-graph.js:135-143` | Patches exactly this node if it exists, and keeps the indexes exact. |
| `ContextGraphs.ContextGraph.AddEdge` | `src/context/context-graph.js:175-197` | Adds the edge to both indexes unless its key is there; refuses missing endpoints and unknown types without changing anything. |
| `ContextGraphs.ContextGraph.Link` | `src/context/context-graph.js:181-195` | The two index updates together are the edge insertion of the specification. |
| `ContextGraphs.ContextGraph.RemoveFromEdgesTo` | `src/context/context-graph.js:434-440` | Drops the first matching entry of the incoming index and touches nothing else. |
| `ContextGraphs.ContextGraph.RemoveFromEdgesFrom` | `src/context/context-graph.js:443-450` | Drops the first matching entry of the outgoing index and touches nothing else. |
| `ContextGraphs.ContextGraph.UnlinkAll` | `src/context/context-graph.js:151-163` | Unlinking both directions leaves exactly the edges that avoid the node, self-loops handled once. |
| `ContextGraphs.ContextGraph.RemoveNode` | `src/context/context-graph.js:148-166` | Removes the node with precisely the edges touching it, and reports whether it existed. |
| `ContextGraphs.ContextGraph.DanglingIssues` | `src/context/context-graph.js:361-372` | Lists exactly the filed sources and the edge targets that name no node, in whatever state the indexes are. |
| `ContextGraphs.ContextGraph.CheckEndpoints` | `src/context/context-graph.js:361-372` | On a graph built through the public operations this pass finds nothing. |
| `ContextGraphs.ContextGraph.FindCycle` | `src/context/context-graph.js:373-401` | Finds a cycle exactly when the artifact relation has one, naming the first node in insertion order from which one is reachable. |
| `ContextGraphs.ContextGraph.Validate` | `src/context/context-graph.js:358-403` | Valid if and only if acyclic; otherwise one error, naming the first node that leads into a cycle. |
| `CycleReport.NamedNodeOffCycle` | `src/context/context-graph.js:373-401` | The node named need not lie on a cycle: a run that builds a -> b, b -> b, on which the report names a. |
| `CycleReport.NamesOnCycleExactly` | `src/context/context-graph.js:373-401` | Whatever the insertion order, the named node lies on a cycle, if and only if every node that leads into a cycle lies on one. |
| `ContextGraphs.ContextGraph.GetUpstream` | `src/context/context-graph.js:262-293` | Only nodes on a chain of upstream steps within the depth, never the start; every direct neighbour from depth 1; from depth at least the number of nodes, each once and exactly those on such a chain. A step is an edge of one of the five dependency types, or a produces edge backwards. |
| `ContextGraphs.ContextGraph.GetDownstream` | `src/context/context-graph.js:301-325` | The same promises at one more than the given depth, because its guard is one step later; a step is a produces edge, or a requires_output or depends_on_artifact edge backwards. |
| `CycleSearch.HasCycle` | `src/context/context-graph.js:377-394` | The coloured search: a hit means a cycle is reachable from the node; no hit restores the stack and finishes every visited node. |
| `CycleSearch.FindCycle` | `src/context/context-graph.js:396-401` | Searching from every node in order decides cyclicity and stops at the first node from which a cycle is reachable. |
| `GraphRuns.WithEdgeKeeps` | `src/context/context-graph.js:175-197` | Edge insertion keeps the invariant and adds that edge only, unless its key is present. |
| `GraphRuns.EdgeAdded` | `src/context/context-graph.js:175-197` | An edge is accepted exactly with two existing endpoints and one of the ten types, and added exactly when no edge has its endpoints and its type. |
| `GraphRuns.EdgesTellApart` | `src/context/context-graph.js:181-195` | No two entries of either index under one node agree on the other end and the type. |
| `GraphRuns.WithoutNodeEdges` | `src/context/context-graph.js:148-166` | Node removal deletes precisely the edges touching the node. |
| `GraphRuns.WithoutNodeKeeps` | `src/context/context-graph.js:148-166` | Node removal keeps the whole invariant and removes one node. |
| `GraphRuns.WithNodeKeeps` | `src/context/context-graph.js:88-99` | Adding a node keeps the invariant. |
| `GraphRuns.WithPatchKeeps` | `src/context/context-graph.js:135-143` | Updating a node keeps the invariant. |
| `GraphRuns.EveryRunWellIndexed` | `src/context/context-graph.js:88-197` | Over every run: exact mirrors, no duplicate (from, to, type), endpoints present, known types. |
| `GraphRuns.RemoveUndoesAdd` | `src/context/context-graph.js:148-197` | Removing a node undoes adding it together with an edge at it: the edges are as before. |
| `GraphRuns.RemoveUndoesNode` | `src/context/context-graph.js:148-197` | And so are the nodes. |
| `GraphRuns.CycleSuccessors` | `src/context/context-graph.js:384-385` | The relation searched for cycles is exactly requires_output and depends_on_artifact. |
| `GraphRuns.UpstreamSuccessors` | `src/context/context-graph.js:244-293` | A node is a successor upstream if and only if an edge of one of the five dependency types leads to it, or a produces edge leads from it. |
| `GraphRuns.DownstreamSuccessors` | `src/context/context-graph.js:301-325` | And downstream if and only if a produces edge leads to it, or a requires_output or depends_on_artifact edge leads from it. |
| `GraphRuns.UpstreamReaches` | `src/context/context-graph.js:262-293` | Being reachable upstream is being joined by a chain of such edges. |
| `GraphRuns.DownstreamReaches` | `src/context/context-graph.js:301-325` | The same downstream. |
| `Reachability.WithinIsPath` | `src/context/context-graph.js:262-293` | Being within n steps, as used by every traversal claim, is having a path of at most n edges. |
| `Reachability.ReachSetLeast` | `src/context/context-graph.js:262-293` | The reachable set, as used by every completeness claim, is the least closed set holding its start. |
| `DepthWalk.Expand` | `src/context/context-graph.js:266-289` | The recursive closure with its shared visited set computes the walk that the lemmas below are about. |
| `DepthWalk.WalkSound` | `src/context/context-graph.js:262-293` | For every limit: existing nodes within the limit, never the start, and every neighbour. |
| `DepthWalk.WalkComplete` | `src/context/context-graph.js:262-293` | With a limit of at least the number of nodes less one, exactly the reachable nodes. |
| `DepthWalk.WalkNoDup` | `src/context/context-graph.js:262-293` | With a limit of at least the number of nodes, no repeats. |
| `DepthLimit.ShallowEnough` | `src/context/context-graph.js:266-289` | Limits up to 2 miss nothing within the limit on any graph. |
| `DepthLimit.SmallEnough` | `src/context/context-graph.js:266-289` | Graphs of at most one node more than the limit lose nothing. |
| `DepthLimit.ChainMisses` | `src/context/context-graph.js:266-289` | For every limit from 3 and every larger graph size, a graph on which a node within the limit is missed. |
| `DepthLimit.DepthThreshold` | `src/context/context-graph.js:266-289` | The two together: the walk never misses a node within the limit if and only if the limit is at most 2 or the graph has at most limit + 1 nodes. |
| `RouterDepth.ChainIsRun` | `src/context/context-graph.js:88-197` | The failing graph of every size and limit is built by a run of the public operations. |
| `RouterDepth.RunThreshold` | `src/context/context-graph.js:262-293` | The threshold for the graphs that runs build and the upstream relation the walk follows. |
| `RouterDepth.LargeGraphMissed` | `src/context/context-router.js:253-257` | For every size from seven nodes, a graph built by a run on which the router leaves out a transitive dependency of the task, whatever the rest of the request. |
| `RouterDepth.RouterThreshold` | `src/context/context-router.js:253-257` | For every request, all transitive dependencies are required on all graphs of n nodes that runs build, if and only if n is at most six. |
| `DependencyClosure.Traverse` | `src/context/dependency-closure.js:42-110` | Distinct existing reachable nodes, nearest first, at most the node cap, cost at most one over its cap; no cap hit means exactly the reachable nodes. |
| `DependencyClosure.TraverseUpstream` | `src/context/dependency-closure.js:42-110` | The same for the upstream relation. |
| `DependencyClosure.TraverseDownstream` | `src/context/dependency-closure.js:121-179` | The same for the downstream relation. |
| `DependencyClosure.ComputeDependencyClosure` | `src/context/dependency-closure.js:190-224` | Distinct nodes up- or downstream of some seed, and all of them unless a cap was hit; the cost is the sum over the seeds traversed, and the cap reported is that of the last one. |
| `DependencyClosure.Frontier` | `src/context/dependency-closure.js:57-103` | Once every queued node is further than k, everything within k steps has been visited. |
| `DependencyClosure.OwnVocabularySteps` | `src/context/dependency-closure.js:81-104` | On graphs built through `addEdge`, only produces edges are ever followed. |
| `DependencyClosure.UpstreamStepsAre` | `src/context/dependency-closure.js:81-104` | An upstream step goes along a depends_on edge or back along a produces edge, and no other. |
| `DependencyClosure.DownstreamStepsAre` | `src/context/dependency-closure.js:150-173` | A downstream step goes along a produces edge or back along a depends_on edge, and no other. |
| `SufficiencyOracle.ClosureLeast` | `src/context/context-sufficiency-oracle.js:72-108` | The closure is the least set holding the task and closed along closure edges in both directions. |
| `SufficiencyOracle.ClosuresPartition` | `src/context/context-sufficiency-oracle.js:72-108` | Closures of two tasks are equal or disjoint, and equal exactly when one task is in the other's. |
| `SufficiencyOracle.OwnVocabularyClosure` | `src/context/context-sufficiency-oracle.js:56-62` | On a graph built through the context graph's own operations the closure is the task alone. |
| `SufficiencyOracle.ClosureStepsAre` | `src/context/context-sufficiency-oracle.js:56-62` | A closure step goes to the other end of an edge of one of the three names, or without a type. |
| `SufficiencyOracle.Close` | `src/context/context-sufficiency-oracle.js:84-105` | The worklist computes exactly the reachable set, without repeats. |
| `SufficiencyOracle.ComputeRequiredClosure` | `src/context/context-sufficiency-oracle.js:72-108` | The closure, sorted, edges without a type included; errors exactly for an empty or unknown task. |
| `SufficiencyOracle.VerifySufficiency` | `src/context/context-sufficiency-oracle.js:113-138` | Sufficient if and only if the selection covers the closure; missing and unused are the two differences, sorted. |
| `SufficiencyOracle.BuildMirrored` | `src/context/context-sufficiency-oracle.js:155-167` | A graph built from lists answers both edge queries from the same edges. |
| `Minimality.Partition` | `src/context/context-minimality.js:90-97` | Splits the selection into required and over-injected nodes. |
| `Minimality.TestMinimality` | `src/context/context-minimality.js:69-140` | Never a redundant node, ratio always 1, minimal if and only if the selection lies inside the closure. |
| `Minimality.MinimalSufficientIsClosure` | `src/context/context-minimality.js:117-119` | Minimal and sufficient together mean the selection is the closure. |
| `RateDistortion.SelectByBudget` | `src/context/context-rate-distortion.js:67-87` | The loop is skip-greedy selection in priority order. |
| `RateDistortion.RankedOrder` | `src/context/context-rate-distortion.js:67-77` | The order of selection: candidates with a token count, highest priority first, then by id. |
| `RateDistortion.RateIsSaving` | `src/context/context-rate-distortion.js:151-166` | The rate is the share of the tokens saved, between zero and one, and one when there are none. |
| `RateDistortion.BudgetsAre` | `src/context/context-rate-distortion.js:123-145` | The sweep visits, in rising order and once each, exactly the non-negative budgets given or, with none given, exactly the prefix sums of the ranked candidates. |
| `RateDistortion.GreedyAtPrefix` | `src/context/context-rate-distortion.js:67-87` | At a budget equal to a prefix sum, exactly that prefix and then whatever is free. |
| `RateDistortion.ChosenChain` | `src/context/context-rate-distortion.js:67-87` | A larger prefix-sum budget never drops an item. |
| `RateDistortion.ArbitraryBudgetsNotMonotone` | `src/context/context-rate-distortion.js:67-87` | For other budgets the selection need not grow: a concrete input. |
| `RateDistortion.GrowsExactly` | `src/context/context-rate-distortion.js:67-87` | For all budgets, a larger one never drops an item, if and only if in priority order the items that cost something never get cheaper. |
| `RateDistortion.RisingSweep` | `src/context/context-rate-distortion.js:123-170` | Then the curve over any budgets is monotone in selection, rate and distortion. |
| `RateDistortion.MeasureAt` | `src/context/context-rate-distortion.js:151-166` | One point of the curve: rate, distortion and the oracle's judgement at a budget. |
| `RateDistortion.ComputeRateDistortion` | `src/context/context-rate-distortion.js:100-203` | The report: the curve over the normalised budgets, its first sufficient point and the largest sufficient rate. |
| `RateDistortion.DerivedStep` | `src/context/context-rate-distortion.js:123-170` | Along the derived sweep selections grow, tokens used equal the budget, rate and distortion never rise. |
| `RateDistortion.DerivedMonotone` | `src/context/context-rate-distortion.js:123-170` | The same for the whole curve. |
| `RateDistortion.DerivedSweep` | `src/context/context-rate-distortion.js:123-184` | In addition crr, the maximal rate and the operating point's rate coincide, and with some tokens an operating point exists if and only if the closure lies in the candidates. |
| `ContextRouter.ResolveContext` | `src/context/context-router.js:200-575` | Selection, omissions, estimate, edges, gaps, counts and flags of a resolution. Whatever the budget, the task, tasks, requirements, mandatory outputs and the direct prerequisites of the task that are not evidence, decision, constraint or observation are selected; what is omitted as conditional is exactly the omitted evidence, decisions and constraints; the budget overflows exactly when the former alone exceed it. |
| `ContextRouter.ClassMeans` | `src/context/context-router.js:88-117` | Which nodes are mandatory and which conditional, in terms of type, marking and edges into the task. |
| `ContextRouter.NodeCost` | `src/context/context-router.js:73-81` | A node costs a quarter of its content, rounded up, and twenty. |
| `RouterRequired.RequiredAre` | `src/context/context-router.js:243-403` | A node is required if and only if it is the task, is listed by the walk of depth 5 or produced there, is an attached category node among the five oldest of its type, or surrounds a required output; each in terms of edges. |
| `RouterRequired.CausalUpstream` | `src/context/context-router.js:253-257` | What that walk lists lies on a chain of upstream edges, and every direct prerequisite is listed. |
| `RouterRequired.OldestAre` | `src/context/context-router.js:348-383` | Of the category nodes of one type attached to the task or the prompt, exactly those with fewer than five older ones are required. |
| `ContextRouter.MissingAre` | `src/context/context-router.js:405-436` | The missing entries are exactly the required ids that name no node, reported for the source of their first incoming edge or else the task, and the edges of the five dependency types that leave the others for no node. |
| `ContextRouter.ContradictionsAre` | `src/context/context-router.js:438-447` | The contradictions are exactly the pairs of required nodes that a contradicts edge joins, whichever way. |
| `ContextRouter.Admit` | `src/context/context-router.js:494-522` | One admission phase takes in order what fits and records what does not. |
| `ContextRouter.SelectGroups` | `src/context/context-router.js:487-522` | The three phases together, with the running total equal to the selected total. |
| `ContextRouter.Judge` | `src/context/context-router.js:524-567` | Complete status means sufficient with nothing omitted, and conflicted takes precedence over insufficient. |
| `ContextRouter.FillFacts` | `src/context/context-router.js:494-522` | Filling keeps every item once, stays within the maximum and leaves out only what no longer fits. |
| `ContextRouter.SelectionAdmitted` | `src/context/context-router.js:449-522` | Selected and omitted split the required nodes; nothing mandatory omitted; over budget only by mandatory nodes; no omitted node would fit. |
| `ContextRouter.SelectionOrderIndependent` | `src/context/context-router.js:449-522` | The selected list is the same for every order of the required nodes. |
| `ContextRouter.SmallGraphsCovered` | `src/context/context-router.js:253-257` | With at most six nodes the fixed depth requires every transitive dependency of the task. |
| `ContextRouter.NothingMissing` | `src/context/context-router.js:405-436` | On a well-indexed graph the missing-dependency pass finds nothing. |
| `ContextRouter.OnlyOverflowIsInsufficient` | `src/context/context-router.js:535-567` | There, complete means free of contradictions, and insufficient means mandatory overflow. |
| `ContextSelection.SelectFoundations` | `src/context/context.js:357-370` | L1 capsules with content, taken most important first, within budget; the ones left out would not fit. |
| `ContextSelection.SelectUseful` | `src/context/context.js:373-402` | Relevant L2 and L3 capsules, taken by utility per token, no two of the same content; each left out is superseded, a duplicate or would not fit. |
| `ContextSelection.SelectDependencies` | `src/context/context.js:405-423` | The growing worklist terminates; every active dependency of a selected capsule is selected or would overflow; everything added is such a dependency. |
| `ContextSelection.CompetingOrders` | `src/context/context.js:357-378` | Foundations compete by importance and the rest by utility per token, highest first. |
| `ContextSelection.SelectContext` | `src/context/context.js:347-423` | All of this for the finished package of any capsule list, whose cost is its total and within budget; every capsule left out is explained by its level, its lifecycle, its content or a budget it would exceed. |
| `Json.RoundTrip` | `src/persistence/transaction-log.js:14-19` | Parsing the printed text of a well-formed value gives the value back. |
| `Json.PrintInjective` | `src/execution/strategy-identity.js:110-111` | Printed texts are equal only for equal values. |
| `JsonNesting.TornObjectFails` | `src/persistence/transaction-log.js:94-105` | No proper prefix of a printed object parses. |
| `JsonNesting.GluedObjectFails` | `src/persistence/transaction-log.js:94-105` | No text that starts with a brace parses when a printed object is glued to its end. |
| `Json.PrintOneLine` | `src/persistence/transaction-log.js:62-62` | Printed text has no raw newline. |
| `CanonicalText.CanonicalPrints` | `src/persistence/transaction-log.js:14-19` | The recursive canonical printer prints the value with its keys sorted at every depth. |
| `CanonicalText.CanonicalBack` | `src/persistence/transaction-log.js:14-19` | Parsing canonical text gives the value back up to key order. |
| `CanonicalText.CanonicalDecides` | `src/persistence/transaction-log.js:14-24` | Canonical texts are equal exactly for values equal up to key order. |
| `CanonicalText.CanonicalTorn` | `src/persistence/transaction-log.js:94-105` | No proper prefix of the canonical text of an object parses. |
| `CanonicalText.CanonicalGlued` | `src/persistence/transaction-log.js:94-105` | Nor does any text that starts with a brace, followed by one. |
| `LineFraming.CutRead` | `src/persistence/transaction-log.js:90-106` | Cutting a file of lines anywhere reads back as the surviving lines and at most one torn one. |
| `LineFraming.TornIsPrefix` | `src/persistence/transaction-log.js:90-106` | The torn line is a proper prefix of the first line that did not survive. |
| `LineFraming.SomeSurvive` | `src/persistence/transaction-log.js:90-106` | Every cut point has a number of surviving lines. |
| `LineFraming.ReadEach` | `src/persistence/transaction-log.js:90-106` | The loop over the split file reads every non-empty line once, in order. |
| `LineFraming.ReadAdded` | `src/persistence/transaction-log.js:62-106` | A line appended to any file is read together with what stands after the last newline. |
| `TransactionLogs.StampSealed` | `src/persistence/transaction-log.js:56-61` | Every entry is well formed and carries the hash of its other fields, whatever fields the caller overrides. |
| `TransactionLogs.StampCarries` | `src/persistence/transaction-log.js:54-61` | An entry holds every field of the operation with its value, except hash; the count and the time where the operation has none of its own; and nothing else but the hash. |
| `TransactionLogs.HashedFields` | `src/persistence/transaction-log.js:21-24` | What is hashed is every field but hash, _corrupt and _rawLine: two hashed texts are equal exactly when all other fields are. |
| `TransactionLogs.AppendedReturns` | `src/persistence/transaction-log.js:54-108` | The value read back after an append is that operation: the same fields with their values, up to key order. |
| `TransactionLogs.MarkedExactly` | `src/persistence/transaction-log.js:92-102` | A line that parses is marked corrupt if and only if it carries a hash that is not the hash of its other fields, and nothing but the mark changes. |
| `TransactionLogs.GarbledKept` | `src/persistence/transaction-log.js:100-102` | A line that does not parse is marked corrupt and kept. |
| `TransactionLogs.HashSorted` | `src/persistence/transaction-log.js:21-24` | The entry hash does not depend on key order. |
| `TransactionLogs.EntryBack` | `src/persistence/transaction-log.js:92-102` | A journal line reads back as its entry up to key order, unmarked. |
| `TransactionLogs.AlteredEntryFlagged` | `src/persistence/transaction-log.js:96-99` | A stored entry whose hashed fields were changed reads back marked corrupt when the hash tells the texts apart. |
| `TransactionLogs.CrashRead` | `src/persistence/transaction-log.js:54-108` | The journal cut at any point reads back as the first entries appended, each up to key order, and at most one garbled line. |
| `TransactionLogs.JournalRead` | `src/persistence/transaction-log.js:76-108` | The uncut journal reads back as all its entries. |
| `TransactionLogs.AppendExactly` | `src/persistence/transaction-log.js:54-73` | An entry appended to any file whose lines start with a brace is readable after all that was readable before, if and only if the file is empty or ends in a newline. |
| `TransactionLogs.AppendAfterCrash` | `src/persistence/transaction-log.js:54-108` | After a crash at any point, the surviving entries and the next one appended read back, if and only if the cut was at the start of a line. |
| `TransactionLogs.AppendLost` | `src/persistence/transaction-log.js:54-108` | After any other cut, the torn line and the next entry read as one garbled line. |
| `TransactionLogs.LostNewline` | `src/persistence/transaction-log.js:62-72` | If a crash loses only the last newline, the entry before it is lost as well. |
| `TransactionLogs.EveryRunBraced` | `src/persistence/transaction-log.js:43-121` | Over every run of appends, crashes, reopenings and truncations, each line of the file starts with a brace. |
| `TransactionLogs.RunThenAppend` | `src/persistence/transaction-log.js:43-121` | So after every such run the next entry is readable, if and only if the file is empty or ends in a newline. |
| `TransactionLogs.CountsFromOne` | `src/persistence/transaction-log.js:43-121` | After a crash, a reopening or a truncation the next entry is numbered one, behind what is left of the file. |
| `TransactionLogs.TransactionLog.constructor` | `src/persistence/transaction-log.js:43-48` | A log over whatever file there is counts from zero. |
| `TransactionLogs.TransactionLog.Append` | `src/persistence/transaction-log.js:54-73` | Appends exactly one line to any file and numbers it next; the entry carries the operation; an intact journal stays intact; the exact condition for the entry to be readable, and then what reads back is the operation. |
| `TransactionLogs.TransactionLog.ReadAll` | `src/persistence/transaction-log.js:76-108` | Reads the file, and on an intact file every entry in order. |
| `TransactionLogs.TransactionLog.Truncate` | `src/persistence/transaction-log.js:117-121` | Restarts the count whether or not the file could be moved away. |
| `Replays.Replay` | `src/persistence/transaction-log.js:132-157` | The loop computes the replay of the entries, and every entry is either applied or skipped. |
| `Replays.LastWriteWins` | `src/persistence/transaction-log.js:137-154` | A key holds what the last entry writing it left, from any starting state. |
| `Replays.Untouched` | `src/persistence/transaction-log.js:137-154` | A key no entry writes keeps its initial value. |
| `Replays.AppendReplayed` | `src/persistence/transaction-log.js:54-157` | Replaying a file after a set of a task is appended to it stores its data under type and task id; after a del, drops them; all else is as before. |
| `Replays.SkippedExactly` | `src/persistence/transaction-log.js:137-147` | An entry is skipped if and only if it is empty, is marked corrupt, or lacks a type or a task id. |
| `Replays.Composes` | `src/persistence/transaction-log.js:132-157` | Replaying in two parts is replaying the whole. |
| `Replays.ReplayedTwice` | `src/persistence/transaction-log.js:124-157` | Replaying any suffix again changes nothing. |
| `Replays.Redelivered` | `src/persistence/transaction-log.js:129-154` | A late copy of one entry is harmless exactly when it leaves what the last writer of its key left. |
| `Replays.StaleCopyWins` | `src/persistence/transaction-log.js:129-154` | So replay is not idempotent by sequence number: a concrete input. |
| `Replays.CrashReplay` | `src/persistence/transaction-log.js:76-157` | Replaying a journal cut at any point gives the state after the entries that survived. |
| `StableSort.StableSortArray` | `src/execution/strategy-identity.js:68-77` | Sorting keys paired with positions is the stable sort by key. |
| `StableSort.SortByKeyExact` | `src/execution/strategy-identity.js:68-77` | Two arrays sort to the same array exactly when every key has the same elements in the same order. |
| `StrategyIdentity.SameFormIffSimilar` | `src/execution/strategy-identity.js:79-96` | Two values have the same canonical form if and only if they are similar. |
| `StrategyIdentity.SteadyFieldsDecide` | `src/execution/strategy-identity.js:87-93` | Key order and volatile fields do not matter. |
| `StrategyIdentity.ArraySwapExact` | `src/execution/strategy-identity.js:81-84` | Exchanging array neighbours keeps the form exactly when they are similar or have different stable keys. |
| `StrategyIdentity.ReorderedArray` | `src/execution/strategy-identity.js:81-84` | Any reordering keeps the form when the canonical elements have distinct stable keys. |
| `StrategyIdentity.CollidingKeys` | `src/execution/strategy-identity.js:55-66` | Stable keys collide: two different arrays whose order shows in the form. |
| `StableKeys.KeysAreSpellings` | `src/execution/strategy-identity.js:57-66` | Canonical values without separators in their keys and texts have the same stable key if and only if they have the same spelling, in which arrays and objects have no closing marks. |
| `StableKeys.NestedArraysCollide` | `src/execution/strategy-identity.js:61-61` | So even without separators, an array inside an array can share its key with a different value. |
| `StableKeys.NestedObjectsCollide` | `src/execution/strategy-identity.js:62-65` | And so can an object inside an object. |
| `StableKeys.KeyTells` | `src/execution/strategy-identity.js:57-66` | Without separators and without such nesting, stable keys are injective. |
| `StableKeys.ReorderedPlain` | `src/execution/strategy-identity.js:68-84` | So an array of such values, distinct in canonical form, keeps its form in any order. |
| `StrategyIdentity.Idempotent` | `src/execution/strategy-identity.js:79-96` | A canonical form is its own canonical form. |
| `StrategyHash.CanonicalizeValue` | `src/execution/strategy-identity.js:79-96` | Walking the sorted keys and skipping volatile ones computes the canonical form. |
| `StrategyHash.NoneEphemeral` | `src/execution/strategy-identity.js:114-131` | No ephemeral key is reported exactly when no volatile key occurs outside arrays. |
| `StrategyHash.EphemeralExactly` | `src/execution/strategy-identity.js:114-131` | The ephemeral keys reported are exactly the dotted paths to the volatile keys outside arrays. |
| `StrategyHash.IdentityHolds` | `src/execution/strategy-identity.js:133-143` | An identity holds the hash of the canonical text and those paths. |
| `StrategyHash.IdentityHash` | `src/execution/strategy-identity.js:104-143` | Hashing an identity is hashing the canonical form of its raw strategy. |
| `StrategyHash.FlaggedDiffers` | `src/execution/strategy-identity.js:104-112` | A raw value that carries the identity flag hashes like its own identity only if the canonical part it claims and its real one, which always print differently, collide. |
| `StrategyHash.IdentityHashExact` | `src/execution/strategy-identity.js:104-143` | Under any hash function, hashing an identity equals hashing the raw strategy if and only if the raw strategy is not flagged or those two texts collide. |
| `StrategyHash.SameStrategyExact` | `src/execution/strategy-identity.js:145-151` | Under any hash function, unflagged objects and arrays are the same if and only if they are similar or their different canonical texts collide; all other values count as one strategy. |
| `StrategyHash.FifteenKeys` | `src/execution/strategy-identity.js:20-36` | Two objects have the same canonical form if and only if they agree, up to form, under every key but the fifteen volatile ones, written out. |
| `StrategyHash.SameStrategyKeys` | `src/execution/strategy-identity.js:145-151` | So two unflagged objects are the same strategy if and only if they agree so, or their texts hash alike. |
| `StrategyHash.SimilarSame` | `src/execution/strategy-identity.js:145-151` | Similar strategies are the same. |
| `StrategyHash.SameAsItsIdentity` | `src/execution/strategy-identity.js:104-151` | An unflagged strategy is the same as the identity made from it. |
| `StrategyHash.SimilarEquivalence` | `src/execution/strategy-identity.js:145-151` | Similarity is an equivalence. |
| `Apportionment.NormalizeWeights` | `src/cognition/task-inference-engine.js:32-47` | Rewrites the weights in place to the largest-remainder shares, or changes nothing when the total is not positive. |
| `Apportionment.DeficitBounds` | `src/cognition/task-inference-engine.js:39-39` | The deficit is the sum of the remainders: at least zero and less than the number of criteria. |
| `Apportionment.SumExact` | `src/cognition/task-inference-engine.js:28-47` | The shares sum to exactly one. |
| `Apportionment.Quota` | `src/cognition/task-inference-engine.js:36-46` | Every share is its exact value rounded down or up; a whole one is kept. |
| `Apportionment.LargerNeverLess` | `src/cognition/task-inference-engine.js:38-43` | A strictly larger weight never gets a smaller share. |
| `Apportionment.NormalizedMeans` | `src/cognition/task-inference-engine.js:32-47` | The weights become whole ten-thousandths that sum to one, each less than a ten-thousandth from its exact share; with no positive total nothing changes. |
| `Apportionment.Idempotent` | `src/cognition/task-inference-engine.js:32-47` | Normalising twice changes nothing more. |
| `Apportionment.EvaluateCompletion` | `src/cognition/task-inference-engine.js:247-267` | The loop sums the passed weights and lists the rest; completion compares the rounded sum. |
| `Apportionment.RoundsNearest` | `src/cognition/task-inference-engine.js:247-267` | Rounding gives the nearest whole number of ten-thousandths, halves away from zero. |
| `Apportionment.NormalizedCompletion` | `src/cognition/task-inference-engine.js:230-267` | On normalised non-negative weights rounding loses nothing, and the sum is one exactly when every criterion not passed weighs nothing. |
| `RateLimiters.OneWindow` | `src/integration/rate-limiter.js:26-35` | From a window's start to one length later, at most what is left of its limit is granted. |
| `RateLimiters.AnyStretch` | `src/integration/rate-limiter.js:26-35` | In any half-open stretch of one window's length, at most twice the limit; at most the limit when a window is one tick. |
| `RateLimiters.Attained` | `src/integration/rate-limiter.js:26-35` | A trace that reaches twice the limit, for every limit and every window of at least two ticks. |
| `RateLimiters.RemainingExact` | `src/integration/rate-limiter.js:37-41` | A burst gets exactly as many grants as remaining promised. |
| `RateLimiters.RateLimiter.TryAcquire` | `src/integration/rate-limiter.js:26-35` | Grants, and moves the window, as the step that the bounds are about. |
| `RateLimiters.RateLimiter.Remaining` | `src/integration/rate-limiter.js:37-41` | The remaining grants of the current window. |
| `RateLimiters.RateLimiter.Used` | `src/integration/rate-limiter.js:43-47` | The grants used in the current window. |
| `RateLimiters.RateLimiter.Reset` | `src/integration/rate-limiter.js:49-52` | Starts an empty window now. |
| `MultiSigners.NormalizeConfig` | `src/policy/multi-signer.js:24-47` | Refused exactly without an eligible signer or for a required count outside 1 to their number; an explicit count is kept, majority requires more than half, any requires one, everything else requires all. |
| `MultiSigners.EveryRunProper` | `src/policy/multi-signer.js:67-119` | Over every run approvals are distinct and by eligible signers. |
| `MultiSigners.StableUntilReset` | `src/policy/multi-signer.js:67-142` | Until a reset approvals are only added, so a satisfied change stays satisfied. |
| `MultiSigners.Overlap` | `src/policy/multi-signer.js:121-135` | When twice the needed approvals exceed the distinct signers, two satisfied changes share an approver. |
| `MultiSigners.DisjointRun` | `src/policy/multi-signer.js:67-135` | Otherwise a run satisfies two changes with no common approver, so the bound is exact. |
| `MultiSigners.MajorityOverlaps` | `src/policy/multi-signer.js:41-45` | A requirement over half of the configured list always makes approvers overlap. |
| `MultiSigners.SatisfiableExact` | `src/policy/multi-signer.js:34-46` | A change can be satisfied exactly when the requirement is at most the number of distinct signers. |
| `MultiSigners.MultiSigner.Approve` | `src/policy/multi-signer.js:67-119` | Accepts exactly an eligible signer's first approval; reports the quorum only on an accepted approval. |
| `MultiSigners.MultiSigner.GetStatus` | `src/policy/multi-signer.js:121-135` | The approvals of a change and whether they satisfy the quorum. |
| `MultiSigners.MultiSigner.Reset` | `src/policy/multi-signer.js:137-143` | Forgets one change, or all of them. |
| `ContextLifecycle.TransitionSteps` | `src/context/context-lifecycle.js:79-104` | A transition is one step of the table and keeps the history a path ending at the lifecycle. |
| `ContextLifecycle.TableMeans` | `src/context/context-lifecycle.js:36-46` | Which transitions are legal, in words: only live items move, they may always be invalidated or archived, and only active and stale ones compressed. |
| `ContextLifecycle.TransitionMeans` | `src/context/context-lifecycle.js:79-104` | A transition succeeds exactly when it is legal, and changes the lifecycle, the time and the end of the history only. |
| `ContextLifecycle.OverdueMeans` | `src/context/context-lifecycle.js:130-157` | An item is overdue after an hour as created, a day as active, a week as compressed. |
| `ContextLifecycle.PromoteMeans` | `src/context/context-promotion.js:53-131` | Promotion succeeds exactly to a nearer working layer, and reactivates exactly a compressed item. |
| `ContextLifecycle.DemoteMeans` | `src/context/context-demotion.js:53-130` | Demotion succeeds exactly to a layer further away, and compresses exactly an active or stale item on its way to the archive. |
| `ContextLifecycle.MoveSteps` | `src/context/context-promotion.js:53-131` | Promotion and demotion take at most one step of the table and record it. |
| `ContextLifecycle.OverdueCanGoStale` | `src/context/context-lifecycle.js:148-157` | An overdue item can always go stale. |
| `MemoryLayers.LayerEvictionsFacts` | `src/context/context-memory-layers.js:209-231` | A layer gives up exactly its surplus, from its own items, none more important or, when as important, newer than one that stays. |
| `MemoryLayers.EvictionsFacts` | `src/context/context-memory-layers.js:209-231` | All evictions together: each once, each a registered item of a working layer. |
| `MemoryLayers.EvictedCount` | `src/context/context-memory-layers.js:209-231` | As many items leave a layer as it holds beyond its room. |
| `MemoryLayers.EvictedOrder` | `src/context/context-memory-layers.js:220-228` | And none that leaves is heavier, or as heavy and newer, than one of its layer that stays. |
| `MemoryLayers.LayerAssigned` | `src/context/context-memory-layers.js:141-160` | The layer asked for, else the item's own, else its metadata's, else its category's. |
| `MemoryLayers.GroupByLayer` | `src/context/context-memory-layers.js:187-197` | The loop puts every item into its layer's bucket, in order. |
| `MemoryLayers.SelectEvictions` | `src/context/context-memory-layers.js:209-231` | The selection that the facts above are about. |
| `ContextManagers.ItemSteps` | `src/context/context-manager.js:156-317` | Whatever the command, an item it does not replace takes at most one step of the transition table. |
| `ContextManagers.RunKeeps` | `src/context/context-lifecycle.js:36-46` | Over every run, INVALIDATED and ARCHIVED items keep their lifecycle. |
| `ContextManagers.EveryRunConsistent` | `src/context/context-manager.js:80-317` | Over every run each item's history is a path of the table ending at its lifecycle, and ids stay distinct. |
| `ContextManagers.EvictionSucceedsExactly` | `src/context/context-manager.js:248-262` | Eviction succeeds if and only if every chosen item is ACTIVE or STALE. |
| `ContextManagers.EvictionItems` | `src/context/context-manager.js:248-262` | Then every id keeps its place, chosen items are compressed and archived, the rest are untouched. |
| `ContextManagers.EvictionMeans` | `src/context/context-manager.js:248-262` | The same field by field: what an evicted item becomes, and that nothing else of it changes. |
| `ContextManagers.SweepMeans` | `src/context/context-manager.js:178-194` | A sweep makes exactly the overdue items stale, and leaves every other as it is. |
| `ContextManagers.ArchiveMeans` | `src/context/context-manager.js:270-281` | Archiving moves exactly the compressed, stale, invalidated and archived items, and changes only their layer. |
| `ContextManagers.RegisterMeans` | `src/context/context-manager.js:329-337` | What registering stores: the layer assigned, the time given unless it is zero, CREATED unless a lifecycle is given. |
| `ContextManagers.SetLayerMeans` | `src/context/context-manager.js:234-240` | Setting a layer changes the layer of that item only. |
| `ContextManagers.EvictionSizes` | `src/context/context-memory-layers.js:209-231` | Then each working layer holds the lesser of its size and its capacity. |
| `ContextManagers.EvictionRepeats` | `src/context/context-manager.js:248-262` | And a second eviction changes nothing. |
| `ContextManagers.EvictionPriority` | `src/context/context-memory-layers.js:220-228` | No evicted item is more important, or as important and newer, than one kept in its layer. |
| `ContextManagers.FreshSurplusFails` | `src/context/context-lifecycle.js:36-38` | A layer overfull with CREATED items makes eviction fail. |
| `ContextManagers.SweepSettles` | `src/context/context-manager.js:178-194` | After a sweep nothing is overdue at that time. |
| `ContextManagers.ShelvedUsable` | `src/context/context-manager.js:270-281` | After archiving, no item that should be archived is left in a working layer. |
| `ContextManagers.ContextManager.Register` | `src/context/context-manager.js:80-86` | Registers the prepared item at the id's place, or refuses an empty id. |
| `ContextManagers.ContextManager.Unregister` | `src/context/context-manager.js:93-95` | Removes the item if it is there, and says so. |
| `ContextManagers.ContextManager.TransitionItem` | `src/context/context-manager.js:156-162` | Stores the transitioned item, or leaves everything on an unknown id or an illegal step. |
| `ContextManagers.ContextManager.SweepStale` | `src/context/context-manager.js:178-194` | Moves exactly the overdue items to STALE, never failing, and returns them as moved, in order. |
| `ContextManagers.ContextManager.SetLayer` | `src/context/context-manager.js:234-240` | Stores the item with its layer, or leaves everything on an unknown id. |
| `ContextManagers.ContextManager.EvictForCapacity` | `src/context/context-manager.js:248-262` | Evicts the chosen items one by one up to the first that cannot be compressed. |
| `ContextManagers.ContextManager.EvictEach` | `src/context/context-manager.js:251-257` | The loop: an error leaves exactly the items before it evicted. |
| `ContextManagers.ContextManager.PromoteArchive` | `src/context/context-manager.js:270-281` | Moves exactly the candidates to the archive layer and returns them as moved, in order. |
| `ContextManagers.ContextManager.PromoteItem` | `src/context/context-manager.js:295-301` | Stores the promoted item, or leaves everything on an error. |
| `ContextManagers.ContextManager.DemoteItem` | `src/context/context-manager.js:311-317` | Stores the demoted item, or leaves everything on an error. |
| `ContractGate.GateExact` | `index.js:1469-1549` | The gate opens if and only if the message claims completion and the task is complete. |
| `ContractGate.SupportedExactly` | `index.js:1584-1793` | A command keeps evidence behind every done or verified requirement exactly when it is not a verification without evidence. |
| `ContractGate.EveryRunSupported` | `src/execution/execution-engine.js:75-89` | Over every run without such a verification, done and verified requirements have evidence. |
| `ContractGate.IntoDoneExactly` | `index.js:1552-1570` | A task enters DONE if and only if the gate is asked about a claim and the task is complete. |
| `ContractGate.RunIntoDone` | `index.js:1469-1570` | In any run into DONE some claim met a task with approved contract, nothing blocking and every requirement verified. |
| `ContractGate.DoneVerifiedExactly` | `index.js:1685-1714` | A step keeps "DONE means every requirement verified", if and only if it is not an accepted mark of a DONE task's requirement as anything but verified. |
| `ContractGate.EveryRunDoneVerified` | `index.js:1469-1793` | It holds all along a run, if and only if the run takes no such step. |
| `ContractGate.DoneWithPending` | `index.js:1685-1714` | The plainest such step: a requirement of a DONE task marked pending again. |
| `ContractGate.ApproveExactly` | `index.js:1584-1602` | Approval is refused exactly while something blocks. |
| `ContractGate.ApprovedClearExactly` | `src/skills/engine.js:1272-1316` | A step keeps "an approved contract has nothing blocking", if and only if it is not an escalation, after approval, of an active non-critical assumption. |
| `ContractGate.EveryRunClear` | `index.js:1584-1793` | It holds all along a run, if and only if the run takes no such step. |
| `ContractGate.ApprovedThenBlocked` | `src/integration/message-handler.js:393-397` | Such a step happens: a contract that is clear, is approved, and after the next message is approved and blocked. |
| `ContractGate.MarkVerifies` | `index.js:1685-1714` | A mark makes a requirement verified if and only if it asks for that, the requirement was done, the evidence is not blank and its own checks, if any, pass; the evidence left is then exact. |
| `ContractGate.TrimTakesEnds` | `index.js:1690-1690` | Trimming takes white space off both ends and nothing else. |
| `CommandEffects.ApproveEffect` | `index.js:1584-1647` | Approval of a contract with nothing blocking changes its status, and the phase unless the task is DONE; otherwise nothing changes. |
| `CommandEffects.RejectEffect` | `index.js:1650-1658` | Rejection changes the status and makes the task wait. |
| `CommandEffects.EditEffect` | `index.js:1661-1682` | An edit proposes the contract again; new titles become numbered pending requirements without evidence. |
| `CommandEffects.MarkEffect` | `index.js:1685-1714` | Why a mark is refused, exactly; otherwise the first requirement with the id alone changes, and its new status and evidence are exact. |
| `CommandEffects.VerifyEffect` | `src/execution/execution-engine.js:75-89` | Verification by evidence changes the first requirement with the id alone, and adds the evidence id once. |
| `CommandEffects.AnswerEffect` | `index.js:1717-1739` | An answer is refused exactly for an unknown question or a blank answer; it answers that question and settles the one assumption it asks about. |
| `CommandEffects.AnswerMessageEffect` | `index.js:1744-1769` | A message is refused as an answer exactly when nothing blocks or it is blank; it answers every blocking question and settles exactly the assumptions they ask about. |
| `CommandEffects.ResolveEffect` | `index.js:1771-1793` | A resolution settles that assumption, answers the first blocking question about it, and leaves ASKING exactly when nothing blocks any more. |
| `CommandEffects.EscalateEffect` | `src/skills/engine.js:1272-1316` | An escalation raises exactly the active non-blocking assumptions that are material; each then has a question about it, and no question is lost. |
| `CommandEffects.AskEffect` | `src/integration/message-handler.js:407-416` | A task goes to ASKING exactly when some blocking question is undecided, unless it has just been answered. |
| `CommandEffects.VerifyingExactly` | `index.js:1513-1546` | The gate asks for verification if and only if a claim meets a task that lacks nothing else. |
| `CommandEffects.GateEffect` | `index.js:1552-1570` | A claim takes a complete task to DONE and one that lacks only verification to VERIFYING; nothing but the phase changes. |
| `CommandEffects.PendingAre` | `index.js:1469-1546` | What a closed gate lists: exactly the blocking questions, else the undecided assumptions, else the unfinished requirements, else the unverified ones, else those whose checks fail. |
| `TaskStores.EvaluateCompletionGate` | `index.js:1469-1549` | The gate's verdict and what it lists, opening exactly for complete tasks on a claim. |
| `TaskStores.CheckFailures` | `index.js:1532-1546` | The grouping loop lists the requirements whose checks do not all pass, in order of first check. |
| `TaskStores.TaskStore.ApproveContract` | `index.js:1584-1647` | PROPOSED to APPROVED, leaving DONE alone; accepted exactly for a stored task with nothing blocking. |
| `TaskStores.TaskStore.RejectContract` | `index.js:1650-1658` | Rejects and waits. |
| `TaskStores.TaskStore.EditContract` | `index.js:1661-1682` | Back to PROPOSED, with fresh pending requirements when the patch has some. |
| `TaskStores.TaskStore.MarkRequirement` | `index.js:1685-1714` | Refused or stored as the evidence, order and check rules say, keeping evidence behind every done or verified requirement; in the store, a requirement becomes verified if and only if it was done, the evidence is not blank and its own checks pass. |
| `TaskStores.TaskStore.AnswerQuestion` | `index.js:1717-1739` | Answers one question, which then has that answer and blocks no more, and resolves the assumption it asks about. |
| `TaskStores.TaskStore.AnswerFromMessage` | `index.js:1744-1769` | Answers every blocking question, so that none is left, and resolves their assumptions. |
| `TaskStores.TaskStore.ResolveAssumption` | `index.js:1771-1793` | Resolves one assumption, answers the first question about it, and leaves ASKING when nothing blocks. |
| `TaskStores.RaiseEach` | `src/skills/engine.js:1279-1309` | The loop raises each assumption the message makes material and gives it the first blocking question that is about none, or one of its own. |
| `TaskStores.TaskStore.EscalateAssumptions` | `src/integration/message-handler.js:393-397` | Stores the escalated contract if something was raised; an approved contract then stays approved and is blocked. |
| `TaskStores.TaskStore.GateOnMessage` | `src/integration/message-handler.js:460-466` | Stores the phase when the gate blocks or opens; a task not DONE becomes DONE exactly on a claim about a complete task. |
| `TaskStores.TaskStore.MarkRequirementVerified` | `src/execution/execution-engine.js:75-89` | Verifies a requirement and adds the evidence id once if there is one; evidence is kept exactly unless it is missing on a requirement without any. |
| `Assessment.CompareObject` | `src/context/compare-object.js:16-89` | The loops report missing, differing and extra keys exactly as the recursive description. |
| `Assessment.CompareArray` | `src/context/compare-array.js:19-98` | The loops report missing, differing and extra elements exactly as the recursive description. |
| `Assessment.Summarize` | `src/policy/assessment-engine.js:63-72` | The three counts, adding up to the total. |
| `Assessment.CreateAssessment` | `src/policy/assessment-engine.js:14-61` | Findings, summary and verdict of an assessment; the verdict on scalars follows the scalar rules, and on objects and arrays it is CONTRADICTED exactly when a part is. |
| `Assessment.ScalarsJudged` | `src/context/assessment-rules.js:16-55` | The verdict on two scalars: booleans agree or contradict, numbers agree within a tenth of the expected one and a hundredth, texts follow the placeholder and occurrence rules, different kinds contradict. |
| `Assessment.ObjectVerdict` | `src/context/compare-object.js:16-89` | An object is contradicted if and only if an expected key is missing or its value contradicted, and beyond doubt if and only if every expected key is settled and there is no other. |
| `Assessment.ArrayVerdict` | `src/context/compare-array.js:19-98` | The same for arrays, position by position. |
| `Assessment.OneWrongBoolean` | `src/context/assessment-rules.js:32-34` | One observed boolean that is not the expected one contradicts the whole object. |
| `Assessment.FindingsLocated` | `src/context/compare-object.js:16-89` | Every finding names the place it is about and reports what was expected and observed there. |
| `Assessment.VerdictIsJudgement` | `src/policy/assessment-engine.js:23-83` | Aggregating the flat findings equals a structural recursion over the two values, in which empty expected objects contribute nothing. |
| `Assessment.ExtrasNeverContradict` | `src/context/compare-object.js:75-86` | Adding keys or elements to the actual value, at any depth, never turns a verdict into CONTRADICTED. |
| `Assessment.SelfComparison` | `src/context/assessment-rules.js:16-55` | Comparing a value with itself is CONTRADICTED if and only if it contains NaN. |

## Left out

- Strings: characters are Unicode scalar values, so comparison is by code point and lone surrogates do not occur; locale-aware comparison in the selectors is modelled as the same order.
- Numbers in JSON are kept as their printed text: two spellings of one number differ, and a numeral too small for a double counts as not zero.
- Objects with integer-like keys, which the host language enumerates first, with undefined values, or with keys found on the prototype chain are not part of the values compared, printed or hashed.
- Floating-point rounding in weights, token rates, tolerances and minimality ratios: reals are exact.
- The journal file is a sequence of characters: a cut inside a multi-byte character, the directory, flushing and file handles are not modelled. Reopening a log restarts its count; duplicate sequence numbers after that are allowed, as in the code.
- `size` of the journal, which counts unmarked entries, and `crrAt`, `distortionAt` and the aggregate report of the rate-distortion module.
- ContextSelection.SelectContext: utility scores, content keys and token estimates are given, and the log and rationale texts are omitted.
- ContextRouter.ResolveContext: relevance scores and prompt matching are given functions, the categories are collected in one fixed order, and the description texts of missing entries are omitted.
- ContextGraphs.ContextGraph.GetUpstream: the adjacency is read before the walk rather than during it, which no operation can observe.
- Node and edge metadata, `stats`, `getInvalidatedBy` and `checkTraversalSafety` of the graph modules.
- RateLimiters.AnyStretch: covers runs without `reset`, which by design starts a new window at once.
- ContextManagers.ContextManager.Register: metadata is reduced to its layer; promotion and demotion events, `listWorking` and the other read-only listings are omitted.
- ContractGate.GateExact: message patterns, check execution and texts shown to the user are parameters or omitted; a requirement without an evidence list is one with an empty list.
- `complete` and `switchTo` of the task lifecycle module (src/state/task-lifecycle.js:28-47), which set any phase, DONE included, without asking the gate.
- ContractGate.ApprovedClearExactly: which statements a message makes material is a parameter, and the state built afresh for a task without requirements is not modelled.
- `resumeTask`, live context snapshots and strategy records written on approval.
- StrategyHash.CanonicalizeValue: class instances, which pass through unchanged, and other non-JSON values are not modelled.
- `assessObservation`, which only chooses the two values to compare.
- Evidence freshness, loop prevention, risk policy, verification runners, prompt assembly, reports, skills and the database layer.
