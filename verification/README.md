# Verified model of the VelaClaw agent runtime

VelaClaw plans a user's task as a bounded graph of nodes, runs the nodes in a scheduled order, repairs the plan after
a failed step, and stores the plan so that a later turn can pick it up. Around that sit text filters for what users
see and several stores and folds. This project models those parts and proves what they promise.

* `Digraph`, `TaskGraph`, `KahnRun`, `KahnPrefix`, `BoundedDag`, `KahnOrder`, `LinearDag`, `BlankId` — the manifest, its validation,
  and the two schedulers. `Topo` is Kahn's algorithm without counters; the imperative `TopoNodeIds`, with its in-degree map,
  ready list and step cap, is proved to compute it. `KahnOrder` characterises the order by the graph and the node list alone.
* `RepairSplice`, `SpliceMeaning`, `SpliceSchedule`, `RepairTheorems`, `LinearRepair`, `ForkBack`, `RefusedRepair` — repairing a
  plan: the rewrite of the graph in place, when the host accepts it, and the order of the rewritten graph.
* `JsonTree`, `ManifestJson`, `ManifestReading`, `CandidateDag`, `CandidateMeaning`, `ShapeSchedule`, `PlanStore`, `RepairStore`,
  `Admission`, `CandidateRun` — planner graphs as JSON values: validation, alias rewriting, admission, saving and resolving again.
* `RepairSession`, `RepairOutcome`, `LostWork` — single repair turns, and whole sessions of them, in which each turn starts from
  what the turns before it saved.
* `DagRunner` — the step-bounded template walk with its stagnation guard.
* `Text`, `Utf8Boundary`, `Multimodal`, `ToolMarkup`, `MarkupMeaning`, `LineBreaks`, `InternodalSuffix`, `SuffixMeaning` — parsers
  and rewriters of text.
* `Identity`, `IdentityMeaning`, `Decimal`, `Migration`, `MigrationMeaning`, `KeyOrder`, `ProtocolRegistry`, `CapabilityIndex`,
  `CapabilityMeaning` — folds and stores.
* `StageCursors`, `StageMeaning` — the cursor over macro stages.

Where a method is proved against a function, the meaning of that function is stated apart from it: `KahnOrder`, `RepairOutcome`,
`ManifestReading` and the modules named after others with `Meaning` say what is computed in terms of the input alone.

## What the proofs found

Some statements one would expect of the code hold only under a condition. The condition is proved as an equivalence, and a
family of inputs shows that it can fail:

* A spliced plan is scheduled again in its own order exactly when no replanned node forks to a finished one
  (`RepairTheorems.RescheduleExact`; the family is `ForkBack.ForkBackReorders`), and with a given part of the finished
  prefix in front exactly when no replanned node forks into that part (`RepairTheorems.RescheduleKeepsExactly`).
* A spliced graph without forks is accepted exactly when it fits the stored cap and the finished prefix is a `next` chain
  from the entry (`LinearRepair.ForkFreeSpliceAccepted`). A repair that cuts away the last fork can therefore be refused
  although it fits (`RefusedRepair.RepairIsRefused`).
* A repaired plan that was accepted and saved is found again exactly when the stored entry survived the splice and its
  tags are known. Otherwise the saved graph fails validation and resolving it yields the fallback template
  (`RepairStore.RepairedPlanReloads`; the family is `RepairStore.LostEntryFallsBack`). Scheduling a forked graph does not
  ask for the entry, so the repair itself succeeds.
* Over a session of repairs, no turn falls back to the template exactly when no turn saves a splice without the entry
  (`RepairSession.NoReloadFallsBackExactly`; otherwise the next turn resumes the template behind a node that never ran,
  `LostWork.FinishedWorkIsLost`). Every saved splice is found again as it was run exactly when, besides, none forks back
  (`RepairSession.EveryRunIsFoundExactly`; otherwise the next turn can skip the failed step, `LostWork.ForkBackSkipsStep`).
  Every turn finds the work finished before the session exactly when no saved splice lacks the entry or forks into that
  work (`RepairSession.FinishedWorkIsKeptExactly`).
* With a file at the operator's path no turn finds what was saved: it starts from the file (`LostWork.OperatorForgets`), so
  an accepted repair is forgotten and a step of the file can be skipped (`LostWork.RepairOfFileIsLost`).
* A saved fallback plan comes back marked as a planner graph exactly when the template passes as a candidate
  (`PlanStore.SavedFallbackReloads`; `PlanStore.FallbackMarkLost` is a template for which it does).
* Where the linear walk of a fork-free graph succeeds, the other scheduler returns the same order exactly when no id from
  the third place on is blank (`LinearDag.SchedulersAgreeExactly`; the family is `BlankId.BlankJumpsAhead`). Validation
  accepts a blank id, and as a successor it is dropped. Theorems that need the two schedulers to agree ask for non-blank ids.
* Importing memory twice is a no-op exactly when the first import renamed nothing, which is when everything under one key
  agreed beforehand. The source comments call re-runs deterministic; with a renamed conflict a second run imports the
  conflicting entry once more (`Migration.RerunIsNoOpExactly`, `Migration.RerunRepeatsRenames`, and the family
  `Migration.RerunImportsAgain`).
* The de-duplication of source entries compares joined fields. An entry can make it drop a different one exactly when a
  NUL is in its key, content or category (`Migration.SignatureExact`, `Migration.DropsADifferentEntryExactly`; the family
  is `Migration.SignatureCollides`).
* Composing a model id and reading the provider back gives the provider exactly when it has no slash and does not start
  with `protocol:` (`ProtocolRegistry.ProviderRoundTripExact`; `ProtocolRegistry.ProviderIsCut` has one of each).
* A wrong version, a repeated id and missing capabilities are filed as graph errors exactly when the id or version quoted in
  the message contains `next` or `entry`, because the category is read off the message (`CandidateMeaning.ErrorCategory`).
* Parsing a composed multimodal message gives back text and references exactly when the references are printable and
  every marker in the text is blank, with an unclosed one tolerated only without references (`Multimodal.RoundTripExact`;
  the family is `Multimodal.MarkerInTextIsRead`).

## Model

| member | source | states |
|---|---|---|
| TaskGraph.DagNode.CollectSuccessors | src/agent/dag_runner.rs:74-87 | collects `next` then the forks, in order, without repeats and without blank ids |
| TaskGraph.DagNode.Successors | src/agent/dag_runner.rs:71-88 | the successors are distinct, and they are exactly the non-blank targets of `next` and `fork` |
| TaskGraph.SuccessorOrder | src/agent/dag_runner.rs:71-88 | `next` leads the successors, and the forks behind it keep the order in which they are mentioned first |
| TaskGraph.ByIdSize | src/agent/bounded_dag.rs:37-40 | the id index is as large as the node list exactly when the ids are unique |
| TaskGraph.LastIsIndexed | src/agent/bounded_dag.rs:37-37 | of several nodes with one id the index holds the last |
| TaskGraph.FirstIsFound | src/agent/bounded_dag_live.rs:1501-1503 | the search by id finds the first node with it |
| TaskGraph.ValidateGraph | src/agent/dag_runner.rs:188-218 | reports the first error in checking order, and none exactly for valid graphs |
| TaskGraph.GraphErrorExact | src/agent/dag_runner.rs:188-218 | no check fails exactly when version, nodes, ids, capabilities, entry and every `next` are in order |
| TaskGraph.GraphErrorReported | src/agent/dag_runner.rs:188-218 | which error is reported, by the position of the first fault: version, empty list, first bad node, entry, first dangling `next` |
| KahnRun.StepKeepsInv | src/agent/bounded_dag.rs:66-85 | emitting one ready node keeps the invariant: emitted and ready nodes are distinct, ready ones have all predecessors emitted |
| KahnRun.RunComplete | src/agent/bounded_dag.rs:63-86 | when nothing is ready, the emitted nodes are exactly those no cycle leads to |
| KahnRun.RunOutcome | src/agent/bounded_dag.rs:63-95 | from any invariant state the run stays under the cap exactly when the cycle-free part fits, and emits that part with predecessors first |
| KahnPrefix.RunsAlike | src/agent/bounded_dag.rs:63-95 | two runs over graphs that agree inside a set around a prefix emit that prefix alike, whatever happens outside |
| KahnPrefix.SamePrefix | src/agent/bounded_dag.rs:36-96 | a graph that mirrors another inside a set around a prefix is scheduled with the same prefix |
| BoundedDag.TopoNodeIds | src/agent/bounded_dag.rs:36-96 | the counting loop returns what the counter-free run returns, with the same error on every failure; which order that is, `KahnOrder.TopoIsQueueOrder` says |
| BoundedDag.TopoCharacterised | src/agent/bounded_dag.rs:36-96 | success exactly when ids are unique, no successor is missing, the graph is acyclic and the node count fits the cap; the order then lists every node with predecessors first; each error has its exact condition |
| BoundedDag.MissingSuccessorReported | src/agent/bounded_dag.rs:43-53 | the missing successor that is named is the first, node by node and successor by successor |
| KahnOrder.TopoIsQueueOrder | src/agent/bounded_dag.rs:56-86 | the order returned is the one topological order in which nodes come out as they become free, nodes freed together in successor order, and roots in node order behind the entry |
| KahnOrder.RootsKeepNodeOrder | src/agent/bounded_dag.rs:56-62 | two nodes other than the entry that nothing points at come out in the order of the node list |
| KahnOrder.RuleDetermines | src/agent/bounded_dag.rs:56-86 | at most one order of the nodes follows that rule |
| BoundedDag.EntryFirst | src/agent/bounded_dag.rs:56-62 | the order starts with the entry whenever nothing points at it |
| BoundedDag.CountIndegrees | src/agent/bounded_dag.rs:41-55 | the counters hold the in-degrees, or the first missing successor is reported |
| BoundedDag.ZeroIndegree | src/agent/bounded_dag.rs:56-62 | the initial ready list has exactly the nodes without predecessors, in node order |
| BoundedDag.ReleaseSuccessors | src/agent/bounded_dag.rs:79-85 | after releasing a node each counter is the number of predecessors not emitted; the saturating subtraction never saturates, and exactly the freed nodes become ready |
| BoundedDag.EmitAll | src/agent/bounded_dag.rs:63-95 | the main loop follows the counter-free run, step cap included |
| BoundedDag.EmissionFacts | src/agent/bounded_dag.rs:66-85 | emitting a ready node lowers the open-predecessor count of each successor by exactly one and of no other node |
| LinearDag.LinearNodeIds | src/agent/bounded_dag.rs:99-144 | success exactly when one `next` chain from the entry covers all nodes within the cap; each error says where the walk stopped |
| LinearDag.CoverUnique | src/agent/bounded_dag.rs:99-144 | at most one order covers the graph |
| LinearDag.ScheduleNodeIds | src/agent/bounded_dag.rs:27-33 | Kahn when some node forks, the chain otherwise, with the error of the one that is chosen |
| LinearDag.ScheduleMeaning | src/agent/bounded_dag.rs:27-33 | an order is the schedule exactly when it is Kahn's where some node forks, or the chain that covers the graph where none does |
| LinearDag.CoverIsTopological | src/agent/bounded_dag.rs:99-144 | on fork-free graphs the covering chain is a topological order |
| LinearDag.SchedulersAgreeExactly | src/agent/bounded_dag.rs:27-144 | on fork-free graphs, wherever the linear scheduler succeeds, so does the other, with the identical order exactly when no id from the third place on is blank |
| BlankId.BlankJumpsAhead | src/agent/bounded_dag.rs:27-144 | a family of valid graphs that the two schedulers order differently |
| RepairSplice.SpliceRemainingPlan | src/agent/bounded_dag_live.rs:1481-1551 | the in-place rewrite yields the specified graph and order for any two plans; for orders that list their nodes that is every node relinked at once |
| RepairSplice.CollectRest | src/agent/bounded_dag_live.rs:1496-1517 | the grafted order and nodes, or the stored remainder when nothing was grafted |
| RepairSplice.ChainRest | src/agent/bounded_dag_live.rs:1525-1530 | the loop links the first node of each id behind the prefix to the id after it |
| RepairSplice.StepsAreSplice | src/agent/bounded_dag_live.rs:1481-1551 | for orders that list their nodes, linking the seam and then the tail one id at a time equals relinking all nodes at once |
| RepairSplice.RawListed | src/agent/bounded_dag_live.rs:1486-1517 | the collected nodes have unique ids, those of the kept prefix and of the new remainder |
| SpliceMeaning.SplicedHeader | src/agent/bounded_dag_live.rs:1531-1550 | the splice keeps the stored header and cap, takes the first id as entry only when nothing is finished, and resumes at the failed position |
| SpliceMeaning.SplicedOrderMeaning | src/agent/bounded_dag_live.rs:1486-1535 | the finished ids stay in front; behind them stand exactly the new ids of the replan, in its order, or the stored remainder when there are none |
| SpliceMeaning.SplicedNodeList | src/agent/bounded_dag_live.rs:1489-1517 | the node list holds the finished nodes in their old relative order, then the others in running order |
| SpliceMeaning.SplicedNodeMeaning | src/agent/bounded_dag_live.rs:1489-1530 | each node is that of the plan its id comes from, unchanged but for `next`, which links the last finished node and all behind it into the order |
| SpliceSchedule.EdgesIntoPrefix | src/agent/bounded_dag_live.rs:1481-1551 | into a finished node that no node behind the prefix forks to, the edges are those of the stored graph, and they still point forward |
| SpliceSchedule.ChainEdges | src/agent/bounded_dag_live.rs:1518-1530 | the seam and the tail form one chain of edges |
| SpliceSchedule.SplicedOrderIsForward | src/agent/bounded_dag_live.rs:1481-1551 | for any two topological orders: if no replanned node forks to a finished one, the spliced order has every node once and respects every edge |
| RepairTheorems.DoneComesFirst | src/agent/bounded_dag_live.rs:1481-1551 | scheduling the spliced graph emits first any beginning of the prefix that no node behind the prefix forks into |
| RepairTheorems.PrefixComesFirst | src/agent/bounded_dag_live.rs:1481-1551 | without forks back, scheduling the spliced graph emits the finished prefix first, in its old order |
| RepairTheorems.SplicedCyclicExactly | src/agent/bounded_dag_live.rs:1481-1551 | the spliced graph has a cycle exactly when a node behind the prefix forks to a finished one that leads to it again |
| RepairTheorems.SplicedTopoAccepted | src/agent/bounded_dag_live.rs:1481-1551 | for any two topological orders, Kahn schedules the spliced graph exactly when no successor is missing, it fits the stored cap and no fork back closes a loop |
| RepairTheorems.TopoOfSplice | src/agent/bounded_dag_live.rs:1481-1551 | when the stored order is the scheduler's own and nothing forks back, the spliced graph is then scheduled in the spliced order |
| RepairTheorems.ForkedSpliceAccepted | src/agent/bounded_dag_live.rs:1481-1551 | a splice that still forks is accepted by the host's scheduler exactly when no successor is missing, it fits the stored cap and no fork back closes a loop; its order is the spliced one exactly when nothing forks back |
| RepairTheorems.RescheduleExact | src/agent/bounded_dag_live.rs:1481-1551 | an accepted splice is rescheduled in the spliced order exactly when no replanned node forks to a finished one |
| RepairTheorems.RescheduleKeepsExactly | src/agent/bounded_dag_live.rs:1481-1551 | an accepted splice is rescheduled with a given part of the prefix first exactly when no replanned node forks into that part |
| ForkBack.ForkBackReorders | src/agent/bounded_dag_live.rs:1481-1551 | a family where such a fork is accepted and the rescheduled order differs |
| LinearRepair.ForkFreeSpliceAccepted | src/agent/bounded_dag_live.rs:1486-1551 | a splice without forks, whatever its sources, is accepted exactly when it fits the stored cap and its finished prefix is a `next` chain from the entry, and is then walked in the spliced order |
| LinearRepair.LinearRepairExact | src/agent/bounded_dag_live.rs:1486-1551 | a repair between fork-free plans is accepted exactly when it fits the stored cap, and is then walked in the spliced order |
| RefusedRepair.RepairIsRefused | src/agent/bounded_dag_live.rs:1486-1551 | a family of repairs between accepted plans whose result does not fork, fits the cap and has no schedule |
| RepairSession.Session.TryCachedOrFixed | src/agent/bounded_dag_live.rs:1336-1356 | a turn loads the operator's file if a path is set, else what the saved value resolves to; both can fail |
| RepairSession.Session.PrepareRepair | src/agent/bounded_dag_live.rs:1584-1625 | the turn has the outcome and leaves the saved value of the specified one, which the `RepairOutcome` rows describe field by field |
| RepairOutcome.LoadsExactly | src/agent/bounded_dag_live.rs:1336-1356 | a plan is found exactly in the operator's file if it decodes to a valid graph with a schedule, or else in what the saved value resolves to; an inactive host and an empty memory find none |
| RepairOutcome.LoadedIsListed | src/agent/bounded_dag_live.rs:1336-1356 | the order of whatever is loaded lists each node of its graph once |
| RepairOutcome.NothingLoaded | src/agent/bounded_dag_live.rs:1584-1641 | without a plan the turn starts over with an empty memory, and a plan that cannot be loaded fails it |
| RepairOutcome.FailsExactly | src/agent/bounded_dag_live.rs:1592-1607 | once a plan is found, the turn fails exactly when the planner is asked and gives no reply |
| RepairOutcome.RunsExactly | src/agent/bounded_dag_live.rs:1592-1625 | otherwise it runs the splice when the planner gave its own plan and the host can schedule the result, else the loaded graph in its order; both from the failed position and with the task of the turn |
| RepairOutcome.SavesExactly | src/agent/bounded_dag_live.rs:1621-1624 | it saves the graph of the splice that runs, if the write succeeds, and otherwise changes nothing |
| RepairSession.SavedSplice | src/agent/bounded_dag_live.rs:1585-1624 | what an accepted turn saved is found by the next one exactly when the entry was kept, with the spliced graph, and in its order exactly when no replanned node forks back |
| RepairSession.TurnReloads | src/agent/bounded_dag_live.rs:1584-1625 | from a planner's graph, the next turn finds a planner's graph exactly when this one does not save a splice without the entry |
| RepairSession.TurnKeeps | src/agent/bounded_dag_live.rs:1584-1625 | what a turn runs begins with the finished work under the same cap and resumes behind it; the next turn finds that work exactly when no splice without the entry or with a fork into it is saved |
| RepairSession.RunIsFound | src/agent/bounded_dag_live.rs:1584-1625 | a saved splice is found by the next turn as it was run exactly when it has the entry and nothing forks back |
| RepairSession.NoReloadFallsBackExactly | src/agent/bounded_dag_live.rs:1584-1625 | over any sequence of turns, no turn finds the template exactly when no turn saves a splice without the entry |
| RepairSession.EveryRunIsFoundExactly | src/agent/bounded_dag_live.rs:1584-1625 | over any sequence of turns, every saved splice is found as it was run exactly when none lacks the entry and none forks back |
| RepairSession.FinishedWorkIsKeptExactly | src/agent/bounded_dag_live.rs:1584-1625 | over any sequence of turns, every turn finds a planner's plan that begins with the finished work exactly when no saved splice lacks the entry or forks into that work |
| RepairSession.SessionKeepsFinishedWork | src/agent/bounded_dag_live.rs:1584-1625 | in such a session every turn also loads an accepted plan of the original cap, and runs one that begins with the finished work and resumes behind it |
| RepairSession.NoForkBackKeepsFinishedWork | src/agent/bounded_dag_live.rs:1584-1625 | in particular when no saved splice lacks the entry or forks back at all |
| LostWork.FirstPlanIsFound | src/agent/bounded_dag_live.rs:1413-1437 | a planner's plan, admitted and saved, is loaded again as it is, so sessions do start as the theorems ask |
| LostWork.FinishedWorkIsLost | src/agent/bounded_dag_live.rs:1584-1625 | a family of two turns: the first runs an accepted repair, the second resumes the template one node in |
| LostWork.ForkBackSkipsStep | src/agent/bounded_dag_live.rs:1584-1625 | a family of two turns without a lost entry: after a saved fork back the next turn skips the failed step and runs a finished one again |
| LostWork.OperatorForgets | src/agent/bounded_dag_live.rs:1345-1354 | with a file at the operator's path, what was saved does not change what a turn loads or runs |
| LostWork.RepairOfFileIsLost | src/agent/bounded_dag_live.rs:1345-1354 | a family where an accepted repair of the file is run and the next turn resumes the file, skipping a step that never ran |
| Admission.CanonicalizeNodeCaps | src/agent/capability_contract.rs:175-189 | the loop leaves exactly the canonical tags, each once, in the order they are asked for first, or rejects exactly when one is unknown |
| Admission.AdmittedIsAccepted | src/agent/capability_contract.rs:76-98 | a planner's plan stays scheduled, valid and canonical whatever admission fills into its nodes |
| ManifestJson.ManifestDecodes | src/agent/bounded_dag_live.rs:1795-1833 | every manifest written as a JSON value is read back unchanged |
| ManifestJson.NodeDecodes | src/agent/dag_runner.rs:44-68 | the same for one node, with missing and null members as the manifest format has them |
| ManifestReading.ManifestRead | src/agent/dag_runner.rs:26-42 | a JSON value is read as a given manifest exactly when its members say so: required texts, lists, numbers in range, a missing step cap read as 8, `null` or a missing member read as none |
| ManifestReading.NodeRead | src/agent/dag_runner.rs:44-110 | the same for one node with its selector, context, retrieve intents and lists |
| CandidateDag.CanonicalizeExact | src/agent/candidate_dag.rs:106-119 | aliases turn into canonical tags, and exactly the canonical tags stay as they are |
| CandidateMeaning.AliasTable | src/agent/candidate_dag.rs:106-117 | which canonical tag each name stands for, up to white space around it, and no other names are known |
| CandidateDag.RewriteCapabilityAliases | src/agent/candidate_dag.rs:234-266 | the in-place rewriting loop computes the specified value, or rejects |
| CandidateDag.WithCapsExact | src/agent/candidate_dag.rs:237-262 | writing the capabilities of a node changes them and no other member |
| CandidateDag.RewriteTwice | src/agent/candidate_dag.rs:234-266 | rewriting is idempotent on every JSON value |
| CandidateDag.RejectForbiddenSource | src/agent/candidate_dag.rs:215-232 | rejects exactly when some node has a source of another kind than documentation |
| CandidateDag.ValidateCandidate | src/agent/candidate_dag.rs:160-213 | the verdict and its category, in the order of the checks |
| CandidateMeaning.VerdictCategories | src/agent/candidate_dag.rs:160-213 | the exact condition of each category on the JSON members, in the order of the checks |
| CandidateMeaning.AcceptedSources | src/agent/candidate_dag.rs:215-232 | every source that a node of an accepted graph states is of the kind documentation |
| CandidateMeaning.InvalidIsFiled | src/agent/candidate_dag.rs:195-211 | a graph that decodes but is not valid is filed by the message of its first fault |
| CandidateMeaning.ErrorCategory | src/agent/candidate_dag.rs:195-211 | a missing entry and a dangling `next` count as graph errors, an empty list never; a wrong version, a repeated id and missing capabilities count as one exactly when the quoted text speaks of `next` or `entry` |
| CandidateDag.AcceptedIsCanonical | src/agent/candidate_dag.rs:160-213 | an accepted graph is valid and names canonical capabilities only |
| CandidateDag.WrittenIsJudged | src/agent/bounded_dag_live.rs:1795-1833 | any manifest written as JSON is judged by the manifest checks alone, with aliases turned canonical, and rejected when a tag is unknown |
| CandidateDag.WrittenIsAccepted | src/agent/bounded_dag_live.rs:1795-1833 | a valid graph with canonical capabilities, written as JSON, is accepted as it is |
| ShapeSchedule.SameSchedule | src/agent/bounded_dag.rs:27-144 | only ids, links, the entry and the cap influence the schedule |
| PlanStore.ResolvePlannedManifest | src/agent/bounded_dag_live.rs:1717-1745 | the candidate if accepted and schedulable, else the template, else an error |
| PlanStore.ResolvedMeaning | src/agent/bounded_dag_live.rs:1717-1745 | the plan in all its fields: the accepted graph with its schedule, else the template if it decodes, is valid and has a schedule, else nothing |
| PlanStore.SavedPlanReloads | src/agent/bounded_dag_live.rs:1717-1745 | saving a plan resolved from a planner and resolving it again gives the same plan without the fallback |
| PlanStore.SavedGraphReloads | src/agent/bounded_dag_live.rs:1795-1844 | any saved graph comes back as a planner graph exactly when it is valid, its tags are known and it can be scheduled; it is then the same graph in the same order with canonical tags |
| PlanStore.SavedFallbackReloads | src/agent/bounded_dag_live.rs:1795-1844 | a saved fallback plan keeps its order and its shape, and changes its mark exactly when the template passes as a candidate |
| PlanStore.FallbackMarkLost | src/agent/bounded_dag_live.rs:1795-1844 | a family of templates that come back marked as planner graphs |
| RepairStore.SpliceIsValid | src/agent/bounded_dag_live.rs:1481-1551 | an accepted splice is a valid manifest exactly when the entry was kept |
| RepairStore.RepairedPlanReloads | src/agent/bounded_dag_live.rs:1610-1625 | a saved repaired plan, also one of a template with aliases or unknown tags, comes back as its own graph exactly when the entry was kept and its tags are known, and in its own order exactly when no replanned node forks back |
| RepairStore.LostEntryFallsBack | src/agent/bounded_dag_live.rs:1610-1625 | a family of accepted repairs that resolve to the fallback after saving |
| CandidateRun.RunCandidateOrFallback | src/agent/candidate_dag.rs:273-350 | success exactly when the candidate completes or the policy asks for the fallback and that completes; the flag says which |
| DagRunner.RunTemplateDag | src/agent/dag_runner.rs:238-348 | success exactly when a complete walk exists; the visits are then that walk and the steps their number; each visit records task type, capabilities and message count of the node it names; every abort names its cause at the id the walk had reached, with all steps before it passed |
| DagRunner.TailRunMaximal | src/agent/dag_runner.rs:279-286 | the tail run is the maximal run of equal fingerprints at the end |
| DagRunner.ObserveTracks | src/agent/dag_runner.rs:279-286 | the streak counter always equals the tail run |
| DagRunner.StagnatesStep | src/agent/dag_runner.rs:279-296 | a step completes the first window of equal fingerprints exactly when the tail run reaches the limit |
| DagRunner.CompleteWalkIsSimple | src/agent/dag_runner.rs:252-333 | a walk that ends at a terminal node repeats no node |
| DagRunner.NoCompleteWalk | src/agent/dag_runner.rs:252-333 | once a trail fails a check, no complete walk exists at all |
| DagRunner.SuccessVisitsEachNodeOnce | src/agent/dag_runner.rs:238-348 | a successful run visits distinct nodes, at most as many as there are |
| DagRunner.LinearOrderIsWalked | src/agent/dag_runner.rs:238-348 | wherever the linear scheduler succeeds and nothing external interferes, the walk is exactly its order |
| Multimodal.ParseImageMarkers | src/multimodal.rs:53-86 | the cursor loop computes the specified scan |
| Multimodal.ScanMarker | src/multimodal.rs:53-86 | a first marker is cut out and its trimmed body referenced, or kept as text when blank; the text before it and behind it is kept |
| Multimodal.ScanEnds | src/multimodal.rs:53-86 | without a marker, or with one that is not closed, the text is kept whole |
| Multimodal.ComposeMultimodalMessage | src/multimodal.rs:174-193 | the string buffer ends as text, separator and markers |
| Multimodal.ComposeReads | src/multimodal.rs:174-193 | the message in letters: the trimmed text and a blank line unless it is blank, then one marker per line |
| Multimodal.ScanMarkers | src/multimodal.rs:53-86 | scanning printed markers yields exactly the references, in order |
| Multimodal.NoReferenceLost | src/multimodal.rs:53-86 | whatever text precedes them, printed references are never lost in number |
| Multimodal.RoundTripExact | src/multimodal.rs:174-193 | parsing a composed message returns trimmed text and references exactly for printable references and transparent texts, in particular for every text without a marker |
| Multimodal.ScannedArePrintable | src/multimodal.rs:53-86 | every reference the parser finds is printable: not blank, trimmed, without a closing bracket |
| Multimodal.MarkerInTextIsRead | src/multimodal.rs:174-193 | a family of texts that are lost: a text that is a marker is read as one more reference |
| InternodalSuffix.InternodalSuffixStart | src/agent/bounded_dag_delivery.rs:108-128 | the line loop computes the specified start |
| SuffixMeaning.StartExactly | src/agent/bounded_dag_delivery.rs:108-128 | the footer starts at the first line that opens one, or at the rule directly in front of that line, and nowhere exactly when no line opens one |
| InternodalSuffix.EnvelopeMonotone | src/agent/bounded_dag_delivery.rs:20-46 | what looks like an envelope still does with more text behind it |
| InternodalSuffix.KeptEnvelope | src/agent/bounded_dag_delivery.rs:20-46 | an envelope seen from a line of the kept text is one in the full text |
| InternodalSuffix.NothingLeft | src/agent/bounded_dag_delivery.rs:108-128 | scanning the kept text finds no suffix from any line on |
| InternodalSuffix.StripIdempotent | src/agent/bounded_dag_delivery.rs:132-137 | once something was dropped, no suffix start remains; stripping twice equals stripping once, for every text; what is kept, `SuffixMeaning.StripKeeps` says |
| SuffixMeaning.StripKeeps | src/agent/bounded_dag_delivery.rs:132-137 | where a footer starts behind something, the text before it is kept without the white space in front of the footer, and nothing else is cut |
| SuffixMeaning.StripLeaves | src/agent/bounded_dag_delivery.rs:132-137 | without a footer, and where it is the whole text, the text stays as it is |
| SuffixMeaning.KeyInLine | src/agent/bounded_dag_delivery.rs:48-52 | the key of a line is a part of it in lower case, with nothing but white space and marks around |
| SuffixMeaning.KeyOfText | src/agent/bounded_dag_delivery.rs:48-52 | a trimmed text that shows no mark at its ends is the key of the line it stands on, with or without heading marks |
| SuffixMeaning.HandoffMeans | src/agent/bounded_dag_delivery.rs:54-56 | a handoff heading is a line whose key is that word, maybe with colons behind it |
| SuffixMeaning.HandoffIsSeen | src/agent/bounded_dag_delivery.rs:48-56 | the word in any case, as a heading of any level or none, with or without a colon, is one |
| SuffixMeaning.EnvelopeMeans | src/agent/bounded_dag_delivery.rs:20-46 | an envelope opens with a handoff heading, or names verdict, pointers and gaps, or quotes pointers beside verdict or handoff |
| SuffixMeaning.FirstLineMeans | src/agent/bounded_dag_delivery.rs:26-26 | the first line ends before its line feed, or before a carriage return in front of that |
| ToolMarkup.KeepSegments | src/util.rs:177-209 | the tag loop ends and keeps exactly the kept pieces of the message |
| ToolMarkup.StripLeadingCloseTags | src/util.rs:130-142 | the loop drops leading white space and closing tags |
| ToolMarkup.PiecesTile | src/util.rs:177-209 | kept and dropped pieces, put together, are the message: nothing is invented, moved or lost |
| ToolMarkup.PiecesWellCut | src/util.rs:177-209 | dropped pieces are elements; kept ones hold no open tag, except a last one whose tag nothing closes and no JSON value follows |
| MarkupMeaning.TagPairs | src/util.rs:92-105 | the open tags, each closed by its own name |
| MarkupMeaning.BehindMeans | src/util.rs:177-209 | an element ends behind the first closing tag of its name; without one, behind the first JSON value and the closing tags that follow; without either it does not end |
| MarkupMeaning.FirstJsonMeans | src/util.rs:107-128 | the value taken is the first that reads at any bracket, and the position counts in the whole text |
| MarkupMeaning.DropCloseTagsMeans | src/util.rs:130-142 | what is dropped is white space and closing tags only; what is left starts with neither, or is empty behind a tag that does not end |
| ToolMarkup.UntaggedKept | src/util.rs:177-209 | a message without open tags is kept whole |
| ToolMarkup.StripToolCallMarkup | src/util.rs:85-218 | the whole pass; its result is trimmed and has no three line breaks in a row |
| LineBreaks.Collapse | src/util.rs:211-215 | the rewrite loop ends with what the one-pass rewrite yields |
| LineBreaks.CapReplaced | src/util.rs:211-215 | a replacement pass does not change the one-pass result |
| LineBreaks.CapFixpoint | src/util.rs:211-215 | a text is left alone exactly when it has no three breaks in a row, and no result has them |
| LineBreaks.CapMeaning | src/util.rs:211-215 | every gap between other characters is capped at two breaks and nothing else changes |
| LineBreaks.GapsDetermine | src/util.rs:211-215 | gaps and other characters determine the text |
| Utf8Boundary.FloorCharBoundary | src/util.rs:9-15 | the greatest end of a whole character at or before the offset, at most three bytes back |
| Utf8Boundary.BoundariesExact | src/util.rs:9-15 | byte boundaries are exactly the ends of leading characters |
| Utf8Boundary.EncodedReads | src/util.rs:9-15 | the bytes of a character spell its code point in the shortest form, as section 3 of RFC 3629 has it |
| Identity.DedupeNonEmpty | src/identity.rs:640-655 | the loop computes the specified de-duplication |
| Identity.DedupeIsFirstMentions | src/identity.rs:640-655 | the result lists the first mention of each text, trimmed, in order |
| Identity.FirstMentionsSorted | src/identity.rs:640-655 | first mentions are exactly the non-blank values no earlier value repeats, in increasing order |
| Identity.DedupeClean | src/identity.rs:640-655 | results are trimmed, not blank, pairwise different ignoring ASCII case, and no text is lost |
| IdentityMeaning.SameTextExactly | src/identity.rs:640-655 | two texts count as the same exactly when they differ in the case of Latin letters only |
| Identity.DedupeAbsorbs | src/identity.rs:612-655 | de-duplicating part of the input first changes nothing |
| Identity.ListFromValue | src/identity.rs:612-638 | de-duplication at every nesting level equals one de-duplication of the flattened leaves |
| IdentityMeaning.ObjectReads | src/identity.rs:620-632 | an object reads as its name, else its title, else its joined parts |
| IdentityMeaning.ListReads | src/identity.rs:616-619 | a list reads as what its entries read as, in order |
| Identity.SummarizeObjectIntoParts | src/identity.rs:582-610 | the recursive loop appends the specified parts |
| IdentityMeaning.FieldParts | src/identity.rs:583-609 | what one more field adds: nothing under `@`, the fields of an object under its caption, else one captioned line if it says something |
| Identity.PartsAreLeafPaths | src/identity.rs:582-610 | the parts are the leaves in order, each captioned by its whole key path |
| Identity.CaptionExtended | src/identity.rs:583-593 | extending a path extends its caption, blank leading keys leaving no trace |
| Migration.NextAvailableKey | src/migration.rs:318-327 | the counting loop finds the first free candidate |
| Migration.FreeKeyExact | src/migration.rs:318-327 | failure exactly when all candidates are taken, else the lowest free one |
| Migration.SmallStoreHasFreeKey | src/migration.rs:318-327 | a store with fewer rows than attempts always has a free candidate |
| Migration.MigrateEntries | src/migration.rs:81-102 | the import loop over the store leaves the specified rows and counts |
| MigrationMeaning.StepReads | src/migration.rs:81-102 | one entry in full: its key or a numbered one, stored if that is free, skipped if the content there agrees up to white space, else stored under the lowest free rename, and stopped when there is none |
| MigrationMeaning.FreeKeyReads | src/migration.rs:318-327 | the renames are numbered from 1 to 10000, and the lowest free one is taken |
| MigrationMeaning.RunReads | src/migration.rs:81-102 | the entries are taken in order, each with its position |
| Migration.StepExact | src/migration.rs:81-102 | one entry adds at most one row under a free key and is counted once |
| Migration.NeverOverwrites | src/migration.rs:81-102 | no row present at the start or at any point of a run is ever changed |
| Migration.RunConserves | src/migration.rs:81-102 | imported plus skipped is the number of entries, and the store grows by exactly the imported |
| Migration.EveryEntryLands | src/migration.rs:81-102 | each entry's text ends under its key or its row under a rename of it |
| Migration.OnlyEntriesAdded | src/migration.rs:81-102 | each new row is some entry's, under its key or a rename of it |
| Migration.SmallRunCompletes | src/migration.rs:81-102 | a run that cannot exhaust the candidates completes |
| Migration.RerunRepeatsRenames | src/migration.rs:81-102 | a completed second run imports once more exactly what was renamed and skips the rest |
| Migration.NoRenamesExactly | src/migration.rs:81-102 | a run completes without a rename exactly when each entry agrees, up to white space at the ends, with the row and the entries under its key |
| Migration.RerunIsNoOpExactly | src/migration.rs:81-102 | a second run is a completed no-op exactly when the first renamed nothing, that is, when all entries agreed beforehand |
| Migration.RerunImportsAgain | src/migration.rs:81-102 | a family where each run imports the same entry once more under the next free key |
| Migration.RetainFirst | src/migration.rs:135-140 | the filter with its set of seen signatures keeps the first of each |
| Migration.SignatureExact | src/migration.rs:135-140 | an entry shares its signature with a different one exactly when a NUL is in its key, content or category |
| Migration.SignatureOfPair | src/migration.rs:135-140 | between two entries without NUL in key and content, equal signatures are exactly duplicates, whatever the categories |
| Migration.DropsADifferentEntryExactly | src/migration.rs:135-140 | behind an entry a different one can be dropped exactly then |
| Migration.SignatureCollides | src/migration.rs:135-140 | with NUL, different entries can share one and the later is dropped |
| Migration.RetainedPerSignature | src/migration.rs:135-140 | only source entries are retained, exactly one for each signature |
| Migration.RetainedCovers | src/migration.rs:135-140 | each source entry has a duplicate among the retained ones exactly when entries with one signature are duplicates, as they are without NUL |
| Migration.RetainedDistinct | src/migration.rs:135-140 | no two retained entries are duplicates, whatever the source |
| KeyOrder.SortIsStable | src/capability_index.rs:533-536 | the sort orders the rows by key, and the rows of each key are the same in the same order |
| KeyOrder.SortDedupExact | src/capability_index.rs:533-539 | sorting and removing equal neighbours leaves the first row of every key, strictly increasing |
| KeyOrder.IncreasingUnique | src/capability_index.rs:533-539 | those two facts determine the list |
| KeyOrder.StringLessExact | src/capability_index.rs:533-536 | texts are compared at the first difference, by code point, and a proper beginning comes first |
| KeyOrder.KeyLessExact | src/capability_index.rs:533-536 | rows are compared by provider, then by model, a row without a model first |
| CapabilityIndex.BuildIndex | src/capability_index.rs:505-552 | every known tag, and no other, has its sorted list of pushed rows; which rows these are, `CapabilityMeaning.RowsExactly` says |
| CapabilityMeaning.RowsExactly | src/capability_index.rs:192-552 | a tag has a row for a key exactly when some manifest declares it by its members: wire features without model facts, a model's fact, or a long window |
| CapabilityMeaning.FactDecides | src/capability_index.rs:319-417 | a stated true lists the model and a stated false keeps it out, whatever the provider advertises; a missing fact leaves it to the wire features; input kinds count before the attachment flag |
| CapabilityMeaning.TrueFactIsListed | src/capability_index.rs:319-417 | a model that states it can reason has its row, whatever its provider and the other manifests say |
| CapabilityMeaning.WireMeans | src/capability_index.rs:192-232 | which features a manifest advertises, as a list or in two lists and two flags |
| CapabilityMeaning.VisionMeans | src/capability_index.rs:234-251 | what shows vision: the feature, a flag, or one of two names in a list |
| CapabilityMeaning.FirstManifestWins | src/capability_index.rs:505-552 | of several manifests that declare a key the first gives the row |
| CapabilityMeaning.ProviderRow | src/capability_index.rs:288-305 | the row a provider gives, with its reason |
| CapabilityMeaning.ModelRow | src/capability_index.rs:435-464 | the row a model gives; its reason tells a stated fact from a missing one, and a fact from one against the provider's silence |
| CapabilityMeaning.LongRow | src/capability_index.rs:469-502 | the row for a long window, which shows the window |
| CapabilityIndex.MatchProviderTags | src/capability_index.rs:267-308 | the provider-level hits in table order |
| CapabilityIndex.MatchModelCapabilityTags | src/capability_index.rs:420-467 | the model-level hits in model and table order |
| CapabilityIndex.MatchLongContextModels | src/capability_index.rs:469-502 | the models whose window reaches the minimum |
| CapabilityIndex.ModelHitExact | src/capability_index.rs:395-417 | the hits of one model are those of the direct search, whose three-valued rule `CapabilityMeaning.FactDecides` states on the JSON value |
| CapabilityIndex.IndexExact | src/capability_index.rs:505-552 | each list is strictly increasing and has a row for a key exactly when a direct search finds a manifest offering it |
| CapabilityIndex.SpeedIsEmpty | src/capability_index.rs:77-83 | the list for speed is always empty |
| CapabilityIndex.ProviderRowsAreUnannotated | src/capability_index.rs:519-528 | a provider-level row comes from a manifest of that provider without model facts |
| CapabilityIndex.ReachableExact | src/capability_index.rs:144-152 | the reachable view keeps exactly the reachable rows, strictly increasing |
| ProtocolRegistry.ProviderRoundTripExact | src/protocol_registry.rs:223-379 | the provider is read back exactly when it has no slash and no scheme; a blank one exactly when nothing or a slash leads the wire id |
| ProtocolRegistry.ProviderIsCut | src/protocol_registry.rs:375-379 | a provider with a slash or a scheme is read back short, whatever it was composed with |
| ProtocolRegistry.ComposeIdempotent | src/protocol_registry.rs:223-237 | composing again adds no second prefix |
| ProtocolRegistry.ComposeKeepsWire | src/protocol_registry.rs:223-237 | the wire id stands at the end of the composed id, the provider leads it, and nothing else is added |
| ProtocolRegistry.Registry.UpsertModel | src/protocol_registry.rs:135-143 | the search loop inserts a new id or fills a missing window, and changes nothing else |
| ProtocolRegistry.MergedStep | src/protocol_registry.rs:135-143 | one more upsert is the closed form of one more entry |
| ProtocolRegistry.FirstIndicesExact | src/protocol_registry.rs:135-143 | the models stand in the order in which their ids are mentioned first |
| ProtocolRegistry.FirstWindowExact | src/protocol_registry.rs:135-143 | the window of an id is the first known one among its entries |
| ProtocolRegistry.MergedExact | src/protocol_registry.rs:135-143 | each scanned id has exactly one model: provider and file of its first entry, and the first known window |
| ProtocolRegistry.ScanModels | src/protocol_registry.rs:461-600 | the fold over all entries and the final sort |
| ProtocolRegistry.SnapshotExact | src/protocol_registry.rs:593-600 | the snapshot is strictly increasing by id and holds the merged models |
| StageCursors.StageCursor.NoteToolOutput | src/agent/artifact_contract.rs:402-410 | output is appended to the evidence, on a line of its own, while stages are open; nothing else changes |
| StageCursors.StageCursor.NoteAssistantClaim | src/agent/artifact_contract.rs:414-424 | the message has the specified effect and answer, which `StageMeaning.ClaimsPassExactly` describes in full |
| StageMeaning.ClaimsPassExactly | src/agent/artifact_contract.rs:414-424 | an open cursor passes the longest beginning of the claimed names that names the next stages in order with holding checks; it is answered exactly when a claim and a stage are left, with what is wrong with that claim |
| StageMeaning.ClaimedNames | src/agent/artifact_contract.rs:462-474 | a text claims the names of its claiming lines, in their order, and every claiming line counts |
| StageMeaning.ObservationMeans | src/agent/artifact_contract.rs:442-504 | a claim is refused exactly when it names another stage or the check fails, and the answer says which |
| StageMeaning.ClosedStays | src/agent/artifact_contract.rs:402-417 | a cursor without stages, and one that is through, ignores claims and outputs |
| StageMeaning.NamedMeans | src/agent/artifact_contract.rs:384-396 | the stages are the configured ones with a name, in their order |
| StageCursors.StageCursor.ApplyClaim | src/agent/artifact_contract.rs:442-459 | one claim, its new state and its observation |
| StageCursors.StageCursor.PointerSuffix | src/agent/artifact_contract.rs:428-440 | the pointer block, once finished |
| StageMeaning.PointerMeans | src/agent/artifact_contract.rs:428-440 | the block has one line for each stage, with its name and its artifact |
| StageCursors.ClaimedExact | src/agent/artifact_contract.rs:442-459 | a claim advances by one stage exactly when it names the current stage and the check holds |
| StageCursors.ClaimedAllExact | src/agent/artifact_contract.rs:414-459 | stages passed in one message: only the first can use evidence gathered before it |
| StageCursors.RunFaithful | src/agent/artifact_contract.rs:375-504 | in every run of outputs and claims, each passed stage was claimed by name with a check that held on what was noted since the previous pass |
| StageCursors.NeedleWasNoted | src/agent/artifact_contract.rs:490-501 | a needle was in the outputs since the previous pass; without a line break, in a single output |
| StageCursors.PassesOnlyGrow | src/agent/artifact_contract.rs:442-459 | passes are never undone, and the index never decreases |
| StageCursors.PointerExactly | src/agent/artifact_contract.rs:428-440 | the pointer block appears exactly when there are stages and all have passed |

## Left out

- Text offsets count characters where the Rust code counts bytes; both cut only at character boundaries, which `Utf8Boundary` proves to be the same places.
- JSON text: printing and parsing, `extract_json_object` and the retry with a planner are not modelled; a planner reply is the JSON value in it, and a JSON value printed and parsed again is taken to be itself.
- ManifestJson.DecodeNode: the deserialiser also accepts a record written as an array of its fields, which the model reads as an error.
- JSON edits work on values: `rewrite_capability_aliases` changes a value in place and the model returns the changed value; what a rejected, half-rewritten value looks like is not modelled, because it is dropped.
- RepairSplice.SpliceRemainingPlan: nodes are values in a sequence that is reassigned, where the source writes into a vector.
- RepairSession.Session.PrepareRepair: planner chat and admission are given by their result, which may be a failure; whether the write succeeds is given too. Errors of the memory when reading, the recorded failure itself, node artifacts, the plan phase and the plan made afresh when nothing is saved are left out.
- Admission.AdmittedIsAccepted: admission is given by what it may change of a node; shell gates, remote loci and the commands it fills in are left out.
- `replan_remaining_after_observe` is unused in the source and not modelled.
- CandidateDag.Verdict: the message of a failed JSON decoding is not modelled, only its category.
- DagRunner.RunTemplateDag: assembly and the clock are functions given by the host; prompts, budgets and hashing are not part of this model.
- ToolMarkup.StripToolCallMarkup: the regular expressions for DSML blocks and the streaming JSON parser are parameters; of the parser only its bound is used. Nothing is said about a tag that two kept pieces form when they are joined.
- Migration.MigrateEntries: reading SQLite and Markdown sources, backups, dry runs and storage errors are left out; the target is a map.
- CapabilityIndex.BuildIndex: file discovery, the index cache and its metadata are left out; a manifest is a JSON value or missing.
- ProtocolRegistry.ScanModels: reading registry files and provider availability are left out; the entries are given in scan order.
- StageCursors.StageCheckObservation: which paths exist is a set given with each claim.
- Node prompts and previews, hop-stop classes, capability routes, MIME detection, truncation with an ellipsis and counting markers are left out as one-branch tables or formatting.
- The loop over `ready` in `topo_node_ids` skips an id missing from the index; no such id can be in the list, so the branch has no counterpart.
