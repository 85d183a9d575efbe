# Verified model of the epistemic planner and the publish/subscribe core

This project models three parts of the repository in Dafny and proves what they are for.

**The planner** (`Pepper_Planner`). A state is a multi-pointed Kripke model, an action a
model of events. `Formulas` and `States` are the data; `BisimulationContexts` decides
bisimilarity by partition refinement on the disjoint union, and `Bisimulation`,
`Partitions` and `DisjointUnion` say what that means; `ProductUpdates`,
`ProductProperties` and `PerspectiveShifts` are the operations on states. The search is
proved for any AND/OR problem in `AndOr` (labels and strategies), `Labelling` (the walks
up the parents), `Growth` (expanding a node), `BreadthFirst` (the order of the search),
`Graphs`, `SearchLoop`, `SearchRuns` (the search as a function of the problem) and
`Extraction` (the policy as a function of the tree); `Planner` puts in the epistemic
operations, `Policies` and `PolicyRuns` use the result. `ShiftBisimilarity`,
`ShiftExactness` and `SplitBisimilarity` say exactly when shifting and splitting respect
bisimilarity, `ExpandBisimilarity` what that means for an action and for the lookup,
`Expansions` says when an action is available and what it leaves, `TameStates` gives
problems with any number of acting agents on which the lookup can be trusted, and
`PolicyClasses` and `TamePlans` decide there whether a policy leads to the goal.
`LoopingSearch` and `LoopingPolicies` are a problem on which the planner's policy does not
reach the goal. The main theorem is `Planner.FindPolicy`.

**The publish/subscribe core.** `TopicNaming` is the protocol by which nodes agree on
channel ids, as a machine over atomic store commands of any number of nodes in any order;
`Advertising` is the call itself. `Queues` is the queue of a subscriber, `Routing` and
`Nodes` the tables of a node and its network tick, `RoutingRuns` whole runs of two nodes
on a reliable ordered link, and `NamedRouting` joins them to the naming of topics.
`Messages` and `MessageBuilders` lay out messages with self-relative references;
`Trajectories`, `Regrouping`, `Schedules` and `TrajectoryCommands` flatten a schedule of
actuator commands and issue it again.

**The tracker of one object** (`WorldObjects`).

Where the source updates something in place, the model has a class or a method with loops
that is proved equal to a specification function, and the properties are lemmas about that
function. Numbers that the source keeps in a fixed width are unbounded here except where
the width matters: the 32-bit reply of the counter and the signed reading of a score, the
32-bit halves of a reference and the 32-bit sizes of a message, the eight-bit counts and
indices of a trajectory.

## Points where the code and its purpose part

- Valuations are compared by the plain concatenation of their sorted names, so `{a, b}`
  passes for `{ab}`. The decision is exact for bisimilarity by key, for all states; it is
  exact for bisimilarity proper over a set of valuations if and only if the key is
  injective on it (`Bisimulation.KeyExactIffInjective`).
- A policy is looked up by the first bisimilar entry. Below a node that is solved the
  search goes on while the root is open, and extraction takes the first solved child in
  the order of the library; so a policy can hold an action that leads back to its own
  state, and before the one that leads on. `LoopingPolicies.PlanInCircles` is a library of
  two actions with one agent on which the planner answers with such a policy, and carrying
  it out never reaches the goal. Carrying out a policy reaches the goal if and only if the
  states that are met can be ranked so that every action looked up leads to lower ones
  (`PolicyRuns.CarriedOutIffCertified`), which is a check on the policy alone where the
  lookup keeps the states of its entries apart (`PolicyRuns.PolicyLeadsIff`), and up to
  bisimilarity where actions respect it (`TamePlans.PlanLeadsUpToBisimilarity`); it does
  for a closed policy whose bisimilar entries have the same action
  (`PolicyRuns.ConsistentPolicyReachesGoal`).
- The perspective shift drops edges of other agents to worlds that are not reached, so the
  shifts of bisimilar states need not be bisimilar
  (`ShiftBisimilarity.ShiftBreaksBisimilarity`). All states bisimilar to a given one have
  bisimilar shifts if and only if no other agent has an edge from a reached world to one
  that a bisimulation of the state with itself relates to a reached world
  (`ShiftExactness.ShiftExact`). A loop of another agent already is such an edge, so with
  several acting agents the conditions that matter are on pairs of states: an agent with
  an edge among the reached worlds of the one has none out of those of the other
  (`ShiftBisimilarity.FittingShifts`), or valuations tell the worlds apart
  (`TameStates.ApartShifts`).
- The split clears the agent's relation at worlds that are not the actual one, so outcomes
  of bisimilar states need not be bisimilar (`SplitBisimilarity.SplitBreaksBisimilarity`).
  They are if and only if the states match for the other agents with the two actual worlds
  as each other's only counterparts (`SplitBisimilarity.SplitExact`); for bisimilar states
  and an actual world that is alone with its label, if and only if the other actual world
  is alone with that label too (`SplitBisimilarity.SplitIff`).
- A queue does not look for room: the put that takes the last free slot makes the queue
  look empty (`Queues.FifoIffNoOverflow`).
- Topic ids are distinct exactly until the counter passes 2^32
  (`TopicNaming.NamesNeverClash`, `TopicNaming.NamesClashPastBound`), and all of them can
  be read back exactly until it reaches 2^31 (`TopicNaming.NoFailureBelowBound`,
  `TopicNaming.FailurePastBound`).
- A trajectory is issued as scheduled exactly under three limits
  (`Schedules.TrajectoryExactIff`); an actuator may have 256 commands, one more than its
  eight-bit index counts to.
- The comment in `is_bisimilar` that designated worlds are still to be checked is out of
  date: the code below it does check them.

## Model

| member | source | states |
|---|---|---|
| Formulas.ValuateIsTreeSemantics | Pepper_Planner/Pepper_Planner/Formula_Component.cpp:5-59 | a formula in the arena has the value of the tree it stands for, in the usual reading of the connectives, except that an empty conjunction and the three modalities are false |
| Formulas.AppendKeepsMeaning | Pepper_Planner/Pepper_Planner/Formula.cpp:11-72 | components appended later never change which tree an existing id stands for |
| Formulas.AppendKeepsValue | Pepper_Planner/Pepper_Planner/Formula.cpp:11-72 | nor its value under any propositions |
| Formulas.Formula.FTop | Pepper_Planner/Pepper_Planner/Formula.cpp:11-16 | a new root that is true under all propositions; every older formula keeps its value |
| Formulas.Formula.FBot | Pepper_Planner/Pepper_Planner/Formula.cpp:18-23 | a new root that is false under all propositions; every older formula keeps its value |
| Formulas.Formula.FProp | Pepper_Planner/Pepper_Planner/Formula.cpp:25-30 | a new root that is true exactly where the proposition is; every older formula keeps its value |
| Formulas.Formula.FNot | Pepper_Planner/Pepper_Planner/Formula.cpp:32-37 | a new root that is true exactly when the given formula is false; every older formula keeps its value, and child ids stay smaller than their parents' ids, so evaluation terminates |
| Formulas.Formula.FAnd | Pepper_Planner/Pepper_Planner/Formula.cpp:39-44 | a new root that is true exactly when there is at least one conjunct and all of them are true; every older formula keeps its value |
| Formulas.Formula.FOr | Pepper_Planner/Pepper_Planner/Formula.cpp:46-51 | a new root that is true exactly when some disjunct is true; every older formula keeps its value |
| Formulas.Formula.FBelieves | Pepper_Planner/Pepper_Planner/Formula_Component.cpp:42-56 | a new root that is false, since the modality is not implemented; so are the other two |
| States.StateValue.GetDesignatedWorldReachables | Pepper_Planner/Pepper_Planner/State.cpp:43-63 | the worklist search returns exactly the worlds on some path of the agent's relation from a designated world |
| States.ReachedAlongRelations | Pepper_Planner/Pepper_Planner/State.cpp:43-63 | these are the worlds at the end of a path of stored relations, each from its first world to its second |
| States.State.AddDesignatedWorld | Pepper_Planner/Pepper_Planner/State.cpp:100-105 | a world is designated at most once, and nothing else changes |
| States.State.SetGlobalForAgent | Pepper_Planner/Pepper_Planner/State.cpp:127-132 | one designated world, which the agent relates only to itself; worlds and other agents unchanged |
| States.State.CreateWorldLike | Pepper_Planner/Pepper_Planner/State.cpp:83-87 | a new last world whose id is its index |
| States.State.RemoveTruePropositions | Pepper_Planner/Pepper_Planner/State.cpp:73-75 | the propositions of one world change, and only by those removed |
| ValuationKey.ConvertPropositionsToString | Pepper_Planner/Pepper_Planner/Bisimulation_Context.cpp:217-228 | the sorted concatenation, whatever order the set is enumerated in |
| ValuationKey.KeyCollision | Pepper_Planner/Pepper_Planner/Bisimulation_Context.cpp:222-226 | two different valuations with one key |
| Bisimulation.Reflexive | Pepper_Planner/Pepper_Planner/DEL_Operations.cpp:123-126 | every well-formed state is bisimilar to itself |
| Bisimulation.Symmetric | Pepper_Planner/Pepper_Planner/DEL_Operations.cpp:123-126 | bisimilarity is symmetric |
| Bisimulation.Transitive | Pepper_Planner/Pepper_Planner/DEL_Operations.cpp:123-126 | bisimilarity is transitive, by composing the two relations |
| Bisimulation.BisimilarStatesAgree | Pepper_Planner/Pepper_Planner/State.cpp:16-23 | bisimilar states satisfy the same formulas |
| Bisimulation.KeyExactIffInjective | Pepper_Planner/Pepper_Planner/Bisimulation_Context.cpp:56-65 | comparing keys instead of valuations decides bisimilarity exactly for all states over a set of valuations if and only if the key is injective on that set |
| Bisimulation.KeyConfusesStates | Pepper_Planner/Pepper_Planner/Bisimulation_Context.cpp:56-65 | two states that are bisimilar by key and not by valuation |
| Bisimulation.ValuationImpliesKey | Pepper_Planner/Pepper_Planner/Bisimulation_Context.cpp:56-65 | states that are bisimilar are never told apart by key |
| Partitions.BisimilarSameSignature | Pepper_Planner/Pepper_Planner/Bisimulation_Context.cpp:115-138 | under a partition that keeps bisimilar worlds together, bisimilar worlds reach the same blocks |
| Partitions.StableIsCoarsest | Pepper_Planner/Pepper_Planner/Bisimulation_Context.cpp:78-113 | a stable partition that keeps bisimilar worlds together is exactly bisimilarity, and the coarsest of all stable partitions that refine the labels |
| Partitions.BlockCount | Pepper_Planner/Pepper_Planner/Bisimulation_Context.cpp:78-113 | a partition has no more blocks than worlds, which bounds the number of passes |
| DisjointUnion.BalancedIffBisimilar | Pepper_Planner/Pepper_Planner/Bisimulation_Context.cpp:187-214 | the final test on the blocks of the disjoint union holds of all of them if and only if the two states are bisimilar |
| BisimulationContexts.BisimulationContext.CreateMergedWorldsList | Pepper_Planner/Pepper_Planner/Bisimulation_Context.cpp:4-27 | the worlds of the disjoint union, with where each came from and whether it is designated |
| BisimulationContexts.BisimulationContext.CreateMergedRelationsList | Pepper_Planner/Pepper_Planner/Bisimulation_Context.cpp:29-54 | the successor maps are those of the disjoint union of the two states |
| BisimulationContexts.BisimulationContext.PartitionIntoValuationBlocks | Pepper_Planner/Pepper_Planner/Bisimulation_Context.cpp:56-75 | two worlds share a block if and only if their keys are equal |
| BisimulationContexts.BisimulationContext.AreRelationsEqual | Pepper_Planner/Pepper_Planner/Bisimulation_Context.cpp:115-138 | true exactly when the two lists reach the same set of blocks |
| BisimulationContexts.BisimulationContext.MoveWorldsToNewBlock | Pepper_Planner/Pepper_Planner/Bisimulation_Context.cpp:140-176 | splits the moved worlds into new blocks, at least one, keeping bisimilar worlds together |
| BisimulationContexts.MoveStep | Pepper_Planner/Pepper_Planner/Bisimulation_Context.cpp:167-175 | the invariant holds in the middle of the move as well, when some of the moved worlds have no block of their own yet |
| BisimulationContexts.BisimulationContext.RefinementPass | Pepper_Planner/Pepper_Planner/Bisimulation_Context.cpp:80-109 | a pass only refines; if it changes anything the number of blocks grows, and otherwise the partition is stable |
| BisimulationContexts.BisimulationContext.PartitionIntoRelationsBlocks | Pepper_Planner/Pepper_Planner/Bisimulation_Context.cpp:78-113 | terminates with a stable partition that keeps bisimilar worlds together |
| BisimulationContexts.BisimulationContext.IsBisimilar | Pepper_Planner/Pepper_Planner/Bisimulation_Context.cpp:178-215 | true if and only if the states are bisimilar by key: a relation total on both sides, with both zigzag conditions and designated worlds matched by designated ones |
| ProductUpdates.PerformProductUpdate | Pepper_Planner/Pepper_Planner/DEL_Operations.cpp:6-42 | the nested loops build a well-formed state whose worlds, relations and designated worlds are those of the product |
| ProductUpdates.ProductWorlds | Pepper_Planner/Pepper_Planner/DEL_Operations.cpp:11-28 | one world for each world and event whose precondition has value true there, in the order of worlds and then events, with the propositions that are not deleted and those that are added |
| ProductUpdates.ProductDesignated | Pepper_Planner/Pepper_Planner/DEL_Operations.cpp:22-24 | designated are the worlds from a designated world and an event whose id is designated |
| ProductUpdates.ProductEdges | Pepper_Planner/Pepper_Planner/DEL_Operations.cpp:30-40 | an agent relates two worlds, in this direction, exactly when the stored relations relate the old worlds and the event ids in the same direction |
| ProductUpdates.ProductIsProduct | Pepper_Planner/Pepper_Planner/DEL_Operations.cpp:11-40 | worlds correspond one to one with the (world, event) pairs whose precondition holds; edges and designation are exactly those of both components; ids equal indices |
| ProductUpdates.OriginsExact | Pepper_Planner/Pepper_Planner/DEL_Operations.cpp:11-28 | every applicable pair occurs exactly once |
| ProductProperties.ProductCongruence | Pepper_Planner/Pepper_Planner/DEL_Operations.cpp:6-42 | bisimilar states updated with the same action, whatever its preconditions, effects and event relations, are bisimilar |
| ProductProperties.ProductKeepsFrame | Pepper_Planner/Pepper_Planner/DEL_Operations.cpp:30-40 | the product of reflexive, symmetric or transitive relations is again so |
| PerspectiveShifts.PerformPerspectiveShift | Pepper_Planner/Pepper_Planner/DEL_Operations.cpp:45-92 | an all-designated copy of the part of the state that the agent can reach, for any order of enumeration |
| PerspectiveShifts.Visit | Pepper_Planner/Pepper_Planner/DEL_Operations.cpp:47-66 | visits exactly the worlds that the search of the state itself finds |
| PerspectiveShifts.ShiftIsCopy | Pepper_Planner/Pepper_Planner/DEL_Operations.cpp:68-86 | the shifted state is the induced submodel on the reachable worlds, renumbered |
| PerspectiveShifts.ShiftInFull | Pepper_Planner/Pepper_Planner/DEL_Operations.cpp:68-86 | propositions, designation and stored relations of every agent, in their direction, are those of the reached worlds |
| PerspectiveShifts.ShiftIdempotent | Pepper_Planner/Pepper_Planner/DEL_Operations.cpp:45-92 | shifting twice gives a state isomorphic to shifting once |
| PerspectiveShifts.ShiftKeepsApplicability | Pepper_Planner/Pepper_Planner/DEL_Operations.cpp:105-121 | an action is applicable after its owner's shift exactly when it was before |
| PerspectiveShifts.IsActionApplicable | Pepper_Planner/Pepper_Planner/DEL_Operations.cpp:105-121 | true exactly when every world the owner can reach has an event whose precondition holds there |
| PerspectiveShifts.SplitIntoGlobalStates | Pepper_Planner/Pepper_Planner/DEL_Operations.cpp:94-102 | one state for each designated world, in order |
| PerspectiveShifts.SplitValid | Pepper_Planner/Pepper_Planner/DEL_Operations.cpp:94-102 | each outcome is well-formed, and satisfies a formula exactly when its own designated world does |
| PerspectiveShifts.RunStaysValid | Pepper_Planner/Pepper_Planner/DEL_Operations.cpp:6-102 | well-formedness and the number of agents survive any sequence of updates, shifts and splits |
| Expansions.AvailableIff | Pepper_Planner/Pepper_Planner/Planner.cpp:31-45 | an action is available if and only if in every world its owner reaches some event is possible, and in some of them a designated one |
| Expansions.OutcomesInFull | Pepper_Planner/Pepper_Planner/DEL_Operations.cpp:94-102 | one outcome for each designated world of the update in order, with its worlds and the relations of all other agents, and the owner relating the actual world to itself only |
| Expansions.OwnerKnows | Pepper_Planner/Pepper_Planner/State.cpp:127-132 | in every outcome the only world that the owner reaches is the actual one |
| PerspectiveShifts.EnumerationExists | Pepper_Planner/Pepper_Planner/DEL_Operations.cpp:68-86 | there are orders in which every set is listed, each element once, as the theorems about shifts and plans ask for |
| ShiftBisimilarity.ShiftKeepsBisimilarity | Pepper_Planner/Pepper_Planner/DEL_Operations.cpp:45-92 | where no agent has an edge out of the worlds that are reached, the shifts of bisimilar states are bisimilar, under either labelling |
| ShiftBisimilarity.FittingShifts | Pepper_Planner/Pepper_Planner/DEL_Operations.cpp:45-92 | more generally, where an agent with an edge among the reached worlds of the one state has none out of those of the other, and the other way round |
| ShiftBisimilarity.InsideShifts | Pepper_Planner/Pepper_Planner/DEL_Operations.cpp:45-92 | and where some bisimulation can be followed among the reached worlds in both directions |
| ShiftBisimilarity.ShiftBreaksBisimilarity | Pepper_Planner/Pepper_Planner/DEL_Operations.cpp:80-86 | two bisimilar states whose shifts are not bisimilar, since an edge of another agent to a world that is not reached is dropped |
| ShiftExactness.SecludedSuffices | Pepper_Planner/Pepper_Planner/DEL_Operations.cpp:45-92 | where no other agent has an edge from a reached world to one that some bisimulation of the state with itself relates to a reached world, every bisimilar state has a bisimilar shift |
| ShiftExactness.LeakBreaks | Pepper_Planner/Pepper_Planner/DEL_Operations.cpp:80-86 | where one has, two bisimilar states can be given whose shifts differ: one with the edge added inside, one doubled so that it leads out |
| ShiftExactness.ShiftExact | Pepper_Planner/Pepper_Planner/DEL_Operations.cpp:45-92 | so that condition on one state holds if and only if the shift respects bisimilarity there |
| ShiftExactness.OtherLoopLeaks | Pepper_Planner/Pepper_Planner/State.cpp:127-132 | a loop of another agent at a reached world, such as its split leaves, breaks that condition |
| SplitBisimilarity.SplitBreaksBisimilarity | Pepper_Planner/Pepper_Planner/State.cpp:127-132 | the same two states, split, are not bisimilar either |
| SplitBisimilarity.SplitExact | Pepper_Planner/Pepper_Planner/State.cpp:127-132 | two outcomes are bisimilar if and only if some relation matches the two states for every agent but the splitting one, and relates the two actual worlds to each other and to nothing else |
| SplitBisimilarity.PinnedBisimulation | Pepper_Planner/Pepper_Planner/State.cpp:127-132 | a bisimulation in which the actual worlds are each other's only counterparts makes the outcomes bisimilar |
| SplitBisimilarity.SplitIff | Pepper_Planner/Pepper_Planner/State.cpp:127-132 | for bisimilar states split at worlds with the same label, where no other world of the first has it, the outcomes are bisimilar if and only if no other world of the second has it |
| ExpandBisimilarity.SplitOutcomesIff | Pepper_Planner/Pepper_Planner/DEL_Operations.cpp:94-102 | bisimilar states, the first of which tells its designated worlds apart by label, have the same outcomes up to bisimilarity if and only if so does the second |
| ExpandBisimilarity.ExpandShifted | Pepper_Planner/Pepper_Planner/Planner.cpp:31-49 | in states whose shifts to the owner are bisimilar, an action is blocked in both or in neither and leads to bisimilar updates, and its outcomes are the same up to bisimilarity if and only if the second update tells its designated worlds apart when the first does |
| ExpandBisimilarity.ExpandCongruence | Pepper_Planner/Pepper_Planner/Planner.cpp:31-49 | so it is for bisimilar states where an agent with an edge among the worlds that the owner reaches in the one has none out of those in the other, and the other way round |
| ExpandBisimilarity.LookupSound | Pepper_Planner/Pepper_Planner/Policy.cpp:13-20 | in a set of states that the library does not lead out of, where bisimilar states have bisimilar shifts and outcomes are told apart by label, carrying out a policy by lookup reaches the goal from a state if and only if it does from every bisimilar one, with an entry of its own or not |
| TameStates.ApartShifts | Pepper_Planner/Pepper_Planner/DEL_Operations.cpp:45-92 | bisimilar states in which no two worlds have the same valuation have bisimilar shifts, whatever the relations of the agents |
| TameStates.ProductApart | Pepper_Planner/Pepper_Planner/DEL_Operations.cpp:6-42 | and stay so under actions whose results tell event and valuation |
| TameStates.ApartIsTame | Pepper_Planner/Pepper_Planner/Planner.cpp:31-49 | so these states are such a set for every library of such actions, whoever owns them |
| TameStates.LookupSoundApart | Pepper_Planner/Pepper_Planner/Policy.cpp:13-20 | and the lookup treats bisimilar states alike there |
| TameStates.TwoOwnersTame | Pepper_Planner/Pepper_Planner/Planner.cpp:31-49 | for a library of two owners who find out about a proposition, in every such state with an actual world both can act, and can in turn in every outcome |
| AndOr.SolvableMonotone | Pepper_Planner/Pepper_Planner/Planner.cpp:10-64 | a strategy of some depth is a strategy of any greater depth |
| AndOr.DoomedIsHopeless | Pepper_Planner/Pepper_Planner/Planner.cpp:10-64 | a refutation of any depth (no goal, and every action blocked or with a refuted outcome) excludes strategies of every depth |
| AndOr.LabellingUnique | Pepper_Planner/Pepper_Planner/Node.cpp:61-135 | the label conditions have one solution on a tree: two assignments of both flags that meet them at every node are equal, so that the labels are the least ones |
| AndOr.ClosedTreeLabelled | Pepper_Planner/Pepper_Planner/Node.cpp:61-135 | when no OR node is open, every node is labelled solved or dead |
| AndOr.SolvedSound | Pepper_Planner/Pepper_Planner/Planner.cpp:122-141 | a node labelled solved has a strategy of some depth |
| AndOr.DeadSound | Pepper_Planner/Pepper_Planner/Planner.cpp:99-118 | a node labelled dead has a refutation of some depth |
| Graphs.Graph.GetNextFromFrontier | Pepper_Planner/Pepper_Planner/Graph.cpp:4-8 | the frontier is first-in first-out |
| Graphs.Graph.CheckIfSolved | Pepper_Planner/Pepper_Planner/Node.cpp:99-135 | sets the label exactly when some child (or, for an AND node, every child) is solved and the node is not labelled dead |
| Graphs.Graph.CheckIfDead | Pepper_Planner/Pepper_Planner/Node.cpp:61-97 | the dual for dead |
| Graphs.PropagateSolvedNode | Pepper_Planner/Pepper_Planner/Planner.cpp:122-141 | walking up the parents, which have smaller ids, restores the label conditions at every node of the tree, whose only solution is its least labelling (`AndOr.LabellingUnique`) |
| Graphs.PropagateDeadEndNode | Pepper_Planner/Pepper_Planner/Planner.cpp:99-118 | the same for a node without children |
| Labelling.SolveStep | Pepper_Planner/Pepper_Planner/Planner.cpp:129-140 | each step of the walk keeps every node but the next parent correctly labelled |
| Labelling.KillStep | Pepper_Planner/Pepper_Planner/Planner.cpp:106-117 | the same for the dead label |
| Growth.GrownKeeps | Pepper_Planner/Pepper_Planner/Planner.cpp:30-53 | adding an AND node with its OR children keeps the tree exact and the label conditions at every node |
| BreadthFirst.FrontierSorted | Pepper_Planner/Pepper_Planner/Planner.cpp:16-51 | the depths on the frontier are sorted, within a spread of one |
| BreadthFirst.FrontierNotEmpty | Pepper_Planner/Pepper_Planner/Planner.cpp:12-14 | the frontier is never empty while the root is unlabelled |
| BreadthFirst.PopsShallow | Pepper_Planner/Pepper_Planner/Planner.cpp:16 | while the root is unlabelled, no node deeper than its shortest strategy or its shortest refutation is taken from the frontier |
| BreadthFirst.ShallowSolved | Pepper_Planner/Pepper_Planner/Planner.cpp:10-64 | a closed node with a strategy no deeper than what has been explored is already labelled solved |
| BreadthFirst.ShallowDead | Pepper_Planner/Pepper_Planner/Planner.cpp:10-64 | a closed node with a refutation no deeper than what has been explored is already labelled dead |
| BreadthFirst.BudgetPop | Pepper_Planner/Pepper_Planner/Planner.cpp:10-64 | the number of steps still possible, counted over the tree down to the depth of a strategy or a refutation, goes down with every node taken |
| SearchLoop.StartReady | Pepper_Planner/Pepper_Planner/Planner.cpp:7-9 | the loop invariant holds of the initial graph |
| SearchLoop.PopNext | Pepper_Planner/Pepper_Planner/Planner.cpp:16 | taking a node keeps the invariant; its depth and the steps so far are within the bound of every strategy and every refutation of the root |
| SearchLoop.MidwayTry | Pepper_Planner/Pepper_Planner/Planner.cpp:30-53 | trying an applicable action keeps the invariant in the middle of an expansion |
| SearchLoop.MidwayDone | Pepper_Planner/Pepper_Planner/Planner.cpp:55-61 | an expansion that found an action leads back to the head of the loop |
| SearchLoop.PropagatedReady | Pepper_Planner/Pepper_Planner/Planner.cpp:17-27 | so does a propagation that leaves the root unlabelled |
| SearchLoop.SolvedRoot | Pepper_Planner/Pepper_Planner/Planner.cpp:19 | a solved root: a strategy exists |
| SearchLoop.DeadRoot | Pepper_Planner/Pepper_Planner/Planner.cpp:57-59 | a dead root: a refutation exists |
| SearchRuns.HistoryStops | Pepper_Planner/Pepper_Planner/Planner.cpp:10-64 | a search that has closed the oldest open node time after time until the root was labelled has stopped where the run of the problem stops, with its tree |
| SearchRuns.ReachesUnique | Pepper_Planner/Pepper_Planner/Planner.cpp:10-64 | after any number of nodes there is one tree with one labelling |
| SearchRuns.StopsOnce | Pepper_Planner/Pepper_Planner/Planner.cpp:10-64 | the number of nodes taken until the root is labelled, and the labelled tree, are determined by the problem |
| Planner.TryAction | Pepper_Planner/Pepper_Planner/Planner.cpp:31-49 | the outcomes of shift, applicability test, update, validity test and split, all of them well-formed |
| Planner.ExpandAction | Pepper_Planner/Pepper_Planner/Planner.cpp:30-53 | one action: blocked, or one AND node with an OR node on the frontier for each outcome |
| Planner.ProcessNode | Pepper_Planner/Pepper_Planner/Planner.cpp:17-61 | one node: goal, dead end or expanded, each with the invariant re-established or a final verdict |
| Planner.SearchStep | Pepper_Planner/Pepper_Planner/Planner.cpp:10-62 | one iteration: the oldest open node is taken and closed, by trying the actions in the order of the library |
| Planner.FindPolicy | Pepper_Planner/Pepper_Planner/Planner.cpp:6-66 | the verdict solved means that a strategy exists and unsolved that a refutation does, and so no strategy; when a strategy or a refutation of depth k exists, one of the two is returned within a number of iterations that depends only on the tree down to that depth; the exit for an empty frontier is never taken; the policy is closed, covers the initial state, and is that of the tree on which the run of the problem stops |
| Extraction.ExtractPolicy | Pepper_Planner/Pepper_Planner/Planner.cpp:69-97 | the entries are those of the tree in the order of the stack, from each OR node those below its first solved child; the initial state and every outcome of every entry's action is a goal or has an entry of strictly higher rank |
| Extraction.ClosedPolicyReachesGoal | Pepper_Planner/Pepper_Planner/Planner.cpp:69-97 | following the entries of a closed policy reaches the goal whatever the outcomes |
| Policies.AreStatesBisimilar | Pepper_Planner/Pepper_Planner/DEL_Operations.cpp:123-126 | a fresh context decides bisimilarity by key |
| Policies.Policy.GetAction | Pepper_Planner/Pepper_Planner/Policy.cpp:13-20 | the action of the first entry whose state is bisimilar to the query, or none |
| Policies.GetActionRespectsBisimilarity | Pepper_Planner/Pepper_Planner/Policy.cpp:13-20 | queries that are bisimilar by key get the same answer |
| Policies.GetActionRespectsTrueBisimilarity | Pepper_Planner/Pepper_Planner/Policy.cpp:13-20 | so do queries that are bisimilar by valuation |
| Policies.OwnEntryAnswers | Pepper_Planner/Pepper_Planner/Policy.cpp:13-20 | the state of an entry is always answered |
| PolicyRuns.CoveredIsAnswered | Pepper_Planner/Pepper_Planner/Policy.cpp:13-20 | every state that a closed policy covers and that is not a goal is answered |
| PolicyRuns.AnswersIffConsistent | Pepper_Planner/Pepper_Planner/Policy.cpp:13-20 | the lookup answers every entry's state with that entry's action if and only if entries for bisimilar states have the same action |
| PolicyRuns.ConsistentPolicyReachesGoal | Pepper_Planner/Pepper_Planner/Policy.cpp:13-20 | then carrying out a closed policy by lookup reaches the goal whatever the outcomes |
| PolicyRuns.CarriedOutIffCertified | Pepper_Planner/Pepper_Planner/Policy.cpp:13-20 | carrying out a policy by lookup reaches the goal whatever the outcomes if and only if a finite set of states around the first one can be ranked so that every action looked up leads to lower ones |
| PolicyRuns.CarriedOutWithinEntries | Pepper_Planner/Pepper_Planner/Policy.cpp:13-20 | where the lookup answers for the states of a closed policy with their own entries, it leads to the goal if and only if it does within as many actions as there are entries |
| PolicyRuns.CarriedOutIffEntriesRanked | Pepper_Planner/Pepper_Planner/Policy.cpp:13-20 | and if and only if states of entries alone can be ranked so that every answer leads to lower ones or goals |
| PolicyRuns.PolicyLeadsIff | Pepper_Planner/Pepper_Planner/Policy.cpp:13-20 | both for the lookup by key, when entries that it confuses are for the same state |
| PolicyClasses.ClassedWithinEntries | Pepper_Planner/Pepper_Planner/Policy.cpp:13-20 | where states like those of entries are answered and led on as these are, a closed policy leads from them to the goal if and only if it does within as many actions as it has entries |
| PolicyClasses.ClassedIffRanked | Pepper_Planner/Pepper_Planner/Policy.cpp:13-20 | and if and only if the classes of the states of entries can be ranked so that every answer leads to lower ones or goals |
| PolicyClasses.PolicyLeadsUpToBisimilarity | Pepper_Planner/Pepper_Planner/Policy.cpp:13-20 | both for the lookup by key and likeness by bisimilarity, in a set of states where actions respect it, when the key confuses no entries for states that are not bisimilar |
| TamePlans.PolicyKept | Pepper_Planner/Pepper_Planner/Planner.cpp:69-97 | what holds of the initial state and is kept by every action holds of the states of all entries of the planner's policy |
| TamePlans.PlanLeadsUpToBisimilarity | Pepper_Planner/Pepper_Planner/Planner.cpp:6-97 | so the equivalences hold for the policy that the planner returns, from every state of the set that is bisimilar to the initial one |
| LoopingSearch.TreeAfter | Pepper_Planner/Pepper_Planner/Planner.cpp:10-64 | on every problem of a certain shape, what tree the search has grown after each of its first nine nodes |
| LoopingSearch.SearchFindsLoop | Pepper_Planner/Pepper_Planner/Planner.cpp:6-97 | there the search stops after nine nodes, and the policy waits in a state that waiting leads back to, before it moves there |
| LoopingPolicies.ProblemCircles | Pepper_Planner/Pepper_Planner/Planner.cpp:30-53 | a library of two actions with one agent has that shape, under shift, update and split |
| LoopingPolicies.FoundInCircles | Pepper_Planner/Pepper_Planner/Planner.cpp:6-97 | whatever the planner returns for it within enough iterations, it is solved with this policy |
| LoopingPolicies.NeverReachesGoal | Pepper_Planner/Pepper_Planner/Policy.cpp:13-20 | carrying this policy out by lookup never reaches the goal |
| LoopingPolicies.PlanInCircles | Pepper_Planner/Pepper_Planner/Policy.cpp:14-18 | so the planner itself returns a closed policy that covers the initial state and does not lead to the goal |
| TopicNaming.RunsAgree | include/core/Node.h:110-136 | in every run of any number of nodes, every holder of a topic has the id in the store, each node's two tables fit together, and the check that the topic was added never fails |
| TopicNaming.IdsAreStable | include/core/Node.h:124-133 | an id never changes once set, in the store or in a node, and neither does the topic that a node has for a channel |
| TopicNaming.RunsDistinct | src/core/KVStore.cpp:85-92 | while the counter has not passed 2^32 no id has been given out twice |
| TopicNaming.NamesNeverClash | include/core/Node.h:110-136 | then two nodes have the same channel for two topics exactly when the topics are the same |
| TopicNaming.NamesClashPastBound | src/core/KVStore.cpp:85-92 | the bound is sharp: for every larger count there is a run in which two topics have one id, since the reply is cut to 32 bits |
| TopicNaming.TablesInvert | include/core/Node.h:131-133 | below the bound the table by channel inverts the table by topic |
| TopicNaming.NoFailureBelowBound | src/core/KVStore.cpp:104-112 | while the counter is below 2^31, where scores can still be read back, only a clash of message types ends a call |
| TopicNaming.RefusedIff | include/core/Node.h:113-117 | a call begins with a refusal exactly when the node holds the topic with another message type, and is over at once when it holds it with the same |
| TopicNaming.FailurePastBound | src/core/KVStore.cpp:104-112 | the bound is sharp: for every larger count there is a run in which a call fails because its id is too large to be read back |
| TopicNaming.CallsAreWaitFree | include/core/Node.h:110-136 | in every run, a call that has not ended has used at most four commands of its own node, whatever the others do, and can issue the next |
| Advertising.KVStore.Zadd | src/core/KVStore.cpp:94-102 | adds a topic only if it is not there |
| Advertising.Node.Advertise | include/core/Node.h:110-136 | a call with no other node in between is a run of the same atomic commands to the end, with the same tables or the same failure |
| Advertising.AdvertiseHolds | include/core/Node.h:110-136 | after a call that succeeds the node has the topic with the id in the store, other topics are untouched, and a second call changes nothing |
| Queues.MPSCQueue.Get | include/core/MPSCQueue.h:17-27 | takes the oldest element; what is read is never a cleared slot |
| Queues.MPSCQueue.PutValue | include/core/MPSCQueue.h:28-31 | appends, except that putting into a queue with one free slot loses everything held |
| Queues.LossIsWholeQueues | include/core/MPSCQueue.h:17-31 | in every run, what was put is what was got, what is held, and one full queue for each overflow |
| Queues.FifoIffNoOverflow | include/core/MPSCQueue.h:17-31 | elements come out once and in order if and only if no put found only one slot free |
| Nodes.Node.Subscribe | include/core/Node.h:146-159 | a new subscriber of the topic, entered in the list of networked ones if it is networked |
| Routing.SubscribedAdds | include/core/Node.h:146-159 | one more subscriber at the end, with nothing queued, listed when networked; every other subscriber as it was |
| Routing.ListedIffNetworked | include/core/Node.h:157-158 | listed for forwarding are exactly the networked subscribers |
| Nodes.Node.Publish | include/core/Node.h:61-73 | one push to every subscriber of the topic, networked or not |
| Routing.PublishedAtPublishes | include/core/Node.h:61-73 | the message goes to the queue of every subscriber of the topic, networked or not, and nothing else changes |
| Nodes.Node.Next | include/core/Node.h:36-42 | one message taken from one queue |
| Routing.TakenAtTakes | include/core/Node.h:36-42 | the message leaves the queue and everything else stays |
| Routing.SixteenthLosesAll | include/core/MPSCQueue.h:28-31 | the sixteenth message held at once empties the queue, fewer are kept in order |
| Nodes.Node.Drain | src/core/Node.cpp:127-141 | a networked queue is emptied, each message stamped with the channel of its topic and sent in order |
| Nodes.Node.NetworkTick | src/core/Node.cpp:123-157 | first everything held for networked subscribers is sent, then each received message is pushed to the subscribers of its channel's topic that are not networked |
| Routing.TickedSends | src/core/Node.cpp:127-141 | a tick sends everything held for networked subscribers, in the order of the list and of each queue, stamped with the channel of the topic, and leaves those queues empty |
| Routing.TickedForwards | src/core/Node.cpp:127-141 | what it adds to the messages forwarded for a networked subscriber is exactly what its queue held |
| Routing.DeliveredAtDelivers | src/core/Node.cpp:145-156 | a received message goes to the queues of the local subscribers of the topic that the node has for its channel, and to nobody else |
| Routing.TickedOk | src/core/Node.cpp:123-157 | a tick keeps, for every subscriber at once, that its history is exactly what was published and what arrived on its channel |
| Routing.PublishedAtOk | include/core/Node.h:61-73 | so does publishing |
| Routing.SubscribedOk | include/core/Node.h:146-159 | so does subscribing in the middle of a run |
| Routing.DeliveredAtOk | src/core/Node.cpp:145-156 | a received message reaches the subscribers of one topic only, none of them networked |
| RoutingRuns.RunsOk | src/core/Node.cpp:123-157 | in every run of two nodes, all of this holds, and what one node sent is what the other received followed by what is under way |
| RoutingRuns.TickIsPossible | src/core/Node.cpp:123-157 | in every state of every run each node can tick, whatever part of the link it receives |
| RoutingRuns.NetworkedIsListed | include/core/Node.h:157-158 | in every state of every run a subscriber is listed for forwarding if and only if it is networked |
| RoutingRuns.TickLeavesNothing | src/core/Node.cpp:127-141 | in every run a tick puts all that was held for networked subscribers on the link behind what is under way, and leaves nothing held |
| NamedRouting.NamesAreInjective | include/core/Node.h:110-136 | the ids in the store are a naming as routing assumes it, while the counter has not passed 2^32 |
| NamedRouting.TablesAreWired | include/core/Node.h:131-133 | and the tables of every node in a run of the naming are wired for it |
| NamedRouting.StepRegisters | include/core/Node.h:131-133 | each step of the naming registers at most one topic at a node, as routing does, under the id the store has for it ever after |
| RoutingRuns.ForwardsOwnMessages | src/core/Node.cpp:127-141 | what a node forwards for a networked subscriber was published at that node, never received; it is all of it, once and in order, if and only if the networked queue never overflowed |
| RoutingRuns.ReceivesOwnTopic | src/core/Node.cpp:145-156 | a local subscriber receives exactly what the other node forwarded on the same topic since the subscription, in order |
| RoutingRuns.EndToEnd | src/core/Node.cpp:123-157 | received, under way and waiting messages are together everything published on the topic, once and in order, if and only if the networked queue never overflowed |
| RoutingRuns.EndToEndAfterTick | src/core/Node.cpp:123-157 | after a tick of the sender nothing waits: what has arrived and what is under way is everything published, once and in order, if and only if the networked queue never overflowed |
| RoutingRuns.ReadsInOrder | include/core/Node.h:36-42 | a local subscriber reads all it was given, once and in order, if and only if its queue never overflowed |
| Messages.ReferenceExact | include/common/Message.h:69-77 | length and distance can be read back from the stored word if and only if both fit in 32 bits |
| Messages.OrDisjoint | include/common/Message.h:76 | combining the two halves bit by bit is adding them when they do not overlap |
| Messages.ReferenceFound | src/common/Message.cpp:28-33 | a reference in a packed message is read back as its own block's position and length if and only if both fit |
| Messages.RoundTrip | include/common/Message.h:53-88 | for any sequence of writes to fields that do not overlap, each reference reads back exactly its own bytes, and the blocks lie one after the other |
| Messages.StringRoundTrip | src/common/Message.cpp:19-26 | a string is read back without its terminator |
| Messages.OthersKept | include/common/Message.h:69-88 | bytes of the message outside the references are left as they were |
| Messages.HeaderSize | src/common/Message.cpp:7-13 | the header has the size of the whole message if and only if that fits in 32 bits |
| Messages.HeaderLayout | src/common/Message.cpp:7-13 | the first eight bytes are the size of the message cut to 32 bits, least significant byte first, and a channel of zero |
| Messages.ReferenceLayout | include/common/Message.h:69-77 | a stored reference is the distance in four bytes and the length in the next four, least significant byte first |
| MessageBuilders.MessageBuilder.WriteString | include/common/Message.h:69-78 | one more block, the string and its terminator, and a reference to it; at most 16 blocks |
| MessageBuilders.MessageBuilder.WriteBlob | include/common/Message.h:80-88 | the same for a blob |
| MessageBuilders.MessageBuilder.Assign | include/common/Message.h:49-51 | setting an ordinary field commutes with the references |
| MessageBuilders.MessageBuilder.Pack | include/common/Message.h:53-67 | the copied buffer is the layout that the round trip is about |
| Trajectories.Trajectory.Add | include/acting/Trajectory.h:33-36 | the running total stays the number of commands of all timepoints |
| Trajectories.Trajectory.Pack | include/acting/Trajectory.h:38-77 | the flat arrays carry, timepoint by timepoint, as many commands as an eight-bit count says; every write is within the arrays |
| Regrouping.AddCommand | src/onboard_nao/nao.cpp:163-174 | one command joins the group of its actuator, which is made if there is none |
| Regrouping.Group | src/onboard_nao/nao.cpp:154-177 | one group for each actuator, with all of its commands in order |
| Schedules.IdxTracks | src/onboard_nao/nao.cpp:191-214 | the eight-bit index follows the number of commands issued, up to 256 of them |
| Schedules.IssuedFits | src/onboard_nao/nao.cpp:185-216 | never more commands are issued at a timepoint than its count, so the arrays are large enough, for every message |
| Schedules.ExactIffRegular | src/onboard_nao/nao.cpp:154-217 | every timepoint issues exactly its own commands, each once, if and only if no actuator occurs twice at a timepoint and none has more than 256 commands |
| Schedules.TrajectoryExactIff | src/onboard_nao/nao.cpp:154-217 | from trajectory to issue the same holds if and only if, besides, no timepoint has more than 255 commands |
| TrajectoryCommands.IssueTimepoint | src/onboard_nao/nao.cpp:185-217 | every group in turn, the commands that are due into the arrays; every index is within bounds |
| TrajectoryCommands.TrajectoryCmd | src/onboard_nao/nao.cpp:131-222 | for each timepoint, the arrays hold what the theorems are about |
| WorldObjects.WorldObject.Tick | src/reasoning/WorldModel.cpp:17-51 | the event and the whole new state |
| WorldObjects.WorldObject.ProduceSighting | src/reasoning/WorldModel.cpp:53-62 | the whole new state after a sighting |
| WorldObjects.EventsAlternate | src/reasoning/WorldModel.cpp:17-62 | in every run the events are NewObject and then Disappear and Appear in turn, and their number tells the status |
| WorldObjects.CountersInBounds | src/reasoning/WorldModel.cpp:17-62 | the time-out never exceeds both initial values, nor the counter the number of sightings |
| WorldObjects.DisappearsIff | src/reasoning/WorldModel.cpp:29-37 | a tracked object disappears exactly when it is inconsistent or has not been sighted for the given number of ticks |
| WorldObjects.InconsistentIffMarked | src/reasoning/WorldModel.cpp:29-37 | losing an object clears that it was found inconsistent, and nothing else does |
| WorldObjects.NeverLost | src/reasoning/WorldModel.cpp:29-37 | an object that is consistent and is sighted among any so many ticks never disappears |
| WorldObjects.AnnouncedAfterSightings | src/reasoning/WorldModel.cpp:20-47 | an object is announced only after the needed number of sightings within the time to lock on to it |
| WorldObjects.AnnouncedIff | src/reasoning/WorldModel.cpp:20-47 | an object that is not tracked is announced by the next tick if and only if it has been sighted as often as needed since the first sighting of the current attempt to lock on |
| WorldObjects.NewObjectIff | src/reasoning/WorldModel.cpp:20-25 | the first event comes exactly when there was none and the sightings since the beginning are as many as needed |
| WorldObjects.DeletedIff | src/reasoning/WorldModel.cpp:26-28 | a tick puts an object up for deletion exactly when it was never announced, has too few sightings, and was first sighted, if at all, as many ticks ago as there is time |

## Left out

- Planner.FindPolicy: takes a bound on the number of iterations, since the loop of the source need not end on a problem without a strategy; `OutOfFuel` is the model's own verdict, and it is proved that a problem with a strategy or a refutation of depth k is decided within a number of iterations fixed by the tree down to that depth.
- States must be in range: ids equal indices, and relations and designated worlds name existing worlds. Every operation of the model keeps this, and the source indexes without a check where it fails.
- The root of the graph is taken to be node 0, the id that its creation returns; the field that should hold it is never assigned.
- A refinement pass goes over the blocks that exist when it starts, by index; the source iterates over the list while appending to it. Blocks are proved never to be empty, so the branch that skips an empty block is absent.
- The order in which an unordered set is enumerated is a parameter, any function that lists each element once; that equal sets may be walked in different orders at different times is not modelled.
- Nodes of the search graph, subscribers and publishers are values inside the object that holds them; aliasing between them is not modelled. In particular a message header is a value: one header shared by two networked topics, and stamped for both before it is sent, is not covered. The queue of a subscriber follows the same function that the ring of slots is proved to follow.
- Builders of actions, printing, graph output and the domain loader.
- The store, the network, the motion service and clocks: a store command is one atomic step, the link is reliable and ordered with both sides connected, and angles, speeds and sleeps of `trajectory_cmd` are absent, as is its debug output.
- Memory: allocation, lifetimes of the blocks a builder refers to, and data races on the queues. A block is the bytes it has when it is written.
- Messages of 2^32 bytes or more cannot be packed: the buffer would be allocated too small, so `Pack` requires less.
- `World`, percept matching, calibration and the executor states; an object is made inconsistent from outside.
- `RingBuffer`, `EpistemicReasoning` and all views.
