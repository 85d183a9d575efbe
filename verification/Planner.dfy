/** The planner: breadth-first AND/OR search over epistemic states. */
module Planner {
  import opened Actions
  import opened AndOr
  import opened BreadthFirst
  import opened Extraction
  import opened Formulas
  import opened Graphs
  import opened Growth
  import opened PerspectiveShifts
  import opened Policies
  import opened ProductUpdates
  import opened SearchLoop
  import opened SearchRuns
  import opened States

  // ----- The planning problem the search is run on

  ghost predicate IsGoal(goal: FormulaValue, s: StateValue) {
    goal.Valid() && s.Valid() && s.Satisfies(goal)
  }

  // A valid state has a world and a designated world.
  predicate IsValidState(s: StateValue) {
    |s.worlds| > 0 && |s.designated| > 0
  }

  /** Shift to the owner, check applicability, update, and split for the owner. */
  ghost function Expand(enum: Enumeration, s: StateValue, a: ActionValue): (e: Expansion<StateValue>) {
    if IsEnumeration(enum) && Fits(s, a) then ExpandFit(enum, s, a) else Blocked
  }

  ghost function ExpandFit(enum: Enumeration, s: StateValue, a: ActionValue): (e: Expansion<StateValue>)
    requires IsEnumeration(enum) && Fits(s, a)
  {
    ShiftIsCopy(enum, s, a.owner);
    var shifted := Shift(enum, s, a.owner);
    var updated := Product(shifted, a);
    ProductIsProduct(shifted, a);
    if Applicable(shifted, a) && IsValidState(updated)
    then Branches(updated, Split(updated, a.owner))
    else Blocked
  }

  ghost function Problem(
    enum: Enumeration, goal: FormulaValue, library: seq<ActionValue>): (dom: Domain<StateValue, ActionValue>) {
    Domain(s => IsGoal(goal, s), library, (s, a) => Expand(enum, s, a))
  }

  // What the search needs to know of the problem it is run on.
  ghost predicate Represents(
    dom: Domain<StateValue, ActionValue>, enum: Enumeration, goal: FormulaValue, library: seq<ActionValue>) {
    && dom.actions == library
    && (forall s :: dom.goal(s) <==> IsGoal(goal, s))
    && (forall s, a :: dom.expand(s, a) == Expand(enum, s, a))
  }

  lemma ProblemBranches(enum: Enumeration, goal: FormulaValue, library: seq<ActionValue>)
    ensures Represents(Problem(enum, goal, library), enum, goal, library)
    ensures Branching(Problem(enum, goal, library))
  {
  }

  // Every state in the tree is well-formed and has the same agents.
  ghost predicate StatesFit(nodes: seq<Node<StateValue, ActionValue>>, agents: nat) {
    forall i :: 0 <= i < |nodes| ==> nodes[i].state.Valid() && nodes[i].state.agents == agents
  }

  ghost predicate LibraryFits(library: seq<ActionValue>, agents: nat) {
    forall m :: 0 <= m < |library| ==> library[m].Valid(agents)
  }

  // ----- Expanding one node

  // The AND node for one action, and an OR node on the frontier for each outcome.
  method AddActionNode(graph: Graph<StateValue, ActionValue>, p: nat, action: ActionValue,
                       updated: StateValue, globals: seq<StateValue>)
    requires p < |graph.nodes|
    modifies graph
    ensures graph.nodes == Grown(old(graph.nodes), p, action, updated, globals)
    ensures graph.frontier == old(graph.frontier) + Ids(|old(graph.nodes)| + 1, |globals|)
  {
    ghost var nodes, frontier := graph.nodes, graph.frontier;
    var actionNode := graph.CreateAndNode(updated, p, action);
    assert graph.nodes == Grown(nodes, p, action, updated, []);
    for i := 0 to |globals|
      invariant graph.nodes == Grown(nodes, p, action, updated, globals[..i])
      invariant graph.frontier == frontier + Ids(|nodes| + 1, i)
    {
      GrownSnoc(nodes, p, action, updated, globals[..i], globals[i]);
      assert globals[..i + 1] == globals[..i] + [globals[i]];
      var node := graph.CreateOrNode(globals[i], actionNode);
      graph.AddToFrontier(node);
    }
    assert globals[..|globals|] == globals;
  }

  lemma GrownStatesFit(nodes: seq<Node<StateValue, ActionValue>>, p: nat, a: ActionValue, result: StateValue,
                       outcomes: seq<StateValue>, r: seq<Node<StateValue, ActionValue>>, agents: nat)
    requires Grows(nodes, p, a, result, outcomes, r) && StatesFit(nodes, agents)
    requires result.Valid() && result.agents == agents
    requires forall i :: 0 <= i < |outcomes| ==> outcomes[i].Valid() && outcomes[i].agents == agents
    ensures StatesFit(r, agents)
  {
    GrownNodes(nodes, p, a, result, outcomes, r);
  }

  // What one action does to a state, computed; None when it is not available.
  method TryAction(enum: Enumeration, s: StateValue, a: ActionValue) returns (e: Expansion<StateValue>)
    requires IsEnumeration(enum) && Fits(s, a)
    ensures e == Expand(enum, s, a)
    ensures e.Branches? ==> e.result.Valid() && e.result.agents == s.agents && e.outcomes != []
    ensures e.Branches? ==> forall i :: 0 <= i < |e.outcomes| ==> e.outcomes[i].Valid() && e.outcomes[i].agents == s.agents
  {
    var shifted := PerformPerspectiveShift(enum, s, a.owner);
    var applicable := IsActionApplicable(shifted, a);
    if !applicable {
      return Blocked;
    }
    var updated := PerformProductUpdate(shifted, a);
    if !IsValidState(updated) {
      return Blocked;
    }
    var globals := SplitIntoGlobalStates(updated, a.owner);
    SplitValid(updated, a.owner);
    e := Branches(updated, globals);
  }

  /** One iteration of the loop over the action library. */
  method ExpandAction(
    enum: Enumeration, ghost goal: FormulaValue, library: seq<ActionValue>,
    ghost dom: Domain<StateValue, ActionValue>,
    graph: Graph<StateValue, ActionValue>, ghost start: seq<Node<StateValue, ActionValue>>, p: nat, j: nat,
    ghost initial: StateValue, ghost steps: nat)
      returns (added: bool)
    requires IsEnumeration(enum) && Represents(dom, enum, goal, library) && j < |library|
    requires Midway(dom, graph.nodes, graph.frontier, p, j, initial, steps) && IsTried(dom, start, p, j, graph.nodes)
    requires StatesFit(graph.nodes, initial.agents) && LibraryFits(library, initial.agents)
    modifies graph
    ensures Midway(dom, graph.nodes, graph.frontier, p, j + 1, initial, steps)
    ensures StatesFit(graph.nodes, initial.agents)
    ensures graph.nodes[p].children != [] <==> added || old(graph.nodes[p].children) != []
    ensures IsTried(dom, start, p, j + 1, graph.nodes)
  {
    var e := TryAction(enum, graph.nodes[p].state, library[j]);
    added := AddExpansion(dom, graph, start, p, j, library[j], e, initial, steps);
  }

  // What was found for one action: nothing, or a node for it.
  method AddExpansion(
    ghost dom: Domain<StateValue, ActionValue>, graph: Graph<StateValue, ActionValue>,
    ghost start: seq<Node<StateValue, ActionValue>>, p: nat, ghost j: nat, action: ActionValue,
    e: Expansion<StateValue>, ghost initial: StateValue, ghost steps: nat)
      returns (added: bool)
    requires Midway(dom, graph.nodes, graph.frontier, p, j, initial, steps) && IsTried(dom, start, p, j, graph.nodes)
    requires StatesFit(graph.nodes, initial.agents) && j < |dom.actions| && action == dom.actions[j]
    requires e == dom.expand(graph.nodes[p].state, action)
    requires e.Branches? ==> e.result.Valid() && e.result.agents == initial.agents && e.outcomes != []
    requires e.Branches? ==> forall i :: 0 <= i < |e.outcomes| ==> e.outcomes[i].Valid() && e.outcomes[i].agents == initial.agents
    modifies graph
    ensures Midway(dom, graph.nodes, graph.frontier, p, j + 1, initial, steps)
    ensures StatesFit(graph.nodes, initial.agents)
    ensures graph.nodes[p].children != [] <==> added || old(graph.nodes[p].children) != []
    ensures IsTried(dom, start, p, j + 1, graph.nodes)
  {
    ghost var nodes, frontier := graph.nodes, graph.frontier;
    if e.Blocked? {
      TriedNext(dom, start, p, j, nodes);
      MidwaySkip(dom, nodes, frontier, p, j, initial, steps);
      return false;
    }
    AddActionNode(graph, p, action, e.result, e.outcomes);
    ActionAdded(dom, start, nodes, frontier, p, j, initial, steps, e, graph.nodes);
    return true;
  }

  lemma ActionAdded(
    dom: Domain<StateValue, ActionValue>, start: seq<Node<StateValue, ActionValue>>,
    nodes: seq<Node<StateValue, ActionValue>>, frontier: seq<nat>, p: nat, j: nat, initial: StateValue, steps: nat,
    e: Expansion<StateValue>, r: seq<Node<StateValue, ActionValue>>)
    requires Midway(dom, nodes, frontier, p, j, initial, steps) && IsTried(dom, start, p, j, nodes) && j < |dom.actions|
    requires StatesFit(nodes, initial.agents) && e == dom.expand(nodes[p].state, dom.actions[j]) && e.Branches?
    requires e.result.Valid() && e.result.agents == initial.agents && e.outcomes != []
    requires forall i :: 0 <= i < |e.outcomes| ==> e.outcomes[i].Valid() && e.outcomes[i].agents == initial.agents
    requires r == Grown(nodes, p, dom.actions[j], e.result, e.outcomes)
    ensures Midway(dom, r, frontier + Ids(|nodes| + 1, |e.outcomes|), p, j + 1, initial, steps)
    ensures StatesFit(r, initial.agents) && IsTried(dom, start, p, j + 1, r) && r[p].children != []
  {
    TriedNext(dom, start, p, j, nodes);
    MidwayTry(dom, nodes, frontier, p, j, initial, steps, e.result, e.outcomes, r);
    GrownStatesFit(nodes, p, dom.actions[j], e.result, e.outcomes, r, initial.agents);
    GrownFront(nodes, p, dom.actions[j], e.result, e.outcomes, r);
  }

  method ExpandNode(
    enum: Enumeration, ghost goal: FormulaValue, library: seq<ActionValue>,
    ghost dom: Domain<StateValue, ActionValue>,
    graph: Graph<StateValue, ActionValue>, p: nat, ghost initial: StateValue, ghost steps: nat)
      returns (found: bool)
    requires IsEnumeration(enum) && Represents(dom, enum, goal, library)
    requires Midway(dom, graph.nodes, graph.frontier, p, 0, initial, steps)
    requires StatesFit(graph.nodes, initial.agents) && LibraryFits(library, initial.agents)
    modifies graph
    ensures Midway(dom, graph.nodes, graph.frontier, p, |library|, initial, steps)
    ensures StatesFit(graph.nodes, initial.agents)
    ensures found <==> graph.nodes[p].children != []
    ensures IsTried(dom, old(graph.nodes), p, |library|, graph.nodes)
  {
    StartsChildless(dom, graph.nodes, p);
    found := TryAll(enum, goal, library, dom, graph, graph.nodes, p, initial, steps);
  }

  method TryAll(
    enum: Enumeration, ghost goal: FormulaValue, library: seq<ActionValue>,
    ghost dom: Domain<StateValue, ActionValue>,
    graph: Graph<StateValue, ActionValue>, ghost start: seq<Node<StateValue, ActionValue>>, p: nat,
    ghost initial: StateValue, ghost steps: nat)
      returns (found: bool)
    requires IsEnumeration(enum) && Represents(dom, enum, goal, library)
    requires Midway(dom, graph.nodes, graph.frontier, p, 0, initial, steps) && IsTried(dom, start, p, 0, graph.nodes)
    requires StatesFit(graph.nodes, initial.agents) && LibraryFits(library, initial.agents)
    requires graph.nodes[p].children == []
    modifies graph
    ensures Midway(dom, graph.nodes, graph.frontier, p, |library|, initial, steps)
    ensures StatesFit(graph.nodes, initial.agents) && IsTried(dom, start, p, |library|, graph.nodes)
    ensures found <==> graph.nodes[p].children != []
  {
    found := false;
    for j := 0 to |library|
      invariant Midway(dom, graph.nodes, graph.frontier, p, j, initial, steps)
      invariant StatesFit(graph.nodes, initial.agents)
      invariant found <==> graph.nodes[p].children != []
      invariant IsTried(dom, start, p, j, graph.nodes)
    {
      var added := ExpandAction(enum, goal, library, dom, graph, start, p, j, initial, steps);
      found := found || added;
    }
  }

  lemma StartsChildless<S, A>(dom: Domain<S, A>, nodes: seq<Node<S, A>>, p: nat)
    requires Growth.Expanding(dom, nodes, p, 0)
    ensures nodes[p].children == []
  {
    assert OrExact(dom, nodes, p, 0, p);
  }

  // ----- The search

  // Exhausted is the exit for an empty frontier, OutOfFuel the model's own bound on the steps.
  datatype Verdict = Solved | Unsolved | Exhausted | OutOfFuel

  // What each verdict promises about the initial state.
  ghost predicate Exactly(dom: Domain<StateValue, ActionValue>, initial: StateValue, fuel: nat, verdict: Verdict) {
    match verdict
    case Solved => SolvableAtSomeDepth(dom, initial)
    case Unsolved => DoomedAtSomeDepth(dom, initial) && Hopeless(dom, initial)
    case Exhausted => false
    case OutOfFuel => forall k: nat :: Decided(dom, initial, k) ==> fuel < TreeSize(dom, initial, k)
  }

  method IsGoalNode(goal: FormulaValue, s: StateValue) returns (isGoal: bool)
    requires goal.Valid() && s.Valid()
    ensures isGoal <==> IsGoal(goal, s)
  {
    isGoal := s.Satisfies(goal);
  }

  method BuildPolicy(entries: seq<PolicyEntry>) returns (policy: Policy)
    ensures fresh(policy) && policy.solved && policy.entries == entries
  {
    policy := new Policy(true);
    for n := 0 to |entries|
      invariant policy.solved && policy.entries == entries[..n]
    {
      policy.AddPolicyEntry(entries[n].state, entries[n].action);
    }
    assert entries[..|entries|] == entries;
  }

  lemma TreeEntriesValid(nodes: seq<Node<StateValue, ActionValue>>, entries: seq<PolicyEntry>, agents: nat)
    requires StatesFit(nodes, agents) && EntriesFromTree(nodes, entries)
    ensures EntriesValid(entries)
  {
  }

  method Extract(
    ghost dom: Domain<StateValue, ActionValue>, graph: Graph<StateValue, ActionValue>, ghost lo: nat,
    ghost agents: nat)
      returns (policy: Policy, ghost rank: seq<nat>)
    requires Exact(dom, graph.nodes, lo, 0) && Labelled(dom, graph.nodes, lo) && graph.nodes[0].solved
    requires StatesFit(graph.nodes, agents)
    ensures fresh(policy) && policy.solved && EntriesValid(policy.entries)
    ensures ClosedPolicy(dom, policy.entries, rank)
    ensures Covered(dom, policy.entries, rank, graph.nodes[0].state, 0)
    ensures policy.entries == PolicyOf(graph.nodes)
  {
    var entries;
    entries, rank := ExtractPolicy(dom, graph, lo);
    TreeEntriesValid(graph.nodes, entries, agents);
    policy := BuildPolicy(entries);
  }

  // How one step leaves the search: finished with a verdict, or ready for the next step.
  datatype Progress = Finished(verdict: Verdict) | Continue

  ghost predicate StepOutcome(dom: Domain<StateValue, ActionValue>, nodes: seq<Node<StateValue, ActionValue>>, frontier: seq<nat>,
                              lo: nat, initial: StateValue, steps: nat, progress: Progress) {
    match progress
    case Continue => Ready(dom, nodes, frontier, lo, initial, steps)
    case Finished(Solved) =>
      Exact(dom, nodes, lo, 0) && Labelled(dom, nodes, lo) && nodes[0].solved && nodes[0].state == initial
    case Finished(Unsolved) =>
      Exact(dom, nodes, lo, 0) && Labelled(dom, nodes, lo) && nodes[0].dead && nodes[0].state == initial
    case Finished(Exhausted) => false
    case Finished(OutOfFuel) => false
  }

  // The popped node satisfies the goal.
  method SolveNode(ghost dom: Domain<StateValue, ActionValue>, graph: Graph<StateValue, ActionValue>, current: nat,
                   ghost initial: StateValue, ghost steps: nat) returns (progress: Progress)
    requires Popped(dom, graph.nodes, graph.frontier, current, initial, steps) && dom.goal(graph.nodes[current].state)
    modifies graph`nodes
    ensures SameTree(old(graph.nodes), graph.nodes)
    ensures StepOutcome(dom, graph.nodes, graph.frontier, current + 1, initial, steps, progress)
  {
    ghost var before := graph.nodes;
    CloseSolved(dom, before, current);
    PropagateSolvedNode(dom, graph, current, current + 1);
    RootKept(before, graph.nodes);
    if graph.nodes[0].solved {
      return Finished(Solved);
    }
    PropagatedReady(dom, before, graph.nodes, graph.frontier, current, initial, steps);
    return Continue;
  }

  lemma RootKept(nodes: seq<Node<StateValue, ActionValue>>, r: seq<Node<StateValue, ActionValue>>)
    requires SameTree(nodes, r) && |nodes| > 0
    ensures |r| > 0 && r[0].state == nodes[0].state
  {
    assert SameNode(nodes[0], r[0]);
  }

  // The expanded node has no children.
  method KillNode(ghost dom: Domain<StateValue, ActionValue>, graph: Graph<StateValue, ActionValue>, current: nat,
                  ghost initial: StateValue, ghost steps: nat) returns (progress: Progress)
    requires Midway(dom, graph.nodes, graph.frontier, current, |dom.actions|, initial, steps)
    requires graph.nodes[current].children == []
    modifies graph`nodes
    ensures SameTree(old(graph.nodes), graph.nodes)
    ensures StepOutcome(dom, graph.nodes, graph.frontier, current + 1, initial, steps, progress)
  {
    ghost var before := graph.nodes;
    CloseDeadEnd(dom, before, current);
    MidwayBudget(dom, before, graph.frontier, current, initial, steps);
    PropagateDeadEndNode(dom, graph, current, current + 1);
    RootKept(before, graph.nodes);
    if graph.nodes[0].dead {
      return Finished(Unsolved);
    }
    PropagatedReady(dom, before, graph.nodes, graph.frontier, current, initial, steps);
    return Continue;
  }

  lemma SameTreeStatesFit(nodes: seq<Node<StateValue, ActionValue>>, r: seq<Node<StateValue, ActionValue>>, agents: nat)
    requires SameTree(nodes, r) && StatesFit(nodes, agents)
    ensures StatesFit(r, agents)
  {
    forall i: nat | i < |r|
      ensures r[i].state.Valid() && r[i].state.agents == agents
    {
      assert SameNode(nodes[i], r[i]);
    }
  }

  // The iteration for the node that was popped.
  method ProcessNode(enum: Enumeration, goal: FormulaValue, library: seq<ActionValue>, ghost dom: Domain<StateValue, ActionValue>,
                     graph: Graph<StateValue, ActionValue>, current: nat, ghost initial: StateValue, ghost steps: nat)
      returns (progress: Progress)
    requires IsEnumeration(enum) && goal.Valid() && Represents(dom, enum, goal, library) && Branching(dom)
    requires Popped(dom, graph.nodes, graph.frontier, current, initial, steps)
    requires StatesFit(graph.nodes, initial.agents) && LibraryFits(library, initial.agents)
    modifies graph
    ensures StatesFit(graph.nodes, initial.agents)
    ensures StepOutcome(dom, graph.nodes, graph.frontier, current + 1, initial, steps, progress)
    ensures IsClosed(dom, old(graph.nodes), current, graph.nodes)
  {
    var isGoal := IsGoalNode(goal, graph.nodes[current].state);
    if isGoal {
      ghost var before := graph.nodes;
      progress := SolveNode(dom, graph, current, initial, steps);
      SameTreeStatesFit(before, graph.nodes, initial.agents);
      return;
    }
    PoppedMidway(dom, graph.nodes, graph.frontier, current, initial, steps);
    var found := ExpandNode(enum, goal, library, dom, graph, current, initial, steps);
    if found {
      MidwayDone(dom, graph.nodes, graph.frontier, current, initial, steps);
      progress := Continue;
    } else {
      ghost var before := graph.nodes;
      progress := KillNode(dom, graph, current, initial, steps);
      SameTreeStatesFit(before, graph.nodes, initial.agents);
    }
  }

  // The node the search looks at next.
  method PopNode(ghost dom: Domain<StateValue, ActionValue>, graph: Graph<StateValue, ActionValue>,
                 ghost lo: nat, ghost initial: StateValue, ghost steps: nat)
      returns (current: nat)
    requires Ready(dom, graph.nodes, graph.frontier, lo, initial, steps) && graph.frontier != []
    modifies graph`frontier
    ensures Popped(dom, graph.nodes, graph.frontier, current, initial, steps + 1)
    ensures IsOldest(graph.nodes, lo, current)
  {
    PopNext(dom, graph.nodes, graph.frontier, lo, initial, steps);
    FrontierFirst(graph.nodes, graph.frontier, lo);
    current := graph.GetNextFromFrontier();
    FirstOrIs(graph.nodes, lo, current);
  }

  /** One iteration of the search loop, for a frontier that is not empty: the oldest open
      node is taken and closed. */
  method SearchStep(enum: Enumeration, goal: FormulaValue, library: seq<ActionValue>, ghost dom: Domain<StateValue, ActionValue>,
                    graph: Graph<StateValue, ActionValue>, ghost lo: nat, ghost initial: StateValue, ghost steps: nat)
      returns (progress: Progress, ghost current: nat)
    requires IsEnumeration(enum) && goal.Valid() && Represents(dom, enum, goal, library) && Branching(dom)
    requires Ready(dom, graph.nodes, graph.frontier, lo, initial, steps) && graph.frontier != []
    requires StatesFit(graph.nodes, initial.agents) && LibraryFits(library, initial.agents)
    modifies graph
    ensures StatesFit(graph.nodes, initial.agents)
    ensures StepOutcome(dom, graph.nodes, graph.frontier, current + 1, initial, steps + 1, progress)
    ensures IsOldest(old(graph.nodes), lo, current) && IsClosed(dom, old(graph.nodes), current, graph.nodes)
  {
    var node := PopNode(dom, graph, lo, initial, steps);
    current := node;
    progress := ProcessNode(enum, goal, library, dom, graph, node, initial, steps + 1);
  }

  // A search that has labelled the root has stopped where the run stops, with its tree.
  ghost predicate Outcome(
    dom: Domain<StateValue, ActionValue>, initial: StateValue, fuel: nat, verdict: Verdict,
    entries: seq<PolicyEntry>) {
    exists n: nat, nodes: seq<Node<StateValue, ActionValue>> ::
      n <= fuel && Stops(dom, initial, n, nodes) && OutcomeIs(nodes, verdict, entries)
  }

  ghost predicate OutcomeIs(nodes: seq<Node<StateValue, ActionValue>>, verdict: Verdict, entries: seq<PolicyEntry>) {
    && Shape(nodes)
    && (verdict == Solved ==> nodes[0].solved && entries == PolicyOf(nodes))
    && (verdict == Unsolved ==> nodes[0].dead)
  }

  lemma StepsOpen(dom: Domain<StateValue, ActionValue>, nodes: seq<Node<StateValue, ActionValue>>, frontier: seq<nat>, lo: nat,
                  initial: StateValue, n: nat, current: nat, r: seq<Node<StateValue, ActionValue>>)
    requires Ready(dom, nodes, frontier, lo, initial, n) && IsOldest(nodes, lo, current) && IsClosed(dom, nodes, current, r)
    ensures Steps(dom, Snapshot(nodes, lo), Snapshot(r, current + 1))
  {
  }

  method Search(enum: Enumeration, goal: FormulaValue, library: seq<ActionValue>, ghost dom: Domain<StateValue, ActionValue>,
                initial: StateValue, fuel: nat)
      returns (verdict: Verdict, policy: Policy, ghost rank: seq<nat>)
    requires IsEnumeration(enum) && goal.Valid() && initial.Valid()
    requires Represents(dom, enum, goal, library) && Branching(dom) && LibraryFits(library, initial.agents)
    ensures Exactly(dom, initial, fuel, verdict)
    ensures policy.solved <==> verdict == Solved
    ensures verdict == Solved ==> ClosedPolicy(dom, policy.entries, rank) && Covered(dom, policy.entries, rank, initial, 0)
    ensures EntriesValid(policy.entries)
    ensures verdict != OutOfFuel ==> Outcome(dom, initial, fuel, verdict, policy.entries)
  {
    var graph := new Graph<StateValue, ActionValue>();
    var root := graph.CreateRootNode(initial);
    graph.AddToFrontier(root);
    assert graph.nodes == [OrNode(initial, 0, true)] && graph.frontier == [0];
    StartReady(dom, initial);
    HistoryStart(dom, initial);
    ghost var lo: nat := 0;
    ghost var log := [Snapshot(graph.nodes, 0)];
    rank := [];
    for steps := 0 to fuel
      invariant fresh(graph)
      invariant Ready(dom, graph.nodes, graph.frontier, lo, initial, steps)
      invariant StatesFit(graph.nodes, initial.agents)
      invariant IsHistory(dom, initial, log) && |log| == steps + 1 && log[steps] == Snapshot(graph.nodes, lo)
    {
      if graph.frontier == [] {
        FrontierNotEmpty(dom, graph.nodes, graph.frontier, lo);
        policy := new Policy(false);
        return Exhausted, policy, [];
      }
      ghost var nodes, frontier := graph.nodes, graph.frontier;
      var progress;
      ghost var current;
      progress, current := SearchStep(enum, goal, library, dom, graph, lo, initial, steps);
      StepsOpen(dom, nodes, frontier, lo, initial, steps, current, graph.nodes);
      lo := current + 1;
      HistoryNext(dom, initial, log, Snapshot(graph.nodes, lo));
      log := log + [Snapshot(graph.nodes, lo)];
      if progress.Finished? {
        verdict, policy, rank := Conclude(dom, graph, lo, initial, log, fuel, progress.verdict);
        return;
      }
    }
    FrontierNotEmpty(dom, graph.nodes, graph.frontier, lo);
    PopNext(dom, graph.nodes, graph.frontier, lo, initial, fuel);
    policy := new Policy(false);
    verdict := OutOfFuel;
  }

  // The root has its label.
  method Conclude(ghost dom: Domain<StateValue, ActionValue>, graph: Graph<StateValue, ActionValue>, ghost lo: nat,
                  ghost initial: StateValue, ghost log: seq<Snapshot<StateValue, ActionValue>>, ghost fuel: nat, found: Verdict)
      returns (verdict: Verdict, policy: Policy, ghost rank: seq<nat>)
    requires StatesFit(graph.nodes, initial.agents) && 0 < |log| <= fuel + 1
    requires StepOutcome(dom, graph.nodes, graph.frontier, lo, initial, |log| - 1, Finished(found))
    requires IsHistory(dom, initial, log) && log[|log| - 1] == Snapshot(graph.nodes, lo)
    ensures verdict == found && Exactly(dom, initial, fuel, verdict)
    ensures policy.solved <==> verdict == Solved
    ensures verdict == Solved ==> ClosedPolicy(dom, policy.entries, rank) && Covered(dom, policy.entries, rank, initial, 0)
    ensures EntriesValid(policy.entries)
    ensures Outcome(dom, initial, fuel, verdict, policy.entries)
  {
    verdict := found;
    ghost var nodes := graph.nodes;
    HistoryStops(dom, initial, log);
    if found == Solved {
      SolvedRoot(dom, nodes, lo, initial);
      policy, rank := Extract(dom, graph, lo, initial.agents);
    } else {
      DeadRoot(dom, nodes, lo, initial);
      ghost var k: nat :| Doomed(dom, initial, k);
      forall l: nat
        ensures !Solvable(dom, initial, l)
      {
        DoomedIsHopeless(dom, initial, k, l);
      }
      policy := new Policy(false);
      rank := [];
    }
    assert OutcomeIs(nodes, verdict, policy.entries);
  }

  /** The verdict is exact: Solved says that a strategy exists, Unsolved that a refutation
      exists and so no strategy, and whichever exists at depth k, one of them is returned
      within TreeSize(initial, k) steps.  The policy is a function of the problem. */
  method FindPolicy(enum: Enumeration, goal: FormulaValue, library: seq<ActionValue>, initial: StateValue, fuel: nat)
      returns (verdict: Verdict, policy: Policy, ghost rank: seq<nat>)
    requires IsEnumeration(enum) && goal.Valid() && initial.Valid()
    requires LibraryFits(library, initial.agents)
    ensures Exactly(Problem(enum, goal, library), initial, fuel, verdict)
    ensures policy.solved <==> verdict == Solved
    ensures verdict == Solved ==> ClosedPolicy(Problem(enum, goal, library), policy.entries, rank)
    ensures verdict == Solved ==> Covered(Problem(enum, goal, library), policy.entries, rank, initial, 0)
    ensures EntriesValid(policy.entries)
    ensures verdict != OutOfFuel ==> Outcome(Problem(enum, goal, library), initial, fuel, verdict, policy.entries)
  {
    ProblemBranches(enum, goal, library);
    verdict, policy, rank := Search(enum, goal, library, Problem(enum, goal, library), initial, fuel);
  }
}
