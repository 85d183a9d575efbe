/** The planner's own policy on a tame problem: its entries are for tame states, so the
    equivalences up to bisimilarity hold for it. */
module TamePlans {
  import opened Actions
  import opened AndOr
  import opened Bisimulation
  import opened BreadthFirst
  import opened ExpandBisimilarity
  import opened Extraction
  import opened Formulas
  import opened Growth
  import opened PerspectiveShifts
  import opened Planner
  import opened Policies
  import opened PolicyClasses
  import opened PolicyRuns
  import opened SearchRuns
  import opened States

  // ----- What holds of the initial state and is kept holds all over the tree

  ghost predicate KeptBy<S(!new), A(!new)>(dom: Domain<S, A>, keep: S -> bool) {
    forall s, a :: keep(s) && a in dom.actions ==> KeptIn(dom.expand(s, a), keep)
  }

  ghost predicate KeptIn<S(!new)>(e: Expansion<S>, keep: S -> bool) {
    e.Branches? ==> forall i: nat :: i < |e.outcomes| ==> keep(e.outcomes[i])
  }

  ghost predicate OrStatesKept<S(!new), A(!new)>(nodes: seq<Node<S, A>>, keep: S -> bool) {
    forall i: nat :: i < |nodes| && nodes[i].kind.Or? ==> keep(nodes[i].state)
  }

  lemma TryKeeps<S(!new), A(!new)>(dom: Domain<S, A>, nodes: seq<Node<S, A>>, p: nat, j: nat, keep: S -> bool)
    requires KeptBy(dom, keep) && OrStatesKept(nodes, keep) && p < |nodes| && nodes[p].kind.Or? && j < |dom.actions|
    ensures OrStatesKept(Try(dom, nodes, p, j), keep) && Try(dom, nodes, p, j)[p].kind.Or?
  {
    var e := dom.expand(nodes[p].state, dom.actions[j]);
    assert KeptIn(e, keep);
    if e.Branches? {
      var r := Grown(nodes, p, dom.actions[j], e.result, e.outcomes);
      GrownNodes(nodes, p, dom.actions[j], e.result, e.outcomes, r);
      forall i: nat | i < |r| && r[i].kind.Or?
        ensures keep(r[i].state)
      {
        assert i > |nodes| ==> r[i] == OrNode(e.outcomes[i - |nodes| - 1], |nodes|, false);
      }
    }
  }

  lemma {:induction false} TriedKeeps<S(!new), A(!new)>(
    dom: Domain<S, A>, nodes: seq<Node<S, A>>, p: nat, j: nat, keep: S -> bool)
    requires KeptBy(dom, keep) && OrStatesKept(nodes, keep) && p < |nodes| && nodes[p].kind.Or? && j <= |dom.actions|
    ensures OrStatesKept(Tried(dom, nodes, p, j), keep) && Tried(dom, nodes, p, j)[p].kind.Or?
    decreases j
  {
    if j > 0 {
      TriedKeeps(dom, nodes, p, j - 1, keep);
      TryKeeps(dom, Tried(dom, nodes, p, j - 1), p, j - 1, keep);
    }
  }

  lemma {:induction false} AfterKeeps<S(!new), A(!new)>(dom: Domain<S, A>, initial: S, n: nat, keep: S -> bool)
    requires KeptBy(dom, keep) && keep(initial)
    ensures OrStatesKept(After(dom, initial, n).nodes, keep)
    decreases n
  {
    if n > 0 {
      AfterKeeps(dom, initial, n - 1, keep);
      PopKeeps(dom, After(dom, initial, n - 1), keep);
    }
  }

  lemma PopKeeps<S(!new), A(!new)>(dom: Domain<S, A>, s: Snapshot<S, A>, keep: S -> bool)
    requires KeptBy(dom, keep) && s.lo <= |s.nodes| && OrStatesKept(s.nodes, keep)
    ensures OrStatesKept(Pop(dom, s).nodes, keep)
  {
    var p := FirstOr(s.nodes, s.lo);
    if p < |s.nodes| {
      TriedKeeps(dom, s.nodes, p, |dom.actions|, keep);
    }
  }

  lemma SameTreeKept<S(!new), A(!new)>(nodes: seq<Node<S, A>>, r: seq<Node<S, A>>, keep: S -> bool)
    requires SameTree(nodes, r) && OrStatesKept(nodes, keep)
    ensures OrStatesKept(r, keep)
  {
    forall i: nat | i < |r| && r[i].kind.Or?
      ensures keep(r[i].state)
    {
      assert SameNode(nodes[i], r[i]);
    }
  }

  // ----- And of the entries

  ghost predicate EntriesKept<S(!new), A(!new)>(entries: seq<Entry<S, A>>, keep: S -> bool) {
    forall n: nat :: n < |entries| ==> keep(entries[n].state)
  }

  lemma {:induction false} BelowKept<S(!new), A(!new)>(nodes: seq<Node<S, A>>, x: nat, keep: S -> bool)
    requires Shape(nodes) && x < |nodes| && OrStatesKept(nodes, keep)
    ensures EntriesKept(EntriesBelow(nodes, x), keep)
    decreases |nodes| - x, 0
  {
    ChildrenInTree(nodes, x);
    BelowAllKept(nodes, x, SolvedChildren(nodes, x), keep);
    OwnKept(nodes, x, keep);
    BelowIs(nodes, x);
  }

  lemma BelowIs<S, A>(nodes: seq<Node<S, A>>, x: nat)
    requires Shape(nodes) && x < |nodes| && InTree(nodes, nodes[x].children)
    ensures EntriesBelow(nodes, x) == OwnEntry(nodes, x) + EntriesBelowAll(nodes, x, SolvedChildren(nodes, x))
  {
  }

  lemma OwnKept<S(!new), A(!new)>(nodes: seq<Node<S, A>>, x: nat, keep: S -> bool)
    requires Shape(nodes) && x < |nodes| && OrStatesKept(nodes, keep)
    ensures EntriesKept(OwnEntry(nodes, x), keep)
  {
    if nodes[x].kind.And? {
      assert ParentFits(nodes, x);
    }
  }

  lemma {:induction false} BelowAllKept<S(!new), A(!new)>(nodes: seq<Node<S, A>>, x: nat, ids: seq<nat>, keep: S -> bool)
    requires Shape(nodes) && x < |nodes| && InTree(nodes, ids) && OrStatesKept(nodes, keep)
    ensures EntriesKept(EntriesBelowAll(nodes, x, ids), keep)
    decreases |nodes| - x - 1, |ids| + 1
  {
    if ids != [] {
      var c := ids[|ids| - 1];
      BelowAllKept(nodes, x, ids[..|ids| - 1], keep);
      if x < c {
        BelowKept(nodes, c, keep);
      }
    }
  }

  /** Every entry of the policy that the planner returns is for a state with the property. */
  lemma PolicyKept(
    dom: Domain<StateValue, ActionValue>, initial: StateValue, fuel: nat, entries: seq<PolicyEntry>,
    keep: StateValue -> bool)
    requires KeptBy(dom, keep) && keep(initial) && Outcome(dom, initial, fuel, Solved, entries)
    ensures EntriesKept(entries, keep)
  {
    var n: nat, nodes: seq<Node<StateValue, ActionValue>> :|
      n <= fuel && Stops(dom, initial, n, nodes) && OutcomeIs(nodes, Solved, entries);
    AfterKeeps(dom, initial, n, keep);
    SameTreeKept(After(dom, initial, n).nodes, nodes, keep);
    BelowKept(nodes, 0, keep);
  }

  // ----- The planner's policy

  lemma TameKept(enum: Enumeration, goal: FormulaValue, library: seq<ActionValue>, tame: StateValue -> bool)
    requires IsTame(enum, library, tame)
    ensures KeptBy(Problem(enum, goal, library), tame)
  {
    var dom := Problem(enum, goal, library);
    forall s, a | tame(s) && a in dom.actions
      ensures KeptIn(dom.expand(s, a), tame)
    {
      assert TameFor(enum, tame, s, a);
      var e := Expand(enum, s, a);
      assert e.Branches? ==> forall i: nat :: i < |e.outcomes| ==> e.outcomes[i] in e.outcomes;
    }
  }

  lemma ClosedActions(dom: Domain<StateValue, ActionValue>, entries: seq<PolicyEntry>, rank: seq<nat>)
    requires ClosedPolicy(dom, entries, rank)
    ensures ActionsFrom(entries, dom.actions)
  {
    forall n: nat | n < |entries|
      ensures entries[n].action in dom.actions
    {
      assert EntryCloses(dom, entries, rank, n);
    }
  }

  /** The policy that the planner returns for a tame problem leads to the goal, from the
      initial state and from every tame state bisimilar to it, if and only if it does within
      as many actions as it has entries, and if and only if the classes of its states can be
      ranked; this needs only that the key confuses no two of its entries. */
  lemma PlanLeadsUpToBisimilarity(
    enum: Enumeration, goal: FormulaValue, library: seq<ActionValue>, initial: StateValue, fuel: nat,
    entries: seq<PolicyEntry>, rank: seq<nat>, tame: StateValue -> bool, s: StateValue)
    requires IsEnumeration(enum) && goal.Valid() && IsTame(enum, library, tame) && ValidOnly(tame)
    requires tame(initial) && tame(s) && Bisimilar(ByValuation, initial, s)
    requires Outcome(Problem(enum, goal, library), initial, fuel, Solved, entries) && KeyTells(entries)
    requires ClosedPolicy(Problem(enum, goal, library), entries, rank)
    requires Covered(Problem(enum, goal, library), entries, rank, initial, 0)
    ensures ReachesGoal(Problem(enum, goal, library), ByBisimilarity(entries), s)
       <==> CarriesOut(Problem(enum, goal, library), ByBisimilarity(entries), s, |entries|)
    ensures ReachesGoal(Problem(enum, goal, library), ByBisimilarity(entries), s)
       <==> HasClassRanks(Problem(enum, goal, library), ByBisimilarity(entries), entries, TameLikeness(tame), s)
  {
    var dom := Problem(enum, goal, library);
    TameKept(enum, goal, library, tame);
    PolicyKept(dom, initial, fuel, entries, tame);
    ClosedActions(dom, entries, rank);
    InitialForeseen(enum, goal, library, entries, rank, tame, initial, s);
    PolicyLeadsUpToBisimilarity(enum, goal, library, entries, rank, tame, s);
  }

  lemma InitialForeseen(
    enum: Enumeration, goal: FormulaValue, library: seq<ActionValue>, entries: seq<PolicyEntry>, rank: seq<nat>,
    tame: StateValue -> bool, initial: StateValue, s: StateValue)
    requires goal.Valid() && ValidOnly(tame) && tame(initial) && tame(s) && Bisimilar(ByValuation, initial, s)
    requires Covered(Problem(enum, goal, library), entries, rank, initial, 0)
    ensures Foreseen(Problem(enum, goal, library), entries, TameLikeness(tame), s)
  {
    BisimilarStatesAgree(initial, s, goal);
    assert TameLikeness(tame)(initial, s);
  }
}
