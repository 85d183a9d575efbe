/** The invariant of the search loop and how each part of an iteration keeps it. */
module SearchLoop {
  import opened AndOr
  import opened BreadthFirst
  import opened Growth

  ghost predicate AllBudgeted<S(!new), A(!new)>(dom: Domain<S, A>, nodes: seq<Node<S, A>>, frontier: seq<nat>, steps: nat) {
    forall k: nat :: Budgeted(dom, nodes, frontier, steps, k)
  }

  ghost predicate AllBudgetedAt<S(!new), A(!new)>(
    dom: Domain<S, A>, nodes: seq<Node<S, A>>, frontier: seq<nat>, steps: nat, p: nat, j: nat) {
    forall k: nat :: BudgetedAt(dom, nodes, frontier, steps, p, j, k)
  }

  ghost predicate RootOpen<S, A>(nodes: seq<Node<S, A>>, initial: S) {
    |nodes| > 0 && !nodes[0].solved && !nodes[0].dead && nodes[0].state == initial
  }

  /** At the head of the loop: an exact tree with the least labelling, a sorted
      frontier, an unlabelled root, and no more steps taken than any strategy allows. */
  ghost predicate Ready<S(!new), A(!new)>(
    dom: Domain<S, A>, nodes: seq<Node<S, A>>, frontier: seq<nat>, lo: nat, initial: S, steps: nat) {
    && Searching(dom, nodes, frontier, lo)
    && RootOpen(nodes, initial)
    && AllBudgeted(dom, nodes, frontier, steps)
  }

  // While node p is being expanded, with j actions tried.
  ghost predicate Midway<S(!new), A(!new)>(
    dom: Domain<S, A>, nodes: seq<Node<S, A>>, frontier: seq<nat>, p: nat, j: nat, initial: S, steps: nat) {
    && Expanding(dom, nodes, p, j)
    && FrontierIs(nodes, frontier, p + 1) && Ordered(nodes) && Spread(nodes, p)
    && RootOpen(nodes, initial)
    && AllBudgetedAt(dom, nodes, frontier, steps, p, j)
  }

  lemma StartReady<S(!new), A(!new)>(dom: Domain<S, A>, initial: S)
    ensures Ready(dom, [OrNode(initial, 0, true)], [0], 0, initial, 0)
  {
    var nodes: seq<Node<S, A>> := [OrNode(initial, 0, true)];
    var frontier: seq<nat> := [0];
    assert forall i: nat, c: nat :: !Child(nodes, i, c);
    assert OrExact(dom, nodes, 0, 0, 0);
    assert SolvedOk(dom, nodes, 0, 0) && DeadOk(dom, nodes, 0, 0);
    assert FrontierIs(nodes, frontier, 0);
    forall k: nat
      ensures Budgeted(dom, nodes, frontier, 0, k)
    {
      assert frontier == [] + [0];
      PotentialSnoc(dom, nodes, k, [], 0);
    }
  }

  lemma RestFrontier<S, A>(nodes: seq<Node<S, A>>, frontier: seq<nat>, lo: nat)
    requires FrontierIs(nodes, frontier, lo) && frontier != []
    ensures FrontierIs(nodes, frontier[1..], frontier[0] + 1)
  {
    FrontierFirst(nodes, frontier, lo);
    var rest := frontier[1..];
    assert frontier == [frontier[0]] + rest;
    forall x: nat
      ensures x in rest <==> frontier[0] + 1 <= x < |nodes| && nodes[x].kind.Or?
    {
      assert x in frontier <==> x == frontier[0] || x in rest;
      if x in rest {
        var i :| 0 <= i < |rest| && rest[i] == x;
        assert frontier[0] < frontier[i + 1];
      }
    }
  }

  // The popped node becomes the lower end of the open nodes: nothing lies between.
  lemma RaiseLow<S, A>(dom: Domain<S, A>, nodes: seq<Node<S, A>>, lo: nat, p: nat)
    requires Exact(dom, nodes, lo, 0) && Labelled(dom, nodes, lo)
    requires lo <= p < |nodes| && nodes[p].kind.Or?
    requires forall n: nat :: lo <= n < |nodes| && nodes[n].kind.Or? ==> p <= n
    ensures Exact(dom, nodes, p, 0) && Labelled(dom, nodes, p)
  {
    forall i: nat | i < |nodes| && nodes[i].kind.Or?
      ensures OrExact(dom, nodes, p, 0, i)
    {
      assert OrExact(dom, nodes, lo, 0, i);
    }
    forall i: nat | i < |nodes|
      ensures SolvedOk(dom, nodes, p, i) && DeadOk(dom, nodes, p, i)
    {
      assert SolvedOk(dom, nodes, lo, i) && DeadOk(dom, nodes, lo, i);
    }
  }

  // Node p has just left the frontier and is neither closed nor expanded.
  ghost predicate Popped<S(!new), A(!new)>(
    dom: Domain<S, A>, nodes: seq<Node<S, A>>, frontier: seq<nat>, p: nat, initial: S, steps: nat) {
    && p < |nodes| && nodes[p].kind.Or?
    && Exact(dom, nodes, p, 0) && Labelled(dom, nodes, p)
    && FrontierIs(nodes, frontier, p + 1) && Ordered(nodes) && Spread(nodes, p)
    && RootOpen(nodes, initial)
    && (if dom.goal(nodes[p].state) then AllBudgeted(dom, nodes, frontier, steps)
        else AllBudgetedAt(dom, nodes, frontier, steps, p, 0))
  }

  lemma PoppedMidway<S(!new), A(!new)>(
    dom: Domain<S, A>, nodes: seq<Node<S, A>>, frontier: seq<nat>, p: nat, initial: S, steps: nat)
    requires Popped(dom, nodes, frontier, p, initial, steps) && !dom.goal(nodes[p].state)
    ensures Midway(dom, nodes, frontier, p, 0, initial, steps)
  {
  }

  /** Popping the next node, which is no deeper than any strategy or refutation is long. */
  lemma PopNext<S(!new), A(!new)>(dom: Domain<S, A>, nodes: seq<Node<S, A>>, frontier: seq<nat>, lo: nat, initial: S, steps: nat)
    requires Ready(dom, nodes, frontier, lo, initial, steps) && frontier != []
    ensures frontier[0] < |nodes|
    ensures Popped(dom, nodes, frontier[1..], frontier[0], initial, steps + 1)
    ensures forall k: nat :: Decided(dom, initial, k) ==> Depth(nodes, frontier[0]) <= k && steps < TreeSize(dom, initial, k)
  {
    FrontierFirst(nodes, frontier, lo);
    RaiseLow(dom, nodes, lo, frontier[0]);
    RestFrontier(nodes, frontier, lo);
    var p, rest, next: nat := frontier[0], frontier[1..], steps + 1;
    forall k: nat | Decided(dom, initial, k)
      ensures Depth(nodes, p) <= k && steps < TreeSize(dom, initial, k)
    {
      assert Budgeted(dom, nodes, frontier, steps, k);
      BudgetPop(dom, nodes, frontier, lo, steps, k);
      PopsShallow(dom, nodes, frontier, lo, k);
    }
    if dom.goal(nodes[p].state) {
      forall k: nat
        ensures Budgeted(dom, nodes, rest, next, k)
      {
        assert Budgeted(dom, nodes, frontier, steps, k);
        BudgetPop(dom, nodes, frontier, lo, steps, k);
      }
    } else {
      forall k: nat
        ensures BudgetedAt(dom, nodes, rest, next, p, 0, k)
      {
        assert Budgeted(dom, nodes, frontier, steps, k);
        BudgetPop(dom, nodes, frontier, lo, steps, k);
      }
    }
  }

  lemma MidwayTry<S(!new), A(!new)>(
    dom: Domain<S, A>, nodes: seq<Node<S, A>>, frontier: seq<nat>, p: nat, j: nat, initial: S, steps: nat,
    result: S, outcomes: seq<S>, r: seq<Node<S, A>>)
    requires Midway(dom, nodes, frontier, p, j, initial, steps)
    requires Tries(dom, nodes, p, j, result, outcomes) && Grows(nodes, p, dom.actions[j], result, outcomes, r)
    ensures Midway(dom, r, frontier + Ids(|nodes| + 1, |outcomes|), p, j + 1, initial, steps)
    ensures r[p].children != []
  {
    var a, frontier', next: nat := dom.actions[j], frontier + Ids(|nodes| + 1, |outcomes|), j + 1;
    GrownKeeps(dom, nodes, p, j, result, outcomes, r);
    GrownFrontier(nodes, p, a, result, outcomes, r, frontier, p + 1);
    GrownOrdered(nodes, p, a, result, outcomes, r);
    GrownLeaves(nodes, p, a, result, outcomes, r);
    GrownNodes(nodes, p, a, result, outcomes, r);
    forall k: nat
      ensures BudgetedAt(dom, r, frontier', steps, p, next, k)
    {
      assert BudgetedAt(dom, nodes, frontier, steps, p, j, k);
      BudgetTry(dom, nodes, r, frontier, frontier', steps, p, j, outcomes, k);
    }
  }

  lemma MidwaySkip<S(!new), A(!new)>(
    dom: Domain<S, A>, nodes: seq<Node<S, A>>, frontier: seq<nat>, p: nat, j: nat, initial: S, steps: nat)
    requires Midway(dom, nodes, frontier, p, j, initial, steps) && j < |dom.actions|
    requires dom.expand(nodes[p].state, dom.actions[j]).Blocked?
    ensures Midway(dom, nodes, frontier, p, j + 1, initial, steps)
  {
    BlockedKeeps(dom, nodes, p, j);
    var next: nat := j + 1;
    forall k: nat
      ensures BudgetedAt(dom, nodes, frontier, steps, p, next, k)
    {
      assert BudgetedAt(dom, nodes, frontier, steps, p, j, k);
      BudgetSkip(dom, nodes, frontier, steps, p, j, k);
    }
  }

  lemma NextSpread<S, A>(nodes: seq<Node<S, A>>, frontier: seq<nat>, p: nat)
    requires Shape(nodes) && p < |nodes| && nodes[p].kind.Or?
    requires FrontierIs(nodes, frontier, p + 1) && Ordered(nodes) && Spread(nodes, p) && frontier != []
    ensures frontier[0] < |nodes| && Spread(nodes, frontier[0])
  {
    FrontierFirst(nodes, frontier, p + 1);
    assert Depth(nodes, p) <= Depth(nodes, frontier[0]);
  }

  lemma MidwayBudget<S(!new), A(!new)>(
    dom: Domain<S, A>, nodes: seq<Node<S, A>>, frontier: seq<nat>, p: nat, initial: S, steps: nat)
    requires Midway(dom, nodes, frontier, p, |dom.actions|, initial, steps)
    ensures AllBudgeted(dom, nodes, frontier, steps)
  {
    forall k: nat
      ensures Budgeted(dom, nodes, frontier, steps, k)
    {
      assert BudgetedAt(dom, nodes, frontier, steps, p, |dom.actions|, k);
    }
  }

  /** An expanded node with children: the loop goes on. */
  lemma MidwayDone<S(!new), A(!new)>(
    dom: Domain<S, A>, nodes: seq<Node<S, A>>, frontier: seq<nat>, p: nat, initial: S, steps: nat)
    requires Branching(dom) && Midway(dom, nodes, frontier, p, |dom.actions|, initial, steps) && nodes[p].children != []
    ensures Ready(dom, nodes, frontier, p + 1, initial, steps)
  {
    CloseExpanded(dom, nodes, p);
    MidwayBudget(dom, nodes, frontier, p, initial, steps);
    if frontier != [] {
      NextSpread(nodes, frontier, p);
    }
  }

  /** After a propagation that left the root open, the loop goes on. */
  lemma PropagatedReady<S(!new), A(!new)>(
    dom: Domain<S, A>, nodes: seq<Node<S, A>>, r: seq<Node<S, A>>, frontier: seq<nat>, p: nat, initial: S,
    steps: nat)
    requires Shape(nodes) && p < |nodes| && nodes[p].kind.Or?
    requires FrontierIs(nodes, frontier, p + 1) && Ordered(nodes) && Spread(nodes, p)
    requires AllBudgeted(dom, nodes, frontier, steps)
    requires SameTree(nodes, r) && Exact(dom, r, p + 1, 0) && Labelled(dom, r, p + 1)
    requires RootOpen(r, initial)
    ensures Ready(dom, r, frontier, p + 1, initial, steps)
  {
    SameTreeOrdered(nodes, r, frontier, p + 1);
    assert SameNode(nodes[p], r[p]);
    if frontier != [] {
      NextSpread(r, frontier, p);
    }
    forall k: nat
      ensures Budgeted(dom, r, frontier, steps, k)
    {
      assert Budgeted(dom, nodes, frontier, steps, k);
      BudgetSameTree(dom, nodes, r, frontier, steps, k);
    }
  }

  /** A dead root: a refutation of some depth. */
  lemma DeadRoot<S(!new), A(!new)>(dom: Domain<S, A>, nodes: seq<Node<S, A>>, lo: nat, initial: S)
    requires Exact(dom, nodes, lo, 0) && Labelled(dom, nodes, lo) && nodes[0].dead && nodes[0].state == initial
    ensures DoomedAtSomeDepth(dom, initial)
  {
    DeadSound(dom, nodes, lo, 0, 0);
  }

  /** A solved root: a strategy of some depth. */
  lemma SolvedRoot<S(!new), A(!new)>(dom: Domain<S, A>, nodes: seq<Node<S, A>>, lo: nat, initial: S)
    requires Exact(dom, nodes, lo, 0) && Labelled(dom, nodes, lo) && nodes[0].solved && nodes[0].state == initial
    ensures SolvableAtSomeDepth(dom, initial)
  {
    SolvedSound(dom, nodes, lo, 0, 0);
  }
}
