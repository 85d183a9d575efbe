/** The breadth-first order of the search and the bound it puts on the number of
    expansions when a strategy exists. */
module BreadthFirst {
  import opened AndOr
  import opened Growth
  import opened Labelling

  // Number of actions on the way to a node: an AND node is as deep as its parent.
  ghost function Depth<S, A>(nodes: seq<Node<S, A>>, i: nat): (d: nat)
    requires Shape(nodes) && i < |nodes|
    decreases i
  {
    if i == 0 then 0 else
      assert ParentFits(nodes, i);
      Depth(nodes, nodes[i].parent) + if nodes[i].kind.Or? then 1 else 0
  }

  lemma ChildDepth<S, A>(nodes: seq<Node<S, A>>, x: nat, c: nat)
    requires Shape(nodes) && Child(nodes, x, c)
    ensures c < |nodes| && Depth(nodes, c) == Depth(nodes, x) + if nodes[c].kind.Or? then 1 else 0
    ensures nodes[c].kind.Or? <==> nodes[x].kind.And?
  {
    assert ParentFits(nodes, c);
  }

  // The frontier holds the OR nodes from start on, oldest first.
  ghost predicate FrontierIs<S, A>(nodes: seq<Node<S, A>>, frontier: seq<nat>, start: nat) {
    && (forall i, j :: 0 <= i < j < |frontier| ==> frontier[i] < frontier[j])
    && (forall x: nat :: x in frontier <==> start <= x < |nodes| && nodes[x].kind.Or?)
  }

  ghost predicate Ordered<S, A>(nodes: seq<Node<S, A>>)
    requires Shape(nodes)
  {
    forall i: nat, j: nat :: i <= j < |nodes| && nodes[i].kind.Or? && nodes[j].kind.Or? ==> Depth(nodes, i) <= Depth(nodes, j)
  }

  // No OR node is more than one level below the given one.
  ghost predicate Spread<S, A>(nodes: seq<Node<S, A>>, p: nat)
    requires Shape(nodes) && p < |nodes|
  {
    forall i: nat :: i < |nodes| && nodes[i].kind.Or? ==> Depth(nodes, i) <= Depth(nodes, p) + 1
  }

  // ----- Frames

  ghost predicate Extends<S, A>(nodes: seq<Node<S, A>>, r: seq<Node<S, A>>) {
    && |nodes| <= |r|
    && forall i: nat :: i < |nodes| ==> SameOrigin(nodes[i], r[i])
  }

  ghost predicate SameOrigin<S, A>(n: Node<S, A>, r: Node<S, A>) {
    r.kind == n.kind && r.state == n.state && r.parent == n.parent
  }

  lemma {:induction false} DepthKept<S, A>(nodes: seq<Node<S, A>>, r: seq<Node<S, A>>, i: nat)
    requires Shape(nodes) && Shape(r) && Extends(nodes, r) && i < |nodes|
    ensures Depth(r, i) == Depth(nodes, i)
    decreases i
  {
    if i > 0 {
      assert ParentFits(nodes, i) && SameOrigin(nodes[i], r[i]);
      DepthKept(nodes, r, nodes[i].parent);
    }
  }

  lemma SameTreeExtends<S, A>(nodes: seq<Node<S, A>>, r: seq<Node<S, A>>)
    requires SameTree(nodes, r)
    ensures Extends(nodes, r)
  {
    forall i: nat | i < |nodes|
      ensures SameOrigin(nodes[i], r[i])
    {
      assert SameNode(nodes[i], r[i]);
    }
  }

  lemma SameTreeOrdered<S, A>(nodes: seq<Node<S, A>>, r: seq<Node<S, A>>, frontier: seq<nat>, start: nat)
    requires Shape(nodes) && SameTree(nodes, r)
    requires Ordered(nodes) && FrontierIs(nodes, frontier, start)
    ensures Shape(r) && Ordered(r) && FrontierIs(r, frontier, start)
    ensures forall p: nat :: p < |nodes| && Spread(nodes, p) ==> Spread(r, p)
  {
    SameTreeShape(nodes, r);
    SameTreeExtends(nodes, r);
    forall i: nat | i < |nodes|
      ensures r[i].kind == nodes[i].kind && Depth(r, i) == Depth(nodes, i)
    {
      assert SameNode(nodes[i], r[i]);
      DepthKept(nodes, r, i);
    }
  }

  lemma GrownExtends<S, A>(nodes: seq<Node<S, A>>, p: nat, a: A, result: S, outcomes: seq<S>, r: seq<Node<S, A>>)
    requires Grows(nodes, p, a, result, outcomes, r)
    ensures Extends(nodes, r)
  {
    GrownNodes(nodes, p, a, result, outcomes, r);
    forall i: nat | i < |nodes|
      ensures SameOrigin(nodes[i], r[i])
    {
    }
  }

  lemma GrownDepths<S, A>(nodes: seq<Node<S, A>>, p: nat, a: A, result: S, outcomes: seq<S>, r: seq<Node<S, A>>)
    requires Grows(nodes, p, a, result, outcomes, r) && Shape(nodes) && Shape(r) && nodes[p].kind.Or?
    ensures forall i: nat :: i < |nodes| ==> Depth(r, i) == Depth(nodes, i)
    ensures forall i: nat :: |nodes| < i < |r| ==> Depth(r, i) == Depth(nodes, p) + 1
  {
    GrownNodes(nodes, p, a, result, outcomes, r);
    GrownExtends(nodes, p, a, result, outcomes, r);
    forall i: nat | i < |nodes|
      ensures Depth(r, i) == Depth(nodes, i)
    {
      DepthKept(nodes, r, i);
    }
    assert Depth(r, |nodes|) == Depth(r, p);
  }

  lemma GrownFrontier<S, A>(
    nodes: seq<Node<S, A>>, p: nat, a: A, result: S, outcomes: seq<S>, r: seq<Node<S, A>>, frontier: seq<nat>,
    start: nat)
    requires Grows(nodes, p, a, result, outcomes, r) && nodes[p].kind.Or? && start <= |nodes|
    requires FrontierIs(nodes, frontier, start)
    ensures FrontierIs(r, frontier + Ids(|nodes| + 1, |outcomes|), start)
  {
    GrownNodes(nodes, p, a, result, outcomes, r);
    var ids := Ids(|nodes| + 1, |outcomes|);
    assert forall i :: 0 <= i < |frontier| ==> frontier[i] in frontier;
    assert forall i :: 0 <= i < |ids| ==> ids[i] in ids;
    forall x: nat
      ensures x in frontier + ids <==> start <= x < |r| && r[x].kind.Or?
    {
      assert x in frontier + ids <==> x in frontier || x in ids;
    }
  }

  lemma GrownOrdered<S, A>(nodes: seq<Node<S, A>>, p: nat, a: A, result: S, outcomes: seq<S>, r: seq<Node<S, A>>)
    requires Grows(nodes, p, a, result, outcomes, r) && Shape(nodes) && Shape(r) && nodes[p].kind.Or?
    requires Ordered(nodes) && Spread(nodes, p)
    ensures Ordered(r) && Spread(r, p)
  {
    GrownNodes(nodes, p, a, result, outcomes, r);
    GrownDepths(nodes, p, a, result, outcomes, r);
  }

  // ----- Bounded search: while the root is unsolved, some open node is shallow

  /** If all open nodes are deeper than k, closed nodes with short strategies are solved. */
  lemma {:induction false} ShallowSolved<S(!new), A(!new)>(dom: Domain<S, A>, nodes: seq<Node<S, A>>, lo: nat, i: nat, k: nat)
    requires Exact(dom, nodes, lo, 0) && Labelled(dom, nodes, lo)
    requires forall n: nat :: lo <= n < |nodes| && nodes[n].kind.Or? ==> Depth(nodes, n) > k
    requires i < |nodes| && nodes[i].kind.Or? && Depth(nodes, i) <= k
    requires Solvable(dom, nodes[i].state, k - Depth(nodes, i))
    ensures nodes[i].solved
    decreases k - Depth(nodes, i)
  {
    assert SolvedOk(dom, nodes, lo, i);
    if !dom.goal(nodes[i].state) {
      var d := k - Depth(nodes, i);
      var m: nat :| m < |dom.actions| && AllSolvable(dom, dom.expand(nodes[i].state, dom.actions[m]), d - 1);
      assert OrExact(dom, nodes, lo, 0, i);
      assert HasActionChild(nodes, i, dom.actions[m]);
      var c: nat :| Child(nodes, i, c) && c < |nodes| && nodes[c].kind == And(dom.actions[m]);
      assert ParentFits(nodes, c) && AndExact(dom, nodes, c);
      forall x: nat | Child(nodes, c, x)
        ensures x < |nodes| && nodes[x].solved
      {
        assert ParentFits(nodes, x);
        assert Depth(nodes, x) == Depth(nodes, i) + 1;
        var n: nat :| n < |nodes[c].children| && nodes[c].children[n] == x;
        assert nodes[x].state == Expanded(dom, nodes, c).outcomes[n];
        ShallowSolved(dom, nodes, lo, x, k);
      }
      assert SolvedOk(dom, nodes, lo, c);
      assert SomeChildSolved(nodes, i);
    }
  }

  /** And closed nodes with short refutations are dead. */
  lemma {:induction false} ShallowDead<S(!new), A(!new)>(dom: Domain<S, A>, nodes: seq<Node<S, A>>, lo: nat, i: nat, k: nat)
    requires Exact(dom, nodes, lo, 0) && Labelled(dom, nodes, lo)
    requires forall n: nat :: lo <= n < |nodes| && nodes[n].kind.Or? ==> Depth(nodes, n) > k
    requires i < |nodes| && nodes[i].kind.Or? && Depth(nodes, i) <= k
    requires Doomed(dom, nodes[i].state, k - Depth(nodes, i))
    ensures nodes[i].dead
    decreases k - Depth(nodes, i)
  {
    assert DeadOk(dom, nodes, lo, i);
    forall c: nat | Child(nodes, i, c)
      ensures c < |nodes| && nodes[c].dead
    {
      var x := DoomedOutcome(dom, nodes, lo, i, c, k - Depth(nodes, i));
      ShallowDead(dom, nodes, lo, x, k);
      assert Child(nodes, c, x);
      assert DeadOk(dom, nodes, lo, c);
    }
  }

  // Every action tried on a doomed node has a doomed outcome, one level down.
  lemma DoomedOutcome<S(!new), A(!new)>(
    dom: Domain<S, A>, nodes: seq<Node<S, A>>, lo: nat, i: nat, c: nat, d: nat) returns (x: nat)
    requires Exact(dom, nodes, lo, 0) && i < |nodes| && nodes[i].kind.Or? && Child(nodes, i, c)
    requires Doomed(dom, nodes[i].state, d)
    ensures Child(nodes, c, x) && x < |nodes| && nodes[x].kind.Or? && c < |nodes| && nodes[c].kind.And?
    ensures Depth(nodes, x) == Depth(nodes, i) + 1
    ensures d > 0 && Doomed(dom, nodes[x].state, d - 1)
  {
    ChildDepth(nodes, i, c);
    assert ParentFits(nodes, c) && AndExact(dom, nodes, c);
    var e := Expanded(dom, nodes, c);
    var m: nat :| m < |dom.actions| && dom.actions[m] == nodes[c].kind.action;
    assert DoomedBy(dom, e, d);
    var n: nat :| n < |e.outcomes| && Doomed(dom, e.outcomes[n], d - 1);
    x := nodes[c].children[n];
    assert Child(nodes, c, x) && nodes[x].state == e.outcomes[n];
    ChildDepth(nodes, c, x);
  }

  // The invariant of the search loop on the tree and the frontier.
  ghost predicate Searching<S(!new), A(!new)>(dom: Domain<S, A>, nodes: seq<Node<S, A>>, frontier: seq<nat>, lo: nat) {
    && Exact(dom, nodes, lo, 0) && Labelled(dom, nodes, lo)
    && FrontierIs(nodes, frontier, lo) && Ordered(nodes)
    && (frontier != [] ==> frontier[0] < |nodes| && Spread(nodes, frontier[0]))
  }

  lemma FrontierFirst<S, A>(nodes: seq<Node<S, A>>, frontier: seq<nat>, lo: nat)
    requires FrontierIs(nodes, frontier, lo) && frontier != []
    ensures lo <= frontier[0] < |nodes| && nodes[frontier[0]].kind.Or?
    ensures forall n: nat :: lo <= n < |nodes| && nodes[n].kind.Or? ==> frontier[0] <= n
  {
    assert frontier[0] in frontier;
    forall n: nat | lo <= n < |nodes| && nodes[n].kind.Or?
      ensures frontier[0] <= n
    {
      assert n in frontier;
      var i :| 0 <= i < |frontier| && frontier[i] == n;
    }
  }

  /** The node popped next is never deeper than the shortest strategy or refutation. */
  lemma PopsShallow<S(!new), A(!new)>(dom: Domain<S, A>, nodes: seq<Node<S, A>>, frontier: seq<nat>, lo: nat, k: nat)
    requires Searching(dom, nodes, frontier, lo) && frontier != []
    requires !nodes[0].solved && !nodes[0].dead && Decided(dom, nodes[0].state, k)
    ensures Depth(nodes, frontier[0]) <= k
  {
    FrontierFirst(nodes, frontier, lo);
    if Depth(nodes, frontier[0]) > k {
      if Solvable(dom, nodes[0].state, k) {
        ShallowSolved(dom, nodes, lo, 0, k);
      } else {
        ShallowDead(dom, nodes, lo, 0, k);
      }
    }
  }

  /** The frontier is never empty while the root has no label. */
  lemma FrontierNotEmpty<S(!new), A(!new)>(dom: Domain<S, A>, nodes: seq<Node<S, A>>, frontier: seq<nat>, lo: nat)
    requires Searching(dom, nodes, frontier, lo)
    requires !nodes[0].solved && !nodes[0].dead
    ensures frontier != []
  {
    if frontier == [] {
      forall n: nat | lo <= n < |nodes|
        ensures nodes[n].kind.And?
      {
        assert n !in frontier;
      }
      ClosedTreeLabelled(dom, nodes, lo, 0, 0);
    }
  }

  // Depths on the frontier are sorted and differ by at most one.
  lemma FrontierSorted<S(!new), A(!new)>(dom: Domain<S, A>, nodes: seq<Node<S, A>>, frontier: seq<nat>, lo: nat, i: nat, j: nat)
    requires Searching(dom, nodes, frontier, lo) && i < j < |frontier|
    ensures frontier[j] < |nodes|
    ensures Depth(nodes, frontier[i]) <= Depth(nodes, frontier[j]) <= Depth(nodes, frontier[i]) + 1
  {
    assert frontier[i] in frontier && frontier[j] in frontier && frontier[0] in frontier;
    assert Depth(nodes, frontier[0]) <= Depth(nodes, frontier[i]);
  }

  // ----- Counting expansions

  // Size of the whole search tree down to depth k, counted in OR nodes.
  ghost function TreeSize<S, A>(dom: Domain<S, A>, s: S, k: nat): (n: nat)
    decreases k, 2, 0
  {
    1 + if k == 0 || dom.goal(s) then 0 else ActionsSize(dom, s, |dom.actions|, k - 1)
  }

  ghost function ActionsSize<S, A>(dom: Domain<S, A>, s: S, m: nat, k: nat): (n: nat)
    requires m <= |dom.actions|
    decreases k, 4, m
  {
    if m == 0 then 0
    else
      var e := dom.expand(s, dom.actions[m - 1]);
      ActionsSize(dom, s, m - 1, k) + if e.Branches? then OutcomesSize(dom, e.outcomes, k) else 0
  }

  ghost function OutcomesSize<S, A>(dom: Domain<S, A>, outcomes: seq<S>, k: nat): (n: nat)
    decreases k, 3, |outcomes|
  {
    if outcomes == [] then 0
    else OutcomesSize(dom, outcomes[..|outcomes| - 1], k) + TreeSize(dom, outcomes[|outcomes| - 1], k)
  }

  lemma {:induction false} ActionsSizeMonotone<S, A>(dom: Domain<S, A>, s: S, m: nat, n: nat, k: nat)
    requires m <= n <= |dom.actions|
    ensures ActionsSize(dom, s, m, k) <= ActionsSize(dom, s, n, k)
    decreases n
  {
    if m < n {
      ActionsSizeMonotone(dom, s, m, n - 1, k);
    }
  }

  ghost function Cost<S, A>(dom: Domain<S, A>, nodes: seq<Node<S, A>>, k: nat, x: nat): (n: nat)
    requires Shape(nodes) && x < |nodes|
  {
    if Depth(nodes, x) <= k then TreeSize(dom, nodes[x].state, k - Depth(nodes, x)) else 0
  }

  ghost predicate InTree<S, A>(nodes: seq<Node<S, A>>, frontier: seq<nat>) {
    forall i :: 0 <= i < |frontier| ==> frontier[i] < |nodes|
  }

  // Work still hanging from the frontier, down to depth k.
  ghost function Potential<S, A>(dom: Domain<S, A>, nodes: seq<Node<S, A>>, k: nat, frontier: seq<nat>): (n: nat)
    requires Shape(nodes) && InTree(nodes, frontier)
  {
    if frontier == [] then 0
    else Potential(dom, nodes, k, frontier[..|frontier| - 1]) + Cost(dom, nodes, k, frontier[|frontier| - 1])
  }

  lemma {:induction false} PotentialKept<S, A>(
    dom: Domain<S, A>, nodes: seq<Node<S, A>>, r: seq<Node<S, A>>, k: nat, frontier: seq<nat>)
    requires Shape(nodes) && Shape(r) && Extends(nodes, r)
    requires InTree(nodes, frontier)
    ensures Potential(dom, r, k, frontier) == Potential(dom, nodes, k, frontier)
    decreases |frontier|
  {
    if frontier != [] {
      var x := frontier[|frontier| - 1];
      DepthKept(nodes, r, x);
      assert SameOrigin(nodes[x], r[x]);
      PotentialKept(dom, nodes, r, k, frontier[..|frontier| - 1]);
    }
  }

  lemma {:induction false} PotentialPop<S, A>(dom: Domain<S, A>, nodes: seq<Node<S, A>>, k: nat, frontier: seq<nat>)
    requires Shape(nodes) && frontier != [] && InTree(nodes, frontier)
    ensures Potential(dom, nodes, k, frontier) == Cost(dom, nodes, k, frontier[0]) + Potential(dom, nodes, k, frontier[1..])
    decreases |frontier|
  {
    if |frontier| == 1 {
      assert frontier[..0] == [] && frontier[1..] == [];
    } else {
      var front := frontier[..|frontier| - 1];
      PotentialPop(dom, nodes, k, front);
      assert frontier[1..][..|frontier| - 2] == front[1..];
      assert frontier[1..][|frontier| - 2] == frontier[|frontier| - 1];
    }
  }

  ghost predicate LeafAt<S, A>(nodes: seq<Node<S, A>>, c: nat, d: nat, outcome: S, i: nat)
    requires Shape(nodes)
  {
    c + 1 + i < |nodes| && nodes[c + 1 + i].state == outcome && Depth(nodes, c + 1 + i) == d
  }

  ghost predicate LeavesAt<S, A>(nodes: seq<Node<S, A>>, c: nat, d: nat, outcomes: seq<S>)
    requires Shape(nodes)
  {
    forall i: nat :: i < |outcomes| ==> LeafAt(nodes, c, d, outcomes[i], i)
  }

  lemma PotentialSnoc<S, A>(dom: Domain<S, A>, nodes: seq<Node<S, A>>, k: nat, frontier: seq<nat>, x: nat)
    requires Shape(nodes) && InTree(nodes, frontier) && x < |nodes|
    ensures InTree(nodes, frontier + [x])
    ensures Potential(dom, nodes, k, frontier + [x]) == Potential(dom, nodes, k, frontier) + Cost(dom, nodes, k, x)
  {
    assert (frontier + [x])[..|frontier|] == frontier;
  }

  lemma OutcomesSizeSnoc<S, A>(dom: Domain<S, A>, outcomes: seq<S>, n: nat, k: nat)
    requires n + 1 == |outcomes|
    ensures OutcomesSize(dom, outcomes, k) == OutcomesSize(dom, outcomes[..n], k) + TreeSize(dom, outcomes[n], k)
  {
  }

  // The new leaves weigh what the action's outcomes weigh one level down.
  lemma {:induction false} PotentialLeaves<S, A>(
    dom: Domain<S, A>, nodes: seq<Node<S, A>>, k: nat, frontier: seq<nat>, c: nat, d: nat, outcomes: seq<S>, n: nat)
    requires Shape(nodes) && InTree(nodes, frontier)
    requires n <= |outcomes| && LeavesAt(nodes, c, d, outcomes)
    ensures InTree(nodes, frontier + Ids(c + 1, n))
    ensures Potential(dom, nodes, k, frontier + Ids(c + 1, n))
         == Potential(dom, nodes, k, frontier) + if d <= k then OutcomesSize(dom, outcomes[..n], k - d) else 0
    decreases n
  {
    if n == 0 {
      assert frontier + Ids(c + 1, 0) == frontier;
    } else {
      var x: nat := c + n;
      PotentialLeaves(dom, nodes, k, frontier, c, d, outcomes, n - 1);
      assert frontier + Ids(c + 1, n) == frontier + Ids(c + 1, n - 1) + [x];
      assert LeafAt(nodes, c, d, outcomes[n - 1], n - 1);
      PotentialSnoc(dom, nodes, k, frontier + Ids(c + 1, n - 1), x);
      assert outcomes[..n][..n - 1] == outcomes[..n - 1];
      if d <= k {
        OutcomesSizeSnoc(dom, outcomes[..n], n - 1, k - d);
      }
    }
  }

  // Steps taken, plus the work left, never exceed the tree down to depth k.
  ghost predicate Budgeted<S(!new), A(!new)>(dom: Domain<S, A>, nodes: seq<Node<S, A>>, frontier: seq<nat>, steps: nat, k: nat) {
    && Shape(nodes) && InTree(nodes, frontier)
    && (Decided(dom, nodes[0].state, k) ==>
         steps + Potential(dom, nodes, k, frontier) <= TreeSize(dom, nodes[0].state, k))
  }

  // What trying the remaining actions of a node may still add.
  ghost function Remaining<S, A>(dom: Domain<S, A>, s: S, j: nat, k: nat): (n: nat)
    requires j <= |dom.actions|
  {
    if k == 0 then 0
    else
      ActionsSizeMonotone(dom, s, j, |dom.actions|, k - 1);
      ActionsSize(dom, s, |dom.actions|, k - 1) - ActionsSize(dom, s, j, k - 1)
  }

  ghost predicate BudgetedAt<S(!new), A(!new)>(
    dom: Domain<S, A>, nodes: seq<Node<S, A>>, frontier: seq<nat>, steps: nat, p: nat, j: nat, k: nat) {
    && Shape(nodes) && InTree(nodes, frontier)
    && p < |nodes| && j <= |dom.actions|
    && (Decided(dom, nodes[0].state, k) ==>
         && Depth(nodes, p) <= k
         && steps + Potential(dom, nodes, k, frontier) + Remaining(dom, nodes[p].state, j, k - Depth(nodes, p))
              <= TreeSize(dom, nodes[0].state, k))
  }

  lemma BudgetPop<S(!new), A(!new)>(dom: Domain<S, A>, nodes: seq<Node<S, A>>, frontier: seq<nat>, lo: nat, steps: nat, k: nat)
    requires Searching(dom, nodes, frontier, lo) && frontier != [] && !nodes[0].solved && !nodes[0].dead
    requires Budgeted(dom, nodes, frontier, steps, k)
    ensures if dom.goal(nodes[frontier[0]].state) then Budgeted(dom, nodes, frontier[1..], steps + 1, k)
            else BudgetedAt(dom, nodes, frontier[1..], steps + 1, frontier[0], 0, k)
    ensures Decided(dom, nodes[0].state, k) ==> steps < TreeSize(dom, nodes[0].state, k)
  {
    if Decided(dom, nodes[0].state, k) {
      PopsShallow(dom, nodes, frontier, lo, k);
      PotentialPop(dom, nodes, k, frontier);
    }
  }

  // The tree grew by leaves for the outcomes, one level below node p.
  ghost predicate LeavesAdded<S, A>(nodes: seq<Node<S, A>>, p: nat, outcomes: seq<S>, r: seq<Node<S, A>>)
    requires Shape(nodes) && Shape(r) && p < |nodes|
  {
    && Extends(nodes, r) && Depth(r, p) == Depth(nodes, p)
    && LeavesAt(r, |nodes|, Depth(nodes, p) + 1, outcomes)
  }

  lemma GrownLeaves<S, A>(nodes: seq<Node<S, A>>, p: nat, a: A, result: S, outcomes: seq<S>, r: seq<Node<S, A>>)
    requires Grows(nodes, p, a, result, outcomes, r) && nodes[p].kind.Or?
    requires Shape(nodes) && Shape(r)
    ensures LeavesAdded(nodes, p, outcomes, r)
  {
    var c, d := |nodes|, Depth(nodes, p) + 1;
    GrownNodes(nodes, p, a, result, outcomes, r);
    GrownExtends(nodes, p, a, result, outcomes, r);
    GrownDepths(nodes, p, a, result, outcomes, r);
    forall i: nat | i < |outcomes|
      ensures LeafAt(r, c, d, outcomes[i], i)
    {
      var x: nat := c + 1 + i;
      assert r[x] == OrNode(outcomes[i], c, false);
    }
  }

  lemma PotentialExtended<S, A>(dom: Domain<S, A>, nodes: seq<Node<S, A>>, r: seq<Node<S, A>>,
                                frontier: seq<nat>, frontier': seq<nat>, c: nat, d: nat, outcomes: seq<S>, k: nat)
    requires Shape(nodes) && Shape(r) && Extends(nodes, r) && InTree(nodes, frontier)
    requires LeavesAt(r, c, d, outcomes)
    requires frontier' == frontier + Ids(c + 1, |outcomes|)
    ensures InTree(r, frontier')
    ensures Potential(dom, r, k, frontier') == Potential(dom, nodes, k, frontier)
              + if d <= k then OutcomesSize(dom, outcomes, k - d) else 0
  {
    PotentialLeaves(dom, r, k, frontier, c, d, outcomes, |outcomes|);
    assert outcomes[..|outcomes|] == outcomes;
    PotentialKept(dom, nodes, r, k, frontier);
  }

  lemma RemainingStep<S, A>(dom: Domain<S, A>, s: S, j: nat, k: nat)
    requires j < |dom.actions|
    ensures var e := dom.expand(s, dom.actions[j]);
            Remaining(dom, s, j, k) == Remaining(dom, s, j + 1, k)
              + if k > 0 && e.Branches? then OutcomesSize(dom, e.outcomes, k - 1) else 0
  {
    if k > 0 {
      ActionsSizeMonotone(dom, s, j + 1, |dom.actions|, k - 1);
    }
  }

  lemma BudgetExtended<S(!new), A(!new)>(dom: Domain<S, A>, nodes: seq<Node<S, A>>, r: seq<Node<S, A>>,
                                         frontier: seq<nat>, frontier': seq<nat>,
                                         steps: nat, p: nat, j: nat, outcomes: seq<S>, k: nat)
    requires BudgetedAt(dom, nodes, frontier, steps, p, j, k) && j < |dom.actions|
    requires dom.expand(nodes[p].state, dom.actions[j]).Branches?
    requires dom.expand(nodes[p].state, dom.actions[j]).outcomes == outcomes
    requires Shape(r) && p < |r| && SameOrigin(nodes[0], r[0]) && SameOrigin(nodes[p], r[p])
    requires Depth(r, p) == Depth(nodes, p) && InTree(r, frontier')
    requires Potential(dom, r, k, frontier') == Potential(dom, nodes, k, frontier)
               + if Depth(nodes, p) + 1 <= k then OutcomesSize(dom, outcomes, k - (Depth(nodes, p) + 1)) else 0
    ensures BudgetedAt(dom, r, frontier', steps, p, j + 1, k)
  {
    if Decided(dom, nodes[0].state, k) {
      RemainingStep(dom, nodes[p].state, j, k - Depth(nodes, p));
    }
  }

  lemma BudgetTry<S(!new), A(!new)>(dom: Domain<S, A>, nodes: seq<Node<S, A>>, r: seq<Node<S, A>>,
                                    frontier: seq<nat>, frontier': seq<nat>,
                                    steps: nat, p: nat, j: nat, outcomes: seq<S>, k: nat)
    requires BudgetedAt(dom, nodes, frontier, steps, p, j, k) && j < |dom.actions|
    requires dom.expand(nodes[p].state, dom.actions[j]).Branches?
    requires dom.expand(nodes[p].state, dom.actions[j]).outcomes == outcomes
    requires Shape(r) && LeavesAdded(nodes, p, outcomes, r)
    requires frontier' == frontier + Ids(|nodes| + 1, |outcomes|)
    ensures BudgetedAt(dom, r, frontier', steps, p, j + 1, k)
  {
    PotentialExtended(dom, nodes, r, frontier, frontier', |nodes|, Depth(nodes, p) + 1, outcomes, k);
    assert SameOrigin(nodes[0], r[0]) && SameOrigin(nodes[p], r[p]);
    BudgetExtended(dom, nodes, r, frontier, frontier', steps, p, j, outcomes, k);
  }

  lemma BudgetSkip<S(!new), A(!new)>(
    dom: Domain<S, A>, nodes: seq<Node<S, A>>, frontier: seq<nat>, steps: nat, p: nat, j: nat, k: nat)
    requires BudgetedAt(dom, nodes, frontier, steps, p, j, k) && j < |dom.actions|
    requires dom.expand(nodes[p].state, dom.actions[j]).Blocked?
    ensures BudgetedAt(dom, nodes, frontier, steps, p, j + 1, k)
  {
    if Decided(dom, nodes[0].state, k) {
      RemainingStep(dom, nodes[p].state, j, k - Depth(nodes, p));
    }
  }

  lemma BudgetSameTree<S(!new), A(!new)>(
    dom: Domain<S, A>, nodes: seq<Node<S, A>>, r: seq<Node<S, A>>, frontier: seq<nat>, steps: nat, k: nat)
    requires Shape(nodes) && SameTree(nodes, r) && Budgeted(dom, nodes, frontier, steps, k)
    ensures Budgeted(dom, r, frontier, steps, k)
  {
    SameTreeShape(nodes, r);
    SameTreeExtends(nodes, r);
    PotentialKept(dom, nodes, r, k, frontier);
    assert SameOrigin(nodes[0], r[0]);
  }
}
