/** Theory of the AND/OR search tree: node labels, what they say about the
    existence of strategies, and the breadth-first order. */
module AndOr {

  datatype Expansion<S> = Blocked | Branches(result: S, outcomes: seq<S>)

  // A planning problem: which states are goals, and what each action leads to.
  datatype Domain<!S, !A> = Domain(goal: S -> bool, actions: seq<A>, expand: (S, A) -> Expansion<S>)

  datatype Kind<A> = Or | And(action: A)

  datatype Node<S, A> = Node(
      kind: Kind<A>, state: S, parent: nat, root: bool, dead: bool, solved: bool, children: seq<nat>)

  // An action that is not blocked has at least one outcome.
  ghost predicate Branching<S(!new), A(!new)>(dom: Domain<S, A>) {
    forall s: S, a: A :: dom.expand(s, a).Branches? ==> dom.expand(s, a).outcomes != []
  }

  // ----- Strategies

  /** A strategy of depth k: the goal holds, or some action leads only to states
      with strategies of depth k - 1. */
  ghost predicate Solvable<S(!new), A(!new)>(dom: Domain<S, A>, s: S, k: nat)
    decreases k, 0
  {
    || dom.goal(s)
    || (k > 0 && exists m: nat :: m < |dom.actions| && AllSolvable(dom, dom.expand(s, dom.actions[m]), k - 1))
  }

  ghost predicate AllSolvable<S(!new), A(!new)>(dom: Domain<S, A>, e: Expansion<S>, k: nat)
    decreases k, 1
  {
    e.Branches? && forall i :: 0 <= i < |e.outcomes| ==> Solvable(dom, e.outcomes[i], k)
  }

  lemma {:induction false} SolvableMonotone<S(!new), A(!new)>(dom: Domain<S, A>, s: S, k: nat, l: nat)
    requires Solvable(dom, s, k) && k <= l
    ensures Solvable(dom, s, l)
    decreases k, 0
  {
    if !dom.goal(s) {
      var m: nat :| m < |dom.actions| && AllSolvable(dom, dom.expand(s, dom.actions[m]), k - 1);
      AllSolvableMonotone(dom, dom.expand(s, dom.actions[m]), k - 1, l - 1);
    }
  }

  lemma {:induction false} AllSolvableMonotone<S(!new), A(!new)>(dom: Domain<S, A>, e: Expansion<S>, k: nat, l: nat)
    requires AllSolvable(dom, e, k) && k <= l
    ensures AllSolvable(dom, e, l)
    decreases k, 1
  {
    forall i | 0 <= i < |e.outcomes|
      ensures Solvable(dom, e.outcomes[i], l)
    {
      SolvableMonotone(dom, e.outcomes[i], k, l);
    }
  }

  /** A refutation of depth k: the goal does not hold, and every action is blocked or has
      an outcome with a refutation of depth k - 1. */
  ghost predicate Doomed<S(!new), A(!new)>(dom: Domain<S, A>, s: S, k: nat)
    decreases k, 1
  {
    !dom.goal(s) && forall m: nat :: m < |dom.actions| ==> DoomedBy(dom, dom.expand(s, dom.actions[m]), k)
  }

  ghost predicate DoomedBy<S(!new), A(!new)>(dom: Domain<S, A>, e: Expansion<S>, k: nat)
    decreases k, 0
  {
    e.Blocked? || (k > 0 && exists i: nat :: i < |e.outcomes| && Doomed(dom, e.outcomes[i], k - 1))
  }

  lemma {:induction false} DoomedMonotone<S(!new), A(!new)>(dom: Domain<S, A>, s: S, k: nat, l: nat)
    requires Doomed(dom, s, k) && k <= l
    ensures Doomed(dom, s, l)
    decreases k, 1
  {
    forall m: nat | m < |dom.actions|
      ensures DoomedBy(dom, dom.expand(s, dom.actions[m]), l)
    {
      assert DoomedBy(dom, dom.expand(s, dom.actions[m]), k);
      DoomedByMonotone(dom, dom.expand(s, dom.actions[m]), k, l);
    }
  }

  lemma {:induction false} DoomedByMonotone<S(!new), A(!new)>(dom: Domain<S, A>, e: Expansion<S>, k: nat, l: nat)
    requires DoomedBy(dom, e, k) && k <= l
    ensures DoomedBy(dom, e, l)
    decreases k, 0
  {
    if e.Branches? {
      var i: nat :| i < |e.outcomes| && Doomed(dom, e.outcomes[i], k - 1);
      DoomedMonotone(dom, e.outcomes[i], k - 1, l - 1);
    }
  }

  /** A state with a refutation has no strategy. */
  lemma {:induction false} DoomedIsHopeless<S(!new), A(!new)>(dom: Domain<S, A>, s: S, k: nat, l: nat)
    requires Doomed(dom, s, k)
    ensures !Solvable(dom, s, l)
    decreases l
  {
    forall m: nat | l > 0 && m < |dom.actions|
      ensures !AllSolvable(dom, dom.expand(s, dom.actions[m]), l - 1)
    {
      var e := dom.expand(s, dom.actions[m]);
      assert DoomedBy(dom, e, k);
      if e.Branches? {
        var i: nat :| i < |e.outcomes| && Doomed(dom, e.outcomes[i], k - 1);
        DoomedIsHopeless(dom, e.outcomes[i], k - 1, l - 1);
      }
    }
  }

  // The question is settled within depth k, one way or the other.
  ghost predicate Decided<S(!new), A(!new)>(dom: Domain<S, A>, s: S, k: nat) {
    Solvable(dom, s, k) || Doomed(dom, s, k)
  }

  // ----- Shape of the tree

  ghost predicate Child<S, A>(nodes: seq<Node<S, A>>, i: nat, c: nat) {
    i < |nodes| && c in nodes[i].children
  }

  ghost predicate Shape<S, A>(nodes: seq<Node<S, A>>) {
    && |nodes| > 0 && nodes[0].root && nodes[0].kind.Or?
    && (forall i: nat :: 0 < i < |nodes| ==> ParentFits(nodes, i))
    && (forall i: nat, c: nat :: Child(nodes, i, c) ==> i < c < |nodes| && nodes[c].parent == i)
    && (forall i: nat :: i < |nodes| ==> Ascends(nodes[i].children))
  }

  ghost predicate Ascends(ids: seq<nat>) {
    forall k, l :: 0 <= k < l < |ids| ==> ids[k] < ids[l]
  }

  ghost predicate ParentFits<S, A>(nodes: seq<Node<S, A>>, i: nat)
    requires i < |nodes|
  {
    && !nodes[i].root
    && nodes[i].parent < i
    && Child(nodes, nodes[i].parent, i)
    && (nodes[i].kind.Or? <==> nodes[nodes[i].parent].kind.And?)
  }

  // What the action of an AND node does to its parent's state.
  ghost function Expanded<S, A>(dom: Domain<S, A>, nodes: seq<Node<S, A>>, i: nat): (e: Expansion<S>)
    requires Shape(nodes) && i < |nodes| && nodes[i].kind.And?
  {
    assert ParentFits(nodes, i);
    dom.expand(nodes[nodes[i].parent].state, nodes[i].kind.action)
  }

  // An AND node holds one action's result, and its children are all the outcomes in order.
  ghost predicate AndExact<S, A>(dom: Domain<S, A>, nodes: seq<Node<S, A>>, i: nat)
    requires Shape(nodes) && i < |nodes| && nodes[i].kind.And?
  {
    var e := Expanded(dom, nodes, i);
    && nodes[i].kind.action in dom.actions
    && e.Branches? && nodes[i].state == e.result
    && |nodes[i].children| == |e.outcomes|
    && forall k: nat :: k < |e.outcomes| ==>
         Child(nodes, i, nodes[i].children[k]) && nodes[i].children[k] < |nodes| && nodes[nodes[i].children[k]].state == e.outcomes[k]
  }

  // The first j actions of an OR node have been tried.
  ghost predicate OrTried<S, A>(dom: Domain<S, A>, nodes: seq<Node<S, A>>, i: nat, j: nat)
    requires Shape(nodes) && i < |nodes|
  {
    && j <= |dom.actions|
    && forall m: nat :: m < j && dom.expand(nodes[i].state, dom.actions[m]).Branches? ==> HasActionChild(nodes, i, dom.actions[m])
  }

  ghost predicate HasActionChild<S, A>(nodes: seq<Node<S, A>>, i: nat, a: A) {
    exists c: nat :: Child(nodes, i, c) && c < |nodes| && nodes[c].kind == And(a)
  }

  // OR nodes below lo are closed: goals stay leaves, others are fully expanded.
  // OR nodes from lo on are leaves, except that j actions of node lo may have been tried.
  ghost predicate OrExact<S, A>(dom: Domain<S, A>, nodes: seq<Node<S, A>>, lo: nat, j: nat, i: nat)
    requires Shape(nodes) && i < |nodes|
  {
    && (i < lo && dom.goal(nodes[i].state) ==> nodes[i].children == [])
    && (i < lo && !dom.goal(nodes[i].state) ==> OrTried(dom, nodes, i, |dom.actions|))
    && (i == lo ==> OrTried(dom, nodes, i, j) && (j == 0 ==> nodes[i].children == []))
    && (i > lo ==> nodes[i].children == [])
  }

  ghost predicate Exact<S, A>(dom: Domain<S, A>, nodes: seq<Node<S, A>>, lo: nat, j: nat) {
    && Shape(nodes)
    && (forall i: nat :: i < |nodes| && nodes[i].kind.And? ==> AndExact(dom, nodes, i))
    && (forall i: nat :: i < |nodes| && nodes[i].kind.Or? ==> OrExact(dom, nodes, lo, j, i))
  }

  // ----- Labels

  ghost predicate SomeChildSolved<S, A>(nodes: seq<Node<S, A>>, i: nat) {
    exists c: nat :: Child(nodes, i, c) && c < |nodes| && nodes[c].solved
  }

  ghost predicate AllChildrenSolved<S, A>(nodes: seq<Node<S, A>>, i: nat) {
    forall c: nat :: Child(nodes, i, c) ==> c < |nodes| && nodes[c].solved
  }

  ghost predicate SomeChildDead<S, A>(nodes: seq<Node<S, A>>, i: nat) {
    exists c: nat :: Child(nodes, i, c) && c < |nodes| && nodes[c].dead
  }

  ghost predicate AllChildrenDead<S, A>(nodes: seq<Node<S, A>>, i: nat) {
    forall c: nat :: Child(nodes, i, c) ==> c < |nodes| && nodes[c].dead
  }

  // The right-hand sides of the labelling equations; open OR nodes carry no label.
  ghost predicate ShouldBeSolved<S, A>(dom: Domain<S, A>, nodes: seq<Node<S, A>>, lo: nat, i: nat)
    requires i < |nodes|
  {
    if nodes[i].kind.And? then AllChildrenSolved(nodes, i)
    else i < lo && (dom.goal(nodes[i].state) || SomeChildSolved(nodes, i))
  }

  ghost predicate ShouldBeDead<S, A>(dom: Domain<S, A>, nodes: seq<Node<S, A>>, lo: nat, i: nat)
    requires i < |nodes|
  {
    if nodes[i].kind.And? then SomeChildDead(nodes, i)
    else i < lo && !dom.goal(nodes[i].state) && AllChildrenDead(nodes, i)
  }

  ghost predicate SolvedOk<S, A>(dom: Domain<S, A>, nodes: seq<Node<S, A>>, lo: nat, i: nat)
    requires i < |nodes|
  {
    nodes[i].solved <==> ShouldBeSolved(dom, nodes, lo, i)
  }

  ghost predicate DeadOk<S, A>(dom: Domain<S, A>, nodes: seq<Node<S, A>>, lo: nat, i: nat)
    requires i < |nodes|
  {
    nodes[i].dead <==> ShouldBeDead(dom, nodes, lo, i)
  }

  ghost predicate NotBoth<S, A>(nodes: seq<Node<S, A>>) {
    forall i: nat :: i < |nodes| ==> !(nodes[i].solved && nodes[i].dead)
  }

  ghost predicate AllSolvedOk<S, A>(dom: Domain<S, A>, nodes: seq<Node<S, A>>, lo: nat) {
    forall i: nat :: i < |nodes| ==> SolvedOk(dom, nodes, lo, i)
  }

  ghost predicate AllDeadOk<S, A>(dom: Domain<S, A>, nodes: seq<Node<S, A>>, lo: nat) {
    forall i: nat :: i < |nodes| ==> DeadOk(dom, nodes, lo, i)
  }

  /** The flags are exactly the AND/OR labelling of the current tree. */
  ghost predicate Labelled<S, A>(dom: Domain<S, A>, nodes: seq<Node<S, A>>, lo: nat) {
    AllSolvedOk(dom, nodes, lo) && AllDeadOk(dom, nodes, lo) && NotBoth(nodes)
  }

  // ----- What the labels mean

  ghost predicate SolvableAtSomeDepth<S(!new), A(!new)>(dom: Domain<S, A>, s: S) {
    exists k: nat :: Solvable(dom, s, k)
  }

  lemma {:induction false} CommonDepth<S(!new), A(!new)>(dom: Domain<S, A>, outcomes: seq<S>) returns (k: nat)
    requires forall i :: 0 <= i < |outcomes| ==> SolvableAtSomeDepth(dom, outcomes[i])
    ensures forall i :: 0 <= i < |outcomes| ==> Solvable(dom, outcomes[i], k)
    decreases |outcomes|
  {
    if outcomes == [] {
      k := 0;
    } else {
      var front, last := outcomes[..|outcomes| - 1], outcomes[|outcomes| - 1];
      var k0 := CommonDepth(dom, front);
      assert SolvableAtSomeDepth(dom, last);
      var k1: nat :| Solvable(dom, last, k1);
      k := if k0 <= k1 then k1 else k0;
      forall i | 0 <= i < |outcomes|
        ensures Solvable(dom, outcomes[i], k)
      {
        if i < |front| {
          SolvableMonotone(dom, front[i], k0, k);
        } else {
          SolvableMonotone(dom, last, k1, k);
        }
      }
    }
  }

  // What a solved node promises: an OR node a strategy, an AND node strategies for all outcomes.
  ghost predicate SolvedMeaning<S(!new), A(!new)>(dom: Domain<S, A>, nodes: seq<Node<S, A>>, i: nat)
    requires Shape(nodes) && i < |nodes|
  {
    if nodes[i].kind.Or? then SolvableAtSomeDepth(dom, nodes[i].state)
    else exists k: nat :: AllSolvable(dom, Expanded(dom, nodes, i), k)
  }

  /** A solved node has a strategy. */
  lemma {:induction false} SolvedSound<S(!new), A(!new)>(dom: Domain<S, A>, nodes: seq<Node<S, A>>, lo: nat, j: nat, i: nat)
    requires Exact(dom, nodes, lo, j) && AllSolvedOk(dom, nodes, lo)
    requires i < |nodes| && nodes[i].solved
    ensures SolvedMeaning(dom, nodes, i)
    decreases |nodes| - i
  {
    assert SolvedOk(dom, nodes, lo, i);
    if nodes[i].kind.And? {
      assert AndExact(dom, nodes, i);
      var e := Expanded(dom, nodes, i);
      forall k | 0 <= k < |e.outcomes|
        ensures SolvableAtSomeDepth(dom, e.outcomes[k])
      {
        var c := nodes[i].children[k];
        assert Child(nodes, i, c);
        assert ParentFits(nodes, c);
        SolvedSound(dom, nodes, lo, j, c);
      }
      var k := CommonDepth(dom, e.outcomes);
      assert AllSolvable(dom, e, k);
    } else if dom.goal(nodes[i].state) {
      assert Solvable(dom, nodes[i].state, 0);
    } else {
      var c: nat :| Child(nodes, i, c) && c < |nodes| && nodes[c].solved;
      assert ParentFits(nodes, c);
      SolvedSound(dom, nodes, lo, j, c);
      assert AndExact(dom, nodes, c);
      var e := dom.expand(nodes[i].state, nodes[c].kind.action);
      var k: nat :| AllSolvable(dom, e, k);
      var m: nat :| m < |dom.actions| && dom.actions[m] == nodes[c].kind.action;
      assert Solvable(dom, nodes[i].state, k + 1);
    }
  }

  ghost predicate Hopeless<S(!new), A(!new)>(dom: Domain<S, A>, s: S) {
    forall k: nat :: !Solvable(dom, s, k)
  }

  ghost predicate DoomedAtSomeDepth<S(!new), A(!new)>(dom: Domain<S, A>, s: S) {
    exists k: nat :: Doomed(dom, s, k)
  }

  ghost predicate ActionDoomed<S(!new), A(!new)>(dom: Domain<S, A>, s: S, m: nat)
    requires m < |dom.actions|
  {
    exists k: nat :: DoomedBy(dom, dom.expand(s, dom.actions[m]), k)
  }

  // One depth for the refutations of the first n actions.
  lemma {:induction false} CommonRefutation<S(!new), A(!new)>(dom: Domain<S, A>, s: S, n: nat) returns (k: nat)
    requires n <= |dom.actions| && forall m: nat :: m < n ==> ActionDoomed(dom, s, m)
    ensures forall m: nat :: m < n ==> DoomedBy(dom, dom.expand(s, dom.actions[m]), k)
    decreases n
  {
    if n == 0 {
      k := 0;
    } else {
      var k0 := CommonRefutation(dom, s, n - 1);
      assert ActionDoomed(dom, s, n - 1);
      var k1: nat :| DoomedBy(dom, dom.expand(s, dom.actions[n - 1]), k1);
      k := if k0 <= k1 then k1 else k0;
      forall m: nat | m < n
        ensures DoomedBy(dom, dom.expand(s, dom.actions[m]), k)
      {
        DoomedByMonotone(dom, dom.expand(s, dom.actions[m]), if m < n - 1 then k0 else k1, k);
      }
    }
  }

  // What a dead node promises: an OR node a refutation, an AND node one of some outcome.
  ghost predicate DeadMeaning<S(!new), A(!new)>(dom: Domain<S, A>, nodes: seq<Node<S, A>>, i: nat)
    requires Shape(nodes) && i < |nodes|
  {
    if nodes[i].kind.Or? then DoomedAtSomeDepth(dom, nodes[i].state)
    else exists k: nat :: DoomedBy(dom, Expanded(dom, nodes, i), k)
  }

  /** A dead node has a refutation. */
  lemma {:induction false} DeadSound<S(!new), A(!new)>(dom: Domain<S, A>, nodes: seq<Node<S, A>>, lo: nat, j: nat, i: nat)
    requires Exact(dom, nodes, lo, j) && AllDeadOk(dom, nodes, lo)
    requires i < |nodes| && nodes[i].dead
    ensures DeadMeaning(dom, nodes, i)
    decreases |nodes| - i, 1
  {
    assert DeadOk(dom, nodes, lo, i);
    if nodes[i].kind.And? {
      DeadAnd(dom, nodes, lo, j, i);
    } else {
      var s := nodes[i].state;
      assert OrExact(dom, nodes, lo, j, i);
      forall m: nat | m < |dom.actions|
        ensures ActionDoomed(dom, s, m)
      {
        if dom.expand(s, dom.actions[m]).Branches? {
          assert HasActionChild(nodes, i, dom.actions[m]);
          var c: nat :| Child(nodes, i, c) && c < |nodes| && nodes[c].kind == And(dom.actions[m]);
          DeadSound(dom, nodes, lo, j, c);
        } else {
          assert DoomedBy(dom, dom.expand(s, dom.actions[m]), 0);
        }
      }
      var k := CommonRefutation(dom, s, |dom.actions|);
      assert Doomed(dom, s, k);
    }
  }

  lemma {:induction false} DeadAnd<S(!new), A(!new)>(dom: Domain<S, A>, nodes: seq<Node<S, A>>, lo: nat, j: nat, i: nat)
    requires Exact(dom, nodes, lo, j) && AllDeadOk(dom, nodes, lo)
    requires i < |nodes| && nodes[i].dead && nodes[i].kind.And?
    ensures DeadMeaning(dom, nodes, i)
    decreases |nodes| - i, 0
  {
    assert DeadOk(dom, nodes, lo, i);
    assert AndExact(dom, nodes, i);
    var e := Expanded(dom, nodes, i);
    var c: nat :| Child(nodes, i, c) && c < |nodes| && nodes[c].dead;
    assert ParentFits(nodes, c);
    DeadSound(dom, nodes, lo, j, c);
    var n: nat :| n < |nodes[i].children| && nodes[i].children[n] == c;
    assert nodes[c].state == e.outcomes[n];
    var k: nat :| Doomed(dom, e.outcomes[n], k);
    assert DoomedBy(dom, e, k + 1);
  }

  /** With nothing left open, every node has a label. */
  lemma {:induction false} ClosedTreeLabelled<S(!new), A(!new)>(
    dom: Domain<S, A>, nodes: seq<Node<S, A>>, lo: nat, j: nat, i: nat)
    requires Exact(dom, nodes, lo, j) && Labelled(dom, nodes, lo)
    requires forall n: nat :: lo <= n < |nodes| ==> nodes[n].kind.And?
    requires i < |nodes|
    ensures nodes[i].solved || nodes[i].dead
    decreases |nodes| - i
  {
    assert SolvedOk(dom, nodes, lo, i) && DeadOk(dom, nodes, lo, i);
    forall c: nat | Child(nodes, i, c)
      ensures c < |nodes| && (nodes[c].solved || nodes[c].dead)
    {
      ClosedTreeLabelled(dom, nodes, lo, j, c);
    }
  }

  // ----- The labelling is unique

  // The same tree, possibly with other labels.
  ghost predicate SameTree<S, A>(nodes: seq<Node<S, A>>, nodes': seq<Node<S, A>>) {
    && |nodes| == |nodes'|
    && forall i: nat :: i < |nodes| ==> SameNode(nodes[i], nodes'[i])
  }

  ghost predicate SameNode<S, A>(n: Node<S, A>, n': Node<S, A>) {
    && n'.kind == n.kind && n'.state == n.state && n'.parent == n.parent
    && n'.root == n.root && n'.children == n.children
  }

  lemma {:induction false} LabelUnique<S, A>(dom: Domain<S, A>, nodes: seq<Node<S, A>>, nodes': seq<Node<S, A>>, lo: nat, i: nat)
    requires Shape(nodes) && SameTree(nodes, nodes') && i < |nodes|
    requires AllSolvedOk(dom, nodes, lo) && AllDeadOk(dom, nodes, lo)
    requires AllSolvedOk(dom, nodes', lo) && AllDeadOk(dom, nodes', lo)
    ensures nodes[i] == nodes'[i]
    decreases |nodes| - i
  {
    assert SameNode(nodes[i], nodes'[i]);
    assert forall c: nat :: Child(nodes', i, c) <==> Child(nodes, i, c);
    forall c: nat | Child(nodes, i, c)
      ensures c < |nodes| && nodes[c] == nodes'[c]
    {
      LabelUnique(dom, nodes, nodes', lo, c);
    }
    assert SolvedOk(dom, nodes, lo, i) && SolvedOk(dom, nodes', lo, i);
    assert DeadOk(dom, nodes, lo, i) && DeadOk(dom, nodes', lo, i);
  }

  /** The labelling equations have one solution on a tree: its least labelling is its only one. */
  lemma LabellingUnique<S, A>(dom: Domain<S, A>, nodes: seq<Node<S, A>>, nodes': seq<Node<S, A>>, lo: nat)
    requires Shape(nodes) && SameTree(nodes, nodes')
    requires AllSolvedOk(dom, nodes, lo) && AllDeadOk(dom, nodes, lo)
    requires AllSolvedOk(dom, nodes', lo) && AllDeadOk(dom, nodes', lo)
    ensures nodes == nodes'
  {
    forall i: nat | i < |nodes|
      ensures nodes[i] == nodes'[i]
    {
      LabelUnique(dom, nodes, nodes', lo, i);
    }
  }
}
