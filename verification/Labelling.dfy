/** How setting one label and walking up the parents restores the labelling. */
module Labelling {
  import opened AndOr

  lemma SameTreeChild<S, A>(nodes: seq<Node<S, A>>, nodes': seq<Node<S, A>>)
    requires SameTree(nodes, nodes')
    ensures forall i: nat, c: nat :: Child(nodes', i, c) <==> Child(nodes, i, c)
  {
    forall i: nat, c: nat
      ensures Child(nodes', i, c) <==> Child(nodes, i, c)
    {
      if i < |nodes| {
        assert SameNode(nodes[i], nodes'[i]);
      }
    }
  }

  lemma SameTreeShape<S, A>(nodes: seq<Node<S, A>>, nodes': seq<Node<S, A>>)
    requires SameTree(nodes, nodes') && Shape(nodes)
    ensures Shape(nodes')
  {
    SameTreeChild(nodes, nodes');
    assert SameNode(nodes[0], nodes'[0]);
    forall i: nat | 0 < i < |nodes'|
      ensures ParentFits(nodes', i)
    {
      assert ParentFits(nodes, i) && SameNode(nodes[i], nodes'[i]);
      assert SameNode(nodes[nodes[i].parent], nodes'[nodes[i].parent]);
    }
    forall i: nat, c: nat | Child(nodes', i, c)
      ensures i < c < |nodes'| && nodes'[c].parent == i
    {
      assert Child(nodes, i, c) && SameNode(nodes[c], nodes'[c]);
    }
    forall i: nat | i < |nodes'|
      ensures Ascends(nodes'[i].children)
    {
      assert SameNode(nodes[i], nodes'[i]);
    }
  }

  lemma SameTreeAnd<S, A>(dom: Domain<S, A>, nodes: seq<Node<S, A>>, nodes': seq<Node<S, A>>, i: nat)
    requires SameTree(nodes, nodes') && Shape(nodes) && Shape(nodes')
    requires i < |nodes| && nodes[i].kind.And? && AndExact(dom, nodes, i)
    ensures nodes'[i].kind.And? && AndExact(dom, nodes', i)
  {
    SameTreeChild(nodes, nodes');
    assert ParentFits(nodes, i) && SameNode(nodes[i], nodes'[i]);
    assert SameNode(nodes[nodes[i].parent], nodes'[nodes[i].parent]);
    var e := Expanded(dom, nodes, i);
    forall k: nat | k < |e.outcomes|
      ensures Child(nodes', i, nodes'[i].children[k]) && nodes'[i].children[k] < |nodes'|
      ensures nodes'[nodes'[i].children[k]].state == e.outcomes[k]
    {
      var c := nodes[i].children[k];
      assert Child(nodes, i, c) && SameNode(nodes[c], nodes'[c]);
    }
  }

  lemma SameTreeTried<S, A>(dom: Domain<S, A>, nodes: seq<Node<S, A>>, nodes': seq<Node<S, A>>, i: nat, j: nat)
    requires SameTree(nodes, nodes') && Shape(nodes) && Shape(nodes')
    requires i < |nodes| && OrTried(dom, nodes, i, j)
    ensures OrTried(dom, nodes', i, j)
  {
    SameTreeChild(nodes, nodes');
    assert SameNode(nodes[i], nodes'[i]);
    forall m: nat | m < j && dom.expand(nodes'[i].state, dom.actions[m]).Branches?
      ensures HasActionChild(nodes', i, dom.actions[m])
    {
      assert HasActionChild(nodes, i, dom.actions[m]);
      var c: nat :| Child(nodes, i, c) && c < |nodes| && nodes[c].kind == And(dom.actions[m]);
      assert SameNode(nodes[c], nodes'[c]);
      assert Child(nodes', i, c);
    }
  }

  lemma SameTreeExact<S, A>(dom: Domain<S, A>, nodes: seq<Node<S, A>>, nodes': seq<Node<S, A>>, lo: nat, j: nat)
    requires SameTree(nodes, nodes') && Exact(dom, nodes, lo, j)
    ensures Exact(dom, nodes', lo, j)
  {
    SameTreeShape(nodes, nodes');
    forall i: nat | i < |nodes'| && nodes'[i].kind.And?
      ensures AndExact(dom, nodes', i)
    {
      assert SameNode(nodes[i], nodes'[i]);
      SameTreeAnd(dom, nodes, nodes', i);
    }
    forall i: nat | i < |nodes'| && nodes'[i].kind.Or?
      ensures OrExact(dom, nodes', lo, j, i)
    {
      assert SameNode(nodes[i], nodes'[i]);
      assert OrExact(dom, nodes, lo, j, i);
      if i < lo && !dom.goal(nodes[i].state) {
        SameTreeTried(dom, nodes, nodes', i, |dom.actions|);
      }
      if i == lo {
        SameTreeTried(dom, nodes, nodes', i, j);
      }
    }
  }

  ghost predicate SameDead<S, A>(nodes: seq<Node<S, A>>, nodes': seq<Node<S, A>>) {
    |nodes| == |nodes'| && forall i: nat :: i < |nodes| ==> nodes'[i].dead == nodes[i].dead
  }

  ghost predicate SameSolved<S, A>(nodes: seq<Node<S, A>>, nodes': seq<Node<S, A>>) {
    |nodes| == |nodes'| && forall i: nat :: i < |nodes| ==> nodes'[i].solved == nodes[i].solved
  }

  // ----- Setting one flag

  ghost function Solve<S, A>(nodes: seq<Node<S, A>>, i: nat): (r: seq<Node<S, A>>)
    requires i < |nodes|
    ensures SameTree(nodes, r) && SameDead(nodes, r)
  {
    nodes[i := nodes[i].(solved := true)]
  }

  ghost function Kill<S, A>(nodes: seq<Node<S, A>>, i: nat): (r: seq<Node<S, A>>)
    requires i < |nodes|
    ensures SameTree(nodes, r) && SameSolved(nodes, r)
  {
    nodes[i := nodes[i].(dead := true)]
  }

  // What the solved check of one node answers.
  ghost predicate SolvedCheck<S, A>(nodes: seq<Node<S, A>>, i: nat)
    requires i < |nodes|
  {
    nodes[i].solved || (!nodes[i].dead && if nodes[i].kind.And? then AllChildrenSolved(nodes, i) else SomeChildSolved(nodes, i))
  }

  ghost predicate DeadCheck<S, A>(nodes: seq<Node<S, A>>, i: nat)
    requires i < |nodes|
  {
    nodes[i].dead || (!nodes[i].solved && if nodes[i].kind.And? then SomeChildDead(nodes, i) else AllChildrenDead(nodes, i))
  }

  ghost predicate SolvedElsewhere<S, A>(dom: Domain<S, A>, nodes: seq<Node<S, A>>, lo: nat, i: nat) {
    forall n: nat :: n < |nodes| && n != i ==> SolvedOk(dom, nodes, lo, n)
  }

  ghost predicate DeadElsewhere<S, A>(dom: Domain<S, A>, nodes: seq<Node<S, A>>, lo: nat, i: nat) {
    forall n: nat :: n < |nodes| && n != i ==> DeadOk(dom, nodes, lo, n)
  }

  // Everything is labelled except that node i may still have to become solved.
  ghost predicate SolvingAt<S, A>(dom: Domain<S, A>, nodes: seq<Node<S, A>>, lo: nat, i: nat) {
    && Exact(dom, nodes, lo, 0) && i < |nodes| && nodes[i].children != []
    && AllDeadOk(dom, nodes, lo) && NotBoth(nodes)
    && SolvedElsewhere(dom, nodes, lo, i)
    && (nodes[i].solved ==> ShouldBeSolved(dom, nodes, lo, i))
  }

  ghost predicate KillingAt<S, A>(dom: Domain<S, A>, nodes: seq<Node<S, A>>, lo: nat, i: nat) {
    && Exact(dom, nodes, lo, 0) && i < |nodes| && nodes[i].children != []
    && AllSolvedOk(dom, nodes, lo) && NotBoth(nodes)
    && DeadElsewhere(dom, nodes, lo, i)
    && (nodes[i].dead ==> ShouldBeDead(dom, nodes, lo, i))
  }

  // A node with children is a closed non-goal OR node or an AND node.
  lemma InnerNode<S, A>(dom: Domain<S, A>, nodes: seq<Node<S, A>>, lo: nat, i: nat)
    requires Exact(dom, nodes, lo, 0) && i < |nodes| && nodes[i].children != []
    ensures nodes[i].kind.Or? ==> i < lo && !dom.goal(nodes[i].state)
    ensures exists c: nat :: Child(nodes, i, c)
  {
    if nodes[i].kind.Or? {
      assert OrExact(dom, nodes, lo, 0, i);
    }
    assert Child(nodes, i, nodes[i].children[0]);
  }

  lemma SolveKeepsDead<S, A>(dom: Domain<S, A>, nodes: seq<Node<S, A>>, lo: nat, i: nat)
    requires i < |nodes| && AllDeadOk(dom, nodes, lo)
    ensures AllDeadOk(dom, Solve(nodes, i), lo)
  {
    var nodes' := Solve(nodes, i);
    SameTreeChild(nodes, nodes');
    forall n: nat | n < |nodes'|
      ensures DeadOk(dom, nodes', lo, n)
    {
      assert DeadOk(dom, nodes, lo, n) && SameNode(nodes[n], nodes'[n]);
      assert SomeChildDead(nodes', n) <==> SomeChildDead(nodes, n);
      assert AllChildrenDead(nodes', n) <==> AllChildrenDead(nodes, n);
    }
  }

  lemma SolveKeepsOthers<S, A>(dom: Domain<S, A>, nodes: seq<Node<S, A>>, lo: nat, i: nat, n: nat)
    requires Shape(nodes) && i < |nodes| && n < |nodes| && SolvedOk(dom, nodes, lo, n)
    requires n != i && (i == 0 || n != nodes[i].parent)
    ensures SolvedOk(dom, Solve(nodes, i), lo, n)
  {
    var nodes' := Solve(nodes, i);
    SameTreeChild(nodes, nodes');
    assert SameNode(nodes[n], nodes'[n]);
    assert !Child(nodes, n, i);
    assert SomeChildSolved(nodes', n) <==> SomeChildSolved(nodes, n) by {
      if SomeChildSolved(nodes', n) {
        var c: nat :| Child(nodes', n, c) && c < |nodes'| && nodes'[c].solved;
        assert Child(nodes, n, c) && nodes[c].solved;
      }
      if SomeChildSolved(nodes, n) {
        var c: nat :| Child(nodes, n, c) && c < |nodes| && nodes[c].solved;
        assert Child(nodes', n, c) && nodes'[c].solved;
      }
    }
    assert AllChildrenSolved(nodes', n) <==> AllChildrenSolved(nodes, n);
  }

  lemma SolveRaises<S, A>(dom: Domain<S, A>, nodes: seq<Node<S, A>>, lo: nat, i: nat, n: nat)
    requires i < |nodes| && n < |nodes| && ShouldBeSolved(dom, nodes, lo, n)
    ensures ShouldBeSolved(dom, Solve(nodes, i), lo, n)
  {
    var nodes' := Solve(nodes, i);
    SameTreeChild(nodes, nodes');
    assert SameNode(nodes[n], nodes'[n]);
    if SomeChildSolved(nodes, n) {
      var c: nat :| Child(nodes, n, c) && c < |nodes| && nodes[c].solved;
      assert Child(nodes', n, c) && nodes'[c].solved;
    }
  }

  // Flags of node i are as they should be after the check.
  lemma SolvedCheckOk<S, A>(dom: Domain<S, A>, nodes: seq<Node<S, A>>, lo: nat, i: nat)
    requires SolvingAt(dom, nodes, lo, i)
    ensures SolvedCheck(nodes, i) <==> ShouldBeSolved(dom, nodes, lo, i)
    ensures SolvedCheck(nodes, i) ==> !nodes[i].dead
  {
    InnerNode(dom, nodes, lo, i);
    assert DeadOk(dom, nodes, lo, i);
    if nodes[i].dead {
      var c: nat :| Child(nodes, i, c) && c < |nodes| && nodes[c].dead;
    }
  }

  /** One step of the walk that propagates a solved node. */
  lemma SolveStep<S, A>(dom: Domain<S, A>, nodes: seq<Node<S, A>>, lo: nat, i: nat)
    requires SolvingAt(dom, nodes, lo, i)
    ensures !SolvedCheck(nodes, i) ==> Labelled(dom, nodes, lo)
    ensures SolvedCheck(nodes, i) && i == 0 ==> Labelled(dom, Solve(nodes, i), lo)
    ensures SolvedCheck(nodes, i) && i > 0 ==> nodes[i].parent < i && SolvingAt(dom, Solve(nodes, i), lo, nodes[i].parent)
  {
    SolvedCheckOk(dom, nodes, lo, i);
    if SolvedCheck(nodes, i) {
      SolveMarks(dom, nodes, lo, i);
    } else {
      assert SolvedOk(dom, nodes, lo, i);
    }
  }

  // Setting the flag of a node that should be solved leaves only its parent in doubt.
  lemma SolveMarks<S, A>(dom: Domain<S, A>, nodes: seq<Node<S, A>>, lo: nat, i: nat)
    requires Exact(dom, nodes, lo, 0) && AllDeadOk(dom, nodes, lo) && NotBoth(nodes)
    requires i < |nodes| && !nodes[i].dead && ShouldBeSolved(dom, nodes, lo, i)
    requires SolvedElsewhere(dom, nodes, lo, i)
    ensures i == 0 ==> Labelled(dom, Solve(nodes, i), lo)
    ensures i > 0 ==> nodes[i].parent < i && SolvingAt(dom, Solve(nodes, i), lo, nodes[i].parent)
  {
    var nodes' := Solve(nodes, i);
    SameTreeExact(dom, nodes, nodes', lo, 0);
    SolveKeepsDead(dom, nodes, lo, i);
    SolveRaises(dom, nodes, lo, i, i);
    assert SolvedOk(dom, nodes', lo, i);
    forall n: nat | n < |nodes| && n != i && (i == 0 || n != nodes[i].parent)
      ensures SolvedOk(dom, nodes', lo, n)
    {
      assert SolvedOk(dom, nodes, lo, n);
      SolveKeepsOthers(dom, nodes, lo, i, n);
    }
    if i > 0 {
      var p := nodes[i].parent;
      assert ParentFits(nodes, i);
      assert SameNode(nodes[p], nodes'[p]);
      if nodes'[p].solved {
        assert SolvedOk(dom, nodes, lo, p);
        SolveRaises(dom, nodes, lo, i, p);
      }
    }
  }

  // ----- The same for dead nodes

  lemma KillKeepsSolved<S, A>(dom: Domain<S, A>, nodes: seq<Node<S, A>>, lo: nat, i: nat)
    requires i < |nodes| && AllSolvedOk(dom, nodes, lo)
    ensures AllSolvedOk(dom, Kill(nodes, i), lo)
  {
    var nodes' := Kill(nodes, i);
    SameTreeChild(nodes, nodes');
    forall n: nat | n < |nodes'|
      ensures SolvedOk(dom, nodes', lo, n)
    {
      assert SolvedOk(dom, nodes, lo, n) && SameNode(nodes[n], nodes'[n]);
      assert SomeChildSolved(nodes', n) <==> SomeChildSolved(nodes, n);
      assert AllChildrenSolved(nodes', n) <==> AllChildrenSolved(nodes, n);
    }
  }

  lemma KillKeepsOthers<S, A>(dom: Domain<S, A>, nodes: seq<Node<S, A>>, lo: nat, i: nat, n: nat)
    requires Shape(nodes) && i < |nodes| && n < |nodes| && DeadOk(dom, nodes, lo, n)
    requires n != i && (i == 0 || n != nodes[i].parent)
    ensures DeadOk(dom, Kill(nodes, i), lo, n)
  {
    var nodes' := Kill(nodes, i);
    SameTreeChild(nodes, nodes');
    assert SameNode(nodes[n], nodes'[n]);
    assert !Child(nodes, n, i);
    assert SomeChildDead(nodes', n) <==> SomeChildDead(nodes, n) by {
      if SomeChildDead(nodes', n) {
        var c: nat :| Child(nodes', n, c) && c < |nodes'| && nodes'[c].dead;
        assert Child(nodes, n, c) && nodes[c].dead;
      }
      if SomeChildDead(nodes, n) {
        var c: nat :| Child(nodes, n, c) && c < |nodes| && nodes[c].dead;
        assert Child(nodes', n, c) && nodes'[c].dead;
      }
    }
    assert AllChildrenDead(nodes', n) <==> AllChildrenDead(nodes, n);
  }

  lemma KillRaises<S, A>(dom: Domain<S, A>, nodes: seq<Node<S, A>>, lo: nat, i: nat, n: nat)
    requires i < |nodes| && n < |nodes| && ShouldBeDead(dom, nodes, lo, n)
    ensures ShouldBeDead(dom, Kill(nodes, i), lo, n)
  {
    var nodes' := Kill(nodes, i);
    SameTreeChild(nodes, nodes');
    assert SameNode(nodes[n], nodes'[n]);
    if SomeChildDead(nodes, n) {
      var c: nat :| Child(nodes, n, c) && c < |nodes| && nodes[c].dead;
      assert Child(nodes', n, c) && nodes'[c].dead;
    }
  }

  lemma DeadCheckOk<S, A>(dom: Domain<S, A>, nodes: seq<Node<S, A>>, lo: nat, i: nat)
    requires KillingAt(dom, nodes, lo, i)
    ensures DeadCheck(nodes, i) <==> ShouldBeDead(dom, nodes, lo, i)
    ensures DeadCheck(nodes, i) ==> !nodes[i].solved
  {
    InnerNode(dom, nodes, lo, i);
    assert SolvedOk(dom, nodes, lo, i);
    var first: nat :| Child(nodes, i, first);
    if nodes[i].solved && nodes[i].kind.Or? {
      var c: nat :| Child(nodes, i, c) && c < |nodes| && nodes[c].solved;
    }
  }

  /** One step of the walk that propagates a dead end. */
  lemma KillStep<S, A>(dom: Domain<S, A>, nodes: seq<Node<S, A>>, lo: nat, i: nat)
    requires KillingAt(dom, nodes, lo, i)
    ensures !DeadCheck(nodes, i) ==> Labelled(dom, nodes, lo)
    ensures DeadCheck(nodes, i) && i == 0 ==> Labelled(dom, Kill(nodes, i), lo)
    ensures DeadCheck(nodes, i) && i > 0 ==> nodes[i].parent < i && KillingAt(dom, Kill(nodes, i), lo, nodes[i].parent)
  {
    DeadCheckOk(dom, nodes, lo, i);
    if DeadCheck(nodes, i) {
      KillMarks(dom, nodes, lo, i);
    } else {
      assert DeadOk(dom, nodes, lo, i);
    }
  }

  lemma KillMarks<S, A>(dom: Domain<S, A>, nodes: seq<Node<S, A>>, lo: nat, i: nat)
    requires Exact(dom, nodes, lo, 0) && AllSolvedOk(dom, nodes, lo) && NotBoth(nodes)
    requires i < |nodes| && !nodes[i].solved && ShouldBeDead(dom, nodes, lo, i)
    requires DeadElsewhere(dom, nodes, lo, i)
    ensures i == 0 ==> Labelled(dom, Kill(nodes, i), lo)
    ensures i > 0 ==> nodes[i].parent < i && KillingAt(dom, Kill(nodes, i), lo, nodes[i].parent)
  {
    var nodes' := Kill(nodes, i);
    SameTreeExact(dom, nodes, nodes', lo, 0);
    KillKeepsSolved(dom, nodes, lo, i);
    KillRaises(dom, nodes, lo, i, i);
    assert DeadOk(dom, nodes', lo, i);
    forall n: nat | n < |nodes| && n != i && (i == 0 || n != nodes[i].parent)
      ensures DeadOk(dom, nodes', lo, n)
    {
      assert DeadOk(dom, nodes, lo, n);
      KillKeepsOthers(dom, nodes, lo, i, n);
    }
    if i > 0 {
      var p := nodes[i].parent;
      assert ParentFits(nodes, i);
      assert SameNode(nodes[p], nodes'[p]);
      if nodes'[p].dead {
        assert DeadOk(dom, nodes, lo, p);
        KillRaises(dom, nodes, lo, i, p);
      }
    }
  }
}
