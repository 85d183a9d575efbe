/** How expanding a node changes the tree, and the breadth-first order of the
    frontier. */
module Growth {
  import opened AndOr
  import opened Labelling

  // ----- Adding one action's AND node and its OR children

  function OrNode<S, A>(state: S, parent: nat, root: bool): (n: Node<S, A>) {
    Node(Or, state, parent, root, false, false, [])
  }

  function AndNode<S, A>(a: A, state: S, parent: nat): (n: Node<S, A>) {
    Node(And(a), state, parent, false, false, false, [])
  }

  function WithChild<S, A>(n: Node<S, A>, c: nat): (r: Node<S, A>) {
    n.(children := n.children + [c])
  }

  ghost function Ids(first: nat, count: nat): (ids: seq<nat>)
    ensures |ids| == count
    ensures forall k: nat :: k < count ==> ids[k] == first + k
    ensures forall x: nat :: x in ids <==> first <= x < first + count
  {
    if count == 0 then [] else Ids(first, count - 1) + [first + count - 1]
  }

  ghost function Leaves<S, A>(outcomes: seq<S>, parent: nat): (ns: seq<Node<S, A>>)
    ensures |ns| == |outcomes|
    ensures forall k: nat :: k < |ns| ==> ns[k] == OrNode(outcomes[k], parent, false)
  {
    seq(|outcomes|, k requires 0 <= k < |outcomes| => OrNode(outcomes[k], parent, false))
  }

  // The tree after trying one action of node p that leads to the given outcomes.
  ghost function Grown<S, A>(nodes: seq<Node<S, A>>, p: nat, a: A, result: S, outcomes: seq<S>): (r: seq<Node<S, A>>)
    requires p < |nodes|
  {
    var c: nat := |nodes|;
    nodes[p := WithChild(nodes[p], c)]
      + [AndNode(a, result, p).(children := Ids(c + 1, |outcomes|))]
      + Leaves(outcomes, c)
  }

  lemma GrownSnoc<S, A>(nodes: seq<Node<S, A>>, p: nat, a: A, result: S, outcomes: seq<S>, o: S)
    requires p < |nodes|
    ensures var r, c: nat, x: nat := Grown(nodes, p, a, result, outcomes), |nodes|, |nodes| + 1 + |outcomes|;
            && |r| == x
            && Grown(nodes, p, a, result, outcomes + [o]) == (r + [OrNode(o, c, false)])[c := WithChild(r[c], x)]
  {
    var r, c, x := Grown(nodes, p, a, result, outcomes), |nodes|, |nodes| + 1 + |outcomes|;
    var left, right := Grown(nodes, p, a, result, outcomes + [o]), (r + [OrNode(o, c, false)])[c := WithChild(r[c], x)];
    assert Ids(c + 1, |outcomes| + 1) == Ids(c + 1, |outcomes|) + [x];
    assert |left| == |right|;
    forall i: nat | i < |left|
      ensures left[i] == right[i]
    {
    }
  }

  ghost predicate Grows<S, A>(nodes: seq<Node<S, A>>, p: nat, a: A, result: S, outcomes: seq<S>, r: seq<Node<S, A>>) {
    p < |nodes| && r == Grown(nodes, p, a, result, outcomes)
  }

  lemma GrownFront<S, A>(nodes: seq<Node<S, A>>, p: nat, a: A, result: S, outcomes: seq<S>, r: seq<Node<S, A>>)
    requires Grows(nodes, p, a, result, outcomes, r)
    ensures |r| == |nodes| + 1 + |outcomes|
    ensures r[p] == WithChild(nodes[p], |nodes|)
    ensures forall i: nat :: i < |nodes| && i != p ==> r[i] == nodes[i]
    ensures r[|nodes|] == AndNode(a, result, p).(children := Ids(|nodes| + 1, |outcomes|))
  {
  }

  lemma GrownBack<S, A>(nodes: seq<Node<S, A>>, p: nat, a: A, result: S, outcomes: seq<S>, r: seq<Node<S, A>>, i: nat)
    requires Grows(nodes, p, a, result, outcomes, r)
    requires |r| == |nodes| + 1 + |outcomes| && |nodes| < i < |r|
    ensures r[i] == OrNode(outcomes[i - |nodes| - 1], |nodes|, false)
  {
    var k: nat := i - |nodes| - 1;
    assert r[|nodes| + 1 + k] == OrNode(outcomes[k], |nodes|, false);
  }

  lemma GrownNodes<S, A>(nodes: seq<Node<S, A>>, p: nat, a: A, result: S, outcomes: seq<S>, r: seq<Node<S, A>>)
    requires Grows(nodes, p, a, result, outcomes, r)
    ensures var c: nat := |nodes|;
            && |r| == c + 1 + |outcomes|
            && r[p] == WithChild(nodes[p], c)
            && (forall i: nat :: i < c && i != p ==> r[i] == nodes[i])
            && r[c] == AndNode(a, result, p).(children := Ids(c + 1, |outcomes|))
            && (forall i: nat :: c < i < |r| ==> r[i] == OrNode(outcomes[i - c - 1], c, false))
  {
    GrownFront(nodes, p, a, result, outcomes, r);
    forall i: nat | |nodes| < i < |r|
      ensures r[i] == OrNode(outcomes[i - |nodes| - 1], |nodes|, false)
    {
      GrownBack(nodes, p, a, result, outcomes, r, i);
    }
  }

  lemma GrownChild<S, A>(nodes: seq<Node<S, A>>, p: nat, a: A, result: S, outcomes: seq<S>, r: seq<Node<S, A>>)
    requires Grows(nodes, p, a, result, outcomes, r)
    ensures forall i: nat, x: nat :: Child(r, i, x) <==>
              (Child(nodes, i, x) || (i == p && x == |nodes|) || (i == |nodes| && |nodes| < x < |r|))
  {
    GrownNodes(nodes, p, a, result, outcomes, r);
    var c: nat := |nodes|;
    forall i: nat, x: nat
      ensures Child(r, i, x) <==> (Child(nodes, i, x) || (i == p && x == c) || (i == c && c < x < |r|))
    {
      if i == p {
        assert x in r[p].children <==> x in nodes[p].children || x == c;
      } else if i < c {
        assert r[i] == nodes[i];
      } else if c < i < |r| {
        assert r[i].children == [];
      }
    }
  }

  // The node being expanded: an open OR leaf or one with some actions tried.
  ghost predicate Expanding<S, A>(dom: Domain<S, A>, nodes: seq<Node<S, A>>, p: nat, j: nat) {
    && Exact(dom, nodes, p, j) && Labelled(dom, nodes, p)
    && p < |nodes| && nodes[p].kind.Or? && !dom.goal(nodes[p].state)
  }

  ghost predicate Tries<S, A>(dom: Domain<S, A>, nodes: seq<Node<S, A>>, p: nat, j: nat, result: S, outcomes: seq<S>)
  {
    && Expanding(dom, nodes, p, j) && j < |dom.actions| && outcomes != []
    && dom.expand(nodes[p].state, dom.actions[j]) == Branches(result, outcomes)
  }

  lemma GrownShape<S, A>(
    dom: Domain<S, A>, nodes: seq<Node<S, A>>, p: nat, j: nat, result: S, outcomes: seq<S>, r: seq<Node<S, A>>)
    requires Tries(dom, nodes, p, j, result, outcomes) && Grows(nodes, p, dom.actions[j], result, outcomes, r)
    ensures Shape(r)
  {
    var c: nat := |nodes|;
    GrownNodes(nodes, p, dom.actions[j], result, outcomes, r);
    GrownChild(nodes, p, dom.actions[j], result, outcomes, r);
    forall i: nat | 0 < i < |r|
      ensures ParentFits(r, i)
    {
      if i < c {
        assert ParentFits(nodes, i);
        assert Child(r, nodes[i].parent, i);
      } else if i == c {
        assert Child(r, p, c);
      } else {
        assert Child(r, c, i);
      }
    }
    forall i: nat | i < |r|
      ensures Ascends(r[i].children)
    {
      if i == p {
        assert forall k :: 0 <= k < |nodes[p].children| ==> Child(nodes, p, nodes[p].children[k]);
      }
    }
  }

  lemma GrownOldAnd<S, A>(
    dom: Domain<S, A>, nodes: seq<Node<S, A>>, p: nat, j: nat, result: S, outcomes: seq<S>, r: seq<Node<S, A>>,
    i: nat)
    requires Tries(dom, nodes, p, j, result, outcomes) && Grows(nodes, p, dom.actions[j], result, outcomes, r)
    requires Shape(r) && i < |nodes| && nodes[i].kind.And?
    ensures r[i] == nodes[i] && AndExact(dom, r, i)
  {
    GrownNodes(nodes, p, dom.actions[j], result, outcomes, r);
    GrownChild(nodes, p, dom.actions[j], result, outcomes, r);
    assert AndExact(dom, nodes, i) && ParentFits(nodes, i);
    var e := Expanded(dom, nodes, i);
    assert Expanded(dom, r, i) == e;
    forall k: nat | k < |e.outcomes|
      ensures Child(r, i, r[i].children[k]) && r[i].children[k] < |r| && r[r[i].children[k]].state == e.outcomes[k]
    {
      assert Child(nodes, i, nodes[i].children[k]);
    }
  }

  lemma GrownNewChild<S, A>(
    dom: Domain<S, A>, nodes: seq<Node<S, A>>, p: nat, j: nat, result: S, outcomes: seq<S>, r: seq<Node<S, A>>,
    k: nat)
    requires Tries(dom, nodes, p, j, result, outcomes) && Grows(nodes, p, dom.actions[j], result, outcomes, r)
    requires k < |outcomes|
    ensures |r| == |nodes| + 1 + |outcomes| && |r[|nodes|].children| == |outcomes|
    ensures NewChildAt(r, |nodes|, outcomes, k)
  {
    var c: nat := |nodes|;
    GrownNodes(nodes, p, dom.actions[j], result, outcomes, r);
    var x: nat := c + 1 + k;
    assert r[c].children[k] == x;
    assert r[x] == OrNode(outcomes[k], c, false);
    assert x in r[c].children;
  }

  lemma GrownNewAnd<S, A>(
    dom: Domain<S, A>, nodes: seq<Node<S, A>>, p: nat, j: nat, result: S, outcomes: seq<S>, r: seq<Node<S, A>>)
    requires Tries(dom, nodes, p, j, result, outcomes) && Grows(nodes, p, dom.actions[j], result, outcomes, r)
    requires Shape(r)
    ensures r[|nodes|].kind.And? && AndExact(dom, r, |nodes|)
  {
    forall k: nat | k < |outcomes|
      ensures NewChildAt(r, |nodes|, outcomes, k)
    {
      GrownNewChild(dom, nodes, p, j, result, outcomes, r, k);
    }
    NewAndExpanded(dom, nodes, p, j, result, outcomes, r);
    AndExactFrom(dom, r, |nodes|, result, outcomes);
  }

  ghost predicate NewChildAt<S, A>(r: seq<Node<S, A>>, c: nat, outcomes: seq<S>, k: nat) {
    c < |r| && k < |r[c].children| && k < |outcomes| &&
    var x := r[c].children[k];
    x < |r| && Child(r, c, x) && r[x].state == outcomes[k]
  }

  lemma AndExactFrom<S, A>(dom: Domain<S, A>, r: seq<Node<S, A>>, c: nat, result: S, outcomes: seq<S>)
    requires Shape(r) && c < |r| && r[c].kind.And? && r[c].kind.action in dom.actions
    requires Expanded(dom, r, c) == Branches(result, outcomes) && r[c].state == result
    requires |r[c].children| == |outcomes| && forall k: nat :: k < |outcomes| ==> NewChildAt(r, c, outcomes, k)
    ensures AndExact(dom, r, c)
  {
    forall k: nat | k < |outcomes|
      ensures Child(r, c, r[c].children[k]) && r[c].children[k] < |r| && r[r[c].children[k]].state == outcomes[k]
    {
      assert NewChildAt(r, c, outcomes, k);
    }
  }

  lemma NewAndExpanded<S, A>(
    dom: Domain<S, A>, nodes: seq<Node<S, A>>, p: nat, j: nat, result: S, outcomes: seq<S>, r: seq<Node<S, A>>)
    requires Tries(dom, nodes, p, j, result, outcomes) && Grows(nodes, p, dom.actions[j], result, outcomes, r)
    requires Shape(r)
    ensures r[|nodes|].kind == And(dom.actions[j]) && r[|nodes|].state == result
    ensures |r[|nodes|].children| == |outcomes|
    ensures Expanded(dom, r, |nodes|) == Branches(result, outcomes)
  {
    var c: nat := |nodes|;
    GrownNodes(nodes, p, dom.actions[j], result, outcomes, r);
    assert ParentFits(r, c);
    assert r[p].state == nodes[p].state;
  }

  lemma GrownTried<S, A>(
    dom: Domain<S, A>, nodes: seq<Node<S, A>>, p: nat, j: nat, result: S, outcomes: seq<S>, r: seq<Node<S, A>>,
    i: nat, t: nat)
    requires Tries(dom, nodes, p, j, result, outcomes) && Grows(nodes, p, dom.actions[j], result, outcomes, r)
    requires Shape(r) && i < |nodes| && OrTried(dom, nodes, i, t)
    ensures OrTried(dom, r, i, t)
    ensures i == p && t == j ==> OrTried(dom, r, i, j + 1)
  {
    var c: nat := |nodes|;
    GrownNodes(nodes, p, dom.actions[j], result, outcomes, r);
    GrownChild(nodes, p, dom.actions[j], result, outcomes, r);
    forall m: nat | m < t && dom.expand(r[i].state, dom.actions[m]).Branches?
      ensures HasActionChild(r, i, dom.actions[m])
    {
      assert HasActionChild(nodes, i, dom.actions[m]);
      var x: nat :| Child(nodes, i, x) && x < |nodes| && nodes[x].kind == And(dom.actions[m]);
      assert Child(r, i, x) && r[x].kind == nodes[x].kind;
    }
    if i == p && t == j {
      assert Child(r, p, c) && r[c].kind == And(dom.actions[j]);
      assert HasActionChild(r, p, dom.actions[j]);
    }
  }

  lemma GrownExact<S, A>(
    dom: Domain<S, A>, nodes: seq<Node<S, A>>, p: nat, j: nat, result: S, outcomes: seq<S>, r: seq<Node<S, A>>)
    requires Tries(dom, nodes, p, j, result, outcomes) && Grows(nodes, p, dom.actions[j], result, outcomes, r)
    ensures Exact(dom, r, p, j + 1)
  {
    GrownShape(dom, nodes, p, j, result, outcomes, r);
    GrownNodes(nodes, p, dom.actions[j], result, outcomes, r);
    forall i: nat | i < |r| && r[i].kind.And?
      ensures AndExact(dom, r, i)
    {
      if i < |nodes| {
        GrownOldAnd(dom, nodes, p, j, result, outcomes, r, i);
      } else {
        GrownNewAnd(dom, nodes, p, j, result, outcomes, r);
      }
    }
    forall i: nat | i < |r| && r[i].kind.Or?
      ensures OrExact(dom, r, p, j + 1, i)
    {
      if i < |nodes| {
        assert OrExact(dom, nodes, p, j, i);
        if i == p {
          GrownTried(dom, nodes, p, j, result, outcomes, r, i, j);
        } else if i < p && !dom.goal(nodes[i].state) {
          GrownTried(dom, nodes, p, j, result, outcomes, r, i, |dom.actions|);
        }
      }
    }
  }

  lemma GrownOldLabel<S, A>(
    dom: Domain<S, A>, nodes: seq<Node<S, A>>, p: nat, j: nat, result: S, outcomes: seq<S>, r: seq<Node<S, A>>,
    i: nat)
    requires Tries(dom, nodes, p, j, result, outcomes) && Grows(nodes, p, dom.actions[j], result, outcomes, r)
    requires i < |nodes|
    ensures SolvedOk(dom, r, p, i) && DeadOk(dom, r, p, i)
  {
    GrownNodes(nodes, p, dom.actions[j], result, outcomes, r);
    GrownChild(nodes, p, dom.actions[j], result, outcomes, r);
    assert SolvedOk(dom, nodes, p, i) && DeadOk(dom, nodes, p, i);
    if i != p {
      forall x: nat
        ensures Child(r, i, x) <==> Child(nodes, i, x)
        ensures Child(r, i, x) ==> x < |nodes| && r[x].solved == nodes[x].solved && r[x].dead == nodes[x].dead
      {
      }
      if SomeChildSolved(nodes, i) {
        var x: nat :| Child(nodes, i, x) && x < |nodes| && nodes[x].solved;
        assert Child(r, i, x) && r[x].solved;
      }
      if SomeChildDead(nodes, i) {
        var x: nat :| Child(nodes, i, x) && x < |nodes| && nodes[x].dead;
        assert Child(r, i, x) && r[x].dead;
      }
    }
  }

  lemma GrownNewLabel<S, A>(
    dom: Domain<S, A>, nodes: seq<Node<S, A>>, p: nat, j: nat, result: S, outcomes: seq<S>, r: seq<Node<S, A>>,
    i: nat)
    requires Tries(dom, nodes, p, j, result, outcomes) && Grows(nodes, p, dom.actions[j], result, outcomes, r)
    requires |nodes| <= i < |r|
    ensures SolvedOk(dom, r, p, i) && DeadOk(dom, r, p, i)
  {
    GrownNodes(nodes, p, dom.actions[j], result, outcomes, r);
    GrownChild(nodes, p, dom.actions[j], result, outcomes, r);
    if i == |nodes| {
      assert Child(r, i, i + 1) && !r[i + 1].solved;
    }
  }

  /** Trying an action keeps the tree exact and labelled, with one more action tried. */
  lemma GrownKeeps<S, A>(
    dom: Domain<S, A>, nodes: seq<Node<S, A>>, p: nat, j: nat, result: S, outcomes: seq<S>, r: seq<Node<S, A>>)
    requires Tries(dom, nodes, p, j, result, outcomes) && Grows(nodes, p, dom.actions[j], result, outcomes, r)
    ensures Expanding(dom, r, p, j + 1)
    ensures r[p].children != []
  {
    GrownExact(dom, nodes, p, j, result, outcomes, r);
    GrownNodes(nodes, p, dom.actions[j], result, outcomes, r);
    forall i: nat | i < |r|
      ensures SolvedOk(dom, r, p, i) && DeadOk(dom, r, p, i)
    {
      if i < |nodes| {
        GrownOldLabel(dom, nodes, p, j, result, outcomes, r, i);
      } else {
        GrownNewLabel(dom, nodes, p, j, result, outcomes, r, i);
      }
    }
  }

  // ----- Closing the expanded node

  /** An action that is not available leaves the tree as it is. */
  lemma BlockedKeeps<S, A>(dom: Domain<S, A>, nodes: seq<Node<S, A>>, p: nat, j: nat)
    requires Expanding(dom, nodes, p, j) && j < |dom.actions|
    requires dom.expand(nodes[p].state, dom.actions[j]).Blocked?
    ensures Expanding(dom, nodes, p, j + 1)
  {
    assert OrExact(dom, nodes, p, j, p);
    forall i: nat | i < |nodes| && nodes[i].kind.Or?
      ensures OrExact(dom, nodes, p, j + 1, i)
    {
      assert OrExact(dom, nodes, p, j, i);
    }
  }

  lemma CloseExact<S, A>(dom: Domain<S, A>, nodes: seq<Node<S, A>>, p: nat)
    requires Expanding(dom, nodes, p, |dom.actions|)
    ensures Exact(dom, nodes, p + 1, 0)
  {
    forall i: nat | i < |nodes| && nodes[i].kind.Or?
      ensures OrExact(dom, nodes, p + 1, 0, i)
    {
      assert OrExact(dom, nodes, p, |dom.actions|, i);
    }
  }

  lemma CloseGoal<S, A>(dom: Domain<S, A>, nodes: seq<Node<S, A>>, p: nat)
    requires Exact(dom, nodes, p, 0) && p < |nodes| && nodes[p].kind.Or? && dom.goal(nodes[p].state)
    ensures Exact(dom, nodes, p + 1, 0)
  {
    forall i: nat | i < |nodes| && nodes[i].kind.Or?
      ensures OrExact(dom, nodes, p + 1, 0, i)
    {
      assert OrExact(dom, nodes, p, 0, i);
    }
  }

  // Closing node p matters for the labels of p only.
  lemma CloseOthers<S, A>(dom: Domain<S, A>, nodes: seq<Node<S, A>>, p: nat)
    requires p < |nodes| && Labelled(dom, nodes, p)
    ensures SolvedElsewhere(dom, nodes, p + 1, p) && DeadElsewhere(dom, nodes, p + 1, p)
  {
    var lo: nat := p + 1;
    forall n: nat | n < |nodes| && n != p
      ensures SolvedOk(dom, nodes, lo, n) && DeadOk(dom, nodes, lo, n)
    {
      assert SolvedOk(dom, nodes, p, n) && DeadOk(dom, nodes, p, n);
    }
  }

  // The AND children of the node being expanded have only open children, so no label.
  lemma FreshAndUnlabelled<S(!new), A(!new)>(dom: Domain<S, A>, nodes: seq<Node<S, A>>, p: nat, j: nat, c: nat)
    requires Branching(dom) && Expanding(dom, nodes, p, j) && Child(nodes, p, c)
    ensures c < |nodes| && !nodes[c].solved && !nodes[c].dead
  {
    assert ParentFits(nodes, c) && AndExact(dom, nodes, c);
    assert SolvedOk(dom, nodes, p, c) && DeadOk(dom, nodes, p, c);
    forall x: nat | Child(nodes, c, x)
      ensures x < |nodes| && !nodes[x].solved && !nodes[x].dead
    {
      assert ParentFits(nodes, x);
      assert SolvedOk(dom, nodes, p, x) && DeadOk(dom, nodes, p, x);
    }
    assert nodes[c].children != [];
    assert Child(nodes, c, nodes[c].children[0]);
  }

  /** A fully expanded node with children closes without a label. */
  lemma CloseExpanded<S(!new), A(!new)>(dom: Domain<S, A>, nodes: seq<Node<S, A>>, p: nat)
    requires Branching(dom) && Expanding(dom, nodes, p, |dom.actions|) && nodes[p].children != []
    ensures Exact(dom, nodes, p + 1, 0) && Labelled(dom, nodes, p + 1)
  {
    CloseExact(dom, nodes, p);
    CloseOthers(dom, nodes, p);
    forall c: nat | Child(nodes, p, c)
      ensures c < |nodes| && !nodes[c].solved && !nodes[c].dead
    {
      FreshAndUnlabelled(dom, nodes, p, |dom.actions|, c);
    }
    assert Child(nodes, p, nodes[p].children[0]);
    assert SolvedOk(dom, nodes, p, p) && DeadOk(dom, nodes, p, p);
  }

  /** A fully expanded node without children is a dead end. */
  lemma CloseDeadEnd<S, A>(dom: Domain<S, A>, nodes: seq<Node<S, A>>, p: nat)
    requires Expanding(dom, nodes, p, |dom.actions|) && nodes[p].children == []
    ensures Exact(dom, nodes, p + 1, 0) && AllSolvedOk(dom, nodes, p + 1) && NotBoth(nodes)
    ensures !nodes[p].solved && ShouldBeDead(dom, nodes, p + 1, p)
    ensures DeadElsewhere(dom, nodes, p + 1, p)
  {
    CloseExact(dom, nodes, p);
    CloseOthers(dom, nodes, p);
    assert SolvedOk(dom, nodes, p, p);
    assert SolvedOk(dom, nodes, p + 1, p);
  }

  lemma CloseSolved<S, A>(dom: Domain<S, A>, nodes: seq<Node<S, A>>, p: nat)
    requires Exact(dom, nodes, p, 0) && Labelled(dom, nodes, p)
    requires p < |nodes| && nodes[p].kind.Or? && dom.goal(nodes[p].state)
    ensures Exact(dom, nodes, p + 1, 0) && AllDeadOk(dom, nodes, p + 1) && NotBoth(nodes)
    ensures !nodes[p].dead && ShouldBeSolved(dom, nodes, p + 1, p)
    ensures SolvedElsewhere(dom, nodes, p + 1, p)
  {
    CloseGoal(dom, nodes, p);
    CloseOthers(dom, nodes, p);
    assert DeadOk(dom, nodes, p, p);
    assert DeadOk(dom, nodes, p + 1, p);
  }
}
