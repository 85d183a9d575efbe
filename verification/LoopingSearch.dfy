/** A family of problems on which the policy that is read off the solved tree sends the
    lookup in circles.  Waiting in one state leads back to it, and the search goes on
    below that state, after it has been solved, because another branch takes longer. */
module LoopingSearch {
  import opened AndOr
  import opened Extraction
  import opened BreadthFirst
  import opened Growth
  import opened SearchRuns

  // The states that are met and the two actions.
  datatype Cast<S, A> = Cast(start: S, left: S, right: S, later: S, goal: S, wait: A, move: A)

  ghost predicate LeadsTo<S, A>(dom: Domain<S, A>, s: S, a: A, outcomes: seq<S>) {
    dom.expand(s, a).Branches? && dom.expand(s, a).outcomes == outcomes
  }

  // Waiting does something in the left state only; moving leads from the start to both
  // sides, from the left to the goal and from the right to the goal in two steps.
  ghost predicate Circles<S, A>(dom: Domain<S, A>, c: Cast<S, A>) {
    && dom.actions == [c.wait, c.move]
    && dom.goal(c.goal) && !dom.goal(c.start) && !dom.goal(c.left) && !dom.goal(c.right) && !dom.goal(c.later)
    && dom.expand(c.start, c.wait).Blocked? && LeadsTo(dom, c.start, c.move, [c.left, c.right])
    && LeadsTo(dom, c.left, c.wait, [c.left]) && LeadsTo(dom, c.left, c.move, [c.goal])
    && dom.expand(c.right, c.wait).Blocked? && LeadsTo(dom, c.right, c.move, [c.later])
    && dom.expand(c.later, c.wait).Blocked? && LeadsTo(dom, c.later, c.move, [c.goal])
  }

  // ----- The tree after nine nodes

  ghost function Kids(i: nat): (ids: seq<nat>) {
    match i
    case 0 => [1]
    case 1 => [2, 3]
    case 2 => [4, 6]
    case 3 => [8]
    case 4 => [5]
    case 5 => [10, 12]
    case 6 => [7]
    case 8 => [9]
    case 9 => [14]
    case 10 => [11]
    case 11 => [16, 18]
    case 12 => [13]
    case 14 => [15]
    case 16 => [17]
    case 18 => [19]
    case _ => []
  }

  ghost function Above(i: nat): (p: nat) {
    match i
    case 1 => 0
    case 2 => 1
    case 3 => 1
    case 4 => 2
    case 5 => 4
    case 6 => 2
    case 7 => 6
    case 8 => 3
    case 9 => 8
    case 10 => 5
    case 11 => 10
    case 12 => 5
    case 13 => 12
    case 14 => 9
    case 15 => 14
    case 16 => 11
    case 17 => 16
    case 18 => 11
    case 19 => 18
    case _ => 0
  }

  ghost predicate IsAction(i: nat) {
    i == 1 || i == 4 || i == 6 || i == 8 || i == 10 || i == 12 || i == 14 || i == 16 || i == 18
  }

  ghost function ActionOf<S, A>(c: Cast<S, A>, i: nat): (a: A) {
    if i == 4 || i == 10 || i == 16 then c.wait else c.move
  }

  ghost function StateOf<S, A>(c: Cast<S, A>, i: nat): (s: S) {
    if i == 0 then c.start
    else if i == 3 then c.right
    else if i == 9 then c.later
    else if i == 7 || i == 13 || i == 15 || i == 19 then c.goal
    else c.left
  }

  ghost function UpdatedBy<S, A>(dom: Domain<S, A>, s: S, a: A): (r: S) {
    var e := dom.expand(s, a);
    if e.Branches? then e.result else s
  }

  // Node i while the OR nodes from lo on are open.
  ghost function NodeAt<S, A>(dom: Domain<S, A>, c: Cast<S, A>, lo: nat, i: nat): (n: Node<S, A>) {
    if IsAction(i) then
      AndNode(ActionOf(c, i), UpdatedBy(dom, StateOf(c, Above(i)), ActionOf(c, i)), Above(i)).(children := Kids(i))
    else
      OrNode(StateOf(c, i), Above(i), i == 0).(children := if i < lo then Kids(i) else [])
  }

  ghost function Cut<S, A>(dom: Domain<S, A>, c: Cast<S, A>, size: nat, lo: nat): (nodes: seq<Node<S, A>>)
    ensures |nodes| == size && forall i: nat :: i < size ==> nodes[i] == NodeAt(dom, c, lo, i)
  {
    seq(size, i requires 0 <= i < size => NodeAt(dom, c, lo, i))
  }

  ghost function SizeAfter(n: nat): (size: nat)
    requires n <= 9
  {
    [1, 4, 8, 10, 14, 14, 16, 20, 20, 20][n]
  }

  ghost function LoAfter(n: nat): (lo: nat)
    requires n <= 9
  {
    [0, 1, 3, 4, 6, 8, 10, 12, 14, 16][n]
  }

  // ----- Closing one node

  // One action with one outcome.
  lemma GrownOnce<S, A>(nodes: seq<Node<S, A>>, p: nat, a: A, result: S, o: S)
    requires p < |nodes|
    ensures Grown(nodes, p, a, result, [o])
         == nodes[p := WithChild(nodes[p], |nodes|)]
            + [AndNode(a, result, p).(children := [|nodes| + 1]), OrNode(o, |nodes|, false)]
  {
    var left := Grown(nodes, p, a, result, [o]);
    GrownNodes(nodes, p, a, result, [o], left);
    assert Ids(|nodes| + 1, 1) == [|nodes| + 1];
  }

  lemma ClosedByMove<S, A>(dom: Domain<S, A>, c: Cast<S, A>, nodes: seq<Node<S, A>>, p: nat, o: S)
    requires Circles(dom, c) && p < |nodes| && !dom.goal(nodes[p].state)
    requires dom.expand(nodes[p].state, c.wait).Blocked? && LeadsTo(dom, nodes[p].state, c.move, [o])
    ensures ClosedAt(dom, nodes, p)
         == nodes[p := WithChild(nodes[p], |nodes|)]
            + [AndNode(c.move, UpdatedBy(dom, nodes[p].state, c.move), p).(children := [|nodes| + 1]), OrNode(o, |nodes|, false)]
  {
    assert Tried(dom, nodes, p, 0) == nodes;
    assert Tried(dom, nodes, p, 1) == Try(dom, nodes, p, 0) == nodes;
    assert Tried(dom, nodes, p, 2) == Try(dom, nodes, p, 1);
    GrownOnce(nodes, p, c.move, UpdatedBy(dom, nodes[p].state, c.move), o);
  }

  lemma ClosedByBoth<S, A>(dom: Domain<S, A>, c: Cast<S, A>, nodes: seq<Node<S, A>>, p: nat)
    requires Circles(dom, c) && p < |nodes| && nodes[p] == OrNode(c.left, nodes[p].parent, false)
    ensures ClosedAt(dom, nodes, p)
         == nodes[p := nodes[p].(children := [|nodes|, |nodes| + 2])]
            + [AndNode(c.wait, UpdatedBy(dom, c.left, c.wait), p).(children := [|nodes| + 1]), OrNode(c.left, |nodes|, false),
               AndNode(c.move, UpdatedBy(dom, c.left, c.move), p).(children := [|nodes| + 3]), OrNode(c.goal, |nodes| + 2, false)]
  {
    var first := Try(dom, nodes, p, 0);
    GrownOnce(nodes, p, c.wait, UpdatedBy(dom, c.left, c.wait), c.left);
    assert |first| == |nodes| + 2;
    assert first[p] == WithChild(nodes[p], |nodes|);
    GrownOnce(first, p, c.move, UpdatedBy(dom, c.left, c.move), c.goal);
    assert [] + [|nodes|] + [|nodes| + 2] == [|nodes|, |nodes| + 2];
    assert WithChild(first[p], |nodes| + 2) == nodes[p].(children := [|nodes|, |nodes| + 2]);
    assert Tried(dom, nodes, p, 0) == nodes;
    assert Tried(dom, nodes, p, 1) == first;
    var second := Try(dom, first, p, 1);
    assert Tried(dom, nodes, p, 2) == second;
    var r := nodes[p := nodes[p].(children := [|nodes|, |nodes| + 2])]
             + [AndNode(c.wait, UpdatedBy(dom, c.left, c.wait), p).(children := [|nodes| + 1]), OrNode(c.left, |nodes|, false),
                AndNode(c.move, UpdatedBy(dom, c.left, c.move), p).(children := [|nodes| + 3]), OrNode(c.goal, |nodes| + 2, false)];
    assert |second| == |r|;
    forall i: nat | i < |r|
      ensures second[i] == r[i]
    {
    }
    assert second == r;
  }

  // ----- The first nine nodes of the run

  // The node that is taken and what closing it leaves.
  ghost predicate Closes<S, A>(dom: Domain<S, A>, c: Cast<S, A>, size: nat, lo: nat, p: nat, size': nat) {
    lo <= p < size && Pop(dom, Snapshot(Cut(dom, c, size, lo), lo)) == Snapshot(Cut(dom, c, size', p + 1), p + 1)
  }

  // Between lo and p there are AND nodes only.
  ghost predicate IsNext(lo: nat, p: nat, size: nat) {
    lo <= p < size && !IsAction(p) && forall i: nat :: lo <= i < p ==> IsAction(i)
  }

  lemma NextIsOldest<S, A>(dom: Domain<S, A>, c: Cast<S, A>, size: nat, lo: nat, p: nat)
    requires IsNext(lo, p, size)
    ensures FirstOr(Cut(dom, c, size, lo), lo) == p
  {
    var nodes := Cut(dom, c, size, lo);
    FirstOrIs(nodes, lo, p);
  }

  lemma GoalStep<S, A>(dom: Domain<S, A>, c: Cast<S, A>, size: nat, lo: nat, p: nat)
    requires Circles(dom, c) && IsNext(lo, p, size) && StateOf(c, p) == c.goal && Kids(p) == []
    ensures Closes(dom, c, size, lo, p, size)
  {
    NextIsOldest(dom, c, size, lo, p);
    assert Cut(dom, c, size, lo) == Cut(dom, c, size, p + 1);
  }

  lemma MoveStep<S, A>(dom: Domain<S, A>, c: Cast<S, A>, size: nat, lo: nat, p: nat, o: S)
    requires Circles(dom, c) && IsNext(lo, p, size) && p != 0 && Kids(p) == [size] && Kids(size) == [size + 1]
    requires !dom.goal(StateOf(c, p)) && dom.expand(StateOf(c, p), c.wait).Blocked? && LeadsTo(dom, StateOf(c, p), c.move, [o])
    requires IsAction(size) && ActionOf(c, size) == c.move && Above(size) == p
    requires !IsAction(size + 1) && StateOf(c, size + 1) == o && Above(size + 1) == size
    ensures Closes(dom, c, size, lo, p, size + 2)
  {
    NextIsOldest(dom, c, size, lo, p);
    var nodes := Cut(dom, c, size, lo);
    ClosedByMove(dom, c, nodes, p, o);
    assert [] + [size] == [size];
    assert ClosedAt(dom, nodes, p) == Cut(dom, c, size + 2, p + 1);
  }

  lemma BothStep<S, A>(dom: Domain<S, A>, c: Cast<S, A>, size: nat, lo: nat, p: nat)
    requires Circles(dom, c) && IsNext(lo, p, size) && p != 0 && StateOf(c, p) == c.left && Kids(p) == [size, size + 2]
    requires IsAction(size) && ActionOf(c, size) == c.wait && Above(size) == p && Kids(size) == [size + 1]
    requires !IsAction(size + 1) && StateOf(c, size + 1) == c.left && Above(size + 1) == size
    requires IsAction(size + 2) && ActionOf(c, size + 2) == c.move && Above(size + 2) == p && Kids(size + 2) == [size + 3]
    requires !IsAction(size + 3) && StateOf(c, size + 3) == c.goal && Above(size + 3) == size + 2
    ensures Closes(dom, c, size, lo, p, size + 4)
  {
    NextIsOldest(dom, c, size, lo, p);
    var nodes := Cut(dom, c, size, lo);
    ClosedByBoth(dom, c, nodes, p);
    assert ClosedAt(dom, nodes, p) == Cut(dom, c, size + 4, p + 1);
  }

  lemma RootStep<S, A>(dom: Domain<S, A>, c: Cast<S, A>)
    requires Circles(dom, c)
    ensures Closes(dom, c, 1, 0, 0, 4)
  {
    NextIsOldest(dom, c, 1, 0, 0);
    var nodes := Cut(dom, c, 1, 0);
    var r := Grown(nodes, 0, c.move, UpdatedBy(dom, c.start, c.move), [c.left, c.right]);
    GrownNodes(nodes, 0, c.move, UpdatedBy(dom, c.start, c.move), [c.left, c.right], r);
    assert Ids(2, 2) == [2, 3];
    assert Tried(dom, nodes, 0, 0) == nodes;
    assert Tried(dom, nodes, 0, 1) == Try(dom, nodes, 0, 0) == nodes;
    assert Tried(dom, nodes, 0, 2) == Try(dom, nodes, 0, 1) == r;
    assert [] + [1] == [1];
    assert r == Cut(dom, c, 4, 1);
  }

  lemma EarlyStep<S, A>(dom: Domain<S, A>, c: Cast<S, A>, n: nat)
    requires Circles(dom, c) && n < 4
    ensures Closes(dom, c, SizeAfter(n), LoAfter(n), LoAfter(n + 1) - 1, SizeAfter(n + 1))
  {
    match n
    case 0 => RootStep(dom, c);
    case 1 => BothStep(dom, c, 4, 1, 2);
    case 2 => MoveStep(dom, c, 8, 3, 3, c.later);
    case 3 => BothStep(dom, c, 10, 4, 5);
  }

  lemma LateStep<S, A>(dom: Domain<S, A>, c: Cast<S, A>, n: nat)
    requires Circles(dom, c) && 4 <= n < 9
    ensures Closes(dom, c, SizeAfter(n), LoAfter(n), LoAfter(n + 1) - 1, SizeAfter(n + 1))
  {
    match n
    case 4 => GoalStep(dom, c, 14, 6, 7);
    case 5 => MoveStep(dom, c, 14, 8, 9, c.goal);
    case 6 => BothStep(dom, c, 16, 10, 11);
    case 7 => GoalStep(dom, c, 20, 12, 13);
    case 8 => GoalStep(dom, c, 20, 14, 15);
  }

  /** What the search has grown after each of the first nine nodes. */
  lemma {:induction false} TreeAfter<S, A>(dom: Domain<S, A>, c: Cast<S, A>, n: nat)
    requires Circles(dom, c) && n <= 9
    ensures After(dom, c.start, n) == Snapshot(Cut(dom, c, SizeAfter(n), LoAfter(n)), LoAfter(n))
    decreases n
  {
    if n == 0 {
      assert Cut(dom, c, 1, 0) == [OrNode(c.start, 0, true)];
    } else {
      TreeAfter(dom, c, n - 1);
      if n <= 4 {
        EarlyStep(dom, c, n - 1);
      } else {
        LateStep(dom, c, n - 1);
      }
    }
  }

  // ----- Its labels

  ghost predicate HasLabels<S, A>(dom: Domain<S, A>, c: Cast<S, A>, size: nat, lo: nat, nodes: seq<Node<S, A>>) {
    SameTree(Cut(dom, c, size, lo), nodes) && Labelled(dom, nodes, lo) && Shape(nodes)
  }

  lemma NodeIs<S, A>(dom: Domain<S, A>, c: Cast<S, A>, size: nat, lo: nat, nodes: seq<Node<S, A>>, i: nat)
    requires HasLabels(dom, c, size, lo, nodes) && i < size
    ensures |nodes| == size && SameNode(NodeAt(dom, c, lo, i), nodes[i])
    ensures SolvedOk(dom, nodes, lo, i) && DeadOk(dom, nodes, lo, i)
  {
    assert SameNode(Cut(dom, c, size, lo)[i], nodes[i]);
  }

  lemma OpenLeaf<S, A>(dom: Domain<S, A>, c: Cast<S, A>, size: nat, lo: nat, nodes: seq<Node<S, A>>, i: nat)
    requires HasLabels(dom, c, size, lo, nodes) && lo <= i < size && !IsAction(i)
    ensures |nodes| == size && !nodes[i].solved
  {
    NodeIs(dom, c, size, lo, nodes, i);
  }

  lemma ClosedGoal<S, A>(dom: Domain<S, A>, c: Cast<S, A>, size: nat, lo: nat, nodes: seq<Node<S, A>>, i: nat)
    requires Circles(dom, c) && HasLabels(dom, c, size, lo, nodes) && i < size && i < lo && !IsAction(i) && StateOf(c, i) == c.goal
    ensures |nodes| == size && nodes[i].solved
  {
    NodeIs(dom, c, size, lo, nodes, i);
  }

  // Expanded, so that its label is that of its children.
  ghost predicate Inner<S, A>(dom: Domain<S, A>, c: Cast<S, A>, size: nat, lo: nat, i: nat) {
    i < size && (IsAction(i) || (i < lo && !dom.goal(StateOf(c, i))))
  }

  lemma OnlyChild<S, A>(dom: Domain<S, A>, c: Cast<S, A>, size: nat, lo: nat, nodes: seq<Node<S, A>>, i: nat, k: nat)
    requires HasLabels(dom, c, size, lo, nodes) && Inner(dom, c, size, lo, i) && Kids(i) == [k]
    ensures |nodes| == size && k < size && nodes[i].children == [k] && (nodes[i].solved <==> nodes[k].solved)
  {
    NodeIs(dom, c, size, lo, nodes, i);
    assert nodes[i].children == [k];
    assert Child(nodes, i, k);
    assert forall x: nat :: Child(nodes, i, x) <==> x == k;
  }

  lemma TwoChildren<S, A>(dom: Domain<S, A>, c: Cast<S, A>, size: nat, lo: nat, nodes: seq<Node<S, A>>, i: nat, k: nat, l: nat)
    requires HasLabels(dom, c, size, lo, nodes) && Inner(dom, c, size, lo, i) && Kids(i) == [k, l]
    ensures |nodes| == size && k < size && l < size && nodes[i].children == [k, l]
    ensures nodes[i].solved <==> if IsAction(i) then nodes[k].solved && nodes[l].solved else nodes[k].solved || nodes[l].solved
  {
    NodeIs(dom, c, size, lo, nodes, i);
    assert nodes[i].children == [k, l];
    assert nodes[i].children[0] == k && nodes[i].children[1] == l;
    assert Child(nodes, i, k) && Child(nodes, i, l);
    assert forall x: nat :: Child(nodes, i, x) <==> x == k || x == l;
  }

  lemma {:induction false} NothingDead<S, A>(dom: Domain<S, A>, c: Cast<S, A>, size: nat, lo: nat, nodes: seq<Node<S, A>>, i: nat)
    requires Circles(dom, c) && HasLabels(dom, c, size, lo, nodes) && i < size <= 20 && lo <= 16
    ensures |nodes| == size && !nodes[i].dead
    decreases size - i
  {
    NodeIs(dom, c, size, lo, nodes, i);
    forall k: nat | Child(nodes, i, k)
      ensures k < |nodes| && !nodes[k].dead
    {
      NothingDead(dom, c, size, lo, nodes, k);
    }
    if Inner(dom, c, size, lo, i) && !IsAction(i) {
      assert Kids(i) != [];
      assert Child(nodes, i, Kids(i)[0]);
    }
  }

  // The right branch is as slow as its last open node.
  lemma SlowBranch<S, A>(dom: Domain<S, A>, c: Cast<S, A>, size: nat, lo: nat, nodes: seq<Node<S, A>>)
    requires Circles(dom, c) && HasLabels(dom, c, size, lo, nodes) && size >= 4 && 1 <= lo
    requires lo <= 3 || (lo <= 9 < size) || (lo <= 15 < size && lo > 9)
    ensures |nodes| == size && !nodes[0].solved
  {
    if lo <= 3 {
      OpenLeaf(dom, c, size, lo, nodes, 3);
    } else {
      if lo <= 9 {
        OpenLeaf(dom, c, size, lo, nodes, 9);
      } else {
        OpenLeaf(dom, c, size, lo, nodes, 15);
        OnlyChild(dom, c, size, lo, nodes, 14, 15);
        OnlyChild(dom, c, size, lo, nodes, 9, 14);
      }
      OnlyChild(dom, c, size, lo, nodes, 8, 9);
      OnlyChild(dom, c, size, lo, nodes, 3, 8);
    }
    TwoChildren(dom, c, size, lo, nodes, 1, 2, 3);
    OnlyChild(dom, c, size, lo, nodes, 0, 1);
  }

  lemma StillOpen<S, A>(dom: Domain<S, A>, c: Cast<S, A>, n: nat, nodes: seq<Node<S, A>>)
    requires Circles(dom, c) && n < 9 && HasLabels(dom, c, SizeAfter(n), LoAfter(n), nodes)
    ensures nodes != [] && !nodes[0].solved && !nodes[0].dead
  {
    NothingDead(dom, c, SizeAfter(n), LoAfter(n), nodes, 0);
    if n == 0 {
      OpenLeaf(dom, c, 1, 0, nodes, 0);
    } else {
      SlowBranch(dom, c, SizeAfter(n), LoAfter(n), nodes);
    }
  }

  // What the labels are in the end, as far as the policy looks at them.
  ghost predicate FinalLabels<S, A>(nodes: seq<Node<S, A>>) {
    && |nodes| == 20
    && nodes[0].solved && nodes[1].solved && nodes[2].solved && nodes[3].solved && nodes[4].solved && nodes[5].solved
    && nodes[8].solved && nodes[9].solved && !nodes[10].solved && nodes[12].solved && nodes[13].solved && nodes[14].solved && nodes[15].solved
  }

  lemma RightSolved<S, A>(dom: Domain<S, A>, c: Cast<S, A>, nodes: seq<Node<S, A>>)
    requires Circles(dom, c) && HasLabels(dom, c, 20, 16, nodes)
    ensures |nodes| == 20
    ensures nodes[3].solved && nodes[8].solved && nodes[9].solved && nodes[14].solved && nodes[15].solved
  {
    ClosedGoal(dom, c, 20, 16, nodes, 15);
    OnlyChild(dom, c, 20, 16, nodes, 14, 15);
    OnlyChild(dom, c, 20, 16, nodes, 9, 14);
    OnlyChild(dom, c, 20, 16, nodes, 8, 9);
    OnlyChild(dom, c, 20, 16, nodes, 3, 8);
  }

  lemma LeftSolved<S, A>(dom: Domain<S, A>, c: Cast<S, A>, nodes: seq<Node<S, A>>)
    requires Circles(dom, c) && HasLabels(dom, c, 20, 16, nodes)
    ensures |nodes| == 20
    ensures nodes[2].solved && nodes[4].solved && nodes[5].solved && nodes[12].solved && nodes[13].solved
  {
    ClosedGoal(dom, c, 20, 16, nodes, 13);
    OnlyChild(dom, c, 20, 16, nodes, 12, 13);
    TwoChildren(dom, c, 20, 16, nodes, 5, 10, 12);
    OnlyChild(dom, c, 20, 16, nodes, 4, 5);
    TwoChildren(dom, c, 20, 16, nodes, 2, 4, 6);
  }

  lemma LabelsInTheEnd<S, A>(dom: Domain<S, A>, c: Cast<S, A>, nodes: seq<Node<S, A>>)
    requires Circles(dom, c) && HasLabels(dom, c, 20, 16, nodes)
    ensures FinalLabels(nodes)
  {
    RightSolved(dom, c, nodes);
    LeftSolved(dom, c, nodes);
    SecondLoopOpen(dom, c, nodes);
    TwoChildren(dom, c, 20, 16, nodes, 1, 2, 3);
    OnlyChild(dom, c, 20, 16, nodes, 0, 1);
  }

  // Waiting a second time is not known to lead to the goal when the search ends.
  lemma SecondLoopOpen<S, A>(dom: Domain<S, A>, c: Cast<S, A>, nodes: seq<Node<S, A>>)
    requires Circles(dom, c) && HasLabels(dom, c, 20, 16, nodes)
    ensures |nodes| == 20 && !nodes[10].solved
  {
    OpenLeaf(dom, c, 20, 16, nodes, 17);
    OpenLeaf(dom, c, 20, 16, nodes, 19);
    OnlyChild(dom, c, 20, 16, nodes, 16, 17);
    OnlyChild(dom, c, 20, 16, nodes, 18, 19);
    TwoChildren(dom, c, 20, 16, nodes, 11, 16, 18);
    OnlyChild(dom, c, 20, 16, nodes, 10, 11);
  }

  // ----- The policy

  lemma BelowOne<S, A>(nodes: seq<Node<S, A>>, x: nat, k: nat)
    requires Shape(nodes) && x < k < |nodes| && InTree(nodes, nodes[x].children) && SolvedChildren(nodes, x) == [k]
    ensures EntriesBelow(nodes, x) == OwnEntry(nodes, x) + EntriesBelow(nodes, k)
  {
    ChildrenInTree(nodes, x);
    assert [k][..0] == [];
    assert EntriesBelowAll(nodes, x, []) == [];
    assert EntriesBelowAll(nodes, x, [k]) == EntriesBelow(nodes, k) + [];
  }

  lemma BelowTwo<S, A>(nodes: seq<Node<S, A>>, x: nat, k: nat, l: nat)
    requires Shape(nodes) && x < k < l < |nodes| && InTree(nodes, nodes[x].children) && SolvedChildren(nodes, x) == [k, l]
    ensures EntriesBelow(nodes, x) == OwnEntry(nodes, x) + (EntriesBelow(nodes, l) + EntriesBelow(nodes, k))
  {
    ChildrenInTree(nodes, x);
    assert [k][..0] == [] && [k, l][..1] == [k];
    assert EntriesBelowAll(nodes, x, []) == [];
    assert EntriesBelowAll(nodes, x, [k]) == EntriesBelow(nodes, k) + [];
    assert EntriesBelowAll(nodes, x, [k, l]) == EntriesBelow(nodes, l) + EntriesBelowAll(nodes, x, [k]);
  }

  lemma PicksOnly<S, A>(nodes: seq<Node<S, A>>, x: nat, k: nat)
    requires Shape(nodes) && x < |nodes| && k < |nodes| && nodes[x].children == [k] && nodes[k].solved
    ensures InTree(nodes, nodes[x].children) && SolvedChildren(nodes, x) == [k]
  {
    ChildrenInTree(nodes, x);
    var all := nodes[x].kind.And?;
    assert [k][..0] == [];
    assert SolvedIn(nodes, [], all) == [];
    assert SolvedIn(nodes, [k], all) == [] + [k];
  }

  lemma PicksOfTwo<S, A>(nodes: seq<Node<S, A>>, x: nat, k: nat, l: nat)
    requires Shape(nodes) && x < |nodes| && k < |nodes| && l < |nodes| && nodes[x].children == [k, l]
    ensures InTree(nodes, nodes[x].children)
    ensures nodes[x].kind.And? && nodes[k].solved && nodes[l].solved ==> SolvedChildren(nodes, x) == [k, l]
    ensures nodes[x].kind.Or? && nodes[k].solved ==> SolvedChildren(nodes, x) == [k]
    ensures nodes[x].kind.Or? && !nodes[k].solved && nodes[l].solved ==> SolvedChildren(nodes, x) == [l]
  {
    ChildrenInTree(nodes, x);
    var all := nodes[x].kind.And?;
    assert [k][..0] == [] && [k, l][..1] == [k];
    assert SolvedIn(nodes, [], all) == [];
    assert SolvedIn(nodes, [k], all) == if nodes[k].solved then [] + [k] else [];
    var earlier := SolvedIn(nodes, [k], all);
    assert SolvedIn(nodes, [k, l], all) == if nodes[l].solved && (all || earlier == []) then earlier + [l] else earlier;
  }

  lemma NoPicks<S, A>(nodes: seq<Node<S, A>>, x: nat)
    requires Shape(nodes) && x < |nodes| && nodes[x].children == [] && nodes[x].kind.Or?
    ensures EntriesBelow(nodes, x) == []
  {
    ChildrenInTree(nodes, x);
    assert SolvedChildren(nodes, x) == [];
    assert EntriesBelowAll(nodes, x, []) == [];
  }

  // A node with one picked child: its own entry, then those below the child.
  lemma BelowOnly<S, A>(dom: Domain<S, A>, c: Cast<S, A>, nodes: seq<Node<S, A>>, x: nat, k: nat)
    requires Circles(dom, c) && HasLabels(dom, c, 20, 16, nodes) && Inner(dom, c, 20, 16, x) && x < k < 20
    requires Kids(x) == [k] && |nodes| == 20 && nodes[k].solved
    ensures EntriesBelow(nodes, x) == OwnOf(c, x) + EntriesBelow(nodes, k)
  {
    OnlyChild(dom, c, 20, 16, nodes, x, k);
    PicksOnly(nodes, x, k);
    BelowOne(nodes, x, k);
    OwnIs(dom, c, nodes, x);
  }

  ghost function OwnOf<S, A>(c: Cast<S, A>, x: nat): (entries: seq<Entry<S, A>>) {
    if IsAction(x) then [Entry(StateOf(c, Above(x)), ActionOf(c, x))] else []
  }

  lemma OwnIs<S, A>(dom: Domain<S, A>, c: Cast<S, A>, nodes: seq<Node<S, A>>, x: nat)
    requires HasLabels(dom, c, 20, 16, nodes) && x < 20
    ensures |nodes| == 20 && OwnEntry(nodes, x) == OwnOf(c, x)
  {
    NodeIs(dom, c, 20, 16, nodes, x);
    if IsAction(x) {
      assert ParentFits(nodes, x);
      NodeIs(dom, c, 20, 16, nodes, Above(x));
    }
  }

  ghost function LeftEntries<S, A>(c: Cast<S, A>): (entries: seq<Entry<S, A>>) {
    [Entry(c.left, c.wait), Entry(c.left, c.move)]
  }

  ghost function RightEntries<S, A>(c: Cast<S, A>): (entries: seq<Entry<S, A>>) {
    [Entry(c.right, c.move), Entry(c.later, c.move)]
  }

  lemma BelowLater<S, A>(dom: Domain<S, A>, c: Cast<S, A>, nodes: seq<Node<S, A>>)
    requires Circles(dom, c) && HasLabels(dom, c, 20, 16, nodes) && FinalLabels(nodes)
    ensures EntriesBelow(nodes, 9) == [Entry(c.later, c.move)]
  {
    NodeIs(dom, c, 20, 16, nodes, 15);
    NoPicks(nodes, 15);
    BelowOnly(dom, c, nodes, 14, 15);
    BelowOnly(dom, c, nodes, 9, 14);
  }

  lemma BelowRightAction<S, A>(dom: Domain<S, A>, c: Cast<S, A>, nodes: seq<Node<S, A>>)
    requires Circles(dom, c) && HasLabels(dom, c, 20, 16, nodes) && FinalLabels(nodes)
    requires EntriesBelow(nodes, 9) == [Entry(c.later, c.move)]
    ensures EntriesBelow(nodes, 8) == RightEntries(c)
  {
    BelowOnly(dom, c, nodes, 8, 9);
  }

  lemma BelowRight<S, A>(dom: Domain<S, A>, c: Cast<S, A>, nodes: seq<Node<S, A>>)
    requires Circles(dom, c) && HasLabels(dom, c, 20, 16, nodes) && FinalLabels(nodes)
    ensures EntriesBelow(nodes, 3) == RightEntries(c)
  {
    BelowLater(dom, c, nodes);
    BelowRightAction(dom, c, nodes);
    BelowOnly(dom, c, nodes, 3, 8);
  }

  // An OR node with two children: those below the first solved one.
  lemma BelowFirst<S, A>(dom: Domain<S, A>, c: Cast<S, A>, nodes: seq<Node<S, A>>, x: nat, k: nat, l: nat, pick: nat)
    requires Circles(dom, c) && HasLabels(dom, c, 20, 16, nodes) && Inner(dom, c, 20, 16, x) && !IsAction(x)
    requires Kids(x) == [k, l] && x < k < 20 && x < l < 20 && |nodes| == 20
    requires pick == (if nodes[k].solved then k else l) && nodes[pick].solved
    ensures EntriesBelow(nodes, x) == EntriesBelow(nodes, pick)
  {
    TwoChildren(dom, c, 20, 16, nodes, x, k, l);
    NodeIs(dom, c, 20, 16, nodes, x);
    PicksOfTwo(nodes, x, k, l);
    BelowOne(nodes, x, pick);
  }

  lemma BelowLeftAgain<S, A>(dom: Domain<S, A>, c: Cast<S, A>, nodes: seq<Node<S, A>>)
    requires Circles(dom, c) && HasLabels(dom, c, 20, 16, nodes) && FinalLabels(nodes)
    ensures EntriesBelow(nodes, 5) == [Entry(c.left, c.move)]
  {
    NodeIs(dom, c, 20, 16, nodes, 13);
    NoPicks(nodes, 13);
    BelowOnly(dom, c, nodes, 12, 13);
    BelowFirst(dom, c, nodes, 5, 10, 12, 12);
  }

  lemma BelowLeft<S, A>(dom: Domain<S, A>, c: Cast<S, A>, nodes: seq<Node<S, A>>)
    requires Circles(dom, c) && HasLabels(dom, c, 20, 16, nodes) && FinalLabels(nodes)
    ensures EntriesBelow(nodes, 2) == LeftEntries(c)
  {
    BelowLeftAgain(dom, c, nodes);
    BelowOnly(dom, c, nodes, 4, 5);
    BelowFirst(dom, c, nodes, 2, 4, 6, 4);
  }

  // The policy that is read off: it waits in the left state before it moves.
  ghost function LoopingEntries<S, A>(c: Cast<S, A>): (entries: seq<Entry<S, A>>) {
    [Entry(c.start, c.move)] + (RightEntries(c) + LeftEntries(c))
  }

  lemma PolicyLoops<S, A>(dom: Domain<S, A>, c: Cast<S, A>, nodes: seq<Node<S, A>>)
    requires Circles(dom, c) && HasLabels(dom, c, 20, 16, nodes) && FinalLabels(nodes)
    ensures PolicyOf(nodes) == LoopingEntries(c)
  {
    BelowRight(dom, c, nodes);
    BelowLeft(dom, c, nodes);
    TwoChildren(dom, c, 20, 16, nodes, 1, 2, 3);
    NodeIs(dom, c, 20, 16, nodes, 1);
    PicksOfTwo(nodes, 1, 2, 3);
    BelowTwo(nodes, 1, 2, 3);
    OwnIs(dom, c, nodes, 1);
    BelowOnly(dom, c, nodes, 0, 1);
  }

  /** Whenever the search stops on such a problem, it has taken nine nodes, the root is
      solved, and the policy waits in the left state first. */
  lemma SearchFindsLoop<S(!new), A(!new)>(dom: Domain<S, A>, c: Cast<S, A>, n: nat, nodes: seq<Node<S, A>>)
    requires Circles(dom, c) && Stops(dom, c.start, n, nodes)
    ensures n == 9 && nodes[0].solved && PolicyOf(nodes) == LoopingEntries(c)
  {
    if n < 9 {
      TreeAfter(dom, c, n);
      StillOpen(dom, c, n, nodes);
    }
    TreeAfter(dom, c, 9);
    if n > 9 {
      assert OpenAfter(dom, c.start, 9);
      var open: seq<Node<S, A>> :| Reaches(dom, c.start, 9, open) && !open[0].solved && !open[0].dead;
      LabelsInTheEnd(dom, c, open);
    }
    if n == 9 {
      LabelsInTheEnd(dom, c, nodes);
      PolicyLoops(dom, c, nodes);
    }
  }

  /** The problem can be solved in three moves. */
  lemma LoopSolvable<S(!new), A(!new)>(dom: Domain<S, A>, c: Cast<S, A>)
    requires Circles(dom, c)
    ensures Solvable(dom, c.start, 3)
  {
    LeadsByMove(dom, c, c.later, 0);
    LeadsByMove(dom, c, c.right, 1);
    LeadsByMove(dom, c, c.left, 1);
    LeadsByMove(dom, c, c.start, 2);
  }

  lemma LeadsByMove<S(!new), A(!new)>(dom: Domain<S, A>, c: Cast<S, A>, s: S, k: nat)
    requires Circles(dom, c) && dom.expand(s, c.move).Branches?
    requires forall o :: o in dom.expand(s, c.move).outcomes ==> Solvable(dom, o, k)
    ensures Solvable(dom, s, k + 1)
  {
    var e := dom.expand(s, dom.actions[1]);
    assert forall i :: 0 <= i < |e.outcomes| ==> e.outcomes[i] in e.outcomes;
    assert AllSolvable(dom, e, k);
  }
}
