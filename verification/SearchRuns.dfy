/** The search as a function: which tree has been grown after so many nodes were taken
    from the frontier.  The labels need no function of their own, since the labelling
    equations have one solution on each tree. */
module SearchRuns {
  import opened AndOr
  import opened Growth

  // A tree, and the first node that may still be open.
  datatype Snapshot<S, A> = Snapshot(nodes: seq<Node<S, A>>, lo: nat)

  ghost function FirstOr<S, A>(nodes: seq<Node<S, A>>, lo: nat): (p: nat)
    requires lo <= |nodes|
    ensures lo <= p <= |nodes|
    ensures p < |nodes| ==> nodes[p].kind.Or?
    ensures forall n: nat :: lo <= n < p ==> nodes[n].kind.And?
    decreases |nodes| - lo
  {
    if lo == |nodes| || nodes[lo].kind.Or? then lo else FirstOr(nodes, lo + 1)
  }

  // Node p after one action has been tried on it.
  ghost function Try<S, A>(dom: Domain<S, A>, nodes: seq<Node<S, A>>, p: nat, j: nat): (r: seq<Node<S, A>>)
    requires p < |nodes| && j < |dom.actions|
    ensures |nodes| <= |r|
  {
    var e := dom.expand(nodes[p].state, dom.actions[j]);
    if e.Branches? then Grown(nodes, p, dom.actions[j], e.result, e.outcomes) else nodes
  }

  // After the first j actions.
  ghost function Tried<S, A>(dom: Domain<S, A>, nodes: seq<Node<S, A>>, p: nat, j: nat): (r: seq<Node<S, A>>)
    requires p < |nodes| && j <= |dom.actions|
    ensures |nodes| <= |r|
  {
    if j == 0 then nodes else Try(dom, Tried(dom, nodes, p, j - 1), p, j - 1)
  }

  ghost function ClosedAt<S, A>(dom: Domain<S, A>, nodes: seq<Node<S, A>>, p: nat): (r: seq<Node<S, A>>)
    requires p < |nodes|
    ensures |nodes| <= |r|
  {
    if dom.goal(nodes[p].state) then nodes else Tried(dom, nodes, p, |dom.actions|)
  }

  // The oldest open node is taken and closed.
  ghost function Pop<S, A>(dom: Domain<S, A>, s: Snapshot<S, A>): (t: Snapshot<S, A>)
    requires s.lo <= |s.nodes|
    ensures t.lo <= |t.nodes|
  {
    var p := FirstOr(s.nodes, s.lo);
    if p < |s.nodes| then Snapshot(ClosedAt(dom, s.nodes, p), p + 1) else s
  }

  ghost function After<S, A>(dom: Domain<S, A>, initial: S, n: nat): (s: Snapshot<S, A>)
    ensures s.lo <= |s.nodes|
  {
    if n == 0 then Snapshot([OrNode(initial, 0, true)], 0) else Pop(dom, After(dom, initial, n - 1))
  }

  // The same as predicates on the result, up to labels for a closed node.
  ghost predicate IsTried<S, A>(dom: Domain<S, A>, nodes: seq<Node<S, A>>, p: nat, j: nat, r: seq<Node<S, A>>) {
    p < |nodes| && j <= |dom.actions| && r == Tried(dom, nodes, p, j)
  }

  ghost predicate IsClosed<S, A>(dom: Domain<S, A>, nodes: seq<Node<S, A>>, p: nat, r: seq<Node<S, A>>) {
    p < |nodes| && SameTree(ClosedAt(dom, nodes, p), r)
  }

  // The oldest open node.
  ghost predicate IsOldest<S, A>(nodes: seq<Node<S, A>>, lo: nat, p: nat) {
    lo <= |nodes| && p == FirstOr(nodes, lo)
  }

  lemma TriedNext<S, A>(dom: Domain<S, A>, nodes: seq<Node<S, A>>, p: nat, j: nat, r: seq<Node<S, A>>)
    requires IsTried(dom, nodes, p, j, r) && j < |dom.actions|
    ensures IsTried(dom, nodes, p, j + 1, Try(dom, r, p, j))
  {
  }

  // ----- The run is about the tree only

  lemma {:induction false} FirstOrIs<S, A>(nodes: seq<Node<S, A>>, lo: nat, p: nat)
    requires lo <= p < |nodes| && nodes[p].kind.Or?
    requires forall n: nat :: lo <= n < |nodes| && nodes[n].kind.Or? ==> p <= n
    ensures FirstOr(nodes, lo) == p
  {
  }

  lemma SameFirstOr<S, A>(nodes: seq<Node<S, A>>, nodes': seq<Node<S, A>>, lo: nat)
    requires SameTree(nodes, nodes') && lo <= |nodes|
    ensures FirstOr(nodes, lo) == FirstOr(nodes', lo)
  {
    var p, p' := FirstOr(nodes, lo), FirstOr(nodes', lo);
    assert p < |nodes| ==> SameNode(nodes[p], nodes'[p]);
    assert p' < |nodes| ==> SameNode(nodes[p'], nodes'[p']);
  }

  lemma SameTry<S, A>(dom: Domain<S, A>, nodes: seq<Node<S, A>>, nodes': seq<Node<S, A>>, p: nat, j: nat)
    requires SameTree(nodes, nodes') && p < |nodes| && j < |dom.actions|
    ensures SameTree(Try(dom, nodes, p, j), Try(dom, nodes', p, j))
  {
    assert SameNode(nodes[p], nodes'[p]);
    var e := dom.expand(nodes[p].state, dom.actions[j]);
    if e.Branches? {
      SameGrown(nodes, nodes', p, dom.actions[j], e.result, e.outcomes);
    }
  }

  lemma SameGrown<S, A>(nodes: seq<Node<S, A>>, nodes': seq<Node<S, A>>, p: nat, a: A, result: S, outcomes: seq<S>)
    requires SameTree(nodes, nodes') && p < |nodes|
    ensures SameTree(Grown(nodes, p, a, result, outcomes), Grown(nodes', p, a, result, outcomes))
  {
    var r, r' := Grown(nodes, p, a, result, outcomes), Grown(nodes', p, a, result, outcomes);
    GrownNodes(nodes, p, a, result, outcomes, r);
    GrownNodes(nodes', p, a, result, outcomes, r');
    forall i: nat | i < |r|
      ensures SameNode(r[i], r'[i])
    {
      if i < |nodes| {
        assert SameNode(nodes[i], nodes'[i]);
      }
    }
  }

  lemma {:induction false} SameTried<S, A>(dom: Domain<S, A>, nodes: seq<Node<S, A>>, nodes': seq<Node<S, A>>, p: nat, j: nat)
    requires SameTree(nodes, nodes') && p < |nodes| && j <= |dom.actions|
    ensures SameTree(Tried(dom, nodes, p, j), Tried(dom, nodes', p, j))
    decreases j
  {
    if j > 0 {
      SameTried(dom, nodes, nodes', p, j - 1);
      SameTry(dom, Tried(dom, nodes, p, j - 1), Tried(dom, nodes', p, j - 1), p, j - 1);
    }
  }

  lemma SameExpansion<S, A>(dom: Domain<S, A>, nodes: seq<Node<S, A>>, nodes': seq<Node<S, A>>, p: nat)
    requires SameTree(nodes, nodes') && p < |nodes|
    ensures SameTree(ClosedAt(dom, nodes, p), ClosedAt(dom, nodes', p))
  {
    assert SameNode(nodes[p], nodes'[p]);
    SameTried(dom, nodes, nodes', p, |dom.actions|);
  }

  lemma SamePop<S, A>(dom: Domain<S, A>, nodes: seq<Node<S, A>>, nodes': seq<Node<S, A>>, lo: nat)
    requires SameTree(nodes, nodes') && lo <= |nodes|
    ensures SameTree(Pop(dom, Snapshot(nodes, lo)).nodes, Pop(dom, Snapshot(nodes', lo)).nodes)
    ensures Pop(dom, Snapshot(nodes, lo)).lo == Pop(dom, Snapshot(nodes', lo)).lo
  {
    SameFirstOr(nodes, nodes', lo);
    var p := FirstOr(nodes, lo);
    if p < |nodes| {
      SameExpansion(dom, nodes, nodes', p);
    }
  }

  lemma SameTreeChain<S, A>(a: seq<Node<S, A>>, b: seq<Node<S, A>>, c: seq<Node<S, A>>)
    requires SameTree(a, b) && SameTree(b, c)
    ensures SameTree(a, c)
  {
    forall i: nat | i < |a|
      ensures SameNode(a[i], c[i])
    {
      assert SameNode(a[i], b[i]) && SameNode(b[i], c[i]);
    }
  }

  // ----- Where a search stands and stops

  // A labelled tree that the search has after taking n nodes.
  ghost predicate Reaches<S, A>(dom: Domain<S, A>, initial: S, n: nat, nodes: seq<Node<S, A>>) {
    && SameTree(After(dom, initial, n).nodes, nodes)
    && Labelled(dom, nodes, After(dom, initial, n).lo)
    && Shape(nodes)
  }

  ghost predicate OpenAfter<S(!new), A(!new)>(dom: Domain<S, A>, initial: S, n: nat) {
    exists nodes: seq<Node<S, A>> :: Reaches(dom, initial, n, nodes) && !nodes[0].solved && !nodes[0].dead
  }

  // The root is labelled for the first time after n nodes, and this is the tree.
  ghost predicate Stops<S(!new), A(!new)>(dom: Domain<S, A>, initial: S, n: nat, nodes: seq<Node<S, A>>) {
    && Reaches(dom, initial, n, nodes) && (nodes[0].solved || nodes[0].dead)
    && forall m: nat :: m < n ==> OpenAfter(dom, initial, m)
  }

  /** There is only one tree and one labelling after any number of nodes. */
  lemma ReachesUnique<S, A>(dom: Domain<S, A>, initial: S, n: nat, nodes: seq<Node<S, A>>, nodes': seq<Node<S, A>>)
    requires Reaches(dom, initial, n, nodes) && Reaches(dom, initial, n, nodes')
    ensures nodes == nodes'
  {
    var bare := After(dom, initial, n).nodes;
    forall i: nat | i < |nodes|
      ensures SameNode(nodes[i], nodes'[i])
    {
      assert SameNode(bare[i], nodes[i]) && SameNode(bare[i], nodes'[i]);
    }
    LabellingUnique(dom, nodes, nodes', After(dom, initial, n).lo);
  }

  /** A search stops at most once: the number of nodes taken and the labelled tree are determined. */
  lemma StopsOnce<S(!new), A(!new)>(
    dom: Domain<S, A>, initial: S, n: nat, nodes: seq<Node<S, A>>, n': nat, nodes': seq<Node<S, A>>)
    requires Stops(dom, initial, n, nodes) && Stops(dom, initial, n', nodes')
    ensures n == n' && nodes == nodes'
  {
    NotOpen(dom, initial, n, nodes);
    NotOpen(dom, initial, n', nodes');
    assert n < n' ==> OpenAfter(dom, initial, n);
    assert n' < n ==> OpenAfter(dom, initial, n');
    ReachesUnique(dom, initial, n, nodes, nodes');
  }

  lemma NotOpen<S(!new), A(!new)>(dom: Domain<S, A>, initial: S, n: nat, nodes: seq<Node<S, A>>)
    requires Reaches(dom, initial, n, nodes) && (nodes[0].solved || nodes[0].dead)
    ensures !OpenAfter(dom, initial, n)
  {
    if OpenAfter(dom, initial, n) {
      var nodes': seq<Node<S, A>> :| Reaches(dom, initial, n, nodes') && !nodes'[0].solved && !nodes'[0].dead;
      ReachesUnique(dom, initial, n, nodes, nodes');
    }
  }

  // ----- The states a search went through

  // An open root, and the oldest open node closed.
  ghost predicate Steps<S, A>(dom: Domain<S, A>, s: Snapshot<S, A>, t: Snapshot<S, A>) {
    && Labelled(dom, s.nodes, s.lo) && Shape(s.nodes) && !s.nodes[0].solved && !s.nodes[0].dead
    && t.lo > 0 && IsOldest(s.nodes, s.lo, t.lo - 1) && IsClosed(dom, s.nodes, t.lo - 1, t.nodes)
  }

  ghost predicate IsHistory<S, A>(dom: Domain<S, A>, initial: S, log: seq<Snapshot<S, A>>) {
    && |log| > 0 && log[0] == Snapshot([OrNode(initial, 0, true)], 0)
    && forall i: nat :: i + 1 < |log| ==> Steps(dom, log[i], log[i + 1])
  }

  lemma HistoryStart<S, A>(dom: Domain<S, A>, initial: S)
    ensures IsHistory(dom, initial, [Snapshot([OrNode(initial, 0, true)], 0)])
  {
  }

  lemma HistoryNext<S, A>(dom: Domain<S, A>, initial: S, log: seq<Snapshot<S, A>>, t: Snapshot<S, A>)
    requires IsHistory(dom, initial, log) && Steps(dom, log[|log| - 1], t)
    ensures IsHistory(dom, initial, log + [t])
  {
  }

  // A step is a step of the run, from any labels of the same tree.
  lemma StepIsPop<S, A>(dom: Domain<S, A>, s: Snapshot<S, A>, t: Snapshot<S, A>, t': Snapshot<S, A>)
    requires SameTree(s.nodes, t.nodes) && s.lo == t.lo && Steps(dom, t, t')
    ensures s.lo <= |s.nodes| && SameTree(Pop(dom, s).nodes, t'.nodes) && Pop(dom, s).lo == t'.lo
  {
    SamePop(dom, s.nodes, t.nodes, s.lo);
    assert Pop(dom, Snapshot(t.nodes, t.lo)) == Snapshot(ClosedAt(dom, t.nodes, t'.lo - 1), t'.lo);
    SameTreeChain(Pop(dom, s).nodes, Pop(dom, Snapshot(t.nodes, t.lo)).nodes, t'.nodes);
  }

  // After n nodes, up to labels.
  ghost predicate IsAfter<S, A>(dom: Domain<S, A>, initial: S, n: nat, t: Snapshot<S, A>) {
    SameTree(After(dom, initial, n).nodes, t.nodes) && After(dom, initial, n).lo == t.lo
  }

  lemma AfterNext<S, A>(dom: Domain<S, A>, initial: S, n: nat, t: Snapshot<S, A>, t': Snapshot<S, A>)
    requires IsAfter(dom, initial, n, t) && Steps(dom, t, t')
    ensures IsAfter(dom, initial, n + 1, t')
  {
    StepIsPop(dom, After(dom, initial, n), t, t');
  }

  /** What a search went through is the run, whatever the labels. */
  lemma {:induction false} HistoryIsRun<S, A>(dom: Domain<S, A>, initial: S, log: seq<Snapshot<S, A>>, i: nat)
    requires IsHistory(dom, initial, log) && i < |log|
    ensures IsAfter(dom, initial, i, log[i])
    decreases i
  {
    if i > 0 {
      var p: nat := i - 1;
      HistoryIsRun(dom, initial, log, p);
      assert Steps(dom, log[p], log[p + 1]);
      AfterNext(dom, initial, p, log[p], log[p + 1]);
    }
  }

  /** A search that has labelled its root has stopped where the run stops. */
  lemma HistoryStops<S(!new), A(!new)>(dom: Domain<S, A>, initial: S, log: seq<Snapshot<S, A>>)
    requires IsHistory(dom, initial, log)
    requires var s := log[|log| - 1]; Labelled(dom, s.nodes, s.lo) && Shape(s.nodes) && (s.nodes[0].solved || s.nodes[0].dead)
    ensures Stops(dom, initial, |log| - 1, log[|log| - 1].nodes)
  {
    HistoryIsRun(dom, initial, log, |log| - 1);
    forall m: nat | m < |log| - 1
      ensures OpenAfter(dom, initial, m)
    {
      HistoryIsRun(dom, initial, log, m);
      assert Steps(dom, log[m], log[m + 1]);
      assert Reaches(dom, initial, m, log[m].nodes);
    }
  }
}
