/** Reading a policy off a solved tree. */
module Extraction {
  import opened AndOr
  import opened BreadthFirst
  import opened Graphs
  import States

  datatype Entry<S, A> = Entry(state: S, action: A)

  // ----- What makes a list of entries a policy

  // The state is a goal or has an entry of rank at least r.
  ghost predicate Covered<S(!new), A(!new)>(dom: Domain<S, A>, entries: seq<Entry<S, A>>, rank: seq<nat>, s: S, r: nat) {
    dom.goal(s) || exists n: nat :: n < |entries| && n < |rank| && entries[n].state == s && rank[n] >= r
  }

  ghost predicate EntryCloses<S(!new), A(!new)>(dom: Domain<S, A>, entries: seq<Entry<S, A>>, rank: seq<nat>, n: nat)
    requires n < |entries| && n < |rank|
  {
    var e := dom.expand(entries[n].state, entries[n].action);
    && entries[n].action in dom.actions && e.Branches?
    && forall i :: 0 <= i < |e.outcomes| ==> Covered(dom, entries, rank, e.outcomes[i], rank[n] + 1)
  }

  /** Closed and well-founded: every outcome of every entry's action is a goal or
      has an entry of strictly higher rank. */
  ghost predicate ClosedPolicy<S(!new), A(!new)>(dom: Domain<S, A>, entries: seq<Entry<S, A>>, rank: seq<nat>) {
    && |rank| == |entries|
    && forall n: nat :: n < |entries| ==> EntryCloses(dom, entries, rank, n)
  }

  /** From the state, following some entry for every state met reaches the goal
      within k actions, whatever the outcomes. */
  ghost predicate Follows<S(!new), A(!new)>(dom: Domain<S, A>, entries: seq<Entry<S, A>>, s: S, k: nat)
    decreases k, 1
  {
    dom.goal(s) || exists n: nat :: n < |entries| && FollowsEntry(dom, entries, s, n, k)
  }

  ghost predicate FollowsEntry<S(!new), A(!new)>(dom: Domain<S, A>, entries: seq<Entry<S, A>>, s: S, n: nat, k: nat)
    requires n < |entries|
    decreases k, 0
  {
    var e := dom.expand(s, entries[n].action);
    && k > 0
    && entries[n].state == s && entries[n].action in dom.actions && e.Branches?
    && forall i :: 0 <= i < |e.outcomes| ==> Follows(dom, entries, e.outcomes[i], k - 1)
  }

  ghost function Highest(rank: seq<nat>): (h: nat)
    ensures forall n :: 0 <= n < |rank| ==> rank[n] < h
  {
    if rank == [] then 0 else
      var h := Highest(rank[..|rank| - 1]);
      assert forall n :: 0 <= n < |rank| - 1 ==> rank[n] == rank[..|rank| - 1][n];
      if h <= rank[|rank| - 1] then rank[|rank| - 1] + 1 else h
  }

  /** A covered state of a closed policy is led to the goal. */
  lemma {:induction false} ClosedPolicyReachesGoal<S(!new), A(!new)>(
    dom: Domain<S, A>, entries: seq<Entry<S, A>>, rank: seq<nat>, s: S, r: nat)
    requires ClosedPolicy(dom, entries, rank) && Covered(dom, entries, rank, s, r) && r <= Highest(rank)
    ensures Follows(dom, entries, s, Highest(rank) - r)
    decreases Highest(rank) - r
  {
    if !dom.goal(s) {
      var n: nat :| n < |entries| && n < |rank| && entries[n].state == s && rank[n] >= r;
      assert EntryCloses(dom, entries, rank, n);
      var e := dom.expand(s, entries[n].action);
      var k := Highest(rank) - r - 1;
      forall i | 0 <= i < |e.outcomes|
        ensures Follows(dom, entries, e.outcomes[i], k)
      {
        ClosedPolicyReachesGoal(dom, entries, rank, e.outcomes[i], rank[n] + 1);
        FollowsMonotone(dom, entries, e.outcomes[i], Highest(rank) - (rank[n] + 1), k);
      }
      assert FollowsEntry(dom, entries, s, n, k + 1);
    }
  }

  lemma {:induction false} FollowsMonotone<S(!new), A(!new)>(dom: Domain<S, A>, entries: seq<Entry<S, A>>, s: S, k: nat, l: nat)
    requires Follows(dom, entries, s, k) && k <= l
    ensures Follows(dom, entries, s, l)
    decreases k
  {
    if !dom.goal(s) {
      var n: nat :| n < |entries| && FollowsEntry(dom, entries, s, n, k);
      var e := dom.expand(s, entries[n].action);
      forall i | 0 <= i < |e.outcomes|
        ensures Follows(dom, entries, e.outcomes[i], l - 1)
      {
        FollowsMonotone(dom, entries, e.outcomes[i], k - 1, l - 1);
      }
      assert FollowsEntry(dom, entries, s, n, l);
    }
  }

  // ----- Invariant of the depth-first walk over the solved part of the tree

  ghost predicate Seen(visited: set<nat>, frontier: seq<nat>, x: nat) {
    x in visited || x in frontier
  }

  ghost predicate Walking<S, A>(dom: Domain<S, A>, nodes: seq<Node<S, A>>, visited: set<nat>, frontier: seq<nat>)
    requires Shape(nodes)
  {
    && (forall i, j :: 0 <= i < j < |frontier| ==> frontier[i] != frontier[j])
    && (forall x: nat :: x in frontier ==> x !in visited)
    && (forall x: nat :: Seen(visited, frontier, x) ==> x < |nodes| && nodes[x].solved)
    && (forall x: nat :: Seen(visited, frontier, x) && x > 0 ==> x < |nodes| && nodes[x].parent in visited)
    && Seen(visited, frontier, 0)
    && (forall x: nat :: x in visited ==> Followed(dom, nodes, visited, frontier, x))
  }

  // A visited OR node has a seen child unless it is a goal; all children of a visited AND node are seen.
  ghost predicate Followed<S, A>(dom: Domain<S, A>, nodes: seq<Node<S, A>>, visited: set<nat>, frontier: seq<nat>, x: nat) {
    && x < |nodes|
    && (nodes[x].kind.Or? && !dom.goal(nodes[x].state) ==> exists c: nat :: Child(nodes, x, c) && Seen(visited, frontier, c))
    && (nodes[x].kind.And? ==> forall c: nat :: Child(nodes, x, c) ==> Seen(visited, frontier, c))
  }

  ghost predicate Recorded<S, A>(nodes: seq<Node<S, A>>, visited: set<nat>, entries: seq<Entry<S, A>>, origin: seq<nat>)
    requires Shape(nodes)
  {
    && |origin| == |entries|
    && (forall n: nat :: n < |origin| ==> origin[n] in visited && RecordedAs(nodes, origin[n], entries[n]))
    && (forall x: nat :: x in visited && x < |nodes| && nodes[x].kind.And? ==> x in origin)
  }

  ghost predicate RecordedAs<S, A>(nodes: seq<Node<S, A>>, x: nat, entry: Entry<S, A>)
    requires Shape(nodes)
  {
    x < |nodes| && nodes[x].kind.And? && ParentFits(nodes, x)
    && entry == Entry(nodes[nodes[x].parent].state, nodes[x].kind.action)
  }

  // ----- The walk as a function

  // The solved ones of a list of nodes: all of them, or only the first.
  ghost function SolvedIn<S, A>(nodes: seq<Node<S, A>>, ids: seq<nat>, all: bool): (picks: seq<nat>)
    requires InTree(nodes, ids)
    ensures InTree(nodes, picks)
    decreases |ids|
  {
    if ids == [] then []
    else
      var earlier, c := SolvedIn(nodes, ids[..|ids| - 1], all), ids[|ids| - 1];
      if nodes[c].solved && (all || earlier == []) then earlier + [c] else earlier
  }

  // All solved children of an AND node, or the first one of an OR node.
  ghost function SolvedChildren<S, A>(nodes: seq<Node<S, A>>, x: nat): (picks: seq<nat>)
    requires x < |nodes| && InTree(nodes, nodes[x].children)
    ensures InTree(nodes, picks)
  {
    SolvedIn(nodes, nodes[x].children, nodes[x].kind.And?)
  }

  lemma ChildrenInTree<S, A>(nodes: seq<Node<S, A>>, x: nat)
    requires Shape(nodes) && x < |nodes|
    ensures InTree(nodes, nodes[x].children)
    ensures forall k :: 0 <= k < |nodes[x].children| ==> x < nodes[x].children[k]
  {
    forall k | 0 <= k < |nodes[x].children|
      ensures x < nodes[x].children[k] < |nodes|
    {
      assert Child(nodes, x, nodes[x].children[k]);
    }
  }

  // The entries below a node: its own if it is an AND node, then those below its solved
  // children, the last one first.
  ghost function EntriesBelow<S, A>(nodes: seq<Node<S, A>>, x: nat): (entries: seq<Entry<S, A>>)
    requires Shape(nodes) && x < |nodes|
    decreases |nodes| - x, 0
  {
    ChildrenInTree(nodes, x);
    OwnEntry(nodes, x) + EntriesBelowAll(nodes, x, SolvedChildren(nodes, x))
  }

  ghost function OwnEntry<S, A>(nodes: seq<Node<S, A>>, x: nat): (entries: seq<Entry<S, A>>)
    requires Shape(nodes) && x < |nodes|
  {
    if nodes[x].kind.And? then
      assert ParentFits(nodes, x);
      [Entry(nodes[nodes[x].parent].state, nodes[x].kind.action)]
    else []
  }

  ghost function EntriesBelowAll<S, A>(nodes: seq<Node<S, A>>, x: nat, ids: seq<nat>): (entries: seq<Entry<S, A>>)
    requires Shape(nodes) && x < |nodes| && InTree(nodes, ids)
    decreases |nodes| - x - 1, |ids| + 1
  {
    if ids == [] then []
    else
      var c, rest := ids[|ids| - 1], EntriesBelowAll(nodes, x, ids[..|ids| - 1]);
      if x < c then EntriesBelow(nodes, c) + rest else rest
  }

  /** The policy that a labelled tree stands for. */
  ghost function PolicyOf<S, A>(nodes: seq<Node<S, A>>): (entries: seq<Entry<S, A>>)
    requires Shape(nodes)
  {
    EntriesBelow(nodes, 0)
  }

  // What the walk still has to add for the nodes on its stack, the top first.
  ghost function Stacked<T>(below: nat -> seq<T>, frontier: seq<nat>): (entries: seq<T>) {
    if frontier == [] then [] else below(frontier[|frontier| - 1]) + Stacked(below, frontier[..|frontier| - 1])
  }

  ghost function BelowOf<S, A>(nodes: seq<Node<S, A>>): (below: nat -> seq<Entry<S, A>>) {
    (x: nat) => if Shape(nodes) && x < |nodes| then EntriesBelow(nodes, x) else []
  }

  lemma Regroup<T>(a: seq<T>, b: seq<T>, c: seq<T>)
    ensures (a + b) + c == a + (b + c)
    ensures a + [] == a
  {
  }

  lemma StackSnoc<T>(below: nat -> seq<T>, rest: seq<nat>, x: nat)
    ensures Stacked(below, rest + [x]) == below(x) + Stacked(below, rest)
  {
    assert (rest + [x])[..|rest|] == rest;
  }

  lemma {:induction false} StackConcat<T>(below: nat -> seq<T>, rest: seq<nat>, picks: seq<nat>)
    ensures Stacked(below, rest + picks) == Stacked(below, picks) + Stacked(below, rest)
    decreases |picks|
  {
    if picks == [] {
      assert rest + picks == rest;
    } else {
      var init, x := picks[..|picks| - 1], picks[|picks| - 1];
      StackConcat(below, rest, init);
      assert picks == init + [x] && rest + picks == (rest + init) + [x];
      StackSnoc(below, rest + init, x);
      StackSnoc(below, init, x);
      Regroup(below(x), Stacked(below, init), Stacked(below, rest));
    }
  }

  lemma {:induction false} BelowAllStacked<S, A>(nodes: seq<Node<S, A>>, x: nat, ids: seq<nat>)
    requires Shape(nodes) && x < |nodes| && InTree(nodes, ids) && forall i :: 0 <= i < |ids| ==> x < ids[i]
    ensures EntriesBelowAll(nodes, x, ids) == Stacked(BelowOf(nodes), ids)
    decreases |ids|
  {
    if ids != [] {
      BelowAllStacked(nodes, x, ids[..|ids| - 1]);
    }
  }

  lemma {:induction false} SolvedInAbove<S, A>(nodes: seq<Node<S, A>>, ids: seq<nat>, all: bool, x: nat)
    requires InTree(nodes, ids) && forall i :: 0 <= i < |ids| ==> x < ids[i]
    ensures forall i :: 0 <= i < |SolvedIn(nodes, ids, all)| ==> x < SolvedIn(nodes, ids, all)[i]
    decreases |ids|
  {
    if ids != [] {
      SolvedInAbove(nodes, ids[..|ids| - 1], all, x);
    }
  }

  lemma BelowSplits<S, A>(nodes: seq<Node<S, A>>, x: nat)
    requires Shape(nodes) && x < |nodes| && InTree(nodes, nodes[x].children)
    ensures BelowOf(nodes)(x) == OwnEntry(nodes, x) + Stacked(BelowOf(nodes), SolvedChildren(nodes, x))
  {
    ChildrenInTree(nodes, x);
    SolvedInAbove(nodes, nodes[x].children, nodes[x].kind.And?, x);
    BelowAllStacked(nodes, x, SolvedChildren(nodes, x));
  }

  // Taking a node from the stack and pushing its solved children.
  lemma StackStep<S, A>(nodes: seq<Node<S, A>>, rest: seq<nat>, x: nat)
    requires Shape(nodes) && x < |nodes| && InTree(nodes, nodes[x].children)
    ensures Stacked(BelowOf(nodes), rest + [x])
         == OwnEntry(nodes, x) + Stacked(BelowOf(nodes), rest + SolvedChildren(nodes, x))
  {
    var below, picks := BelowOf(nodes), SolvedChildren(nodes, x);
    StackSnoc(below, rest, x);
    BelowSplits(nodes, x);
    StackConcat(below, rest, picks);
    Regroup(OwnEntry(nodes, x), Stacked(below, picks), Stacked(below, rest));
  }

  ghost predicate Picks<S, A>(nodes: seq<Node<S, A>>, x: nat, picks: seq<nat>)
    requires x < |nodes|
  {
    && (forall i, j :: 0 <= i < j < |picks| ==> picks[i] != picks[j])
    && (forall c: nat :: c in picks ==> Child(nodes, x, c) && c < |nodes| && nodes[c].solved)
    && (nodes[x].kind.And? ==> forall c: nat :: Child(nodes, x, c) && c < |nodes| && nodes[c].solved ==> c in picks)
    && (nodes[x].kind.Or? && SomeChildSolved(nodes, x) ==> picks != [])
  }

  /** The solved children of an AND node, or the first solved child of an OR node. */
  method PushSolvedChildren<S, A>(graph: Graph<S, A>, x: nat, frontier0: seq<nat>) returns (frontier: seq<nat>)
    requires x < |graph.nodes| && InTree(graph.nodes, graph.nodes[x].children)
    ensures frontier == frontier0 + SolvedChildren(graph.nodes, x)
  {
    var children := graph.nodes[x].children;
    ghost var nodes, all := graph.nodes, graph.nodes[x].kind.And?;
    frontier := frontier0;
    for k := 0 to |children|
      invariant frontier == frontier0 + SolvedIn(nodes, children[..k], all)
      invariant !all ==> SolvedIn(nodes, children[..k], all) == []
    {
      SolvedInNext(nodes, children, k, all);
      if graph.nodes[children[k]].solved {
        frontier := frontier + [children[k]];
        if graph.nodes[x].kind.Or? {
          FirstSolvedOnly(nodes, children, k + 1, |children|);
          break;
        }
      }
    }
    assert children[..|children|] == children;
  }

  lemma SolvedInSnoc<S, A>(nodes: seq<Node<S, A>>, ids: seq<nat>, c: nat, all: bool)
    requires InTree(nodes, ids) && c < |nodes|
    ensures InTree(nodes, ids + [c])
    ensures SolvedIn(nodes, ids + [c], all)
         == SolvedIn(nodes, ids, all) + if nodes[c].solved && (all || SolvedIn(nodes, ids, all) == []) then [c] else []
  {
    assert (ids + [c])[..|ids|] == ids;
  }

  lemma SolvedInNext<S, A>(nodes: seq<Node<S, A>>, ids: seq<nat>, k: nat, all: bool)
    requires InTree(nodes, ids) && k < |ids|
    ensures SolvedIn(nodes, ids[..k + 1], all)
         == SolvedIn(nodes, ids[..k], all) + if nodes[ids[k]].solved && (all || SolvedIn(nodes, ids[..k], all) == []) then [ids[k]] else []
  {
    SolvedInSnoc(nodes, ids[..k], ids[k], all);
    assert ids[..k + 1] == ids[..k] + [ids[k]];
  }

  lemma {:induction false} FirstSolvedOnly<S, A>(nodes: seq<Node<S, A>>, ids: seq<nat>, k: nat, l: nat)
    requires InTree(nodes, ids) && k <= l <= |ids| && SolvedIn(nodes, ids[..k], false) != []
    ensures SolvedIn(nodes, ids[..l], false) == SolvedIn(nodes, ids[..k], false)
    decreases l
  {
    if k < l {
      FirstSolvedOnly(nodes, ids, k, l - 1);
      SolvedInNext(nodes, ids, l - 1, false);
    }
  }

  lemma {:induction false} SolvedInFrom<S, A>(nodes: seq<Node<S, A>>, ids: seq<nat>, all: bool)
    requires InTree(nodes, ids)
    ensures forall c :: c in SolvedIn(nodes, ids, all) ==> c in ids && c < |nodes| && nodes[c].solved
    decreases |ids|
  {
    if ids != [] {
      SolvedInFrom(nodes, ids[..|ids| - 1], all);
    }
  }

  lemma {:induction false} SolvedInAscends<S, A>(nodes: seq<Node<S, A>>, ids: seq<nat>, all: bool)
    requires InTree(nodes, ids) && Ascends(ids)
    ensures Ascends(SolvedIn(nodes, ids, all))
    decreases |ids|
  {
    if ids != [] {
      var init, c := ids[..|ids| - 1], ids[|ids| - 1];
      SolvedInAscends(nodes, init, all);
      SolvedInFrom(nodes, init, all);
      var earlier := SolvedIn(nodes, init, all);
      forall i | 0 <= i < |earlier|
        ensures earlier[i] < c
      {
        assert earlier[i] in earlier;
        var j :| 0 <= j < |init| && init[j] == earlier[i];
        assert ids[j] == init[j];
      }
    }
  }

  lemma {:induction false} SolvedInComplete<S, A>(nodes: seq<Node<S, A>>, ids: seq<nat>, all: bool, i: nat)
    requires InTree(nodes, ids) && i < |ids| && nodes[ids[i]].solved
    ensures SolvedIn(nodes, ids, all) != []
    ensures all ==> ids[i] in SolvedIn(nodes, ids, all)
    decreases |ids|
  {
    if i < |ids| - 1 {
      SolvedInComplete(nodes, ids[..|ids| - 1], all, i);
    }
  }

  lemma SolvedChildrenPicks<S, A>(nodes: seq<Node<S, A>>, x: nat)
    requires Shape(nodes) && x < |nodes| && InTree(nodes, nodes[x].children)
    ensures Picks(nodes, x, SolvedChildren(nodes, x))
  {
    var children, all := nodes[x].children, nodes[x].kind.And?;
    SolvedInFrom(nodes, children, all);
    SolvedInAscends(nodes, children, all);
    forall c: nat | Child(nodes, x, c) && c < |nodes| && nodes[c].solved
      ensures SolvedChildren(nodes, x) != [] && (all ==> c in SolvedChildren(nodes, x))
    {
      var i: nat :| i < |children| && children[i] == c;
      SolvedInComplete(nodes, children, all, i);
    }
  }

  // The picked children are new to the walk: their only parent was not visited before.
  lemma PicksNew<S, A>(dom: Domain<S, A>, nodes: seq<Node<S, A>>, visited: set<nat>, frontier: seq<nat>, x: nat, picks: seq<nat>)
    requires Shape(nodes) && Walking(dom, nodes, visited, frontier)
    requires x < |nodes| && x in frontier && Picks(nodes, x, picks)
    ensures forall c: nat :: c in picks ==> !Seen(visited, frontier, c) && c != x && c > 0 && c < |nodes| && nodes[c].solved && nodes[c].parent == x
  {
    forall c: nat | c in picks
      ensures !Seen(visited, frontier, c) && c != x && c > 0 && nodes[c].parent == x
    {
      assert Child(nodes, x, c);
      assert x !in visited;
    }
  }

  lemma StackDistinct(rest: seq<nat>, x: nat, picks: seq<nat>)
    requires forall i, j :: 0 <= i < j < |rest + [x]| ==> (rest + [x])[i] != (rest + [x])[j]
    requires forall i, j :: 0 <= i < j < |picks| ==> picks[i] != picks[j]
    requires forall c: nat :: c in picks ==> c !in rest + [x]
    ensures forall i, j :: 0 <= i < j < |rest + picks| ==> (rest + picks)[i] != (rest + picks)[j]
    ensures x !in rest + picks
  {
    assert x in rest + [x];
    assert forall i :: 0 <= i < |picks| ==> picks[i] in picks;
    assert forall i :: 0 <= i < |rest| ==> rest[i] == (rest + [x])[i] && (rest + [x])[|rest|] == x;
    assert forall i :: 0 <= i < |rest| ==> (rest + [x])[i] in rest + [x];
  }

  lemma PopStep<S(!new), A(!new)>(
    dom: Domain<S, A>, nodes: seq<Node<S, A>>, lo: nat, visited: set<nat>, rest: seq<nat>, x: nat, picks: seq<nat>)
    requires Shape(nodes) && Labelled(dom, nodes, lo)
    requires Walking(dom, nodes, visited, rest + [x])
    requires x < |nodes| && Picks(nodes, x, picks)
    ensures Walking(dom, nodes, visited + {x}, rest + picks)
  {
    var frontier, visited', frontier' := rest + [x], visited + {x}, rest + picks;
    assert forall y: nat :: y in frontier <==> y in rest || y == x;
    assert forall y: nat :: y in frontier' <==> y in rest || y in picks;
    assert Seen(visited, frontier, x);
    PicksNew(dom, nodes, visited, frontier, x, picks);
    StackDistinct(rest, x, picks);
    forall y: nat
      ensures Seen(visited', frontier', y) <==> Seen(visited, frontier, y) || y in picks
    {
    }
    forall y: nat | y in visited'
      ensures Followed(dom, nodes, visited', frontier', y)
    {
      if y == x {
        PickedFollowed(dom, nodes, lo, x, picks, visited', frontier');
      } else {
        assert Followed(dom, nodes, visited, frontier, y);
        FollowedGrows(dom, nodes, visited, frontier, visited', frontier', y);
      }
    }
  }

  lemma FollowedGrows<S, A>(dom: Domain<S, A>, nodes: seq<Node<S, A>>, visited: set<nat>, frontier: seq<nat>,
                            visited': set<nat>, frontier': seq<nat>, y: nat)
    requires Followed(dom, nodes, visited, frontier, y)
    requires forall c: nat :: Seen(visited, frontier, c) ==> Seen(visited', frontier', c)
    ensures Followed(dom, nodes, visited', frontier', y)
  {
  }

  lemma PickedFollowed<S, A>(
    dom: Domain<S, A>, nodes: seq<Node<S, A>>, lo: nat, x: nat, picks: seq<nat>, visited: set<nat>,
    frontier: seq<nat>)
    requires Labelled(dom, nodes, lo) && Shape(nodes) && x < |nodes| && nodes[x].solved && Picks(nodes, x, picks)
    requires forall c: nat :: c in picks ==> c in frontier
    ensures Followed(dom, nodes, visited, frontier, x)
  {
    assert SolvedOk(dom, nodes, lo, x);
    if nodes[x].kind.Or? && !dom.goal(nodes[x].state) {
      assert SomeChildSolved(nodes, x);
      var c: nat := picks[0];
      assert c in picks;
      assert Child(nodes, x, c) && Seen(visited, frontier, c);
    }
  }

  // Ranks are depths in the tree.
  ghost function Ranks<S, A>(nodes: seq<Node<S, A>>, origin: seq<nat>): (rank: seq<nat>)
    requires Shape(nodes) && forall n: nat :: n < |origin| ==> origin[n] < |nodes|
    ensures |rank| == |origin|
    ensures forall n: nat :: n < |origin| ==> rank[n] == Depth(nodes, origin[n])
  {
    seq(|origin|, n requires 0 <= n < |origin| => Depth(nodes, origin[n]))
  }

  // A visited OR node that is no goal has an entry of its own depth.
  lemma {:induction false} VisitedCovered<S(!new), A(!new)>(
    dom: Domain<S, A>, nodes: seq<Node<S, A>>, visited: set<nat>, entries: seq<Entry<S, A>>, origin: seq<nat>,
    rank: seq<nat>, x: nat)
    requires Shape(nodes) && Walking(dom, nodes, visited, []) && Recorded(nodes, visited, entries, origin)
    requires |rank| == |origin| && forall n: nat :: n < |origin| ==> origin[n] < |nodes| && rank[n] == Depth(nodes, origin[n])
    requires x in visited && x < |nodes| && nodes[x].kind.Or?
    ensures Covered(dom, entries, rank, nodes[x].state, Depth(nodes, x))
  {
    assert Followed(dom, nodes, visited, [], x);
    if !dom.goal(nodes[x].state) {
      var none: seq<nat> := [];
      var c: nat :| Child(nodes, x, c) && Seen(visited, none, c);
      ChildDepth(nodes, x, c);
      assert c in origin;
      var n: nat :| n < |origin| && origin[n] == c;
      assert RecordedAs(nodes, origin[n], entries[n]);
    }
  }

  lemma WalkCloses<S(!new), A(!new)>(
    dom: Domain<S, A>, nodes: seq<Node<S, A>>, lo: nat, visited: set<nat>, entries: seq<Entry<S, A>>,
    origin: seq<nat>, rank: seq<nat>, n: nat)
    requires Exact(dom, nodes, lo, 0) && Walking(dom, nodes, visited, []) && Recorded(nodes, visited, entries, origin)
    requires |rank| == |origin| && forall m: nat :: m < |origin| ==> origin[m] < |nodes| && rank[m] == Depth(nodes, origin[m])
    requires n < |entries|
    ensures EntryCloses(dom, entries, rank, n)
  {
    var x := origin[n];
    assert RecordedAs(nodes, x, entries[n]) && AndExact(dom, nodes, x);
    assert Followed(dom, nodes, visited, [], x);
    var e := Expanded(dom, nodes, x);
    var none: seq<nat> := [];
    forall i | 0 <= i < |e.outcomes|
      ensures Covered(dom, entries, rank, e.outcomes[i], rank[n] + 1)
    {
      var c := nodes[x].children[i];
      assert Child(nodes, x, c) && nodes[c].state == e.outcomes[i];
      assert Seen(visited, none, c);
      ChildDepth(nodes, x, c);
      VisitedCovered(dom, nodes, visited, entries, origin, rank, c);
    }
  }

  lemma RecordStep<S, A>(nodes: seq<Node<S, A>>, visited: set<nat>, entries: seq<Entry<S, A>>, origin: seq<nat>, x: nat)
    requires Shape(nodes) && Recorded(nodes, visited, entries, origin) && x < |nodes|
    ensures nodes[x].kind.Or? ==> Recorded(nodes, visited + {x}, entries, origin)
    ensures nodes[x].kind.And? ==> ParentFits(nodes, x)
    ensures nodes[x].kind.And? ==>
              Recorded(nodes, visited + {x}, entries + [Entry(nodes[nodes[x].parent].state, nodes[x].kind.action)], origin + [x])
  {
    if nodes[x].kind.And? {
      assert ParentFits(nodes, x);
      var entries', origin' := entries + [Entry(nodes[nodes[x].parent].state, nodes[x].kind.action)], origin + [x];
      forall n: nat | n < |origin'|
        ensures origin'[n] in visited + {x} && RecordedAs(nodes, origin'[n], entries'[n])
      {
        if n < |origin| {
          assert RecordedAs(nodes, origin[n], entries[n]);
        }
      }
    }
  }

  // Every entry is for the state of some node.
  ghost predicate EntriesFromTree<S, A>(nodes: seq<Node<S, A>>, entries: seq<Entry<S, A>>) {
    forall n: nat :: n < |entries| ==> exists i: nat :: i < |nodes| && nodes[i].state == entries[n].state
  }

  lemma RecordedFromTree<S, A>(nodes: seq<Node<S, A>>, visited: set<nat>, entries: seq<Entry<S, A>>, origin: seq<nat>)
    requires Shape(nodes) && Recorded(nodes, visited, entries, origin)
    ensures EntriesFromTree(nodes, entries)
  {
    forall n: nat | n < |entries|
      ensures exists i: nat :: i < |nodes| && nodes[i].state == entries[n].state
    {
      assert RecordedAs(nodes, origin[n], entries[n]);
      var i := nodes[origin[n]].parent;
      assert nodes[i].state == entries[n].state;
    }
  }

  lemma WalkDone<S(!new), A(!new)>(
    dom: Domain<S, A>, nodes: seq<Node<S, A>>, lo: nat, visited: set<nat>, entries: seq<Entry<S, A>>,
    origin: seq<nat>)
      returns (rank: seq<nat>)
    requires Exact(dom, nodes, lo, 0) && Walking(dom, nodes, visited, []) && Recorded(nodes, visited, entries, origin)
    ensures ClosedPolicy(dom, entries, rank)
    ensures Covered(dom, entries, rank, nodes[0].state, 0)
  {
    assert forall n: nat :: n < |origin| ==> RecordedAs(nodes, origin[n], entries[n]);
    rank := Ranks(nodes, origin);
    forall n: nat | n < |entries|
      ensures EntryCloses(dom, entries, rank, n)
    {
      WalkCloses(dom, nodes, lo, visited, entries, origin, rank, n);
    }
    var none: seq<nat> := [];
    assert Seen(visited, none, 0);
    VisitedCovered(dom, nodes, visited, entries, origin, rank, 0);
  }

  /** The stack-driven walk yields a closed, well-founded policy that covers the initial state. */
  method ExtractPolicy<S(!new), A(!new)>(ghost dom: Domain<S, A>, graph: Graph<S, A>, ghost lo: nat)
      returns (entries: seq<Entry<S, A>>, ghost rank: seq<nat>)
    requires Exact(dom, graph.nodes, lo, 0) && Labelled(dom, graph.nodes, lo) && graph.nodes[0].solved
    ensures ClosedPolicy(dom, entries, rank)
    ensures Covered(dom, entries, rank, graph.nodes[0].state, 0)
    ensures EntriesFromTree(graph.nodes, entries)
    ensures entries == PolicyOf(graph.nodes)
  {
    entries := [];
    ghost var origin: seq<nat> := [];
    ghost var visited: set<nat> := {};
    ghost var nodes := graph.nodes;
    var frontier: seq<nat> := [0];
    WalkStart(dom, nodes);
    while frontier != []
      invariant graph.nodes == nodes && WalkState(dom, nodes, visited, frontier, entries, origin)
      decreases |nodes| - |visited|
    {
      frontier, entries, visited, origin := WalkNode(dom, graph, lo, frontier, entries, visited, origin);
    }
    rank := WalkDone(dom, nodes, lo, visited, entries, origin);
    RecordedFromTree(nodes, visited, entries, origin);
    assert Stacked(BelowOf(nodes), frontier) == [];
  }

  // The walk so far, and that what it has and what its stack stands for make up the policy.
  ghost predicate WalkState<S, A>(dom: Domain<S, A>, nodes: seq<Node<S, A>>, visited: set<nat>, frontier: seq<nat>,
                                  entries: seq<Entry<S, A>>, origin: seq<nat>) {
    && Shape(nodes) && InTree(nodes, frontier) && |visited| <= |nodes|
    && Walking(dom, nodes, visited, frontier) && Recorded(nodes, visited, entries, origin)
    && entries + Stacked(BelowOf(nodes), frontier) == PolicyOf(nodes)
  }

  // The node on top of the stack.
  method WalkNode<S(!new), A(!new)>(ghost dom: Domain<S, A>, graph: Graph<S, A>, ghost lo: nat, frontier: seq<nat>,
                                    entries: seq<Entry<S, A>>, ghost visited: set<nat>, ghost origin: seq<nat>)
      returns (frontier': seq<nat>, entries': seq<Entry<S, A>>, ghost visited': set<nat>, ghost origin': seq<nat>)
    requires Exact(dom, graph.nodes, lo, 0) && Labelled(dom, graph.nodes, lo)
    requires frontier != [] && WalkState(dom, graph.nodes, visited, frontier, entries, origin)
    ensures WalkState(dom, graph.nodes, visited', frontier', entries', origin')
    ensures |visited| < |visited'| <= |graph.nodes|
  {
    var current := frontier[|frontier| - 1];
    ghost var rest := frontier[..|frontier| - 1];
    assert frontier == rest + [current];
    NodeWalked(dom, graph.nodes, lo, visited, rest, current, entries, origin);
    entries' := TakeEntry(graph, current, entries);
    frontier' := PushSolvedChildren(graph, current, frontier[..|frontier| - 1]);
    visited', origin' := visited + {current}, WithOrigin(graph.nodes, origin, current);
  }

  method TakeEntry<S, A>(graph: Graph<S, A>, x: nat, entries: seq<Entry<S, A>>) returns (entries': seq<Entry<S, A>>)
    requires Shape(graph.nodes) && x < |graph.nodes|
    ensures entries' == entries + OwnEntry(graph.nodes, x)
  {
    if graph.nodes[x].kind.And? {
      assert ParentFits(graph.nodes, x);
      return entries + [Entry(graph.nodes[graph.nodes[x].parent].state, graph.nodes[x].kind.action)];
    }
    assert entries + [] == entries;
    return entries;
  }

  ghost function WithOrigin<S, A>(nodes: seq<Node<S, A>>, origin: seq<nat>, x: nat): seq<nat>
    requires x < |nodes|
  {
    if nodes[x].kind.And? then origin + [x] else origin
  }

  // All that taking one node from the stack keeps.
  lemma NodeWalked<S(!new), A(!new)>(
    dom: Domain<S, A>, nodes: seq<Node<S, A>>, lo: nat, visited: set<nat>, rest: seq<nat>, x: nat,
    entries: seq<Entry<S, A>>, origin: seq<nat>)
    requires Exact(dom, nodes, lo, 0) && Labelled(dom, nodes, lo)
    requires WalkState(dom, nodes, visited, rest + [x], entries, origin)
    ensures x < |nodes| && x !in visited && InTree(nodes, nodes[x].children)
    ensures WalkState(dom, nodes, visited + {x}, rest + SolvedChildren(nodes, x), entries + OwnEntry(nodes, x), WithOrigin(nodes, origin, x))
  {
    TopOfStack(dom, nodes, visited, rest, x);
    ChildrenInTree(nodes, x);
    var picks := SolvedChildren(nodes, x);
    RecordStep(nodes, visited, entries, origin, x);
    SolvedChildrenPicks(nodes, x);
    PopStep(dom, nodes, lo, visited, rest, x, picks);
    VisitedBounded(dom, nodes, visited + {x}, rest + picks);
    StackStep(nodes, rest, x);
    Regroup(entries, OwnEntry(nodes, x), Stacked(BelowOf(nodes), rest + picks));
    StackPrefix(nodes, rest, x, picks);
  }

  lemma StackPrefix<S, A>(nodes: seq<Node<S, A>>, rest: seq<nat>, x: nat, picks: seq<nat>)
    requires InTree(nodes, rest + [x]) && InTree(nodes, picks)
    ensures InTree(nodes, rest + picks)
  {
    forall i | 0 <= i < |rest|
      ensures rest[i] < |nodes|
    {
      assert (rest + [x])[i] == rest[i];
    }
  }

  lemma WalkingStart<S, A>(dom: Domain<S, A>, nodes: seq<Node<S, A>>)
    requires Shape(nodes) && nodes[0].solved
    ensures Walking(dom, nodes, {}, [0])
  {
  }

  lemma RecordedStart<S, A>(nodes: seq<Node<S, A>>)
    requires Shape(nodes)
    ensures Recorded(nodes, {}, [], [])
  {
  }

  lemma StackedStart<S, A>(nodes: seq<Node<S, A>>)
    requires Shape(nodes)
    ensures Stacked(BelowOf(nodes), [0]) == PolicyOf(nodes)
  {
    var none: seq<nat> := [];
    StackSnoc(BelowOf(nodes), none, 0);
    assert none + [0] == [0];
    assert Stacked(BelowOf(nodes), none) == [];
  }

  lemma WalkStart<S, A>(dom: Domain<S, A>, nodes: seq<Node<S, A>>)
    requires Shape(nodes) && nodes[0].solved
    ensures WalkState(dom, nodes, {}, [0], [], [])
  {
    WalkingStart(dom, nodes);
    RecordedStart(nodes);
    StackedStart(nodes);
    Prepend(PolicyOf(nodes));
  }

  lemma Prepend<T>(xs: seq<T>)
    ensures [] + xs == xs
  {
  }

  lemma TopOfStack<S, A>(dom: Domain<S, A>, nodes: seq<Node<S, A>>, visited: set<nat>, rest: seq<nat>, x: nat)
    requires Shape(nodes) && Walking(dom, nodes, visited, rest + [x])
    ensures x < |nodes| && x !in visited
  {
    assert x in rest + [x];
    assert Seen(visited, rest + [x], x);
  }

  lemma VisitedBounded<S, A>(dom: Domain<S, A>, nodes: seq<Node<S, A>>, visited: set<nat>, frontier: seq<nat>)
    requires Shape(nodes) && Walking(dom, nodes, visited, frontier)
    ensures |visited| <= |nodes|
  {
    forall x | x in visited
      ensures x in States.Indices(|nodes|)
    {
      assert Seen(visited, frontier, x);
    }
    States.SubsetSize(visited, States.Indices(|nodes|));
  }
}
