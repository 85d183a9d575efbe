/** The search graph: a vector of nodes and a first-in first-out frontier. */
module Graphs {
  import opened AndOr
  import opened Growth
  import opened Labelling
  import opened SearchRuns

  class Graph<S, A> {
    var nodes: seq<Node<S, A>>
    var frontier: seq<nat>

    constructor ()
      ensures nodes == [] && frontier == []
    {
      nodes, frontier := [], [];
    }

    method CreateRootNode(state: S) returns (id: nat)
      modifies this`nodes
      ensures id == |old(nodes)| && nodes == old(nodes) + [OrNode(state, 0, true)]
    {
      id := |nodes|;
      nodes := nodes + [OrNode(state, 0, true)];
    }

    method CreateOrNode(state: S, parent: nat) returns (id: nat)
      requires parent < |nodes|
      modifies this`nodes
      ensures id == |old(nodes)|
      ensures nodes == (old(nodes) + [OrNode(state, parent, false)])[parent := WithChild(old(nodes)[parent], id)]
    {
      id := |nodes|;
      nodes := nodes + [OrNode(state, parent, false)];
      AddChild(parent, id);
    }

    method CreateAndNode(state: S, parent: nat, action: A) returns (id: nat)
      requires parent < |nodes|
      modifies this`nodes
      ensures id == |old(nodes)|
      ensures nodes == (old(nodes) + [AndNode(action, state, parent)])[parent := WithChild(old(nodes)[parent], id)]
    {
      id := |nodes|;
      nodes := nodes + [AndNode(action, state, parent)];
      AddChild(parent, id);
    }

    method AddChild(parent: nat, id: nat)
      requires parent < |nodes|
      modifies this`nodes
      ensures nodes == old(nodes)[parent := WithChild(old(nodes)[parent], id)]
    {
      nodes := nodes[parent := WithChild(nodes[parent], id)];
    }

    method AddToFrontier(id: nat)
      requires id < |nodes|
      modifies this`frontier
      ensures frontier == old(frontier) + [id]
    {
      frontier := frontier + [id];
    }

    method GetNextFromFrontier() returns (id: nat)
      requires frontier != []
      modifies this`frontier
      ensures id == old(frontier)[0] && frontier == old(frontier)[1..]
    {
      id := frontier[0];
      frontier := frontier[1..];
    }

    method SetSolved(id: nat)
      requires id < |nodes|
      modifies this`nodes
      ensures nodes == Solve(old(nodes), id)
    {
      nodes := nodes[id := nodes[id].(solved := true)];
    }

    method SetDead(id: nat)
      requires id < |nodes|
      modifies this`nodes
      ensures nodes == Kill(old(nodes), id)
    {
      nodes := nodes[id := nodes[id].(dead := true)];
    }

    // ----- The checks, one loop over the children each

    predicate ChildrenInRange(id: nat)
      requires id < |nodes|
      reads this`nodes
    {
      forall k :: 0 <= k < |nodes[id].children| ==> nodes[id].children[k] < |nodes|
    }

    method AnyChild(id: nat, solved: bool) returns (found: bool)
      requires id < |nodes| && ChildrenInRange(id)
      ensures solved ==> (found <==> SomeChildSolved(nodes, id))
      ensures !solved ==> (found <==> SomeChildDead(nodes, id))
    {
      var children := nodes[id].children;
      for k := 0 to |children|
        invariant forall i :: 0 <= i < k ==> if solved then !nodes[children[i]].solved else !nodes[children[i]].dead
      {
        if (if solved then nodes[children[k]].solved else nodes[children[k]].dead) {
          assert Child(nodes, id, children[k]);
          return true;
        }
      }
      return false;
    }

    method EveryChild(id: nat, solved: bool) returns (all: bool)
      requires id < |nodes| && ChildrenInRange(id)
      ensures solved ==> (all <==> AllChildrenSolved(nodes, id))
      ensures !solved ==> (all <==> AllChildrenDead(nodes, id))
    {
      var children := nodes[id].children;
      for k := 0 to |children|
        invariant forall i :: 0 <= i < k ==> if solved then nodes[children[i]].solved else nodes[children[i]].dead
      {
        if !(if solved then nodes[children[k]].solved else nodes[children[k]].dead) {
          assert Child(nodes, id, children[k]);
          return false;
        }
      }
      return true;
    }

    method CheckIfSolved(id: nat) returns (result: bool)
      requires id < |nodes| && ChildrenInRange(id)
      modifies this`nodes
      ensures result <==> SolvedCheck(old(nodes), id)
      ensures nodes == if result then Solve(old(nodes), id) else old(nodes)
    {
      if nodes[id].solved {
        assert nodes == Solve(nodes, id);
        return true;
      } else if nodes[id].dead {
        return false;
      }
      if nodes[id].kind.And? {
        result := EveryChild(id, true);
      } else {
        result := AnyChild(id, true);
      }
      if result {
        SetSolved(id);
      }
    }

    method CheckIfDead(id: nat) returns (result: bool)
      requires id < |nodes| && ChildrenInRange(id)
      modifies this`nodes
      ensures result <==> DeadCheck(old(nodes), id)
      ensures nodes == if result then Kill(old(nodes), id) else old(nodes)
    {
      if nodes[id].dead {
        assert nodes == Kill(nodes, id);
        return true;
      } else if nodes[id].solved {
        return false;
      }
      if nodes[id].kind.And? {
        result := AnyChild(id, false);
      } else {
        result := EveryChild(id, false);
      }
      if result {
        SetDead(id);
      }
    }
  }

  lemma ExactChildrenInRange<S, A>(nodes: seq<Node<S, A>>, i: nat)
    requires Shape(nodes) && i < |nodes|
    ensures forall k :: 0 <= k < |nodes[i].children| ==> nodes[i].children[k] < |nodes|
    ensures nodes[i].root <==> i == 0
  {
    forall k | 0 <= k < |nodes[i].children|
      ensures nodes[i].children[k] < |nodes|
    {
      assert Child(nodes, i, nodes[i].children[k]);
    }
    if i > 0 {
      assert ParentFits(nodes, i);
    }
  }

  // ----- Propagation along the parents

  /** Marks a node solved and restores the labelling of the whole tree. */
  method PropagateSolvedNode<S, A>(ghost dom: Domain<S, A>, graph: Graph<S, A>, id: nat, ghost lo: nat)
    requires Exact(dom, graph.nodes, lo, 0) && AllDeadOk(dom, graph.nodes, lo) && NotBoth(graph.nodes)
    requires id < |graph.nodes| && !graph.nodes[id].dead && ShouldBeSolved(dom, graph.nodes, lo, id)
    requires SolvedElsewhere(dom, graph.nodes, lo, id)
    modifies graph`nodes
    ensures SameTree(old(graph.nodes), graph.nodes) && SameDead(old(graph.nodes), graph.nodes)
    ensures Exact(dom, graph.nodes, lo, 0) && Labelled(dom, graph.nodes, lo)
  {
    SolveMarks(dom, graph.nodes, lo, id);
    SameTreeExact(dom, graph.nodes, Solve(graph.nodes, id), lo, 0);
    ExactChildrenInRange(graph.nodes, id);
    graph.SetSolved(id);
    if graph.nodes[id].root {
      return;
    }
    var current := graph.nodes[id].parent;
    while true
      invariant SameTree(old(graph.nodes), graph.nodes) && SameDead(old(graph.nodes), graph.nodes)
      invariant SolvingAt(dom, graph.nodes, lo, current)
      decreases current
    {
      ghost var before := graph.nodes;
      SolveStep(dom, before, lo, current);
      ExactChildrenInRange(before, current);
      SameTreeExact(dom, before, Solve(before, current), lo, 0);
      SameTreeChain(old(graph.nodes), before, Solve(before, current));
      var solved := graph.CheckIfSolved(current);
      if solved {
        if graph.nodes[current].root {
          return;
        }
        current := graph.nodes[current].parent;
      } else {
        break;
      }
    }
  }

  /** Marks a node dead and restores the labelling of the whole tree. */
  method PropagateDeadEndNode<S, A>(ghost dom: Domain<S, A>, graph: Graph<S, A>, id: nat, ghost lo: nat)
    requires Exact(dom, graph.nodes, lo, 0) && AllSolvedOk(dom, graph.nodes, lo) && NotBoth(graph.nodes)
    requires id < |graph.nodes| && !graph.nodes[id].solved && ShouldBeDead(dom, graph.nodes, lo, id)
    requires DeadElsewhere(dom, graph.nodes, lo, id)
    modifies graph`nodes
    ensures SameTree(old(graph.nodes), graph.nodes) && SameSolved(old(graph.nodes), graph.nodes)
    ensures Exact(dom, graph.nodes, lo, 0) && Labelled(dom, graph.nodes, lo)
  {
    KillMarks(dom, graph.nodes, lo, id);
    SameTreeExact(dom, graph.nodes, Kill(graph.nodes, id), lo, 0);
    ExactChildrenInRange(graph.nodes, id);
    graph.SetDead(id);
    if graph.nodes[id].root {
      return;
    }
    var current := graph.nodes[id].parent;
    while true
      invariant SameTree(old(graph.nodes), graph.nodes) && SameSolved(old(graph.nodes), graph.nodes)
      invariant KillingAt(dom, graph.nodes, lo, current)
      decreases current
    {
      ghost var before := graph.nodes;
      KillStep(dom, before, lo, current);
      ExactChildrenInRange(before, current);
      SameTreeExact(dom, before, Kill(before, current), lo, 0);
      SameTreeChain(old(graph.nodes), before, Kill(before, current));
      var dead := graph.CheckIfDead(current);
      if dead {
        if graph.nodes[current].root {
          return;
        }
        current := graph.nodes[current].parent;
      } else {
        break;
      }
    }
  }
}
