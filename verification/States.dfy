/** Multi-pointed Kripke states: their value, the mutable builder, truth of
    formulas, and reachability from the designated worlds. */
module States {
  import opened Formulas

  datatype World = World(id: nat, props: set<string>)

  datatype WorldRelation = WorldRelation(from: nat, to: nat)

  datatype StateValue = StateValue(
      agents: nat, worlds: seq<World>, designated: seq<nat>, relations: seq<seq<WorldRelation>>) {

    ghost predicate Valid() {
      && |relations| == agents
      && (forall i :: 0 <= i < |worlds| ==> worlds[i].id == i)
      && (forall i :: 0 <= i < |designated| ==> designated[i] < |worlds|)
      && (forall a :: 0 <= a < |relations| ==> RelationsInRange(relations[a], |worlds|))
    }

    predicate Edge(a: nat, u: nat, v: nat) {
      a < |relations| && WorldRelation(u, v) in relations[a]
    }

    predicate Designated(w: nat) {
      w in designated
    }

    function Props(w: nat): (ps: set<string>)
      requires w < |worlds|
    {
      worlds[w].props
    }

    // Truth of a formula at a state: it holds at every designated world.
    predicate Satisfies(formula: FormulaValue)
      requires formula.Valid()
      requires forall i :: 0 <= i < |designated| ==> designated[i] < |worlds|
    {
      forall i :: 0 <= i < |designated| ==> formula.Satisfied(Props(designated[i]))
    }

    // ----- The effect of each mutator

    function WithWorld(props: set<string>): (s: StateValue) {
      this.(worlds := worlds + [World(|worlds|, props)])
    }

    function WithProps(w: nat, props: set<string>): (s: StateValue)
      requires w < |worlds|
    {
      this.(worlds := worlds[w := worlds[w].(props := props)])
    }

    function WithDesignated(w: nat): (s: StateValue) {
      if w in designated then this else this.(designated := designated + [w])
    }

    function WithRelation(a: nat, u: nat, v: nat): (s: StateValue)
      requires a < |relations|
    {
      this.(relations := relations[a := relations[a] + [WorldRelation(u, v)]])
    }

    // One designated world, which the agent knows to be the actual one.
    function GlobalFor(a: nat, w: nat): (s: StateValue)
      requires a < |relations|
    {
      this.(designated := [w], relations := relations[a := [WorldRelation(w, w)]])
    }

    // The inner loop of the search: push every unseen world one step from the current one.
    method FollowRelations(agent: nat, current: nat, frontier0: seq<nat>, visited0: seq<nat>)
        returns (frontier: seq<nat>, visited: seq<nat>)
      requires Valid() && agent < agents
      requires Expanding(this, agent, current, 0, frontier0, Elements(visited0))
      ensures Searching(this, agent, frontier, Elements(visited))
      ensures Progress(Elements(visited0), frontier0, Elements(visited), frontier)
    {
      frontier, visited := frontier0, visited0;
      for r := 0 to |relations[agent]|
        invariant Expanding(this, agent, current, r, frontier, Elements(visited))
        invariant Progress(Elements(visited0), frontier0, Elements(visited), frontier)
      {
        var relation := relations[agent][r];
        ExpandStepListed(this, agent, current, r, frontier, visited);
        if relation.from == current && relation.to !in visited {
          frontier := frontier + [relation.to];
          visited := visited + [relation.to];
        }
      }
      ExpandDone(this, agent, current, frontier, Elements(visited));
    }

    /** Worklist search from the designated worlds along one agent's relation. */
    method GetDesignatedWorldReachables(agent: nat) returns (visited: seq<nat>)
      requires Valid() && agent < agents
      ensures forall w :: w in visited <==> w in Reached(this, agent)
    {
      var frontier: seq<nat> := [];
      visited := [];
      for d := 0 to |designated|
        invariant frontier == visited == designated[..d]
      {
        frontier := frontier + [designated[d]];
        visited := visited + [designated[d]];
      }
      ghost var seen := Elements(visited);
      SearchStart(this, agent);
      while |frontier| > 0
        invariant seen == Elements(visited)
        invariant Searching(this, agent, frontier, seen)
        decreases |worlds| - |seen|, |frontier|
      {
        ExpandStart(this, agent, frontier, seen);
        frontier, visited := FollowRelations(agent, frontier[|frontier| - 1], frontier[..|frontier| - 1], visited);
        seen := Elements(visited);
        SeenBounded(this, agent, frontier, seen);
      }
      SearchDone(this, agent, seen);
    }
  }

  predicate RelationsInRange(rs: seq<WorldRelation>, n: nat) {
    forall i :: 0 <= i < |rs| ==> rs[i].from < n && rs[i].to < n
  }

  // ----- Reachability

  ghost predicate IsPath(s: StateValue, agent: nat, path: seq<nat>) {
    && |path| > 0
    && s.Designated(path[0])
    && forall i :: 0 < i < |path| ==> s.Edge(agent, path[i - 1], path[i])
  }

  ghost predicate Reachable(s: StateValue, agent: nat, w: nat) {
    exists path: seq<nat> :: IsPath(s, agent, path) && path[|path| - 1] == w
  }

  ghost function Indices(n: nat): (s: set<nat>)
    ensures forall w :: w in s <==> 0 <= w < n
    ensures |s| == n
  {
    if n == 0 then {} else Indices(n - 1) + {n - 1}
  }

  ghost function Elements(ws: seq<nat>): (s: set<nat>) {
    set w | w in ws
  }

  ghost function Reached(s: StateValue, agent: nat): (ws: set<nat>) {
    set w: nat | w < |s.worlds| && Reachable(s, agent, w)
  }

  lemma ReachableStep(s: StateValue, agent: nat, u: nat, v: nat)
    requires Reachable(s, agent, u) && s.Edge(agent, u, v)
    ensures Reachable(s, agent, v)
  {
    var path :| IsPath(s, agent, path) && path[|path| - 1] == u;
    var longer := path + [v];
    assert IsPath(s, agent, longer) && longer[|longer| - 1] == v;
  }

  lemma DesignatedReachable(s: StateValue, agent: nat)
    ensures forall w :: w in s.designated ==> Reachable(s, agent, w)
  {
    forall w | w in s.designated
      ensures Reachable(s, agent, w)
    {
      assert IsPath(s, agent, [w]);
    }
  }

  // A path along the stored relations, each from its first world to its second.
  ghost predicate Leads(s: StateValue, agent: nat, path: seq<nat>) {
    && |path| > 0 && path[0] in s.designated && agent < |s.relations|
    && forall i :: 0 < i < |path| ==> WorldRelation(path[i - 1], path[i]) in s.relations[agent]
  }

  /** Reached are the worlds at the end of such a path. */
  lemma ReachedAlongRelations(s: StateValue, agent: nat, w: nat)
    requires s.Valid() && agent < s.agents
    ensures w in Reached(s, agent) <==> exists path: seq<nat> :: Leads(s, agent, path) && path[|path| - 1] == w
  {
    if w in Reached(s, agent) {
      var path: seq<nat> :| IsPath(s, agent, path) && path[|path| - 1] == w;
      forall i | 0 < i < |path|
        ensures WorldRelation(path[i - 1], path[i]) in s.relations[agent]
      {
        assert s.Edge(agent, path[i - 1], path[i]);
      }
      assert Leads(s, agent, path);
    }
    if path: seq<nat> :| Leads(s, agent, path) && path[|path| - 1] == w {
      assert IsPath(s, agent, path);
      LeadsInRange(s, agent, path);
    }
  }

  lemma LeadsInRange(s: StateValue, agent: nat, path: seq<nat>)
    requires s.Valid() && agent < s.agents && Leads(s, agent, path)
    ensures path[|path| - 1] < |s.worlds|
  {
    assert RelationsInRange(s.relations[agent], |s.worlds|);
    if |path| > 1 {
      var i :| 0 <= i < |s.relations[agent]| && s.relations[agent][i] == WorldRelation(path[|path| - 2], path[|path| - 1]);
    } else {
      var i :| 0 <= i < |s.designated| && s.designated[i] == path[0];
    }
  }

  ghost predicate Closed(s: StateValue, agent: nat, ws: set<nat>) {
    forall u, v :: u in ws && s.Edge(agent, u, v) ==> v in ws
  }

  /** A closed set around the designated worlds contains every reachable world. */
  lemma {:induction false} ClosedContainsPath(s: StateValue, agent: nat, ws: set<nat>, path: seq<nat>, k: nat)
    requires Closed(s, agent, ws)
    requires forall w :: w in s.designated ==> w in ws
    requires IsPath(s, agent, path) && k < |path|
    ensures path[k] in ws
    decreases k
  {
    if k > 0 {
      ClosedContainsPath(s, agent, ws, path, k - 1);
      assert s.Edge(agent, path[k - 1], path[k]);
    }
  }

  // ----- Invariants of the worklist search, shared by the two places that run it

  // Worlds seen so far are reachable; all but the waiting ones are expanded.
  ghost predicate Searching(s: StateValue, agent: nat, frontier: seq<nat>, seen: set<nat>) {
    && (forall w :: w in s.designated ==> w in seen)
    && (forall w :: w in frontier ==> w in seen)
    && (forall w :: w in seen ==> w < |s.worlds| && Reachable(s, agent, w))
    && (forall u, v :: u in seen && u !in frontier && s.Edge(agent, u, v) ==> v in seen)
  }

  // As above, with the first r relations of the current world followed.
  ghost predicate Expanding(s: StateValue, agent: nat, current: nat, r: nat, frontier: seq<nat>, seen: set<nat>)
    requires agent < |s.relations|
  {
    && (forall w :: w in s.designated ==> w in seen)
    && (forall w :: w in frontier ==> w in seen)
    && (forall w :: w in seen ==> w < |s.worlds| && Reachable(s, agent, w))
    && current in seen
    && (forall u, v :: u in seen && u !in frontier && u != current && s.Edge(agent, u, v) ==> v in seen)
    && (forall i :: 0 <= i < r <= |s.relations[agent]| && s.relations[agent][i].from == current ==>
         s.relations[agent][i].to in seen)
  }

  lemma SearchStart(s: StateValue, agent: nat)
    requires s.Valid()
    ensures Searching(s, agent, s.designated, Elements(s.designated))
  {
    DesignatedReachable(s, agent);
  }

  lemma ExpandStart(s: StateValue, agent: nat, frontier: seq<nat>, seen: set<nat>)
    requires agent < |s.relations| && |frontier| > 0
    requires Searching(s, agent, frontier, seen)
    ensures Expanding(s, agent, frontier[|frontier| - 1], 0, frontier[..|frontier| - 1], seen)
  {
    var rest, current := frontier[..|frontier| - 1], frontier[|frontier| - 1];
    assert frontier == rest + [current];
    assert forall w :: w in frontier <==> w in rest || w == current;
  }

  lemma ExpandStep(s: StateValue, agent: nat, current: nat, r: nat, frontier: seq<nat>, seen: set<nat>)
    requires s.Valid() && agent < |s.relations| && r < |s.relations[agent]|
    requires Expanding(s, agent, current, r, frontier, seen)
    ensures var relation := s.relations[agent][r];
            if relation.from == current && relation.to !in seen
            then Expanding(s, agent, current, r + 1, frontier + [relation.to], seen + {relation.to})
            else Expanding(s, agent, current, r + 1, frontier, seen)
  {
    var to := s.relations[agent][r].to;
    if s.relations[agent][r].from == current && to !in seen {
      assert s.relations[agent][r] == WorldRelation(current, to);
      assert s.Edge(agent, current, to);
      ReachableStep(s, agent, current, to);
      assert RelationsInRange(s.relations[agent], |s.worlds|);
      assert forall w :: w in frontier + [to] <==> w in frontier || w == to;
    }
  }

  // The same with the seen worlds kept in a list.
  lemma ExpandStepListed(s: StateValue, agent: nat, current: nat, r: nat, frontier: seq<nat>, visited: seq<nat>)
    requires s.Valid() && agent < |s.relations| && r < |s.relations[agent]|
    requires Expanding(s, agent, current, r, frontier, Elements(visited))
    ensures var relation := s.relations[agent][r];
            if relation.from == current && relation.to !in visited
            then Expanding(s, agent, current, r + 1, frontier + [relation.to], Elements(visited + [relation.to]))
              && |Elements(visited + [relation.to])| == |Elements(visited)| + 1
            else Expanding(s, agent, current, r + 1, frontier, Elements(visited))
  {
    var to := s.relations[agent][r].to;
    ExpandStep(s, agent, current, r, frontier, Elements(visited));
    assert Elements(visited + [to]) == Elements(visited) + {to};
  }

  lemma ExpandDone(s: StateValue, agent: nat, current: nat, frontier: seq<nat>, seen: set<nat>)
    requires agent < |s.relations|
    requires Expanding(s, agent, current, |s.relations[agent]|, frontier, seen)
    ensures Searching(s, agent, frontier, seen)
  {
    forall u, v | u in seen && u !in frontier && s.Edge(agent, u, v)
      ensures v in seen
    {
      var i :| 0 <= i < |s.relations[agent]| && s.relations[agent][i] == WorldRelation(u, v);
    }
  }

  lemma SearchDone(s: StateValue, agent: nat, seen: set<nat>)
    requires Searching(s, agent, [], seen)
    ensures seen == Reached(s, agent)
  {
    assert Closed(s, agent, seen);
    forall w | w in Reached(s, agent)
      ensures w in seen
    {
      var path :| IsPath(s, agent, path) && path[|path| - 1] == w;
      ClosedContainsPath(s, agent, seen, path, |path| - 1);
    }
  }

  // Either nothing new was seen and the worklist is as after the pop, or the seen set grew.
  ghost predicate Progress(seen0: set<nat>, frontier0: seq<nat>, seen: set<nat>, frontier: seq<nat>) {
    |seen0| <= |seen| && (|seen| == |seen0| ==> frontier == frontier0)
  }

  lemma SeenBounded(s: StateValue, agent: nat, frontier: seq<nat>, seen: set<nat>)
    requires Searching(s, agent, frontier, seen)
    ensures |seen| <= |s.worlds|
  {
    SubsetSize(seen, Indices(|s.worlds|));
  }

  lemma {:induction false} SubsetSize(a: set<nat>, b: set<nat>)
    requires a <= b
    ensures |a| <= |b|
    decreases |a|
  {
    if a != {} {
      var x :| x in a;
      SubsetSize(a - {x}, b - {x});
    }
  }

  // ----- The mutable builder

  class State {
    const agents: nat
    var worlds: seq<World>
    var designated: seq<nat>
    var relations: seq<seq<WorldRelation>>

    function Value(): (s: StateValue)
      reads this
    {
      StateValue(agents, worlds, designated, relations)
    }

    constructor (agents: nat)
      ensures Value() == StateValue(agents, [], [], seq(agents, _ => []))
      ensures Value().Valid()
    {
      this.agents := agents;
      worlds, designated := [], [];
      relations := seq(agents, _ => []);
    }

    constructor Copy(s: StateValue)
      ensures Value() == s
    {
      agents := s.agents;
      worlds, designated, relations := s.worlds, s.designated, s.relations;
    }

    method CreateWorld() returns (id: nat)
      modifies this
      ensures id == |old(worlds)|
      ensures Value() == old(Value()).WithWorld({})
    {
      id := |worlds|;
      worlds := worlds + [World(id, {})];
    }

    method CreateWorldLike(world: World) returns (id: nat)
      modifies this
      ensures id == |old(worlds)|
      ensures Value() == old(Value()).WithWorld(world.props)
    {
      id := |worlds|;
      worlds := worlds + [World(id, world.props)];
    }

    method AddTruePropositions(w: nat, props: set<string>)
      requires w < |worlds|
      modifies this
      ensures Value() == old(Value()).WithProps(w, old(worlds[w].props) + props)
    {
      worlds := worlds[w := worlds[w].(props := worlds[w].props + props)];
    }

    method RemoveTruePropositions(w: nat, props: set<string>)
      requires w < |worlds|
      modifies this
      ensures Value() == old(Value()).WithProps(w, old(worlds[w].props) - props)
    {
      worlds := worlds[w := worlds[w].(props := worlds[w].props - props)];
    }

    method AddDesignatedWorld(w: nat)
      modifies this
      ensures Value() == old(Value()).WithDesignated(w)
    {
      if w !in designated {
        designated := designated + [w];
      }
    }

    method AddIndistinguishabilityRelation(a: nat, from: nat, to: nat)
      requires a < |relations|
      modifies this
      ensures Value() == old(Value()).WithRelation(a, from, to)
    {
      relations := relations[a := relations[a] + [WorldRelation(from, to)]];
    }

    method SetGlobalForAgent(a: nat, w: nat)
      requires a < |relations|
      modifies this
      ensures Value() == old(Value()).GlobalFor(a, w)
    {
      designated := [];
      designated := designated + [w];
      relations := relations[a := []];
      relations := relations[a := relations[a] + [WorldRelation(w, w)]];
      assert relations[a] == [WorldRelation(w, w)];
    }
  }
}
