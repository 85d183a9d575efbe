/** When the perspective shift respects bisimilarity.  It drops the worlds that the agent
    does not reach, and with them the edges of the other agents to those worlds. */
module ShiftBisimilarity {
  import opened Bisimulation
  import opened PerspectiveShifts
  import opened States

  // No agent has an edge out of what this one reaches.
  ghost predicate Enclosed(s: StateValue, agent: nat) {
    forall a: nat, u: nat, v: nat :: u in Reached(s, agent) && s.Edge(a, u, v) ==> v in Reached(s, agent)
  }

  // Agent a has an edge among the worlds that the shifting agent reaches.
  ghost predicate HasInside(s: StateValue, agent: nat, a: nat) {
    exists u: nat, v: nat :: u in Reached(s, agent) && v in Reached(s, agent) && s.Edge(a, u, v)
  }

  // It has none that leads out of them.
  ghost predicate StaysInside(s: StateValue, agent: nat, a: nat) {
    forall u: nat, v: nat :: u in Reached(s, agent) && s.Edge(a, u, v) ==> v in Reached(s, agent)
  }

  // An agent with edges inside one state does not lead out of the other.
  ghost predicate Fitting(s: StateValue, t: StateValue, agent: nat) {
    forall a: nat :: HasInside(s, agent, a) ==> StaysInside(t, agent, a)
  }

  // ----- Reachability follows a bisimulation

  lemma {:induction false} PathFollows(
    l: Labelling, s: StateValue, t: StateValue, z: Pairs, agent: nat, path: seq<nat>) returns (v: nat)
    requires IsBisimulation(l, s, t, z) && PointedForth(s, t, z) && IsPath(s, agent, path)
    ensures Related(z, path[|path| - 1], v) && Reachable(t, agent, v)
    decreases |path|
  {
    if |path| == 1 {
      v :| t.Designated(v) && Related(z, path[0], v);
      DesignatedReachable(t, agent);
    } else {
      var u := path[|path| - 2];
      var v0 := PathFollows(l, s, t, z, agent, path[..|path| - 1]);
      assert Matched(l, s, t, z, u, v0);
      v := ForthEdge(s, t, z, u, v0, agent, path[|path| - 1]);
      ReachableStep(t, agent, v0, v);
    }
  }

  lemma ReachedFollows(l: Labelling, s: StateValue, t: StateValue, z: Pairs, agent: nat, u: nat) returns (v: nat)
    requires IsBisimulation(l, s, t, z) && PointedForth(s, t, z) && u in Reached(s, agent)
    ensures Related(z, u, v) && v in Reached(t, agent)
  {
    var path :| IsPath(s, agent, path) && path[|path| - 1] == u;
    v := PathFollows(l, s, t, z, agent, path);
    assert Matched(l, s, t, z, u, v);
  }

  // ----- The related pairs, renumbered

  ghost function Renumbered(z: Pairs, xs: seq<nat>, ys: seq<nat>): (r: Pairs)
    ensures forall i: nat, j: nat :: Related(r, i, j) <==> i < |xs| && j < |ys| && Related(z, xs[i], ys[j])
  {
    set i: nat, j: nat | i < |xs| && j < |ys| && Related(z, xs[i], ys[j]) :: (i, j)
  }

  // The shifted states as copies of what is reached.
  ghost predicate Copies(s: StateValue, xs: seq<nat>, r: StateValue, agent: nat) {
    Lists(xs, Reached(s, agent)) && IsInducedCopy(s, xs, r)
  }

  // A counterpart of the edge to u' among the reached worlds.
  ghost predicate HasInsideEdge(t: StateValue, z: Pairs, agent: nat, a: nat, v: nat, u': nat) {
    exists v': nat :: v' in Reached(t, agent) && t.Edge(a, v, v') && Related(z, u', v')
  }

  // Edges among the reached worlds can be followed among the reached worlds.
  ghost predicate ForthInside(s: StateValue, t: StateValue, z: Pairs, agent: nat) {
    forall a: nat, u: nat, u': nat, v: nat ::
      u in Reached(s, agent) && u' in Reached(s, agent) && v in Reached(t, agent) && Related(z, u, v) && s.Edge(a, u, u') ==>
        HasInsideEdge(t, z, agent, a, v, u')
  }

  lemma FittingForth(l: Labelling, s: StateValue, t: StateValue, z: Pairs, agent: nat)
    requires IsBisimulation(l, s, t, z) && Fitting(s, t, agent)
    ensures ForthInside(s, t, z, agent)
  {
    forall a: nat, u: nat, u': nat, v: nat |
      u in Reached(s, agent) && u' in Reached(s, agent) && v in Reached(t, agent) && Related(z, u, v) && s.Edge(a, u, u')
      ensures HasInsideEdge(t, z, agent, a, v, u')
    {
      assert Matched(l, s, t, z, u, v);
      var v' := ForthEdge(s, t, z, u, v, a, u');
      assert HasInside(s, agent, a);
    }
  }

  lemma CopiedForth(s: StateValue, t: StateValue, z: Pairs, xs: seq<nat>, ys: seq<nat>,
                    r: StateValue, q: StateValue, agent: nat, i: nat, j: nat)
    requires Copies(s, xs, r, agent) && Copies(t, ys, q, agent) && ForthInside(s, t, z, agent)
    requires i < |xs| && j < |ys| && Related(z, xs[i], ys[j])
    ensures Forth(r, q, Renumbered(z, xs, ys), i, j)
  {
    forall a: nat, i': nat | r.Edge(a, i, i')
      ensures exists j': nat :: q.Edge(a, j, j') && Related(Renumbered(z, xs, ys), i', j')
    {
      assert xs[i] in xs && xs[i'] in xs && ys[j] in ys;
      assert HasInsideEdge(t, z, agent, a, ys[j], xs[i']);
      var v': nat :| v' in Reached(t, agent) && t.Edge(a, ys[j], v') && Related(z, xs[i'], v');
      assert v' in ys;
      var j' := Position(ys, v');
      assert q.Edge(a, j, j');
    }
  }

  // One direction of the renumbered relation.
  ghost predicate Carries(l: Labelling, r: StateValue, q: StateValue, y: Pairs) {
    && (forall i: nat :: i < |r.worlds| ==> HasRight(y, i))
    && (forall i: nat, j: nat :: Related(y, i, j) ==>
         i < |r.worlds| && j < |q.worlds| && SameLabel(l, r.Props(i), q.Props(j)) && Forth(r, q, y, i, j))
  }

  lemma CopiedRight(l: Labelling, s: StateValue, t: StateValue, z: Pairs, xs: seq<nat>, ys: seq<nat>,
                    r: StateValue, q: StateValue, agent: nat, i: nat)
    requires IsBisimulation(l, s, t, z) && PointedForth(s, t, z)
    requires Copies(s, xs, r, agent) && Copies(t, ys, q, agent) && i < |xs|
    ensures HasRight(Renumbered(z, xs, ys), i)
  {
    assert xs[i] in xs;
    var v := ReachedFollows(l, s, t, z, agent, xs[i]);
    var j := Position(ys, v);
    assert Related(Renumbered(z, xs, ys), i, j);
  }

  lemma CopiedCarries(l: Labelling, s: StateValue, t: StateValue, z: Pairs, xs: seq<nat>, ys: seq<nat>,
                      r: StateValue, q: StateValue, agent: nat)
    requires IsBisimulation(l, s, t, z) && PointedForth(s, t, z)
    requires Copies(s, xs, r, agent) && Copies(t, ys, q, agent) && ForthInside(s, t, z, agent)
    ensures Carries(l, r, q, Renumbered(z, xs, ys))
  {
    var y := Renumbered(z, xs, ys);
    forall i: nat | i < |r.worlds|
      ensures HasRight(y, i)
    {
      CopiedRight(l, s, t, z, xs, ys, r, q, agent, i);
    }
    forall i: nat, j: nat | Related(y, i, j)
      ensures i < |r.worlds| && j < |q.worlds| && SameLabel(l, r.Props(i), q.Props(j)) && Forth(r, q, y, i, j)
    {
      assert Matched(l, s, t, z, xs[i], ys[j]);
      CopiedForth(s, t, z, xs, ys, r, q, agent, i, j);
    }
  }

  lemma InversePointed(s: StateValue, t: StateValue, z: Pairs)
    requires PointedBack(s, t, z)
    ensures PointedForth(t, s, Inverse(z))
  {
  }

  lemma ForthInverted(r: StateValue, q: StateValue, y: Pairs, x: Pairs, i: nat, j: nat)
    requires Forth(q, r, x, j, i) && forall a: nat, b: nat :: Related(x, b, a) <==> Related(y, a, b)
    ensures Back(r, q, y, i, j)
  {
  }

  lemma CarriesRelated(l: Labelling, r: StateValue, q: StateValue, y: Pairs, x: Pairs, i: nat, j: nat)
    requires Carries(l, r, q, y) && Carries(l, q, r, x) && (forall a: nat, b: nat :: Related(x, b, a) <==> Related(y, a, b))
    requires Related(y, i, j)
    ensures Matched(l, r, q, y, i, j)
  {
    assert Related(x, j, i);
    ForthInverted(r, q, y, x, i, j);
  }

  lemma CarriesTotal(l: Labelling, r: StateValue, q: StateValue, y: Pairs, x: Pairs)
    requires Carries(l, r, q, y) && Carries(l, q, r, x) && (forall a: nat, b: nat :: Related(x, b, a) <==> Related(y, a, b))
    ensures Total(r, q, y)
  {
    forall j: nat | j < |q.worlds|
      ensures HasLeft(y, j)
    {
      assert HasRight(x, j);
      var i: nat :| Related(x, j, i);
      assert Related(y, i, j);
    }
  }

  // Every world is designated, so a total relation is pointed.
  lemma TotalPointed(r: StateValue, q: StateValue, y: Pairs)
    requires Total(r, q, y) && forall i: nat, j: nat :: Related(y, i, j) ==> i < |r.worlds| && j < |q.worlds|
    requires forall i: nat :: r.Designated(i) <==> i < |r.worlds|
    requires forall j: nat :: q.Designated(j) <==> j < |q.worlds|
    ensures Pointed(r, q, y)
  {
    forall i: nat | r.Designated(i)
      ensures exists j: nat :: q.Designated(j) && Related(y, i, j)
    {
      assert HasRight(y, i);
    }
    forall j: nat | q.Designated(j)
      ensures exists i: nat :: r.Designated(i) && Related(y, i, j)
    {
      assert HasLeft(y, j);
    }
  }

  lemma CarriesBothWays(l: Labelling, r: StateValue, q: StateValue, y: Pairs, x: Pairs)
    requires Carries(l, r, q, y) && Carries(l, q, r, x) && (forall a: nat, b: nat :: Related(x, b, a) <==> Related(y, a, b))
    requires r.agents == q.agents
    requires forall i: nat :: r.Designated(i) <==> i < |r.worlds|
    requires forall j: nat :: q.Designated(j) <==> j < |q.worlds|
    ensures Bisimilar(l, r, q)
  {
    forall i: nat, j: nat | Related(y, i, j)
      ensures Matched(l, r, q, y, i, j)
    {
      CarriesRelated(l, r, q, y, x, i, j);
    }
    CarriesTotal(l, r, q, y, x);
    TotalPointed(r, q, y);
    assert Witnesses(l, r, q, y);
  }

  /** A bisimulation that can be followed among the reached worlds, in both directions,
      makes the shifts bisimilar. */
  lemma InsideShifts(l: Labelling, enum: Enumeration, s: StateValue, t: StateValue, z: Pairs, agent: nat)
    requires IsEnumeration(enum) && s.Valid() && t.Valid() && agent < s.agents && s.agents == t.agents
    requires Witnesses(l, s, t, z) && ForthInside(s, t, z, agent) && ForthInside(t, s, Inverse(z), agent)
    ensures Bisimilar(l, Shift(enum, s, agent), Shift(enum, t, agent))
  {
    ShiftIsCopy(enum, s, agent);
    ShiftIsCopy(enum, t, agent);
    var xs, ys := enum(Reached(s, agent)), enum(Reached(t, agent));
    var r, q := Shift(enum, s, agent), Shift(enum, t, agent);
    CopiedCarries(l, s, t, z, xs, ys, r, q, agent);
    InverseBisimulation(l, s, t, z);
    InversePointed(s, t, z);
    CopiedCarries(l, t, s, Inverse(z), ys, xs, q, r, agent);
    CarriesBothWays(l, r, q, Renumbered(z, xs, ys), Renumbered(Inverse(z), ys, xs));
  }

  /** The shifts of bisimilar states are bisimilar where an agent with an edge among the
      reached worlds of the one has none out of the reached worlds of the other. */
  lemma FittingShifts(l: Labelling, enum: Enumeration, s: StateValue, t: StateValue, agent: nat)
    requires IsEnumeration(enum) && s.Valid() && t.Valid() && agent < s.agents && Bisimilar(l, s, t)
    requires Fitting(s, t, agent) && Fitting(t, s, agent)
    ensures agent < t.agents && Bisimilar(l, Shift(enum, s, agent), Shift(enum, t, agent))
  {
    var z: Pairs :| Witnesses(l, s, t, z);
    FittingForth(l, s, t, z, agent);
    InverseBisimulation(l, s, t, z);
    FittingForth(l, t, s, Inverse(z), agent);
    InsideShifts(l, enum, s, t, z, agent);
  }

  lemma EnclosedFits(s: StateValue, t: StateValue, agent: nat)
    requires Enclosed(t, agent)
    ensures Fitting(s, t, agent)
  {
  }

  /** Where no agent has an edge out of what the shifting agent reaches, the shifts of
      bisimilar states are bisimilar. */
  lemma ShiftKeepsBisimilarity(l: Labelling, enum: Enumeration, s: StateValue, t: StateValue, agent: nat)
    requires IsEnumeration(enum) && s.Valid() && t.Valid() && agent < s.agents && Bisimilar(l, s, t)
    requires Enclosed(s, agent) && Enclosed(t, agent)
    ensures agent < t.agents && Bisimilar(l, Shift(enum, s, agent), Shift(enum, t, agent))
  {
    EnclosedFits(s, t, agent);
    EnclosedFits(t, s, agent);
    FittingShifts(l, enum, s, t, agent);
  }

  // ----- It does not in general

  // Two worlds where the same holds; agent 1 confuses the actual one with the other.
  function Confused(): (s: StateValue) {
    StateValue(2, [World(0, {}), World(1, {})], [0],
               [[WorldRelation(0, 0), WorldRelation(1, 1)], [WorldRelation(0, 1), WorldRelation(1, 1)]])
  }

  function Collapsed(): (s: StateValue) {
    StateValue(2, [World(0, {})], [0], [[WorldRelation(0, 0)], [WorldRelation(0, 0)]])
  }

  lemma {:induction false} OnlyFirst(s: StateValue, path: seq<nat>)
    requires s.designated == [0] && IsPath(s, 0, path) && forall v: nat :: s.Edge(0, 0, v) ==> v == 0
    ensures path[|path| - 1] == 0
    decreases |path|
  {
    if |path| > 1 {
      OnlyFirst(s, path[..|path| - 1]);
      assert s.Edge(0, path[|path| - 2], path[|path| - 1]);
    }
  }

  lemma OnlyFirstReached(s: StateValue)
    requires |s.worlds| > 0 && s.designated == [0] && forall v: nat :: s.Edge(0, 0, v) ==> v == 0
    ensures Reached(s, 0) == {0}
  {
    DesignatedReachable(s, 0);
    forall v | v in Reached(s, 0)
      ensures v == 0
    {
      var path :| IsPath(s, 0, path) && path[|path| - 1] == v;
      OnlyFirst(s, path);
    }
  }

  lemma ConfusedMatches(l: Labelling, z: Pairs, u: nat)
    requires z == Grid(2, 1) && u < 2
    ensures Matched(l, Confused(), Collapsed(), z, u, 0)
  {
    var s, t := Confused(), Collapsed();
    forall a: nat, u': nat | s.Edge(a, u, u')
      ensures t.Edge(a, 0, 0) && Related(z, u', 0)
    {
    }
    forall a: nat, v': nat | t.Edge(a, 0, v')
      ensures exists u': nat :: s.Edge(a, u, u') && Related(z, u', v')
    {
      var u': nat := if a == 0 then u else 1;
      assert s.Edge(a, u, u') && Related(z, u', v');
    }
  }

  lemma GridPointed(s: StateValue, t: StateValue, z: Pairs)
    requires s.designated == [0] && t.designated == [0] && Related(z, 0, 0)
    ensures Pointed(s, t, z)
  {
    forall u: nat | s.Designated(u)
      ensures t.Designated(0) && Related(z, u, 0)
    {
    }
    forall v: nat | t.Designated(v)
      ensures s.Designated(0) && Related(z, 0, v)
    {
    }
  }

  lemma GridTotal(s: StateValue, t: StateValue, z: Pairs)
    requires |s.worlds| == 2 && |t.worlds| == 1 && Related(z, 0, 0) && Related(z, 1, 0)
    ensures Total(s, t, z)
  {
  }

  lemma GridBisimulation(l: Labelling, z: Pairs)
    requires z == Grid(2, 1)
    ensures IsBisimulation(l, Confused(), Collapsed(), z)
  {
    forall u: nat, v: nat | Related(z, u, v)
      ensures Matched(l, Confused(), Collapsed(), z, u, v)
    {
      ConfusedMatches(l, z, u);
    }
  }

  lemma ConfusedIsCollapsed(l: Labelling)
    ensures Bisimilar(l, Confused(), Collapsed())
  {
    var z := Grid(2, 1);
    GridBisimulation(l, z);
    GridTotal(Confused(), Collapsed(), z);
    GridPointed(Confused(), Collapsed(), z);
    WitnessSuffices(l, Confused(), Collapsed(), z);
  }

  // A state in which the agent sees something is not like one in which it sees nothing.
  lemma BlindIsNotSeeing(l: Labelling, r: StateValue, q: StateValue, a: nat, v: nat, v': nat)
    requires (forall i: nat, j: nat :: !r.Edge(a, i, j)) && v < |q.worlds| && q.Edge(a, v, v')
    ensures !Bisimilar(l, r, q)
  {
    forall z: Pairs | IsBisimulation(l, r, q, z)
      ensures !HasLeft(z, v)
    {
      forall u: nat
        ensures !Related(z, u, v)
      {
        assert !Back(r, q, z, u, v);
        assert !Matched(l, r, q, z, u, v);
      }
    }
  }

  // When only the actual world is reached, the others' views of it are all that is left.
  lemma ShiftToFirst(enum: Enumeration, s: StateValue)
    requires IsEnumeration(enum) && s.Valid() && s.agents > 0 && Reached(s, 0) == {0}
    ensures var r := Shift(enum, s, 0);
            |r.worlds| == 1 && forall a: nat, i: nat, j: nat :: r.Edge(a, i, j) <==> i == 0 && j == 0 && s.Edge(a, 0, 0)
  {
    ShiftIsCopy(enum, s, 0);
    var xs := enum({0});
    ListLength(xs, {0});
    assert xs[0] in xs;
  }

  lemma ShiftsDiffer(l: Labelling, enum: Enumeration, s: StateValue, t: StateValue)
    requires IsEnumeration(enum) && s.Valid() && t.Valid() && s.agents > 0 && t.agents > 0
    requires Reached(s, 0) == {0} && Reached(t, 0) == {0}
    requires !s.Edge(1, 0, 0) && t.Edge(1, 0, 0)
    ensures !Bisimilar(l, Shift(enum, s, 0), Shift(enum, t, 0))
  {
    ShiftToFirst(enum, s);
    ShiftToFirst(enum, t);
    BlindIsNotSeeing(l, Shift(enum, s, 0), Shift(enum, t, 0), 1, 0, 0);
  }

  lemma ConfusedShifts(l: Labelling, enum: Enumeration)
    requires IsEnumeration(enum)
    ensures Confused().Valid() && Collapsed().Valid()
    ensures !Bisimilar(l, Shift(enum, Confused(), 0), Shift(enum, Collapsed(), 0))
  {
    OnlyFirstReached(Confused());
    OnlyFirstReached(Collapsed());
    ShiftsDiffer(l, enum, Confused(), Collapsed());
  }

  /** Bisimilar states whose shifts to agent 0 are not bisimilar. */
  lemma ShiftBreaksBisimilarity(l: Labelling, enum: Enumeration)
    requires IsEnumeration(enum)
    ensures Confused().Valid() && Collapsed().Valid() && Bisimilar(l, Confused(), Collapsed())
    ensures !Bisimilar(l, Shift(enum, Confused(), 0), Shift(enum, Collapsed(), 0))
  {
    ConfusedShifts(l, enum);
    ConfusedIsCollapsed(l);
  }
}
