/** Problems on which the lookup by bisimilarity can be trusted: valuations tell the worlds
    of a state apart, and actions keep it so.  Any number of agents may act. */
module TameStates {
  import opened Actions
  import opened Bisimulation
  import opened ExpandBisimilarity
  import opened Formulas
  import opened PerspectiveShifts
  import opened Planner
  import opened Policies
  import opened PolicyRuns
  import opened ProductUpdates
  import opened ShiftBisimilarity
  import opened SplitBisimilarity
  import opened States

  // ----- States

  // No two worlds have the same valuation.
  ghost predicate ToldApart(s: StateValue) {
    forall u: nat, v: nat :: u < |s.worlds| && v < |s.worlds| && s.Props(u) == s.Props(v) ==> u == v
  }

  lemma ApartFunctional(s: StateValue, t: StateValue, z: Pairs, u: nat, v: nat, v': nat)
    requires IsBisimulation(ByValuation, s, t, z) && ToldApart(t) && Related(z, u, v) && Related(z, u, v')
    ensures v == v'
  {
    assert Matched(ByValuation, s, t, z, u, v) && Matched(ByValuation, s, t, z, u, v');
  }

  lemma ApartFollows(s: StateValue, t: StateValue, z: Pairs, agent: nat, a: nat, u: nat, u': nat, v: nat)
    requires IsBisimulation(ByValuation, s, t, z) && PointedForth(s, t, z) && ToldApart(t)
    requires u' in Reached(s, agent) && Related(z, u, v) && s.Edge(a, u, u')
    ensures HasInsideEdge(t, z, agent, a, v, u')
  {
    assert Matched(ByValuation, s, t, z, u, v);
    var v' := ForthEdge(s, t, z, u, v, a, u');
    var w := ReachedFollows(ByValuation, s, t, z, agent, u');
    ApartFunctional(s, t, z, u', v', w);
  }

  lemma ApartForth(s: StateValue, t: StateValue, z: Pairs, agent: nat)
    requires IsBisimulation(ByValuation, s, t, z) && PointedForth(s, t, z) && ToldApart(t)
    ensures ForthInside(s, t, z, agent)
  {
    forall a: nat, u: nat, u': nat, v: nat |
      u in Reached(s, agent) && u' in Reached(s, agent) && v in Reached(t, agent) && Related(z, u, v) && s.Edge(a, u, u')
      ensures HasInsideEdge(t, z, agent, a, v, u')
    {
      ApartFollows(s, t, z, agent, a, u, u', v);
    }
  }

  /** Bisimilar states whose worlds valuations tell apart have bisimilar shifts. */
  lemma ApartShifts(enum: Enumeration, s: StateValue, t: StateValue, agent: nat)
    requires IsEnumeration(enum) && s.Valid() && t.Valid() && agent < s.agents && Bisimilar(ByValuation, s, t)
    requires ToldApart(s) && ToldApart(t)
    ensures agent < t.agents && Bisimilar(ByValuation, Shift(enum, s, agent), Shift(enum, t, agent))
  {
    var z: Pairs :| Witnesses(ByValuation, s, t, z);
    ApartForth(s, t, z, agent);
    InverseBisimulation(ByValuation, s, t, z);
    InversePointed(s, t, z);
    ApartForth(t, s, Inverse(z), agent);
    InsideShifts(ByValuation, enum, s, t, z, agent);
  }

  lemma DistinctAt(xs: seq<nat>, i: nat, j: nat)
    requires Distinct(xs) && i < |xs| && j < |xs| && xs[i] == xs[j]
    ensures i == j
  {
  }

  lemma ShiftApart(enum: Enumeration, s: StateValue, agent: nat)
    requires IsEnumeration(enum) && s.Valid() && agent < s.agents && ToldApart(s)
    ensures ToldApart(Shift(enum, s, agent))
  {
    ShiftIsCopy(enum, s, agent);
    var r, xs := Shift(enum, s, agent), enum(Reached(s, agent));
    forall i: nat, j: nat | i < |r.worlds| && j < |r.worlds| && r.Props(i) == r.Props(j)
      ensures i == j
    {
      assert xs[i] in xs && xs[j] in xs;
      DistinctAt(xs, i, j);
    }
  }

  // ----- Actions

  ghost function Changed(e: Event, props: set<string>): (r: set<string>) {
    (props - e.delete) + e.add
  }

  ghost predicate Possible(a: ActionValue, e: nat, props: set<string>) {
    e < |a.events| && a.events[e].precondition.Valid() && a.events[e].precondition.Satisfied(props)
  }

  /** What comes out of an event tells which event it was, and in which world. */
  ghost predicate KeepsApart(a: ActionValue) {
    forall p: set<string>, q: set<string>, e: nat, f: nat ::
      Possible(a, e, p) && Possible(a, f, q) && Changed(a.events[e], p) == Changed(a.events[f], q) ==> p == q && e == f
  }

  lemma ProductApart(s: StateValue, a: ActionValue)
    requires Fits(s, a) && ToldApart(s) && KeepsApart(a)
    ensures ToldApart(Product(s, a))
  {
    ProductIsProduct(s, a);
    var r, ps := Product(s, a), Origins(s, a);
    forall i: nat, j: nat | i < |r.worlds| && j < |r.worlds| && r.Props(i) == r.Props(j)
      ensures i == j
    {
      SameOrigin(s, a, ps, i, j);
    }
  }

  lemma SameOrigin(s: StateValue, a: ActionValue, ps: seq<Origin>, i: nat, j: nat)
    requires Fits(s, a) && ToldApart(s) && KeepsApart(a) && ps == Origins(s, a)
    requires i < |ps| && j < |ps| && InRange(s, a, ps[i]) && InRange(s, a, ps[j])
    requires Effect(s, a, ps[i]) == Effect(s, a, ps[j])
    ensures ps[i] == ps[j]
    ensures i == j
  {
    OriginsExact(s, a);
    var p, q := ps[i], ps[j];
    assert p in ps && q in ps;
    assert Possible(a, p.event, s.Props(p.world)) && Possible(a, q.event, s.Props(q.world));
    assert Changed(a.events[p.event], s.Props(p.world)) == Changed(a.events[q.event], s.Props(q.world));
    assert p == Origin(p.world, p.event) && q == Origin(q.world, q.event);
  }

  // ----- Together

  ghost predicate ToldApartState(agents: nat, s: StateValue) {
    s.Valid() && s.agents == agents && ToldApart(s)
  }

  ghost function ToldApartStates(agents: nat): (tame: StateValue -> bool) {
    s => ToldApartState(agents, s)
  }

  lemma ApartTells(s: StateValue)
    requires s.Valid() && ToldApart(s)
    ensures Telling(ByValuation, s)
  {
    forall i: nat | i < |s.designated|
      ensures Unique(ByValuation, s, s.designated[i])
    {
    }
  }

  lemma SplitApart(s: StateValue, agent: nat, o: StateValue)
    requires s.Valid() && agent < s.agents && ToldApart(s) && o in Split(s, agent)
    ensures ToldApartState(s.agents, o)
  {
    SplitValid(s, agent);
    var i: nat :| i < |Split(s, agent)| && Split(s, agent)[i] == o;
    assert o == s.GlobalFor(agent, s.designated[i]);
    forall u: nat, v: nat | u < |o.worlds| && v < |o.worlds| && o.Props(u) == o.Props(v)
      ensures u == v
    {
      assert s.Props(u) == s.Props(v);
    }
  }

  lemma ApartTameFor(enum: Enumeration, agents: nat, s: StateValue, a: ActionValue)
    requires IsEnumeration(enum) && ToldApartState(agents, s) && a.Valid(agents) && KeepsApart(a)
    ensures TameFor(enum, ToldApartStates(agents), s, a)
  {
    ExpandIs(enum, s, a);
    ShiftIsCopy(enum, s, a.owner);
    ShiftApart(enum, s, a.owner);
    ProductApart(Shift(enum, s, a.owner), a);
    var r := Updated(enum, s, a);
    ApartTells(r);
    forall o | o in Split(r, a.owner)
      ensures ToldApartStates(agents)(o)
    {
      SplitApart(r, a.owner, o);
    }
  }

  ghost predicate LibraryKeepsApart(library: seq<ActionValue>, agents: nat) {
    forall a :: a in library ==> a.Valid(agents) && KeepsApart(a)
  }

  /** The states whose worlds valuations tell apart are tame for every library of actions
      that keep them so, whoever owns them. */
  lemma ApartIsTame(enum: Enumeration, library: seq<ActionValue>, agents: nat)
    requires IsEnumeration(enum) && LibraryKeepsApart(library, agents)
    ensures IsTame(enum, library, ToldApartStates(agents)) && ValidOnly(ToldApartStates(agents))
  {
    var tame := ToldApartStates(agents);
    forall s, a | tame(s) && a in library
      ensures TameFor(enum, tame, s, a)
    {
      ApartTameFor(enum, agents, s, a);
    }
    forall s, t, a | tame(s) && tame(t) && Bisimilar(ByValuation, s, t) && a in library
      ensures SameShifts(enum, s, t, a)
    {
      ApartShifts(enum, s, t, a.owner);
    }
  }

  /** There, carrying out any policy from the library reaches the goal from a state if and
      only if it does from every bisimilar one. */
  lemma LookupSoundApart(enum: Enumeration, goal: FormulaValue, library: seq<ActionValue>, entries: seq<PolicyEntry>,
                         agents: nat, s: StateValue, t: StateValue)
    requires IsEnumeration(enum) && goal.Valid() && LibraryKeepsApart(library, agents) && ActionsFrom(entries, library)
    requires ToldApartState(agents, s) && ToldApartState(agents, t) && Bisimilar(ByValuation, s, t)
    ensures ReachesGoal(Problem(enum, goal, library), ByBisimilarity(entries), s)
       <==> ReachesGoal(Problem(enum, goal, library), ByBisimilarity(entries), t)
  {
    ApartIsTame(enum, library, agents);
    LookupSound(enum, goal, library, entries, ToldApartStates(agents), s, t);
  }

  // ----- A library of two owners

  function Positive(p: string): (f: FormulaValue)
    ensures f.Valid() && forall props :: f.Satisfied(props) <==> p in props
  {
    FormulaValue(0, [Prop(p)])
  }

  function Negative(p: string): (f: FormulaValue)
    ensures f.Valid() && forall props :: f.Satisfied(props) <==> p !in props
  {
    FormulaValue(1, [Prop(p), Not(0)])
  }

  // The owner finds out whether p holds, and the other agent sees it happen.
  function Look(owner: nat, p: string): (a: ActionValue)
    requires owner < 2
    ensures a.Valid(2)
  {
    var same := [EventRelation(0, 0), EventRelation(1, 1)];
    ActionValue(owner, [Event(0, Positive(p), {}, {}), Event(1, Negative(p), {}, {})], [0, 1], [same, same])
  }

  lemma LookKeepsApart(owner: nat, p: string)
    requires owner < 2
    ensures KeepsApart(Look(owner, p))
  {
    var a := Look(owner, p);
    forall x: set<string>, y: set<string>, e: nat, f: nat |
      Possible(a, e, x) && Possible(a, f, y) && Changed(a.events[e], x) == Changed(a.events[f], y)
      ensures x == y && e == f
    {
      assert (x - {}) + {} == x && (y - {}) + {} == y;
    }
  }

  lemma LookApplies(r: StateValue, owner: nat, p: string, w: nat) returns (e: nat)
    requires owner < 2 && Fits(r, Look(owner, p)) && w < |r.worlds|
    ensures e < 2 && Applies(r, Look(owner, p), w, e)
  {
    e := if p in r.Props(w) then 0 else 1;
  }

  lemma LookSomeApplies(r: StateValue, owner: nat, p: string, w: nat)
    requires owner < 2 && Fits(r, Look(owner, p)) && w < |r.worlds|
    ensures SomeEventApplies(r, Look(owner, p), w)
  {
    var e := LookApplies(r, owner, p, w);
    assert e < |Look(owner, p).events|;
  }

  lemma LookOrigin(r: StateValue, owner: nat, p: string) returns (i: nat)
    requires owner < 2 && Fits(r, Look(owner, p)) && r.Designated(0) && |r.worlds| > 0
    ensures var a := Look(owner, p);
            var ps := Origins(r, a);
            i < |ps| && InRange(r, a, ps[i]) && BothDesignated(r, a, ps[i])
  {
    var a := Look(owner, p);
    var e := LookApplies(r, owner, p, 0);
    OriginsExact(r, a);
    var ps := Origins(r, a);
    assert Origin(0, e) in ps;
    i :| i < |ps| && ps[i] == Origin(0, e);
    assert a.events[e].id == e;
  }

  lemma LookUpdates(r: StateValue, owner: nat, p: string)
    requires owner < 2 && Fits(r, Look(owner, p)) && r.Designated(0) && |r.worlds| > 0
    ensures IsValidState(Product(r, Look(owner, p)))
  {
    ProductIsProduct(r, Look(owner, p));
    var i := LookOrigin(r, owner, p);
    assert Product(r, Look(owner, p)).Designated(i);
  }

  /** Looking is possible for either agent in every state with an actual world, and every
      outcome is a state with an actual world again. */
  lemma LookAvailable(enum: Enumeration, s: StateValue, owner: nat, p: string)
    requires IsEnumeration(enum) && s.Valid() && s.agents == 2 && s.designated != [] && owner < 2
    ensures Expand(enum, s, Look(owner, p)).Branches? && Expand(enum, s, Look(owner, p)).outcomes != []
    ensures forall o :: o in Expand(enum, s, Look(owner, p)).outcomes ==> o.Valid() && o.agents == 2 && o.designated != []
  {
    var a := Look(owner, p);
    ExpandIs(enum, s, a);
    ShiftIsCopy(enum, s, owner);
    var r := Shift(enum, s, owner);
    ShiftHasWorld(enum, s, owner);
    forall w: nat | w in Reached(r, owner)
      ensures SomeEventApplies(r, a, w)
    {
      LookSomeApplies(r, owner, p, w);
    }
    LookUpdates(r, owner, p);
    SplitValid(Updated(enum, s, a), owner);
  }

  lemma ShiftHasWorld(enum: Enumeration, s: StateValue, agent: nat)
    requires IsEnumeration(enum) && s.Valid() && agent < s.agents && s.designated != []
    ensures |Shift(enum, s, agent).worlds| > 0 && Shift(enum, s, agent).Designated(0)
  {
    ShiftIsCopy(enum, s, agent);
    var xs := enum(Reached(s, agent));
    DesignatedReachable(s, agent);
    assert s.designated[0] in s.designated;
    assert s.designated[0] in Reached(s, agent);
    assert s.designated[0] in xs;
  }

  /** So there is a library with two owners and a tame set of states in which both owners'
      actions are available and stay so. */
  lemma TwoOwnersTame(enum: Enumeration, p: string, s: StateValue, owner: nat)
    requires IsEnumeration(enum) && ToldApartState(2, s) && s.designated != [] && owner < 2
    ensures IsTame(enum, [Look(0, p), Look(1, p)], ToldApartStates(2)) && Look(0, p).owner != Look(1, p).owner
    ensures Expand(enum, s, Look(owner, p)).Branches? && Expand(enum, s, Look(owner, p)).outcomes != []
    ensures forall o :: o in Expand(enum, s, Look(owner, p)).outcomes ==>
              ToldApartState(2, o) && Expand(enum, o, Look(1 - owner, p)).Branches?
  {
    LookKeepsApart(0, p);
    LookKeepsApart(1, p);
    ApartIsTame(enum, [Look(0, p), Look(1, p)], 2);
    LookAvailable(enum, s, owner, p);
    assert Look(owner, p) in [Look(0, p), Look(1, p)];
    assert ToldApartStates(2)(s);
    assert TameFor(enum, ToldApartStates(2), s, Look(owner, p));
    forall o | o in Expand(enum, s, Look(owner, p)).outcomes
      ensures ToldApartState(2, o) && Expand(enum, o, Look(1 - owner, p)).Branches?
    {
      assert ToldApartStates(2)(o);
      LookAvailable(enum, o, 1 - owner, p);
    }
  }
}
