/** What product update preserves: bisimilarity, and the frame conditions of
    each agent's relation. */
module ProductProperties {
  import opened Actions
  import opened Bisimulation
  import opened ProductUpdates
  import opened States

  // ----- Congruence

  // Pairs of product worlds that come from related worlds by the same event.
  ghost function Lift(z: Pairs, ps: seq<Origin>, qs: seq<Origin>): (y: Pairs)
    ensures forall i: nat, j: nat :: Related(y, i, j) <==>
              i < |ps| && j < |qs| && ps[i].event == qs[j].event && Related(z, ps[i].world, qs[j].world)
  {
    var r := set p | p in Grid(|ps|, |qs|) && ps[p.0].event == qs[p.1].event && Related(z, ps[p.0].world, qs[p.1].world);
    assert forall i: nat, j: nat :: Related(r, i, j) <==>
      Related(Grid(|ps|, |qs|), i, j) && ps[i].event == qs[j].event && Related(z, ps[i].world, qs[j].world);
    r
  }

  // All that the pairing of product worlds needs from a bisimulation.
  ghost predicate Agrees(s1: StateValue, s2: StateValue, z: Pairs) {
    forall u: nat, v: nat :: Related(z, u, v) ==>
      u < |s1.worlds| && v < |s2.worlds| && s1.Props(u) == s2.Props(v)
  }

  lemma BisimulationAgrees(s1: StateValue, s2: StateValue, z: Pairs)
    requires IsBisimulation(ByValuation, s1, s2, z)
    ensures Agrees(s1, s2, z)
  {
    forall u: nat, v: nat | Related(z, u, v)
      ensures u < |s1.worlds| && v < |s2.worlds| && s1.Props(u) == s2.Props(v)
    {
      assert Matched(ByValuation, s1, s2, z, u, v);
    }
  }

  lemma RightPartner(s1: StateValue, s2: StateValue, a: ActionValue, z: Pairs, i: nat, v: nat) returns (j: nat)
    requires Fits(s1, a) && Fits(s2, a) && i < |Origins(s1, a)|
    requires Agrees(s1, s2, z) && Related(z, Origins(s1, a)[i].world, v)
    ensures j < |Origins(s2, a)| && Origins(s2, a)[j] == Origin(v, Origins(s1, a)[i].event)
    ensures Related(Lift(z, Origins(s1, a), Origins(s2, a)), i, j)
  {
    OriginsExact(s1, a);
    OriginsExact(s2, a);
    var ps, qs := Origins(s1, a), Origins(s2, a);
    assert ps[i] in ps;
    assert Origin(v, ps[i].event) in qs;
    j :| 0 <= j < |qs| && qs[j] == Origin(v, ps[i].event);
  }

  lemma LeftPartner(s1: StateValue, s2: StateValue, a: ActionValue, z: Pairs, u: nat, j: nat) returns (i: nat)
    requires Fits(s1, a) && Fits(s2, a) && j < |Origins(s2, a)|
    requires Agrees(s1, s2, z) && Related(z, u, Origins(s2, a)[j].world)
    ensures i < |Origins(s1, a)| && Origins(s1, a)[i] == Origin(u, Origins(s2, a)[j].event)
    ensures Related(Lift(z, Origins(s1, a), Origins(s2, a)), i, j)
  {
    OriginsExact(s1, a);
    OriginsExact(s2, a);
    var ps, qs := Origins(s1, a), Origins(s2, a);
    assert qs[j] in qs;
    assert Origin(u, qs[j].event) in ps;
    i :| 0 <= i < |ps| && ps[i] == Origin(u, qs[j].event);
  }

  ghost predicate Setting(s1: StateValue, s2: StateValue, a: ActionValue, r1: StateValue, r2: StateValue) {
    && Fits(s1, a) && Fits(s2, a) && s1.agents == s2.agents
    && IsProduct(s1, a, r1, Origins(s1, a)) && IsProduct(s2, a, r2, Origins(s2, a))
  }

  lemma LiftForthStep(s1: StateValue, s2: StateValue, a: ActionValue, r1: StateValue, r2: StateValue, z: Pairs,
                      agent: nat, i: nat, j: nat, i': nat) returns (j': nat)
    requires Setting(s1, s2, a, r1, r2) && Agrees(s1, s2, z)
    requires Related(Lift(z, Origins(s1, a), Origins(s2, a)), i, j) && r1.Edge(agent, i, i')
    requires Forth(s1, s2, z, Origins(s1, a)[i].world, Origins(s2, a)[j].world)
    ensures r2.Edge(agent, j, j') && Related(Lift(z, Origins(s1, a), Origins(s2, a)), i', j')
  {
    var ps, qs := Origins(s1, a), Origins(s2, a);
    assert BothRelated(s1, a, agent, ps[i], ps[i']);
    var v': nat :| s2.Edge(agent, qs[j].world, v') && Related(z, ps[i'].world, v');
    j' := RightPartner(s1, s2, a, z, i', v');
    assert BothRelated(s2, a, agent, qs[j], qs[j']);
  }

  lemma LiftForth(s1: StateValue, s2: StateValue, a: ActionValue, r1: StateValue, r2: StateValue, z: Pairs, i: nat, j: nat)
    requires Setting(s1, s2, a, r1, r2) && Agrees(s1, s2, z)
    requires Related(Lift(z, Origins(s1, a), Origins(s2, a)), i, j)
    requires Forth(s1, s2, z, Origins(s1, a)[i].world, Origins(s2, a)[j].world)
    ensures Forth(r1, r2, Lift(z, Origins(s1, a), Origins(s2, a)), i, j)
  {
    forall agent: nat, i': nat | r1.Edge(agent, i, i')
      ensures exists j': nat :: r2.Edge(agent, j, j') && Related(Lift(z, Origins(s1, a), Origins(s2, a)), i', j')
    {
      var j' := LiftForthStep(s1, s2, a, r1, r2, z, agent, i, j, i');
    }
  }

  lemma LiftBackStep(s1: StateValue, s2: StateValue, a: ActionValue, r1: StateValue, r2: StateValue, z: Pairs,
                     agent: nat, i: nat, j: nat, j': nat) returns (i': nat)
    requires Setting(s1, s2, a, r1, r2) && Agrees(s1, s2, z)
    requires Related(Lift(z, Origins(s1, a), Origins(s2, a)), i, j) && r2.Edge(agent, j, j')
    requires Back(s1, s2, z, Origins(s1, a)[i].world, Origins(s2, a)[j].world)
    ensures r1.Edge(agent, i, i') && Related(Lift(z, Origins(s1, a), Origins(s2, a)), i', j')
  {
    var ps, qs := Origins(s1, a), Origins(s2, a);
    assert BothRelated(s2, a, agent, qs[j], qs[j']);
    var u': nat :| s1.Edge(agent, ps[i].world, u') && Related(z, u', qs[j'].world);
    i' := LeftPartner(s1, s2, a, z, u', j');
    assert BothRelated(s1, a, agent, ps[i], ps[i']);
  }

  lemma LiftBack(s1: StateValue, s2: StateValue, a: ActionValue, r1: StateValue, r2: StateValue, z: Pairs, i: nat, j: nat)
    requires Setting(s1, s2, a, r1, r2) && Agrees(s1, s2, z)
    requires Related(Lift(z, Origins(s1, a), Origins(s2, a)), i, j)
    requires Back(s1, s2, z, Origins(s1, a)[i].world, Origins(s2, a)[j].world)
    ensures Back(r1, r2, Lift(z, Origins(s1, a), Origins(s2, a)), i, j)
  {
    forall agent: nat, j': nat | r2.Edge(agent, j, j')
      ensures exists i': nat :: r1.Edge(agent, i, i') && Related(Lift(z, Origins(s1, a), Origins(s2, a)), i', j')
    {
      var i' := LiftBackStep(s1, s2, a, r1, r2, z, agent, i, j, j');
    }
  }

  lemma LiftTotal(s1: StateValue, s2: StateValue, a: ActionValue, r1: StateValue, r2: StateValue, z: Pairs)
    requires Setting(s1, s2, a, r1, r2) && Agrees(s1, s2, z) && Total(s1, s2, z)
    ensures Total(r1, r2, Lift(z, Origins(s1, a), Origins(s2, a)))
  {
    var ps, qs := Origins(s1, a), Origins(s2, a);
    var y := Lift(z, ps, qs);
    forall i: nat | i < |ps|
      ensures HasRight(y, i)
    {
      assert HasRight(z, ps[i].world);
      var v: nat :| Related(z, ps[i].world, v);
      var j := RightPartner(s1, s2, a, z, i, v);
    }
    forall j: nat | j < |qs|
      ensures HasLeft(y, j)
    {
      assert HasLeft(z, qs[j].world);
      var u: nat :| Related(z, u, qs[j].world);
      var i := LeftPartner(s1, s2, a, z, u, j);
    }
  }

  lemma LiftPointedForth(s1: StateValue, s2: StateValue, a: ActionValue, r1: StateValue, r2: StateValue, z: Pairs)
    requires Setting(s1, s2, a, r1, r2) && Agrees(s1, s2, z) && PointedForth(s1, s2, z)
    ensures PointedForth(r1, r2, Lift(z, Origins(s1, a), Origins(s2, a)))
  {
    var ps, qs := Origins(s1, a), Origins(s2, a);
    forall i: nat | r1.Designated(i)
      ensures exists j: nat :: r2.Designated(j) && Related(Lift(z, ps, qs), i, j)
    {
      assert BothDesignated(s1, a, ps[i]);
      var v: nat :| s2.Designated(v) && Related(z, ps[i].world, v);
      var j := RightPartner(s1, s2, a, z, i, v);
      assert BothDesignated(s2, a, qs[j]);
    }
  }

  lemma LiftPointedBack(s1: StateValue, s2: StateValue, a: ActionValue, r1: StateValue, r2: StateValue, z: Pairs)
    requires Setting(s1, s2, a, r1, r2) && Agrees(s1, s2, z) && PointedBack(s1, s2, z)
    ensures PointedBack(r1, r2, Lift(z, Origins(s1, a), Origins(s2, a)))
  {
    var ps, qs := Origins(s1, a), Origins(s2, a);
    forall j: nat | r2.Designated(j)
      ensures exists i: nat :: r1.Designated(i) && Related(Lift(z, ps, qs), i, j)
    {
      assert BothDesignated(s2, a, qs[j]);
      var u: nat :| s1.Designated(u) && Related(z, u, qs[j].world);
      var i := LeftPartner(s1, s2, a, z, u, j);
      assert BothDesignated(s1, a, ps[i]);
    }
  }

  lemma LiftMatched(s1: StateValue, s2: StateValue, a: ActionValue, r1: StateValue, r2: StateValue, z: Pairs, i: nat, j: nat)
    requires Setting(s1, s2, a, r1, r2) && IsBisimulation(ByValuation, s1, s2, z)
    requires Related(Lift(z, Origins(s1, a), Origins(s2, a)), i, j)
    ensures Matched(ByValuation, r1, r2, Lift(z, Origins(s1, a), Origins(s2, a)), i, j)
  {
    var ps, qs := Origins(s1, a), Origins(s2, a);
    assert Matched(ByValuation, s1, s2, z, ps[i].world, qs[j].world);
    assert Effect(s1, a, ps[i]) == Effect(s2, a, qs[j]);
    BisimulationAgrees(s1, s2, z);
    LiftForth(s1, s2, a, r1, r2, z, i, j);
    LiftBack(s1, s2, a, r1, r2, z, i, j);
  }

  /** Product update is a congruence for bisimilarity, for every action. */
  lemma ProductCongruence(s1: StateValue, s2: StateValue, a: ActionValue)
    requires Fits(s1, a) && Fits(s2, a) && Bisimilar(ByValuation, s1, s2)
    ensures Bisimilar(ByValuation, Product(s1, a), Product(s2, a))
  {
    ProductIsProduct(s1, a);
    ProductIsProduct(s2, a);
    var r1, r2 := Product(s1, a), Product(s2, a);
    var z :| Witnesses(ByValuation, s1, s2, z);
    var y := Lift(z, Origins(s1, a), Origins(s2, a));
    forall i: nat, j: nat | Related(y, i, j)
      ensures Matched(ByValuation, r1, r2, y, i, j)
    {
      LiftMatched(s1, s2, a, r1, r2, z, i, j);
    }
    BisimulationAgrees(s1, s2, z);
    LiftTotal(s1, s2, a, r1, r2, z);
    LiftPointedForth(s1, s2, a, r1, r2, z);
    LiftPointedBack(s1, s2, a, r1, r2, z);
    assert Witnesses(ByValuation, r1, r2, y);
  }

  // ----- Frame conditions

  ghost predicate ReflexiveFor(s: StateValue, agent: nat) {
    forall w: nat :: w < |s.worlds| ==> s.Edge(agent, w, w)
  }

  ghost predicate SymmetricFor(s: StateValue, agent: nat) {
    forall u: nat, v: nat :: s.Edge(agent, u, v) ==> s.Edge(agent, v, u)
  }

  ghost predicate TransitiveFor(s: StateValue, agent: nat) {
    forall u: nat, v: nat, w: nat :: s.Edge(agent, u, v) && s.Edge(agent, v, w) ==> s.Edge(agent, u, w)
  }

  ghost predicate EventsReflexiveFor(a: ActionValue, agent: nat) {
    forall e: nat :: e < |a.events| ==> a.Edge(agent, a.events[e].id, a.events[e].id)
  }

  ghost predicate EventsSymmetricFor(a: ActionValue, agent: nat) {
    forall e: nat, f: nat :: a.Edge(agent, e, f) ==> a.Edge(agent, f, e)
  }

  ghost predicate EventsTransitiveFor(a: ActionValue, agent: nat) {
    forall e: nat, f: nat, g: nat :: a.Edge(agent, e, f) && a.Edge(agent, f, g) ==> a.Edge(agent, e, g)
  }

  lemma ProductReflexive(s: StateValue, a: ActionValue, agent: nat, r: StateValue, ps: seq<Origin>)
    requires IsProduct(s, a, r, ps) && agent < s.agents && ReflexiveFor(s, agent) && EventsReflexiveFor(a, agent)
    ensures ReflexiveFor(r, agent)
  {
    forall i: nat | i < |r.worlds|
      ensures r.Edge(agent, i, i)
    {
      assert BothRelated(s, a, agent, ps[i], ps[i]);
    }
  }

  lemma ProductSymmetric(s: StateValue, a: ActionValue, agent: nat, r: StateValue, ps: seq<Origin>)
    requires IsProduct(s, a, r, ps) && SymmetricFor(s, agent) && EventsSymmetricFor(a, agent)
    ensures SymmetricFor(r, agent)
  {
    forall i: nat, j: nat | r.Edge(agent, i, j)
      ensures r.Edge(agent, j, i)
    {
      assert BothRelated(s, a, agent, ps[i], ps[j]);
      assert BothRelated(s, a, agent, ps[j], ps[i]);
    }
  }

  lemma ProductTransitive(s: StateValue, a: ActionValue, agent: nat, r: StateValue, ps: seq<Origin>)
    requires IsProduct(s, a, r, ps) && TransitiveFor(s, agent) && EventsTransitiveFor(a, agent)
    ensures TransitiveFor(r, agent)
  {
    forall i: nat, j: nat, k: nat | r.Edge(agent, i, j) && r.Edge(agent, j, k)
      ensures r.Edge(agent, i, k)
    {
      assert BothRelated(s, a, agent, ps[i], ps[j]) && BothRelated(s, a, agent, ps[j], ps[k]);
      assert BothRelated(s, a, agent, ps[i], ps[k]);
    }
  }

  /** Each frame condition of an agent survives the update when the event relation has it too. */
  lemma ProductKeepsFrame(s: StateValue, a: ActionValue, agent: nat)
    requires Fits(s, a) && agent < s.agents
    ensures ReflexiveFor(s, agent) && EventsReflexiveFor(a, agent) ==> ReflexiveFor(Product(s, a), agent)
    ensures SymmetricFor(s, agent) && EventsSymmetricFor(a, agent) ==> SymmetricFor(Product(s, a), agent)
    ensures TransitiveFor(s, agent) && EventsTransitiveFor(a, agent) ==> TransitiveFor(Product(s, a), agent)
  {
    ProductIsProduct(s, a);
    if ReflexiveFor(s, agent) && EventsReflexiveFor(a, agent) {
      ProductReflexive(s, a, agent, Product(s, a), Origins(s, a));
    }
    if SymmetricFor(s, agent) && EventsSymmetricFor(a, agent) {
      ProductSymmetric(s, a, agent, Product(s, a), Origins(s, a));
    }
    if TransitiveFor(s, agent) && EventsTransitiveFor(a, agent) {
      ProductTransitive(s, a, agent, Product(s, a), Origins(s, a));
    }
  }
}
