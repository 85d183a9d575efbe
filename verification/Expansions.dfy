/** What an action needs and what it leaves, said of the state it is taken in. */
module Expansions {
  import opened Actions
  import opened AndOr
  import opened ExpandBisimilarity
  import opened PerspectiveShifts
  import opened Planner
  import opened ProductUpdates
  import opened States

  // ----- When an action is available

  // Some event is possible in the world.
  ghost predicate SomethingHappens(s: StateValue, a: ActionValue, w: nat) {
    exists e: nat :: HoldsAt(s, a, w, e)
  }

  // A designated event is possible in the world.
  ghost predicate MayBeActual(s: StateValue, a: ActionValue, w: nat) {
    exists e: nat :: HoldsAt(s, a, w, e) && a.events[e].id in a.designated
  }

  lemma SomethingHappensIff(s: StateValue, a: ActionValue, w: nat)
    requires Fits(s, a) && w < |s.worlds|
    ensures SomethingHappens(s, a, w) <==> SomeEventApplies(s, a, w)
  {
    assert forall e: nat :: e < |a.events| ==> (HoldsAt(s, a, w, e) <==> Applies(s, a, w, e));
  }

  lemma MayBeActualShifted(s: StateValue, r: StateValue, a: ActionValue, w: nat, i: nat)
    requires w < |s.worlds| && i < |r.worlds| && s.worlds[w].props == r.worlds[i].props
    ensures MayBeActual(s, a, w) <==> MayBeActual(r, a, i)
  {
    assert forall e: nat :: HoldsAt(s, a, w, e) <==> HoldsAt(r, a, i, e);
  }

  // With every world designated, the update has a designated world if some world allows one.
  lemma UpdateHasActual(r: StateValue, a: ActionValue)
    requires Fits(r, a) && forall i: nat :: i < |r.worlds| ==> i in r.designated
    ensures IsValidState(Product(r, a)) <==> exists i: nat :: i < |r.worlds| && MayBeActual(r, a, i)
  {
    ProductWorlds(r, a);
    ProductDesignated(r, a);
    var q, ps := Product(r, a), Origins(r, a);
    if IsValidState(q) {
      var k := q.designated[0];
      assert k in q.designated;
      assert Origin(ps[k].world, ps[k].event) == ps[k] && ps[k] in ps;
      assert HoldsAt(r, a, ps[k].world, ps[k].event);
      assert MayBeActual(r, a, ps[k].world);
    }
    if i: nat :| i < |r.worlds| && MayBeActual(r, a, i) {
      var e: nat :| HoldsAt(r, a, i, e) && a.events[e].id in a.designated;
      assert Origin(i, e) in ps;
      var k: nat :| k < |ps| && ps[k] == Origin(i, e);
      assert k in q.designated;
    }
  }

  lemma ActualAfterShift(enum: Enumeration, s: StateValue, a: ActionValue)
    requires IsEnumeration(enum) && Fits(s, a)
    ensures Shift(enum, s, a.owner).Valid()
    ensures (exists i: nat :: i < |Shift(enum, s, a.owner).worlds| && MayBeActual(Shift(enum, s, a.owner), a, i))
       <==> exists w: nat :: w in Reached(s, a.owner) && MayBeActual(s, a, w)
  {
    ShiftIsCopy(enum, s, a.owner);
    var r, xs := Shift(enum, s, a.owner), enum(Reached(s, a.owner));
    if i: nat :| i < |r.worlds| && MayBeActual(r, a, i) {
      assert r.Props(i) == s.Props(xs[i]);
      MayBeActualShifted(s, r, a, xs[i], i);
      assert xs[i] in xs;
    }
    if w: nat :| w in Reached(s, a.owner) && MayBeActual(s, a, w) {
      assert w in xs;
      var i := Position(xs, w);
      assert r.Props(i) == s.Props(xs[i]);
      MayBeActualShifted(s, r, a, w, i);
    }
  }

  /** An action is available if and only if in every world that its owner reaches some event
      is possible, and in some of them a designated one. */
  lemma AvailableIff(enum: Enumeration, s: StateValue, a: ActionValue)
    requires IsEnumeration(enum) && Fits(s, a)
    ensures Expand(enum, s, a).Branches? <==>
              && (forall w: nat :: w in Reached(s, a.owner) ==> SomethingHappens(s, a, w))
              && (exists w: nat :: w in Reached(s, a.owner) && MayBeActual(s, a, w))
  {
    ExpandIs(enum, s, a);
    ShiftKeepsApplicability(enum, s, a);
    forall w: nat | w in Reached(s, a.owner)
      ensures SomethingHappens(s, a, w) <==> SomeEventApplies(s, a, w)
    {
      SomethingHappensIff(s, a, w);
    }
    ShiftAllDesignated(enum, s, a.owner);
    UpdateHasActual(Shift(enum, s, a.owner), a);
    ActualAfterShift(enum, s, a);
  }

  lemma ShiftAllDesignated(enum: Enumeration, s: StateValue, agent: nat)
    requires IsEnumeration(enum) && s.Valid() && agent < s.agents
    ensures forall i: nat :: i < |Shift(enum, s, agent).worlds| ==> i in Shift(enum, s, agent).designated
  {
    ShiftIsCopy(enum, s, agent);
    forall i: nat | i < |Shift(enum, s, agent).worlds|
      ensures i in Shift(enum, s, agent).designated
    {
      assert Shift(enum, s, agent).Designated(i);
    }
  }

  // ----- What it leaves

  /** There is one outcome for each designated world of the update, in order.  It has the
      worlds of the update and the relations of all agents but the owner, who relates the
      actual world to itself and nothing else. */
  lemma OutcomesInFull(enum: Enumeration, s: StateValue, a: ActionValue, i: nat)
    requires IsEnumeration(enum) && Fits(s, a) && Expand(enum, s, a).Branches? && i < |Expand(enum, s, a).outcomes|
    ensures var e := Expand(enum, s, a);
            && |e.outcomes| == |e.result.designated| && e.result.designated[i] < |e.result.worlds|
            && var o, w := e.outcomes[i], e.result.designated[i];
            && o.agents == s.agents && o.worlds == e.result.worlds && o.designated == [w] && |o.relations| == |e.result.relations| == s.agents
            && o.relations[a.owner] == [WorldRelation(w, w)]
            && forall b: nat :: b < s.agents && b != a.owner ==> o.relations[b] == e.result.relations[b]
  {
    ExpandIs(enum, s, a);
  }

  /** The owner finds out: in an outcome the only world it reaches is the actual one. */
  lemma OwnerKnows(enum: Enumeration, s: StateValue, a: ActionValue, i: nat)
    requires IsEnumeration(enum) && Fits(s, a) && Expand(enum, s, a).Branches? && i < |Expand(enum, s, a).outcomes|
    ensures |Expand(enum, s, a).outcomes[i].designated| == 1
    ensures Reached(Expand(enum, s, a).outcomes[i], a.owner) == {Expand(enum, s, a).outcomes[i].designated[0]}
  {
    OutcomesInFull(enum, s, a, i);
    var o := Expand(enum, s, a).outcomes[i];
    LoopReached(o, a.owner, o.designated[0]);
  }

  lemma LoopReached(s: StateValue, agent: nat, w: nat)
    requires agent < |s.relations| && w < |s.worlds| && s.designated == [w] && s.relations[agent] == [WorldRelation(w, w)]
    ensures Reached(s, agent) == {w}
  {
    DesignatedReachable(s, agent);
    assert w in s.designated;
    forall v | v in Reached(s, agent)
      ensures v == w
    {
      var path: seq<nat> :| IsPath(s, agent, path) && path[|path| - 1] == v;
      StaysAt(s, agent, w, path);
    }
  }

  lemma {:induction false} StaysAt(s: StateValue, agent: nat, w: nat, path: seq<nat>)
    requires agent < |s.relations| && s.designated == [w] && s.relations[agent] == [WorldRelation(w, w)]
    requires IsPath(s, agent, path)
    ensures path[|path| - 1] == w
    decreases |path|
  {
    if |path| > 1 {
      StaysAt(s, agent, w, path[..|path| - 1]);
      assert s.Edge(agent, path[|path| - 2], path[|path| - 1]);
    }
  }
}
