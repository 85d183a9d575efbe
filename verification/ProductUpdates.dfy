/** Product update of a state with an action. */
module ProductUpdates {
  import opened Actions
  import opened Formulas
  import opened States

  // ----- Specification: the applicable (world, event) pairs in the order they are met

  ghost predicate Fits(s: StateValue, a: ActionValue) {
    s.Valid() && a.Valid(s.agents)
  }

  predicate Applies(s: StateValue, a: ActionValue, w: nat, e: nat)
    requires w < |s.worlds| && e < |a.events| && a.events[e].precondition.Valid()
  {
    a.events[e].precondition.Satisfied(s.Props(w))
  }

  datatype Origin = Origin(world: nat, event: nat)

  ghost function EventPairs(s: StateValue, a: ActionValue, w: nat, m: nat): (ps: seq<Origin>)
    requires Fits(s, a) && w < |s.worlds| && m <= |a.events|
  {
    if m == 0 then []
    else EventPairs(s, a, w, m - 1) + if Applies(s, a, w, m - 1) then [Origin(w, m - 1)] else []
  }

  ghost function WorldPairs(s: StateValue, a: ActionValue, n: nat): (ps: seq<Origin>)
    requires Fits(s, a) && n <= |s.worlds|
  {
    if n == 0 then [] else WorldPairs(s, a, n - 1) + EventPairs(s, a, n - 1, |a.events|)
  }

  ghost function Origins(s: StateValue, a: ActionValue): (ps: seq<Origin>)
    requires Fits(s, a)
  {
    WorldPairs(s, a, |s.worlds|)
  }

  ghost predicate InRange(s: StateValue, a: ActionValue, p: Origin) {
    p.world < |s.worlds| && p.event < |a.events|
  }

  ghost predicate AllInRange(s: StateValue, a: ActionValue, ps: seq<Origin>) {
    forall i :: 0 <= i < |ps| ==> InRange(s, a, ps[i])
  }

  // True before and not deleted, or added; additions win.
  ghost function Effect(s: StateValue, a: ActionValue, p: Origin): (ps: set<string>)
    requires InRange(s, a, p)
  {
    (s.Props(p.world) - a.events[p.event].delete) + a.events[p.event].add
  }

  ghost function EffectWorlds(s: StateValue, a: ActionValue, ps: seq<Origin>): (ws: seq<World>)
    requires AllInRange(s, a, ps)
    ensures |ws| == |ps|
    ensures forall i: nat :: i < |ps| ==> ws[i] == World(i, Effect(s, a, ps[i]))
  {
    seq(|ps|, i requires 0 <= i < |ps| => World(i, Effect(s, a, ps[i])))
  }

  ghost predicate BothDesignated(s: StateValue, a: ActionValue, p: Origin)
    requires InRange(s, a, p)
  {
    s.Designated(p.world) && a.Designated(a.events[p.event].id)
  }

  ghost function DesignatedPairs(s: StateValue, a: ActionValue, ps: seq<Origin>): (ds: seq<nat>)
    requires AllInRange(s, a, ps)
    ensures forall i: nat :: i in ds <==> i < |ps| && BothDesignated(s, a, ps[i])
  {
    if ps == [] then [] else
      var k: nat := |ps| - 1;
      DesignatedPairs(s, a, ps[..k]) + if BothDesignated(s, a, ps[k]) then [k] else []
  }

  ghost predicate BothRelated(s: StateValue, a: ActionValue, agent: nat, p: Origin, q: Origin)
    requires InRange(s, a, p) && InRange(s, a, q)
  {
    s.Edge(agent, p.world, q.world) && a.Edge(agent, a.events[p.event].id, a.events[q.event].id)
  }

  // One agent's relations after k full rows of the pair table and l entries of row k.
  ghost function RelationsUpTo(
    s: StateValue, a: ActionValue, agent: nat, ps: seq<Origin>, k: nat, l: nat): (rs: seq<WorldRelation>)
    requires AllInRange(s, a, ps) && k <= |ps| && l <= |ps| && (k == |ps| ==> l == 0)
    decreases k, l
  {
    if l > 0 then
      RelationsUpTo(s, a, agent, ps, k, l - 1)
        + if BothRelated(s, a, agent, ps[k], ps[l - 1]) then [WorldRelation(k, l - 1)] else []
    else if k > 0 then
      (if |ps| > 0 then RelationsUpTo(s, a, agent, ps, k - 1, |ps|) else [])
    else []
  }

  // Entry (u, v) comes before entry (k, l) in row order.
  predicate Earlier(u: nat, v: nat, k: nat, l: nat, n: nat) {
    v < n && (u < k || (u == k && v < l))
  }

  lemma {:induction false} RelationsUpToAt(
    s: StateValue, a: ActionValue, agent: nat, ps: seq<Origin>, k: nat, l: nat, u: nat, v: nat)
    requires AllInRange(s, a, ps) && k <= |ps| && l <= |ps| && (k == |ps| ==> l == 0)
    ensures WorldRelation(u, v) in RelationsUpTo(s, a, agent, ps, k, l) <==>
              Earlier(u, v, k, l, |ps|) && u < |ps| && BothRelated(s, a, agent, ps[u], ps[v])
    decreases k, l
  {
    if l > 0 {
      RelationsUpToAt(s, a, agent, ps, k, l - 1, u, v);
    } else if k > 0 {
      RelationsUpToAt(s, a, agent, ps, k - 1, |ps|, u, v);
    }
  }

  lemma RelationsUpToExact(s: StateValue, a: ActionValue, agent: nat, ps: seq<Origin>)
    requires AllInRange(s, a, ps)
    ensures forall u: nat, v: nat :: WorldRelation(u, v) in RelationsUpTo(s, a, agent, ps, |ps|, 0) <==>
              u < |ps| && v < |ps| && BothRelated(s, a, agent, ps[u], ps[v])
    ensures RelationsInRange(RelationsUpTo(s, a, agent, ps, |ps|, 0), |ps|)
  {
    var rs := RelationsUpTo(s, a, agent, ps, |ps|, 0);
    forall u: nat, v: nat
      ensures WorldRelation(u, v) in rs <==> u < |ps| && v < |ps| && BothRelated(s, a, agent, ps[u], ps[v])
    {
      RelationsUpToAt(s, a, agent, ps, |ps|, 0, u, v);
    }
    forall i | 0 <= i < |rs|
      ensures rs[i].from < |ps| && rs[i].to < |ps|
    {
      assert WorldRelation(rs[i].from, rs[i].to) in rs;
    }
  }

  ghost function Product(s: StateValue, a: ActionValue): (r: StateValue)
    requires Fits(s, a)
  {
    OriginsExact(s, a);
    var ps := Origins(s, a);
    StateValue(
      s.agents,
      EffectWorlds(s, a, ps),
      DesignatedPairs(s, a, ps),
      seq(s.agents, agent requires 0 <= agent < s.agents => RelationsUpTo(s, a, agent, ps, |ps|, 0)))
  }

  // ----- The pairs are exactly the applicable ones, each once

  ghost predicate Before(p: Origin, q: Origin) {
    p.world < q.world || (p.world == q.world && p.event < q.event)
  }

  ghost predicate StrictlyOrdered(ps: seq<Origin>) {
    forall i, j :: 0 <= i < j < |ps| ==> Before(ps[i], ps[j])
  }

  lemma OrderedSnoc(ps: seq<Origin>, q: Origin)
    requires StrictlyOrdered(ps) && forall p :: p in ps ==> Before(p, q)
    ensures StrictlyOrdered(ps + [q])
  {
    assert forall i :: 0 <= i < |ps| ==> ps[i] in ps;
  }

  lemma OrderedConcat(ps: seq<Origin>, qs: seq<Origin>)
    requires StrictlyOrdered(ps) && StrictlyOrdered(qs) && forall p, q :: p in ps && q in qs ==> Before(p, q)
    ensures StrictlyOrdered(ps + qs)
  {
    assert forall i :: 0 <= i < |ps| ==> ps[i] in ps;
    assert forall i :: 0 <= i < |qs| ==> qs[i] in qs;
  }

  lemma {:induction false} EventPairsAt(s: StateValue, a: ActionValue, w: nat, m: nat, p: Origin)
    requires Fits(s, a) && w < |s.worlds| && m <= |a.events|
    ensures p in EventPairs(s, a, w, m) <==> p.world == w && p.event < m && Applies(s, a, w, p.event)
    decreases m
  {
    if m > 0 {
      EventPairsAt(s, a, w, m - 1, p);
    }
  }

  lemma {:induction false} EventPairsOrdered(s: StateValue, a: ActionValue, w: nat, m: nat)
    requires Fits(s, a) && w < |s.worlds| && m <= |a.events|
    ensures StrictlyOrdered(EventPairs(s, a, w, m))
    decreases m
  {
    if m > 0 {
      var ps, q := EventPairs(s, a, w, m - 1), Origin(w, m - 1);
      EventPairsOrdered(s, a, w, m - 1);
      forall p | p in ps
        ensures Before(p, q)
      {
        EventPairsAt(s, a, w, m - 1, p);
      }
      OrderedSnoc(ps, q);
      assert ps + [] == ps;
    }
  }

  lemma EventPairsExact(s: StateValue, a: ActionValue, w: nat, m: nat)
    requires Fits(s, a) && w < |s.worlds| && m <= |a.events|
    ensures forall p :: p in EventPairs(s, a, w, m) <==> p.world == w && p.event < m && Applies(s, a, w, p.event)
    ensures StrictlyOrdered(EventPairs(s, a, w, m))
  {
    EventPairsOrdered(s, a, w, m);
    forall p: Origin
      ensures p in EventPairs(s, a, w, m) <==> p.world == w && p.event < m && Applies(s, a, w, p.event)
    {
      EventPairsAt(s, a, w, m, p);
    }
  }

  lemma {:induction false} WorldPairsExact(s: StateValue, a: ActionValue, n: nat)
    requires Fits(s, a) && n <= |s.worlds|
    ensures forall p :: p in WorldPairs(s, a, n) <==>
              p.world < n && p.event < |a.events| && Applies(s, a, p.world, p.event)
    ensures StrictlyOrdered(WorldPairs(s, a, n))
    decreases n
  {
    if n > 0 {
      WorldPairsExact(s, a, n - 1);
      EventPairsExact(s, a, n - 1, |a.events|);
      var ps, qs := WorldPairs(s, a, n - 1), EventPairs(s, a, n - 1, |a.events|);
      OrderedConcat(ps, qs);
      forall p: Origin
        ensures p in ps + qs <==> p.world < n && p.event < |a.events| && Applies(s, a, p.world, p.event)
      {
        assert p in ps + qs <==> p in ps || p in qs;
      }
    }
  }

  lemma OriginsExact(s: StateValue, a: ActionValue)
    requires Fits(s, a)
    ensures forall p :: p in Origins(s, a) <==> InRange(s, a, p) && Applies(s, a, p.world, p.event)
    ensures AllInRange(s, a, Origins(s, a))
    ensures forall i, j :: 0 <= i < |Origins(s, a)| && 0 <= j < |Origins(s, a)| && Origins(s, a)[i] == Origins(s, a)[j] ==> i == j
  {
    WorldPairsExact(s, a, |s.worlds|);
    var ps := Origins(s, a);
    assert forall i :: 0 <= i < |ps| ==> ps[i] in ps;
    forall i, j | 0 <= i < |ps| && 0 <= j < |ps| && ps[i] == ps[j]
      ensures i == j
    {
      assert i < j ==> Before(ps[i], ps[j]);
      assert j < i ==> Before(ps[j], ps[i]);
    }
  }

  // ----- What a product update is, without reference to any enumeration

  /** New worlds correspond one-to-one with the applicable pairs, with the product's
      valuation, designation and relations. */
  ghost predicate IsProduct(s: StateValue, a: ActionValue, r: StateValue, ps: seq<Origin>) {
    && r.agents == s.agents && |r.worlds| == |ps|
    && AllInRange(s, a, ps)
    && (forall p :: InRange(s, a, p) && a.events[p.event].precondition.Valid() ==>
         (p in ps <==> Applies(s, a, p.world, p.event)))
    && (forall i, j :: 0 <= i < |ps| && 0 <= j < |ps| && ps[i] == ps[j] ==> i == j)
    && (forall i: nat :: i < |ps| ==> r.Props(i) == Effect(s, a, ps[i]))
    && (forall i: nat :: r.Designated(i) <==> i < |ps| && BothDesignated(s, a, ps[i]))
    && (forall agent: nat, i: nat, j: nat :: r.Edge(agent, i, j) <==>
         agent < s.agents && i < |ps| && j < |ps| && BothRelated(s, a, agent, ps[i], ps[j]))
  }

  lemma ProductIsProduct(s: StateValue, a: ActionValue)
    requires Fits(s, a)
    ensures IsProduct(s, a, Product(s, a), Origins(s, a))
    ensures Product(s, a).Valid()
  {
    OriginsExact(s, a);
    var ps, r := Origins(s, a), Product(s, a);
    forall agent: nat, i: nat, j: nat
      ensures r.Edge(agent, i, j) <==>
        agent < s.agents && i < |ps| && j < |ps| && BothRelated(s, a, agent, ps[i], ps[j])
    {
      if agent < s.agents {
        RelationsUpToExact(s, a, agent, ps);
        assert r.relations[agent] == RelationsUpTo(s, a, agent, ps, |ps|, 0);
      }
    }
    forall i | 0 <= i < |r.designated|
      ensures r.designated[i] < |r.worlds|
    {
      assert r.designated[i] in r.designated;
    }
    forall agent | 0 <= agent < |r.relations|
      ensures RelationsInRange(r.relations[agent], |r.worlds|)
    {
      RelationsUpToExact(s, a, agent, ps);
      assert r.relations[agent] == RelationsUpTo(s, a, agent, ps, |ps|, 0);
    }
  }

  // ----- The product spelled out on the stored lists

  // The precondition of event e has value true under the propositions of world w.
  ghost predicate HoldsAt(s: StateValue, a: ActionValue, w: nat, e: nat) {
    && w < |s.worlds| && e < |a.events|
    && var f := a.events[e].precondition;
       f.Valid() && Valuate(f.formulas, f.root, s.worlds[w].props)
  }

  /** One world for each world and event whose precondition holds there, in the order of the
      worlds and then of the events: true are the propositions that were and are not
      deleted, and those that are added. */
  lemma ProductWorlds(s: StateValue, a: ActionValue)
    requires Fits(s, a)
    ensures var r, ps := Product(s, a), Origins(s, a);
            && r.agents == s.agents && |r.worlds| == |ps|
            && (forall w: nat, e: nat :: Origin(w, e) in ps <==> HoldsAt(s, a, w, e))
            && (forall i, j :: 0 <= i < j < |ps| ==>
                 ps[i].world < ps[j].world || (ps[i].world == ps[j].world && ps[i].event < ps[j].event))
            && (forall i: nat :: i < |ps| ==>
                 && ps[i].world < |s.worlds| && ps[i].event < |a.events|
                 && r.worlds[i] == World(i, (s.worlds[ps[i].world].props - a.events[ps[i].event].delete) + a.events[ps[i].event].add))
  {
    OriginsExact(s, a);
    WorldPairsExact(s, a, |s.worlds|);
    var ps := Origins(s, a);
    forall w: nat, e: nat
      ensures Origin(w, e) in ps <==> HoldsAt(s, a, w, e)
    {
      assert Origin(w, e) in ps <==> InRange(s, a, Origin(w, e)) && Applies(s, a, w, e);
    }
    forall i, j | 0 <= i < j < |ps|
      ensures ps[i].world < ps[j].world || (ps[i].world == ps[j].world && ps[i].event < ps[j].event)
    {
      assert Before(ps[i], ps[j]);
    }
  }

  /** Designated are the worlds that come from a designated world and from an event whose id
      is designated. */
  lemma ProductDesignated(s: StateValue, a: ActionValue)
    requires Fits(s, a)
    ensures var r, ps := Product(s, a), Origins(s, a);
            forall i: nat :: i in r.designated <==>
              i < |ps| && ps[i].world in s.designated && ps[i].event < |a.events| && a.events[ps[i].event].id in a.designated
  {
    OriginsExact(s, a);
  }

  /** An agent relates two worlds, in this direction, exactly when it relates the worlds they
      come from and the ids of the events they come from in the same direction. */
  lemma ProductEdges(s: StateValue, a: ActionValue, agent: nat, i: nat, j: nat)
    requires Fits(s, a) && agent < s.agents && i < |Origins(s, a)| && j < |Origins(s, a)|
    ensures var r, ps := Product(s, a), Origins(s, a);
            && ps[i].event < |a.events| && ps[j].event < |a.events|
            && (WorldRelation(i, j) in r.relations[agent] <==>
                 && WorldRelation(ps[i].world, ps[j].world) in s.relations[agent]
                 && EventRelation(a.events[ps[i].event].id, a.events[ps[j].event].id) in a.relations[agent])
  {
    ProductIsProduct(s, a);
    var r, ps := Product(s, a), Origins(s, a);
    assert r.Edge(agent, i, j) <==> BothRelated(s, a, agent, ps[i], ps[j]);
  }

  // ----- The loops

  datatype WorldEntry = WorldEntry(oldWorld: nat, oldEvent: nat, newWorld: nat)

  ghost function Entries(a: ActionValue, ps: seq<Origin>): (es: seq<WorldEntry>)
    requires forall i :: 0 <= i < |ps| ==> ps[i].event < |a.events|
    ensures |es| == |ps|
    ensures forall i: nat :: i < |ps| ==> es[i] == WorldEntry(ps[i].world, a.events[ps[i].event].id, i)
  {
    seq(|ps|, i requires 0 <= i < |ps| => WorldEntry(ps[i].world, a.events[ps[i].event].id, i))
  }

  // The result under construction, before any relation is added.
  ghost function Worlds(s: StateValue, a: ActionValue, ps: seq<Origin>): (r: StateValue)
    requires AllInRange(s, a, ps)
  {
    StateValue(s.agents, EffectWorlds(s, a, ps), DesignatedPairs(s, a, ps), seq(s.agents, _ => []))
  }

  lemma WorldsSnoc(s: StateValue, a: ActionValue, ps: seq<Origin>, p: Origin)
    requires AllInRange(s, a, ps) && InRange(s, a, p)
    ensures var r := Worlds(s, a, ps).WithWorld(Effect(s, a, p));
            Worlds(s, a, ps + [p]) == if BothDesignated(s, a, p) then r.WithDesignated(|ps|) else r
    ensures Entries(a, ps + [p]) == Entries(a, ps) + [WorldEntry(p.world, a.events[p.event].id, |ps|)]
  {
    var longer := ps + [p];
    assert longer[..|ps|] == ps;
    assert EffectWorlds(s, a, longer) == EffectWorlds(s, a, ps) + [World(|ps|, Effect(s, a, p))];
  }

  // The worlds, designation and entries of the pairs handled so far.
  ghost predicate Built(s: StateValue, a: ActionValue, ps: seq<Origin>, r: StateValue, entries: seq<WorldEntry>) {
    AllInRange(s, a, ps) && r == Worlds(s, a, ps) && entries == Entries(a, ps)
  }

  method AddProductWorld(
    s: StateValue, a: ActionValue, w: nat, e: nat, result: State, entries0: seq<WorldEntry>, ghost ps: seq<Origin>)
      returns (entries: seq<WorldEntry>)
    requires s.Valid() && w < |s.worlds| && e < |a.events|
    requires Built(s, a, ps, result.Value(), entries0)
    modifies result
    ensures Built(s, a, ps + [Origin(w, e)], result.Value(), entries)
  {
    var world, event := s.worlds[w], a.events[e];
    WorldsSnoc(s, a, ps, Origin(w, e));
    var updated := result.CreateWorld();
    result.AddTruePropositions(updated, world.props);
    result.RemoveTruePropositions(updated, event.delete);
    result.AddTruePropositions(updated, event.add);
    assert {} + world.props == world.props;
    assert result.worlds == Worlds(s, a, ps).worlds + [World(|ps|, Effect(s, a, Origin(w, e)))];
    if s.Designated(world.id) && a.Designated(event.id) {
      result.AddDesignatedWorld(updated);
    }
    entries := entries0 + [WorldEntry(world.id, event.id, updated)];
  }

  // The pairs before world w and, of world w, before event e.
  ghost function PairsBefore(s: StateValue, a: ActionValue, w: nat, e: nat): (ps: seq<Origin>)
    requires Fits(s, a) && w < |s.worlds| && e <= |a.events|
  {
    WorldPairs(s, a, w) + EventPairs(s, a, w, e)
  }

  lemma PairsBeforeStep(s: StateValue, a: ActionValue, w: nat, e: nat)
    requires Fits(s, a) && w < |s.worlds| && e < |a.events|
    ensures PairsBefore(s, a, w, e + 1)
         == if Applies(s, a, w, e) then PairsBefore(s, a, w, e) + [Origin(w, e)] else PairsBefore(s, a, w, e)
  {
    var ps, qs := WorldPairs(s, a, w), EventPairs(s, a, w, e);
    assert ps + (qs + [Origin(w, e)]) == ps + qs + [Origin(w, e)];
    assert ps + (qs + []) == ps + qs;
  }

  lemma PairsBeforeEnds(s: StateValue, a: ActionValue, w: nat)
    requires Fits(s, a) && w < |s.worlds|
    ensures PairsBefore(s, a, w, 0) == WorldPairs(s, a, w)
    ensures PairsBefore(s, a, w, |a.events|) == WorldPairs(s, a, w + 1)
  {
  }

  method AddWorldFor(s: StateValue, a: ActionValue, w: nat, e: nat, result: State, entries0: seq<WorldEntry>)
      returns (entries: seq<WorldEntry>)
    requires Fits(s, a) && w < |s.worlds| && e < |a.events|
    requires Built(s, a, PairsBefore(s, a, w, e), result.Value(), entries0)
    modifies result
    ensures Built(s, a, PairsBefore(s, a, w, e + 1), result.Value(), entries)
  {
    entries := entries0;
    PairsBeforeStep(s, a, w, e);
    if Applies(s, a, w, e) {
      entries := AddProductWorld(s, a, w, e, result, entries, PairsBefore(s, a, w, e));
    }
  }

  method AddWorldsOf(s: StateValue, a: ActionValue, w: nat, result: State, entries0: seq<WorldEntry>)
      returns (entries: seq<WorldEntry>)
    requires Fits(s, a) && w < |s.worlds|
    requires Built(s, a, PairsBefore(s, a, w, 0), result.Value(), entries0)
    modifies result
    ensures Built(s, a, PairsBefore(s, a, w, |a.events|), result.Value(), entries)
  {
    entries := entries0;
    for e := 0 to |a.events|
      invariant Built(s, a, PairsBefore(s, a, w, e), result.Value(), entries)
    {
      entries := AddWorldFor(s, a, w, e, result, entries);
    }
  }

  method AddProductWorlds(s: StateValue, a: ActionValue, result: State) returns (entries: seq<WorldEntry>)
    requires Fits(s, a) && result.Value() == Worlds(s, a, [])
    modifies result
    ensures Built(s, a, Origins(s, a), result.Value(), entries)
  {
    entries := [];
    for w := 0 to |s.worlds|
      invariant Built(s, a, WorldPairs(s, a, w), result.Value(), entries)
    {
      PairsBeforeEnds(s, a, w);
      entries := AddWorldsOf(s, a, w, result, entries);
    }
  }

  // Everything but the relations.
  ghost function Rest(r: StateValue): (rest: StateValue) {
    r.(relations := [])
  }

  // The partly filled result: agents below i already have entry (k, l), the others do not.
  ghost predicate Filling(s: StateValue, a: ActionValue, ps: seq<Origin>, r: StateValue, k: nat, l: nat, i: nat)
    requires AllInRange(s, a, ps) && k < |ps| && l < |ps|
  {
    && |r.relations| == s.agents
    && (forall agent: nat :: agent < i && agent < s.agents ==> r.relations[agent] == RelationsUpTo(s, a, agent, ps, k, l + 1))
    && (forall agent: nat :: i <= agent < s.agents ==> r.relations[agent] == RelationsUpTo(s, a, agent, ps, k, l))
  }

  ghost predicate FilledUpTo(s: StateValue, a: ActionValue, ps: seq<Origin>, r: StateValue, k: nat, l: nat)
    requires AllInRange(s, a, ps) && k <= |ps| && l <= |ps| && (k == |ps| ==> l == 0)
  {
    && |r.relations| == s.agents
    && (forall agent: nat :: agent < s.agents ==> r.relations[agent] == RelationsUpTo(s, a, agent, ps, k, l))
  }

  method AddProductRelation(s: StateValue, a: ActionValue, entry1: WorldEntry, entry2: WorldEntry,
                            result: State, ghost ps: seq<Origin>)
    requires Fits(s, a) && AllInRange(s, a, ps)
    requires entry1.newWorld < |ps| && entry1 == Entries(a, ps)[entry1.newWorld]
    requires entry2.newWorld < |ps| && entry2 == Entries(a, ps)[entry2.newWorld]
    requires FilledUpTo(s, a, ps, result.Value(), entry1.newWorld, entry2.newWorld)
    modifies result
    ensures Rest(result.Value()) == old(Rest(result.Value()))
    ensures FilledUpTo(s, a, ps, result.Value(), entry1.newWorld, entry2.newWorld + 1)
  {
    ghost var k, l := entry1.newWorld, entry2.newWorld;
    for i := 0 to s.agents
      invariant Filling(s, a, ps, result.Value(), k, l, i)
      invariant Rest(result.Value()) == old(Rest(result.Value()))
    {
      FillStep(s, a, ps, result.Value(), k, l, i);
      if s.Edge(i, entry1.oldWorld, entry2.oldWorld) && a.Edge(i, entry1.oldEvent, entry2.oldEvent) {
        result.AddIndistinguishabilityRelation(i, entry1.newWorld, entry2.newWorld);
      }
    }
  }

  lemma FillStep(s: StateValue, a: ActionValue, ps: seq<Origin>, r: StateValue, k: nat, l: nat, i: nat)
    requires AllInRange(s, a, ps) && k < |ps| && l < |ps| && i < s.agents
    requires Filling(s, a, ps, r, k, l, i)
    ensures Filling(s, a, ps, if BothRelated(s, a, i, ps[k], ps[l]) then r.WithRelation(i, k, l) else r, k, l, i + 1)
  {
  }

  method AddProductRow(s: StateValue, a: ActionValue, entries: seq<WorldEntry>, result: State, ghost ps: seq<Origin>, k: nat)
    requires Fits(s, a) && AllInRange(s, a, ps) && entries == Entries(a, ps) && k < |ps|
    requires FilledUpTo(s, a, ps, result.Value(), k, 0)
    modifies result
    ensures Rest(result.Value()) == old(Rest(result.Value()))
    ensures FilledUpTo(s, a, ps, result.Value(), k + 1, 0)
  {
    for l := 0 to |entries|
      invariant FilledUpTo(s, a, ps, result.Value(), k, l)
      invariant Rest(result.Value()) == old(Rest(result.Value()))
    {
      AddProductRelation(s, a, entries[k], entries[l], result, ps);
    }
    RowDone(s, a, ps, result.Value(), k);
  }

  method AddProductRelations(s: StateValue, a: ActionValue, entries: seq<WorldEntry>, result: State, ghost ps: seq<Origin>)
    requires Fits(s, a) && AllInRange(s, a, ps) && entries == Entries(a, ps)
    requires result.Value() == Worlds(s, a, ps)
    modifies result
    ensures Rest(result.Value()) == old(Rest(result.Value()))
    ensures FilledUpTo(s, a, ps, result.Value(), |ps|, 0)
  {
    for k := 0 to |entries|
      invariant FilledUpTo(s, a, ps, result.Value(), k, 0)
      invariant Rest(result.Value()) == old(Rest(result.Value()))
    {
      AddProductRow(s, a, entries, result, ps, k);
    }
  }

  lemma RowDone(s: StateValue, a: ActionValue, ps: seq<Origin>, r: StateValue, k: nat)
    requires AllInRange(s, a, ps) && k < |ps| && FilledUpTo(s, a, ps, r, k, |ps|)
    ensures FilledUpTo(s, a, ps, r, k + 1, 0)
  {
    forall agent: nat | agent < s.agents
      ensures RelationsUpTo(s, a, agent, ps, k + 1, 0) == RelationsUpTo(s, a, agent, ps, k, |ps|)
    {
    }
  }

  /** The nested loops compute the product. */
  method PerformProductUpdate(s: StateValue, a: ActionValue) returns (r: StateValue)
    requires Fits(s, a)
    ensures r == Product(s, a)
    ensures r.Valid() && IsProduct(s, a, r, Origins(s, a))
  {
    var result := new State(s.agents);
    assert result.Value().relations == Worlds(s, a, []).relations;
    var entries := AddProductWorlds(s, a, result);
    ghost var ps := Origins(s, a);
    AddProductRelations(s, a, entries, result, ps);
    r := result.Value();
    assert r.relations == Product(s, a).relations;
    ProductIsProduct(s, a);
  }
}
