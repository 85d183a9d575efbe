/** When the split respects bisimilarity.  It leaves the agent's relation at the actual
    world only, and that world must have one counterpart. */
module SplitBisimilarity {
  import opened Bisimulation
  import opened PerspectiveShifts
  import opened ShiftBisimilarity
  import opened States

  ghost predicate Range(s: StateValue, agent: nat, w: nat) {
    s.Valid() && agent < s.agents && w < |s.worlds|
  }

  lemma GlobalEdge(s: StateValue, agent: nat, w: nat)
    requires Range(s, agent, w)
    ensures forall a: nat, u: nat, v: nat :: s.GlobalFor(agent, w).Edge(a, u, v)
              <==> if a == agent then u == w && v == w else s.Edge(a, u, v)
    ensures forall u: nat :: s.GlobalFor(agent, w).Designated(u) <==> u == w
  {
  }

  // ----- The exact condition for any two states

  // The actual worlds are each other's only counterparts.
  ghost predicate Pins(z: Pairs, w: nat, x: nat) {
    Related(z, w, x) && forall u: nat, v: nat :: Related(z, u, v) ==> (u == w <==> v == x)
  }

  // The edges of every other agent can be followed.
  ghost predicate OthersForth(s: StateValue, t: StateValue, z: Pairs, agent: nat, u: nat, v: nat) {
    forall a: nat, u': nat :: a != agent && s.Edge(a, u, u') ==> exists v': nat :: t.Edge(a, v, v') && Related(z, u', v')
  }

  ghost predicate OthersBack(s: StateValue, t: StateValue, z: Pairs, agent: nat, u: nat, v: nat) {
    forall a: nat, v': nat :: a != agent && t.Edge(a, v, v') ==> exists u': nat :: s.Edge(a, u, u') && Related(z, u', v')
  }

  ghost predicate OthersMatched(l: Labelling, s: StateValue, t: StateValue, z: Pairs, agent: nat, u: nat, v: nat) {
    && u < |s.worlds| && v < |t.worlds| && SameLabel(l, s.Props(u), t.Props(v))
    && OthersForth(s, t, z, agent, u, v) && OthersBack(s, t, z, agent, u, v)
  }

  // A bisimulation for every agent but one that pairs w with x and nothing else.
  ghost predicate PinsOthers(l: Labelling, s: StateValue, t: StateValue, z: Pairs, agent: nat, w: nat, x: nat) {
    && Total(s, t, z) && Pins(z, w, x)
    && forall u: nat, v: nat :: Related(z, u, v) ==> OthersMatched(l, s, t, z, agent, u, v)
  }

  lemma PinnedForth(s: StateValue, t: StateValue, z: Pairs, agent: nat, w: nat, x: nat, u: nat, v: nat)
    requires Range(s, agent, w) && Range(t, agent, x) && Pins(z, w, x) && Related(z, u, v)
    requires OthersForth(s, t, z, agent, u, v)
    ensures Forth(s.GlobalFor(agent, w), t.GlobalFor(agent, x), z, u, v)
  {
    GlobalEdge(s, agent, w);
    GlobalEdge(t, agent, x);
    var r, q := s.GlobalFor(agent, w), t.GlobalFor(agent, x);
    forall a: nat, u': nat | r.Edge(a, u, u')
      ensures exists v': nat :: q.Edge(a, v, v') && Related(z, u', v')
    {
      if a == agent {
        assert q.Edge(a, v, x) && Related(z, u', x);
      } else {
        var v': nat :| t.Edge(a, v, v') && Related(z, u', v');
        assert q.Edge(a, v, v');
      }
    }
  }

  lemma PinnedBack(s: StateValue, t: StateValue, z: Pairs, agent: nat, w: nat, x: nat, u: nat, v: nat)
    requires Range(s, agent, w) && Range(t, agent, x) && Pins(z, w, x) && Related(z, u, v)
    requires OthersBack(s, t, z, agent, u, v)
    ensures Back(s.GlobalFor(agent, w), t.GlobalFor(agent, x), z, u, v)
  {
    GlobalEdge(s, agent, w);
    GlobalEdge(t, agent, x);
    var r, q := s.GlobalFor(agent, w), t.GlobalFor(agent, x);
    forall a: nat, v': nat | q.Edge(a, v, v')
      ensures exists u': nat :: r.Edge(a, u, u') && Related(z, u', v')
    {
      if a == agent {
        assert r.Edge(a, u, w) && Related(z, w, v');
      } else {
        var u': nat :| s.Edge(a, u, u') && Related(z, u', v');
        assert r.Edge(a, u, u');
      }
    }
  }

  lemma PinnedPointed(s: StateValue, t: StateValue, z: Pairs, w: nat, x: nat)
    requires s.designated == [w] && t.designated == [x] && Related(z, w, x)
    ensures Pointed(s, t, z)
  {
    forall u: nat | s.Designated(u)
      ensures t.Designated(x) && Related(z, u, x)
    {
    }
    forall v: nat | t.Designated(v)
      ensures s.Designated(w) && Related(z, w, v)
    {
    }
  }

  lemma PinnedSplits(l: Labelling, s: StateValue, t: StateValue, z: Pairs, agent: nat, w: nat, x: nat)
    requires Range(s, agent, w) && Range(t, agent, x) && s.agents == t.agents && PinsOthers(l, s, t, z, agent, w, x)
    ensures Bisimilar(l, s.GlobalFor(agent, w), t.GlobalFor(agent, x))
  {
    var r, q := s.GlobalFor(agent, w), t.GlobalFor(agent, x);
    forall u: nat, v: nat | Related(z, u, v)
      ensures Matched(l, r, q, z, u, v)
    {
      assert OthersMatched(l, s, t, z, agent, u, v);
      PinnedForth(s, t, z, agent, w, x, u, v);
      PinnedBack(s, t, z, agent, w, x, u, v);
    }
    PinnedPointed(r, q, z, w, x);
    WitnessSuffices(l, r, q, z);
  }

  lemma SplitPins(l: Labelling, s: StateValue, t: StateValue, z: Pairs, agent: nat, w: nat, x: nat)
    requires Range(s, agent, w) && Range(t, agent, x)
    requires IsBisimulation(l, s.GlobalFor(agent, w), t.GlobalFor(agent, x), z)
    requires PointedForth(s.GlobalFor(agent, w), t.GlobalFor(agent, x), z)
    ensures Pins(z, w, x)
  {
    GlobalEdge(s, agent, w);
    GlobalEdge(t, agent, x);
    var r, q := s.GlobalFor(agent, w), t.GlobalFor(agent, x);
    assert r.Designated(w);
    var y: nat :| q.Designated(y) && Related(z, w, y);
    assert y == x;
    forall u: nat, v: nat | Related(z, u, v)
      ensures u == w <==> v == x
    {
      assert Matched(l, r, q, z, u, v);
      if u == w {
        var v' := ForthEdge(r, q, z, u, v, agent, w);
      }
      if v == x {
        var u' := BackEdge(r, q, z, u, v, agent, x);
      }
    }
  }

  lemma SplitKeepsOthers(l: Labelling, s: StateValue, t: StateValue, z: Pairs, agent: nat, w: nat, x: nat, u: nat, v: nat)
    requires Range(s, agent, w) && Range(t, agent, x)
    requires Matched(l, s.GlobalFor(agent, w), t.GlobalFor(agent, x), z, u, v)
    ensures OthersMatched(l, s, t, z, agent, u, v)
  {
    GlobalEdge(s, agent, w);
    GlobalEdge(t, agent, x);
    var r, q := s.GlobalFor(agent, w), t.GlobalFor(agent, x);
    forall a: nat, u': nat | a != agent && s.Edge(a, u, u')
      ensures exists v': nat :: t.Edge(a, v, v') && Related(z, u', v')
    {
      var v' := ForthEdge(r, q, z, u, v, a, u');
    }
    forall a: nat, v': nat | a != agent && t.Edge(a, v, v')
      ensures exists u': nat :: s.Edge(a, u, u') && Related(z, u', v')
    {
      var u' := BackEdge(r, q, z, u, v, a, v');
    }
  }

  ghost predicate CanPin(l: Labelling, s: StateValue, t: StateValue, agent: nat, w: nat, x: nat) {
    exists z: Pairs :: PinsOthers(l, s, t, z, agent, w, x)
  }

  lemma SplitIsPinned(l: Labelling, s: StateValue, t: StateValue, z: Pairs, agent: nat, w: nat, x: nat)
    requires Range(s, agent, w) && Range(t, agent, x)
    requires Witnesses(l, s.GlobalFor(agent, w), t.GlobalFor(agent, x), z)
    ensures PinsOthers(l, s, t, z, agent, w, x)
  {
    SplitPins(l, s, t, z, agent, w, x);
    forall u: nat, v: nat | Related(z, u, v)
      ensures OthersMatched(l, s, t, z, agent, u, v)
    {
      assert Matched(l, s.GlobalFor(agent, w), t.GlobalFor(agent, x), z, u, v);
      SplitKeepsOthers(l, s, t, z, agent, w, x, u, v);
    }
  }

  /** Two outcomes are bisimilar if and only if the two states match for every agent but
      the one who finds out, with the two actual worlds as each other's only counterparts. */
  lemma SplitExact(l: Labelling, s: StateValue, t: StateValue, agent: nat, w: nat, x: nat)
    requires Range(s, agent, w) && Range(t, agent, x) && s.agents == t.agents
    ensures Bisimilar(l, s.GlobalFor(agent, w), t.GlobalFor(agent, x)) <==> CanPin(l, s, t, agent, w, x)
  {
    if CanPin(l, s, t, agent, w, x) {
      var z: Pairs :| PinsOthers(l, s, t, z, agent, w, x);
      PinnedSplits(l, s, t, z, agent, w, x);
    }
    if Bisimilar(l, s.GlobalFor(agent, w), t.GlobalFor(agent, x)) {
      var z: Pairs :| Witnesses(l, s.GlobalFor(agent, w), t.GlobalFor(agent, x), z);
      SplitIsPinned(l, s, t, z, agent, w, x);
    }
  }

  // ----- For bisimilar states

  lemma MatchedForOthers(l: Labelling, s: StateValue, t: StateValue, z: Pairs, agent: nat, u: nat, v: nat)
    requires Matched(l, s, t, z, u, v)
    ensures OthersMatched(l, s, t, z, agent, u, v)
  {
  }

  /** A bisimulation in which the actual worlds are each other's only counterparts is one
      of the outcomes as well. */
  lemma PinnedBisimulation(l: Labelling, s: StateValue, t: StateValue, z: Pairs, agent: nat, w: nat, x: nat)
    requires Range(s, agent, w) && Range(t, agent, x) && s.agents == t.agents
    requires IsBisimulation(l, s, t, z) && Total(s, t, z) && Pins(z, w, x)
    ensures Bisimilar(l, s.GlobalFor(agent, w), t.GlobalFor(agent, x))
  {
    forall u: nat, v: nat | Related(z, u, v)
      ensures OthersMatched(l, s, t, z, agent, u, v)
    {
      assert Matched(l, s, t, z, u, v);
      MatchedForOthers(l, s, t, z, agent, u, v);
    }
    PinnedSplits(l, s, t, z, agent, w, x);
  }

  // No other world has the label of w.
  ghost predicate Unique(l: Labelling, s: StateValue, w: nat)
    requires w < |s.worlds|
  {
    forall u: nat :: u < |s.worlds| && SameLabel(l, s.Props(u), s.Props(w)) ==> u == w
  }

  lemma UniquePins(l: Labelling, s: StateValue, t: StateValue, z: Pairs, w: nat, x: nat)
    requires IsBisimulation(l, s, t, z) && Total(s, t, z) && w < |s.worlds| && x < |t.worlds|
    requires SameLabel(l, s.Props(w), t.Props(x)) && Unique(l, s, w) && Unique(l, t, x)
    ensures Pins(z, w, x)
  {
    forall u: nat, v: nat | Related(z, u, v)
      ensures u == w <==> v == x
    {
      assert Matched(l, s, t, z, u, v);
    }
    assert HasRight(z, w);
    var v: nat :| Related(z, w, v);
  }

  lemma PinnedIsUnique(l: Labelling, s: StateValue, t: StateValue, z: Pairs, agent: nat, w: nat, x: nat)
    requires PinsOthers(l, s, t, z, agent, w, x) && w < |s.worlds| && x < |t.worlds|
    requires SameLabel(l, s.Props(w), t.Props(x)) && Unique(l, s, w)
    ensures Unique(l, t, x)
  {
    forall y: nat | y < |t.worlds| && SameLabel(l, t.Props(y), t.Props(x))
      ensures y == x
    {
      assert HasLeft(z, y);
      var u: nat :| Related(z, u, y);
      assert OthersMatched(l, s, t, z, agent, u, y);
    }
  }

  /** Bisimilar states, split at worlds with the same label, of which the one is alone with
      it: the outcomes are bisimilar if and only if so is the other. */
  lemma SplitIff(l: Labelling, s: StateValue, t: StateValue, agent: nat, w: nat, x: nat)
    requires Range(s, agent, w) && Range(t, agent, x) && Bisimilar(l, s, t)
    requires SameLabel(l, s.Props(w), t.Props(x)) && Unique(l, s, w)
    ensures Bisimilar(l, s.GlobalFor(agent, w), t.GlobalFor(agent, x)) <==> Unique(l, t, x)
  {
    if Unique(l, t, x) {
      var z: Pairs :| Witnesses(l, s, t, z);
      UniquePins(l, s, t, z, w, x);
      PinnedBisimulation(l, s, t, z, agent, w, x);
    }
    if Bisimilar(l, s.GlobalFor(agent, w), t.GlobalFor(agent, x)) {
      SplitExact(l, s, t, agent, w, x);
      var z: Pairs :| PinsOthers(l, s, t, z, agent, w, x);
      PinnedIsUnique(l, s, t, z, agent, w, x);
    }
  }

  // ----- It does not in general

  // A world that sees nothing has no counterpart where every world sees something.
  lemma BlindWorld(l: Labelling, r: StateValue, q: StateValue, a: nat, u: nat)
    requires u < |r.worlds| && (forall j: nat :: !r.Edge(a, u, j)) && forall v: nat :: v < |q.worlds| ==> q.Edge(a, v, 0)
    ensures !Bisimilar(l, r, q)
  {
    forall z: Pairs | IsBisimulation(l, r, q, z)
      ensures !HasRight(z, u)
    {
      forall v: nat
        ensures !Related(z, u, v)
      {
        assert v < |q.worlds| ==> q.Edge(a, v, 0);
        assert v < |q.worlds| ==> !Back(r, q, z, u, v);
        assert !Matched(l, r, q, z, u, v);
      }
    }
  }

  lemma ConfusedSplits(l: Labelling)
    ensures Confused().Valid() && Collapsed().Valid()
    ensures !Bisimilar(l, Split(Confused(), 0)[0], Split(Collapsed(), 0)[0])
  {
    var r, q := Split(Confused(), 0)[0], Split(Collapsed(), 0)[0];
    assert r == Confused().GlobalFor(0, 0) && q == Collapsed().GlobalFor(0, 0);
    assert r.relations[0] == [WorldRelation(0, 0)] && q.relations[0] == [WorldRelation(0, 0)];
    BlindWorld(l, r, q, 0, 1);
  }

  /** Splitting does not respect bisimilarity either: it clears the agent's relation at
      every world but the actual one. */
  lemma SplitBreaksBisimilarity(l: Labelling)
    ensures Confused().Valid() && Collapsed().Valid() && Bisimilar(l, Confused(), Collapsed())
    ensures !Bisimilar(l, Split(Confused(), 0)[0], Split(Collapsed(), 0)[0])
  {
    ConfusedSplits(l);
    ConfusedIsCollapsed(l);
  }
}
