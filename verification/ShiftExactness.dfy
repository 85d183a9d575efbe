/** Exactly when the shift of a state is determined by the state up to bisimilarity. */
module ShiftExactness {
  import opened Bisimulation
  import opened PerspectiveShifts
  import opened ShiftBisimilarity
  import opened States

  // ----- The condition

  // Some bisimulation of the state with itself relates the two worlds.
  ghost predicate Alike(l: Labelling, s: StateValue, v: nat, v': nat) {
    exists z: Pairs :: IsBisimulation(l, s, s, z) && Related(z, v, v')
  }

  // Another agent's edge from a reached world to one that is like a reached world.
  ghost predicate Leaks(l: Labelling, s: StateValue, agent: nat, a: nat, u: nat, v: nat, v': nat) {
    && a != agent && u in Reached(s, agent) && s.Edge(a, u, v)
    && v' in Reached(s, agent) && Alike(l, s, v, v')
  }

  /** No other agent can get from a reached world to one that looks like a reached world. */
  ghost predicate Secluded(l: Labelling, s: StateValue, agent: nat) {
    forall a: nat, u: nat, v: nat, v': nat :: !Leaks(l, s, agent, a, u, v, v')
  }

  // Every state that is bisimilar has a bisimilar shift.
  ghost predicate ShiftRespected(l: Labelling, enum: Enumeration, s: StateValue, agent: nat)
    requires IsEnumeration(enum) && s.Valid() && agent < s.agents
  {
    forall t: StateValue :: t.Valid() && Bisimilar(l, s, t) ==>
      Bisimilar(l, Shift(enum, s, agent), Shift(enum, t, agent))
  }

  // ----- It suffices

  // The others have no edges among the reached worlds.
  ghost predicate Private(s: StateValue, agent: nat) {
    forall a: nat :: HasInside(s, agent, a) ==> a == agent
  }

  lemma OwnStaysInside(s: StateValue, agent: nat)
    requires s.Valid()
    ensures StaysInside(s, agent, agent)
  {
    forall u: nat, v: nat | u in Reached(s, agent) && s.Edge(agent, u, v)
      ensures v in Reached(s, agent)
    {
      ReachableStep(s, agent, u, v);
      EdgeInRange(s, agent, u, v);
    }
  }

  lemma PrivateFits(s: StateValue, t: StateValue, agent: nat)
    requires t.Valid() && Private(s, agent)
    ensures Fitting(s, t, agent)
  {
    OwnStaysInside(t, agent);
  }

  lemma AlikeItself(l: Labelling, s: StateValue, v: nat)
    requires s.Valid() && v < |s.worlds|
    ensures Alike(l, s, v, v)
  {
    IdentityBisimulation(l, s);
    assert Related(Identity(|s.worlds|), v, v);
  }

  lemma SecludedIsPrivate(l: Labelling, s: StateValue, agent: nat)
    requires s.Valid() && Secluded(l, s, agent)
    ensures Private(s, agent)
  {
    forall a: nat | HasInside(s, agent, a)
      ensures a == agent
    {
      var u: nat, v: nat :| u in Reached(s, agent) && v in Reached(s, agent) && s.Edge(a, u, v);
      AlikeItself(l, s, v);
      assert !Leaks(l, s, agent, a, u, v, v);
    }
  }

  lemma AlikeThrough(l: Labelling, s: StateValue, t: StateValue, z: Pairs, v: nat, v': nat, x: nat)
    requires IsBisimulation(l, s, t, z) && Related(z, v, x) && Related(z, v', x)
    ensures Alike(l, s, v, v')
  {
    InverseBisimulation(l, s, t, z);
    ComposedBisimulation(l, s, t, s, z, Inverse(z));
    ComposeRelates(z, Inverse(z), v, x, v');
  }

  lemma ReachedBack(l: Labelling, s: StateValue, t: StateValue, z: Pairs, agent: nat, x: nat) returns (u: nat)
    requires IsBisimulation(l, s, t, z) && PointedBack(s, t, z) && x in Reached(t, agent)
    ensures Related(z, u, x) && u in Reached(s, agent)
  {
    InverseBisimulation(l, s, t, z);
    InversePointed(s, t, z);
    u := ReachedFollows(l, t, s, Inverse(z), agent, x);
  }

  lemma LeakBack(l: Labelling, s: StateValue, t: StateValue, z: Pairs, agent: nat, a: nat, x: nat, y: nat)
    requires IsBisimulation(l, s, t, z) && PointedBack(s, t, z)
    requires x in Reached(t, agent) && y in Reached(t, agent) && t.Edge(a, x, y) && a != agent
    ensures !Secluded(l, s, agent)
  {
    var u := ReachedBack(l, s, t, z, agent, x);
    var v' := ReachedBack(l, s, t, z, agent, y);
    assert Matched(l, s, t, z, u, x);
    var v := BackEdge(s, t, z, u, x, a, y);
    AlikeThrough(l, s, t, z, v, v', y);
    assert Leaks(l, s, agent, a, u, v, v');
  }

  lemma PrivateFollows(l: Labelling, s: StateValue, t: StateValue, z: Pairs, agent: nat)
    requires Secluded(l, s, agent) && IsBisimulation(l, s, t, z) && PointedBack(s, t, z)
    ensures Private(t, agent)
  {
    forall a: nat | HasInside(t, agent, a)
      ensures a == agent
    {
      var x: nat, y: nat :| x in Reached(t, agent) && y in Reached(t, agent) && t.Edge(a, x, y);
      if a != agent {
        LeakBack(l, s, t, z, agent, a, x, y);
      }
    }
  }

  lemma SecludedSuffices(l: Labelling, enum: Enumeration, s: StateValue, t: StateValue, agent: nat)
    requires IsEnumeration(enum) && s.Valid() && t.Valid() && agent < s.agents
    requires Secluded(l, s, agent) && Bisimilar(l, s, t)
    ensures Bisimilar(l, Shift(enum, s, agent), Shift(enum, t, agent))
  {
    var z: Pairs :| Witnesses(l, s, t, z);
    SecludedIsPrivate(l, s, agent);
    PrivateFollows(l, s, t, z, agent);
    PrivateFits(s, t, agent);
    PrivateFits(t, s, agent);
    FittingShifts(l, enum, s, t, agent);
  }

  /** A loop of another agent at a reached world already breaks the condition, and the split
      for an agent leaves it one: the condition is for states in which one agent acts. */
  lemma OtherLoopLeaks(l: Labelling, s: StateValue, agent: nat, a: nat, w: nat)
    requires s.Valid() && a != agent && w in Reached(s, agent) && s.Edge(a, w, w)
    ensures !Secluded(l, s, agent)
  {
    AlikeItself(l, s, w);
    assert Leaks(l, s, agent, a, w, w, w);
  }

  // ----- It is necessary: a bisimilar state whose shift hides the edges of the others

  function Moved(rs: seq<WorldRelation>, from: nat, to: nat): (ms: seq<WorldRelation>)
    ensures |ms| == |rs|
    ensures forall i :: 0 <= i < |rs| ==> ms[i] == WorldRelation(rs[i].from + from, rs[i].to + to)
  {
    seq(|rs|, i requires 0 <= i < |rs| => WorldRelation(rs[i].from + from, rs[i].to + to))
  }

  lemma MovedEdge(rs: seq<WorldRelation>, from: nat, to: nat, i: nat, j: nat)
    ensures WorldRelation(i, j) in Moved(rs, from, to)
            <==> i >= from && j >= to && WorldRelation(i - from, j - to) in rs
  {
    var ms := Moved(rs, from, to);
    if WorldRelation(i, j) in ms {
      var k :| 0 <= k < |ms| && ms[k] == WorldRelation(i, j);
      assert rs[k] == WorldRelation(i - from, j - to);
    }
    if i >= from && j >= to && WorldRelation(i - from, j - to) in rs {
      var k :| 0 <= k < |rs| && rs[k] == WorldRelation(i - from, j - to);
      assert ms[k] == WorldRelation(i, j);
    }
  }

  // Two copies, the second of them designated.  The agent stays in its copy; the others
  // get into the first.
  function Doubled(s: StateValue, agent: nat): (d: StateValue)
    requires |s.relations| == s.agents
  {
    var n := |s.worlds|;
    StateValue(
      s.agents,
      seq(n + n, i requires 0 <= i < n + n => World(i, s.worlds[if i < n then i else i - n].props)),
      seq(|s.designated|, i requires 0 <= i < |s.designated| => s.designated[i] + n),
      seq(s.agents, a requires 0 <= a < s.agents =>
        s.relations[a] + Moved(s.relations[a], n, if a == agent then n else 0)))
  }

  // The world that a world of the doubled state is a copy of.
  function Original(n: nat, i: nat): (u: nat) {
    if i < n then i else i - n
  }

  lemma DoubledEdge(s: StateValue, agent: nat, a: nat, i: nat, j: nat)
    requires s.Valid()
    ensures var n := |s.worlds|;
            Doubled(s, agent).Edge(a, i, j) <==>
              if i < n then s.Edge(a, i, j) else if a == agent then j >= n && s.Edge(a, i - n, j - n) else s.Edge(a, i - n, j)
  {
    var n := |s.worlds|;
    if a < s.agents {
      MovedEdge(s.relations[a], n, if a == agent then n else 0, i, j);
      assert Doubled(s, agent).relations[a] == s.relations[a] + Moved(s.relations[a], n, if a == agent then n else 0);
    }
    if s.Edge(a, i, j) {
      EdgeInRange(s, a, i, j);
    }
  }

  lemma DoubledRelation(s: StateValue, agent: nat, a: nat)
    requires s.Valid() && a < s.agents
    ensures RelationsInRange(Doubled(s, agent).relations[a], |s.worlds| + |s.worlds|)
  {
    assert RelationsInRange(s.relations[a], |s.worlds|);
  }

  lemma DoubledValid(s: StateValue, agent: nat)
    requires s.Valid()
    ensures Doubled(s, agent).Valid()
  {
    forall a | 0 <= a < s.agents
      ensures RelationsInRange(Doubled(s, agent).relations[a], |s.worlds| + |s.worlds|)
    {
      DoubledRelation(s, agent, a);
    }
  }

  ghost function Copying(n: nat): (z: Pairs)
    ensures forall u: nat, i: nat :: Related(z, u, i) <==> i < n + n && u == Original(n, i)
  {
    set i | i in Indices(n + n) :: (Original(n, i), i)
  }

  lemma CopyingForth(s: StateValue, agent: nat, i: nat)
    requires s.Valid() && i < |s.worlds| + |s.worlds|
    ensures Forth(s, Doubled(s, agent), Copying(|s.worlds|), Original(|s.worlds|, i), i)
  {
    var n := |s.worlds|;
    var u := Original(n, i);
    forall a: nat, u': nat | s.Edge(a, u, u')
      ensures exists j: nat :: Doubled(s, agent).Edge(a, i, j) && Related(Copying(n), u', j)
    {
      EdgeInRange(s, a, u, u');
      var j: nat := if i >= n && a == agent then u' + n else u';
      DoubledEdge(s, agent, a, i, j);
      assert Doubled(s, agent).Edge(a, i, j) && Related(Copying(n), u', j);
    }
  }

  lemma CopyingBack(s: StateValue, agent: nat, i: nat)
    requires s.Valid() && i < |s.worlds| + |s.worlds|
    ensures Back(s, Doubled(s, agent), Copying(|s.worlds|), Original(|s.worlds|, i), i)
  {
    var n := |s.worlds|;
    var u := Original(n, i);
    forall a: nat, j: nat | Doubled(s, agent).Edge(a, i, j)
      ensures exists u': nat :: s.Edge(a, u, u') && Related(Copying(n), u', j)
    {
      DoubledEdge(s, agent, a, i, j);
      var u' := Original(n, j);
      EdgeInRange(s, a, u, if i >= n && a == agent then j - n else j);
      assert s.Edge(a, u, u') && Related(Copying(n), u', j);
    }
  }

  lemma CopyingTotal(s: StateValue, agent: nat)
    requires s.Valid()
    ensures Total(s, Doubled(s, agent), Copying(|s.worlds|))
  {
    var n := |s.worlds|;
    forall u: nat | u < n
      ensures HasRight(Copying(n), u)
    {
      assert Related(Copying(n), u, u);
    }
    forall i: nat | i < n + n
      ensures HasLeft(Copying(n), i)
    {
      assert Related(Copying(n), Original(n, i), i);
    }
  }

  lemma CopyingPointed(s: StateValue, agent: nat)
    requires s.Valid()
    ensures Pointed(s, Doubled(s, agent), Copying(|s.worlds|))
  {
    var n, d := |s.worlds|, Doubled(s, agent);
    forall u: nat | s.Designated(u)
      ensures exists i: nat :: d.Designated(i) && Related(Copying(n), u, i)
    {
      var k :| 0 <= k < |s.designated| && s.designated[k] == u;
      assert d.designated[k] == u + n;
      assert d.Designated(u + n) && Related(Copying(n), u, u + n);
    }
    forall i: nat | d.Designated(i)
      ensures exists u: nat :: s.Designated(u) && Related(Copying(n), u, i)
    {
      var k :| 0 <= k < |d.designated| && d.designated[k] == i;
      assert s.Designated(s.designated[k]) && Related(Copying(n), s.designated[k], i);
    }
  }

  lemma DoubledBisimilar(l: Labelling, s: StateValue, agent: nat)
    requires s.Valid()
    ensures Bisimilar(l, s, Doubled(s, agent))
  {
    var n, d := |s.worlds|, Doubled(s, agent);
    forall u: nat, i: nat | Related(Copying(n), u, i)
      ensures Matched(l, s, d, Copying(n), u, i)
    {
      CopyingForth(s, agent, i);
      CopyingBack(s, agent, i);
    }
    CopyingTotal(s, agent);
    CopyingPointed(s, agent);
    WitnessSuffices(l, s, d, Copying(n));
  }

  lemma {:induction false} StaysInSecond(s: StateValue, agent: nat, path: seq<nat>)
    requires s.Valid() && IsPath(Doubled(s, agent), agent, path)
    ensures path[|path| - 1] >= |s.worlds|
    decreases |path|
  {
    var d := Doubled(s, agent);
    if |path| > 1 {
      StaysInSecond(s, agent, path[..|path| - 1]);
      assert d.Edge(agent, path[|path| - 2], path[|path| - 1]);
      DoubledEdge(s, agent, agent, path[|path| - 2], path[|path| - 1]);
    } else {
      var k :| 0 <= k < |d.designated| && d.designated[k] == path[0];
    }
  }

  lemma ReachedInSecond(s: StateValue, agent: nat, i: nat)
    requires s.Valid() && i in Reached(Doubled(s, agent), agent)
    ensures i >= |s.worlds|
  {
    var path :| IsPath(Doubled(s, agent), agent, path) && path[|path| - 1] == i;
    StaysInSecond(s, agent, path);
  }

  lemma DoubledPrivate(s: StateValue, agent: nat)
    requires s.Valid()
    ensures Private(Doubled(s, agent), agent)
  {
    var d := Doubled(s, agent);
    forall a: nat | HasInside(d, agent, a)
      ensures a == agent
    {
      var i: nat, j: nat :| i in Reached(d, agent) && j in Reached(d, agent) && d.Edge(a, i, j);
      ReachedInSecond(s, agent, i);
      ReachedInSecond(s, agent, j);
      DoubledEdge(s, agent, a, i, j);
      if a != agent {
        EdgeInRange(s, a, i - |s.worlds|, j);
      }
    }
  }

  // ----- And a bisimilar state whose shift shows one

  lemma AlikeTransitive(l: Labelling, s: StateValue, u: nat, v: nat, w: nat)
    requires Alike(l, s, u, v) && Alike(l, s, v, w)
    ensures Alike(l, s, u, w)
  {
    var z: Pairs :| IsBisimulation(l, s, s, z) && Related(z, u, v);
    var y: Pairs :| IsBisimulation(l, s, s, y) && Related(y, v, w);
    ComposedBisimulation(l, s, s, s, z, y);
    ComposeRelates(z, y, u, v, w);
  }

  lemma AlikeBy(l: Labelling, s: StateValue, z: Pairs, x: nat, y: nat)
    requires IsBisimulation(l, s, s, z) && Related(z, x, y)
    ensures Alike(l, s, x, y)
  {
  }

  lemma AlikeLabels(l: Labelling, s: StateValue, x: nat, y: nat)
    requires Alike(l, s, x, y)
    ensures x < |s.worlds| && y < |s.worlds| && SameLabel(l, s.Props(x), s.Props(y))
  {
    var z: Pairs :| IsBisimulation(l, s, s, z) && Related(z, x, y);
    assert Matched(l, s, s, z, x, y);
  }

  // The largest bisimulation of a state with itself.
  ghost function Largest(l: Labelling, s: StateValue): (z: Pairs)
    ensures forall x: nat, y: nat :: Related(z, x, y) <==> Alike(l, s, x, y)
  {
    forall x: nat, y: nat | Alike(l, s, x, y)
      ensures x in Indices(|s.worlds|) && y in Indices(|s.worlds|)
    {
      AlikeLabels(l, s, x, y);
    }
    set x, y | x in Indices(|s.worlds|) && y in Indices(|s.worlds|) && Alike(l, s, x, y) :: (x, y)
  }

  lemma MatchedMonotone(l: Labelling, s: StateValue, z: Pairs, y: Pairs, u: nat, v: nat)
    requires Matched(l, s, s, z, u, v) && forall p: nat, q: nat :: Related(z, p, q) ==> Related(y, p, q)
    ensures Matched(l, s, s, y, u, v)
  {
  }

  lemma LargestMatched(l: Labelling, s: StateValue, x: nat, y: nat)
    requires Alike(l, s, x, y)
    ensures Matched(l, s, s, Largest(l, s), x, y)
  {
    var z: Pairs :| IsBisimulation(l, s, s, z) && Related(z, x, y);
    forall p: nat, q: nat | Related(z, p, q)
      ensures Related(Largest(l, s), p, q)
    {
      AlikeBy(l, s, z, p, q);
    }
    MatchedMonotone(l, s, z, Largest(l, s), x, y);
  }

  lemma WithRelationEdge(s: StateValue, a: nat, u: nat, v: nat)
    requires a < |s.relations|
    ensures forall b: nat, x: nat, y: nat :: s.WithRelation(a, u, v).Edge(b, x, y)
              <==> s.Edge(b, x, y) || (b == a && x == u && y == v)
  {
  }

  lemma ExtendedForth(s: StateValue, z: Pairs, a: nat, u: nat, v': nat, x: nat, y: nat)
    requires a < |s.relations| && Forth(s, s, z, x, y)
    ensures Forth(s, s.WithRelation(a, u, v'), z, x, y)
  {
    var t := s.WithRelation(a, u, v');
    WithRelationEdge(s, a, u, v');
    forall b: nat, x': nat | s.Edge(b, x, x')
      ensures exists y': nat :: t.Edge(b, y, y') && Related(z, x', y')
    {
      var y' := ForthEdge(s, s, z, x, y, b, x');
      assert t.Edge(b, y, y');
    }
  }

  lemma ExtendedBack(l: Labelling, s: StateValue, a: nat, u: nat, v: nat, v': nat, x: nat, y: nat)
    requires a < |s.relations| && s.Edge(a, u, v) && Alike(l, s, v, v') && Back(s, s, Largest(l, s), x, y)
    ensures Back(s, s.WithRelation(a, u, v'), Largest(l, s), x, y)
  {
    var t, z := s.WithRelation(a, u, v'), Largest(l, s);
    WithRelationEdge(s, a, u, v');
    forall b: nat, y': nat | t.Edge(b, y, y')
      ensures exists x': nat :: s.Edge(b, x, x') && Related(z, x', y')
    {
      if s.Edge(b, y, y') {
        var x' := BackEdge(s, s, z, x, y, b, y');
      } else {
        var x' := BackEdge(s, s, z, x, y, b, v);
        AlikeTransitive(l, s, x', v, v');
      }
    }
  }

  lemma ExtendedValid(s: StateValue, a: nat, u: nat, v: nat)
    requires s.Valid() && a < s.agents && u < |s.worlds| && v < |s.worlds|
    ensures s.WithRelation(a, u, v).Valid()
  {
    var t := s.WithRelation(a, u, v);
    forall b | 0 <= b < s.agents
      ensures RelationsInRange(t.relations[b], |t.worlds|)
    {
      assert RelationsInRange(s.relations[b], |s.worlds|);
    }
  }

  lemma LargestTotal(l: Labelling, s: StateValue, t: StateValue)
    requires s.Valid() && |t.worlds| == |s.worlds|
    ensures Total(s, t, Largest(l, s))
  {
    forall x: nat | x < |s.worlds|
      ensures HasRight(Largest(l, s), x) && HasLeft(Largest(l, s), x)
    {
      AlikeItself(l, s, x);
      assert Related(Largest(l, s), x, x);
    }
  }

  lemma LargestPointed(l: Labelling, s: StateValue, t: StateValue)
    requires s.Valid() && t.designated == s.designated
    ensures Pointed(s, t, Largest(l, s))
  {
    forall x: nat | s.Designated(x)
      ensures t.Designated(x) && Related(Largest(l, s), x, x)
    {
      var k :| 0 <= k < |s.designated| && s.designated[k] == x;
      AlikeItself(l, s, x);
    }
    forall x: nat | t.Designated(x)
      ensures s.Designated(x) && Related(Largest(l, s), x, x)
    {
      assert s.Designated(x);
    }
  }

  lemma ExtendedBisimilar(l: Labelling, s: StateValue, a: nat, u: nat, v: nat, v': nat)
    requires s.Valid() && s.Edge(a, u, v) && Alike(l, s, v, v')
    ensures a < |s.relations| && Bisimilar(l, s, s.WithRelation(a, u, v'))
  {
    var t := s.WithRelation(a, u, v');
    forall x: nat, y: nat | Related(Largest(l, s), x, y)
      ensures Matched(l, s, t, Largest(l, s), x, y)
    {
      LargestMatched(l, s, x, y);
      ExtendedForth(s, Largest(l, s), a, u, v', x, y);
      ExtendedBack(l, s, a, u, v, v', x, y);
    }
    LargestTotal(l, s, t);
    LargestPointed(l, s, t);
    WitnessSuffices(l, s, t, Largest(l, s));
  }

  lemma ExtendedReached(s: StateValue, agent: nat, a: nat, u: nat, v: nat, w: nat)
    requires a < |s.relations| && w in Reached(s, agent)
    ensures w in Reached(s.WithRelation(a, u, v), agent)
  {
    var t := s.WithRelation(a, u, v);
    WithRelationEdge(s, a, u, v);
    var path :| IsPath(s, agent, path) && path[|path| - 1] == w;
    assert t.Designated(path[0]);
    assert IsPath(t, agent, path);
  }

  // ----- Both at once

  lemma InsideShows(enum: Enumeration, s: StateValue, agent: nat, a: nat) returns (i: nat, j: nat)
    requires IsEnumeration(enum) && s.Valid() && agent < s.agents && HasInside(s, agent, a)
    ensures i < |Shift(enum, s, agent).worlds| && Shift(enum, s, agent).Edge(a, i, j)
  {
    ShiftIsCopy(enum, s, agent);
    var xs := enum(Reached(s, agent));
    var u: nat, v: nat :| u in Reached(s, agent) && v in Reached(s, agent) && s.Edge(a, u, v);
    assert u in xs && v in xs;
    i, j := Position(xs, u), Position(xs, v);
  }

  lemma PrivateHides(enum: Enumeration, s: StateValue, agent: nat, a: nat)
    requires IsEnumeration(enum) && s.Valid() && agent < s.agents && Private(s, agent) && a != agent
    ensures forall i: nat, j: nat :: !Shift(enum, s, agent).Edge(a, i, j)
  {
    ShiftIsCopy(enum, s, agent);
    var xs := enum(Reached(s, agent));
    forall i: nat, j: nat | Shift(enum, s, agent).Edge(a, i, j)
      ensures false
    {
      assert xs[i] in xs && xs[j] in xs;
      assert HasInside(s, agent, a);
    }
  }

  // A state with an edge of another agent inside has a bisimilar one with another shift.
  lemma InsideIsLost(l: Labelling, enum: Enumeration, t: StateValue, agent: nat, a: nat)
    requires IsEnumeration(enum) && t.Valid() && agent < t.agents && HasInside(t, agent, a) && a != agent
    ensures Doubled(t, agent).Valid()
    ensures !Bisimilar(l, Shift(enum, Doubled(t, agent), agent), Shift(enum, t, agent))
  {
    DoubledValid(t, agent);
    DoubledPrivate(t, agent);
    PrivateHides(enum, Doubled(t, agent), agent, a);
    var i, j := InsideShows(enum, t, agent, a);
    BlindIsNotSeeing(l, Shift(enum, Doubled(t, agent), agent), Shift(enum, t, agent), a, i, j);
  }

  lemma LeakIsInside(s: StateValue, agent: nat, a: nat, u: nat, v': nat)
    requires a < |s.relations| && u in Reached(s, agent) && v' in Reached(s, agent)
    ensures HasInside(s.WithRelation(a, u, v'), agent, a)
  {
    WithRelationEdge(s, a, u, v');
    ExtendedReached(s, agent, a, u, v', u);
    ExtendedReached(s, agent, a, u, v', v');
  }

  // If both states had shifts like that of s, they would have shifts like each other's.
  lemma NotBothRespected(l: Labelling, enum: Enumeration, s: StateValue, t: StateValue, d: StateValue, agent: nat)
    requires IsEnumeration(enum) && s.Valid() && t.Valid() && d.Valid() && agent < s.agents
    requires Bisimilar(l, s, t) && Bisimilar(l, s, d)
    requires agent < t.agents && agent < d.agents && !Bisimilar(l, Shift(enum, d, agent), Shift(enum, t, agent))
    ensures !ShiftRespected(l, enum, s, agent)
  {
    if ShiftRespected(l, enum, s, agent) {
      Symmetric(l, Shift(enum, s, agent), Shift(enum, d, agent));
      Transitive(l, Shift(enum, d, agent), Shift(enum, s, agent), Shift(enum, t, agent));
    }
  }

  // A leak gives two states that are bisimilar to s, ...
  lemma LeakStates(l: Labelling, s: StateValue, agent: nat, a: nat, u: nat, v: nat, v': nat)
    requires s.Valid() && agent < s.agents && Leaks(l, s, agent, a, u, v, v')
    ensures a < |s.relations| && s.WithRelation(a, u, v').Valid() && Doubled(s.WithRelation(a, u, v'), agent).Valid()
    ensures Bisimilar(l, s, s.WithRelation(a, u, v')) && Bisimilar(l, s, Doubled(s.WithRelation(a, u, v'), agent))
  {
    EdgeInRange(s, a, u, v);
    var t := s.WithRelation(a, u, v');
    ExtendedValid(s, a, u, v');
    ExtendedBisimilar(l, s, a, u, v, v');
    DoubledBisimilar(l, t, agent);
    DoubledValid(t, agent);
    Transitive(l, s, t, Doubled(t, agent));
  }

  // ... and whose shifts are not bisimilar.
  lemma LeakShifts(l: Labelling, enum: Enumeration, s: StateValue, agent: nat, a: nat, u: nat, v': nat)
    requires IsEnumeration(enum) && agent < s.agents && a < |s.relations| && a != agent
    requires u in Reached(s, agent) && v' in Reached(s, agent) && s.WithRelation(a, u, v').Valid()
    ensures Doubled(s.WithRelation(a, u, v'), agent).Valid()
    ensures !Bisimilar(l, Shift(enum, Doubled(s.WithRelation(a, u, v'), agent), agent), Shift(enum, s.WithRelation(a, u, v'), agent))
  {
    LeakIsInside(s, agent, a, u, v');
    InsideIsLost(l, enum, s.WithRelation(a, u, v'), agent, a);
  }

  lemma RivalsBreak(l: Labelling, enum: Enumeration, s: StateValue, agent: nat, a: nat, u: nat, v': nat)
    requires IsEnumeration(enum) && s.Valid() && agent < s.agents && a < |s.relations| && a != agent
    requires u in Reached(s, agent) && v' in Reached(s, agent)
    requires s.WithRelation(a, u, v').Valid() && Doubled(s.WithRelation(a, u, v'), agent).Valid()
    requires Bisimilar(l, s, s.WithRelation(a, u, v')) && Bisimilar(l, s, Doubled(s.WithRelation(a, u, v'), agent))
    ensures !ShiftRespected(l, enum, s, agent)
  {
    LeakShifts(l, enum, s, agent, a, u, v');
    NotBothRespected(l, enum, s, s.WithRelation(a, u, v'), Doubled(s.WithRelation(a, u, v'), agent), agent);
  }

  lemma LeakBreaks(l: Labelling, enum: Enumeration, s: StateValue, agent: nat, a: nat, u: nat, v: nat, v': nat)
    requires IsEnumeration(enum) && s.Valid() && agent < s.agents && Leaks(l, s, agent, a, u, v, v')
    ensures !ShiftRespected(l, enum, s, agent)
  {
    LeakStates(l, s, agent, a, u, v, v');
    RivalsBreak(l, enum, s, agent, a, u, v');
  }

  /** All states that are bisimilar to s have bisimilar shifts if and only if no other agent
      can get from a reached world of s to one that looks like a reached world. */
  lemma ShiftExact(l: Labelling, enum: Enumeration, s: StateValue, agent: nat)
    requires IsEnumeration(enum) && s.Valid() && agent < s.agents
    ensures ShiftRespected(l, enum, s, agent) <==> Secluded(l, s, agent)
  {
    if Secluded(l, s, agent) {
      forall t: StateValue | t.Valid() && Bisimilar(l, s, t)
        ensures Bisimilar(l, Shift(enum, s, agent), Shift(enum, t, agent))
      {
        SecludedSuffices(l, enum, s, t, agent);
      }
    } else {
      var a: nat, u: nat, v: nat, v': nat :| Leaks(l, s, agent, a, u, v, v');
      LeakBreaks(l, enum, s, agent, a, u, v, v');
    }
  }
}
