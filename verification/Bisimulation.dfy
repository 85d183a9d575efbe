/** Bisimilarity of multi-pointed states, as a definition that mentions no
    algorithm, and its consequences. */
module Bisimulation {
  import opened Formulas
  import opened States
  import opened ValuationKey

  // What two related worlds must agree on: their true propositions, or only the
  // string key the partition refinement starts from.
  datatype Labelling = ByValuation | ByKey

  ghost predicate SameLabel(l: Labelling, p: set<string>, q: set<string>) {
    match l
    case ByValuation => p == q
    case ByKey => Key(p) == Key(q)
  }

  type Pairs = set<(nat, nat)>

  ghost predicate Related(z: Pairs, u: nat, v: nat) {
    (u, v) in z
  }

  ghost predicate Forth(s1: StateValue, s2: StateValue, z: Pairs, u: nat, v: nat) {
    forall a: nat, u': nat :: s1.Edge(a, u, u') ==> exists v': nat :: s2.Edge(a, v, v') && Related(z, u', v')
  }

  ghost predicate Back(s1: StateValue, s2: StateValue, z: Pairs, u: nat, v: nat) {
    forall a: nat, v': nat :: s2.Edge(a, v, v') ==> exists u': nat :: s1.Edge(a, u, u') && Related(z, u', v')
  }

  ghost predicate Matched(l: Labelling, s1: StateValue, s2: StateValue, z: Pairs, u: nat, v: nat) {
    && u < |s1.worlds| && v < |s2.worlds|
    && SameLabel(l, s1.Props(u), s2.Props(v))
    && Forth(s1, s2, z, u, v)
    && Back(s1, s2, z, u, v)
  }

  ghost predicate IsBisimulation(l: Labelling, s1: StateValue, s2: StateValue, z: Pairs) {
    forall u: nat, v: nat :: Related(z, u, v) ==> Matched(l, s1, s2, z, u, v)
  }

  ghost predicate HasRight(z: Pairs, u: nat) {
    exists v: nat :: Related(z, u, v)
  }

  ghost predicate HasLeft(z: Pairs, v: nat) {
    exists u: nat :: Related(z, u, v)
  }

  // Total on both sides.
  ghost predicate Total(s1: StateValue, s2: StateValue, z: Pairs) {
    && (forall u: nat :: u < |s1.worlds| ==> HasRight(z, u))
    && (forall v: nat :: v < |s2.worlds| ==> HasLeft(z, v))
  }

  // Every designated world is related to a designated world of the other state.
  ghost predicate Pointed(s1: StateValue, s2: StateValue, z: Pairs) {
    PointedForth(s1, s2, z) && PointedBack(s1, s2, z)
  }

  ghost predicate PointedForth(s1: StateValue, s2: StateValue, z: Pairs) {
    forall u: nat :: s1.Designated(u) ==> exists v: nat :: s2.Designated(v) && Related(z, u, v)
  }

  ghost predicate PointedBack(s1: StateValue, s2: StateValue, z: Pairs) {
    forall v: nat :: s2.Designated(v) ==> exists u: nat :: s1.Designated(u) && Related(z, u, v)
  }

  ghost predicate Witnesses(l: Labelling, s1: StateValue, s2: StateValue, z: Pairs) {
    IsBisimulation(l, s1, s2, z) && Total(s1, s2, z) && Pointed(s1, s2, z)
  }

  ghost predicate Bisimilar(l: Labelling, s1: StateValue, s2: StateValue) {
    s1.agents == s2.agents && exists z: Pairs :: Witnesses(l, s1, s2, z)
  }

  lemma ForthEdge(s: StateValue, t: StateValue, z: Pairs, u: nat, v: nat, a: nat, u': nat) returns (v': nat)
    requires Forth(s, t, z, u, v) && s.Edge(a, u, u')
    ensures t.Edge(a, v, v') && Related(z, u', v')
  {
    v' :| t.Edge(a, v, v') && Related(z, u', v');
  }

  lemma BackEdge(s: StateValue, t: StateValue, z: Pairs, u: nat, v: nat, a: nat, v': nat) returns (u': nat)
    requires Back(s, t, z, u, v) && t.Edge(a, v, v')
    ensures s.Edge(a, u, u') && Related(z, u', v')
  {
    u' :| s.Edge(a, u, u') && Related(z, u', v');
  }

  lemma WitnessSuffices(l: Labelling, s: StateValue, t: StateValue, z: Pairs)
    requires s.agents == t.agents && IsBisimulation(l, s, t, z) && Total(s, t, z) && Pointed(s, t, z)
    ensures Bisimilar(l, s, t)
  {
    assert Witnesses(l, s, t, z);
  }

  // ----- Equivalence

  ghost function Identity(n: nat): (z: Pairs)
    ensures forall u: nat, v: nat :: Related(z, u, v) <==> u < n && u == v
  {
    set u | u in Indices(n) :: (u, u)
  }

  ghost function Grid(n: nat, m: nat): (z: Pairs)
    ensures forall u: nat, v: nat :: Related(z, u, v) <==> u < n && v < m
    ensures forall p :: p in z ==> p.0 < n && p.1 < m
  {
    set u, v | u in Indices(n) && v in Indices(m) :: (u, v)
  }

  lemma IdentityBisimulation(l: Labelling, s: StateValue)
    requires s.Valid()
    ensures IsBisimulation(l, s, s, Identity(|s.worlds|))
  {
    var z := Identity(|s.worlds|);
    forall u: nat, v: nat | Related(z, u, v)
      ensures Matched(l, s, s, z, u, v)
    {
      forall a: nat, u': nat | s.Edge(a, u, u')
        ensures s.Edge(a, v, u') && Related(z, u', u')
      {
        EdgeInRange(s, a, u, u');
      }
    }
  }

  lemma Reflexive(l: Labelling, s: StateValue)
    requires s.Valid()
    ensures Bisimilar(l, s, s)
  {
    var z := Identity(|s.worlds|);
    IdentityBisimulation(l, s);
    forall u: nat | u < |s.worlds|
      ensures HasRight(z, u) && HasLeft(z, u)
    {
      assert Related(z, u, u);
    }
    forall u: nat | s.Designated(u)
      ensures s.Designated(u) && Related(z, u, u)
    {}
    assert Witnesses(l, s, s, z);
  }

  lemma EdgeInRange(s: StateValue, a: nat, u: nat, v: nat)
    requires s.Valid() && s.Edge(a, u, v)
    ensures u < |s.worlds| && v < |s.worlds| && a < s.agents
  {
    assert RelationsInRange(s.relations[a], |s.worlds|);
    var i :| 0 <= i < |s.relations[a]| && s.relations[a][i] == WorldRelation(u, v);
  }

  ghost function Inverse(z: Pairs): (r: Pairs)
    ensures forall u: nat, v: nat :: Related(r, v, u) <==> Related(z, u, v)
  {
    set p | p in z :: (p.1, p.0)
  }

  lemma InverseBisimulation(l: Labelling, s: StateValue, t: StateValue, z: Pairs)
    requires IsBisimulation(l, s, t, z)
    ensures IsBisimulation(l, t, s, Inverse(z))
  {
    forall v: nat, u: nat | Related(Inverse(z), v, u)
      ensures Matched(l, t, s, Inverse(z), v, u)
    {
      assert Matched(l, s, t, z, u, v);
    }
  }

  lemma Symmetric(l: Labelling, s1: StateValue, s2: StateValue)
    requires Bisimilar(l, s1, s2)
    ensures Bisimilar(l, s2, s1)
  {
    var z :| Witnesses(l, s1, s2, z);
    var r := Inverse(z);
    InverseBisimulation(l, s1, s2, z);
    forall u: nat | HasRight(z, u)
      ensures HasLeft(r, u)
    {
      var v: nat :| Related(z, u, v);
      assert Related(r, v, u);
    }
    forall v: nat | HasLeft(z, v)
      ensures HasRight(r, v)
    {
      var u: nat :| Related(z, u, v);
      assert Related(r, v, u);
    }
    assert Witnesses(l, s2, s1, r);
  }

  ghost function Compose(z: Pairs, y: Pairs): (r: Pairs) {
    set p, q | p in z && q in y && p.1 == q.0 :: (p.0, q.1)
  }

  lemma ComposeRelates(z: Pairs, y: Pairs, u: nat, v: nat, w: nat)
    requires Related(z, u, v) && Related(y, v, w)
    ensures Related(Compose(z, y), u, w)
  {
    var p, q := (u, v), (v, w);
    assert p in z && q in y && p.1 == q.0;
  }

  lemma ComposeMiddle(z: Pairs, y: Pairs, u: nat, w: nat) returns (v: nat)
    requires Related(Compose(z, y), u, w)
    ensures Related(z, u, v) && Related(y, v, w)
  {
    var p, q :| p in z && q in y && p.1 == q.0 && (u, w) == (p.0, q.1);
    v := p.1;
    assert p == (u, v) && q == (v, w);
  }

  lemma ComposeForth(s1: StateValue, s2: StateValue, s3: StateValue, z: Pairs, y: Pairs, u: nat, v: nat, w: nat)
    requires Forth(s1, s2, z, u, v) && Forth(s2, s3, y, v, w)
    ensures Forth(s1, s3, Compose(z, y), u, w)
  {
    forall a: nat, u': nat | s1.Edge(a, u, u')
      ensures exists w': nat :: s3.Edge(a, w, w') && Related(Compose(z, y), u', w')
    {
      var v': nat :| s2.Edge(a, v, v') && Related(z, u', v');
      var w': nat :| s3.Edge(a, w, w') && Related(y, v', w');
      ComposeRelates(z, y, u', v', w');
    }
  }

  lemma ComposeBack(s1: StateValue, s2: StateValue, s3: StateValue, z: Pairs, y: Pairs, u: nat, v: nat, w: nat)
    requires Back(s1, s2, z, u, v) && Back(s2, s3, y, v, w)
    ensures Back(s1, s3, Compose(z, y), u, w)
  {
    forall a: nat, w': nat | s3.Edge(a, w, w')
      ensures exists u': nat :: s1.Edge(a, u, u') && Related(Compose(z, y), u', w')
    {
      var v': nat :| s2.Edge(a, v, v') && Related(y, v', w');
      var u': nat :| s1.Edge(a, u, u') && Related(z, u', v');
      ComposeRelates(z, y, u', v', w');
    }
  }

  lemma ComposedBisimulation(l: Labelling, s1: StateValue, s2: StateValue, s3: StateValue, z: Pairs, y: Pairs)
    requires IsBisimulation(l, s1, s2, z) && IsBisimulation(l, s2, s3, y)
    ensures IsBisimulation(l, s1, s3, Compose(z, y))
  {
    forall u: nat, w: nat | Related(Compose(z, y), u, w)
      ensures Matched(l, s1, s3, Compose(z, y), u, w)
    {
      var v := ComposeMiddle(z, y, u, w);
      assert Matched(l, s1, s2, z, u, v) && Matched(l, s2, s3, y, v, w);
      ComposeForth(s1, s2, s3, z, y, u, v, w);
      ComposeBack(s1, s2, s3, z, y, u, v, w);
    }
  }

  lemma ComposePointedForth(s1: StateValue, s2: StateValue, s3: StateValue, z: Pairs, y: Pairs)
    requires PointedForth(s1, s2, z) && PointedForth(s2, s3, y)
    ensures PointedForth(s1, s3, Compose(z, y))
  {
    forall u: nat | s1.Designated(u)
      ensures exists w: nat :: s3.Designated(w) && Related(Compose(z, y), u, w)
    {
      var v: nat :| s2.Designated(v) && Related(z, u, v);
      var w: nat :| s3.Designated(w) && Related(y, v, w);
      ComposeRelates(z, y, u, v, w);
    }
  }

  lemma ComposePointedBack(s1: StateValue, s2: StateValue, s3: StateValue, z: Pairs, y: Pairs)
    requires PointedBack(s1, s2, z) && PointedBack(s2, s3, y)
    ensures PointedBack(s1, s3, Compose(z, y))
  {
    forall w: nat | s3.Designated(w)
      ensures exists u: nat :: s1.Designated(u) && Related(Compose(z, y), u, w)
    {
      var v: nat :| s2.Designated(v) && Related(y, v, w);
      var u: nat :| s1.Designated(u) && Related(z, u, v);
      ComposeRelates(z, y, u, v, w);
    }
  }

  lemma ComposeTotal(l: Labelling, s1: StateValue, s2: StateValue, s3: StateValue, z: Pairs, y: Pairs)
    requires IsBisimulation(l, s1, s2, z) && IsBisimulation(l, s2, s3, y)
    requires Total(s1, s2, z) && Total(s2, s3, y)
    ensures Total(s1, s3, Compose(z, y))
  {
    var r := Compose(z, y);
    forall u: nat | 0 <= u < |s1.worlds|
      ensures HasRight(r, u)
    {
      assert HasRight(z, u);
      var v: nat :| Related(z, u, v);
      assert Matched(l, s1, s2, z, u, v);
      assert HasRight(y, v);
      var w: nat :| Related(y, v, w);
      ComposeRelates(z, y, u, v, w);
    }
    forall w: nat | 0 <= w < |s3.worlds|
      ensures HasLeft(r, w)
    {
      assert HasLeft(y, w);
      var v: nat :| Related(y, v, w);
      assert Matched(l, s2, s3, y, v, w);
      assert HasLeft(z, v);
      var u: nat :| Related(z, u, v);
      ComposeRelates(z, y, u, v, w);
    }
  }

  lemma Transitive(l: Labelling, s1: StateValue, s2: StateValue, s3: StateValue)
    requires Bisimilar(l, s1, s2) && Bisimilar(l, s2, s3)
    ensures Bisimilar(l, s1, s3)
  {
    var z :| Witnesses(l, s1, s2, z);
    var y :| Witnesses(l, s2, s3, y);
    var r := Compose(z, y);
    ComposedBisimulation(l, s1, s2, s3, z, y);
    ComposeTotal(l, s1, s2, s3, z, y);
    ComposePointedForth(s1, s2, s3, z, y);
    ComposePointedBack(s1, s2, s3, z, y);
    assert Witnesses(l, s1, s3, r);
  }

  // ----- Invariance of truth

  lemma SatisfiesForth(s1: StateValue, s2: StateValue, z: Pairs, formula: FormulaValue)
    requires s1.Valid() && s2.Valid() && formula.Valid()
    requires IsBisimulation(ByValuation, s1, s2, z) && PointedBack(s1, s2, z)
    requires s1.Satisfies(formula)
    ensures s2.Satisfies(formula)
  {
    forall i | 0 <= i < |s2.designated|
      ensures formula.Satisfied(s2.Props(s2.designated[i]))
    {
      var v := s2.designated[i];
      assert s2.Designated(v);
      var u: nat :| s1.Designated(u) && Related(z, u, v);
      assert Matched(ByValuation, s1, s2, z, u, v);
      var j :| 0 <= j < |s1.designated| && s1.designated[j] == u;
    }
  }

  /** Bisimilar states satisfy the same formulas. */
  lemma BisimilarStatesAgree(s1: StateValue, s2: StateValue, formula: FormulaValue)
    requires s1.Valid() && s2.Valid() && formula.Valid()
    requires Bisimilar(ByValuation, s1, s2)
    ensures s1.Satisfies(formula) <==> s2.Satisfies(formula)
  {
    Symmetric(ByValuation, s1, s2);
    var z :| Witnesses(ByValuation, s1, s2, z);
    if s1.Satisfies(formula) {
      SatisfiesForth(s1, s2, z, formula);
    }
    var y :| Witnesses(ByValuation, s2, s1, y);
    if s2.Satisfies(formula) {
      SatisfiesForth(s2, s1, y, formula);
    }
  }

  // ----- When agreeing on keys is as good as agreeing on valuations

  ghost predicate ValuationsIn(s: StateValue, valuations: iset<set<string>>) {
    forall w: nat :: 0 <= w < |s.worlds| ==> s.worlds[w].props in valuations
  }

  lemma Relabel(l: Labelling, k: Labelling, s1: StateValue, s2: StateValue)
    requires Bisimilar(l, s1, s2)
    requires forall u: nat, v: nat :: 0 <= u < |s1.worlds| && 0 <= v < |s2.worlds| && SameLabel(l, s1.Props(u), s2.Props(v)) ==>
               SameLabel(k, s1.Props(u), s2.Props(v))
    ensures Bisimilar(k, s1, s2)
  {
    var z :| Witnesses(l, s1, s2, z);
    forall u: nat, v: nat | Related(z, u, v)
      ensures Matched(k, s1, s2, z, u, v)
    {
      assert Matched(l, s1, s2, z, u, v);
    }
    assert Witnesses(k, s1, s2, z);
  }

  lemma ValuationImpliesKey(s1: StateValue, s2: StateValue)
    requires Bisimilar(ByValuation, s1, s2)
    ensures Bisimilar(ByKey, s1, s2)
  {
    Relabel(ByValuation, ByKey, s1, s2);
  }

  lemma InjectiveKeySuffices(valuations: iset<set<string>>, s1: StateValue, s2: StateValue)
    requires InjectiveOn(valuations) && ValuationsIn(s1, valuations) && ValuationsIn(s2, valuations)
    ensures Bisimilar(ByKey, s1, s2) <==> Bisimilar(ByValuation, s1, s2)
  {
    if Bisimilar(ByKey, s1, s2) {
      forall u: nat, v: nat | 0 <= u < |s1.worlds| && 0 <= v < |s2.worlds| && SameLabel(ByKey, s1.Props(u), s2.Props(v))
        ensures SameLabel(ByValuation, s1.Props(u), s2.Props(v))
      {
        assert s1.worlds[u].props in valuations && s2.worlds[v].props in valuations;
      }
      Relabel(ByKey, ByValuation, s1, s2);
    }
    if Bisimilar(ByValuation, s1, s2) {
      ValuationImpliesKey(s1, s2);
    }
  }

  // A single designated world with the given valuation.
  function Single(props: set<string>): (s: StateValue) {
    StateValue(0, [World(0, props)], [0], [])
  }

  lemma SinglesByKey(p: set<string>, q: set<string>)
    requires Key(p) == Key(q)
    ensures Bisimilar(ByKey, Single(p), Single(q))
  {
    var s, t := Single(p), Single(q);
    var z := Identity(1);
    assert Related(z, 0, 0);
    assert HasRight(z, 0) && HasLeft(z, 0);
    assert Total(s, t, z);
    assert s.designated == t.designated == [0];
    assert forall u: nat :: s.Designated(u) <==> u == 0;
    assert forall u: nat :: t.Designated(u) <==> u == 0;
    assert Pointed(s, t, z);
    assert Matched(ByKey, s, t, z, 0, 0);
    assert IsBisimulation(ByKey, s, t, z);
    assert Witnesses(ByKey, s, t, z);
  }

  lemma SinglesByValuation(p: set<string>, q: set<string>)
    requires p != q
    ensures !Bisimilar(ByValuation, Single(p), Single(q))
  {
    var s, t := Single(p), Single(q);
    forall z | IsBisimulation(ByValuation, s, t, z)
      ensures !HasRight(z, 0)
    {
      assert forall v: nat :: !Matched(ByValuation, s, t, z, 0, v);
    }
  }

  ghost predicate KeyExactOver(valuations: iset<set<string>>) {
    forall s1: StateValue, s2: StateValue ::
      s1.Valid() && s2.Valid() && ValuationsIn(s1, valuations) && ValuationsIn(s2, valuations) ==>
        (Bisimilar(ByKey, s1, s2) <==> Bisimilar(ByValuation, s1, s2))
  }

  /** Deciding by keys is exact over a universe of valuations precisely when the
      key is injective on that universe. */
  lemma KeyExactIffInjective(valuations: iset<set<string>>)
    ensures KeyExactOver(valuations) <==> InjectiveOn(valuations)
  {
    if InjectiveOn(valuations) {
      forall s1: StateValue, s2: StateValue | ValuationsIn(s1, valuations) && ValuationsIn(s2, valuations)
        ensures Bisimilar(ByKey, s1, s2) <==> Bisimilar(ByValuation, s1, s2)
      {
        InjectiveKeySuffices(valuations, s1, s2);
      }
    }
    if KeyExactOver(valuations) {
      forall p, q | p in valuations && q in valuations && Key(p) == Key(q)
        ensures p == q
      {
        if p != q {
          SinglesByKey(p, q);
          SinglesByValuation(p, q);
          assert false by {
            assert ValuationsIn(Single(p), valuations) && ValuationsIn(Single(q), valuations);
          }
        }
      }
    }
  }

  /** Concretely: a world where "a" and "b" hold passes for one where "ab" holds. */
  lemma KeyConfusesStates()
    ensures exists s1: StateValue, s2: StateValue ::
      s1.Valid() && s2.Valid() && Bisimilar(ByKey, s1, s2) && !Bisimilar(ByValuation, s1, s2)
  {
    KeyCollision();
    SinglesByKey({"a", "b"}, {"ab"});
    SinglesByValuation({"a", "b"}, {"ab"});
    assert Single({"a", "b"}).Valid() && Single({"ab"}).Valid();
  }
}
