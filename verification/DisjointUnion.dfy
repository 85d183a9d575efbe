/** The disjoint union of two states as one model, and what a sound, stable
    partition of it says about the bisimilarity of the two states. */
module DisjointUnion {
  import opened Bisimulation
  import opened Partitions
  import opened States
  import opened ValuationKey

  // Worlds of the first state come first, those of the second are shifted.
  ghost predicate UnionLabels(s1: StateValue, s2: StateValue, m: Model) {
    && |m.labels| == |s1.worlds| + |s2.worlds|
    && (forall u: nat {:trigger LabelledBy(m, u, s1, u)} :: u < |s1.worlds| ==> LabelledBy(m, u, s1, u))
    && (forall v: nat, w: nat {:trigger LabelledBy(m, w, s2, v)} :: v < |s2.worlds| && w == |s1.worlds| + v ==> LabelledBy(m, w, s2, v))
  }

  // World w of the union carries the key of world u of the state.
  ghost predicate LabelledBy(m: Model, w: nat, s: StateValue, u: nat)
    requires w < |m.labels| && u < |s.worlds|
  {
    m.labels[w] == Key(s.Props(u))
  }

  ghost predicate UnionEdge(s1: StateValue, s2: StateValue, a: nat, u: nat, v: nat) {
    var n := |s1.worlds|;
    || (u < n && v < n && s1.Edge(a, u, v))
    || (u >= n && v >= n && s2.Edge(a, u - n, v - n))
  }

  ghost predicate UnionRelations(s1: StateValue, s2: StateValue, m: Model) {
    && |m.succ| == s1.agents
    && forall a: nat, u: nat, v: nat :: a < s1.agents ==> (v in m.Succ(a, u) <==> UnionEdge(s1, s2, a, u, v))
  }

  ghost predicate IsUnion(s1: StateValue, s2: StateValue, m: Model) {
    && s1.Valid() && s2.Valid() && s1.agents == s2.agents
    && UnionLabels(s1, s2, m) && UnionRelations(s1, s2, m)
  }

  lemma UnionValid(s1: StateValue, s2: StateValue, m: Model)
    requires IsUnion(s1, s2, m)
    ensures m.Valid()
  {
    forall a: nat, u: nat, v: nat | v in m.Succ(a, u)
      ensures v < |m.labels|
    {
      assert UnionEdge(s1, s2, a, u, v);
      var n := |s1.worlds|;
      if u >= n {
        EdgeInRange(s2, a, u - n, v - n);
      }
    }
  }

  // ----- From a bisimulation between the states to one of their union

  ghost function Shift(z: Pairs, n: nat): (r: Pairs) {
    set p | p in z :: (p.0, n + p.1)
  }

  lemma ShiftIn(z: Pairs, n: nat, u: nat, v: nat)
    requires Related(z, u, v)
    ensures Related(Shift(z, n), u, n + v)
  {
    var p := (u, v);
    assert p in z && (p.0, n + p.1) in Shift(z, n);
  }

  lemma ShiftOut(z: Pairs, n: nat, u: nat, w: nat)
    requires Related(Shift(z, n), u, w)
    ensures w >= n && Related(z, u, w - n)
  {
    var p :| p in z && (u, w) == (p.0, n + p.1);
    assert p == (u, w - n);
  }

  lemma ShiftSimulates(s1: StateValue, s2: StateValue, m: Model, z: Pairs, u: nat, v: nat)
    requires IsUnion(s1, s2, m) && u < |s1.worlds|
    requires Forth(s1, s2, z, u, v)
    ensures Simulates(m, Shift(z, |s1.worlds|), u, |s1.worlds| + v)
  {
    var n, r := |s1.worlds|, Shift(z, |s1.worlds|);
    forall a: nat, u': nat | u' in m.Succ(a, u)
      ensures exists w: nat :: w in m.Succ(a, n + v) && Related(r, u', w)
    {
      assert UnionEdge(s1, s2, a, u, u');
      var v': nat :| s2.Edge(a, v, v') && Related(z, u', v');
      var w: nat := n + v';
      assert UnionEdge(s1, s2, a, n + v, w);
      ShiftIn(z, n, u', v');
      assert w in m.Succ(a, n + v) && Related(r, u', w);
    }
  }

  lemma ShiftSimulatedBy(s1: StateValue, s2: StateValue, m: Model, z: Pairs, u: nat, v: nat)
    requires IsUnion(s1, s2, m) && u < |s1.worlds|
    requires Back(s1, s2, z, u, v)
    ensures SimulatedBy(m, Shift(z, |s1.worlds|), u, |s1.worlds| + v)
  {
    var n, r := |s1.worlds|, Shift(z, |s1.worlds|);
    var nv: nat := n + v;
    forall a: nat, w: nat | w in m.Succ(a, nv)
      ensures exists u': nat :: u' in m.Succ(a, u) && Related(r, u', w)
    {
      assert UnionEdge(s1, s2, a, nv, w);
      var v': nat := w - n;
      assert s2.Edge(a, v, v');
      var u': nat :| s1.Edge(a, u, u') && Related(z, u', v');
      EdgeInRange(s1, a, u, u');
      assert UnionEdge(s1, s2, a, u, u');
      ShiftIn(z, n, u', v');
    }
  }

  lemma ShiftIsAutobisimulation(s1: StateValue, s2: StateValue, m: Model, z: Pairs)
    requires IsUnion(s1, s2, m) && IsBisimulation(ByKey, s1, s2, z)
    ensures IsAutobisimulation(m, Shift(z, |s1.worlds|))
  {
    var n := |s1.worlds|;
    forall u: nat, w: nat | Related(Shift(z, n), u, w)
      ensures PairFits(m, Shift(z, n), u, w)
    {
      ShiftOut(z, n, u, w);
      var v: nat := w - n;
      assert Matched(ByKey, s1, s2, z, u, v);
      ShiftPairFits(s1, s2, m, z, u, v);
    }
  }

  lemma ShiftPairFits(s1: StateValue, s2: StateValue, m: Model, z: Pairs, u: nat, v: nat)
    requires IsUnion(s1, s2, m) && Matched(ByKey, s1, s2, z, u, v)
    ensures PairFits(m, Shift(z, |s1.worlds|), u, |s1.worlds| + v)
  {
    var w: nat := |s1.worlds| + v;
    assert LabelledBy(m, u, s1, u) && LabelledBy(m, w, s2, v);
    ShiftSimulates(s1, s2, m, z, u, v);
    ShiftSimulatedBy(s1, s2, m, z, u, v);
  }

  lemma RelatedShareBlock(s1: StateValue, s2: StateValue, m: Model, block: BlockMap, z: Pairs)
    requires IsUnion(s1, s2, m) && IsBisimulation(ByKey, s1, s2, z)
    requires Assigns(|m.labels|, block) && Sound(m, block)
    ensures forall u: nat, v: nat :: Related(z, u, v) ==>
              u < |s1.worlds| && v < |s2.worlds| && block[u] == block[|s1.worlds| + v]
  {
    var n := |s1.worlds|;
    ShiftIsAutobisimulation(s1, s2, m, z);
    forall u: nat, v: nat | Related(z, u, v)
      ensures u < |s1.worlds| && v < |s2.worlds| && block[u] == block[|s1.worlds| + v]
    {
      assert Matched(ByKey, s1, s2, z, u, v);
      ShiftIn(z, n, u, v);
      assert BisimilarWorlds(m, u, n + v);
    }
  }

  // ----- From a partition of the union to a bisimulation between the states

  ghost function Across(n1: nat, n2: nat, block: BlockMap): (z: Pairs)
    requires Assigns(n1 + n2, block)
  {
    set p | p in Grid(n1, n2) && block[p.0] == block[n1 + p.1]
  }

  lemma AcrossIn(n1: nat, n2: nat, block: BlockMap, u: nat, w: nat)
    requires Assigns(n1 + n2, block) && u < n1 <= w < n1 + n2 && block[u] == block[w]
    ensures Related(Across(n1, n2, block), u, w - n1)
  {
    var p := (u, w - n1);
    assert Related(Grid(n1, n2), u, w - n1);
    assert n1 + p.1 == w;
  }

  lemma AcrossOut(n1: nat, n2: nat, block: BlockMap, u: nat, v: nat)
    requires Assigns(n1 + n2, block) && Related(Across(n1, n2, block), u, v)
    ensures u < n1 && v < n2 && block[u] == block[n1 + v]
  {
    assert (u, v) in Across(n1, n2, block);
  }

  lemma AcrossForthStep(
    s1: StateValue, s2: StateValue, m: Model, block: BlockMap, a: nat, u: nat, v: nat, u': nat) returns (v': nat)
    requires s1.Valid() && s2.Valid() && UnionRelations(s1, s2, m) && m.Valid()
    requires |m.labels| == |s1.worlds| + |s2.worlds| && Assigns(|m.labels|, block)
    requires u < |s1.worlds| && v < |s2.worlds|
    requires SameSignature(m, block, u, |s1.worlds| + v)
    requires s1.Edge(a, u, u')
    ensures s2.Edge(a, v, v') && Related(Across(|s1.worlds|, |s2.worlds|, block), u', v')
  {
    var n := |s1.worlds|;
    EdgeInRange(s1, a, u, u');
    assert UnionEdge(s1, s2, a, u, u');
    var w := SignatureMatch(m, block, a, u, n + v, u');
    assert UnionEdge(s1, s2, a, n + v, w);
    v' := w - n;
    EdgeInRange(s2, a, v, v');
    AcrossIn(n, |s2.worlds|, block, u', w);
  }

  lemma AcrossForth(s1: StateValue, s2: StateValue, m: Model, block: BlockMap, u: nat, v: nat)
    requires s1.Valid() && s2.Valid() && UnionRelations(s1, s2, m) && m.Valid()
    requires |m.labels| == |s1.worlds| + |s2.worlds| && Assigns(|m.labels|, block)
    requires u < |s1.worlds| && v < |s2.worlds|
    requires SameSignature(m, block, u, |s1.worlds| + v)
    ensures Forth(s1, s2, Across(|s1.worlds|, |s2.worlds|, block), u, v)
  {
    forall a: nat, u': nat | s1.Edge(a, u, u')
      ensures exists v': nat :: s2.Edge(a, v, v') && Related(Across(|s1.worlds|, |s2.worlds|, block), u', v')
    {
      var v' := AcrossForthStep(s1, s2, m, block, a, u, v, u');
    }
  }

  lemma AcrossBackStep(
    s1: StateValue, s2: StateValue, m: Model, block: BlockMap, a: nat, u: nat, v: nat, v': nat) returns (u': nat)
    requires s2.Valid() && s1.agents == s2.agents && UnionRelations(s1, s2, m) && m.Valid()
    requires |m.labels| == |s1.worlds| + |s2.worlds| && Assigns(|m.labels|, block)
    requires u < |s1.worlds| && v < |s2.worlds|
    requires SameSignature(m, block, |s1.worlds| + v, u)
    requires s2.Edge(a, v, v')
    ensures s1.Edge(a, u, u') && Related(Across(|s1.worlds|, |s2.worlds|, block), u', v')
  {
    var n := |s1.worlds|;
    EdgeInRange(s2, a, v, v');
    assert UnionEdge(s1, s2, a, n + v, n + v');
    u' := SignatureMatch(m, block, a, n + v, u, n + v');
    assert UnionEdge(s1, s2, a, u, u');
    AcrossIn(n, |s2.worlds|, block, u', n + v');
  }

  lemma AcrossBack(s1: StateValue, s2: StateValue, m: Model, block: BlockMap, u: nat, v: nat)
    requires s2.Valid() && s1.agents == s2.agents && UnionRelations(s1, s2, m) && m.Valid()
    requires |m.labels| == |s1.worlds| + |s2.worlds| && Assigns(|m.labels|, block)
    requires u < |s1.worlds| && v < |s2.worlds|
    requires SameSignature(m, block, |s1.worlds| + v, u)
    ensures Back(s1, s2, Across(|s1.worlds|, |s2.worlds|, block), u, v)
  {
    forall a: nat, v': nat | s2.Edge(a, v, v')
      ensures exists u': nat :: s1.Edge(a, u, u') && Related(Across(|s1.worlds|, |s2.worlds|, block), u', v')
    {
      var u' := AcrossBackStep(s1, s2, m, block, a, u, v, v');
    }
  }

  ghost predicate AcrossLabelled(s1: StateValue, s2: StateValue, z: Pairs) {
    forall u: nat, v: nat :: Related(z, u, v) ==>
      u < |s1.worlds| && v < |s2.worlds| && SameLabel(ByKey, s1.Props(u), s2.Props(v))
  }

  ghost predicate AllForth(s1: StateValue, s2: StateValue, z: Pairs) {
    forall u: nat, v: nat :: Related(z, u, v) ==> Forth(s1, s2, z, u, v)
  }

  ghost predicate AllBack(s1: StateValue, s2: StateValue, z: Pairs) {
    forall u: nat, v: nat :: Related(z, u, v) ==> Back(s1, s2, z, u, v)
  }

  lemma AcrossIsLabelled(s1: StateValue, s2: StateValue, m: Model, block: BlockMap)
    requires UnionLabels(s1, s2, m) && Assigns(|m.labels|, block) && RefinesLabels(m, block)
    ensures AcrossLabelled(s1, s2, Across(|s1.worlds|, |s2.worlds|, block))
  {
    var n := |s1.worlds|;
    forall u: nat, v: nat | Related(Across(n, |s2.worlds|, block), u, v)
      ensures u < n && v < |s2.worlds| && SameLabel(ByKey, s1.Props(u), s2.Props(v))
    {
      AcrossOut(n, |s2.worlds|, block, u, v);
      var w: nat := n + v;
      assert m.labels[u] == m.labels[w];
      assert LabelledBy(m, u, s1, u) && LabelledBy(m, w, s2, v);
    }
  }

  lemma AcrossForthPair(s1: StateValue, s2: StateValue, m: Model, block: BlockMap, u: nat, v: nat)
    requires s1.Valid() && s2.Valid() && UnionRelations(s1, s2, m) && m.Valid()
    requires |m.labels| == |s1.worlds| + |s2.worlds| && Assigns(|m.labels|, block) && Stable(m, block)
    requires Related(Across(|s1.worlds|, |s2.worlds|, block), u, v)
    ensures Forth(s1, s2, Across(|s1.worlds|, |s2.worlds|, block), u, v)
  {
    var n := |s1.worlds|;
    AcrossOut(n, |s2.worlds|, block, u, v);
    assert SameSignature(m, block, u, n + v);
    AcrossForth(s1, s2, m, block, u, v);
  }

  lemma AcrossAllForth(s1: StateValue, s2: StateValue, m: Model, block: BlockMap)
    requires s1.Valid() && s2.Valid() && UnionRelations(s1, s2, m) && m.Valid()
    requires |m.labels| == |s1.worlds| + |s2.worlds| && Assigns(|m.labels|, block) && Stable(m, block)
    ensures AllForth(s1, s2, Across(|s1.worlds|, |s2.worlds|, block))
  {
    var z := Across(|s1.worlds|, |s2.worlds|, block);
    forall u: nat, v: nat | Related(z, u, v)
      ensures Forth(s1, s2, z, u, v)
    {
      AcrossForthPair(s1, s2, m, block, u, v);
    }
  }

  lemma AcrossBackPair(s1: StateValue, s2: StateValue, m: Model, block: BlockMap, u: nat, v: nat)
    requires s2.Valid() && s1.agents == s2.agents && UnionRelations(s1, s2, m) && m.Valid()
    requires |m.labels| == |s1.worlds| + |s2.worlds| && Assigns(|m.labels|, block) && Stable(m, block)
    requires Related(Across(|s1.worlds|, |s2.worlds|, block), u, v)
    ensures Back(s1, s2, Across(|s1.worlds|, |s2.worlds|, block), u, v)
  {
    var n := |s1.worlds|;
    AcrossOut(n, |s2.worlds|, block, u, v);
    assert SameSignature(m, block, n + v, u);
    AcrossBack(s1, s2, m, block, u, v);
  }

  lemma AcrossAllBack(s1: StateValue, s2: StateValue, m: Model, block: BlockMap)
    requires s2.Valid() && s1.agents == s2.agents && UnionRelations(s1, s2, m) && m.Valid()
    requires |m.labels| == |s1.worlds| + |s2.worlds| && Assigns(|m.labels|, block) && Stable(m, block)
    ensures AllBack(s1, s2, Across(|s1.worlds|, |s2.worlds|, block))
  {
    var z := Across(|s1.worlds|, |s2.worlds|, block);
    forall u: nat, v: nat | Related(z, u, v)
      ensures Back(s1, s2, z, u, v)
    {
      AcrossBackPair(s1, s2, m, block, u, v);
    }
  }

  lemma MatchedEverywhere(s1: StateValue, s2: StateValue, z: Pairs)
    requires AcrossLabelled(s1, s2, z) && AllForth(s1, s2, z) && AllBack(s1, s2, z)
    ensures IsBisimulation(ByKey, s1, s2, z)
  {
  }

  lemma AcrossIsBisimulation(s1: StateValue, s2: StateValue, m: Model, block: BlockMap)
    requires IsUnion(s1, s2, m) && Assigns(|m.labels|, block) && RefinesLabels(m, block) && Stable(m, block)
    ensures IsBisimulation(ByKey, s1, s2, Across(|s1.worlds|, |s2.worlds|, block))
  {
    UnionValid(s1, s2, m);
    AcrossIsLabelled(s1, s2, m, block);
    AcrossAllForth(s1, s2, m, block);
    AcrossAllBack(s1, s2, m, block);
    MatchedEverywhere(s1, s2, Across(|s1.worlds|, |s2.worlds|, block));
  }

  // ----- The verdict

  ghost predicate Inhabited(block: BlockMap, b: nat) {
    exists w: nat :: w in block && block[w] == b
  }

  ghost predicate HasFirst(s1: StateValue, block: BlockMap, b: nat) {
    exists u: nat :: u in block && block[u] == b && u < |s1.worlds|
  }

  ghost predicate HasSecond(s1: StateValue, s2: StateValue, block: BlockMap, b: nat) {
    exists w: nat :: w in block && block[w] == b && |s1.worlds| <= w < |s1.worlds| + |s2.worlds|
  }

  ghost predicate HasDesignatedFirst(s1: StateValue, block: BlockMap, b: nat) {
    exists u: nat :: u in block && block[u] == b && s1.Designated(u)
  }

  ghost predicate HasDesignatedSecond(s1: StateValue, s2: StateValue, block: BlockMap, b: nat) {
    exists w: nat :: w in block && block[w] == b && w >= |s1.worlds| && s2.Designated(w - |s1.worlds|)
  }

  // A block with worlds of both states, and designated ones of both or of neither.
  ghost predicate Balanced(s1: StateValue, s2: StateValue, block: BlockMap, b: nat) {
    && HasFirst(s1, block, b)
    && HasSecond(s1, s2, block, b)
    && (HasDesignatedFirst(s1, block, b) <==> HasDesignatedSecond(s1, s2, block, b))
  }

  lemma DesignatedInRange(s: StateValue, w: nat)
    requires s.Valid() && s.Designated(w)
    ensures w < |s.worlds|
  {
    var i :| 0 <= i < |s.designated| && s.designated[i] == w;
  }

  lemma BalancedRight(s1: StateValue, s2: StateValue, block: BlockMap, u: nat)
    requires Assigns(|s1.worlds| + |s2.worlds|, block)
    requires u < |s1.worlds| && HasSecond(s1, s2, block, block[u])
    ensures HasRight(Across(|s1.worlds|, |s2.worlds|, block), u)
  {
    var n := |s1.worlds|;
    var w: nat :| w in block && block[w] == block[u] && n <= w < n + |s2.worlds|;
    AcrossIn(n, |s2.worlds|, block, u, w);
  }

  lemma BalancedLeft(s1: StateValue, s2: StateValue, block: BlockMap, v: nat)
    requires Assigns(|s1.worlds| + |s2.worlds|, block)
    requires v < |s2.worlds| && HasFirst(s1, block, block[|s1.worlds| + v])
    ensures HasLeft(Across(|s1.worlds|, |s2.worlds|, block), v)
  {
    var w: nat := |s1.worlds| + v;
    var u: nat :| u in block && block[u] == block[w] && u < |s1.worlds|;
    AcrossIn(|s1.worlds|, |s2.worlds|, block, u, w);
  }

  lemma BalancedTotal(s1: StateValue, s2: StateValue, block: BlockMap, count: nat)
    requires Assigns(|s1.worlds| + |s2.worlds|, block)
    requires forall w: nat :: w in block ==> block[w] < count
    requires forall b: nat :: b < count ==> Balanced(s1, s2, block, b)
    ensures Total(s1, s2, Across(|s1.worlds|, |s2.worlds|, block))
  {
    forall u: nat | u < |s1.worlds|
      ensures HasRight(Across(|s1.worlds|, |s2.worlds|, block), u)
    {
      assert Balanced(s1, s2, block, block[u]);
      BalancedRight(s1, s2, block, u);
    }
    forall v: nat | v < |s2.worlds|
      ensures HasLeft(Across(|s1.worlds|, |s2.worlds|, block), v)
    {
      var w: nat := |s1.worlds| + v;
      assert w in block;
      assert Balanced(s1, s2, block, block[w]);
      BalancedLeft(s1, s2, block, v);
    }
  }

  lemma BalancedForth(s1: StateValue, s2: StateValue, block: BlockMap, u: nat) returns (v: nat)
    requires s1.Valid() && s2.Valid() && s1.Designated(u)
    requires Assigns(|s1.worlds| + |s2.worlds|, block)
    requires u in block && Balanced(s1, s2, block, block[u])
    ensures s2.Designated(v) && Related(Across(|s1.worlds|, |s2.worlds|, block), u, v)
  {
    var n := |s1.worlds|;
    DesignatedInRange(s1, u);
    assert HasDesignatedFirst(s1, block, block[u]);
    var w: nat :| w in block && block[w] == block[u] && w >= n && s2.Designated(w - n);
    v := w - n;
    AcrossIn(n, |s2.worlds|, block, u, w);
  }

  lemma BalancedBack(s1: StateValue, s2: StateValue, block: BlockMap, v: nat) returns (u: nat)
    requires s1.Valid() && s2.Valid() && s2.Designated(v)
    requires Assigns(|s1.worlds| + |s2.worlds|, block)
    requires |s1.worlds| + v in block && Balanced(s1, s2, block, block[|s1.worlds| + v])
    ensures s1.Designated(u) && Related(Across(|s1.worlds|, |s2.worlds|, block), u, v)
  {
    var n := |s1.worlds|;
    var nv: nat := n + v;
    DesignatedInRange(s2, v);
    assert nv in block && nv >= n && s2.Designated(nv - n);
    assert HasDesignatedSecond(s1, s2, block, block[nv]);
    u :| u in block && block[u] == block[nv] && s1.Designated(u);
    DesignatedInRange(s1, u);
    AcrossIn(n, |s2.worlds|, block, u, nv);
  }

  lemma BalancedPointed(s1: StateValue, s2: StateValue, block: BlockMap, count: nat)
    requires s1.Valid() && s2.Valid()
    requires Assigns(|s1.worlds| + |s2.worlds|, block)
    requires forall w: nat :: w in block ==> block[w] < count
    requires forall b: nat :: b < count ==> Balanced(s1, s2, block, b)
    ensures Pointed(s1, s2, Across(|s1.worlds|, |s2.worlds|, block))
  {
    var n, z := |s1.worlds|, Across(|s1.worlds|, |s2.worlds|, block);
    forall u: nat | s1.Designated(u)
      ensures exists v: nat :: s2.Designated(v) && Related(z, u, v)
    {
      DesignatedInRange(s1, u);
      var v := BalancedForth(s1, s2, block, u);
    }
    forall v: nat | s2.Designated(v)
      ensures exists u: nat :: s1.Designated(u) && Related(z, u, v)
    {
      DesignatedInRange(s2, v);
      var u := BalancedBack(s1, s2, block, v);
    }
  }

  lemma WitnessedTotal(s1: StateValue, s2: StateValue, block: BlockMap, z: Pairs, b: nat)
    requires Assigns(|s1.worlds| + |s2.worlds|, block)
    requires Total(s1, s2, z)
    requires forall u: nat, v: nat :: Related(z, u, v) ==>
               u < |s1.worlds| && v < |s2.worlds| && block[u] == block[|s1.worlds| + v]
    requires Inhabited(block, b)
    ensures HasFirst(s1, block, b) && HasSecond(s1, s2, block, b)
  {
    var n := |s1.worlds|;
    var w: nat :| w in block && block[w] == b;
    if w < n {
      assert HasRight(z, w);
      var v: nat :| Related(z, w, v);
      var nv: nat := n + v;
      assert nv in block && block[nv] == b;
    } else {
      var v: nat := w - n;
      assert HasLeft(z, v);
      var u: nat :| Related(z, u, v);
      assert u in block && block[u] == b;
      assert n + v in block;
    }
  }

  lemma WitnessedForth(s1: StateValue, s2: StateValue, block: BlockMap, z: Pairs, b: nat)
    requires Assigns(|s1.worlds| + |s2.worlds|, block)
    requires PointedForth(s1, s2, z) && HasDesignatedFirst(s1, block, b)
    requires forall u: nat, v: nat :: Related(z, u, v) ==>
               u < |s1.worlds| && v < |s2.worlds| && block[u] == block[|s1.worlds| + v]
    ensures HasDesignatedSecond(s1, s2, block, b)
  {
    var n := |s1.worlds|;
    var u: nat :| u in block && block[u] == b && s1.Designated(u);
    var v: nat :| s2.Designated(v) && Related(z, u, v);
    var nv: nat := n + v;
    assert nv in block && block[nv] == b && s2.Designated(nv - n);
  }

  lemma WitnessedBack(s1: StateValue, s2: StateValue, block: BlockMap, z: Pairs, b: nat)
    requires Assigns(|s1.worlds| + |s2.worlds|, block)
    requires PointedBack(s1, s2, z) && HasDesignatedSecond(s1, s2, block, b)
    requires forall u: nat, v: nat :: Related(z, u, v) ==>
               u < |s1.worlds| && v < |s2.worlds| && block[u] == block[|s1.worlds| + v]
    ensures HasDesignatedFirst(s1, block, b)
  {
    var n := |s1.worlds|;
    var w: nat :| w in block && block[w] == b && w >= n && s2.Designated(w - n);
    var v: nat := w - n;
    var u: nat :| s1.Designated(u) && Related(z, u, v);
    assert u in block && block[u] == b;
  }

  lemma BalancedImpliesBisimilar(s1: StateValue, s2: StateValue, m: Model, block: BlockMap, count: nat)
    requires IsUnion(s1, s2, m) && Assigns(|m.labels|, block)
    requires RefinesLabels(m, block) && Stable(m, block)
    requires forall w: nat :: w in block ==> block[w] < count
    requires forall b: nat :: b < count ==> Balanced(s1, s2, block, b)
    ensures Bisimilar(ByKey, s1, s2)
  {
    AcrossIsBisimulation(s1, s2, m, block);
    BalancedTotal(s1, s2, block, count);
    BalancedPointed(s1, s2, block, count);
    assert Witnesses(ByKey, s1, s2, Across(|s1.worlds|, |s2.worlds|, block));
  }

  lemma WitnessedBalanced(s1: StateValue, s2: StateValue, block: BlockMap, z: Pairs, b: nat)
    requires Assigns(|s1.worlds| + |s2.worlds|, block)
    requires Total(s1, s2, z) && Pointed(s1, s2, z)
    requires forall u: nat, v: nat :: Related(z, u, v) ==>
               u < |s1.worlds| && v < |s2.worlds| && block[u] == block[|s1.worlds| + v]
    requires Inhabited(block, b)
    ensures Balanced(s1, s2, block, b)
  {
    WitnessedTotal(s1, s2, block, z, b);
    if HasDesignatedFirst(s1, block, b) {
      WitnessedForth(s1, s2, block, z, b);
    }
    if HasDesignatedSecond(s1, s2, block, b) {
      WitnessedBack(s1, s2, block, z, b);
    }
  }

  lemma BisimilarImpliesBalanced(s1: StateValue, s2: StateValue, m: Model, block: BlockMap, b: nat)
    requires IsUnion(s1, s2, m) && Assigns(|m.labels|, block) && Sound(m, block)
    requires Bisimilar(ByKey, s1, s2) && Inhabited(block, b)
    ensures Balanced(s1, s2, block, b)
  {
    var z :| Witnesses(ByKey, s1, s2, z);
    RelatedShareBlock(s1, s2, m, block, z);
    WitnessedBalanced(s1, s2, block, z, b);
  }

  /** The block test decides bisimilarity of the two states. */
  lemma BalancedIffBisimilar(s1: StateValue, s2: StateValue, m: Model, block: BlockMap, count: nat)
    requires IsUnion(s1, s2, m) && Assigns(|m.labels|, block)
    requires Sound(m, block) && RefinesLabels(m, block) && Stable(m, block)
    requires forall w: nat :: w in block ==> block[w] < count
    requires forall b: nat :: b < count ==> Inhabited(block, b)
    ensures (forall b: nat :: b < count ==> Balanced(s1, s2, block, b)) <==> Bisimilar(ByKey, s1, s2)
  {
    if Bisimilar(ByKey, s1, s2) {
      forall b: nat | b < count
        ensures Balanced(s1, s2, block, b)
      {
        BisimilarImpliesBalanced(s1, s2, m, block, b);
      }
    } else if forall b: nat :: b < count ==> Balanced(s1, s2, block, b) {
      BalancedImpliesBisimilar(s1, s2, m, block, count);
    }
  }
}
