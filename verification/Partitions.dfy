/** Theory of partition refinement over one labelled transition system: which
    partitions are sound, when one is stable, and why a sound and stable one is
    exactly bisimilarity. */
module Partitions {
  import opened Bisimulation
  import opened States

  type Successors = map<nat, seq<nat>>
  type BlockMap = map<nat, nat>

  // Labelled worlds with one successor table per agent.
  datatype Model = Model(labels: seq<string>, succ: seq<Successors>) {
    // A missing table entry reads as an empty list.
    ghost function Succ(a: nat, u: nat): (vs: seq<nat>) {
      if a < |succ| && u in succ[a] then succ[a][u] else []
    }

    ghost predicate Valid() {
      forall a: nat, u: nat, v: nat :: v in Succ(a, u) ==> v < |labels|
    }
  }

  // ----- Bisimilarity of two worlds of one model

  ghost predicate Simulates(m: Model, z: Pairs, u: nat, v: nat) {
    forall a: nat, u': nat :: u' in m.Succ(a, u) ==> exists v': nat :: v' in m.Succ(a, v) && Related(z, u', v')
  }

  ghost predicate SimulatedBy(m: Model, z: Pairs, u: nat, v: nat) {
    forall a: nat, v': nat :: v' in m.Succ(a, v) ==> exists u': nat :: u' in m.Succ(a, u) && Related(z, u', v')
  }

  ghost predicate PairFits(m: Model, z: Pairs, u: nat, v: nat) {
    && u < |m.labels| && v < |m.labels| && m.labels[u] == m.labels[v]
    && Simulates(m, z, u, v)
    && SimulatedBy(m, z, u, v)
  }

  ghost predicate IsAutobisimulation(m: Model, z: Pairs) {
    forall u: nat, v: nat :: Related(z, u, v) ==> PairFits(m, z, u, v)
  }

  ghost predicate BisimilarWorlds(m: Model, u: nat, v: nat) {
    exists z: Pairs :: IsAutobisimulation(m, z) && Related(z, u, v)
  }

  // ----- Partitions, given by the block id of each world

  ghost predicate Assigns(n: nat, block: BlockMap) {
    forall u: nat :: u in block <==> u < n
  }

  // Bisimilar worlds share a block.
  ghost predicate Sound(m: Model, block: BlockMap)
    requires Assigns(|m.labels|, block)
  {
    forall u: nat, v: nat :: BisimilarWorlds(m, u, v) && u < |m.labels| && v < |m.labels| ==> block[u] == block[v]
  }

  // Worlds of one block carry one label.
  ghost predicate RefinesLabels(m: Model, block: BlockMap)
    requires Assigns(|m.labels|, block)
  {
    forall u: nat, v: nat :: u < |m.labels| && v < |m.labels| && block[u] == block[v] ==> m.labels[u] == m.labels[v]
  }

  ghost predicate Refines(n: nat, fine: BlockMap, coarse: BlockMap)
    requires Assigns(n, fine) && Assigns(n, coarse)
  {
    forall u: nat, v: nat :: u < n && v < n && fine[u] == fine[v] ==> coarse[u] == coarse[v]
  }

  ghost function Image(ws: seq<nat>, block: BlockMap): (bs: set<nat>) {
    set w | w in ws && w in block :: block[w]
  }

  // The two worlds reach the same blocks for every agent.
  ghost predicate SameSignature(m: Model, block: BlockMap, u: nat, v: nat) {
    forall a: nat :: a < |m.succ| ==> Image(m.Succ(a, u), block) == Image(m.Succ(a, v), block)
  }

  ghost predicate Stable(m: Model, block: BlockMap)
    requires Assigns(|m.labels|, block)
  {
    forall u: nat, v: nat {:trigger SameSignature(m, block, u, v)} ::
      u < |m.labels| && v < |m.labels| && block[u] == block[v] ==> SameSignature(m, block, u, v)
  }

  lemma BisimilarInRange(m: Model, u: nat, v: nat)
    requires BisimilarWorlds(m, u, v)
    ensures u < |m.labels| && v < |m.labels| && m.labels[u] == m.labels[v]
  {
    var z :| IsAutobisimulation(m, z) && Related(z, u, v);
    assert PairFits(m, z, u, v);
  }

  lemma ImageForth(m: Model, block: BlockMap, z: Pairs, a: nat, u: nat, v: nat)
    requires m.Valid() && Assigns(|m.labels|, block)
    requires forall x: nat, y: nat :: Related(z, x, y) ==> x < |m.labels| && y < |m.labels| && block[x] == block[y]
    requires Simulates(m, z, u, v)
    ensures Image(m.Succ(a, u), block) <= Image(m.Succ(a, v), block)
  {
    forall b | b in Image(m.Succ(a, u), block)
      ensures b in Image(m.Succ(a, v), block)
    {
      var u' :| u' in m.Succ(a, u) && u' in block && block[u'] == b;
      var v': nat :| v' in m.Succ(a, v) && Related(z, u', v');
    }
  }

  lemma ImageBack(m: Model, block: BlockMap, z: Pairs, a: nat, u: nat, v: nat)
    requires m.Valid() && Assigns(|m.labels|, block)
    requires forall x: nat, y: nat :: Related(z, x, y) ==> x < |m.labels| && y < |m.labels| && block[x] == block[y]
    requires SimulatedBy(m, z, u, v)
    ensures Image(m.Succ(a, v), block) <= Image(m.Succ(a, u), block)
  {
    forall b | b in Image(m.Succ(a, v), block)
      ensures b in Image(m.Succ(a, u), block)
    {
      var v' :| v' in m.Succ(a, v) && v' in block && block[v'] == b;
      var u': nat :| u' in m.Succ(a, u) && Related(z, u', v');
    }
  }

  /** A sound partition never tells bisimilar worlds apart by their signatures. */
  lemma BisimilarSameSignature(m: Model, block: BlockMap, u: nat, v: nat)
    requires m.Valid() && Assigns(|m.labels|, block) && Sound(m, block)
    requires BisimilarWorlds(m, u, v)
    ensures SameSignature(m, block, u, v)
  {
    var z :| IsAutobisimulation(m, z) && Related(z, u, v);
    forall x: nat, y: nat | Related(z, x, y)
      ensures x < |m.labels| && y < |m.labels| && block[x] == block[y]
    {
      assert PairFits(m, z, x, y);
      assert BisimilarWorlds(m, x, y);
    }
    assert PairFits(m, z, u, v);
    forall a: nat | a < |m.succ|
      ensures Image(m.Succ(a, u), block) == Image(m.Succ(a, v), block)
    {
      ImageForth(m, block, z, a, u, v);
      ImageBack(m, block, z, a, u, v);
    }
  }

  // ----- A stable partition is itself a bisimulation

  ghost function SameBlock(n: nat, block: BlockMap): (z: Pairs)
    requires Assigns(n, block)
    ensures forall u: nat, v: nat :: Related(z, u, v) <==> u < n && v < n && block[u] == block[v]
  {
    var r := set p | p in Grid(n, n) && block[p.0] == block[p.1];
    assert forall u: nat, v: nat :: Related(r, u, v) <==> Related(Grid(n, n), u, v) && block[u] == block[v];
    r
  }

  lemma SignatureMatch(m: Model, block: BlockMap, a: nat, u: nat, v: nat, u': nat) returns (v': nat)
    requires m.Valid() && Assigns(|m.labels|, block)
    requires SameSignature(m, block, u, v) && u' in m.Succ(a, u)
    ensures v' in m.Succ(a, v) && v' < |m.labels| && u' < |m.labels| && block[u'] == block[v']
  {
    assert block[u'] in Image(m.Succ(a, u), block);
    assert a < |m.succ|;
    v' :| v' in m.Succ(a, v) && v' in block && block[v'] == block[u'];
  }

  lemma StableIsBisimulation(m: Model, block: BlockMap)
    requires m.Valid() && Assigns(|m.labels|, block)
    requires RefinesLabels(m, block) && Stable(m, block)
    ensures IsAutobisimulation(m, SameBlock(|m.labels|, block))
  {
    var z := SameBlock(|m.labels|, block);
    forall u: nat, v: nat | Related(z, u, v)
      ensures PairFits(m, z, u, v)
    {
      assert SameSignature(m, block, u, v) && SameSignature(m, block, v, u);
      forall a: nat, u': nat | u' in m.Succ(a, u)
        ensures exists v': nat :: v' in m.Succ(a, v) && Related(z, u', v')
      {
        var v' := SignatureMatch(m, block, a, u, v, u');
        assert Related(z, u', v');
      }
      forall a: nat, v': nat | v' in m.Succ(a, v)
        ensures exists u': nat :: u' in m.Succ(a, u) && Related(z, u', v')
      {
        var u' := SignatureMatch(m, block, a, v, u, v');
        assert Related(z, u', v');
      }
    }
  }

  /** Sound and stable: the blocks are exactly the bisimilarity classes, that is,
      the coarsest stable partition refining the labels. */
  lemma StableIsCoarsest(m: Model, block: BlockMap)
    requires m.Valid() && Assigns(|m.labels|, block)
    requires Sound(m, block) && RefinesLabels(m, block) && Stable(m, block)
    ensures forall u: nat, v: nat :: u < |m.labels| && v < |m.labels| ==>
              (block[u] == block[v] <==> BisimilarWorlds(m, u, v))
    ensures forall other: BlockMap {:trigger Assigns(|m.labels|, other)} ::
              Assigns(|m.labels|, other) && RefinesLabels(m, other) && Stable(m, other) ==>
                Refines(|m.labels|, other, block)
  {
    var n := |m.labels|;
    forall u: nat, v: nat | u < n && v < n && block[u] == block[v]
      ensures BisimilarWorlds(m, u, v)
    {
      StableIsBisimulation(m, block);
      assert Related(SameBlock(n, block), u, v);
    }
    forall other: BlockMap | Assigns(n, other) && RefinesLabels(m, other) && Stable(m, other)
      ensures Refines(n, other, block)
    {
      StableIsBisimulation(m, other);
      forall u: nat, v: nat | u < n && v < n && other[u] == other[v]
        ensures block[u] == block[v]
      {
        assert Related(SameBlock(n, other), u, v);
        assert BisimilarWorlds(m, u, v);
      }
    }
  }

  // ----- Splitting one block

  // Moving a bisimulation-closed set of worlds to a fresh block keeps soundness.
  ghost predicate ClosedUnderBisimilarity(m: Model, ws: seq<nat>) {
    forall u: nat, v: nat :: BisimilarWorlds(m, u, v) ==> (u in ws <==> v in ws)
  }

  ghost function Reassign(block: BlockMap, ws: seq<nat>, b: nat): (r: BlockMap)
    ensures r.Keys == block.Keys
    ensures forall u :: u in block ==> r[u] == if u in ws then b else block[u]
  {
    map u | u in block :: if u in ws then b else block[u]
  }

  lemma ReassignSound(m: Model, block: BlockMap, ws: seq<nat>, b: nat)
    requires Assigns(|m.labels|, block) && Sound(m, block) && ClosedUnderBisimilarity(m, ws)
    ensures Assigns(|m.labels|, Reassign(block, ws, b))
    ensures Sound(m, Reassign(block, ws, b))
  {
  }

  // The worlds among ws that reach the same blocks as the base world.
  ghost function Alike(m: Model, block: BlockMap, base: nat, ws: seq<nat>): (r: set<nat>)
    ensures forall w :: w in r <==> w in ws && SameSignature(m, block, base, w)
  {
    set w | w in ws && SameSignature(m, block, base, w)
  }

  ghost function Select(ws: seq<nat>, chosen: set<nat>): (r: seq<nat>)
    ensures forall w :: w in r <==> w in ws && w in chosen
    ensures |r| <= |ws|
  {
    if ws == [] then [] else
      var w := ws[|ws| - 1];
      Select(ws[..|ws| - 1], chosen) + if w in chosen then [w] else []
  }

  lemma {:induction false} SelectConcat(a: seq<nat>, b: seq<nat>, chosen: set<nat>)
    ensures Select(a + b, chosen) == Select(a, chosen) + Select(b, chosen)
    decreases |b|
  {
    if b == [] {
      assert a + b == a;
    } else {
      var front := b[..|b| - 1];
      assert (a + b)[..|a + b| - 1] == a + front;
      SelectConcat(a, front, chosen);
    }
  }

  /** Selecting by signature from a bisimulation-closed set gives closed sets. */
  lemma SelectionClosed(m: Model, block: BlockMap, base: nat, ws: seq<nat>, same: seq<nat>, different: seq<nat>)
    requires m.Valid() && Assigns(|m.labels|, block) && Sound(m, block) && ClosedUnderBisimilarity(m, ws)
    requires forall w :: w in same <==> w in Alike(m, block, base, ws)
    requires forall w :: w in different <==> w in ws && w !in Alike(m, block, base, ws)
    ensures ClosedUnderBisimilarity(m, same)
    ensures ClosedUnderBisimilarity(m, different)
  {
    forall u: nat, v: nat | BisimilarWorlds(m, u, v)
      ensures (u in same <==> v in same) && (u in different <==> v in different)
    {
      BisimilarSameSignature(m, block, u, v);
      SignatureTransfers(m, block, base, u, v);
    }
  }

  lemma SignatureTransfers(m: Model, block: BlockMap, base: nat, u: nat, v: nat)
    requires SameSignature(m, block, u, v)
    ensures SameSignature(m, block, base, u) <==> SameSignature(m, block, base, v)
  {
  }

  /** A whole block of a sound partition is bisimulation-closed. */
  lemma BlockClosed(m: Model, block: BlockMap, b: nat, ws: seq<nat>)
    requires Assigns(|m.labels|, block) && Sound(m, block)
    requires forall u: nat :: u in ws <==> u < |m.labels| && block[u] == b
    ensures ClosedUnderBisimilarity(m, ws)
  {
    forall u: nat, v: nat | BisimilarWorlds(m, u, v)
      ensures u in ws <==> v in ws
    {
      BisimilarInRange(m, u, v);
    }
  }

  // ----- Block lists

  // The lists hold every world in its block, except the worlds under way.
  ghost predicate Listed(n: nat, blocks: seq<seq<nat>>, block: BlockMap, moving: seq<nat>)
    requires Assigns(n, block)
  {
    && (forall u: nat :: u < n ==> block[u] < |blocks|)
    && (forall b: nat :: b < |blocks| ==> blocks[b] != [])
    && (forall b: nat, u: nat :: b < |blocks| ==> ListedRight(n, blocks, block, moving, b, u))
  }

  ghost predicate ListedRight(n: nat, blocks: seq<seq<nat>>, block: BlockMap, moving: seq<nat>, b: nat, u: nat)
    requires Assigns(n, block) && b < |blocks|
  {
    u in blocks[b] <==> u < n && block[u] == b && u !in moving
  }

  /** There are never more blocks than worlds. */
  lemma BlockCount(n: nat, blocks: seq<seq<nat>>, block: BlockMap)
    requires Assigns(n, block) && Listed(n, blocks, block, [])
    ensures |blocks| <= n
  {
    forall b: nat | b < |blocks|
      ensures blocks[b][0] < n && block[blocks[b][0]] == b
    {
      var u: nat := blocks[b][0];
      assert u in blocks[b] && ListedRight(n, blocks, block, [], b, u);
    }
    FirstsSize(blocks, block, |blocks|);
    SubsetSize(Firsts(blocks, |blocks|), Indices(n));
  }

  ghost function Firsts(blocks: seq<seq<nat>>, k: nat): (s: set<nat>)
    requires k <= |blocks| && forall b: nat :: b < |blocks| ==> blocks[b] != []
  {
    if k == 0 then {} else Firsts(blocks, k - 1) + {blocks[k - 1][0]}
  }

  lemma {:induction false} FirstsSize(blocks: seq<seq<nat>>, block: BlockMap, k: nat)
    requires k <= |blocks| && forall b: nat :: b < |blocks| ==> blocks[b] != []
    requires forall b: nat :: b < |blocks| ==> blocks[b][0] in block && block[blocks[b][0]] == b
    ensures |Firsts(blocks, k)| == k
    ensures forall u :: u in Firsts(blocks, k) ==> u in block && block[u] < k
  {
    if k > 0 {
      FirstsSize(blocks, block, k - 1);
    }
  }
}
