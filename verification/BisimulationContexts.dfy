/** Deciding bisimilarity by partition refinement on the disjoint union. */
module BisimulationContexts {
  import opened Bisimulation
  import opened DisjointUnion
  import opened Partitions
  import opened Sorting
  import opened States
  import opened ValuationKey

  ghost function Labels(worlds: seq<World>): (ls: seq<string>)
    ensures |ls| == |worlds|
    ensures forall i :: 0 <= i < |worlds| ==> ls[i] == Key(worlds[i].props)
  {
    seq(|worlds|, i requires 0 <= i < |worlds| => Key(worlds[i].props))
  }

  function Lookup(table: Successors, u: nat): (vs: seq<nat>) {
    if u in table then table[u] else []
  }

  class BisimulationContext {
    const state1: StateValue
    const state2: StateValue
    var oldToNew1: map<nat, nat>
    var oldToNew2: map<nat, nat>
    var fromState1: map<nat, bool>
    var isDesignated: map<nat, bool>
    var worlds: seq<World>
    var relation: seq<Successors>
    var worldToBlock: BlockMap
    var blocks: seq<seq<nat>>

    constructor (state1: StateValue, state2: StateValue)
      ensures this.state1 == state1 && this.state2 == state2
      ensures worlds == [] && relation == [] && blocks == [] && worldToBlock == map[]
    {
      this.state1, this.state2 := state1, state2;
      oldToNew1, oldToNew2, fromState1, isDesignated := map[], map[], map[], map[];
      worlds, relation, blocks, worldToBlock := [], [], [], map[];
    }

    ghost function Merged(): (m: Model)
      reads this`worlds, this`relation
    {
      Model(Labels(worlds), relation)
    }

    // Between passes and between the steps of a move: bisimilar worlds share a
    // block, blocks refine valuations, and the lists agree with the block ids.
    ghost predicate Refining(moving: seq<nat>)
      reads this`worlds, this`relation, this`worldToBlock, this`blocks
    {
      && Merged().Valid()
      && Assigns(|worlds|, worldToBlock)
      && Sound(Merged(), worldToBlock)
      && RefinesLabels(Merged(), worldToBlock)
      && Listed(|worlds|, blocks, worldToBlock, moving)
    }

    // ----- Comparing worlds by the blocks they reach

    method BlocksOf(relations: seq<nat>) returns (ids: seq<nat>)
      requires forall w :: w in relations ==> w in worldToBlock
      ensures StrictlyAscending(ids)
      ensures forall b :: b in ids <==> b in Image(relations, worldToBlock)
    {
      var raw: seq<nat> := [];
      for i := 0 to |relations|
        invariant forall b :: b in raw <==> b in Image(relations[..i], worldToBlock)
      {
        assert relations[i] in relations;
        assert relations[..i + 1] == relations[..i] + [relations[i]];
        raw := raw + [worldToBlock[relations[i]]];
      }
      assert relations[..|relations|] == relations;
      var sorted := Sort(raw);
      ids := Unique(sorted);
    }

    method AreRelationsEqual(relations1: seq<nat>, relations2: seq<nat>) returns (equal: bool)
      requires forall w :: w in relations1 ==> w in worldToBlock
      requires forall w :: w in relations2 ==> w in worldToBlock
      ensures equal <==> Image(relations1, worldToBlock) == Image(relations2, worldToBlock)
    {
      var ids1 := BlocksOf(relations1);
      var ids2 := BlocksOf(relations2);
      if Image(relations1, worldToBlock) == Image(relations2, worldToBlock) {
        StrictlyAscendingUnique(ids1, ids2);
      }
      if |ids1| != |ids2| {
        return false;
      }
      for i := 0 to |ids1|
        invariant ids1[..i] == ids2[..i]
      {
        if ids1[i] != ids2[i] {
          return false;
        }
      }
      assert ids1 == ids1[..|ids1|] == ids2[..|ids2|] == ids2;
      return true;
    }

    // The loop over agents that stops at the first difference.
    method LooksLike(base: nat, w: nat) returns (same: bool)
      requires Merged().Valid() && Assigns(|worlds|, worldToBlock)
      ensures same <==> SameSignature(Merged(), worldToBlock, base, w)
    {
      ghost var m := Merged();
      for i := 0 to |relation|
        invariant forall a: nat :: a < i ==>
          Image(m.Succ(a, base), worldToBlock) == Image(m.Succ(a, w), worldToBlock)
      {
        assert m.Succ(i, base) == Lookup(relation[i], base) && m.Succ(i, w) == Lookup(relation[i], w);
        var equal := AreRelationsEqual(Lookup(relation[i], base), Lookup(relation[i], w));
        if !equal {
          return false;
        }
      }
      return true;
    }

    // ----- Moving worlds out of a block

    // The first world and those that look like it, and the remaining ones.
    method SplitBySignature(moving: seq<nat>) returns (same: seq<nat>, different: seq<nat>)
      requires moving != [] && Merged().Valid() && Assigns(|worlds|, worldToBlock)
      ensures same != [] && |different| < |moving|
      ensures forall w :: w in same <==> w in Alike(Merged(), worldToBlock, moving[0], moving)
      ensures forall w :: w in different <==> w in moving && w !in Alike(Merged(), worldToBlock, moving[0], moving)
    {
      var base := moving[0];
      ghost var alike := Alike(Merged(), worldToBlock, base, moving);
      assert base in moving && base in alike;
      same, different := [base], [];
      for i := 1 to |moving|
        invariant same != [] && |different| < i
        invariant forall w :: w in same <==> w in moving[..i] && w in alike
        invariant forall w :: w in different <==> w in moving[..i] && w !in alike
      {
        assert moving[..i + 1] == moving[..i] + [moving[i]];
        var looksLike := LooksLike(base, moving[i]);
        assert looksLike <==> moving[i] in alike;
        if looksLike {
          same := same + [moving[i]];
        } else {
          different := different + [moving[i]];
        }
      }
      assert moving[..|moving|] == moving;
    }

    method AppendBlock(same: seq<nat>)
      requires Assigns(|worlds|, worldToBlock)
      requires forall w :: w in same ==> w < |worlds|
      modifies this`blocks, this`worldToBlock
      ensures blocks == old(blocks) + [same]
      ensures worldToBlock == Reassign(old(worldToBlock), same, |old(blocks)|)
    {
      ghost var block := worldToBlock;
      var newBlock := |blocks|;
      blocks := blocks + [[]];
      for i := 0 to |same|
        invariant blocks == old(blocks) + [same[..i]]
        invariant worldToBlock == Reassign(block, same[..i], newBlock)
      {
        assert same[i] in same;
        assert same[..i + 1] == same[..i] + [same[i]];
        blocks := blocks[|blocks| - 1 := blocks[|blocks| - 1] + [same[i]]];
        worldToBlock := worldToBlock[same[i] := newBlock];
        assert worldToBlock == Reassign(block, same[..i + 1], newBlock);
      }
      assert same[..|same|] == same;
    }

    /** Spreads worlds that were taken out of a block over fresh blocks, one per signature. */
    method MoveWorldsToNewBlock(moving: seq<nat>)
      requires moving != [] && Refining(moving)
      requires MovableTogether(Merged(), worldToBlock, moving)
      modifies this`blocks, this`worldToBlock
      ensures Refining([])
      ensures |blocks| > |old(blocks)| && old(blocks) <= blocks
      ensures Refines(|worlds|, worldToBlock, old(worldToBlock))
      decreases |moving|
    {
      ghost var m, block, lists := Merged(), worldToBlock, blocks;
      var same, different := SplitBySignature(moving);
      AppendBlock(same);
      MoveStep(m, lists, block, moving, same, different);
      assert Refining(different);
      if different != [] {
        ghost var middle := worldToBlock;
        MoveWorldsToNewBlock(different);
        RefinesTransitive(|worlds|, worldToBlock, middle, block);
      }
    }

    // ----- One refinement pass

    // The worlds of the block that do not look like its first world, with their positions.
    method FindMovable(block: seq<nat>) returns (moving: seq<nat>, indices: seq<nat>)
      requires block != [] && Merged().Valid() && Assigns(|worlds|, worldToBlock)
      ensures var alike := Alike(Merged(), worldToBlock, block[0], block);
              && (forall w :: w in moving <==> w in block && w !in alike)
              && Positions(block, alike, |block|, indices)
      ensures |moving| == |indices|
    {
      var base := block[0];
      ghost var alike := Alike(Merged(), worldToBlock, base, block);
      moving, indices := [], [];
      for i := 0 to |block|
        invariant Found(block, alike, i, moving, indices)
      {
        FoundStep(block, alike, i, moving, indices);
        var looksLike := LooksLike(base, block[i]);
        assert block[i] in block;
        if !looksLike {
          moving := moving + [block[i]];
          indices := indices + [i];
        }
      }
      assert block[..|block|] == block;
    }

    method SplitBlock(b: nat) returns (changed: bool)
      requires Refining([]) && b < |blocks|
      modifies this`blocks, this`worldToBlock
      ensures Refining([])
      ensures Refines(|worlds|, worldToBlock, old(worldToBlock))
      ensures changed ==> |blocks| > |old(blocks)|
      ensures !changed ==> blocks == old(blocks) && worldToBlock == old(worldToBlock)
                           && Uniform(Merged(), worldToBlock, blocks[b][0], b)
    {
      ghost var m, lists := Merged(), blocks;
      var block := blocks[b];
      var moving, indices := FindMovable(block);
      ghost var alike := Alike(m, worldToBlock, block[0], block);
      var kept := EraseIndices(block, indices, alike);
      blocks := blocks[b := kept];
      if moving == [] {
        UnchangedBlock(m, lists, worldToBlock, b, kept);
        return false;
      }
      TakeOut(m, lists, worldToBlock, b, kept, moving);
      MoveWorldsToNewBlock(moving);
      return true;
    }

    method RefinementPass() returns (changed: bool)
      requires Refining([])
      modifies this`blocks, this`worldToBlock
      ensures Refining([])
      ensures Refines(|worlds|, worldToBlock, old(worldToBlock))
      ensures changed ==> |blocks| > |old(blocks)|
      ensures !changed ==> worldToBlock == old(worldToBlock) && Stable(Merged(), worldToBlock)
    {
      ghost var m, block := Merged(), worldToBlock;
      changed := false;
      var count := |blocks|;
      for b := 0 to count
        invariant Refining([]) && Merged() == m && |blocks| >= count
        invariant Refines(|worlds|, worldToBlock, block)
        invariant changed ==> |blocks| > count
        invariant !changed ==> |blocks| == count && worldToBlock == block
        invariant !changed ==> forall c: nat :: c < b ==> Uniform(m, block, blocks[c][0], c)
      {
        ghost var before := worldToBlock;
        var split := SplitBlock(b);
        RefinesTransitive(|worlds|, worldToBlock, before, block);
        changed := changed || split;
      }
      if !changed {
        UniformIsStable(m, blocks, block);
      }
    }

    /** Passes until nothing changes.  Every repetition has strictly more blocks,
        of which there are never more than worlds. */
    method PartitionIntoRelationsBlocks()
      requires Refining([])
      modifies this`blocks, this`worldToBlock
      ensures Refining([])
      ensures Stable(Merged(), worldToBlock)
      ensures Refines(|worlds|, worldToBlock, old(worldToBlock))
      decreases |worlds| - |blocks|
    {
      ghost var block := worldToBlock;
      var changed := RefinementPass();
      BlockCount(|worlds|, blocks, worldToBlock);
      if changed {
        ghost var middle := worldToBlock;
        PartitionIntoRelationsBlocks();
        RefinesTransitive(|worlds|, worldToBlock, middle, block);
      }
    }

    // ----- Building the disjoint union

    ghost predicate WorldsMerged()
      reads this`worlds, this`oldToNew1, this`oldToNew2, this`fromState1, this`isDesignated
    {
      && MergedWorlds(state1, state2, worlds)
      && Renames(oldToNew1, |state1.worlds|, 0)
      && Renames(oldToNew2, |state2.worlds|, |state1.worlds|)
      && (forall i: nat :: i < |worlds| ==> i in fromState1 && (fromState1[i] <==> i < |state1.worlds|))
      && (forall i: nat :: i < |worlds| ==> i in isDesignated && (isDesignated[i] <==> UnionDesignated(state1, state2, i)))
    }

    method AppendWorld(world: World, first: bool)
      modifies this`worlds, this`oldToNew1, this`oldToNew2, this`fromState1, this`isDesignated
      ensures worlds == old(worlds) + [World(|old(worlds)|, world.props)]
      ensures oldToNew1 == if first then old(oldToNew1)[world.id := |old(worlds)|] else old(oldToNew1)
      ensures oldToNew2 == if first then old(oldToNew2) else old(oldToNew2)[world.id := |old(worlds)|]
      ensures fromState1 == old(fromState1)[|old(worlds)| := first]
      ensures isDesignated == old(isDesignated)[|old(worlds)| := false]
    {
      var id := |worlds|;
      worlds := worlds + [World(id, world.props)];
      if first {
        oldToNew1 := oldToNew1[world.id := id];
      } else {
        oldToNew2 := oldToNew2[world.id := id];
      }
      fromState1 := fromState1[id := first];
      isDesignated := isDesignated[id := false];
    }

    method AppendFirstWorlds()
      requires worlds == []
      modifies this`worlds, this`oldToNew1, this`oldToNew2, this`fromState1, this`isDesignated
      ensures |worlds| == |state1.worlds|
      ensures forall k: nat :: k < |worlds| ==> worlds[k] == World(k, state1.Props(k))
      ensures state1.Valid() ==> Renames(oldToNew1, |worlds|, 0)
      ensures forall k: nat :: k < |worlds| ==> k in fromState1 && fromState1[k]
      ensures forall k: nat :: k < |worlds| ==> k in isDesignated && !isDesignated[k]
    {
      for i := 0 to |state1.worlds|
        invariant |worlds| == i
        invariant forall k: nat :: k < i ==> worlds[k] == World(k, state1.Props(k))
        invariant state1.Valid() ==> Renames(oldToNew1, i, 0)
        invariant forall k: nat :: k < i ==> k in fromState1 && fromState1[k]
        invariant forall k: nat :: k < i ==> k in isDesignated && !isDesignated[k]
      {
        AppendWorld(state1.worlds[i], true);
      }
    }

    method AppendSecondWorlds()
      requires state2.Valid() && |worlds| == |state1.worlds|
      requires forall k: nat :: k < |worlds| ==> k in fromState1 && fromState1[k]
      requires forall k: nat :: k < |worlds| ==> k in isDesignated && !isDesignated[k]
      modifies this`worlds, this`oldToNew1, this`oldToNew2, this`fromState1, this`isDesignated
      ensures |worlds| == |old(worlds)| + |state2.worlds|
      ensures worlds[..|old(worlds)|] == old(worlds)
      ensures forall k: nat :: k < |state2.worlds| ==> worlds[|old(worlds)| + k] == World(|old(worlds)| + k, state2.Props(k))
      ensures oldToNew1 == old(oldToNew1)
      ensures Renames(oldToNew2, |state2.worlds|, |old(worlds)|)
      ensures forall k: nat :: k < |worlds| ==> k in fromState1 && (fromState1[k] <==> k < |old(worlds)|)
      ensures forall k: nat :: k < |worlds| ==> k in isDesignated && !isDesignated[k]
    {
      ghost var n1 := |worlds|;
      for i := 0 to |state2.worlds|
        invariant |worlds| == n1 + i && worlds[..n1] == old(worlds)
        invariant forall k: nat :: k < i ==> worlds[n1 + k] == World(n1 + k, state2.Props(k))
        invariant oldToNew1 == old(oldToNew1)
        invariant Renames(oldToNew2, i, n1)
        invariant forall k: nat :: k < n1 + i ==> k in fromState1 && (fromState1[k] <==> k < n1)
        invariant forall k: nat :: k < n1 + i ==> k in isDesignated && !isDesignated[k]
      {
        AppendWorld(state2.worlds[i], false);
      }
    }

    method CreateMergedWorldsList()
      requires state1.Valid() && state2.Valid() && worlds == []
      modifies this`worlds, this`oldToNew1, this`oldToNew2, this`fromState1, this`isDesignated
      ensures WorldsMerged()
    {
      AppendFirstWorlds();
      ghost var firstWorlds := worlds;
      AppendSecondWorlds();
      assert MergedWorlds(state1, state2, worlds) by {
        assert forall u: nat :: u < |firstWorlds| ==> worlds[u] == worlds[..|firstWorlds|][u];
        forall i: nat | i < |worlds|
          ensures worlds[i].id == i
        {
          if i >= |firstWorlds| {
            var k: nat := i - |firstWorlds|;
            assert worlds[|firstWorlds| + k] == World(|firstWorlds| + k, state2.Props(k));
          }
        }
      }
      var n1, n2 := |state1.worlds|, |state2.worlds|;
      ghost var unmarked := isDesignated;
      isDesignated := MarkDesignated(isDesignated, state1.designated, oldToNew1, n1, 0);
      ghost var marked := isDesignated;
      isDesignated := MarkDesignated(isDesignated, state2.designated, oldToNew2, n2, n1);
      MarkedBoth(state1, state2, |worlds|, unmarked, marked, isDesignated);
    }

    method CreateMergedRelationsList()
      requires state1.Valid() && state2.Valid() && state1.agents == state2.agents
      requires WorldsMerged() && relation == []
      modifies this`relation
      ensures IsUnion(state1, state2, Merged())
    {
      var n1, n2 := |state1.worlds|, |state2.worlds|;
      for agent := 0 to state1.agents
        invariant |relation| == agent
        invariant forall a: nat, u: nat, v: nat :: a < agent ==>
          (v in Lookup(relation[a], u) <==> UnionEdge(state1, state2, a, u, v))
      {
        var table: Successors := map[];
        table := AddRelations(table, state1.relations[agent], oldToNew1, n1, 0);
        ghost var table1 := table;
        table := AddRelations(table, state2.relations[agent], oldToNew2, n2, n1);
        forall u: nat, v: nat
          ensures v in Lookup(table, u) <==> UnionEdge(state1, state2, agent, u, v)
        {
          if state1.Edge(agent, u, v) {
            EdgeInRange(state1, agent, u, v);
          }
          assert v in Lookup(table1, u) <==> WorldRelation(u, v) in state1.relations[agent];
          assert v in Lookup(table, u) <==>
            (v in Lookup(table1, u) || (u >= n1 && v >= n1 && WorldRelation(u - n1, v - n1) in state2.relations[agent]));
        }
        relation := relation + [table];
      }
      assert forall a: nat, u: nat :: a < |relation| ==> Merged().Succ(a, u) == Lookup(relation[a], u);
    }

    // ----- The initial partition

    method AppendValuationBlock(ws: seq<nat>)
      modifies this`blocks, this`worldToBlock
      ensures blocks == old(blocks) + [ws]
      ensures worldToBlock.Keys == old(worldToBlock).Keys + Elements(ws)
      ensures forall u :: u in worldToBlock ==> worldToBlock[u] == if u in ws then |old(blocks)| else old(worldToBlock)[u]
    {
      ghost var before := worldToBlock;
      blocks := blocks + [[]];
      var block := |blocks| - 1;
      for i := 0 to |ws|
        invariant blocks == old(blocks) + [ws[..i]]
        invariant worldToBlock.Keys == before.Keys + Elements(ws[..i])
        invariant forall u :: u in worldToBlock ==> worldToBlock[u] == if u in ws[..i] then block else before[u]
      {
        assert ws[..i + 1] == ws[..i] + [ws[i]];
        blocks := blocks[block := blocks[block] + [ws[i]]];
        worldToBlock := worldToBlock[ws[i] := block];
      }
      assert ws[..|ws|] == ws;
    }

    // Groups the world ids by their key.
    method GroupByValuation() returns (partitions: map<string, seq<nat>>)
      requires forall i :: 0 <= i < |worlds| ==> worlds[i].id == i
      ensures Grouped(Labels(worlds), |worlds|, partitions)
    {
      partitions := map[];
      for i := 0 to |worlds|
        invariant Grouped(Labels(worlds), i, partitions)
      {
        var valuation := ConvertPropositionsToString(worlds[i].props);
        var before := if valuation in partitions then partitions[valuation] else [];
        GroupedStep(Labels(worlds), i, partitions, before);
        if valuation in partitions {
          partitions := partitions[valuation := partitions[valuation] + [worlds[i].id]];
        } else {
          partitions := partitions[valuation := [worlds[i].id]];
        }
      }
    }

    method PartitionIntoValuationBlocks()
      requires forall i :: 0 <= i < |worlds| ==> worlds[i].id == i
      requires Merged().Valid() && blocks == [] && worldToBlock == map[]
      modifies this`blocks, this`worldToBlock
      ensures Refining([])
      ensures forall u: nat, v: nat :: u < |worlds| && v < |worlds| ==>
                (worldToBlock[u] == worldToBlock[v] <==> Labels(worlds)[u] == Labels(worlds)[v])
    {
      var partitions := GroupByValuation();
      ghost var labels := Labels(worlds);
      var rest := partitions.Keys;
      while rest != {}
        invariant rest <= partitions.Keys
        invariant Blocked(labels, partitions.Keys - rest, blocks, worldToBlock)
        decreases |rest|
      {
        var valuation :| valuation in rest;
        ghost var blocks0, block0 := blocks, worldToBlock;
        AppendValuationBlock(partitions[valuation]);
        BlockedStep(labels, partitions, partitions.Keys - rest, valuation, blocks0, block0, worldToBlock);
        assert partitions.Keys - (rest - {valuation}) == partitions.Keys - rest + {valuation};
        rest := rest - {valuation};
      }
      BlockedAll(Merged(), partitions, blocks, worldToBlock);
    }

    // ----- The verdict

    method ContentsOf(block: seq<nat>) returns (first: bool, second: bool, designatedFirst: bool, designatedSecond: bool)
      requires forall w :: w in block ==> w in fromState1 && w in isDesignated
      ensures first <==> exists w :: w in block && fromState1[w]
      ensures second <==> exists w :: w in block && !fromState1[w]
      ensures designatedFirst <==> exists w :: w in block && fromState1[w] && isDesignated[w]
      ensures designatedSecond <==> exists w :: w in block && !fromState1[w] && isDesignated[w]
    {
      first, second, designatedFirst, designatedSecond := false, false, false, false;
      for i := 0 to |block|
        invariant first <==> exists w :: w in block[..i] && fromState1[w]
        invariant second <==> exists w :: w in block[..i] && !fromState1[w]
        invariant designatedFirst <==> exists w :: w in block[..i] && fromState1[w] && isDesignated[w]
        invariant designatedSecond <==> exists w :: w in block[..i] && !fromState1[w] && isDesignated[w]
      {
        var world := block[i];
        assert world in block;
        assert block[..i + 1] == block[..i] + [world];
        if fromState1[world] {
          first := true;
          if isDesignated[world] {
            designatedFirst := true;
          }
        } else {
          second := true;
          if isDesignated[world] {
            designatedSecond := true;
          }
        }
      }
      assert block[..|block|] == block;
    }

    method AllBlocksBalanced() returns (result: bool)
      requires state1.Valid() && state2.Valid() && WorldsMerged()
      requires Assigns(|worlds|, worldToBlock) && Listed(|worlds|, blocks, worldToBlock, [])
      ensures result <==> forall b: nat :: b < |blocks| ==> Balanced(state1, state2, worldToBlock, b)
    {
      for b := 0 to |blocks|
        invariant forall c: nat :: c < b ==> Balanced(state1, state2, worldToBlock, c)
      {
        BlockMembers(|worlds|, blocks, worldToBlock, b);
        var first, second, designatedFirst, designatedSecond := ContentsOf(blocks[b]);
        BalancedByContents(state1, state2, blocks[b], worldToBlock, fromState1, isDesignated, b);
        if !first || !second
          || (designatedFirst && !designatedSecond)
          || (!designatedFirst && designatedSecond)
        {
          assert !Balanced(state1, state2, worldToBlock, b);
          return false;
        }
      }
      return true;
    }

    /** The decision procedure: exact for bisimilarity up to the string key, on all states. */
    method IsBisimilar() returns (result: bool)
      requires state1.Valid() && state2.Valid()
      requires worlds == [] && relation == [] && blocks == [] && worldToBlock == map[]
      modifies this
      ensures result <==> Bisimilar(ByKey, state1, state2)
    {
      if state1.agents != state2.agents {
        return false;
      }
      CreateMergedWorldsList();
      CreateMergedRelationsList();
      UnionValid(state1, state2, Merged());
      PartitionIntoValuationBlocks();
      PartitionIntoRelationsBlocks();
      ghost var m := Merged();
      BlocksInhabited(|worlds|, blocks, worldToBlock);
      BalancedIffBisimilar(state1, state2, m, worldToBlock, |blocks|);
      result := AllBlocksBalanced();
    }
  }

  ghost predicate MergedWorlds(s1: StateValue, s2: StateValue, worlds: seq<World>) {
    && |worlds| == |s1.worlds| + |s2.worlds|
    && (forall i :: 0 <= i < |worlds| ==> worlds[i].id == i)
    && (forall u: nat :: u < |s1.worlds| ==> worlds[u].props == s1.Props(u))
    && (forall v: nat :: v < |s2.worlds| ==> worlds[|s1.worlds| + v].props == s2.Props(v))
  }

  ghost predicate Renames(oldToNew: map<nat, nat>, n: nat, shift: nat) {
    forall i: nat :: i < n ==> i in oldToNew && oldToNew[i] == shift + i
  }

  ghost predicate UnionDesignated(s1: StateValue, s2: StateValue, w: nat) {
    if w < |s1.worlds| then s1.Designated(w) else s2.Designated(w - |s1.worlds|)
  }

  method MarkDesignated(marks0: map<nat, bool>, designated: seq<nat>, oldToNew: map<nat, nat>, n: nat, shift: nat)
      returns (marks: map<nat, bool>)
    requires Renames(oldToNew, n, shift)
    requires forall i :: 0 <= i < |designated| ==> designated[i] < n
    ensures marks0.Keys <= marks.Keys
    ensures forall w: nat :: w in marks0 ==> (marks[w] <==> marks0[w] || (w >= shift && w - shift in designated))
  {
    marks := marks0;
    for i := 0 to |designated|
      invariant marks0.Keys <= marks.Keys
      invariant forall w: nat :: w in marks0 ==> (marks[w] <==> marks0[w] || (w >= shift && w - shift in designated[..i]))
    {
      assert designated[..i + 1] == designated[..i] + [designated[i]];
      marks := marks[oldToNew[designated[i]] := true];
    }
    assert designated[..|designated|] == designated;
  }

  lemma MarkedBoth(s1: StateValue, s2: StateValue, n: nat,
                   marks0: map<nat, bool>, marks1: map<nat, bool>, marks2: map<nat, bool>)
    requires s1.Valid() && marks0.Keys <= marks1.Keys <= marks2.Keys
    requires forall w: nat :: w < n ==> w in marks0 && !marks0[w]
    requires forall w: nat :: w in marks0 ==> (marks1[w] <==> marks0[w] || w - 0 in s1.designated)
    requires forall w: nat :: w in marks1 ==>
               (marks2[w] <==> marks1[w] || (w >= |s1.worlds| && w - |s1.worlds| in s2.designated))
    ensures forall w: nat :: w < n ==> w in marks2 && (marks2[w] <==> UnionDesignated(s1, s2, w))
  {
    forall w: nat | w < n
      ensures w in marks2 && (marks2[w] <==> UnionDesignated(s1, s2, w))
    {
      if s1.Designated(w) {
        DesignatedInRange(s1, w);
      }
    }
  }

  method AddRelations(table0: Successors, relations: seq<WorldRelation>, oldToNew: map<nat, nat>, n: nat, shift: nat)
      returns (table: Successors)
    requires Renames(oldToNew, n, shift) && RelationsInRange(relations, n)
    ensures forall u: nat, v: nat :: v in Lookup(table, u) <==>
              (v in Lookup(table0, u) || (u >= shift && v >= shift && WorldRelation(u - shift, v - shift) in relations))
  {
    table := table0;
    for i := 0 to |relations|
      invariant forall u: nat, v: nat :: v in Lookup(table, u) <==>
                  (v in Lookup(table0, u) || (u >= shift && v >= shift && WorldRelation(u - shift, v - shift) in relations[..i]))
    {
      assert relations[..i + 1] == relations[..i] + [relations[i]];
      var from, to := oldToNew[relations[i].from], oldToNew[relations[i].to];
      ghost var before := table;
      if from in table {
        table := table[from := table[from] + [to]];
      } else {
        table := table[from := [to]];
      }
      forall u: nat, v: nat
        ensures v in Lookup(table, u) <==> v in Lookup(before, u) || (u == from && v == to)
      {
        if u == from {
          assert Lookup(table, u) == Lookup(before, u) + [to];
        }
      }
    }
    assert relations[..|relations|] == relations;
  }

  // The groups hold the first n worlds, each under its own label.
  ghost predicate Grouped(labels: seq<string>, n: nat, partitions: map<string, seq<nat>>) {
    && n <= |labels|
    && (forall k :: k in partitions ==> partitions[k] != [])
    && (forall k :: k in partitions ==> forall u :: u in partitions[k] ==> u < n && labels[u] == k)
    && (forall u: nat :: u < n ==> labels[u] in partitions && u in partitions[labels[u]])
  }

  lemma GroupedStep(labels: seq<string>, i: nat, partitions: map<string, seq<nat>>, before: seq<nat>)
    requires Grouped(labels, i, partitions) && i < |labels|
    requires before == if labels[i] in partitions then partitions[labels[i]] else []
    ensures Grouped(labels, i + 1, partitions[labels[i] := before + [i]])
    ensures labels[i] !in partitions ==> before + [i] == [i]
  {
    var after := partitions[labels[i] := before + [i]];
    forall k, u | k in after && u in after[k]
      ensures u < i + 1 && labels[u] == k
    {
      if k != labels[i] {
        assert k in partitions && u in partitions[k];
      } else if u != i {
        assert u in before;
        assert k in partitions && u in partitions[k];
      }
    }
    forall u: nat | u < i + 1
      ensures labels[u] in after && u in after[labels[u]]
    {
      if u < i {
        assert labels[u] in partitions && u in partitions[labels[u]];
      }
    }
  }

  // The processed groups are blocks: same block exactly when same label.
  ghost predicate Blocked(labels: seq<string>, done: set<string>, blocks: seq<seq<nat>>, block: BlockMap) {
    && (forall u: nat :: u in block <==> u < |labels| && labels[u] in done)
    && (forall u: nat :: u in block ==> block[u] < |blocks|)
    && (forall b: nat :: b < |blocks| ==> blocks[b] != [])
    && (forall b: nat, u: nat :: b < |blocks| ==> BlockedRight(blocks, block, b, u))
    && (forall u: nat, v: nat :: u in block && v in block ==> (block[u] == block[v] <==> labels[u] == labels[v]))
  }

  ghost predicate BlockedRight(blocks: seq<seq<nat>>, block: BlockMap, b: nat, u: nat)
    requires b < |blocks|
  {
    u in blocks[b] <==> u in block && block[u] == b
  }

  lemma BlockedStep(labels: seq<string>, partitions: map<string, seq<nat>>, done: set<string>, k: string,
                    blocks: seq<seq<nat>>, block: BlockMap, block': BlockMap)
    requires Grouped(labels, |labels|, partitions) && k in partitions && k !in done
    requires Blocked(labels, done, blocks, block)
    requires block'.Keys == block.Keys + Elements(partitions[k])
    requires forall u :: u in block' ==> block'[u] == if u in partitions[k] then |blocks| else block[u]
    ensures Blocked(labels, done + {k}, blocks + [partitions[k]], block')
  {
    var ws, blocks' := partitions[k], blocks + [partitions[k]];
    forall u: nat
      ensures u in ws <==> u < |labels| && labels[u] == k
      ensures u in block' <==> u < |labels| && labels[u] in done + {k}
    {
      if u < |labels| && labels[u] == k {
        assert u in partitions[labels[u]];
      }
    }
    forall b: nat, u: nat | b < |blocks'|
      ensures BlockedRight(blocks', block', b, u)
    {
      if b < |blocks| {
        assert blocks'[b] == blocks[b];
        assert BlockedRight(blocks, block, b, u);
      }
    }
  }

  lemma BlockedAll(m: Model, partitions: map<string, seq<nat>>, blocks: seq<seq<nat>>, block: BlockMap)
    requires Grouped(m.labels, |m.labels|, partitions)
    requires Blocked(m.labels, partitions.Keys, blocks, block)
    ensures Assigns(|m.labels|, block) && Sound(m, block) && RefinesLabels(m, block)
    ensures Listed(|m.labels|, blocks, block, [])
  {
    assert forall u: nat :: u < |m.labels| ==> m.labels[u] in partitions;
    forall u: nat, v: nat | BisimilarWorlds(m, u, v)
      ensures u in block && v in block && block[u] == block[v]
    {
      BisimilarInRange(m, u, v);
    }
    forall b: nat, u: nat | b < |blocks|
      ensures ListedRight(|m.labels|, blocks, block, [], b, u)
    {
      assert u in block <==> u < |m.labels| && m.labels[u] in partitions.Keys;
      assert BlockedRight(blocks, block, b, u);
    }
  }

  lemma BlockMembers(n: nat, blocks: seq<seq<nat>>, block: BlockMap, b: nat)
    requires Assigns(n, block) && Listed(n, blocks, block, []) && b < |blocks|
    ensures forall w: nat :: w in blocks[b] <==> w < n && block[w] == b
  {
    forall w: nat
      ensures w in blocks[b] <==> w < n && block[w] == b
    {
      assert ListedRight(n, blocks, block, [], b, w);
    }
  }

  lemma BlocksInhabited(n: nat, blocks: seq<seq<nat>>, block: BlockMap)
    requires Assigns(n, block) && Listed(n, blocks, block, [])
    ensures forall w: nat :: w in block ==> block[w] < |blocks|
    ensures forall b: nat :: b < |blocks| ==> Inhabited(block, b)
  {
    forall b: nat | b < |blocks|
      ensures Inhabited(block, b)
    {
      BlockMembers(n, blocks, block, b);
      var w: nat := blocks[b][0];
      assert w in blocks[b];
      assert w in block && block[w] == b;
    }
  }

  lemma BalancedByContents(s1: StateValue, s2: StateValue, ws: seq<nat>, block: BlockMap,
                           fromState1: map<nat, bool>, isDesignated: map<nat, bool>, b: nat)
    requires s1.Valid() && s2.Valid()
    requires Assigns(|s1.worlds| + |s2.worlds|, block)
    requires forall w: nat :: w in ws <==> w in block && block[w] == b
    requires forall i: nat :: i in block ==> i in fromState1 && (fromState1[i] <==> i < |s1.worlds|)
    requires forall i: nat :: i in block ==> i in isDesignated && (isDesignated[i] <==> UnionDesignated(s1, s2, i))
    ensures HasFirst(s1, block, b) <==> exists w :: w in ws && fromState1[w]
    ensures HasSecond(s1, s2, block, b) <==> exists w :: w in ws && !fromState1[w]
    ensures HasDesignatedFirst(s1, block, b) <==> exists w :: w in ws && fromState1[w] && isDesignated[w]
    ensures HasDesignatedSecond(s1, s2, block, b) <==> exists w :: w in ws && !fromState1[w] && isDesignated[w]
  {
    if HasDesignatedFirst(s1, block, b) {
      var u: nat :| u in block && block[u] == b && s1.Designated(u);
      DesignatedInRange(s1, u);
      assert u in ws && fromState1[u] && isDesignated[u];
    }
    if HasDesignatedSecond(s1, s2, block, b) {
      var w: nat :| w in block && block[w] == b && w >= |s1.worlds| && s2.Designated(w - |s1.worlds|);
      assert w in ws && !fromState1[w] && isDesignated[w];
    }
  }

  // The ascending positions below n of the elements outside the set.
  ghost predicate Positions(block: seq<nat>, alike: set<nat>, n: nat, indices: seq<nat>) {
    && n <= |block|
    && (forall i :: 0 <= i < |indices| ==> indices[i] < n && block[indices[i]] !in alike)
    && (forall i, j :: 0 <= i < j < |indices| ==> indices[i] < indices[j])
    && (forall k :: 0 <= k < n ==> block[k] in alike || k in indices)
  }

  ghost predicate Found(block: seq<nat>, alike: set<nat>, n: nat, moving: seq<nat>, indices: seq<nat>) {
    && Positions(block, alike, n, indices) && |moving| == |indices|
    && forall w :: w in moving <==> w in block[..n] && w !in alike
  }

  lemma FoundStep(block: seq<nat>, alike: set<nat>, i: nat, moving: seq<nat>, indices: seq<nat>)
    requires Found(block, alike, i, moving, indices) && i < |block|
    ensures if block[i] in alike then Found(block, alike, i + 1, moving, indices)
            else Found(block, alike, i + 1, moving + [block[i]], indices + [i])
  {
    assert block[..i + 1] == block[..i] + [block[i]];
    if block[i] !in alike {
      var indices' := indices + [i];
      assert forall k :: k in indices' <==> k in indices || k == i;
      var moving' := moving + [block[i]];
      assert forall w :: w in moving' <==> w in moving || w == block[i];
    }
  }

  lemma EraseStart(block: seq<nat>, alike: set<nat>)
    ensures block == block[..|block|] + Select(block[|block|..], alike)
  {
    assert block[|block|..] == [];
    assert Select([], alike) == [];
  }

  // Before the first listed position there is nothing to erase.
  lemma EraseFinish(block: seq<nat>, alike: set<nat>, indices: seq<nat>, cut: nat)
    requires Positions(block, alike, |block|, indices)
    requires cut == if 0 < |indices| then indices[0] else |block|
    ensures cut <= |block| && block[..cut] + Select(block[cut..], alike) == Select(block, alike)
  {
    forall k | 0 <= k < cut
      ensures block[k] in alike
    {
      assert forall j :: 0 <= j < |indices| ==> indices[j] != k;
    }
    SelectPrefix(block, cut, alike);
  }

  lemma SelectPrefix(block: seq<nat>, cut: nat, alike: set<nat>)
    requires cut <= |block| && forall k :: 0 <= k < cut ==> block[k] in alike
    ensures block[..cut] + Select(block[cut..], alike) == Select(block, alike)
  {
    var front, back := block[..cut], block[cut..];
    assert block == front + back;
    SelectAll(front, alike);
    SelectConcat(front, back, alike);
  }

  method EraseIndices(block: seq<nat>, indices: seq<nat>, ghost alike: set<nat>) returns (kept: seq<nat>)
    requires Positions(block, alike, |block|, indices)
    ensures kept == Select(block, alike)
  {
    kept := block;
    var i := |indices|;
    ghost var cut: nat := |block|;
    EraseStart(block, alike);
    while i > 0
      invariant 0 <= i <= |indices| && cut <= |block| && cut == if i < |indices| then indices[i] else |block|
      invariant kept == block[..cut] + Select(block[cut..], alike)
    {
      i := i - 1;
      EraseStep(block, alike, indices, i, cut);
      kept := kept[..indices[i]] + kept[indices[i] + 1..];
      cut := indices[i];
    }
    EraseFinish(block, alike, indices, cut);
  }

  lemma {:induction false} SelectAll(ws: seq<nat>, chosen: set<nat>)
    requires forall i :: 0 <= i < |ws| ==> ws[i] in chosen
    ensures Select(ws, chosen) == ws
    decreases |ws|
  {
    if ws != [] {
      SelectAll(ws[..|ws| - 1], chosen);
      assert ws == ws[..|ws| - 1] + [ws[|ws| - 1]];
    }
  }

  lemma NothingBetween(block: seq<nat>, alike: set<nat>, indices: seq<nat>, i: nat, cut: nat, k: nat)
    requires Positions(block, alike, |block|, indices) && i < |indices|
    requires cut == if i + 1 < |indices| then indices[i + 1] else |block|
    requires indices[i] < k < cut
    ensures block[k] in alike
  {
    forall j | 0 <= j < |indices|
      ensures indices[j] != k
    {
      assert j <= i || (i + 1 < |indices| && indices[i + 1] <= indices[j]);
    }
  }

  /** Erasing the last remaining position leaves the selection of a longer tail. */
  lemma EraseStep(block: seq<nat>, alike: set<nat>, indices: seq<nat>, i: nat, cut: nat)
    requires Positions(block, alike, |block|, indices) && i < |indices|
    requires cut == if i + 1 < |indices| then indices[i + 1] else |block|
    ensures indices[i] < cut <= |block|
    ensures var kept, p := block[..cut] + Select(block[cut..], alike), indices[i];
            kept[..p] + kept[p + 1..] == block[..p] + Select(block[p..], alike)
  {
    var p := indices[i];
    assert p < cut <= |block| && block[p] !in alike;
    forall k | p < k < cut
      ensures block[k] in alike
    {
      NothingBetween(block, alike, indices, i, cut, k);
    }
    EraseAt(block, alike, p, cut);
  }

  lemma EraseAt(block: seq<nat>, alike: set<nat>, p: nat, cut: nat)
    requires p < cut <= |block| && block[p] !in alike
    requires forall k :: p < k < cut ==> block[k] in alike
    ensures var kept := block[..cut] + Select(block[cut..], alike);
            kept[..p] + kept[p + 1..] == block[..p] + Select(block[p..], alike)
  {
    SplitAround(block, p, cut);
    SelectTail(block[p], block[p + 1..cut], block[cut..], alike);
    DropAt(block[..p], block[p], block[p + 1..cut], Select(block[cut..], alike));
  }

  lemma SelectTail(x: nat, between: seq<nat>, tail: seq<nat>, alike: set<nat>)
    requires x !in alike && forall i :: 0 <= i < |between| ==> between[i] in alike
    ensures Select([x] + (between + tail), alike) == between + Select(tail, alike)
  {
    SelectAll(between, alike);
    SelectConcat(between, tail, alike);
    SelectConcat([x], between + tail, alike);
    SelectNone(x, alike);
  }

  lemma SelectNone(w: nat, chosen: set<nat>)
    requires w !in chosen
    ensures Select([w], chosen) == []
  {
  }

  lemma SplitAround(s: seq<nat>, p: nat, cut: nat)
    requires p < cut <= |s|
    ensures s[..cut] == s[..p] + [s[p]] + s[p + 1..cut]
    ensures s[p..] == [s[p]] + (s[p + 1..cut] + s[cut..])
  {
  }

  lemma DropAt(front: seq<nat>, x: nat, between: seq<nat>, back: seq<nat>)
    ensures var kept := front + [x] + between + back;
            kept[..|front|] + kept[|front| + 1..] == front + (between + back)
  {
    var kept := front + [x] + between + back;
    assert kept[..|front|] == front;
    assert kept[|front| + 1..] == between + back;
  }

  // All worlds of block b reach the same blocks as the given one.
  ghost predicate Uniform(m: Model, block: BlockMap, base: nat, b: nat)
    requires Assigns(|m.labels|, block)
  {
    forall u: nat :: u < |m.labels| && block[u] == b ==> SameSignature(m, block, base, u)
  }

  lemma UnchangedBlock(m: Model, lists: seq<seq<nat>>, block: BlockMap, b: nat, kept: seq<nat>)
    requires Assigns(|m.labels|, block) && Listed(|m.labels|, lists, block, []) && b < |lists|
    requires kept == Select(lists[b], Alike(m, block, lists[b][0], lists[b]))
    requires forall w :: w in lists[b] ==> w in Alike(m, block, lists[b][0], lists[b])
    ensures lists[b := kept] == lists
    ensures Uniform(m, block, lists[b][0], b)
  {
    BlockMembers(|m.labels|, lists, block, b);
    SelectAll(lists[b], Alike(m, block, lists[b][0], lists[b]));
  }

  lemma TakeOut(m: Model, lists: seq<seq<nat>>, block: BlockMap, b: nat, kept: seq<nat>, moving: seq<nat>)
    requires m.Valid() && Assigns(|m.labels|, block) && Sound(m, block)
    requires Listed(|m.labels|, lists, block, []) && b < |lists|
    requires kept == Select(lists[b], Alike(m, block, lists[b][0], lists[b]))
    requires forall w :: w in moving <==> w in lists[b] && w !in Alike(m, block, lists[b][0], lists[b])
    ensures Listed(|m.labels|, lists[b := kept], block, moving)
    ensures MovableTogether(m, block, moving)
  {
    var base: nat := lists[b][0];
    assert base in lists[b] && base in Alike(m, block, base, lists[b]);
    assert base in kept;
    BlockMembers(|m.labels|, lists, block, b);
    BlockClosed(m, block, b, lists[b]);
    SelectionClosed(m, block, base, lists[b], kept, moving);
    var lists' := lists[b := kept];
    forall c: nat, u: nat | c < |lists'|
      ensures ListedRight(|m.labels|, lists', block, moving, c, u)
    {
      assert ListedRight(|m.labels|, lists, block, [], c, u);
      if c != b && u in moving {
        assert ListedRight(|m.labels|, lists, block, [], b, u);
      }
    }
  }

  lemma UniformIsStable(m: Model, lists: seq<seq<nat>>, block: BlockMap)
    requires Assigns(|m.labels|, block) && Listed(|m.labels|, lists, block, [])
    requires forall b: nat :: b < |lists| ==> Uniform(m, block, lists[b][0], b)
    ensures Stable(m, block)
  {
    forall u: nat, v: nat | u < |m.labels| && v < |m.labels| && block[u] == block[v]
      ensures SameSignature(m, block, u, v)
    {
      var b: nat := block[u];
      assert Uniform(m, block, lists[b][0], b);
    }
  }

  // Worlds of one block that no bisimilar world is separated from.
  ghost predicate MovableTogether(m: Model, block: BlockMap, moving: seq<nat>)
    requires Assigns(|m.labels|, block)
  {
    && (forall w :: w in moving ==> w < |m.labels|)
    && (forall u, v :: u in moving && v in moving && u in block && v in block ==> block[u] == block[v])
    && ClosedUnderBisimilarity(m, moving)
  }

  /** One step of a move keeps every invariant, with the remaining worlds under way. */
  lemma MoveStep(m: Model, blocks: seq<seq<nat>>, block: BlockMap, moving: seq<nat>, same: seq<nat>, different: seq<nat>)
    requires m.Valid() && Assigns(|m.labels|, block) && moving != []
    requires Sound(m, block) && RefinesLabels(m, block) && Listed(|m.labels|, blocks, block, moving)
    requires MovableTogether(m, block, moving)
    requires same != []
    requires forall w :: w in same <==> w in Alike(m, block, moving[0], moving)
    requires forall w :: w in different <==> w in moving && w !in Alike(m, block, moving[0], moving)
    ensures var block' := Reassign(block, same, |blocks|);
            && Assigns(|m.labels|, block')
            && Sound(m, block')
            && RefinesLabels(m, block')
            && Refines(|m.labels|, block', block)
            && Listed(|m.labels|, blocks + [same], block', different)
            && MovableTogether(m, block', different)
  {
    SelectionClosed(m, block, moving[0], moving, same, different);
    ReassignSound(m, block, same, |blocks|);
    ReassignRefines(m, block, same, |blocks|);
    ReassignListed(|m.labels|, blocks, block, moving, same, different);
  }

  lemma ReassignListed(n: nat, blocks: seq<seq<nat>>, block: BlockMap, moving: seq<nat>, same: seq<nat>, rest: seq<nat>)
    requires Assigns(n, block) && Listed(n, blocks, block, moving)
    requires same != [] && forall w :: w in moving ==> w < n
    requires forall w :: w in moving <==> w in same || w in rest
    requires forall w :: !(w in same && w in rest)
    ensures Assigns(n, Reassign(block, same, |blocks|))
    ensures Listed(n, blocks + [same], Reassign(block, same, |blocks|), rest)
  {
    var blocks', block' := blocks + [same], Reassign(block, same, |blocks|);
    forall b: nat, u: nat | b < |blocks'|
      ensures ListedRight(n, blocks', block', rest, b, u)
    {
      assert u in moving <==> u in same || u in rest;
      if b < |blocks| {
        assert blocks'[b] == blocks[b];
        assert ListedRight(n, blocks, block, moving, b, u);
      } else {
        assert blocks'[b] == same;
      }
    }
  }

  lemma ReassignRefines(m: Model, block: BlockMap, ws: seq<nat>, b: nat)
    requires Assigns(|m.labels|, block) && RefinesLabels(m, block)
    requires forall u: nat :: u < |m.labels| ==> block[u] < b
    requires forall u: nat, v: nat :: u in ws && v in ws && u < |m.labels| && v < |m.labels| ==> block[u] == block[v]
    ensures Assigns(|m.labels|, Reassign(block, ws, b))
    ensures Refines(|m.labels|, Reassign(block, ws, b), block)
    ensures RefinesLabels(m, Reassign(block, ws, b))
  {
  }

  lemma RefinesTransitive(n: nat, fine: BlockMap, middle: BlockMap, coarse: BlockMap)
    requires Assigns(n, fine) && Assigns(n, middle) && Assigns(n, coarse)
    requires Refines(n, fine, middle) && Refines(n, middle, coarse)
    ensures Refines(n, fine, coarse)
  {
  }
}
