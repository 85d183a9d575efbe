/** Perspective shift, splitting into global states, and applicability. */
module PerspectiveShifts {
  import opened Actions
  import opened Formulas
  import opened ProductUpdates
  import opened States

  // ----- The order in which an unordered set is walked, left open

  type Enumeration = set<nat> -> seq<nat>

  ghost predicate Distinct(xs: seq<nat>) {
    forall i, j :: 0 <= i < j < |xs| ==> xs[i] != xs[j]
  }

  ghost predicate Lists(xs: seq<nat>, ws: set<nat>) {
    Distinct(xs) && forall w: nat :: w in xs <==> w in ws
  }

  ghost predicate IsEnumeration(enum: Enumeration) {
    forall ws: set<nat> :: Lists(enum(ws), ws)
  }

  // Some listing of a set, its elements taken out one after the other.
  ghost function Listing(ws: set<nat>): (xs: seq<nat>)
    ensures forall w: nat :: w in xs <==> w in ws
    ensures Distinct(xs)
  {
    if ws == {} then []
    else
      var w :| w in ws;
      Listing(ws - {w}) + [w]
  }

  ghost function ListingOrder(): (enum: Enumeration) {
    (ws: set<nat>) => Listing(ws)
  }

  /** There are such orders. */
  lemma EnumerationExists()
    ensures IsEnumeration(ListingOrder())
  {
    forall ws: set<nat>
      ensures Lists(ListingOrder()(ws), ws)
    {
      assert ListingOrder()(ws) == Listing(ws);
    }
  }

  // ----- Specification of the shift

  ghost function Position(xs: seq<nat>, w: nat): (i: nat)
    requires w in xs
    ensures i < |xs| && xs[i] == w
  {
    var i: nat :| i < |xs| && xs[i] == w;
    i
  }

  // The renaming of one relation, if both ends are listed.
  ghost function Renamed(r: WorldRelation, xs: seq<nat>): (rs: seq<WorldRelation>) {
    if r.from in xs && r.to in xs then [WorldRelation(Position(xs, r.from), Position(xs, r.to))] else []
  }

  // Relations between listed worlds, renamed to list positions.
  ghost function Restrict(rs: seq<WorldRelation>, xs: seq<nat>): (r: seq<WorldRelation>) {
    if rs == [] then [] else
      Restrict(rs[..|rs| - 1], xs) + Renamed(rs[|rs| - 1], xs)
  }

  ghost function CopiedWorlds(s: StateValue, xs: seq<nat>): (ws: seq<World>)
    requires forall i :: 0 <= i < |xs| ==> xs[i] < |s.worlds|
  {
    seq(|xs|, i requires 0 <= i < |xs| => World(i, s.Props(xs[i])))
  }

  ghost function Positions(n: nat): (ds: seq<nat>) {
    seq(n, i requires 0 <= i < n => i)
  }

  ghost function Induced(s: StateValue, xs: seq<nat>): (r: StateValue)
    requires s.Valid() && forall i :: 0 <= i < |xs| ==> xs[i] < |s.worlds|
  {
    StateValue(s.agents, CopiedWorlds(s, xs), Positions(|xs|),
               seq(s.agents, a requires 0 <= a < s.agents => Restrict(s.relations[a], xs)))
  }

  ghost function Shift(enum: Enumeration, s: StateValue, agent: nat): (r: StateValue)
    requires IsEnumeration(enum) && s.Valid() && agent < s.agents
  {
    ReachedListed(enum, s, agent);
    Induced(s, enum(Reached(s, agent)))
  }

  lemma ReachedListed(enum: Enumeration, s: StateValue, agent: nat)
    requires IsEnumeration(enum)
    ensures Lists(enum(Reached(s, agent)), Reached(s, agent))
    ensures forall i :: 0 <= i < |enum(Reached(s, agent))| ==> enum(Reached(s, agent))[i] < |s.worlds|
  {
    var xs := enum(Reached(s, agent));
    assert Lists(xs, Reached(s, agent));
    assert forall i :: 0 <= i < |xs| ==> xs[i] in xs;
  }

  // ----- What a shift is, without reference to relation lists

  /** An all-designated copy of the submodel induced by the listed worlds. */
  ghost predicate IsInducedCopy(s: StateValue, xs: seq<nat>, r: StateValue) {
    && r.agents == s.agents && |r.worlds| == |xs|
    && (forall i: nat :: i < |xs| ==> xs[i] < |s.worlds| && r.Props(i) == s.Props(xs[i]))
    && (forall i: nat :: r.Designated(i) <==> i < |xs|)
    && (forall a: nat, i: nat, j: nat :: r.Edge(a, i, j) <==> i < |xs| && j < |xs| && s.Edge(a, xs[i], xs[j]))
  }

  lemma RenamedExact(r: WorldRelation, xs: seq<nat>, i: nat, j: nat)
    requires Distinct(xs)
    ensures WorldRelation(i, j) in Renamed(r, xs) <==> i < |xs| && j < |xs| && r == WorldRelation(xs[i], xs[j])
  {
    if i < |xs| && j < |xs| && r == WorldRelation(xs[i], xs[j]) {
      assert Position(xs, xs[i]) == i && Position(xs, xs[j]) == j;
    }
  }

  lemma {:induction false} RestrictExact(rs: seq<WorldRelation>, xs: seq<nat>, i: nat, j: nat)
    requires Distinct(xs)
    ensures WorldRelation(i, j) in Restrict(rs, xs) <==>
            i < |xs| && j < |xs| && WorldRelation(xs[i], xs[j]) in rs
    decreases |rs|
  {
    if rs != [] {
      var last, front := rs[|rs| - 1], rs[..|rs| - 1];
      RestrictExact(front, xs, i, j);
      RenamedExact(last, xs, i, j);
      assert rs == front + [last];
      assert Restrict(rs, xs) == Restrict(front, xs) + Renamed(last, xs);
    }
  }

  lemma {:induction false} RestrictInRange(rs: seq<WorldRelation>, xs: seq<nat>)
    ensures RelationsInRange(Restrict(rs, xs), |xs|)
    decreases |rs|
  {
    if rs != [] {
      RestrictInRange(rs[..|rs| - 1], xs);
    }
  }

  lemma InducedIsCopy(s: StateValue, xs: seq<nat>)
    requires s.Valid() && Distinct(xs) && forall i :: 0 <= i < |xs| ==> xs[i] < |s.worlds|
    ensures IsInducedCopy(s, xs, Induced(s, xs)) && Induced(s, xs).Valid()
  {
    var r := Induced(s, xs);
    forall a: nat, i: nat, j: nat
      ensures r.Edge(a, i, j) <==> i < |xs| && j < |xs| && s.Edge(a, xs[i], xs[j])
    {
      if a < s.agents {
        RestrictExact(s.relations[a], xs, i, j);
      }
    }
    forall a | 0 <= a < |r.relations|
      ensures RelationsInRange(r.relations[a], |r.worlds|)
    {
      RestrictInRange(s.relations[a], xs);
    }
    forall i: nat
      ensures r.Designated(i) <==> i < |xs|
    {
      if i < |xs| {
        assert r.designated[i] == i;
      }
    }
  }

  /** The shifted state is an all-designated copy of the reachable submodel. */
  lemma ShiftIsCopy(enum: Enumeration, s: StateValue, agent: nat)
    requires IsEnumeration(enum) && s.Valid() && agent < s.agents
    ensures Lists(enum(Reached(s, agent)), Reached(s, agent))
    ensures IsInducedCopy(s, enum(Reached(s, agent)), Shift(enum, s, agent))
    ensures Shift(enum, s, agent).Valid()
  {
    ReachedListed(enum, s, agent);
    InducedIsCopy(s, enum(Reached(s, agent)));
  }

  /** Spelled out on the stored lists: world i has the propositions of the i-th world that
      the agent reaches, every world is designated, and every agent relates two worlds, in
      this direction, exactly when it relates the originals. */
  lemma ShiftInFull(enum: Enumeration, s: StateValue, agent: nat, a: nat, i: nat, j: nat)
    requires IsEnumeration(enum) && s.Valid() && agent < s.agents && a < s.agents
    requires i < |Shift(enum, s, agent).worlds| && j < |Shift(enum, s, agent).worlds|
    ensures var r, xs := Shift(enum, s, agent), enum(Reached(s, agent));
            && r.agents == s.agents && |r.worlds| == |xs| && xs[i] < |s.worlds| && xs[j] < |s.worlds|
            && r.worlds[i] == World(i, s.worlds[xs[i]].props) && i in r.designated
            && (WorldRelation(i, j) in r.relations[a] <==> WorldRelation(xs[i], xs[j]) in s.relations[a])
  {
    ShiftIsCopy(enum, s, agent);
    var r, xs := Shift(enum, s, agent), enum(Reached(s, agent));
    assert r.Edge(a, i, j) <==> s.Edge(a, xs[i], xs[j]);
    assert r.Designated(i);
  }

  // ----- Idempotence up to isomorphism

  // f lists, for each world of r, the world of s it is a copy of.
  ghost predicate IsIsomorphism(r: StateValue, s: StateValue, f: seq<nat>) {
    && r.agents == s.agents && |f| == |r.worlds| == |s.worlds|
    && Lists(f, Indices(|s.worlds|))
    && (forall i: nat :: i < |f| ==> f[i] < |s.worlds| && r.Props(i) == s.Props(f[i])
                                     && (r.Designated(i) <==> s.Designated(f[i])))
    && (forall a: nat, i: nat, j: nat :: i < |f| && j < |f| ==> (r.Edge(a, i, j) <==> s.Edge(a, f[i], f[j])))
  }

  lemma AllDesignatedAllReached(s: StateValue, agent: nat)
    requires forall w: nat :: w < |s.worlds| ==> s.Designated(w)
    ensures Reached(s, agent) == Indices(|s.worlds|)
  {
    DesignatedReachable(s, agent);
    forall w: nat | w < |s.worlds|
      ensures w in Reached(s, agent)
    {
      assert s.Designated(w);
    }
  }

  lemma {:induction false} ListLength(xs: seq<nat>, ws: set<nat>)
    requires Lists(xs, ws)
    ensures |xs| == |ws|
    decreases |xs|
  {
    if xs == [] {
      assert forall w :: w !in ws;
      assert ws == {};
    } else {
      var last, front := xs[|xs| - 1], xs[..|xs| - 1];
      assert xs == front + [last];
      assert last in xs && last !in front;
      ListLength(front, ws - {last});
    }
  }

  /** Shifting twice to the same agent changes nothing but the world names. */
  lemma ShiftIdempotent(enum: Enumeration, s: StateValue, agent: nat)
    requires IsEnumeration(enum) && s.Valid() && agent < s.agents
    ensures Shift(enum, s, agent).Valid()
    ensures exists f :: IsIsomorphism(Shift(enum, Shift(enum, s, agent), agent), Shift(enum, s, agent), f)
  {
    ShiftIsCopy(enum, s, agent);
    var r := Shift(enum, s, agent);
    ShiftIsCopy(enum, r, agent);
    AllDesignatedAllReached(r, agent);
    var f := enum(Reached(r, agent));
    ListLength(f, Indices(|r.worlds|));
    assert IsIsomorphism(Shift(enum, r, agent), r, f);
  }

  // ----- Applicability

  /** Every world the owner considers possible admits some event. */
  ghost predicate Applicable(s: StateValue, a: ActionValue)
    requires Fits(s, a)
  {
    forall w: nat :: w in Reached(s, a.owner) ==> SomeEventApplies(s, a, w)
  }

  ghost predicate SomeEventApplies(s: StateValue, a: ActionValue, w: nat)
    requires Fits(s, a) && w < |s.worlds|
  {
    exists e: nat :: e < |a.events| && Applies(s, a, w, e)
  }

  lemma SameProps(s: StateValue, r: StateValue, a: ActionValue, w: nat, v: nat)
    requires Fits(s, a) && Fits(r, a) && w < |s.worlds| && v < |r.worlds| && s.Props(w) == r.Props(v)
    ensures SomeEventApplies(s, a, w) <==> SomeEventApplies(r, a, v)
  {
    assert forall e: nat :: e < |a.events| ==> (Applies(s, a, w, e) <==> Applies(r, a, v, e));
  }

  /** Applicability for the owner is the same before and after shifting to the owner. */
  lemma ShiftKeepsApplicability(enum: Enumeration, s: StateValue, a: ActionValue)
    requires IsEnumeration(enum) && Fits(s, a)
    ensures Fits(Shift(enum, s, a.owner), a)
    ensures Applicable(Shift(enum, s, a.owner), a) <==> Applicable(s, a)
  {
    ShiftIsCopy(enum, s, a.owner);
    var r, xs := Shift(enum, s, a.owner), enum(Reached(s, a.owner));
    AllDesignatedAllReached(r, a.owner);
    if Applicable(r, a) {
      forall w: nat | w in Reached(s, a.owner)
        ensures SomeEventApplies(s, a, w)
      {
        assert w in xs;
        var i := Position(xs, w);
        assert i in Reached(r, a.owner);
        SameProps(s, r, a, w, i);
      }
    }
    if Applicable(s, a) {
      forall i: nat | i in Reached(r, a.owner)
        ensures SomeEventApplies(r, a, i)
      {
        assert xs[i] in xs;
        SameProps(s, r, a, xs[i], i);
      }
    }
  }

  method IsActionApplicable(s: StateValue, a: ActionValue) returns (applicable: bool)
    requires Fits(s, a)
    ensures applicable <==> Applicable(s, a)
  {
    var worlds := s.GetDesignatedWorldReachables(a.owner);
    for k := 0 to |worlds|
      invariant forall i :: 0 <= i < k ==> worlds[i] in Reached(s, a.owner) && SomeEventApplies(s, a, worlds[i])
    {
      assert worlds[k] in worlds;
      var found := false;
      for e := 0 to |a.events|
        invariant found <==> exists f: nat :: f < e && Applies(s, a, worlds[k], f)
      {
        if Applies(s, a, worlds[k], e) {
          found := true;
        }
      }
      if !found {
        return false;
      }
    }
    return true;
  }

  // ----- Computing the shift

  // The search of the shift keeps the visited worlds in an unordered set.
  method Visit(s: StateValue, agent: nat) returns (visited: set<nat>)
    requires s.Valid() && agent < s.agents
    ensures visited == Reached(s, agent)
  {
    var frontier: seq<nat> := [];
    visited := {};
    for d := 0 to |s.designated|
      invariant frontier == s.designated[..d]
      invariant visited == Elements(s.designated[..d])
    {
      assert s.designated[..d + 1] == s.designated[..d] + [s.designated[d]];
      frontier := frontier + [s.designated[d]];
      visited := visited + {s.designated[d]};
    }
    assert s.designated[..|s.designated|] == s.designated;
    SearchStart(s, agent);
    while |frontier| > 0
      invariant Searching(s, agent, frontier, visited)
      decreases |s.worlds| - |visited|, |frontier|
    {
      ExpandStart(s, agent, frontier, visited);
      frontier, visited := VisitNeighbours(s, agent, frontier[|frontier| - 1], frontier[..|frontier| - 1], visited);
      SeenBounded(s, agent, frontier, visited);
    }
    SearchDone(s, agent, visited);
  }

  method VisitNeighbours(s: StateValue, agent: nat, current: nat, frontier0: seq<nat>, visited0: set<nat>)
      returns (frontier: seq<nat>, visited: set<nat>)
    requires s.Valid() && agent < s.agents
    requires Expanding(s, agent, current, 0, frontier0, visited0)
    ensures Searching(s, agent, frontier, visited)
    ensures Progress(visited0, frontier0, visited, frontier)
  {
    frontier, visited := frontier0, visited0;
    for r := 0 to |s.relations[agent]|
      invariant Expanding(s, agent, current, r, frontier, visited)
      invariant Progress(visited0, frontier0, visited, frontier)
    {
      var relation := s.relations[agent][r];
      ExpandStep(s, agent, current, r, frontier, visited);
      if relation.from == current && relation.to !in visited {
        frontier := frontier + [relation.to];
        visited := visited + {relation.to};
      }
    }
    ExpandDone(s, agent, current, frontier, visited);
  }

  ghost predicate MapsToPositions(mapping: map<nat, nat>, xs: seq<nat>) {
    forall i: nat :: i < |xs| ==> xs[i] in mapping && mapping[xs[i]] == i
  }

  method CopyWorlds(s: StateValue, xs: seq<nat>, result: State) returns (oldToNew: map<nat, nat>)
    requires s.Valid() && Distinct(xs) && forall i :: 0 <= i < |xs| ==> xs[i] < |s.worlds|
    requires result.worlds == [] && result.designated == []
    modifies result
    ensures result.worlds == CopiedWorlds(s, xs) && result.designated == Positions(|xs|)
    ensures result.relations == old(result.relations)
    ensures MapsToPositions(oldToNew, xs)
  {
    oldToNew := map[];
    for k := 0 to |xs|
      invariant |result.worlds| == |result.designated| == k
      invariant forall i: nat :: i < k ==> result.worlds[i] == World(i, s.Props(xs[i])) && result.designated[i] == i
      invariant result.relations == old(result.relations)
      invariant forall i: nat :: i < k ==> xs[i] in oldToNew && oldToNew[xs[i]] == i
    {
      ghost var before := result.Value();
      var new_world := result.CreateWorldLike(s.worlds[xs[k]]);
      result.AddDesignatedWorld(new_world);
      oldToNew := oldToNew[xs[k] := new_world];
    }
  }

  method CopyRelations(s: StateValue, xs: seq<nat>, oldToNew: map<nat, nat>, visited: set<nat>, result: State)
    requires s.Valid() && Lists(xs, visited) && MapsToPositions(oldToNew, xs)
    requires result.relations == seq(s.agents, _ => [])
    modifies result
    ensures result.worlds == old(result.worlds) && result.designated == old(result.designated)
    ensures result.relations == seq(s.agents, a requires 0 <= a < s.agents => Restrict(s.relations[a], xs))
  {
    for agent := 0 to s.agents
      invariant result.worlds == old(result.worlds) && result.designated == old(result.designated)
      invariant |result.relations| == s.agents
      invariant forall a: nat :: a < s.agents ==>
        result.relations[a] == if a < agent then Restrict(s.relations[a], xs) else []
    {
      CopyAgentRelations(s, agent, xs, oldToNew, visited, result);
    }
  }

  method CopyAgentRelations(s: StateValue, agent: nat, xs: seq<nat>, oldToNew: map<nat, nat>, visited: set<nat>, result: State)
    requires s.Valid() && agent < s.agents && Lists(xs, visited) && MapsToPositions(oldToNew, xs)
    requires |result.relations| == s.agents && result.relations[agent] == []
    modifies result
    ensures result.worlds == old(result.worlds) && result.designated == old(result.designated)
    ensures result.relations == old(result.relations)[agent := Restrict(s.relations[agent], xs)]
  {
    var rs := s.relations[agent];
    for k := 0 to |rs|
      invariant result.worlds == old(result.worlds) && result.designated == old(result.designated)
      invariant result.relations == old(result.relations)[agent := Restrict(rs[..k], xs)]
    {
      assert rs[..k + 1][..k] == rs[..k];
      if rs[k].from in visited && rs[k].to in visited {
        MappedIsPosition(oldToNew, xs, rs[k].from);
        MappedIsPosition(oldToNew, xs, rs[k].to);
        result.AddIndistinguishabilityRelation(agent, oldToNew[rs[k].from], oldToNew[rs[k].to]);
      }
      assert result.relations[agent] == Restrict(rs[..k + 1], xs);
    }
    assert rs[..|rs|] == rs;
  }

  lemma MappedIsPosition(mapping: map<nat, nat>, xs: seq<nat>, w: nat)
    requires Distinct(xs) && MapsToPositions(mapping, xs) && w in xs
    ensures w in mapping && mapping[w] == Position(xs, w)
  {
    var i := Position(xs, w);
    assert xs[i] == w;
  }

  /** The worklist search and the copying loops compute the shift. */
  method PerformPerspectiveShift(enum: Enumeration, s: StateValue, agent: nat) returns (r: StateValue)
    requires IsEnumeration(enum) && s.Valid() && agent < s.agents
    ensures r == Shift(enum, s, agent)
    ensures r.Valid() && IsInducedCopy(s, enum(Reached(s, agent)), r)
  {
    var visited := Visit(s, agent);
    ShiftIsCopy(enum, s, agent);
    ReachedListed(enum, s, agent);
    var order := enum(visited);
    var result := new State(s.agents);
    var oldToNew := CopyWorlds(s, order, result);
    CopyRelations(s, order, oldToNew, visited, result);
    r := result.Value();
  }

  // ----- Splitting

  /** One state per designated world, in which the agent knows that world. */
  ghost function Split(s: StateValue, agent: nat): (r: seq<StateValue>)
    requires s.Valid() && agent < s.agents
    ensures |r| == |s.designated|
    ensures forall i: nat :: i < |r| ==> r[i] == s.GlobalFor(agent, s.designated[i])
  {
    seq(|s.designated|, i requires 0 <= i < |s.designated| => s.GlobalFor(agent, s.designated[i]))
  }

  lemma SplitValid(s: StateValue, agent: nat)
    requires s.Valid() && agent < s.agents
    ensures forall i: nat :: i < |Split(s, agent)| ==> Split(s, agent)[i].Valid()
    ensures forall i: nat, f: FormulaValue :: i < |Split(s, agent)| && f.Valid() ==>
              (Split(s, agent)[i].Satisfies(f) <==> f.Satisfied(s.Props(s.designated[i])))
  {
    forall i: nat, f: FormulaValue | i < |Split(s, agent)| && f.Valid()
      ensures Split(s, agent)[i].Satisfies(f) <==> f.Satisfied(s.Props(s.designated[i]))
    {
      var r := Split(s, agent)[i];
      assert r.designated[0] == s.designated[i] && |r.designated| == 1;
      assert r.Props(r.designated[0]) == s.Props(s.designated[i]);
    }
  }

  method SplitIntoGlobalStates(s: StateValue, agent: nat) returns (r: seq<StateValue>)
    requires s.Valid() && agent < s.agents
    ensures r == Split(s, agent)
  {
    r := [];
    for i := 0 to |s.designated|
      invariant r == Split(s, agent)[..i]
    {
      var newState := new State.Copy(s);
      newState.SetGlobalForAgent(agent, s.designated[i]);
      r := r + [newState.Value()];
    }
  }

  // ----- Well-formedness along every run of operations

  datatype Operation = Update(action: ActionValue) | ShiftTo(agent: nat) | Commit(agent: nat, index: nat)

  ghost predicate Enabled(s: StateValue, op: Operation) {
    && s.Valid()
    && match op
       case Update(a) => a.Valid(s.agents)
       case ShiftTo(agent) => agent < s.agents
       case Commit(agent, index) => agent < s.agents && index < |s.designated|
  }

  ghost function Apply(enum: Enumeration, s: StateValue, op: Operation): (r: StateValue)
    requires IsEnumeration(enum) && Enabled(s, op)
  {
    match op
    case Update(a) => Product(s, a)
    case ShiftTo(agent) => Shift(enum, s, agent)
    case Commit(agent, index) => Split(s, agent)[index]
  }

  // One operation of a run; nothing is said of malformed states.
  ghost predicate Step(enum: Enumeration, s: StateValue, op: Operation, r: StateValue)
    requires IsEnumeration(enum)
  {
    s.Valid() ==> Enabled(s, op) && r == Apply(enum, s, op)
  }

  ghost predicate IsRun(enum: Enumeration, states: seq<StateValue>, ops: seq<Operation>)
    requires IsEnumeration(enum)
  {
    && |states| == |ops| + 1
    && forall i: nat :: i < |ops| ==> Step(enum, states[i], ops[i], states[i + 1])
  }

  /** Ids equal indices and every reference is in range, in every state of every run. */
  lemma {:induction false} RunStaysValid(enum: Enumeration, states: seq<StateValue>, ops: seq<Operation>, k: nat)
    requires IsEnumeration(enum) && IsRun(enum, states, ops) && states[0].Valid() && k <= |ops|
    ensures states[k].Valid() && states[k].agents == states[0].agents
    decreases k
  {
    if k > 0 {
      RunStaysValid(enum, states, ops, k - 1);
      var s, i: nat := states[k - 1], k - 1;
      assert Step(enum, states[i], ops[i], states[i + 1]);
      match ops[k - 1]
      case Update(a) => ProductIsProduct(s, a);
      case ShiftTo(agent) => ShiftIsCopy(enum, s, agent);
      case Commit(agent, index) => SplitValid(s, agent);
    }
  }
}
