/** A planning problem on which carrying out the planner's own policy never reaches the
    goal: in one state the policy waits before it moves, the lookup answers with the first
    of its entries, and waiting leads back to the state. */
module LoopingPolicies {
  import opened Actions
  import opened AndOr
  import opened Bisimulation
  import opened BreadthFirst
  import opened Expansions
  import opened Extraction
  import opened Formulas
  import opened LoopingSearch
  import opened Options
  import opened PerspectiveShifts
  import opened Planner
  import opened Policies
  import opened PolicyRuns
  import opened ProductUpdates
  import opened SearchRuns
  import opened States
  import opened ValuationKey

  // ----- Actions that replace one proposition by another

  datatype Rule = Rule(before: string, after: string)

  function Atomic(p: string): (f: FormulaValue)
    ensures f.Valid() && forall props :: f.Satisfied(props) <==> p in props
  {
    FormulaValue(0, [Prop(p)])
  }

  function RuleEvent(id: nat, r: Rule): (e: Event) {
    Event(id, Atomic(r.before), {r.after}, {r.before})
  }

  // One event for each rule; the only agent owns the action.
  function Rewriting(rules: seq<Rule>, designated: seq<nat>): (a: ActionValue)
    ensures a.Valid(1) && |a.events| == |rules|
    ensures forall e: nat :: e < |rules| ==> a.events[e] == RuleEvent(e, rules[e])
  {
    ActionValue(0, seq(|rules|, e requires 0 <= e < |rules| => RuleEvent(e, rules[e])), designated, [[]])
  }

  // One agent, who knows world w to be the actual one.
  function Known(worlds: seq<World>, w: nat): (s: StateValue) {
    StateValue(1, worlds, [w], [[WorldRelation(w, w)]])
  }

  function One(p: string): (s: StateValue)
    ensures s.Valid()
  {
    Known([World(0, {p})], 0)
  }

  function Two(p: string, q: string, w: nat): (s: StateValue)
    requires w < 2
    ensures s.Valid()
  {
    Known([World(0, {p}), World(1, {q})], w)
  }

  // ----- What such an action does

  lemma KnownReached(worlds: seq<World>, w: nat)
    requires w < |worlds|
    ensures Reached(Known(worlds, w), 0) == {w}
  {
    LoopReached(Known(worlds, w), 0, w);
  }

  lemma ListedOnce(xs: seq<nat>, w: nat)
    requires Lists(xs, {w})
    ensures xs == [w]
  {
    ListLength(xs, {w});
    assert xs[0] in xs;
  }

  // Only the actual world survives the shift.
  lemma ShiftKnown(enum: Enumeration, worlds: seq<World>, w: nat)
    requires IsEnumeration(enum) && w < |worlds| && Known(worlds, w).Valid()
    ensures Shift(enum, Known(worlds, w), 0) == Known([World(0, worlds[w].props)], 0)
  {
    var s := Known(worlds, w);
    assert s.designated[0] == w;
    KnownReached(worlds, w);
    ReachedListed(enum, s, 0);
    ListedOnce(enum({w}), w);
    var r := Restrict(s.relations[0], [w]);
    assert s.relations[0][..0] == [];
    assert Restrict([], [w]) == [];
    assert r == [WorldRelation(0, 0)];
    var shifted := Shift(enum, s, 0);
    assert shifted.worlds == [World(0, worlds[w].props)];
    assert shifted.designated == [0];
    assert shifted.relations == [r];
  }

  lemma HasFirst<T>(xs: seq<T>)
    ensures xs != [] ==> exists x :: x in xs
  {
    if xs != [] {
      assert xs[0] in xs;
    }
  }

  lemma NoEdges(s: StateValue, a: ActionValue, ps: seq<Origin>)
    requires AllInRange(s, a, ps) && a.relations == [[]]
    ensures RelationsUpTo(s, a, 0, ps, |ps|, 0) == []
  {
    RelationsUpToExact(s, a, 0, ps);
    var rs := RelationsUpTo(s, a, 0, ps, |ps|, 0);
    assert forall u: nat, v: nat :: WorldRelation(u, v) !in rs;
    assert forall r: WorldRelation :: r !in rs by {
      assert forall r: WorldRelation :: r == WorldRelation(r.from, r.to);
    }
    HasFirst(rs);
  }

  // The rule for p.
  ghost predicate Fires(rules: seq<Rule>, p: string, e: nat) {
    e < |rules| && rules[e].before == p
  }

  lemma FiresIffApplies(rules: seq<Rule>, designated: seq<nat>, p: string)
    ensures Fits(One(p), Rewriting(rules, designated))
    ensures forall e: nat :: e < |rules| ==> (Applies(One(p), Rewriting(rules, designated), 0, e) <==> Fires(rules, p, e))
    ensures Reached(One(p), 0) == {0}
    ensures Applicable(One(p), Rewriting(rules, designated)) <==> exists e: nat :: Fires(rules, p, e)
  {
    var s, a := One(p), Rewriting(rules, designated);
    KnownReached(s.worlds, 0);
    assert forall e: nat :: e < |rules| ==> (Applies(s, a, 0, e) <==> Fires(rules, p, e));
    if e: nat :| Fires(rules, p, e) {
      assert SomeEventApplies(s, a, 0);
    }
    if Applicable(s, a) {
      assert SomeEventApplies(s, a, 0);
    }
  }

  ghost predicate NoRepeats<T>(xs: seq<T>) {
    forall i, j :: 0 <= i < |xs| && 0 <= j < |xs| && xs[i] == xs[j] ==> i == j
  }

  lemma OnlyElement<T>(xs: seq<T>, x: T)
    requires NoRepeats(xs) && x in xs && forall y :: y in xs ==> y == x
    ensures xs == [x]
  {
    assert xs[0] in xs && xs[|xs| - 1] in xs;
  }

  lemma TwoInOrder(ps: seq<Origin>, p: Origin, q: Origin)
    requires StrictlyOrdered(ps) && Before(p, q) && p in ps && q in ps && forall o :: o in ps ==> o == p || o == q
    ensures ps == [p, q]
  {
    var i, j :| 0 <= i < |ps| && 0 <= j < |ps| && ps[i] == p && ps[j] == q;
    assert ps[0] in ps && ps[|ps| - 1] in ps;
    assert i < j;
    assert i == 0;
    assert ps[i + 1] in ps;
    assert j == 1;
    assert j == |ps| - 1;
  }

  lemma OriginsOfOne(rules: seq<Rule>, designated: seq<nat>, p: string, e: nat)
    requires forall f: nat :: Fires(rules, p, f) <==> f == e
    ensures Fits(One(p), Rewriting(rules, designated))
    ensures Origins(One(p), Rewriting(rules, designated)) == [Origin(0, e)]
  {
    var s, a := One(p), Rewriting(rules, designated);
    FiresIffApplies(rules, designated, p);
    OriginsExact(s, a);
    var ps := Origins(s, a);
    assert Fires(rules, p, e);
    forall o: Origin
      ensures o in ps <==> o == Origin(0, e)
    {
      assert o in ps <==> InRange(s, a, o) && Applies(s, a, o.world, o.event);
      assert o == Origin(o.world, o.event);
      assert InRange(s, a, o) ==> o.world == 0 && (Applies(s, a, 0, o.event) <==> Fires(rules, p, o.event));
    }
    OnlyElement(ps, Origin(0, e));
  }

  lemma OriginsOfTwo(rules: seq<Rule>, designated: seq<nat>, p: string, e: nat, f: nat)
    requires e < f && forall g: nat :: Fires(rules, p, g) <==> g == e || g == f
    ensures Fits(One(p), Rewriting(rules, designated))
    ensures Origins(One(p), Rewriting(rules, designated)) == [Origin(0, e), Origin(0, f)]
  {
    var s, a := One(p), Rewriting(rules, designated);
    FiresIffApplies(rules, designated, p);
    WorldPairsExact(s, a, 1);
    var ps := Origins(s, a);
    assert Fires(rules, p, e) && Fires(rules, p, f);
    forall o: Origin
      ensures o in ps <==> o == Origin(0, e) || o == Origin(0, f)
    {
      assert o == Origin(o.world, o.event);
      assert InRange(s, a, o) ==> o.world == 0 && (Applies(s, a, 0, o.event) <==> Fires(rules, p, o.event));
    }
    TwoInOrder(ps, Origin(0, e), Origin(0, f));
  }

  // ----- Its product and what the agent finds out

  lemma RuleReplaces(rules: seq<Rule>, designated: seq<nat>, p: string, e: nat)
    requires Fires(rules, p, e)
    ensures Effect(One(p), Rewriting(rules, designated), Origin(0, e)) == {rules[e].after}
  {
    assert ({p} - {p}) + {rules[e].after} == {rules[e].after};
  }

  lemma ListedProduct(s: StateValue, a: ActionValue, ps: seq<Origin>)
    requires Fits(s, a) && s.agents == 1 && a.relations == [[]] && ps == Origins(s, a)
    ensures AllInRange(s, a, ps)
    ensures Product(s, a) == StateValue(1, EffectWorlds(s, a, ps), DesignatedPairs(s, a, ps), [[]])
  {
    OriginsExact(s, a);
    NoEdges(s, a, ps);
    assert Product(s, a).relations == [[]];
  }

  lemma DesignatedOfOne(s: StateValue, a: ActionValue, p: Origin)
    requires InRange(s, a, p) && BothDesignated(s, a, p)
    ensures DesignatedPairs(s, a, [p]) == [0]
  {
    assert [p][..0] == [];
    assert DesignatedPairs(s, a, []) == [];
  }

  lemma DesignatedOfTwo(s: StateValue, a: ActionValue, p: Origin, q: Origin)
    requires InRange(s, a, p) && InRange(s, a, q) && BothDesignated(s, a, p)
    ensures DesignatedPairs(s, a, [p, q]) == if BothDesignated(s, a, q) then [0, 1] else [0]
  {
    DesignatedOfOne(s, a, p);
    assert [p, q][..1] == [p];
  }

  function OneWorld(p: string): (s: StateValue) {
    StateValue(1, [World(0, {p})], [0], [[]])
  }

  function TwoWorlds(p: string, q: string, designated: seq<nat>): (s: StateValue) {
    StateValue(1, [World(0, {p}), World(1, {q})], designated, [[]])
  }

  lemma ProductOfOne(rules: seq<Rule>, designated: seq<nat>, p: string, e: nat)
    requires (forall f: nat :: Fires(rules, p, f) <==> f == e) && e in designated
    ensures Fits(One(p), Rewriting(rules, designated)) && e < |rules|
    ensures Product(One(p), Rewriting(rules, designated)) == OneWorld(rules[e].after)
  {
    var s, a, ps := One(p), Rewriting(rules, designated), [Origin(0, e)];
    OriginsOfOne(rules, designated, p, e);
    assert Fires(rules, p, e);
    ListedProduct(s, a, ps);
    RuleReplaces(rules, designated, p, e);
    DesignatedOfOne(s, a, Origin(0, e));
    assert EffectWorlds(s, a, ps) == [World(0, {rules[e].after})];
  }

  lemma ProductOfTwo(rules: seq<Rule>, designated: seq<nat>, p: string, e: nat, f: nat)
    requires e < f && (forall g: nat :: Fires(rules, p, g) <==> g == e || g == f) && e in designated
    ensures Fits(One(p), Rewriting(rules, designated)) && f < |rules|
    ensures Product(One(p), Rewriting(rules, designated))
         == TwoWorlds(rules[e].after, rules[f].after, if f in designated then [0, 1] else [0])
  {
    var s, a, ps := One(p), Rewriting(rules, designated), [Origin(0, e), Origin(0, f)];
    OriginsOfTwo(rules, designated, p, e, f);
    assert Fires(rules, p, e) && Fires(rules, p, f);
    ListedProduct(s, a, ps);
    RuleReplaces(rules, designated, p, e);
    RuleReplaces(rules, designated, p, f);
    DesignatedOfTwo(s, a, Origin(0, e), Origin(0, f));
    assert EffectWorlds(s, a, ps) == [World(0, {rules[e].after}), World(1, {rules[f].after})];
  }

  // A state in which the agent knows proposition p of the actual world.
  ghost predicate Knows(s: StateValue, p: string) {
    exists worlds: seq<World>, w: nat :: IsKnown(s, worlds, w, p)
  }

  ghost predicate IsKnown(s: StateValue, worlds: seq<World>, w: nat, p: string) {
    w < |worlds| && s == Known(worlds, w) && s.Valid() && worlds[w].props == {p}
  }

  lemma KnowsShift(enum: Enumeration, s: StateValue, p: string)
    requires IsEnumeration(enum) && Knows(s, p)
    ensures s.Valid() && s.agents == 1 && Shift(enum, s, 0) == One(p)
  {
    var worlds: seq<World>, w: nat :| IsKnown(s, worlds, w, p);
    ShiftKnown(enum, worlds, w);
  }

  lemma ExpandNone(enum: Enumeration, s: StateValue, p: string, rules: seq<Rule>, designated: seq<nat>)
    requires IsEnumeration(enum) && Knows(s, p) && forall e: nat :: !Fires(rules, p, e)
    ensures Expand(enum, s, Rewriting(rules, designated)) == Blocked
  {
    KnowsShift(enum, s, p);
    FiresIffApplies(rules, designated, p);
  }

  lemma KnownNow(s: StateValue, w: nat)
    requires s.agents == 1 && s.relations == [[]]
    ensures s.GlobalFor(0, w) == Known(s.worlds, w)
  {
    assert s.GlobalFor(0, w).relations == [[WorldRelation(w, w)]];
  }

  lemma SplitOne(p: string)
    ensures OneWorld(p).Valid() && Split(OneWorld(p), 0) == [One(p)]
  {
    KnownNow(OneWorld(p), 0);
  }

  lemma SplitTwo(p: string, q: string)
    ensures TwoWorlds(p, q, [0]).Valid() && Split(TwoWorlds(p, q, [0]), 0) == [Two(p, q, 0)]
    ensures TwoWorlds(p, q, [0, 1]).Valid() && Split(TwoWorlds(p, q, [0, 1]), 0) == [Two(p, q, 0), Two(p, q, 1)]
  {
    KnownNow(TwoWorlds(p, q, [0]), 0);
    KnownNow(TwoWorlds(p, q, [0, 1]), 0);
    KnownNow(TwoWorlds(p, q, [0, 1]), 1);
  }

  // The action applies and its product is r.
  lemma ExpandTo(enum: Enumeration, s: StateValue, p: string, rules: seq<Rule>, designated: seq<nat>, e: nat, r: StateValue)
    requires IsEnumeration(enum) && Knows(s, p) && Fires(rules, p, e) && r.Valid() && r.agents == 1 && IsValidState(r)
    requires Fits(One(p), Rewriting(rules, designated)) && Product(One(p), Rewriting(rules, designated)) == r
    ensures Expand(enum, s, Rewriting(rules, designated)) == Branches(r, Split(r, 0))
  {
    KnowsShift(enum, s, p);
    FiresIffApplies(rules, designated, p);
  }

  lemma ExpandOne(enum: Enumeration, s: StateValue, p: string, rules: seq<Rule>, designated: seq<nat>, e: nat)
    requires IsEnumeration(enum) && Knows(s, p)
    requires (forall f: nat :: Fires(rules, p, f) <==> f == e) && e in designated
    ensures e < |rules| && Expand(enum, s, Rewriting(rules, designated)) == Branches(OneWorld(rules[e].after), [One(rules[e].after)])
  {
    assert Fires(rules, p, e);
    ProductOfOne(rules, designated, p, e);
    SplitOne(rules[e].after);
    ExpandTo(enum, s, p, rules, designated, e, OneWorld(rules[e].after));
  }

  lemma ExpandTwo(enum: Enumeration, s: StateValue, p: string, rules: seq<Rule>, designated: seq<nat>, e: nat, f: nat)
    requires IsEnumeration(enum) && Knows(s, p)
    requires e < f && (forall g: nat :: Fires(rules, p, g) <==> g == e || g == f) && e in designated
    ensures f < |rules| && Expand(enum, s, Rewriting(rules, designated)).Branches?
    ensures Expand(enum, s, Rewriting(rules, designated)).outcomes
         == if f in designated then [Two(rules[e].after, rules[f].after, 0), Two(rules[e].after, rules[f].after, 1)]
            else [Two(rules[e].after, rules[f].after, 0)]
  {
    assert Fires(rules, p, e) && Fires(rules, p, f);
    ProductOfTwo(rules, designated, p, e, f);
    SplitTwo(rules[e].after, rules[f].after);
    ExpandTo(enum, s, p, rules, designated, e,
             TwoWorlds(rules[e].after, rules[f].after, if f in designated then [0, 1] else [0]));
  }

  // ----- The problem

  function WaitRules(): (rules: seq<Rule>) {
    [Rule("p", "p"), Rule("p", "x")]
  }

  function MoveRules(): (rules: seq<Rule>) {
    [Rule("s", "p"), Rule("s", "x"), Rule("p", "g"), Rule("x", "y"), Rule("y", "g")]
  }

  // Nothing happens; that p might have turned into x is not a designated event.
  function Wait(): (a: ActionValue) {
    Rewriting(WaitRules(), [0])
  }

  function Move(): (a: ActionValue) {
    Rewriting(MoveRules(), [0, 1, 2, 3, 4])
  }

  function Library(): (library: seq<ActionValue>)
    ensures LibraryFits(library, 1)
  {
    [Wait(), Move()]
  }

  ghost function Players(): (c: Cast<StateValue, ActionValue>) {
    Cast(One("s"), Two("p", "x", 0), Two("p", "x", 1), One("y"), One("g"), Wait(), Move())
  }

  ghost function LoopingProblem(enum: Enumeration): (dom: Domain<StateValue, ActionValue>) {
    Problem(enum, Atomic("g"), Library())
  }

  lemma PlayersKnow()
    ensures Knows(One("s"), "s") && Knows(One("y"), "y") && Knows(One("g"), "g")
    ensures Knows(Two("p", "x", 0), "p") && Knows(Two("p", "x", 1), "x")
  {
    assert IsKnown(One("s"), [World(0, {"s"})], 0, "s");
    assert IsKnown(One("y"), [World(0, {"y"})], 0, "y");
    assert IsKnown(One("g"), [World(0, {"g"})], 0, "g");
    assert IsKnown(Two("p", "x", 0), [World(0, {"p"}), World(1, {"x"})], 0, "p");
    assert IsKnown(Two("p", "x", 1), [World(0, {"p"}), World(1, {"x"})], 1, "x");
  }

  lemma GoalIffKnown(s: StateValue, p: string)
    requires Knows(s, p)
    ensures IsGoal(Atomic("g"), s) <==> p == "g"
  {
    var worlds: seq<World>, w: nat :| IsKnown(s, worlds, w, p);
    assert s.designated[0] == w && s.Props(w) == {p};
  }

  lemma WaitExpands(enum: Enumeration, s: StateValue, p: string)
    requires IsEnumeration(enum) && Knows(s, p)
    ensures p != "p" ==> Expand(enum, s, Wait()) == Blocked
    ensures p == "p" ==> Expand(enum, s, Wait()).Branches? && Expand(enum, s, Wait()).outcomes == [Two("p", "x", 0)]
  {
    if p == "p" {
      ExpandTwo(enum, s, p, WaitRules(), [0], 0, 1);
    } else {
      ExpandNone(enum, s, p, WaitRules(), [0]);
    }
  }

  lemma MoveExpands(enum: Enumeration, s: StateValue, p: string)
    requires IsEnumeration(enum) && Knows(s, p) && (p == "s" || p == "p" || p == "x" || p == "y")
    ensures Expand(enum, s, Move()).Branches?
    ensures p == "s" ==> Expand(enum, s, Move()).outcomes == [Two("p", "x", 0), Two("p", "x", 1)]
    ensures p == "p" ==> Expand(enum, s, Move()).outcomes == [One("g")]
    ensures p == "x" ==> Expand(enum, s, Move()).outcomes == [One("y")]
    ensures p == "y" ==> Expand(enum, s, Move()).outcomes == [One("g")]
  {
    var rules, all := MoveRules(), [0, 1, 2, 3, 4];
    if p == "s" {
      ExpandTwo(enum, s, p, rules, all, 0, 1);
    } else {
      ExpandOne(enum, s, p, rules, all, if p == "p" then 2 else if p == "x" then 3 else 4);
    }
  }

  /** The problem has the shape on which the search goes in circles. */
  lemma ProblemCircles(enum: Enumeration)
    requires IsEnumeration(enum)
    ensures Circles(LoopingProblem(enum), Players())
  {
    PlayersKnow();
    var c := Players();
    GoalIffKnown(c.start, "s");
    GoalIffKnown(c.left, "p");
    GoalIffKnown(c.right, "x");
    GoalIffKnown(c.later, "y");
    GoalIffKnown(c.goal, "g");
    WaitExpands(enum, c.start, "s");
    WaitExpands(enum, c.left, "p");
    WaitExpands(enum, c.right, "x");
    WaitExpands(enum, c.later, "y");
    MoveExpands(enum, c.start, "s");
    MoveExpands(enum, c.left, "p");
    MoveExpands(enum, c.right, "x");
    MoveExpands(enum, c.later, "y");
  }

  // ----- Carrying out its policy

  lemma KeyOfOne(p: string)
    ensures Key({p}) == p
  {
    assert Names([p]) == {p};
    SortedIsUnique([p]);
    assert [p][..0] == [];
    assert Concat([p]) == "" + p;
  }

  lemma PointedLabels(s: StateValue, t: StateValue, z: Pairs, w: nat, w': nat)
    requires IsBisimulation(ByKey, s, t, z) && PointedForth(s, t, z) && s.designated == [w] && t.designated == [w']
    ensures w < |s.worlds| && w' < |t.worlds| && Key(s.Props(w)) == Key(t.Props(w'))
  {
    assert s.Designated(w);
    var v: nat :| t.Designated(v) && Related(z, w, v);
    assert Matched(ByKey, s, t, z, w, v);
  }

  lemma SingleDesignated(s: StateValue, t: StateValue, w: nat, w': nat)
    requires Bisimilar(ByKey, s, t) && s.designated == [w] && t.designated == [w']
    ensures w < |s.worlds| && w' < |t.worlds| && Key(s.Props(w)) == Key(t.Props(w'))
  {
    var z: Pairs :| Witnesses(ByKey, s, t, z);
    PointedLabels(s, t, z, w, w');
  }

  // The lookup does not confuse states in which different things are known.
  lemma BisimilarKnowSame(s: StateValue, t: StateValue, p: string, q: string)
    requires Knows(s, p) && Knows(t, q) && Bisimilar(ByKey, s, t)
    ensures p == q
  {
    var worlds: seq<World>, w: nat :| IsKnown(s, worlds, w, p);
    var worlds': seq<World>, w': nat :| IsKnown(t, worlds', w', q);
    SingleDesignated(s, t, w, w');
    KeyOfOne(p);
    KeyOfOne(q);
  }

  lemma LookupLeft()
    ensures FirstMatch(LoopingEntries(Players()), Players().left) == Some(Wait())
  {
    PlayersKnow();
    var c := Players();
    var entries := LoopingEntries(c);
    assert !Bisimilar(ByKey, c.start, c.left) by {
      if Bisimilar(ByKey, c.start, c.left) { BisimilarKnowSame(c.start, c.left, "s", "p"); }
    }
    assert !Bisimilar(ByKey, c.right, c.left) by {
      if Bisimilar(ByKey, c.right, c.left) { BisimilarKnowSame(c.right, c.left, "x", "p"); }
    }
    assert !Bisimilar(ByKey, c.later, c.left) by {
      if Bisimilar(ByKey, c.later, c.left) { BisimilarKnowSame(c.later, c.left, "y", "p"); }
    }
    Reflexive(ByKey, c.left);
    FirstMatchAt(entries, c.left, 3);
  }

  // The first entry that matches.
  lemma {:induction false} FirstMatchAt(entries: seq<PolicyEntry>, s: StateValue, n: nat)
    requires n < |entries| && Bisimilar(ByKey, entries[n].state, s)
    requires forall m: nat :: m < n ==> !Bisimilar(ByKey, entries[m].state, s)
    ensures FirstMatch(entries, s) == Some(entries[n].action)
    decreases n
  {
    if n > 0 {
      FirstMatchAt(entries[1..], s, n - 1);
    }
  }

  lemma LookupStart()
    ensures FirstMatch(LoopingEntries(Players()), Players().start) == Some(Move())
  {
    PlayersKnow();
    Reflexive(ByKey, Players().start);
    FirstMatchAt(LoopingEntries(Players()), Players().start, 0);
  }

  lemma NeverCarriedOut(enum: Enumeration, k: nat)
    requires IsEnumeration(enum)
    ensures !CarriesOut(LoopingProblem(enum), ByBisimilarity(LoopingEntries(Players())), Players().start, k)
  {
    var dom, c := LoopingProblem(enum), Players();
    var lookup := ByBisimilarity(LoopingEntries(c));
    ProblemCircles(enum);
    LookupStart();
    LookupLeft();
    assert lookup(c.start) == Some(c.move) && lookup(c.left) == Some(c.wait);
    var outcomes := dom.expand(c.start, c.move).outcomes;
    assert outcomes[0] == c.left;
    assert dom.expand(c.left, c.wait).outcomes[0] == c.left;
    if k > 0 {
      WaitsForever(dom, lookup, c.left, k - 1);
      assert !CarriesOut(dom, lookup, outcomes[0], k - 1);
    }
  }

  /** With the planner's own policy the lookup waits in the left state for ever. */
  lemma NeverReachesGoal(enum: Enumeration)
    requires IsEnumeration(enum)
    ensures !ReachesGoal(LoopingProblem(enum), ByBisimilarity(LoopingEntries(Players())), Players().start)
  {
    forall k: nat
      ensures !CarriesOut(LoopingProblem(enum), ByBisimilarity(LoopingEntries(Players())), Players().start, k)
    {
      NeverCarriedOut(enum, k);
    }
  }

  /** The planner solves this problem, with a policy that is closed and well-founded,
      and carrying that policy out by lookup does not reach the goal. */
  method PlanInCircles(enum: Enumeration, fuel: nat) returns (policy: Policy, ghost rank: seq<nat>)
    requires IsEnumeration(enum) && fuel >= TreeSize(LoopingProblem(enum), Players().start, 3)
    ensures policy.solved && policy.entries == LoopingEntries(Players())
    ensures EntriesValid(policy.entries) && ClosedPolicy(LoopingProblem(enum), policy.entries, rank)
    ensures Covered(LoopingProblem(enum), policy.entries, rank, Players().start, 0)
    ensures !ReachesGoal(LoopingProblem(enum), ByBisimilarity(policy.entries), Players().start)
  {
    var verdict;
    verdict, policy, rank := FindPolicy(enum, Atomic("g"), Library(), One("s"), fuel);
    FoundInCircles(enum, fuel, verdict, policy.entries);
    NeverReachesGoal(enum);
  }

  /** Whatever the planner returns for this problem, it is this policy. */
  lemma FoundInCircles(enum: Enumeration, fuel: nat, verdict: Verdict, entries: seq<PolicyEntry>)
    requires IsEnumeration(enum) && fuel >= TreeSize(LoopingProblem(enum), Players().start, 3)
    requires Exactly(LoopingProblem(enum), Players().start, fuel, verdict)
    requires verdict != OutOfFuel ==> Outcome(LoopingProblem(enum), Players().start, fuel, verdict, entries)
    ensures verdict == Solved && entries == LoopingEntries(Players())
  {
    var dom, c := LoopingProblem(enum), Players();
    ProblemCircles(enum);
    LoopSolvable(dom, c);
    assert Decided(dom, c.start, 3);
    assert verdict != OutOfFuel;
    var n: nat, nodes: seq<Node<StateValue, ActionValue>> :|
      n <= fuel && Stops(dom, c.start, n, nodes) && OutcomeIs(nodes, verdict, entries);
    SearchFindsLoop(dom, c, n, nodes);
  }
}
