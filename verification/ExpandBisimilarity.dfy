/** What bisimilar states have in common when the same action is taken in them, and so
    what a lookup by bisimilarity may be trusted with. */
module ExpandBisimilarity {
  import opened Actions
  import opened AndOr
  import opened Bisimulation
  import opened Formulas
  import opened PerspectiveShifts
  import opened Planner
  import opened Policies
  import opened PolicyRuns
  import opened ProductProperties
  import opened ProductUpdates
  import opened ShiftBisimilarity
  import opened SplitBisimilarity
  import opened States

  // ----- The outcomes of a split

  // Every designated world is alone with its label.
  ghost predicate Telling(l: Labelling, s: StateValue)
    requires s.Valid()
  {
    forall i: nat :: i < |s.designated| ==> Unique(l, s, s.designated[i])
  }

  ghost predicate HasLike(l: Labelling, o: StateValue, ps: seq<StateValue>) {
    exists j: nat :: j < |ps| && Bisimilar(l, o, ps[j])
  }

  // Every outcome on one side has a bisimilar one on the other.
  ghost predicate SameOutcomes(l: Labelling, os: seq<StateValue>, ps: seq<StateValue>) {
    && (forall i: nat :: i < |os| ==> HasLike(l, os[i], ps))
    && (forall j: nat :: j < |ps| ==> HasLike(l, ps[j], os))
  }

  lemma DesignatedPartner(l: Labelling, s: StateValue, t: StateValue, z: Pairs, i: nat) returns (j: nat)
    requires s.Valid() && t.Valid() && IsBisimulation(l, s, t, z) && PointedForth(s, t, z) && i < |s.designated|
    ensures j < |t.designated| && SameLabel(l, s.Props(s.designated[i]), t.Props(t.designated[j]))
  {
    var w := s.designated[i];
    assert s.Designated(w);
    var x: nat :| t.Designated(x) && Related(z, w, x);
    assert Matched(l, s, t, z, w, x);
    j :| 0 <= j < |t.designated| && t.designated[j] == x;
  }

  lemma LikeForth(l: Labelling, s: StateValue, t: StateValue, agent: nat, i: nat) returns (j: nat)
    requires s.Valid() && t.Valid() && agent < s.agents && Bisimilar(l, s, t) && i < |s.designated|
    requires Telling(l, s) && Telling(l, t)
    ensures agent < t.agents && j < |t.designated| && Bisimilar(l, Split(s, agent)[i], Split(t, agent)[j])
  {
    var z: Pairs :| Witnesses(l, s, t, z);
    j := DesignatedPartner(l, s, t, z, i);
    SplitIff(l, s, t, agent, s.designated[i], t.designated[j]);
  }

  lemma LikeBoth(l: Labelling, s: StateValue, t: StateValue, agent: nat)
    requires s.Valid() && t.Valid() && agent < s.agents && Bisimilar(l, s, t)
    requires Telling(l, s) && Telling(l, t)
    ensures agent < t.agents && SameOutcomes(l, Split(s, agent), Split(t, agent))
  {
    forall i: nat | i < |s.designated|
      ensures HasLike(l, Split(s, agent)[i], Split(t, agent))
    {
      var j := LikeForth(l, s, t, agent, i);
    }
    Symmetric(l, s, t);
    forall j: nat | j < |t.designated|
      ensures HasLike(l, Split(t, agent)[j], Split(s, agent))
    {
      var i := LikeForth(l, t, s, agent, j);
    }
  }

  // Bisimilar outcomes have actual worlds with the same label.
  lemma LikeLabels(l: Labelling, r: StateValue, q: StateValue, w: nat, x: nat)
    requires Bisimilar(l, r, q) && r.designated == [w] && q.designated == [x]
    ensures w < |r.worlds| && x < |q.worlds| && SameLabel(l, r.Props(w), q.Props(x))
  {
    var z: Pairs :| Witnesses(l, r, q, z);
    LabelsPointed(l, r, q, z, w, x);
  }

  lemma LabelsPointed(l: Labelling, r: StateValue, q: StateValue, z: Pairs, w: nat, x: nat)
    requires IsBisimulation(l, r, q, z) && PointedForth(r, q, z) && r.designated == [w] && q.designated == [x]
    ensures w < |r.worlds| && x < |q.worlds| && SameLabel(l, r.Props(w), q.Props(x))
  {
    assert r.Designated(w);
    var v: nat :| q.Designated(v) && Related(z, w, v);
    assert Matched(l, r, q, z, w, v);
  }

  lemma LikeTells(l: Labelling, s: StateValue, t: StateValue, agent: nat, i: nat, j: nat)
    requires s.Valid() && t.Valid() && agent < s.agents && Bisimilar(l, s, t) && Telling(l, s)
    requires i < |s.designated| && j < |t.designated| && Bisimilar(l, Split(t, agent)[j], Split(s, agent)[i])
    ensures Unique(l, t, t.designated[j])
  {
    Symmetric(l, Split(t, agent)[j], Split(s, agent)[i]);
    LikeLabels(l, Split(s, agent)[i], Split(t, agent)[j], s.designated[i], t.designated[j]);
    SplitIff(l, s, t, agent, s.designated[i], t.designated[j]);
  }

  lemma SameTells(l: Labelling, s: StateValue, t: StateValue, agent: nat, j: nat)
    requires s.Valid() && t.Valid() && agent < s.agents && Bisimilar(l, s, t) && Telling(l, s)
    requires j < |t.designated| && HasLike(l, Split(t, agent)[j], Split(s, agent))
    ensures Unique(l, t, t.designated[j])
  {
    var i: nat :| i < |Split(s, agent)| && Bisimilar(l, Split(t, agent)[j], Split(s, agent)[i]);
    LikeTells(l, s, t, agent, i, j);
  }

  /** Bisimilar states, the first of which tells its designated worlds apart by label, have
      the same outcomes up to bisimilarity if and only if so does the second. */
  lemma SplitOutcomesIff(l: Labelling, s: StateValue, t: StateValue, agent: nat)
    requires s.Valid() && t.Valid() && agent < s.agents && Bisimilar(l, s, t) && Telling(l, s)
    ensures agent < t.agents && (SameOutcomes(l, Split(s, agent), Split(t, agent)) <==> Telling(l, t))
  {
    if Telling(l, t) {
      LikeBoth(l, s, t, agent);
    }
    if SameOutcomes(l, Split(s, agent), Split(t, agent)) {
      forall j: nat | j < |t.designated|
        ensures Unique(l, t, t.designated[j])
      {
        SameTells(l, s, t, agent, j);
      }
    }
  }

  // ----- Applicability

  lemma AppliesAcross(r: StateValue, q: StateValue, z: Pairs, a: ActionValue, u: nat, v: nat)
    requires Fits(r, a) && Fits(q, a) && Matched(ByValuation, r, q, z, u, v) && SomeEventApplies(r, a, u)
    ensures SomeEventApplies(q, a, v)
  {
    SameProps(r, q, a, u, v);
  }

  lemma LeftPartnerOf(l: Labelling, r: StateValue, q: StateValue, z: Pairs, v: nat) returns (u: nat)
    requires IsBisimulation(l, r, q, z) && Total(r, q, z) && v < |q.worlds|
    ensures Matched(l, r, q, z, u, v)
  {
    assert HasLeft(z, v);
    u :| Related(z, u, v);
  }

  lemma SameApplicable(r: StateValue, q: StateValue, z: Pairs, a: ActionValue)
    requires Fits(r, a) && Fits(q, a) && IsBisimulation(ByValuation, r, q, z) && Total(r, q, z) && Applicable(r, a)
    requires forall w: nat :: w < |r.worlds| ==> w in Reached(r, a.owner)
    ensures Applicable(q, a)
  {
    forall v: nat | v in Reached(q, a.owner)
      ensures SomeEventApplies(q, a, v)
    {
      var u := LeftPartnerOf(ByValuation, r, q, z, v);
      AppliesAcross(r, q, z, a, u, v);
    }
  }

  lemma SameValidState(l: Labelling, r: StateValue, q: StateValue)
    requires r.Valid() && q.Valid() && Bisimilar(l, r, q) && IsValidState(r)
    ensures IsValidState(q)
  {
    var z: Pairs :| Witnesses(l, r, q, z);
    var j := DesignatedPartner(l, r, q, z, 0);
  }

  lemma ShiftReachesAll(enum: Enumeration, s: StateValue, agent: nat)
    requires IsEnumeration(enum) && s.Valid() && agent < s.agents
    ensures forall w: nat :: w < |Shift(enum, s, agent).worlds| ==> w in Reached(Shift(enum, s, agent), agent)
  {
    ShiftIsCopy(enum, s, agent);
    AllDesignatedAllReached(Shift(enum, s, agent), agent);
  }

  // ----- One action

  // The states after the shift and after the update.
  ghost function Updated(enum: Enumeration, s: StateValue, a: ActionValue): (r: StateValue)
    requires IsEnumeration(enum) && Fits(s, a)
    ensures r.Valid() && r.agents == s.agents
  {
    ShiftIsCopy(enum, s, a.owner);
    ProductIsProduct(Shift(enum, s, a.owner), a);
    Product(Shift(enum, s, a.owner), a)
  }

  lemma ExpandIs(enum: Enumeration, s: StateValue, a: ActionValue)
    requires IsEnumeration(enum) && Fits(s, a)
    ensures Fits(Shift(enum, s, a.owner), a)
    ensures var r := Updated(enum, s, a);
            Expand(enum, s, a) == if Applicable(Shift(enum, s, a.owner), a) && IsValidState(r)
                                  then Branches(r, Split(r, a.owner)) else Blocked
  {
    ShiftIsCopy(enum, s, a.owner);
  }

  // The owner's shifts of the two states are bisimilar.
  ghost predicate SameShifts(enum: Enumeration, s: StateValue, t: StateValue, a: ActionValue) {
    && IsEnumeration(enum) && Fits(s, a) && Fits(t, a)
    && Bisimilar(ByValuation, Shift(enum, s, a.owner), Shift(enum, t, a.owner))
  }

  lemma SameShiftsSymmetric(enum: Enumeration, s: StateValue, t: StateValue, a: ActionValue)
    requires SameShifts(enum, s, t, a)
    ensures SameShifts(enum, t, s, a)
  {
    Symmetric(ByValuation, Shift(enum, s, a.owner), Shift(enum, t, a.owner));
  }

  lemma UpdatedBisimilar(enum: Enumeration, s: StateValue, t: StateValue, a: ActionValue)
    requires SameShifts(enum, s, t, a)
    ensures Bisimilar(ByValuation, Updated(enum, s, a), Updated(enum, t, a))
  {
    ShiftIsCopy(enum, s, a.owner);
    ShiftIsCopy(enum, t, a.owner);
    ProductCongruence(Shift(enum, s, a.owner), Shift(enum, t, a.owner), a);
  }

  lemma ShiftApplicable(enum: Enumeration, s: StateValue, t: StateValue, a: ActionValue)
    requires IsEnumeration(enum) && Fits(s, a) && Fits(t, a)
    ensures Fits(Shift(enum, s, a.owner), a) && Fits(Shift(enum, t, a.owner), a)
    ensures Bisimilar(ByValuation, Shift(enum, s, a.owner), Shift(enum, t, a.owner)) && Applicable(Shift(enum, s, a.owner), a)
            ==> Applicable(Shift(enum, t, a.owner), a)
  {
    ShiftIsCopy(enum, s, a.owner);
    ShiftIsCopy(enum, t, a.owner);
    ShiftReachesAll(enum, s, a.owner);
    var r, q := Shift(enum, s, a.owner), Shift(enum, t, a.owner);
    if Bisimilar(ByValuation, r, q) && Applicable(r, a) {
      var z: Pairs :| Witnesses(ByValuation, r, q, z);
      SameApplicable(r, q, z, a);
    }
  }

  lemma BranchesFollow(enum: Enumeration, s: StateValue, t: StateValue, a: ActionValue)
    requires SameShifts(enum, s, t, a) && Bisimilar(ByValuation, Updated(enum, s, a), Updated(enum, t, a))
    requires Expand(enum, s, a).Branches?
    ensures Expand(enum, t, a).Branches?
  {
    ExpandIs(enum, s, a);
    ExpandIs(enum, t, a);
    ShiftApplicable(enum, s, t, a);
    SameValidState(ByValuation, Updated(enum, s, a), Updated(enum, t, a));
  }

  lemma SameBlocked(enum: Enumeration, s: StateValue, t: StateValue, a: ActionValue)
    requires SameShifts(enum, s, t, a)
    ensures Expand(enum, s, a).Branches? <==> Expand(enum, t, a).Branches?
  {
    UpdatedBisimilar(enum, s, t, a);
    if Expand(enum, s, a).Branches? {
      BranchesFollow(enum, s, t, a);
    }
    if Expand(enum, t, a).Branches? {
      SameShiftsSymmetric(enum, s, t, a);
      UpdatedBisimilar(enum, t, s, a);
      BranchesFollow(enum, t, s, a);
    }
  }

  /** States whose shifts to the owner are bisimilar: an action is blocked in both or in
      neither, the updated states are bisimilar, and where the first of these tells its
      designated worlds apart, the outcomes are the same up to bisimilarity if and only if
      so does the second. */
  lemma ExpandShifted(enum: Enumeration, s: StateValue, t: StateValue, a: ActionValue)
    requires SameShifts(enum, s, t, a)
    ensures Expand(enum, s, a).Branches? <==> Expand(enum, t, a).Branches?
    ensures Bisimilar(ByValuation, Updated(enum, s, a), Updated(enum, t, a))
    ensures Expand(enum, s, a).Branches? && Telling(ByValuation, Updated(enum, s, a)) ==>
              (SameOutcomes(ByValuation, Expand(enum, s, a).outcomes, Expand(enum, t, a).outcomes)
               <==> Telling(ByValuation, Updated(enum, t, a)))
  {
    UpdatedBisimilar(enum, s, t, a);
    SameBlocked(enum, s, t, a);
    ExpandIs(enum, s, a);
    ExpandIs(enum, t, a);
    if Expand(enum, s, a).Branches? && Telling(ByValuation, Updated(enum, s, a)) {
      SplitOutcomesIff(ByValuation, Updated(enum, s, a), Updated(enum, t, a), a.owner);
    }
  }

  /** So it is for bisimilar states where an agent with an edge among the worlds that the
      owner reaches in the one has none out of those in the other. */
  lemma ExpandCongruence(enum: Enumeration, s: StateValue, t: StateValue, a: ActionValue)
    requires IsEnumeration(enum) && Fits(s, a) && t.Valid() && Bisimilar(ByValuation, s, t)
    requires Fitting(s, t, a.owner) && Fitting(t, s, a.owner)
    ensures Fits(t, a) && (Expand(enum, s, a).Branches? <==> Expand(enum, t, a).Branches?)
    ensures Bisimilar(ByValuation, Updated(enum, s, a), Updated(enum, t, a))
    ensures Expand(enum, s, a).Branches? && Telling(ByValuation, Updated(enum, s, a)) ==>
              (SameOutcomes(ByValuation, Expand(enum, s, a).outcomes, Expand(enum, t, a).outcomes)
               <==> Telling(ByValuation, Updated(enum, t, a)))
  {
    FittingShifts(ByValuation, enum, s, t, a.owner);
    ExpandShifted(enum, s, t, a);
  }

  // ----- Carrying out a policy from a bisimilar state

  type Likeness<!S> = (S, S) -> bool

  ghost predicate HasAlike<S>(os: seq<S>, o: S, like: Likeness<S>) {
    exists i: nat :: i < |os| && like(os[i], o)
  }

  // Every outcome of the second has a like one of the first.
  ghost predicate BranchAlike<S>(e: Expansion<S>, f: Expansion<S>, like: Likeness<S>) {
    && (e.Branches? <==> f.Branches?)
    && (e.Branches? ==> forall j: nat :: j < |f.outcomes| ==> HasAlike(e.outcomes, f.outcomes[j], like))
  }

  ghost predicate ActAlike<S, A>(dom: Domain<S, A>, lookup: Lookup<S, A>, like: Likeness<S>, s: S, t: S) {
    && (dom.goal(s) <==> dom.goal(t)) && lookup(s) == lookup(t)
    && (!dom.goal(s) && lookup(s).Some? ==> BranchAlike(dom.expand(s, lookup(s).value), dom.expand(t, lookup(s).value), like))
  }

  ghost predicate Respects<S(!new), A>(dom: Domain<S, A>, lookup: Lookup<S, A>, like: Likeness<S>) {
    forall s: S, t: S :: like(s, t) ==> ActAlike(dom, lookup, like, s, t)
  }

  lemma {:induction false} LikeCarriesOut<S(!new), A(!new)>(
    dom: Domain<S, A>, lookup: Lookup<S, A>, like: Likeness<S>, s: S, t: S, k: nat)
    requires Respects(dom, lookup, like) && like(s, t) && CarriesOut(dom, lookup, s, k)
    ensures CarriesOut(dom, lookup, t, k)
    decreases k
  {
    assert ActAlike(dom, lookup, like, s, t);
    if !dom.goal(s) {
      var e, f := dom.expand(s, lookup(s).value), dom.expand(t, lookup(s).value);
      forall j | 0 <= j < |f.outcomes|
        ensures CarriesOut(dom, lookup, f.outcomes[j], k - 1)
      {
        assert HasAlike(e.outcomes, f.outcomes[j], like);
        var i: nat :| i < |e.outcomes| && like(e.outcomes[i], f.outcomes[j]);
        LikeCarriesOut(dom, lookup, like, e.outcomes[i], f.outcomes[j], k - 1);
      }
      assert AllCarriedOut(dom, lookup, f, k - 1);
    }
  }

  // One action taken in a state of a set: its outcomes are told apart and in the set.
  ghost predicate TameFor(enum: Enumeration, tame: StateValue -> bool, s: StateValue, a: ActionValue) {
    && IsEnumeration(enum) && Fits(s, a)
    && (Expand(enum, s, a).Branches? ==>
         && Telling(ByValuation, Updated(enum, s, a))
         && forall o :: o in Expand(enum, s, a).outcomes ==> tame(o))
  }

  /** A set of states that the library's actions do not lead out of, in which they tell
      their outcomes apart and shift bisimilar states to bisimilar ones. */
  ghost predicate IsTame(enum: Enumeration, library: seq<ActionValue>, tame: StateValue -> bool) {
    && (forall s, a :: tame(s) && a in library ==> TameFor(enum, tame, s, a))
    && (forall s, t, a :: tame(s) && tame(t) && Bisimilar(ByValuation, s, t) && a in library ==> SameShifts(enum, s, t, a))
  }

  ghost predicate ValidOnly(tame: StateValue -> bool) {
    forall s :: tame(s) ==> s.Valid()
  }

  ghost function TameLikeness(tame: StateValue -> bool): (like: Likeness<StateValue>) {
    (s, t) => tame(s) && tame(t) && Bisimilar(ByValuation, s, t)
  }

  lemma TameOutcome(tame: StateValue -> bool, os: seq<StateValue>, p: StateValue)
    requires HasLike(ByValuation, p, os) && tame(p) && forall o :: o in os ==> tame(o)
    ensures HasAlike(os, p, TameLikeness(tame))
  {
    var i: nat :| i < |os| && Bisimilar(ByValuation, p, os[i]);
    Symmetric(ByValuation, p, os[i]);
    assert os[i] in os;
  }

  lemma TameOutcomes(tame: StateValue -> bool, e: Expansion<StateValue>, f: Expansion<StateValue>)
    requires e.Branches? && f.Branches? && SameOutcomes(ByValuation, e.outcomes, f.outcomes)
    requires (forall o :: o in e.outcomes ==> tame(o)) && forall o :: o in f.outcomes ==> tame(o)
    ensures BranchAlike(e, f, TameLikeness(tame))
  {
    forall j: nat | j < |f.outcomes|
      ensures HasAlike(e.outcomes, f.outcomes[j], TameLikeness(tame))
    {
      TameOutcome(tame, e.outcomes, f.outcomes[j]);
    }
  }

  lemma TameBranches(enum: Enumeration, tame: StateValue -> bool, s: StateValue, t: StateValue, a: ActionValue)
    requires TameFor(enum, tame, s, a) && TameFor(enum, tame, t, a) && SameShifts(enum, s, t, a)
    ensures BranchAlike(Expand(enum, s, a), Expand(enum, t, a), TameLikeness(tame))
  {
    ExpandShifted(enum, s, t, a);
    if Expand(enum, s, a).Branches? {
      TameOutcomes(tame, Expand(enum, s, a), Expand(enum, t, a));
    }
  }

  ghost predicate ActionsFrom(entries: seq<PolicyEntry>, library: seq<ActionValue>) {
    forall n: nat :: n < |entries| ==> entries[n].action in library
  }

  lemma TameActAlike(enum: Enumeration, goal: FormulaValue, library: seq<ActionValue>, entries: seq<PolicyEntry>,
                     tame: StateValue -> bool, s: StateValue, t: StateValue)
    requires IsEnumeration(enum) && goal.Valid() && IsTame(enum, library, tame) && ValidOnly(tame)
    requires ActionsFrom(entries, library) && tame(s) && tame(t) && Bisimilar(ByValuation, s, t)
    ensures ActAlike(Problem(enum, goal, library), ByBisimilarity(entries), TameLikeness(tame), s, t)
  {
    BisimilarStatesAgree(s, t, goal);
    GetActionRespectsTrueBisimilarity(entries, s, t);
    if FirstMatch(entries, s).Some? {
      var n := FirstMatchIndex(entries, s);
      var a := entries[n].action;
      assert TameFor(enum, tame, s, a) && TameFor(enum, tame, t, a);
      TameBranches(enum, tame, s, t, a);
    }
  }

  lemma TameLookup(enum: Enumeration, goal: FormulaValue, library: seq<ActionValue>, entries: seq<PolicyEntry>,
                   tame: StateValue -> bool)
    requires IsEnumeration(enum) && goal.Valid() && IsTame(enum, library, tame) && ValidOnly(tame)
    requires ActionsFrom(entries, library)
    ensures Respects(Problem(enum, goal, library), ByBisimilarity(entries), TameLikeness(tame))
  {
    forall s: StateValue, t: StateValue | TameLikeness(tame)(s, t)
      ensures ActAlike(Problem(enum, goal, library), ByBisimilarity(entries), TameLikeness(tame), s, t)
    {
      TameActAlike(enum, goal, library, entries, tame, s, t);
    }
  }

  lemma TameCarriesOut(enum: Enumeration, goal: FormulaValue, library: seq<ActionValue>, entries: seq<PolicyEntry>,
                       tame: StateValue -> bool, s: StateValue, t: StateValue)
    requires Respects(Problem(enum, goal, library), ByBisimilarity(entries), TameLikeness(tame))
    requires tame(s) && tame(t) && Bisimilar(ByValuation, s, t)
    requires ReachesGoal(Problem(enum, goal, library), ByBisimilarity(entries), s)
    ensures ReachesGoal(Problem(enum, goal, library), ByBisimilarity(entries), t)
  {
    var k: nat :| CarriesOut(Problem(enum, goal, library), ByBisimilarity(entries), s, k);
    LikeCarriesOut(Problem(enum, goal, library), ByBisimilarity(entries), TameLikeness(tame), s, t, k);
  }

  /** In a set of states where the library's actions respect bisimilarity, carrying out a
      policy by lookup reaches the goal from a state if and only if it does from every
      bisimilar one, also from states that no entry was made for. */
  lemma LookupSound(enum: Enumeration, goal: FormulaValue, library: seq<ActionValue>, entries: seq<PolicyEntry>,
                    tame: StateValue -> bool, s: StateValue, t: StateValue)
    requires IsEnumeration(enum) && goal.Valid() && IsTame(enum, library, tame) && ValidOnly(tame)
    requires ActionsFrom(entries, library) && tame(s) && tame(t) && Bisimilar(ByValuation, s, t)
    ensures ReachesGoal(Problem(enum, goal, library), ByBisimilarity(entries), s)
       <==> ReachesGoal(Problem(enum, goal, library), ByBisimilarity(entries), t)
  {
    TameLookup(enum, goal, library, entries, tame);
    Symmetric(ByValuation, s, t);
    if ReachesGoal(Problem(enum, goal, library), ByBisimilarity(entries), s) {
      TameCarriesOut(enum, goal, library, entries, tame, s, t);
    }
    if ReachesGoal(Problem(enum, goal, library), ByBisimilarity(entries), t) {
      TameCarriesOut(enum, goal, library, entries, tame, t, s);
    }
  }
}
