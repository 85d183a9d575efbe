/** Whether a policy leads to the goal, decided on its entries up to bisimilarity: entries
    for the same situation may be for distinct values. */
module PolicyClasses {
  import opened Actions
  import opened AndOr
  import opened Bisimulation
  import opened ExpandBisimilarity
  import opened Extraction
  import opened Formulas
  import opened Options
  import opened PerspectiveShifts
  import opened Planner
  import opened Policies
  import opened PolicyRuns
  import opened States

  // ----- For any likeness of states

  // Where it holds at all it is an equivalence.
  ghost predicate IsClassing<S(!new)>(like: Likeness<S>) {
    IsMutual(like) && IsPassedOn(like)
  }

  ghost predicate IsMutual<S(!new)>(like: Likeness<S>) {
    forall x: S, y: S :: like(x, y) ==> like(y, x)
  }

  ghost predicate IsPassedOn<S(!new)>(like: Likeness<S>) {
    forall x: S, y: S, z: S :: like(x, y) && like(y, z) ==> like(x, z)
  }

  // The state of entry n is answered with the action of an entry for a state like it.
  ghost predicate AnsweredLike<S(!new), A(!new)>(lookup: Lookup<S, A>, entries: seq<Entry<S, A>>, like: Likeness<S>, s: S) {
    exists m: nat :: m < |entries| && like(entries[m].state, s) && lookup(s) == Some(entries[m].action)
  }

  ghost predicate AnswersLike<S(!new), A(!new)>(lookup: Lookup<S, A>, entries: seq<Entry<S, A>>, like: Likeness<S>) {
    forall n: nat :: n < |entries| ==> AnsweredLike(lookup, entries, like, entries[n].state)
  }

  // Like the state of some entry.
  ghost predicate LikeEntry<S(!new), A(!new)>(entries: seq<Entry<S, A>>, like: Likeness<S>, s: S) {
    exists n: nat :: n < |entries| && like(entries[n].state, s)
  }

  ghost predicate Foreseen<S(!new), A(!new)>(dom: Domain<S, A>, entries: seq<Entry<S, A>>, like: Likeness<S>, s: S) {
    dom.goal(s) || LikeEntry(entries, like, s)
  }

  // What the lemmas below ask of a policy and its lookup.
  ghost predicate Classed<S(!new), A(!new)>(
    dom: Domain<S, A>, entries: seq<Entry<S, A>>, lookup: Lookup<S, A>, rank: seq<nat>, like: Likeness<S>) {
    && ClosedPolicy(dom, entries, rank) && AnswersLike(lookup, entries, like)
    && Respects(dom, lookup, like) && IsClassing(like)
  }

  lemma LikeAnswer<S(!new), A(!new)>(dom: Domain<S, A>, lookup: Lookup<S, A>, like: Likeness<S>, s: S, t: S)
    requires Respects(dom, lookup, like) && like(s, t)
    ensures (dom.goal(s) <==> dom.goal(t)) && lookup(s) == lookup(t)
    ensures !dom.goal(s) && lookup(s).Some? ==>
              BranchAlike(dom.expand(s, lookup(s).value), dom.expand(t, lookup(s).value), like)
  {
    assert ActAlike(dom, lookup, like, s, t);
  }

  ghost predicate GoalsAlike<S(!new), A(!new)>(dom: Domain<S, A>, like: Likeness<S>) {
    forall s: S, t: S :: like(s, t) ==> (dom.goal(s) <==> dom.goal(t))
  }

  lemma RespectsGoals<S(!new), A(!new)>(dom: Domain<S, A>, lookup: Lookup<S, A>, like: Likeness<S>)
    requires Respects(dom, lookup, like)
    ensures GoalsAlike(dom, like)
  {
    forall s: S, t: S | like(s, t)
      ensures dom.goal(s) <==> dom.goal(t)
    {
      LikeAnswer(dom, lookup, like, s, t);
    }
  }

  // The entry that answers for a state like e, an entry's own.
  lemma AnsweringEntry<S(!new), A(!new)>(
    lookup: Lookup<S, A>, entries: seq<Entry<S, A>>, like: Likeness<S>, e: S, s: S) returns (m: nat)
    requires AnsweredLike(lookup, entries, like, e) && IsPassedOn(like) && like(e, s) && lookup(e) == lookup(s)
    ensures m < |entries| && like(entries[m].state, s) && lookup(s) == Some(entries[m].action)
  {
    m :| m < |entries| && like(entries[m].state, e) && lookup(e) == Some(entries[m].action);
  }

  lemma BranchesForeseen<S(!new), A(!new)>(
    dom: Domain<S, A>, entries: seq<Entry<S, A>>, rank: seq<nat>, like: Likeness<S>, m: nat, s: S)
    requires m < |entries| == |rank| && EntryCloses(dom, entries, rank, m) && GoalsAlike(dom, like)
    requires BranchAlike(dom.expand(entries[m].state, entries[m].action), dom.expand(s, entries[m].action), like)
    ensures dom.expand(s, entries[m].action).Branches?
    ensures forall o :: o in dom.expand(s, entries[m].action).outcomes ==> Foreseen(dom, entries, like, o)
  {
    var e, f := dom.expand(entries[m].state, entries[m].action), dom.expand(s, entries[m].action);
    forall o | o in f.outcomes
      ensures Foreseen(dom, entries, like, o)
    {
      var j: nat :| j < |f.outcomes| && f.outcomes[j] == o;
      assert HasAlike(e.outcomes, f.outcomes[j], like);
      var i: nat :| i < |e.outcomes| && like(e.outcomes[i], o);
      assert Covered(dom, entries, rank, e.outcomes[i], rank[m] + 1);
    }
  }

  // Following the lookup from a state like an entry's leads to foreseen states.
  lemma StaysForeseen<S(!new), A(!new)>(
    dom: Domain<S, A>, entries: seq<Entry<S, A>>, lookup: Lookup<S, A>, rank: seq<nat>, like: Likeness<S>, s: S)
    requires Classed(dom, entries, lookup, rank, like) && LikeEntry(entries, like, s) && !dom.goal(s)
    ensures lookup(s).Some? && dom.expand(s, lookup(s).value).Branches?
    ensures forall o :: o in dom.expand(s, lookup(s).value).outcomes ==> Foreseen(dom, entries, like, o)
  {
    var n: nat :| n < |entries| && like(entries[n].state, s);
    LikeAnswer(dom, lookup, like, entries[n].state, s);
    assert AnsweredLike(lookup, entries, like, entries[n].state);
    var m := AnsweringEntry(lookup, entries, like, entries[n].state, s);
    LikeAnswer(dom, lookup, like, entries[m].state, s);
    RespectsGoals(dom, lookup, like);
    BranchesForeseen(dom, entries, rank, like, m, s);
  }

  // ----- As many actions as entries

  // A state like an entry's for every number of actions that are needed.
  ghost predicate IsDescent<S(!new), A(!new)>(
    dom: Domain<S, A>, lookup: Lookup<S, A>, entries: seq<Entry<S, A>>, like: Likeness<S>, ds: seq<S>) {
    forall k: nat :: k < |ds| ==> LikeEntry(entries, like, ds[k]) && TakesMore(dom, lookup, ds[k], k)
  }

  lemma ForeseenSlow<S(!new), A(!new)>(
    dom: Domain<S, A>, entries: seq<Entry<S, A>>, lookup: Lookup<S, A>, like: Likeness<S>, s: S, k: nat)
    requires Foreseen(dom, entries, like, s) && TakesMore(dom, lookup, s, k)
    ensures LikeEntry(entries, like, s) && !dom.goal(s)
  {
  }

  lemma DescentNext<S(!new), A(!new)>(
    dom: Domain<S, A>, lookup: Lookup<S, A>, entries: seq<Entry<S, A>>, like: Likeness<S>, ds: seq<S>, s: S)
    requires IsDescent(dom, lookup, entries, like, ds) && LikeEntry(entries, like, s) && TakesMore(dom, lookup, s, |ds|)
    ensures IsDescent(dom, lookup, entries, like, ds + [s])
  {
  }

  lemma {:induction false} Descent<S(!new), A(!new)>(
    dom: Domain<S, A>, entries: seq<Entry<S, A>>, lookup: Lookup<S, A>, rank: seq<nat>, like: Likeness<S>, s: S, k: nat)
    returns (ds: seq<S>)
    requires Classed(dom, entries, lookup, rank, like) && Foreseen(dom, entries, like, s) && TakesMore(dom, lookup, s, k)
    ensures |ds| == k + 1 && IsDescent(dom, lookup, entries, like, ds)
    decreases k
  {
    ForeseenSlow(dom, entries, lookup, like, s, k);
    if k == 0 {
      ds := [s];
    } else {
      StaysForeseen(dom, entries, lookup, rank, like, s);
      var o := SlowOutcome(dom, lookup, s, k);
      var rest := Descent(dom, entries, lookup, rank, like, o, k - 1);
      DescentNext(dom, lookup, entries, like, rest, s);
      ds := rest + [s];
    }
  }

  // The entries that the states of a descent are like.
  ghost function ClassesOf<S(!new), A(!new)>(entries: seq<Entry<S, A>>, like: Likeness<S>, ds: seq<S>): (ns: seq<nat>)
    requires forall k: nat :: k < |ds| ==> LikeEntry(entries, like, ds[k])
    ensures |ns| == |ds|
    ensures forall k: nat :: k < |ds| ==> ns[k] < |entries| && like(entries[ns[k]].state, ds[k])
  {
    if ds == [] then []
    else
      var last := ds[|ds| - 1];
      assert LikeEntry(entries, like, last);
      var n: nat :| n < |entries| && like(entries[n].state, last);
      assert forall k: nat :: k < |ds| - 1 ==> ds[..|ds| - 1][k] == ds[k];
      ClassesOf(entries, like, ds[..|ds| - 1]) + [n]
  }

  lemma DescentLeavesClass<S(!new), A(!new)>(
    dom: Domain<S, A>, lookup: Lookup<S, A>, entries: seq<Entry<S, A>>, like: Likeness<S>, ds: seq<S>, i: nat, j: nat, e: S)
    requires IsDescent(dom, lookup, entries, like, ds) && Respects(dom, lookup, like) && IsClassing(like)
    requires i < j < |ds| && like(e, ds[i])
    ensures !like(e, ds[j])
  {
    if like(e, ds[j]) {
      assert like(ds[i], e) && like(ds[i], ds[j]);
      assert TakesMore(dom, lookup, ds[i], i) && TakesMore(dom, lookup, ds[j], j);
      LikeCarriesOut(dom, lookup, like, ds[i], ds[j], i + 1);
      CarriesOutMonotone(dom, lookup, ds[j], i + 1, j);
    }
  }

  lemma DescentFits<S(!new), A(!new)>(
    dom: Domain<S, A>, lookup: Lookup<S, A>, entries: seq<Entry<S, A>>, like: Likeness<S>, ds: seq<S>)
    requires IsDescent(dom, lookup, entries, like, ds) && Respects(dom, lookup, like) && IsClassing(like)
    ensures |ds| <= |entries|
  {
    var ns := ClassesOf(entries, like, ds);
    forall i: nat, j: nat | i < j < |ns|
      ensures ns[i] != ns[j]
    {
      DescentLeavesClass(dom, lookup, entries, like, ds, i, j, entries[ns[i]].state);
    }
    DistinctFit(ns, Indices(|entries|));
  }

  /** Where states like an entry's are answered and led on as the entry is, the lookup leads
      from such a state to the goal if and only if it does within as many actions as there
      are entries. */
  lemma ClassedWithinEntries<S(!new), A(!new)>(
    dom: Domain<S, A>, entries: seq<Entry<S, A>>, lookup: Lookup<S, A>, rank: seq<nat>, like: Likeness<S>, s: S)
    requires Classed(dom, entries, lookup, rank, like) && Foreseen(dom, entries, like, s)
    ensures ReachesGoal(dom, lookup, s) <==> CarriesOut(dom, lookup, s, |entries|)
  {
    if ReachesGoal(dom, lookup, s) {
      var k: nat :| CarriesOut(dom, lookup, s, k);
      var j := FewestActions(dom, lookup, s, k);
      if j > 0 {
        var ds := Descent(dom, entries, lookup, rank, like, s, j - 1);
        DescentFits(dom, lookup, entries, like, ds);
      }
      CarriesOutMonotone(dom, lookup, s, j, |entries|);
    }
  }

  // ----- Ranks for the classes

  // The state is like that of an entry of lower rank.
  ghost predicate ClassBelow<S(!new), A(!new)>(entries: seq<Entry<S, A>>, like: Likeness<S>, ranks: map<nat, nat>, o: S, r: nat) {
    exists m: nat :: m in ranks && m < |entries| && like(entries[m].state, o) && ranks[m] < r
  }

  ghost predicate ClassLowers<S(!new), A(!new)>(
    dom: Domain<S, A>, lookup: Lookup<S, A>, entries: seq<Entry<S, A>>, like: Likeness<S>, ranks: map<nat, nat>, s: S, r: nat) {
    && lookup(s).Some? && dom.expand(s, lookup(s).value).Branches?
    && forall o :: o in dom.expand(s, lookup(s).value).outcomes ==> dom.goal(o) || ClassBelow(entries, like, ranks, o, r)
  }

  /** Some entries have ranks, and from their states every answer leads to goals or to states
      like those of entries of lower rank. */
  ghost predicate RanksClasses<S(!new), A(!new)>(
    dom: Domain<S, A>, lookup: Lookup<S, A>, entries: seq<Entry<S, A>>, like: Likeness<S>, ranks: map<nat, nat>) {
    forall n: nat :: n in ranks ==>
      n < |entries| && (dom.goal(entries[n].state) || ClassLowers(dom, lookup, entries, like, ranks, entries[n].state, ranks[n]))
  }

  ghost predicate LikeRanked<S(!new), A(!new)>(entries: seq<Entry<S, A>>, like: Likeness<S>, ranks: map<nat, nat>, s: S) {
    exists n: nat :: n in ranks && n < |entries| && like(entries[n].state, s)
  }

  ghost predicate HasClassRanks<S(!new), A(!new)>(
    dom: Domain<S, A>, lookup: Lookup<S, A>, entries: seq<Entry<S, A>>, like: Likeness<S>, s: S) {
    dom.goal(s) || exists ranks: map<nat, nat> ::
      RanksClasses(dom, lookup, entries, like, ranks) && LikeRanked(entries, like, ranks, s)
  }

  lemma {:induction false} ClassRanksLead<S(!new), A(!new)>(
    dom: Domain<S, A>, lookup: Lookup<S, A>, entries: seq<Entry<S, A>>, like: Likeness<S>, ranks: map<nat, nat>, n: nat)
    requires RanksClasses(dom, lookup, entries, like, ranks) && Respects(dom, lookup, like) && n in ranks && n < |entries|
    ensures CarriesOut(dom, lookup, entries[n].state, ranks[n] + 1)
    decreases ranks[n]
  {
    var s := entries[n].state;
    if !dom.goal(s) {
      assert ClassLowers(dom, lookup, entries, like, ranks, s, ranks[n]);
      var e := dom.expand(s, lookup(s).value);
      forall i | 0 <= i < |e.outcomes|
        ensures CarriesOut(dom, lookup, e.outcomes[i], ranks[n])
      {
        var o := e.outcomes[i];
        assert o in e.outcomes;
        if !dom.goal(o) {
          var m: nat :| m in ranks && m < |entries| && like(entries[m].state, o) && ranks[m] < ranks[n];
          ClassRanksLead(dom, lookup, entries, like, ranks, m);
          LikeCarriesOut(dom, lookup, like, entries[m].state, o, ranks[m] + 1);
          CarriesOutMonotone(dom, lookup, o, ranks[m] + 1, ranks[n]);
        }
      }
      assert AllCarriedOut(dom, lookup, e, ranks[n]);
    }
  }

  // The least number of actions within which the goal is reached.
  ghost predicate IsFewest<S(!new), A(!new)>(dom: Domain<S, A>, lookup: Lookup<S, A>, s: S, j: nat) {
    CarriesOut(dom, lookup, s, j) && forall i: nat :: CarriesOut(dom, lookup, s, i) ==> j <= i
  }

  ghost function Fewest<S(!new), A(!new)>(dom: Domain<S, A>, lookup: Lookup<S, A>, s: S): (j: nat)
    requires ReachesGoal(dom, lookup, s)
    ensures IsFewest(dom, lookup, s, j)
  {
    FewestExists(dom, lookup, s);
    var j: nat :| IsFewest(dom, lookup, s, j);
    j
  }

  lemma FewestExists<S(!new), A(!new)>(dom: Domain<S, A>, lookup: Lookup<S, A>, s: S)
    requires ReachesGoal(dom, lookup, s)
    ensures exists j: nat :: IsFewest(dom, lookup, s, j)
  {
    var k: nat :| CarriesOut(dom, lookup, s, k);
    var j := FewestActions(dom, lookup, s, k);
    forall i: nat | CarriesOut(dom, lookup, s, i)
      ensures j <= i
    {
      if i < j {
        CarriesOutMonotone(dom, lookup, s, i, j - 1);
      }
    }
    assert IsFewest(dom, lookup, s, j);
  }

  // Every entry from which the goal is reached, with the number of actions it takes.
  ghost function EntryRanks<S(!new), A(!new)>(
    dom: Domain<S, A>, lookup: Lookup<S, A>, entries: seq<Entry<S, A>>): (ranks: map<nat, nat>)
  {
    map n: nat | n in Indices(|entries|) && ReachesGoal(dom, lookup, entries[n].state) :: Fewest(dom, lookup, entries[n].state)
  }

  lemma RankedOutcome<S(!new), A(!new)>(
    dom: Domain<S, A>, entries: seq<Entry<S, A>>, lookup: Lookup<S, A>, like: Likeness<S>, o: S, k: nat)
    requires Respects(dom, lookup, like) && IsClassing(like) && LikeEntry(entries, like, o) && CarriesOut(dom, lookup, o, k)
    ensures ClassBelow(entries, like, EntryRanks(dom, lookup, entries), o, k + 1)
  {
    var m: nat :| m < |entries| && like(entries[m].state, o);
    assert like(o, entries[m].state);
    LikeCarriesOut(dom, lookup, like, o, entries[m].state, k);
    assert ReachesGoal(dom, lookup, entries[m].state);
    assert m in EntryRanks(dom, lookup, entries);
  }

  lemma EntryRanksLower<S(!new), A(!new)>(
    dom: Domain<S, A>, entries: seq<Entry<S, A>>, lookup: Lookup<S, A>, rank: seq<nat>, like: Likeness<S>, s: S)
    requires Classed(dom, entries, lookup, rank, like) && LikeEntry(entries, like, s) && !dom.goal(s)
    requires ReachesGoal(dom, lookup, s)
    ensures ClassLowers(dom, lookup, entries, like, EntryRanks(dom, lookup, entries), s, Fewest(dom, lookup, s))
  {
    StaysForeseen(dom, entries, lookup, rank, like, s);
    var e, k := dom.expand(s, lookup(s).value), Fewest(dom, lookup, s);
    assert AllCarriedOut(dom, lookup, e, k - 1);
    forall o | o in e.outcomes && !dom.goal(o)
      ensures ClassBelow(entries, like, EntryRanks(dom, lookup, entries), o, k)
    {
      var i :| 0 <= i < |e.outcomes| && e.outcomes[i] == o;
      assert CarriesOut(dom, lookup, e.outcomes[i], k - 1);
      assert Foreseen(dom, entries, like, o);
      RankedOutcome(dom, entries, lookup, like, o, k - 1);
    }
  }

  lemma EntryRanksRank<S(!new), A(!new)>(
    dom: Domain<S, A>, entries: seq<Entry<S, A>>, lookup: Lookup<S, A>, rank: seq<nat>, like: Likeness<S>)
    requires Classed(dom, entries, lookup, rank, like)
    ensures RanksClasses(dom, lookup, entries, like, EntryRanks(dom, lookup, entries))
  {
    var ranks := EntryRanks(dom, lookup, entries);
    forall n: nat | n in ranks && !dom.goal(entries[n].state)
      ensures ClassLowers(dom, lookup, entries, like, ranks, entries[n].state, ranks[n])
    {
      assert AnsweredLike(lookup, entries, like, entries[n].state);
      EntryRanksLower(dom, entries, lookup, rank, like, entries[n].state);
    }
  }

  /** And if and only if the classes of the entries' states can be ranked, as many of them as
      it takes, so that every answer leads to lower ones or goals. */
  lemma ClassedIffRanked<S(!new), A(!new)>(
    dom: Domain<S, A>, entries: seq<Entry<S, A>>, lookup: Lookup<S, A>, rank: seq<nat>, like: Likeness<S>, s: S)
    requires Classed(dom, entries, lookup, rank, like) && Foreseen(dom, entries, like, s)
    ensures ReachesGoal(dom, lookup, s) <==> HasClassRanks(dom, lookup, entries, like, s)
  {
    if ReachesGoal(dom, lookup, s) {
      ReachesHasRanks(dom, entries, lookup, rank, like, s);
    }
    if HasClassRanks(dom, lookup, entries, like, s) {
      RankedReaches(dom, entries, lookup, like, s);
    }
  }

  lemma ReachesRanked<S(!new), A(!new)>(
    dom: Domain<S, A>, entries: seq<Entry<S, A>>, lookup: Lookup<S, A>, like: Likeness<S>, s: S)
    requires Respects(dom, lookup, like) && IsClassing(like) && LikeEntry(entries, like, s) && ReachesGoal(dom, lookup, s)
    ensures LikeRanked(entries, like, EntryRanks(dom, lookup, entries), s)
  {
    var k: nat :| CarriesOut(dom, lookup, s, k);
    RankedOutcome(dom, entries, lookup, like, s, k);
  }

  lemma ReachesHasRanks<S(!new), A(!new)>(
    dom: Domain<S, A>, entries: seq<Entry<S, A>>, lookup: Lookup<S, A>, rank: seq<nat>, like: Likeness<S>, s: S)
    requires Classed(dom, entries, lookup, rank, like) && Foreseen(dom, entries, like, s) && ReachesGoal(dom, lookup, s)
    ensures HasClassRanks(dom, lookup, entries, like, s)
  {
    if !dom.goal(s) {
      EntryRanksRank(dom, entries, lookup, rank, like);
      ReachesRanked(dom, entries, lookup, like, s);
    }
  }

  lemma RankedReaches<S(!new), A(!new)>(
    dom: Domain<S, A>, entries: seq<Entry<S, A>>, lookup: Lookup<S, A>, like: Likeness<S>, s: S)
    requires Respects(dom, lookup, like) && HasClassRanks(dom, lookup, entries, like, s)
    ensures ReachesGoal(dom, lookup, s)
  {
    if dom.goal(s) {
      assert CarriesOut(dom, lookup, s, 0);
    } else {
      var ranks: map<nat, nat> :| RanksClasses(dom, lookup, entries, like, ranks) && LikeRanked(entries, like, ranks, s);
      var n: nat :| n in ranks && n < |entries| && like(entries[n].state, s);
      ClassRanksLead(dom, lookup, entries, like, ranks, n);
      LikeCarriesOut(dom, lookup, like, entries[n].state, s, ranks[n] + 1);
    }
  }

  // ----- For the lookup by key

  lemma TameClassing(tame: StateValue -> bool)
    ensures IsClassing(TameLikeness(tame))
  {
    var like := TameLikeness(tame);
    forall x: StateValue, y: StateValue | like(x, y)
      ensures like(y, x)
    {
      Symmetric(ByValuation, x, y);
    }
    forall x: StateValue, y: StateValue, z: StateValue | like(x, y) && like(y, z)
      ensures like(x, z)
    {
      Transitive(ByValuation, x, y, z);
    }
  }

  // The key confuses no entries for states that are not bisimilar.
  ghost predicate KeyTells(entries: seq<PolicyEntry>) {
    forall m: nat, n: nat :: m < n < |entries| ==> KeyTrue(entries[m].state, entries[n].state)
  }

  ghost predicate KeyTrue(s: StateValue, t: StateValue) {
    Bisimilar(ByKey, s, t) ==> Bisimilar(ByValuation, s, t)
  }

  ghost predicate EntriesTame(entries: seq<PolicyEntry>, tame: StateValue -> bool) {
    forall n: nat :: n < |entries| ==> tame(entries[n].state)
  }

  lemma TameAnswers(entries: seq<PolicyEntry>, tame: StateValue -> bool)
    requires EntriesValid(entries) && EntriesTame(entries, tame) && KeyTells(entries)
    ensures AnswersLike(ByBisimilarity(entries), entries, TameLikeness(tame))
  {
    forall n: nat | n < |entries|
      ensures AnsweredLike(ByBisimilarity(entries), entries, TameLikeness(tame), entries[n].state)
    {
      OwnEntryAnswers(entries, n);
      Reflexive(ByKey, entries[n].state);
      Reflexive(ByValuation, entries[n].state);
      var m := FirstMatchIndex(entries, entries[n].state);
      assert m <= n;
      assert m < n ==> KeyTrue(entries[m].state, entries[n].state);
      assert TameLikeness(tame)(entries[m].state, entries[n].state);
    }
  }

  /** In a tame set of states, a closed policy for it leads from every state that is bisimilar
      to an entry's to the goal if and only if it does within as many actions as it has
      entries, and if and only if the classes of its states can be ranked. */
  lemma PolicyLeadsUpToBisimilarity(
    enum: Enumeration, goal: FormulaValue, library: seq<ActionValue>, entries: seq<PolicyEntry>, rank: seq<nat>,
    tame: StateValue -> bool, s: StateValue)
    requires IsEnumeration(enum) && goal.Valid() && IsTame(enum, library, tame) && ValidOnly(tame)
    requires ActionsFrom(entries, library) && EntriesTame(entries, tame) && KeyTells(entries)
    requires ClosedPolicy(Problem(enum, goal, library), entries, rank)
    requires Foreseen(Problem(enum, goal, library), entries, TameLikeness(tame), s)
    ensures ReachesGoal(Problem(enum, goal, library), ByBisimilarity(entries), s)
       <==> CarriesOut(Problem(enum, goal, library), ByBisimilarity(entries), s, |entries|)
    ensures ReachesGoal(Problem(enum, goal, library), ByBisimilarity(entries), s)
       <==> HasClassRanks(Problem(enum, goal, library), ByBisimilarity(entries), entries, TameLikeness(tame), s)
  {
    var dom, lookup, like := Problem(enum, goal, library), ByBisimilarity(entries), TameLikeness(tame);
    TameLookup(enum, goal, library, entries, tame);
    TameClassing(tame);
    TameAnswers(entries, tame);
    ClassedWithinEntries(dom, entries, lookup, rank, like, s);
    ClassedIffRanked(dom, entries, lookup, rank, like, s);
  }
}
