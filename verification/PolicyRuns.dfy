/** Carrying out a policy with the lookup by bisimilarity. */
module PolicyRuns {
  import opened Actions
  import opened AndOr
  import opened Bisimulation
  import opened Extraction
  import opened Options
  import opened Policies
  import opened States

  /** A closed policy answers every state it covers that is not a goal. */
  lemma CoveredIsAnswered(dom: Domain<StateValue, ActionValue>, entries: seq<PolicyEntry>, rank: seq<nat>, s: StateValue, r: nat)
    requires EntriesValid(entries) && Covered(dom, entries, rank, s, r) && !dom.goal(s)
    ensures FirstMatch(entries, s).Some?
  {
    var n: nat :| n < |entries| && n < |rank| && entries[n].state == s && rank[n] >= r;
    OwnEntryAnswers(entries, n);
  }

  type Lookup<!S, A> = S -> Option<A>

  // Looking up each state that is met, the goal is reached within k actions whatever the outcomes.
  ghost predicate CarriesOut<S(!new), A(!new)>(dom: Domain<S, A>, lookup: Lookup<S, A>, s: S, k: nat)
    decreases k, 1
  {
    dom.goal(s) || (k > 0 && lookup(s).Some? && AllCarriedOut(dom, lookup, dom.expand(s, lookup(s).value), k - 1))
  }

  ghost predicate AllCarriedOut<S(!new), A(!new)>(dom: Domain<S, A>, lookup: Lookup<S, A>, e: Expansion<S>, k: nat)
    decreases k, 2
  {
    e.Branches? && forall i :: 0 <= i < |e.outcomes| ==> CarriesOut(dom, lookup, e.outcomes[i], k)
  }

  // For some number of actions.
  ghost predicate ReachesGoal<S(!new), A(!new)>(dom: Domain<S, A>, lookup: Lookup<S, A>, s: S) {
    exists k: nat :: CarriesOut(dom, lookup, s, k)
  }

  // Looking up the state of an entry finds that entry's action.
  ghost predicate Answers<S, A>(lookup: Lookup<S, A>, entries: seq<Entry<S, A>>) {
    forall n: nat :: n < |entries| ==> lookup(entries[n].state) == Some(entries[n].action)
  }

  lemma {:induction false} CarriesOutMonotone<S(!new), A(!new)>(dom: Domain<S, A>, lookup: Lookup<S, A>, s: S, k: nat, l: nat)
    requires CarriesOut(dom, lookup, s, k) && k <= l
    ensures CarriesOut(dom, lookup, s, l)
    decreases k
  {
    if !dom.goal(s) {
      var e := dom.expand(s, lookup(s).value);
      assert AllCarriedOut(dom, lookup, e, k - 1);
      forall i | 0 <= i < |e.outcomes|
        ensures CarriesOut(dom, lookup, e.outcomes[i], l - 1)
      {
        CarriesOutMonotone(dom, lookup, e.outcomes[i], k - 1, l - 1);
      }
      assert AllCarriedOut(dom, lookup, e, l - 1);
    }
  }

  ghost predicate RanksBelow(rank: seq<nat>, h: nat) {
    forall n :: 0 <= n < |rank| ==> rank[n] < h
  }

  /** A closed policy is carried out to the goal by any lookup that answers for its entries. */
  lemma {:induction false} ClosedPolicyIsCarriedOut<S(!new), A(!new)>(
    dom: Domain<S, A>, entries: seq<Entry<S, A>>, lookup: Lookup<S, A>, rank: seq<nat>, h: nat, s: S, r: nat)
    requires ClosedPolicy(dom, entries, rank) && Answers(lookup, entries) && RanksBelow(rank, h)
    requires Covered(dom, entries, rank, s, r) && r <= h
    ensures CarriesOut(dom, lookup, s, h - r)
    decreases h - r
  {
    if !dom.goal(s) {
      var n: nat :| n < |entries| && n < |rank| && entries[n].state == s && rank[n] >= r;
      assert EntryCloses(dom, entries, rank, n);
      var e := dom.expand(s, entries[n].action);
      forall i | 0 <= i < |e.outcomes|
        ensures CarriesOut(dom, lookup, e.outcomes[i], h - (rank[n] + 1))
      {
        ClosedPolicyIsCarriedOut(dom, entries, lookup, rank, h, e.outcomes[i], rank[n] + 1);
      }
      assert AllCarriedOut(dom, lookup, e, h - (rank[n] + 1));
      CarriesOutMonotone(dom, lookup, s, h - rank[n], h - r);
    }
  }

  // ----- The lookup by bisimilarity

  ghost function ByBisimilarity(entries: seq<PolicyEntry>): Lookup<StateValue, ActionValue> {
    s => FirstMatch(entries, s)
  }

  // Entries for bisimilar states have the same action.
  ghost predicate Consistent(entries: seq<PolicyEntry>) {
    forall m: nat, n: nat :: m < n < |entries| ==> Agree(entries[m], entries[n])
  }

  ghost predicate Agree(e: PolicyEntry, f: PolicyEntry) {
    Bisimilar(ByKey, e.state, f.state) ==> e.action == f.action
  }

  /** The lookup answers for the entries exactly when bisimilar entries have the same action. */
  lemma AnswersIffConsistent(entries: seq<PolicyEntry>)
    requires EntriesValid(entries)
    ensures Answers(ByBisimilarity(entries), entries) <==> Consistent(entries)
  {
    if Answers(ByBisimilarity(entries), entries) {
      forall m: nat, n: nat | m < n < |entries|
        ensures Agree(entries[m], entries[n])
      {
        if Bisimilar(ByKey, entries[m].state, entries[n].state) {
          GetActionRespectsBisimilarity(entries, entries[m].state, entries[n].state);
          assert ByBisimilarity(entries)(entries[m].state) == ByBisimilarity(entries)(entries[n].state);
        }
      }
    }
    if Consistent(entries) {
      forall n: nat | n < |entries|
        ensures FirstMatch(entries, entries[n].state) == Some(entries[n].action)
      {
        ConsistentAnswers(entries, n);
      }
    }
  }

  lemma ConsistentAnswers(entries: seq<PolicyEntry>, n: nat)
    requires EntriesValid(entries) && Consistent(entries) && n < |entries|
    ensures FirstMatch(entries, entries[n].state) == Some(entries[n].action)
  {
    OwnEntryAnswers(entries, n);
    var m := FirstMatchIndex(entries, entries[n].state);
    Reflexive(ByKey, entries[n].state);
    assert m < n ==> Agree(entries[m], entries[n]);
  }

  lemma {:induction false} FirstMatchIndex(entries: seq<PolicyEntry>, s: StateValue) returns (m: nat)
    requires FirstMatch(entries, s).Some?
    ensures m < |entries| && Bisimilar(ByKey, entries[m].state, s) && FirstMatch(entries, s) == Some(entries[m].action)
    ensures forall l: nat :: l < m ==> !Bisimilar(ByKey, entries[l].state, s)
  {
    if Bisimilar(ByKey, entries[0].state, s) {
      m := 0;
    } else {
      var n := FirstMatchIndex(entries[1..], s);
      m := n + 1;
      forall l: nat | l < m
        ensures !Bisimilar(ByKey, entries[l].state, s)
      {
        if l > 0 {
          assert entries[l] == entries[1..][l - 1];
        }
      }
    }
  }

  lemma AnsweredPolicyReachesGoal<S(!new), A(!new)>(
    dom: Domain<S, A>, entries: seq<Entry<S, A>>, lookup: Lookup<S, A>, rank: seq<nat>, initial: S)
    requires Answers(lookup, entries) && ClosedPolicy(dom, entries, rank) && Covered(dom, entries, rank, initial, 0)
    ensures ReachesGoal(dom, lookup, initial)
  {
    var h := Highest(rank);
    assert RanksBelow(rank, h);
    ClosedPolicyIsCarriedOut(dom, entries, lookup, rank, h, initial, 0);
  }

  /** So a closed policy whose bisimilar entries have the same action leads to the goal. */
  lemma ConsistentPolicyReachesGoal(
    dom: Domain<StateValue, ActionValue>, entries: seq<PolicyEntry>, rank: seq<nat>, initial: StateValue)
    requires EntriesValid(entries) && Consistent(entries)
    requires ClosedPolicy(dom, entries, rank) && Covered(dom, entries, rank, initial, 0)
    ensures ReachesGoal(dom, ByBisimilarity(entries), initial)
  {
    AnswersIffConsistent(entries);
    AnsweredPolicyReachesGoal(dom, entries, ByBisimilarity(entries), rank, initial);
  }

  /** Where the lookup answers with an action that may lead back, it never gets further. */
  lemma {:induction false} WaitsForever<S(!new), A(!new)>(dom: Domain<S, A>, lookup: Lookup<S, A>, s: S, k: nat)
    requires !dom.goal(s) && lookup(s).Some? && dom.expand(s, lookup(s).value).Branches?
    requires s in dom.expand(s, lookup(s).value).outcomes
    ensures !CarriesOut(dom, lookup, s, k)
  {
    var outcomes := dom.expand(s, lookup(s).value).outcomes;
    var i :| 0 <= i < |outcomes| && outcomes[i] == s;
    if k > 0 {
      WaitsForever(dom, lookup, s, k - 1);
      assert !CarriesOut(dom, lookup, outcomes[i], k - 1);
    }
  }

  // ----- Exactly when a lookup leads to the goal

  /** The states met, with ranks that every action looked up lowers. */
  ghost predicate IsCertificate<S(!new), A(!new)>(dom: Domain<S, A>, lookup: Lookup<S, A>, cert: map<S, nat>) {
    forall t :: t in cert ==> dom.goal(t) || Lowers(dom, lookup, cert, t)
  }

  ghost predicate Lowers<S(!new), A(!new)>(dom: Domain<S, A>, lookup: Lookup<S, A>, cert: map<S, nat>, t: S)
    requires t in cert
  {
    lookup(t).Some? && RankedBelow(dom.expand(t, lookup(t).value), cert, cert[t])
  }

  ghost predicate RankedBelow<S(!new)>(e: Expansion<S>, cert: map<S, nat>, r: nat) {
    e.Branches? && forall i :: 0 <= i < |e.outcomes| ==> RankBelow(cert, e.outcomes[i], r)
  }

  ghost predicate RankBelow<S(!new)>(cert: map<S, nat>, o: S, r: nat) {
    o in cert && cert[o] < r
  }

  ghost predicate HasCertificate<S(!new), A(!new)>(dom: Domain<S, A>, lookup: Lookup<S, A>, s: S) {
    exists cert: map<S, nat> :: s in cert && IsCertificate(dom, lookup, cert)
  }

  lemma {:induction false} CertificateLeads<S(!new), A(!new)>(dom: Domain<S, A>, lookup: Lookup<S, A>, cert: map<S, nat>, s: S)
    requires IsCertificate(dom, lookup, cert) && s in cert
    ensures CarriesOut(dom, lookup, s, cert[s] + 1)
    decreases cert[s]
  {
    if !dom.goal(s) {
      assert Lowers(dom, lookup, cert, s);
      var e := dom.expand(s, lookup(s).value);
      forall i | 0 <= i < |e.outcomes|
        ensures CarriesOut(dom, lookup, e.outcomes[i], cert[s])
      {
        assert RankBelow(cert, e.outcomes[i], cert[s]);
        CertificateLeads(dom, lookup, cert, e.outcomes[i]);
        CarriesOutMonotone(dom, lookup, e.outcomes[i], cert[e.outcomes[i]] + 1, cert[s]);
      }
      assert AllCarriedOut(dom, lookup, e, cert[s]);
    }
  }

  // Both certificates, with the lower rank for a state in both.
  ghost function Merged<S(!new)>(a: map<S, nat>, b: map<S, nat>): (c: map<S, nat>)
    ensures forall t :: t in c <==> t in a || t in b
    ensures forall t :: t in a ==> c[t] <= a[t]
    ensures forall t :: t in b ==> c[t] <= b[t]
    ensures forall t :: t in c ==> (t in a && c[t] == a[t]) || (t in b && c[t] == b[t])
  {
    map t | t in a.Keys + b.Keys :: if t in a && (t !in b || a[t] <= b[t]) then a[t] else b[t]
  }

  lemma LowersStill<S(!new), A(!new)>(dom: Domain<S, A>, lookup: Lookup<S, A>, a: map<S, nat>, c: map<S, nat>, t: S)
    requires t in a && Lowers(dom, lookup, a, t) && t in c && c[t] == a[t]
    requires forall o :: o in a ==> o in c && c[o] <= a[o]
    ensures Lowers(dom, lookup, c, t)
  {
    var e := dom.expand(t, lookup(t).value);
    forall i | 0 <= i < |e.outcomes|
      ensures RankBelow(c, e.outcomes[i], c[t])
    {
      assert RankBelow(a, e.outcomes[i], a[t]);
    }
  }

  lemma MergedIsCertificate<S(!new), A(!new)>(dom: Domain<S, A>, lookup: Lookup<S, A>, a: map<S, nat>, b: map<S, nat>)
    requires IsCertificate(dom, lookup, a) && IsCertificate(dom, lookup, b)
    ensures IsCertificate(dom, lookup, Merged(a, b))
  {
    var c := Merged(a, b);
    forall t | t in c && !dom.goal(t)
      ensures Lowers(dom, lookup, c, t)
    {
      if t in a && c[t] == a[t] {
        LowersStill(dom, lookup, a, c, t);
      } else {
        LowersStill(dom, lookup, b, c, t);
      }
    }
  }

  ghost predicate RanksUpTo<S(!new)>(cert: map<S, nat>, k: nat) {
    forall t :: t in cert ==> cert[t] <= k
  }

  lemma {:induction false} Certify<S(!new), A(!new)>(
    dom: Domain<S, A>, lookup: Lookup<S, A>, s: S, k: nat) returns (cert: map<S, nat>)
    requires CarriesOut(dom, lookup, s, k)
    ensures s in cert && IsCertificate(dom, lookup, cert) && RanksUpTo(cert, k)
    decreases k, 0
  {
    if dom.goal(s) {
      cert := map[s := 0];
    } else {
      var e := dom.expand(s, lookup(s).value);
      var below := CertifyAll(dom, lookup, e.outcomes, k - 1);
      cert := if s in below then below else below[s := k];
      if s !in below {
        forall t | t in cert && !dom.goal(t)
          ensures Lowers(dom, lookup, cert, t)
        {
          if t == s {
            assert forall i :: 0 <= i < |e.outcomes| ==> RankBelow(cert, e.outcomes[i], k);
          } else {
            LowersStill(dom, lookup, below, cert, t);
          }
        }
      }
    }
  }

  lemma {:induction false} CertifyAll<S(!new), A(!new)>(
    dom: Domain<S, A>, lookup: Lookup<S, A>, outcomes: seq<S>, k: nat) returns (cert: map<S, nat>)
    requires forall i :: 0 <= i < |outcomes| ==> CarriesOut(dom, lookup, outcomes[i], k)
    ensures forall i :: 0 <= i < |outcomes| ==> outcomes[i] in cert
    ensures IsCertificate(dom, lookup, cert) && RanksUpTo(cert, k)
    decreases k, 1, |outcomes|
  {
    if outcomes == [] {
      cert := map[];
    } else {
      var last := |outcomes| - 1;
      var a := CertifyAll(dom, lookup, outcomes[..last], k);
      var b := Certify(dom, lookup, outcomes[last], k);
      MergedIsCertificate(dom, lookup, a, b);
      cert := Merged(a, b);
      assert forall i :: 0 <= i < last ==> outcomes[i] == outcomes[..last][i];
    }
  }

  /** A lookup leads from a state to the goal if and only if the states it meets there,
      finitely many, can be ranked so that every action it answers with leads downwards. */
  lemma CarriedOutIffCertified<S(!new), A(!new)>(dom: Domain<S, A>, lookup: Lookup<S, A>, s: S)
    ensures ReachesGoal(dom, lookup, s) <==> HasCertificate(dom, lookup, s)
  {
    if ReachesGoal(dom, lookup, s) {
      var k: nat :| CarriesOut(dom, lookup, s, k);
      var cert := Certify(dom, lookup, s, k);
      assert s in cert;
    }
    if HasCertificate(dom, lookup, s) {
      var cert: map<S, nat> :| s in cert && IsCertificate(dom, lookup, cert);
      CertificateLeads(dom, lookup, cert, s);
    }
  }

  // ----- The condition as a check on the policy

  // The answer for the state of an entry is that of an entry for the same state.
  ghost predicate AnswersOwn<S(!new), A(!new)>(lookup: Lookup<S, A>, entries: seq<Entry<S, A>>) {
    forall n: nat :: n < |entries| ==> AnsweredOwn(lookup, entries, entries[n].state)
  }

  ghost predicate AnsweredOwn<S(!new), A(!new)>(lookup: Lookup<S, A>, entries: seq<Entry<S, A>>, s: S) {
    exists m: nat :: m < |entries| && entries[m].state == s && lookup(s) == Some(entries[m].action)
  }

  ghost function StatesOf<S, A>(entries: seq<Entry<S, A>>): (states: set<S>)
    ensures forall n :: 0 <= n < |entries| ==> entries[n].state in states
    ensures forall s :: s in states ==> exists n: nat :: n < |entries| && entries[n].state == s
    ensures |states| <= |entries|
  {
    if entries == [] then {}
    else
      var init, last := entries[..|entries| - 1], entries[|entries| - 1];
      assert entries == init + [last];
      var states := StatesOf(init) + {last.state};
      assert forall s :: s in StatesOf(init) ==> exists n: nat :: n < |init| && init[n].state == s && entries[n] == init[n];
      states
  }

  // A goal, or the state of an entry.
  ghost predicate Known<S(!new), A(!new)>(dom: Domain<S, A>, entries: seq<Entry<S, A>>, s: S) {
    dom.goal(s) || s in StatesOf(entries)
  }

  // Following the lookup from the state of an entry leads to known states.
  lemma StaysKnown<S(!new), A(!new)>(
    dom: Domain<S, A>, entries: seq<Entry<S, A>>, lookup: Lookup<S, A>, rank: seq<nat>, s: S)
    requires ClosedPolicy(dom, entries, rank) && AnswersOwn(lookup, entries) && s in StatesOf(entries)
    ensures lookup(s).Some? && dom.expand(s, lookup(s).value).Branches?
    ensures forall o :: o in dom.expand(s, lookup(s).value).outcomes ==> Known(dom, entries, o)
  {
    var n: nat :| n < |entries| && entries[n].state == s;
    assert AnsweredOwn(lookup, entries, entries[n].state);
    var m: nat :| m < |entries| && entries[m].state == s && lookup(s) == Some(entries[m].action);
    assert EntryCloses(dom, entries, rank, m);
    var e := dom.expand(s, lookup(s).value);
    forall o | o in e.outcomes
      ensures Known(dom, entries, o)
    {
      var i :| 0 <= i < |e.outcomes| && e.outcomes[i] == o;
      assert Covered(dom, entries, rank, e.outcomes[i], rank[m] + 1);
    }
  }

  // Not carried out within k actions, but with one more.
  ghost predicate TakesMore<S(!new), A(!new)>(dom: Domain<S, A>, lookup: Lookup<S, A>, s: S, k: nat) {
    !CarriesOut(dom, lookup, s, k) && CarriesOut(dom, lookup, s, k + 1)
  }

  // Some outcome takes all of the actions that are left.
  lemma SlowOutcome<S(!new), A(!new)>(dom: Domain<S, A>, lookup: Lookup<S, A>, s: S, k: nat) returns (o: S)
    requires TakesMore(dom, lookup, s, k) && k > 0
    ensures lookup(s).Some? && dom.expand(s, lookup(s).value).Branches?
    ensures o in dom.expand(s, lookup(s).value).outcomes && TakesMore(dom, lookup, o, k - 1)
  {
    assert CarriesOut(dom, lookup, s, k + 1);
    var e := dom.expand(s, lookup(s).value);
    assert AllCarriedOut(dom, lookup, e, k) && !AllCarriedOut(dom, lookup, e, k - 1);
    var i :| 0 <= i < |e.outcomes| && !CarriesOut(dom, lookup, e.outcomes[i], k - 1);
    o := e.outcomes[i];
  }

  // One state of an entry for every number of actions that are needed.
  ghost predicate IsSlowdown<S(!new), A(!new)>(dom: Domain<S, A>, lookup: Lookup<S, A>, entries: seq<Entry<S, A>>, ds: seq<S>) {
    forall k: nat :: k < |ds| ==> ds[k] in StatesOf(entries) && TakesMore(dom, lookup, ds[k], k)
  }

  lemma {:induction false} SlowStates<S(!new), A(!new)>(
    dom: Domain<S, A>, entries: seq<Entry<S, A>>, lookup: Lookup<S, A>, rank: seq<nat>, s: S, k: nat) returns (ds: seq<S>)
    requires ClosedPolicy(dom, entries, rank) && AnswersOwn(lookup, entries)
    requires Known(dom, entries, s) && TakesMore(dom, lookup, s, k)
    ensures |ds| == k + 1 && IsSlowdown(dom, lookup, entries, ds)
    decreases k
  {
    KnownSlow(dom, entries, lookup, s, k);
    if k == 0 {
      ds := [s];
    } else {
      var o := SlowOutcome(dom, lookup, s, k);
      StaysKnown(dom, entries, lookup, rank, s);
      var rest := SlowStates(dom, entries, lookup, rank, o, k - 1);
      SlowdownNext(dom, lookup, entries, rest, s);
      ds := rest + [s];
    }
  }

  lemma KnownSlow<S(!new), A(!new)>(dom: Domain<S, A>, entries: seq<Entry<S, A>>, lookup: Lookup<S, A>, s: S, k: nat)
    requires Known(dom, entries, s) && TakesMore(dom, lookup, s, k)
    ensures s in StatesOf(entries)
  {
  }

  lemma SlowdownNext<S(!new), A(!new)>(dom: Domain<S, A>, lookup: Lookup<S, A>, entries: seq<Entry<S, A>>, ds: seq<S>, s: S)
    requires IsSlowdown(dom, lookup, entries, ds) && s in StatesOf(entries) && TakesMore(dom, lookup, s, |ds|)
    ensures IsSlowdown(dom, lookup, entries, ds + [s])
  {
  }

  lemma SlowStatesDiffer<S(!new), A(!new)>(
    dom: Domain<S, A>, lookup: Lookup<S, A>, entries: seq<Entry<S, A>>, ds: seq<S>, i: nat, j: nat)
    requires IsSlowdown(dom, lookup, entries, ds) && i < j < |ds|
    ensures ds[i] != ds[j]
  {
    assert TakesMore(dom, lookup, ds[i], i) && TakesMore(dom, lookup, ds[j], j);
    CarriesOutMonotone(dom, lookup, ds[i], i + 1, j);
  }

  lemma {:induction false} DistinctFit<S>(ds: seq<S>, states: set<S>)
    requires forall i, j :: 0 <= i < j < |ds| ==> ds[i] != ds[j]
    requires forall i :: 0 <= i < |ds| ==> ds[i] in states
    ensures |ds| <= |states|
    decreases |ds|
  {
    if ds != [] {
      var last := ds[|ds| - 1];
      DistinctFit(ds[..|ds| - 1], states - {last});
    }
  }

  lemma {:induction false} FewestActions<S(!new), A(!new)>(dom: Domain<S, A>, lookup: Lookup<S, A>, s: S, k: nat) returns (j: nat)
    requires CarriesOut(dom, lookup, s, k)
    ensures j <= k && CarriesOut(dom, lookup, s, j) && (j > 0 ==> TakesMore(dom, lookup, s, j - 1))
    decreases k
  {
    if k > 0 && CarriesOut(dom, lookup, s, k - 1) {
      j := FewestActions(dom, lookup, s, k - 1);
    } else {
      j := k;
    }
  }

  /** Where the lookup answers for the states of a closed policy with their own entries, it
      leads from a covered state to the goal if and only if it does so within as many
      actions as there are entries. */
  lemma CarriedOutWithinEntries<S(!new), A(!new)>(
    dom: Domain<S, A>, entries: seq<Entry<S, A>>, lookup: Lookup<S, A>, rank: seq<nat>, s: S)
    requires ClosedPolicy(dom, entries, rank) && AnswersOwn(lookup, entries) && Covered(dom, entries, rank, s, 0)
    ensures ReachesGoal(dom, lookup, s) <==> CarriesOut(dom, lookup, s, |entries|)
  {
    assert Known(dom, entries, s);
    if ReachesGoal(dom, lookup, s) {
      var k: nat :| CarriesOut(dom, lookup, s, k);
      var j := FewestActions(dom, lookup, s, k);
      if j > 0 {
        var ds := SlowStates(dom, entries, lookup, rank, s, j - 1);
        SlowStatesFit(dom, lookup, entries, ds);
      }
      CarriesOutMonotone(dom, lookup, s, j, |entries|);
    }
  }

  lemma SlowStatesFit<S(!new), A(!new)>(dom: Domain<S, A>, lookup: Lookup<S, A>, entries: seq<Entry<S, A>>, ds: seq<S>)
    requires IsSlowdown(dom, lookup, entries, ds)
    ensures |ds| <= |entries|
  {
    forall i, j | 0 <= i < j < |ds|
      ensures ds[i] != ds[j]
    {
      SlowStatesDiffer(dom, lookup, entries, ds, i, j);
    }
    DistinctFit(ds, StatesOf(entries));
  }

  // Ranks for states of entries only; a goal needs none.
  ghost predicate RanksEntries<S(!new), A(!new)>(
    dom: Domain<S, A>, lookup: Lookup<S, A>, entries: seq<Entry<S, A>>, cert: map<S, nat>) {
    forall t :: t in cert ==> t in StatesOf(entries) && (dom.goal(t) || LowersOrEnds(dom, lookup, cert, t))
  }

  ghost predicate LowersOrEnds<S(!new), A(!new)>(dom: Domain<S, A>, lookup: Lookup<S, A>, cert: map<S, nat>, t: S)
    requires t in cert
  {
    && lookup(t).Some? && dom.expand(t, lookup(t).value).Branches?
    && forall o :: o in dom.expand(t, lookup(t).value).outcomes ==> dom.goal(o) || RankBelow(cert, o, cert[t])
  }

  ghost predicate HasEntryRanks<S(!new), A(!new)>(dom: Domain<S, A>, lookup: Lookup<S, A>, entries: seq<Entry<S, A>>, s: S) {
    dom.goal(s) || exists cert: map<S, nat> :: s in cert && RanksEntries(dom, lookup, entries, cert)
  }

  lemma {:induction false} EntryRanksLead<S(!new), A(!new)>(
    dom: Domain<S, A>, lookup: Lookup<S, A>, entries: seq<Entry<S, A>>, cert: map<S, nat>, s: S)
    requires RanksEntries(dom, lookup, entries, cert) && s in cert
    ensures CarriesOut(dom, lookup, s, cert[s] + 1)
    decreases cert[s]
  {
    if !dom.goal(s) {
      assert LowersOrEnds(dom, lookup, cert, s);
      var e := dom.expand(s, lookup(s).value);
      forall i | 0 <= i < |e.outcomes|
        ensures CarriesOut(dom, lookup, e.outcomes[i], cert[s])
      {
        var o := e.outcomes[i];
        assert o in e.outcomes;
        if !dom.goal(o) {
          EntryRanksLead(dom, lookup, entries, cert, o);
          CarriesOutMonotone(dom, lookup, o, cert[o] + 1, cert[s]);
        }
      }
      assert AllCarriedOut(dom, lookup, e, cert[s]);
    }
  }

  // The part of a certificate that is about states of entries.
  ghost function Restricted<S, A>(cert: map<S, nat>, entries: seq<Entry<S, A>>): (r: map<S, nat>) {
    map t | t in cert && t in StatesOf(entries) :: cert[t]
  }

  lemma RestrictedRanks<S(!new), A(!new)>(
    dom: Domain<S, A>, entries: seq<Entry<S, A>>, lookup: Lookup<S, A>, rank: seq<nat>, cert: map<S, nat>)
    requires ClosedPolicy(dom, entries, rank) && AnswersOwn(lookup, entries) && IsCertificate(dom, lookup, cert)
    ensures RanksEntries(dom, lookup, entries, Restricted(cert, entries))
  {
    var r := Restricted(cert, entries);
    forall t | t in r && !dom.goal(t)
      ensures LowersOrEnds(dom, lookup, r, t)
    {
      StaysKnown(dom, entries, lookup, rank, t);
      assert Lowers(dom, lookup, cert, t);
      var e := dom.expand(t, lookup(t).value);
      forall o | o in e.outcomes && !dom.goal(o)
        ensures RankBelow(r, o, r[t])
      {
        var i :| 0 <= i < |e.outcomes| && e.outcomes[i] == o;
        assert RankBelow(cert, e.outcomes[i], cert[t]) && Known(dom, entries, o);
      }
    }
  }

  /** There, the lookup leads to the goal if and only if the states of the entries can be
      ranked, as many of them as it takes, so that every answer leads to lower ones or goals. */
  lemma CarriedOutIffEntriesRanked<S(!new), A(!new)>(
    dom: Domain<S, A>, entries: seq<Entry<S, A>>, lookup: Lookup<S, A>, rank: seq<nat>, s: S)
    requires ClosedPolicy(dom, entries, rank) && AnswersOwn(lookup, entries) && Covered(dom, entries, rank, s, 0)
    ensures ReachesGoal(dom, lookup, s) <==> HasEntryRanks(dom, lookup, entries, s)
  {
    if ReachesGoal(dom, lookup, s) && !dom.goal(s) {
      CarriedOutIffCertified(dom, lookup, s);
      var cert: map<S, nat> :| s in cert && IsCertificate(dom, lookup, cert);
      RestrictedRanks(dom, entries, lookup, rank, cert);
      assert s in Restricted(cert, entries);
    }
    if HasEntryRanks(dom, lookup, entries, s) {
      if dom.goal(s) {
        assert CarriesOut(dom, lookup, s, 0);
      } else {
        var cert: map<S, nat> :| s in cert && RanksEntries(dom, lookup, entries, cert);
        EntryRanksLead(dom, lookup, entries, cert, s);
      }
    }
  }

  // Entries whose states the lookup confuses are for the same state.
  ghost predicate Apart(entries: seq<PolicyEntry>) {
    forall m: nat, n: nat :: m < n < |entries| ==> NotConfused(entries[m].state, entries[n].state)
  }

  ghost predicate NotConfused(s: StateValue, t: StateValue) {
    Bisimilar(ByKey, s, t) ==> s == t
  }

  lemma ApartAnswersOwn(entries: seq<PolicyEntry>)
    requires EntriesValid(entries) && Apart(entries)
    ensures AnswersOwn(ByBisimilarity(entries), entries)
  {
    forall n: nat | n < |entries|
      ensures AnsweredOwn(ByBisimilarity(entries), entries, entries[n].state)
    {
      OwnEntryAnswers(entries, n);
      Reflexive(ByKey, entries[n].state);
      var m := FirstMatchIndex(entries, entries[n].state);
      assert m <= n;
      assert m < n ==> NotConfused(entries[m].state, entries[n].state);
    }
  }

  /** A closed policy whose states the lookup keeps apart leads to the goal if and only if
      it does within as many actions as it has entries, and if and only if its states can
      be ranked. */
  lemma PolicyLeadsIff(dom: Domain<StateValue, ActionValue>, entries: seq<PolicyEntry>, rank: seq<nat>, initial: StateValue)
    requires EntriesValid(entries) && Apart(entries)
    requires ClosedPolicy(dom, entries, rank) && Covered(dom, entries, rank, initial, 0)
    ensures ReachesGoal(dom, ByBisimilarity(entries), initial)
       <==> CarriesOut(dom, ByBisimilarity(entries), initial, |entries|)
    ensures ReachesGoal(dom, ByBisimilarity(entries), initial)
       <==> HasEntryRanks(dom, ByBisimilarity(entries), entries, initial)
  {
    ApartAnswersOwn(entries);
    CarriedOutWithinEntries(dom, entries, ByBisimilarity(entries), rank, initial);
    CarriedOutIffEntriesRanked(dom, entries, ByBisimilarity(entries), rank, initial);
  }
}
