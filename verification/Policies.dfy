/** Policies: a list of (state, action) entries looked up by bisimilarity. */
module Policies {
  import opened Actions
  import opened Bisimulation
  import opened BisimulationContexts
  import opened Extraction
  import opened Options
  import opened States

  type PolicyEntry = Entry<StateValue, ActionValue>

  /** Decides bisimilarity up to the valuation key with a fresh context. */
  method AreStatesBisimilar(s1: StateValue, s2: StateValue) returns (result: bool)
    requires s1.Valid() && s2.Valid()
    ensures result <==> Bisimilar(ByKey, s1, s2)
  {
    var context := new BisimulationContext(s1, s2);
    result := context.IsBisimilar();
  }

  ghost predicate EntriesValid(entries: seq<PolicyEntry>) {
    forall n :: 0 <= n < |entries| ==> entries[n].state.Valid()
  }

  // The action of the first entry whose state is bisimilar to the query.
  ghost function FirstMatch(entries: seq<PolicyEntry>, s: StateValue): (a: Option<ActionValue>)
    ensures a.Some? <==> exists n: nat :: n < |entries| && Bisimilar(ByKey, entries[n].state, s)
  {
    if entries == [] then None
    else if Bisimilar(ByKey, entries[0].state, s) then Some(entries[0].action)
    else
      assert forall n: nat :: 0 < n < |entries| ==> entries[n] == entries[1..][n - 1];
      assert forall n: nat :: n < |entries[1..]| ==> entries[1..][n] == entries[n + 1];
      FirstMatch(entries[1..], s)
  }

  class Policy {
    var solved: bool
    var entries: seq<PolicyEntry>

    constructor (solved: bool)
      ensures this.solved == solved && entries == []
    {
      this.solved, entries := solved, [];
    }

    method AddPolicyEntry(state: StateValue, action: ActionValue)
      modifies this`entries
      ensures entries == old(entries) + [Entry(state, action)]
    {
      entries := entries + [Entry(state, action)];
    }

    method GetAction(state: StateValue) returns (action: Option<ActionValue>)
      requires EntriesValid(entries) && state.Valid()
      ensures action == FirstMatch(entries, state)
    {
      for n := 0 to |entries|
        invariant FirstMatch(entries, state) == FirstMatch(entries[n..], state)
      {
        var matches := AreStatesBisimilar(entries[n].state, state);
        if matches {
          return Some(entries[n].action);
        }
        assert entries[n..][1..] == entries[n + 1..];
      }
      return None;
    }
  }

  /** Bisimilar queries get the same answer. */
  lemma {:induction false} GetActionRespectsBisimilarity(entries: seq<PolicyEntry>, s: StateValue, t: StateValue)
    requires Bisimilar(ByKey, s, t)
    ensures FirstMatch(entries, s) == FirstMatch(entries, t)
    decreases |entries|
  {
    if entries != [] {
      var e := entries[0].state;
      if Bisimilar(ByKey, e, s) {
        Transitive(ByKey, e, s, t);
      }
      if Bisimilar(ByKey, e, t) {
        Symmetric(ByKey, s, t);
        Transitive(ByKey, e, t, s);
      }
      GetActionRespectsBisimilarity(entries[1..], s, t);
    }
  }

  /** In particular for states that are bisimilar in the proper sense. */
  lemma GetActionRespectsTrueBisimilarity(entries: seq<PolicyEntry>, s: StateValue, t: StateValue)
    requires Bisimilar(ByValuation, s, t)
    ensures FirstMatch(entries, s) == FirstMatch(entries, t)
  {
    ValuationImpliesKey(s, t);
    GetActionRespectsBisimilarity(entries, s, t);
  }

  /** A state that has an entry of its own is always answered. */
  lemma OwnEntryAnswers(entries: seq<PolicyEntry>, n: nat)
    requires n < |entries| && entries[n].state.Valid()
    ensures FirstMatch(entries, entries[n].state).Some?
  {
    Reflexive(ByKey, entries[n].state);
  }
}
