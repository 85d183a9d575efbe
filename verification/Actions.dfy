/** Epistemic actions: events with preconditions and effects, per-agent event
    relations, designated events and an owner. */
module Actions {
  import opened Formulas

  datatype Event = Event(id: nat, precondition: FormulaValue, add: set<string>, delete: set<string>)

  datatype EventRelation = EventRelation(from: nat, to: nat)

  datatype ActionValue = ActionValue(
      owner: nat, events: seq<Event>, designated: seq<nat>, relations: seq<seq<EventRelation>>) {

    // Fit for states with the given number of agents.  Event ids are arbitrary
    // and may even repeat; relations and designation are by id.
    ghost predicate Valid(agents: nat) {
      && owner < agents <= |relations|
      && forall e :: 0 <= e < |events| ==> events[e].precondition.Valid()
    }

    predicate Edge(a: nat, e: nat, f: nat) {
      a < |relations| && EventRelation(e, f) in relations[a]
    }

    predicate Designated(e: nat) {
      e in designated
    }
  }
}
