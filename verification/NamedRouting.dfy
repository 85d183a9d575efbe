/** The ids that routing takes as given are the ones the nodes agree on by naming topics. */
module NamedRouting {
  import N = TopicNaming
  import opened Routing

  // The two views of one node's tables.
  ghost predicate SameTables<B>(u: N.NodeValue, v: NodeValue<B>) {
    && u.publishers.Keys == v.publishers.Keys && u.byChannel == v.byChannel
    && forall t :: t in u.publishers && t in v.publishers ==> u.publishers[t].channel == v.publishers[t].channel
  }

  /** The ids in the store are a naming that no two topics share. */
  lemma NamesAreInjective(run: seq<N.System>, i: nat)
    requires N.IsRun(run) && i < |run| && run[i].store.counter <= N.UINT32
    ensures Injective(run[i].store.topics)
  {
    N.RunsDistinct(run, i);
  }

  /** Every node's tables are wired as routing needs them, for the names in the store. */
  lemma TablesAreWired<B>(run: seq<N.System>, i: nat, n: nat, v: NodeValue<B>)
    requires N.IsRun(run) && i < |run| && n < |run[i].nodes| && run[i].store.counter <= N.UINT32
    requires SameTables(run[i].nodes[n], v)
    ensures Wired(v, run[i].store.topics)
  {
    N.RunsAgree(run, i);
    var u := run[i].nodes[n];
    assert N.NodeAgrees(run[i].store, u);
    forall t | t in v.publishers
      ensures v.publishers[t].channel in v.byChannel && v.byChannel[v.publishers[t].channel] == t
    {
      N.TablesInvert(run, i, n, t);
    }
  }

  lemma RegisterSame<B>(u: N.NodeValue, v: NodeValue<B>, topic: Topic, messageType: string, id: nat)
    requires SameTables(u, v) && topic !in u.publishers && id < N.READABLE
    ensures SameTables(u.Register(topic, messageType, id), Registered(v, topic, id))
  {
  }

  // The tables of v with one more topic, under the id the store has for it.
  ghost predicate Registers<B>(names: map<Topic, nat>, v: NodeValue<B>, u: N.NodeValue) {
    exists topic :: topic in names && SameTables(u, Registered(v, topic, names[topic]))
  }

  lemma AdvanceRegisters<B>(store: N.Store, u: N.NodeValue, v: NodeValue<B>)
    requires N.NodeAgrees(store, u) && SameTables(u, v)
    ensures var u' := N.Advance(store, u).1;
            SameTables(u', v) || Registers(store.topics, v, u')
  {
    var phase := u.phase;
    if (phase.Looking? || phase.Reading?) && phase.topic in store.topics && store.topics[phase.topic] < N.READABLE {
      RegisterSame(u, v, phase.topic, phase.messageType, store.topics[phase.topic]);
    }
  }

  /** A step of the naming leaves a node's tables alone or registers one topic, under the
      id that the store has for it then and ever after. */
  lemma StepRegisters<B>(run: seq<N.System>, i: nat, j: nat, n: nat, v: NodeValue<B>)
    requires N.IsRun(run) && i < j < |run| && n < |run[i].nodes| && SameTables(run[i].nodes[n], v)
    ensures n < |run[i + 1].nodes|
    ensures SameTables(run[i + 1].nodes[n], v) || Registers(run[j].store.topics, v, run[i + 1].nodes[n])
  {
    var s, t := run[i], run[i + 1];
    N.RunsAgree(run, i);
    N.IdsAreStable(run, i, j);
    assert N.Next(s, t);
    if m: nat :| N.Advances(s, t, m) {
      AdvanceRegisters(s.store, s.nodes[n], v);
    }
  }
}
