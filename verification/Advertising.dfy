/** The call to advertise, as a node runs it against the shared store. */
module Advertising {
  import opened Options
  import opened TopicNaming

  class KVStore {
    var counter: nat
    var topics: map<Topic, nat>

    ghost function Value(): Store
      reads this
    {
      Store(counter, topics)
    }

    constructor ()
      ensures Value() == Store(0, map[])
    {
      counter, topics := 0, map[];
    }

    method Incr() returns (id: nat)
      modifies this`counter
      ensures Value() == old(Value()).Incr() && id == Value().Reply() < UINT32
    {
      counter := counter + 1;
      id := counter % UINT32;
    }

    method Zadd(topic: Topic, id: nat)
      modifies this`topics
      ensures Value() == old(Value()).ZaddNx(topic, id)
    {
      if topic !in topics {
        topics := topics[topic := id];
      }
    }

    method Zscore(topic: Topic) returns (r: Option<nat>)
      ensures r == Value().Zscore(topic)
    {
      if topic in topics {
        return Some(topics[topic]);
      }
      return None;
    }
  }

  lemma FinishUnfolds(store: Store, node: NodeValue)
    requires CommandsLeft(node.phase) > 0
    ensures Finish(store, node) == Finish(Advance(store, node).0, Advance(store, node).1)
  {
  }

  lemma FinishStops(store: Store, node: NodeValue)
    requires CommandsLeft(node.phase) == 0
    ensures Finish(store, node) == (store, node)
  {
  }

  lemma FinishReading(store: Store, node: NodeValue)
    requires (node.phase.Reading? || node.phase.Looking?) && node.phase.topic in store.topics
    ensures Finish(store, node) == (store, node.Register(node.phase.topic, node.phase.messageType, store.topics[node.phase.topic]))
  {
    FinishUnfolds(store, node);
    FinishStops(store, node.Register(node.phase.topic, node.phase.messageType, store.topics[node.phase.topic]));
  }

  // A topic that is new to the store: counted, added and read back.
  lemma FinishNewTopic(store: Store, node: NodeValue, topic: Topic, messageType: string, id: nat)
    requires topic !in store.topics && id == store.Incr().Reply()
    ensures Finish(store, node.(phase := Looking(topic, messageType)))
         == (store.Incr().ZaddNx(topic, id), node.Register(topic, messageType, id))
  {
    FinishUnfolds(store, node.(phase := Looking(topic, messageType)));
    FinishUnfolds(store, node.(phase := Counting(topic, messageType)));
    FinishUnfolds(store.Incr(), node.(phase := Adding(topic, messageType, id)));
    FinishReading(store.Incr().ZaddNx(topic, id), node.(phase := Reading(topic, messageType)));
  }

  class Node {
    const kv: KVStore
    var publishers: map<Topic, Publisher>
    var byChannel: map<nat, Topic>

    ghost function Value(): NodeValue
      reads this
    {
      NodeValue(Idle, publishers, byChannel)
    }

    constructor (kv: KVStore)
      ensures this.kv == kv && Value() == NodeValue(Idle, map[], map[])
    {
      this.kv, publishers, byChannel := kv, map[], map[];
    }

    /** With no other node in between, the call is its own run of commands to the end. */
    method Advertise(topic: Topic, messageType: string) returns (failure: Option<Failure>)
      modifies this`publishers, this`byChannel, kv
      ensures (kv.Value(), Value().(phase := if failure.Some? then Failed(failure.value) else Idle))
           == Finish(old(kv.Value()), old(Value()).Begin(topic, messageType))
    {
      if topic in publishers {
        if publishers[topic].messageType != messageType {
          return Some(OtherMessageType);
        }
        return None;
      }
      var id: nat;
      var opt := kv.Zscore(topic);
      if opt.Some? {
        id := opt.value;
      } else {
        ghost var store := kv.Value();
        id := kv.Incr();
        FinishNewTopic(store, Value(), topic, messageType, id);
        kv.Zadd(topic, id);
        opt := kv.Zscore(topic);
        if opt.None? {
          return Some(NotAdded);
        }
        id := opt.value;
      }
      if id >= READABLE {
        return Some(ScoreTooLarge);
      }
      publishers := publishers[topic := Publisher(messageType, id)];
      if id !in byChannel {
        byChannel := byChannel[id := topic];
      }
      return None;
    }
  }

  // What a call that finishes has done by then.
  lemma {:induction false} FinishRegisters(store: Store, node: NodeValue)
    requires NodeAgrees(store, node) && CommandsLeft(node.phase) > 0 && Finish(store, node).1.phase.Idle?
    ensures var (store', node') := Finish(store, node);
            var topic := node.phase.topic;
            && topic in store'.topics && store'.topics.Keys == store.topics.Keys + {topic}
            && node'.publishers == node.publishers[topic := Publisher(node.phase.messageType, store'.topics[topic])]
    decreases CommandsLeft(node.phase)
  {
    var topic := node.phase.topic;
    if (node.phase.Reading? || node.phase.Looking?) && topic in store.topics {
      FinishReading(store, node);
    } else {
      var (next, advanced) := Advance(store, node);
      FinishUnfolds(store, node);
      AdvanceAgrees(store, node);
      FinishRegisters(next, advanced);
    }
  }

  /** A call that finishes has a publisher with the id in the store, and leaves every other
      topic alone; advertising the same topic again changes nothing. */
  lemma AdvertiseHolds(store: Store, node: NodeValue, topic: Topic, messageType: string)
    requires node.phase.Idle? && NodeAgrees(store, node)
    requires Finish(store, node.Begin(topic, messageType)).1.phase.Idle?
    ensures var (store', node') := Finish(store, node.Begin(topic, messageType));
            && NodeAgrees(store', node')
            && topic in node'.publishers && topic in store'.topics
            && node'.publishers[topic] == Publisher(messageType, store'.topics[topic])
            && (forall t :: t != topic ==>
                 && (t in node'.publishers <==> t in node.publishers)
                 && (t in store'.topics <==> t in store.topics))
            && Finish(store', node'.Begin(topic, messageType)) == (store', node')
  {
    BeginAgrees(store, node, topic, messageType);
    FinishAgrees(store, node.Begin(topic, messageType));
    if topic !in node.publishers {
      FinishRegisters(store, node.Begin(topic, messageType));
    }
  }

  lemma {:induction false} FinishAgrees(store: Store, node: NodeValue)
    requires NodeAgrees(store, node)
    ensures var (store', node') := Finish(store, node); NodeAgrees(store', node')
    decreases CommandsLeft(node.phase)
  {
    if CommandsLeft(node.phase) > 0 {
      var (store', node') := Advance(store, node);
      AdvanceAgrees(store, node);
      FinishAgrees(store', node');
    }
  }
}
