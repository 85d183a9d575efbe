/** A node of the publish/subscribe system: its tables, and the calls that change them. */
module Nodes {
  import opened Options
  import opened Queues
  import opened Routing

  method Push<B>(s: Subscriber<B>, m: Message<B>, ghost item: Item<B>) returns (r: Subscriber<B>)
    ensures r == Pushed(s, m, item)
  {
    ghost var overflows := if |s.queue| + 1 == QUEUE_SIZE then s.log.overflows + 1 else s.log.overflows;
    r := s.(queue := Put(QUEUE_SIZE, s.queue, m),
            log := s.log.(offered := s.log.offered + [item], overflows := overflows));
  }

  // One message pushed to every subscriber of a publisher.
  method PublishToAll<B>(p: Publisher<B>, m: Message<B>) returns (r: Publisher<B>)
    ensures r == PublishedTo(p, m)
  {
    var subs := p.subscribers;
    for i := 0 to |subs|
      invariant |subs| == |p.subscribers|
      invariant forall k :: 0 <= k < |subs| ==>
        subs[k] == if k < i then Pushed(p.subscribers[k], m, Published(m.body)) else p.subscribers[k]
    {
      var sub := Push(subs[i], m, Published(m.body));
      subs := subs[i := sub];
    }
    r := p.(subscribers := subs, published := p.published + [m.body]);
    assert r.subscribers == PublishedTo(p, m).subscribers;
  }

  // One received message pushed to the subscribers that are not networked.
  method DeliverToAll<B>(p: Publisher<B>, m: Message<B>) returns (r: Publisher<B>)
    ensures r == DeliveredTo(p, m)
  {
    var subs := p.subscribers;
    for i := 0 to |subs|
      invariant |subs| == |p.subscribers|
      invariant forall k :: 0 <= k < |subs| ==> subs[k] == if k < i then ReceivedAt(p.subscribers[k], m) else p.subscribers[k]
    {
      if subs[i].networked {
        continue;
      }
      var sub := Push(subs[i], m, Received(m.body));
      subs := subs[i := sub];
    }
    r := p.(subscribers := subs);
    assert r.subscribers == DeliveredTo(p, m).subscribers;
  }

  class Node<B> {
    var publishers: map<Topic, Publisher<B>>
    var byChannel: map<nat, Topic>
    var networkSubs: seq<Forward>
    ghost var sent: seq<Sent<B>>
    ghost var arrived: seq<Message<B>>

    ghost function Value(): NodeValue<B>
      reads this
    {
      NodeValue(publishers, byChannel, networkSubs, sent, arrived)
    }

    constructor ()
      ensures Value() == NodeValue(map[], map[], [], [], [])
    {
      publishers, byChannel, networkSubs := map[], map[], [];
      sent, arrived := [], [];
    }

    // The end of a call to advertise: a publisher for the id that was agreed on.
    method Register(topic: Topic, channel: nat)
      modifies this`publishers, this`byChannel
      ensures Value() == Registered(old(Value()), topic, channel)
    {
      if topic !in publishers {
        publishers := publishers[topic := Publisher(channel, [], [])];
        if channel !in byChannel {
          byChannel := byChannel[channel := topic];
        }
      }
    }

    method Subscribe(topic: Topic, networked: bool) returns (f: Forward)
      requires topic in publishers
      modifies this`publishers, this`networkSubs
      ensures Value() == Subscribed(old(Value()), topic, networked)
      ensures f == Forward(topic, |old(publishers)[topic].subscribers|)
    {
      var p := publishers[topic];
      f := Forward(topic, |p.subscribers|);
      var sub := Subscriber(networked, [], Log(|p.published|, |arrived|, [], [], 0));
      publishers := publishers[topic := p.(subscribers := p.subscribers + [sub])];
      if networked {
        networkSubs := networkSubs + [f];
      }
    }

    method Publish(topic: Topic, m: Message<B>)
      requires topic in publishers
      modifies this`publishers
      ensures Value() == PublishedAt(old(Value()), topic, m)
    {
      var p := PublishToAll(publishers[topic], m);
      publishers := publishers[topic := p];
    }

    method SetSubscriber(f: Forward, s: Subscriber<B>)
      requires IsSubscriber(Value(), f)
      modifies this`publishers
      ensures Value() == WithSubscriber(old(Value()), f, s)
    {
      var p := publishers[f.topic];
      publishers := publishers[f.topic := p.(subscribers := p.subscribers[f.index := s])];
    }

    // A subscriber takes its next message, if there is one.
    method Next(f: Forward) returns (m: Option<Message<B>>)
      requires IsSubscriber(Value(), f)
      modifies this`publishers
      ensures Value() == TakenAt(old(Value()), f)
      ensures var queue := old(SubscriberAt(Value(), f)).queue; m == if queue == [] then None else Some(queue[0])
    {
      var s := publishers[f.topic].subscribers[f.index];
      if s.queue == [] {
        return None;
      }
      m := Some(s.queue[0]);
      TakenOne(s);
      SetSubscriber(f, s.(queue := s.queue[1..], log := s.log.(taken := s.log.taken + [s.queue[0].body])));
    }

    // One message of a networked subscriber: taken, stamped with the channel and sent.
    method SendNext(f: Forward, channel: nat, ghost v: NodeValue<B>, outgoing: seq<Message<B>>)
        returns (more: bool, outgoing': seq<Message<B>>)
      requires Sending(v, f, outgoing, Value()) && channel == v.publishers[f.topic].channel
      modifies this`publishers, this`sent
      ensures Sending(v, f, outgoing', Value())
      ensures more <==> |outgoing| < |SubscriberAt(v, f).queue|
      ensures |outgoing'| == if more then |outgoing| + 1 else |outgoing|
    {
      ForwardedLeft(v, f, |outgoing|);
      var opt := Next(f);
      if opt.None? {
        return false, outgoing;
      }
      var m := Message(channel, opt.value.body);
      SendingNext(v, f, outgoing, NodeValue(old(publishers), byChannel, networkSubs, sent, arrived), m);
      sent := sent + [Sent(f, m)];
      return true, outgoing + [m];
    }

    // Everything held for a networked subscriber.
    method Drain(f: Forward) returns (outgoing: seq<Message<B>>)
      requires IsSubscriber(Value(), f)
      modifies this`publishers, this`sent
      ensures var v := old(Value()); Value() == Forwarded(v, f, |SubscriberAt(v, f).queue|)
      ensures Messages(sent) == Messages(old(sent)) + outgoing
    {
      ghost var v := Value();
      var channel := publishers[f.topic].channel;
      var more := true;
      outgoing := [];
      ForwardedNone(v, f);
      while more
        invariant Sending(v, f, outgoing, Value())
        invariant !more ==> |outgoing| == |SubscriberAt(v, f).queue|
        decreases |SubscriberAt(v, f).queue| - |outgoing|, more
      {
        more, outgoing := SendNext(f, channel, v, outgoing);
      }
    }

    method Deliver(m: Message<B>)
      requires forall c :: c in byChannel ==> byChannel[c] in publishers
      modifies this`publishers, this`arrived
      ensures Value() == DeliveredAt(old(Value()), m)
    {
      arrived := arrived + [m];
      if m.channel in byChannel {
        var topic := byChannel[m.channel];
        var p := DeliverToAll(publishers[topic], m);
        publishers := publishers[topic := p];
      }
    }

    /** Sends everything held for the networked subscribers, then hands what has arrived
        to the local ones. */
    method NetworkTick(initialized: bool, incoming: seq<Message<B>>) returns (outgoing: seq<Message<B>>)
      requires TablesOk(Value())
      modifies this`publishers, this`sent, this`arrived
      ensures initialized ==> Value() == Ticked(old(Value()), incoming)
      ensures !initialized ==> Value() == old(Value())
      ensures Messages(sent) == Messages(old(sent)) + outgoing
    {
      outgoing := [];
      if !initialized {
        return;
      }
      ghost var v := Value();
      outgoing := SendAll();
      DeliverEach(incoming);
    }

    method DrainNext(ghost v: NodeValue<B>, k: nat, outgoing: seq<Message<B>>) returns (outgoing': seq<Message<B>>)
      requires SendingAll(v, k, outgoing, Value()) && k < |networkSubs|
      modifies this`publishers, this`sent
      ensures SendingAll(v, k + 1, outgoing', Value())
    {
      ForwardedAllNext(v, k);
      var packets := Drain(networkSubs[k]);
      outgoing' := outgoing + packets;
    }

    // The networked subscribers, first to last.
    method SendAll() returns (outgoing: seq<Message<B>>)
      requires TablesOk(Value())
      modifies this`publishers, this`sent
      ensures Value() == ForwardedAll(old(Value()), networkSubs)
      ensures Messages(sent) == Messages(old(sent)) + outgoing
    {
      ghost var v := Value();
      outgoing := [];
      for k := 0 to |networkSubs|
        invariant SendingAll(v, k, outgoing, Value())
      {
        outgoing := DrainNext(v, k, outgoing);
      }
      assert networkSubs[..|networkSubs|] == networkSubs;
    }

    // The received messages, first to last.
    method DeliverEach(incoming: seq<Message<B>>)
      requires forall c :: c in byChannel ==> byChannel[c] in publishers
      modifies this`publishers, this`arrived
      ensures Value() == DeliveredAll(old(Value()), incoming)
    {
      ghost var v := Value();
      for k := 0 to |incoming|
        invariant Value() == DeliveredAll(v, incoming[..k])
      {
        assert incoming[..k + 1][..k] == incoming[..k];
        Deliver(incoming[k]);
      }
      assert incoming[..|incoming|] == incoming;
    }
  }

  lemma MessagesSnoc<B>(sent: seq<Sent<B>>, s: Sent<B>)
    ensures Messages(sent + [s]) == Messages(sent) + [s.message]
  {
  }

  // The first messages held for f have been sent.
  ghost predicate Sending<B>(v: NodeValue<B>, f: Forward, outgoing: seq<Message<B>>, w: NodeValue<B>) {
    && IsSubscriber(v, f) && |outgoing| <= |SubscriberAt(v, f).queue|
    && w == Forwarded(v, f, |outgoing|)
    && Messages(w.sent) == Messages(v.sent) + outgoing
    && IsSubscriber(w, f)
  }

  lemma SendingNext<B>(v: NodeValue<B>, f: Forward, outgoing: seq<Message<B>>, w: NodeValue<B>, m: Message<B>)
    requires Sending(v, f, outgoing, w) && |outgoing| < |SubscriberAt(v, f).queue|
    requires m == Message(v.publishers[f.topic].channel, SubscriberAt(v, f).queue[|outgoing|].body)
    ensures Sending(v, f, outgoing + [m], TakenAt(w, f).(sent := w.sent + [Sent(f, m)]))
  {
    ForwardedNext(v, f, |outgoing|);
    MessagesSnoc(w.sent, Sent(f, m));
  }

  // The first k networked subscribers have been drained.
  ghost predicate SendingAll<B>(v: NodeValue<B>, k: nat, outgoing: seq<Message<B>>, w: NodeValue<B>) {
    && TablesOk(v) && k <= |v.networkSubs| && w.networkSubs == v.networkSubs
    && w == ForwardedAll(v, v.networkSubs[..k])
    && Messages(w.sent) == Messages(v.sent) + outgoing
  }

  lemma ForwardedAllNext<B>(v: NodeValue<B>, k: nat)
    requires TablesOk(v) && k < |v.networkSubs|
    ensures var w, f := ForwardedAll(v, v.networkSubs[..k]), v.networkSubs[k];
            && IsSubscriber(w, f)
            && ForwardedAll(v, v.networkSubs[..k + 1]) == Forwarded(w, f, |SubscriberAt(w, f).queue|)
  {
    assert v.networkSubs[..k + 1][..k] == v.networkSubs[..k];
    assert v.networkSubs[k] in v.networkSubs;
  }

  // What is still held after the first k messages have been sent.
  lemma ForwardedLeft<B>(v: NodeValue<B>, f: Forward, k: nat)
    requires IsSubscriber(v, f) && k <= |SubscriberAt(v, f).queue|
    ensures IsSubscriber(Forwarded(v, f, k), f)
    ensures SubscriberAt(Forwarded(v, f, k), f).queue == SubscriberAt(v, f).queue[k..]
  {
  }

  lemma TakenOne<B>(s: Subscriber<B>)
    requires s.queue != []
    ensures Taken(s, 1) == s.(queue := s.queue[1..], log := s.log.(taken := s.log.taken + [s.queue[0].body]))
  {
    assert Bodies(s.queue[..1]) == [s.queue[0].body];
  }

  lemma ForwardedNone<B>(v: NodeValue<B>, f: Forward)
    requires IsSubscriber(v, f)
    ensures Forwarded(v, f, 0) == v
  {
    var s, p := SubscriberAt(v, f), v.publishers[f.topic];
    assert Taken(s, 0) == s;
    assert p.subscribers[f.index := s] == p.subscribers;
    assert v.publishers[f.topic := p] == v.publishers;
    assert v.sent + Stamped(f, p.channel, s.queue[..0]) == v.sent;
  }

  lemma TakenNext<B>(s: Subscriber<B>, k: nat)
    requires k < |s.queue|
    ensures Taken(Taken(s, k), 1) == Taken(s, k + 1)
  {
    assert s.queue[..k + 1] == s.queue[..k] + s.queue[k..][..1];
    assert Bodies(s.queue[..k + 1]) == Bodies(s.queue[..k]) + Bodies(s.queue[k..][..1]);
  }

  lemma ForwardedNext<B>(v: NodeValue<B>, f: Forward, k: nat)
    requires IsSubscriber(v, f) && k < |SubscriberAt(v, f).queue|
    ensures var w, channel := Forwarded(v, f, k), v.publishers[f.topic].channel;
            && IsSubscriber(w, f) && SubscriberAt(w, f).queue == SubscriberAt(v, f).queue[k..]
            && TakenAt(w, f).(sent := w.sent + [Sent(f, Message(channel, SubscriberAt(v, f).queue[k].body))]) == Forwarded(v, f, k + 1)
  {
    var s, p := SubscriberAt(v, f), v.publishers[f.topic];
    TakenNext(s, k);
    assert Stamped(f, p.channel, s.queue[..k + 1]) == Stamped(f, p.channel, s.queue[..k]) + [Sent(f, Message(p.channel, s.queue[k].body))];
    assert p.subscribers[f.index := Taken(s, k)][f.index := Taken(s, k + 1)] == p.subscribers[f.index := Taken(s, k + 1)];
  }
}
