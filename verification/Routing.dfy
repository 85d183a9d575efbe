/** Publishing, subscribing and the network tick: what reaches whom. */
module Routing {
  import opened Queues
  import N = TopicNaming

  type Topic = N.Topic

  const QUEUE_SIZE := 16

  // ----- State.  The ghost fields record history; no operation looks at them.

  datatype Message<B> = Message(channel: nat, body: B)

  // What was pushed into a subscriber's queue, and from which side it came.
  datatype Item<B> = Published(body: B) | Received(body: B)

  // sincePublished and sinceArrived are how much had happened before the subscription.
  datatype Log<B> = Log(sincePublished: nat, sinceArrived: nat, offered: seq<Item<B>>, taken: seq<B>, overflows: nat)

  datatype Subscriber<B> = Subscriber(networked: bool, queue: seq<Message<B>>, ghost log: Log<B>)

  datatype Publisher<B> = Publisher(channel: nat, subscribers: seq<Subscriber<B>>, ghost published: seq<B>)

  // A networked subscriber, by its topic and its place among the topic's subscribers.
  datatype Forward = Forward(topic: Topic, index: nat)

  datatype Sent<B> = Sent(via: Forward, message: Message<B>)

  datatype NodeValue<B> = NodeValue(
    publishers: map<Topic, Publisher<B>>, byChannel: map<nat, Topic>, networkSubs: seq<Forward>,
    ghost sent: seq<Sent<B>>, ghost arrived: seq<Message<B>>)

  // ----- Views of the histories

  ghost function Bodies<B>(ms: seq<Message<B>>): (bodies: seq<B>)
    ensures |bodies| == |ms|
  {
    seq(|ms|, i requires 0 <= i < |ms| => ms[i].body)
  }

  ghost function ItemBodies<B>(items: seq<Item<B>>): (bodies: seq<B>)
    ensures |bodies| == |items|
  {
    seq(|items|, i requires 0 <= i < |items| => items[i].body)
  }

  ghost function PublishedBodies<B>(items: seq<Item<B>>): seq<B> {
    if items == [] then []
    else
      var last := items[|items| - 1];
      PublishedBodies(items[..|items| - 1]) + if last.Published? then [last.body] else []
  }

  ghost function ReceivedBodies<B>(items: seq<Item<B>>): seq<B> {
    if items == [] then []
    else
      var last := items[|items| - 1];
      ReceivedBodies(items[..|items| - 1]) + if last.Received? then [last.body] else []
  }

  ghost function OnChannel<B>(ms: seq<Message<B>>, channel: nat): seq<B> {
    if ms == [] then []
    else
      var last := ms[|ms| - 1];
      OnChannel(ms[..|ms| - 1], channel) + if last.channel == channel then [last.body] else []
  }

  ghost function ForwardedBy<B>(sent: seq<Sent<B>>, f: Forward): seq<B> {
    if sent == [] then []
    else
      var last := sent[|sent| - 1];
      ForwardedBy(sent[..|sent| - 1], f) + if last.via == f then [last.message.body] else []
  }

  ghost function ForwardedOn<B>(sent: seq<Sent<B>>, topic: Topic): seq<B> {
    if sent == [] then []
    else
      var last := sent[|sent| - 1];
      ForwardedOn(sent[..|sent| - 1], topic) + if last.via.topic == topic then [last.message.body] else []
  }

  ghost function Messages<B>(sent: seq<Sent<B>>): (ms: seq<Message<B>>)
    ensures |ms| == |sent|
  {
    seq(|sent|, i requires 0 <= i < |sent| => sent[i].message)
  }

  lemma SnocPublished<B>(items: seq<Item<B>>, item: Item<B>)
    ensures PublishedBodies(items + [item]) == PublishedBodies(items) + if item.Published? then [item.body] else []
    ensures ReceivedBodies(items + [item]) == ReceivedBodies(items) + if item.Received? then [item.body] else []
    ensures ItemBodies(items + [item]) == ItemBodies(items) + [item.body]
  {
    assert (items + [item])[..|items|] == items;
  }

  lemma SnocOnChannel<B>(ms: seq<Message<B>>, m: Message<B>, channel: nat)
    ensures OnChannel(ms + [m], channel) == OnChannel(ms, channel) + if m.channel == channel then [m.body] else []
  {
    assert (ms + [m])[..|ms|] == ms;
  }

  lemma SnocForwarded<B>(sent: seq<Sent<B>>, s: Sent<B>, f: Forward)
    ensures ForwardedBy(sent + [s], f) == ForwardedBy(sent, f) + if s.via == f then [s.message.body] else []
  {
    assert (sent + [s])[..|sent|] == sent;
  }

  lemma {:induction false} SidesAddUp<B>(items: seq<Item<B>>)
    ensures |items| == |PublishedBodies(items)| + |ReceivedBodies(items)|
  {
    if items != [] {
      SidesAddUp(items[..|items| - 1]);
    }
  }

  lemma {:induction false} OnChannelConcat<B>(ms: seq<Message<B>>, rest: seq<Message<B>>, channel: nat)
    ensures OnChannel(ms + rest, channel) == OnChannel(ms, channel) + OnChannel(rest, channel)
  {
    if rest == [] {
      assert ms + rest == ms;
    } else {
      var init, last := rest[..|rest| - 1], rest[|rest| - 1];
      assert ms + rest == (ms + init) + [last] && rest == init + [last];
      OnChannelConcat(ms, init, channel);
      SnocOnChannel(ms + init, last, channel);
      SnocOnChannel(init, last, channel);
    }
  }

  // ----- One subscriber

  ghost function Pushed<B>(s: Subscriber<B>, m: Message<B>, item: Item<B>): Subscriber<B> {
    s.(queue := Put(QUEUE_SIZE, s.queue, m),
       log := s.log.(offered := s.log.offered + [item],
                     overflows := if |s.queue| + 1 == QUEUE_SIZE then s.log.overflows + 1 else s.log.overflows))
  }

  // The first k held messages taken out.
  ghost function Taken<B>(s: Subscriber<B>, k: nat): Subscriber<B>
    requires k <= |s.queue|
  {
    s.(queue := s.queue[k..], log := s.log.(taken := s.log.taken + Bodies(s.queue[..k])))
  }

  /** What was pushed is, from the own side, all that was published on the topic since the
      subscription, and from the other side all that arrived on the channel - or, for a
      networked subscriber, nothing.  What was taken and what is held is what was pushed,
      less a full queue for each overflow. */
  ghost predicate SubscriberOk<B>(s: Subscriber<B>, published: seq<B>, arrived: seq<Message<B>>, channel: nat) {
    && |s.queue| < QUEUE_SIZE
    && s.log.sincePublished <= |published| && s.log.sinceArrived <= |arrived|
    && PublishedBodies(s.log.offered) == published[s.log.sincePublished..]
    && ReceivedBodies(s.log.offered) == (if s.networked then [] else OnChannel(arrived[s.log.sinceArrived..], channel))
    && |s.log.offered| == |s.log.taken| + |s.queue| + QUEUE_SIZE * s.log.overflows
    && (s.log.overflows == 0 ==> ItemBodies(s.log.offered) == s.log.taken + Bodies(s.queue))
  }

  lemma BodiesSnoc<B>(ms: seq<Message<B>>, m: Message<B>)
    ensures Bodies(ms + [m]) == Bodies(ms) + [m.body]
  {
  }

  lemma PushedPublished<B>(s: Subscriber<B>, published: seq<B>, arrived: seq<Message<B>>, channel: nat, m: Message<B>)
    requires SubscriberOk(s, published, arrived, channel)
    ensures SubscriberOk(Pushed(s, m, Published(m.body)), published + [m.body], arrived, channel)
  {
    SnocPublished(s.log.offered, Published(m.body));
    BodiesSnoc(s.queue, m);
    var since := s.log.sincePublished;
    assert (published + [m.body])[since..] == published[since..] + [m.body];
  }

  lemma PushedReceived<B>(s: Subscriber<B>, published: seq<B>, arrived: seq<Message<B>>, m: Message<B>)
    requires SubscriberOk(s, published, arrived, m.channel) && !s.networked
    ensures SubscriberOk(Pushed(s, m, Received(m.body)), published, arrived + [m], m.channel)
  {
    SnocPublished(s.log.offered, Received(m.body));
    BodiesSnoc(s.queue, m);
    var since := s.log.sinceArrived;
    assert (arrived + [m])[since..] == arrived[since..] + [m];
    SnocOnChannel(arrived[since..], m, m.channel);
  }

  lemma NotReceived<B>(s: Subscriber<B>, published: seq<B>, arrived: seq<Message<B>>, channel: nat, m: Message<B>)
    requires SubscriberOk(s, published, arrived, channel) && (s.networked || m.channel != channel)
    ensures SubscriberOk(s, published, arrived + [m], channel)
  {
    var since := s.log.sinceArrived;
    assert (arrived + [m])[since..] == arrived[since..] + [m];
    SnocOnChannel(arrived[since..], m, channel);
  }

  lemma TakenOk<B>(s: Subscriber<B>, published: seq<B>, arrived: seq<Message<B>>, channel: nat, k: nat)
    requires SubscriberOk(s, published, arrived, channel) && k <= |s.queue|
    ensures SubscriberOk(Taken(s, k), published, arrived, channel)
  {
    BodiesSplit(s.queue, k);
    Associate(s.log.taken, Bodies(s.queue[..k]), Bodies(s.queue[k..]));
  }

  lemma BodiesSplit<B>(ms: seq<Message<B>>, k: nat)
    requires k <= |ms|
    ensures Bodies(ms) == Bodies(ms[..k]) + Bodies(ms[k..])
  {
  }

  lemma Associate<T>(a: seq<T>, b: seq<T>, c: seq<T>)
    ensures a + (b + c) == (a + b) + c
  {
  }

  // ----- One publisher

  ghost function PublishedTo<B>(p: Publisher<B>, m: Message<B>): Publisher<B> {
    p.(subscribers := seq(|p.subscribers|, i requires 0 <= i < |p.subscribers| => Pushed(p.subscribers[i], m, Published(m.body))),
       published := p.published + [m.body])
  }

  // A received message goes to the subscribers that are not networked.
  ghost function ReceivedAt<B>(s: Subscriber<B>, m: Message<B>): Subscriber<B> {
    if s.networked then s else Pushed(s, m, Received(m.body))
  }

  ghost function DeliveredTo<B>(p: Publisher<B>, m: Message<B>): Publisher<B> {
    p.(subscribers := seq(|p.subscribers|, i requires 0 <= i < |p.subscribers| => ReceivedAt(p.subscribers[i], m)))
  }

  ghost predicate PublisherOk<B>(p: Publisher<B>, arrived: seq<Message<B>>) {
    forall i: nat :: i < |p.subscribers| ==> SubscriberOk(p.subscribers[i], p.published, arrived, p.channel)
  }

  lemma PublishedToOk<B>(p: Publisher<B>, arrived: seq<Message<B>>, m: Message<B>)
    requires PublisherOk(p, arrived)
    ensures PublisherOk(PublishedTo(p, m), arrived)
  {
    forall i: nat | i < |p.subscribers|
      ensures SubscriberOk(PublishedTo(p, m).subscribers[i], p.published + [m.body], arrived, p.channel)
    {
      PushedPublished(p.subscribers[i], p.published, arrived, p.channel, m);
    }
  }

  lemma DeliveredToOk<B>(p: Publisher<B>, arrived: seq<Message<B>>, m: Message<B>)
    requires PublisherOk(p, arrived) && p.channel == m.channel
    ensures PublisherOk(DeliveredTo(p, m), arrived + [m])
  {
    forall i: nat | i < |p.subscribers|
      ensures SubscriberOk(DeliveredTo(p, m).subscribers[i], p.published, arrived + [m], p.channel)
    {
      if p.subscribers[i].networked {
        NotReceived(p.subscribers[i], p.published, arrived, p.channel, m);
      } else {
        PushedReceived(p.subscribers[i], p.published, arrived, m);
      }
    }
  }

  lemma NotDeliveredOk<B>(p: Publisher<B>, arrived: seq<Message<B>>, m: Message<B>)
    requires PublisherOk(p, arrived) && p.channel != m.channel
    ensures PublisherOk(p, arrived + [m])
  {
    forall i: nat | i < |p.subscribers|
      ensures SubscriberOk(p.subscribers[i], p.published, arrived + [m], p.channel)
    {
      NotReceived(p.subscribers[i], p.published, arrived, p.channel, m);
    }
  }

  // ----- One node

  /** The tables of the node follow the channel ids that the nodes agreed on. */
  ghost predicate Wired<B>(v: NodeValue<B>, names: map<Topic, nat>) {
    && (forall t :: t in v.publishers ==>
      t in names && v.publishers[t].channel == names[t] && names[t] in v.byChannel && v.byChannel[names[t]] == t)
    && (forall c :: c in v.byChannel ==>
      v.byChannel[c] in v.publishers && v.publishers[v.byChannel[c]].channel == c)
  }

  ghost predicate IsSubscriber<B>(v: NodeValue<B>, f: Forward) {
    f.topic in v.publishers && f.index < |v.publishers[f.topic].subscribers|
  }

  ghost function SubscriberAt<B>(v: NodeValue<B>, f: Forward): Subscriber<B>
    requires IsSubscriber(v, f)
  {
    v.publishers[f.topic].subscribers[f.index]
  }

  // What a networked subscriber's queue was taken for is what was sent for it.
  ghost predicate ForwardOk<B>(v: NodeValue<B>, f: Forward) {
    && IsSubscriber(v, f) && SubscriberAt(v, f).networked
    && ForwardedBy(v.sent, f) == SubscriberAt(v, f).log.taken
  }

  ghost predicate SentOk<B>(networkSubs: seq<Forward>, names: map<Topic, nat>, s: Sent<B>) {
    s.via in networkSubs && s.via.topic in names && s.message.channel == names[s.via.topic]
  }

  ghost predicate PublishersOk<B>(v: NodeValue<B>) {
    forall t :: t in v.publishers ==> PublisherOk(v.publishers[t], v.arrived)
  }

  ghost predicate ForwardsOk<B>(v: NodeValue<B>) {
    forall f :: f in v.networkSubs ==> ForwardOk(v, f)
  }

  ghost predicate SendsOk<B>(v: NodeValue<B>, names: map<Topic, nat>) {
    forall s :: s in v.sent ==> SentOk(v.networkSubs, names, s)
  }

  // The list of networked subscribers holds all of them, each once.
  ghost predicate ListedOk<B>(v: NodeValue<B>) {
    && (forall f: Forward :: IsNetworked(v, f) ==> f in v.networkSubs)
    && (forall i, j :: 0 <= i < j < |v.networkSubs| ==> v.networkSubs[i] != v.networkSubs[j])
  }

  ghost predicate IsNetworked<B>(v: NodeValue<B>, f: Forward) {
    IsSubscriber(v, f) && SubscriberAt(v, f).networked
  }

  ghost predicate NodeOk<B>(v: NodeValue<B>, names: map<Topic, nat>) {
    Wired(v, names) && PublishersOk(v) && ForwardsOk(v) && SendsOk(v, names) && ListedOk(v)
  }

  /** Listed for forwarding are exactly the networked subscribers. */
  lemma ListedIffNetworked<B>(v: NodeValue<B>, names: map<Topic, nat>, f: Forward)
    requires NodeOk(v, names)
    ensures f in v.networkSubs <==> IsNetworked(v, f)
  {
    assert f in v.networkSubs ==> ForwardOk(v, f);
  }

  lemma ListedKept<B>(v: NodeValue<B>, r: NodeValue<B>)
    requires ListedOk(v) && r.networkSubs == v.networkSubs && forall f: Forward :: IsNetworked(r, f) ==> IsNetworked(v, f)
    ensures ListedOk(r)
  {
  }

  // ----- What the operations do to a node

  ghost function WithSubscriber<B>(v: NodeValue<B>, f: Forward, s: Subscriber<B>): (r: NodeValue<B>)
    requires IsSubscriber(v, f)
    ensures r.publishers.Keys == v.publishers.Keys
  {
    var p := v.publishers[f.topic];
    v.(publishers := v.publishers[f.topic := p.(subscribers := p.subscribers[f.index := s])])
  }

  ghost function PublishedAt<B>(v: NodeValue<B>, topic: Topic, m: Message<B>): NodeValue<B>
    requires topic in v.publishers
  {
    v.(publishers := v.publishers[topic := PublishedTo(v.publishers[topic], m)])
  }

  ghost function TakenAt<B>(v: NodeValue<B>, f: Forward): NodeValue<B>
    requires IsSubscriber(v, f)
  {
    var s := SubscriberAt(v, f);
    if s.queue == [] then v else WithSubscriber(v, f, Taken(s, 1))
  }

  ghost function Registered<B>(v: NodeValue<B>, topic: Topic, channel: nat): NodeValue<B> {
    if topic in v.publishers then v
    else v.(publishers := v.publishers[topic := Publisher(channel, [], [])],
            byChannel := if channel in v.byChannel then v.byChannel else v.byChannel[channel := topic])
  }

  ghost function NewSubscriber<B>(v: NodeValue<B>, p: Publisher<B>, networked: bool): Subscriber<B> {
    Subscriber(networked, [], Log(|p.published|, |v.arrived|, [], [], 0))
  }

  ghost function Subscribed<B>(v: NodeValue<B>, topic: Topic, networked: bool): NodeValue<B>
    requires topic in v.publishers
  {
    var p := v.publishers[topic];
    v.(publishers := v.publishers[topic := p.(subscribers := p.subscribers + [NewSubscriber(v, p, networked)])],
       networkSubs := if networked then v.networkSubs + [Forward(topic, |p.subscribers|)] else v.networkSubs)
  }

  ghost function Stamped<B>(f: Forward, channel: nat, ms: seq<Message<B>>): (sent: seq<Sent<B>>)
    ensures |sent| == |ms|
  {
    seq(|ms|, i requires 0 <= i < |ms| => Sent(f, Message(channel, ms[i].body)))
  }

  // The first k messages held for a networked subscriber, stamped and sent.
  ghost function Forwarded<B>(v: NodeValue<B>, f: Forward, k: nat): NodeValue<B>
    requires IsSubscriber(v, f) && k <= |SubscriberAt(v, f).queue|
  {
    var s := SubscriberAt(v, f);
    WithSubscriber(v, f, Taken(s, k)).(sent := v.sent + Stamped(f, v.publishers[f.topic].channel, s.queue[..k]))
  }

  // Every networked subscriber of the list in turn, its whole queue.
  ghost function ForwardedAll<B>(v: NodeValue<B>, fs: seq<Forward>): (r: NodeValue<B>)
    requires forall f :: f in fs ==> IsSubscriber(v, f)
    ensures r.publishers.Keys == v.publishers.Keys && r.byChannel == v.byChannel
    ensures forall f :: IsSubscriber(r, f) <==> IsSubscriber(v, f)
  {
    if fs == [] then v
    else
      var w := ForwardedAll(v, fs[..|fs| - 1]);
      var f := fs[|fs| - 1];
      Forwarded(w, f, |SubscriberAt(w, f).queue|)
  }

  ghost function DeliveredAt<B>(v: NodeValue<B>, m: Message<B>): NodeValue<B>
    requires forall c :: c in v.byChannel ==> v.byChannel[c] in v.publishers
  {
    var w := v.(arrived := v.arrived + [m]);
    if m.channel in v.byChannel
    then var t := v.byChannel[m.channel]; w.(publishers := w.publishers[t := DeliveredTo(w.publishers[t], m)])
    else w
  }

  ghost function DeliveredAll<B>(v: NodeValue<B>, ms: seq<Message<B>>): (r: NodeValue<B>)
    requires forall c :: c in v.byChannel ==> v.byChannel[c] in v.publishers
    ensures r.byChannel == v.byChannel && r.publishers.Keys == v.publishers.Keys
  {
    if ms == [] then v else DeliveredAt(DeliveredAll(v, ms[..|ms| - 1]), ms[|ms| - 1])
  }

  // Lookups that cannot fail.
  ghost predicate TablesOk<B>(v: NodeValue<B>) {
    && (forall c :: c in v.byChannel ==> v.byChannel[c] in v.publishers)
    && (forall f :: f in v.networkSubs ==> IsSubscriber(v, f))
  }

  ghost function Ticked<B>(v: NodeValue<B>, incoming: seq<Message<B>>): NodeValue<B>
    requires TablesOk(v)
  {
    DeliveredAll(ForwardedAll(v, v.networkSubs), incoming)
  }

  // ----- Every operation keeps the node in order

  ghost predicate SameChannels<B>(v: NodeValue<B>, r: NodeValue<B>) {
    && r.byChannel == v.byChannel && r.publishers.Keys == v.publishers.Keys
    && forall t :: t in v.publishers ==> r.publishers[t].channel == v.publishers[t].channel
  }

  lemma WiredKept<B>(v: NodeValue<B>, r: NodeValue<B>, names: map<Topic, nat>)
    requires Wired(v, names) && SameChannels(v, r)
    ensures Wired(r, names)
  {
  }

  // The subscriber is still there, and no message has been taken from it.
  ghost predicate Untaken<B>(v: NodeValue<B>, r: NodeValue<B>, f: Forward) {
    IsSubscriber(v, f) ==>
      && IsSubscriber(r, f)
      && SubscriberAt(r, f).networked == SubscriberAt(v, f).networked
      && SubscriberAt(r, f).log.taken == SubscriberAt(v, f).log.taken
  }

  lemma ForwardsKept<B>(v: NodeValue<B>, r: NodeValue<B>)
    requires ForwardsOk(v) && r.networkSubs == v.networkSubs && r.sent == v.sent
    requires forall f :: f in v.networkSubs ==> Untaken(v, r, f)
    ensures ForwardsOk(r)
  {
    forall f | f in r.networkSubs
      ensures ForwardOk(r, f)
    {
      assert ForwardOk(v, f) && Untaken(v, r, f);
    }
  }

  lemma PublishedAtOk<B>(v: NodeValue<B>, names: map<Topic, nat>, topic: Topic, m: Message<B>)
    requires NodeOk(v, names) && topic in v.publishers
    ensures NodeOk(PublishedAt(v, topic, m), names)
  {
    var r := PublishedAt(v, topic, m);
    PublishedToOk(v.publishers[topic], v.arrived, m);
    WiredKept(v, r, names);
    PublishedForwards(v, topic, m);
  }

  lemma PublishedForwards<B>(v: NodeValue<B>, topic: Topic, m: Message<B>)
    requires ForwardsOk(v) && ListedOk(v) && topic in v.publishers
    ensures ForwardsOk(PublishedAt(v, topic, m)) && ListedOk(PublishedAt(v, topic, m))
  {
    ForwardsKept(v, PublishedAt(v, topic, m));
    ListedKept(v, PublishedAt(v, topic, m));
  }

  // Exchanging one subscriber keeps the publishers in order.
  lemma WithSubscriberPublishers<B>(v: NodeValue<B>, f: Forward, s: Subscriber<B>)
    requires PublishersOk(v) && IsSubscriber(v, f)
    requires SubscriberOk(s, v.publishers[f.topic].published, v.arrived, v.publishers[f.topic].channel)
    ensures PublishersOk(WithSubscriber(v, f, s)) && SameChannels(v, WithSubscriber(v, f, s))
  {
    assert PublisherOk(v.publishers[f.topic], v.arrived);
  }

  lemma WithSubscriberKinds<B>(v: NodeValue<B>, f: Forward, s: Subscriber<B>)
    requires IsSubscriber(v, f) && s.networked == SubscriberAt(v, f).networked
    ensures forall g: Forward :: IsNetworked(WithSubscriber(v, f, s), g) <==> IsNetworked(v, g)
  {
  }

  lemma OthersUntaken<B>(v: NodeValue<B>, f: Forward, s: Subscriber<B>, g: Forward)
    requires IsSubscriber(v, f) && g != f
    ensures Untaken(v, WithSubscriber(v, f, s), g)
  {
  }

  lemma TakenAtOk<B>(v: NodeValue<B>, names: map<Topic, nat>, f: Forward)
    requires NodeOk(v, names) && IsSubscriber(v, f) && !SubscriberAt(v, f).networked
    ensures NodeOk(TakenAt(v, f), names)
  {
    var s := SubscriberAt(v, f);
    assert PublisherOk(v.publishers[f.topic], v.arrived);
    if s.queue != [] {
      var r := TakenAt(v, f);
      TakenOk(s, v.publishers[f.topic].published, v.arrived, v.publishers[f.topic].channel, 1);
      WithSubscriberPublishers(v, f, Taken(s, 1));
      WiredKept(v, r, names);
      forall g | g in v.networkSubs
        ensures Untaken(v, r, g)
      {
        assert ForwardOk(v, g);
        OthersUntaken(v, f, Taken(s, 1), g);
      }
      ForwardsKept(v, r);
      WithSubscriberKinds(v, f, Taken(s, 1));
      ListedKept(v, r);
    }
  }

  lemma {:induction false} ForwardedStamped<B>(sent: seq<Sent<B>>, f: Forward, channel: nat, ms: seq<Message<B>>, g: Forward)
    ensures ForwardedBy(sent + Stamped(f, channel, ms), g) == ForwardedBy(sent, g) + if g == f then Bodies(ms) else []
  {
    if ms == [] {
      assert sent + Stamped(f, channel, ms) == sent;
    } else {
      var init, last := ms[..|ms| - 1], ms[|ms| - 1];
      var s := Sent(f, Message(channel, last.body));
      assert ms == init + [last];
      assert sent + Stamped(f, channel, ms) == (sent + Stamped(f, channel, init)) + [s];
      ForwardedStamped(sent, f, channel, init, g);
      SnocForwarded(sent + Stamped(f, channel, init), s, g);
      BodiesSnoc(init, last);
    }
  }

  lemma ForwardedSends<B>(v: NodeValue<B>, names: map<Topic, nat>, f: Forward, k: nat)
    requires NodeOk(v, names) && f in v.networkSubs && IsSubscriber(v, f) && k <= |SubscriberAt(v, f).queue|
    ensures SendsOk(Forwarded(v, f, k), names)
  {
    var p, s := v.publishers[f.topic], SubscriberAt(v, f);
    var stamped := Stamped(f, p.channel, s.queue[..k]);
    assert forall t :: t in stamped ==> SentOk(v.networkSubs, names, t);
    assert forall t :: t in v.sent + stamped ==> t in v.sent || t in stamped;
  }

  lemma ForwardedOk<B>(v: NodeValue<B>, names: map<Topic, nat>, f: Forward, k: nat)
    requires NodeOk(v, names) && f in v.networkSubs && IsSubscriber(v, f) && k <= |SubscriberAt(v, f).queue|
    ensures NodeOk(Forwarded(v, f, k), names)
  {
    var s, p := SubscriberAt(v, f), v.publishers[f.topic];
    var r := Forwarded(v, f, k);
    assert PublisherOk(p, v.arrived) && ForwardOk(v, f);
    TakenOk(s, p.published, v.arrived, p.channel, k);
    forall g
      ensures ForwardedBy(r.sent, g) == ForwardedBy(v.sent, g) + if g == f then Bodies(s.queue[..k]) else []
    {
      ForwardedStamped(v.sent, f, p.channel, s.queue[..k], g);
    }
    WithSubscriberPublishers(v, f, Taken(s, k));
    WiredKept(v, r, names);
    ForwardedSends(v, names, f, k);
    WithSubscriberKinds(v, f, Taken(s, k));
    ListedKept(v, r);
    forall g | g in r.networkSubs
      ensures ForwardOk(r, g)
    {
      assert ForwardOk(v, g);
      if g != f {
        OthersUntaken(v, f, Taken(s, k), g);
      }
    }
  }

  lemma {:induction false} ForwardedAllOk<B>(v: NodeValue<B>, names: map<Topic, nat>, fs: seq<Forward>)
    requires NodeOk(v, names) && forall f :: f in fs ==> IsSubscriber(v, f) && f in v.networkSubs
    ensures NodeOk(ForwardedAll(v, fs), names) && ForwardedAll(v, fs).networkSubs == v.networkSubs
  {
    if fs != [] {
      var f := fs[|fs| - 1];
      ForwardedAllOk(v, names, fs[..|fs| - 1]);
      var w := ForwardedAll(v, fs[..|fs| - 1]);
      ForwardedOk(w, names, f, |SubscriberAt(w, f).queue|);
    }
  }

  lemma DeliveredAtOk<B>(v: NodeValue<B>, names: map<Topic, nat>, m: Message<B>)
    requires NodeOk(v, names)
    ensures NodeOk(DeliveredAt(v, m), names)
  {
    var r := DeliveredAt(v, m);
    forall t | t in r.publishers
      ensures PublisherOk(r.publishers[t], r.arrived)
    {
      assert PublisherOk(v.publishers[t], v.arrived);
      if m.channel in v.byChannel && t == v.byChannel[m.channel] {
        DeliveredToOk(v.publishers[t], v.arrived, m);
      } else {
        NotDeliveredOk(v.publishers[t], v.arrived, m);
      }
    }
    WiredKept(v, r, names);
    ForwardsKept(v, r);
    ListedKept(v, r);
  }

  lemma {:induction false} DeliveredAllOk<B>(v: NodeValue<B>, names: map<Topic, nat>, ms: seq<Message<B>>)
    requires NodeOk(v, names)
    ensures NodeOk(DeliveredAll(v, ms), names)
    ensures DeliveredAll(v, ms).arrived == v.arrived + ms && DeliveredAll(v, ms).sent == v.sent
  {
    if ms != [] {
      DeliveredAllOk(v, names, ms[..|ms| - 1]);
      DeliveredAtOk(DeliveredAll(v, ms[..|ms| - 1]), names, ms[|ms| - 1]);
      assert ms == ms[..|ms| - 1] + [ms[|ms| - 1]];
    }
  }

  lemma TablesFromOk<B>(v: NodeValue<B>, names: map<Topic, nat>)
    requires NodeOk(v, names)
    ensures TablesOk(v)
  {
    forall f | f in v.networkSubs
      ensures IsSubscriber(v, f)
    {
      assert ForwardOk(v, f);
    }
  }

  lemma TickedOk<B>(v: NodeValue<B>, names: map<Topic, nat>, incoming: seq<Message<B>>)
    requires NodeOk(v, names) && TablesOk(v)
    ensures NodeOk(Ticked(v, incoming), names)
    ensures Ticked(v, incoming).arrived == v.arrived + incoming && v.sent <= Ticked(v, incoming).sent
  {
    ForwardedAllOk(v, names, v.networkSubs);
    ForwardedAllSends(v, v.networkSubs);
    DeliveredAllOk(ForwardedAll(v, v.networkSubs), names, incoming);
  }

  lemma {:induction false} ForwardedAllSends<B>(v: NodeValue<B>, fs: seq<Forward>)
    requires forall f :: f in fs ==> IsSubscriber(v, f)
    ensures ForwardedAll(v, fs).arrived == v.arrived && v.sent <= ForwardedAll(v, fs).sent
  {
    if fs != [] {
      ForwardedAllSends(v, fs[..|fs| - 1]);
    }
  }

  ghost predicate Injective(names: map<Topic, nat>) {
    forall t, u :: t in names && u in names && names[t] == names[u] ==> t == u
  }

  lemma RegisteredOk<B>(v: NodeValue<B>, names: map<Topic, nat>, topic: Topic)
    requires NodeOk(v, names) && topic in names && Injective(names)
    ensures NodeOk(Registered(v, topic, names[topic]), names)
  {
    var r := Registered(v, topic, names[topic]);
    RegisteredWired(v, names, topic);
    ForwardsKept(v, r);
    ListedKept(v, r);
  }

  lemma RegisteredWired<B>(v: NodeValue<B>, names: map<Topic, nat>, topic: Topic)
    requires Wired(v, names) && topic in names && Injective(names)
    ensures Wired(Registered(v, topic, names[topic]), names)
  {
  }

  lemma {:induction false} NothingForwarded<B>(sent: seq<Sent<B>>, f: Forward)
    requires forall s :: s in sent ==> s.via != f
    ensures ForwardedBy(sent, f) == []
  {
    if sent != [] {
      NothingForwarded(sent[..|sent| - 1], f);
    }
  }

  lemma NewSubscriberOk<B>(v: NodeValue<B>, p: Publisher<B>, networked: bool)
    ensures SubscriberOk(NewSubscriber(v, p, networked), p.published, v.arrived, p.channel)
  {
    assert v.arrived[|v.arrived|..] == [] && p.published[|p.published|..] == [];
  }

  lemma SubscribedOk<B>(v: NodeValue<B>, names: map<Topic, nat>, topic: Topic, networked: bool)
    requires NodeOk(v, names) && topic in v.publishers
    ensures NodeOk(Subscribed(v, topic, networked), names)
  {
    SubscribedPublishers(v, topic, networked);
    WiredKept(v, Subscribed(v, topic, networked), names);
    SubscribedForwards(v, names, topic, networked);
    SubscribedListed(v, names, topic, networked);
  }

  lemma SubscribedPublishers<B>(v: NodeValue<B>, topic: Topic, networked: bool)
    requires PublishersOk(v) && topic in v.publishers
    ensures PublishersOk(Subscribed(v, topic, networked))
  {
    var r, p := Subscribed(v, topic, networked), v.publishers[topic];
    NewSubscriberOk(v, p, networked);
    assert PublisherOk(p, v.arrived);
    forall i: nat | i < |r.publishers[topic].subscribers|
      ensures SubscriberOk(r.publishers[topic].subscribers[i], p.published, v.arrived, p.channel)
    {
      assert i < |p.subscribers| ==> r.publishers[topic].subscribers[i] == p.subscribers[i];
    }
  }

  /** A new networked subscriber is listed. */
  lemma SubscribedListed<B>(v: NodeValue<B>, names: map<Topic, nat>, topic: Topic, networked: bool)
    requires NodeOk(v, names) && topic in v.publishers
    ensures ListedOk(Subscribed(v, topic, networked))
  {
    var r := Subscribed(v, topic, networked);
    var added := Forward(topic, |v.publishers[topic].subscribers|);
    assert added !in v.networkSubs by {
      assert !IsNetworked(v, added);
      ListedIffNetworked(v, names, added);
    }
    forall f: Forward | IsNetworked(r, f)
      ensures f in r.networkSubs
    {
      if f != added {
        assert SubscriberAt(r, f) == SubscriberAt(v, f);
        assert IsNetworked(v, f);
      }
    }
  }

  lemma SubscribedForwards<B>(v: NodeValue<B>, names: map<Topic, nat>, topic: Topic, networked: bool)
    requires ForwardsOk(v) && SendsOk(v, names) && topic in v.publishers
    ensures ForwardsOk(Subscribed(v, topic, networked)) && SendsOk(Subscribed(v, topic, networked), names)
  {
    var r := Subscribed(v, topic, networked);
    var added := Forward(topic, |v.publishers[topic].subscribers|);
    forall s | s in v.sent
      ensures s.via != added && SentOk(r.networkSubs, names, s)
    {
      assert SentOk(v.networkSubs, names, s) && ForwardOk(v, s.via);
    }
    NothingForwarded(v.sent, added);
    forall f | f in r.networkSubs
      ensures ForwardOk(r, f)
    {
      if f in v.networkSubs {
        assert ForwardOk(v, f);
        assert SubscriberAt(r, f) == SubscriberAt(v, f);
      } else {
        assert f == added;
      }
    }
  }

  // ----- What a tick sends

  // Everything held for the listed subscribers, first to last, stamped with their channels.
  ghost function Flushed<B>(v: NodeValue<B>, fs: seq<Forward>): (sent: seq<Sent<B>>)
    requires forall f :: f in fs ==> IsSubscriber(v, f)
  {
    if fs == [] then []
    else
      var f := fs[|fs| - 1];
      assert f in fs && IsSubscriber(v, f);
      Flushed(v, fs[..|fs| - 1]) + Held(v, f)
  }

  ghost function Held<B>(v: NodeValue<B>, f: Forward): (sent: seq<Sent<B>>)
    requires IsSubscriber(v, f)
  {
    Stamped(f, v.publishers[f.topic].channel, SubscriberAt(v, f).queue)
  }

  lemma FlushedSnoc<B>(v: NodeValue<B>, fs: seq<Forward>, g: Forward, sent: seq<Sent<B>>)
    requires (forall f :: f in fs ==> IsSubscriber(v, f)) && IsSubscriber(v, g)
    ensures sent + Flushed(v, fs + [g]) == (sent + Flushed(v, fs)) + Held(v, g)
  {
    assert (fs + [g])[..|fs|] == fs;
  }

  // A node after the subscribers of the list have been drained.
  ghost predicate Drained<B>(v: NodeValue<B>, fs: seq<Forward>, w: NodeValue<B>)
    requires forall f :: f in fs ==> IsSubscriber(v, f)
  {
    && w.sent == v.sent + Flushed(v, fs) && SameChannels(v, w)
    && (forall f: Forward :: IsSubscriber(w, f) <==> IsSubscriber(v, f))
    && (forall f: Forward :: IsSubscriber(v, f) && IsSubscriber(w, f) ==>
         && SubscriberAt(w, f).queue == (if f in fs then [] else SubscriberAt(v, f).queue)
         && SubscriberAt(w, f).networked == SubscriberAt(v, f).networked)
  }

  // Draining one subscriber.
  lemma ForwardedWhole<B>(w: NodeValue<B>, f: Forward)
    requires IsSubscriber(w, f)
    ensures var r := Forwarded(w, f, |SubscriberAt(w, f).queue|);
            && r.sent == w.sent + Held(w, f) && SameChannels(w, r) && IsSubscriber(r, f)
            && SubscriberAt(r, f).queue == [] && SubscriberAt(r, f).networked == SubscriberAt(w, f).networked
            && forall g: Forward :: g != f ==>
                 (IsSubscriber(r, g) <==> IsSubscriber(w, g)) && (IsSubscriber(w, g) ==> SubscriberAt(r, g) == SubscriberAt(w, g))
  {
    var s := SubscriberAt(w, f);
    assert s.queue[..|s.queue|] == s.queue && s.queue[|s.queue|..] == [];
  }

  lemma DrainedNext<B>(v: NodeValue<B>, fs: seq<Forward>, w: NodeValue<B>, f: Forward)
    requires (forall g :: g in fs ==> IsSubscriber(v, g)) && Drained(v, fs, w) && IsSubscriber(v, f) && f !in fs
    ensures IsSubscriber(w, f) && Drained(v, fs + [f], Forwarded(w, f, |SubscriberAt(w, f).queue|))
  {
    var r := Forwarded(w, f, |SubscriberAt(w, f).queue|);
    ForwardedWhole(w, f);
    FlushedSnoc(v, fs, f, v.sent);
    assert Held(w, f) == Held(v, f);
    DrainedSubscribers(v, fs, w, f, r);
  }

  lemma DrainedSubscribers<B>(v: NodeValue<B>, fs: seq<Forward>, w: NodeValue<B>, f: Forward, r: NodeValue<B>)
    requires (forall g :: g in fs ==> IsSubscriber(v, g)) && Drained(v, fs, w) && IsSubscriber(v, f) && IsSubscriber(r, f)
    requires SubscriberAt(r, f).queue == [] && SubscriberAt(r, f).networked == SubscriberAt(v, f).networked
    requires forall g: Forward :: g != f ==>
               (IsSubscriber(r, g) <==> IsSubscriber(w, g)) && (IsSubscriber(w, g) ==> SubscriberAt(r, g) == SubscriberAt(w, g))
    ensures forall g: Forward :: IsSubscriber(r, g) <==> IsSubscriber(v, g)
    ensures forall g: Forward :: IsSubscriber(v, g) && IsSubscriber(r, g) ==>
              && SubscriberAt(r, g).queue == (if g in fs + [f] then [] else SubscriberAt(v, g).queue)
              && SubscriberAt(r, g).networked == SubscriberAt(v, g).networked
  {
  }

  lemma {:induction false} ForwardedAllDrains<B>(v: NodeValue<B>, fs: seq<Forward>)
    requires forall f :: f in fs ==> IsSubscriber(v, f)
    requires forall i, j :: 0 <= i < j < |fs| ==> fs[i] != fs[j]
    ensures Drained(v, fs, ForwardedAll(v, fs))
    decreases |fs|
  {
    if fs != [] {
      var init, f := fs[..|fs| - 1], fs[|fs| - 1];
      ForwardedAllDrains(v, init);
      assert fs == init + [f];
      DrainedNext(v, init, ForwardedAll(v, init), f);
    }
  }

  // What arrives is not for the networked subscribers.
  lemma {:induction false} DeliveredAllNetworked<B>(v: NodeValue<B>, ms: seq<Message<B>>, f: Forward)
    requires (forall c :: c in v.byChannel ==> v.byChannel[c] in v.publishers) && IsNetworked(v, f)
    ensures IsSubscriber(DeliveredAll(v, ms), f) && SubscriberAt(DeliveredAll(v, ms), f) == SubscriberAt(v, f)
    ensures DeliveredAll(v, ms).sent == v.sent
    decreases |ms|
  {
    if ms != [] {
      DeliveredAllNetworked(v, ms[..|ms| - 1], f);
    }
  }

  lemma {:induction false} DeliveredAllSent<B>(v: NodeValue<B>, ms: seq<Message<B>>)
    requires forall c :: c in v.byChannel ==> v.byChannel[c] in v.publishers
    ensures DeliveredAll(v, ms).sent == v.sent
    decreases |ms|
  {
    if ms != [] {
      DeliveredAllSent(v, ms[..|ms| - 1]);
    }
  }

  /** A tick sends everything that is held for networked subscribers, in the order of the
      list and of each queue, stamped with the channel of the topic, and leaves their queues
      empty. */
  lemma TickedSends<B>(v: NodeValue<B>, names: map<Topic, nat>, incoming: seq<Message<B>>)
    requires NodeOk(v, names) && TablesOk(v)
    ensures Ticked(v, incoming).sent == v.sent + Flushed(v, v.networkSubs)
    ensures forall f: Forward :: IsNetworked(v, f) ==>
              IsSubscriber(Ticked(v, incoming), f) && SubscriberAt(Ticked(v, incoming), f).queue == []
  {
    ForwardedAllDrains(v, v.networkSubs);
    var w := ForwardedAll(v, v.networkSubs);
    DeliveredAllSent(w, incoming);
    forall f: Forward | IsNetworked(v, f)
      ensures IsSubscriber(Ticked(v, incoming), f) && SubscriberAt(Ticked(v, incoming), f).queue == []
    {
      DeliveredAllNetworked(w, incoming, f);
    }
  }

  lemma {:induction false} FlushedFor<B>(v: NodeValue<B>, fs: seq<Forward>, sent: seq<Sent<B>>, f: Forward)
    requires IsSubscriber(v, f) && forall g :: g in fs ==> IsSubscriber(v, g)
    requires forall i, j :: 0 <= i < j < |fs| ==> fs[i] != fs[j]
    ensures ForwardedBy(sent + Flushed(v, fs), f) == ForwardedBy(sent, f) + if f in fs then Bodies(SubscriberAt(v, f).queue) else []
    decreases |fs|
  {
    if fs == [] {
      assert sent + Flushed(v, fs) == sent;
    } else {
      var init, g := fs[..|fs| - 1], fs[|fs| - 1];
      assert fs == init + [g] && g !in init;
      FlushedFor(v, init, sent, f);
      FlushedSnoc(v, init, g, sent);
      ForwardedStamped(sent + Flushed(v, init), g, v.publishers[g.topic].channel, SubscriberAt(v, g).queue, f);
    }
  }

  /** So what a tick adds to the messages forwarded for a networked subscriber is exactly
      what its queue held. */
  lemma TickedForwards<B>(v: NodeValue<B>, names: map<Topic, nat>, incoming: seq<Message<B>>, f: Forward)
    requires NodeOk(v, names) && TablesOk(v) && IsNetworked(v, f)
    ensures ForwardedBy(Ticked(v, incoming).sent, f) == ForwardedBy(v.sent, f) + Bodies(SubscriberAt(v, f).queue)
  {
    TickedSends(v, names, incoming);
    FlushedFor(v, v.networkSubs, v.sent, f);
  }

  // ----- What publishing, subscribing and delivering do

  // As it was, with the message put into the queue.
  ghost predicate Got<B>(s: Subscriber<B>, m: Message<B>, r: Subscriber<B>) {
    && r.queue == (if |s.queue| == 15 then [] else s.queue + [m]) && r.networked == s.networked
    && r.log.taken == s.log.taken
  }

  /** Publishing gives the message to every subscriber of the topic, networked or not, and
      changes nothing else. */
  lemma PublishedAtPublishes<B>(v: NodeValue<B>, topic: Topic, m: Message<B>)
    requires topic in v.publishers
    ensures var r := PublishedAt(v, topic, m);
            && topic in r.publishers && r.publishers.Keys == v.publishers.Keys
            && r.publishers[topic].published == v.publishers[topic].published + [m.body]
            && r.publishers[topic].channel == v.publishers[topic].channel
            && |r.publishers[topic].subscribers| == |v.publishers[topic].subscribers|
            && (forall i: nat :: i < |v.publishers[topic].subscribers| ==>
                 Got(v.publishers[topic].subscribers[i], m, r.publishers[topic].subscribers[i]))
            && (forall t :: t in v.publishers && t != topic ==> r.publishers[t] == v.publishers[t])
            && r.networkSubs == v.networkSubs && r.byChannel == v.byChannel && r.sent == v.sent && r.arrived == v.arrived
  {
  }

  /** Subscribing adds one subscriber at the end of the topic's, with nothing in its queue,
      and lists it if it is networked; nothing else changes. */
  lemma SubscribedAdds<B>(v: NodeValue<B>, topic: Topic, networked: bool)
    requires topic in v.publishers
    ensures var r, f := Subscribed(v, topic, networked), Forward(topic, |v.publishers[topic].subscribers|);
            && IsSubscriber(r, f) && SubscriberAt(r, f).queue == [] && SubscriberAt(r, f).networked == networked
            && |r.publishers[topic].subscribers| == |v.publishers[topic].subscribers| + 1
            && (forall g: Forward :: IsSubscriber(v, g) ==> IsSubscriber(r, g) && SubscriberAt(r, g) == SubscriberAt(v, g))
            && r.networkSubs == (if networked then v.networkSubs + [f] else v.networkSubs)
            && r.publishers.Keys == v.publishers.Keys && r.byChannel == v.byChannel && r.sent == v.sent && r.arrived == v.arrived
  {
  }

  /** A received message is given to the subscribers that are not networked of the topic that
      the node has for its channel, if it has one; nobody else gets it. */
  lemma DeliveredAtDelivers<B>(v: NodeValue<B>, m: Message<B>, f: Forward)
    requires (forall c :: c in v.byChannel ==> v.byChannel[c] in v.publishers) && IsSubscriber(v, f)
    ensures var r := DeliveredAt(v, m);
            && r.arrived == v.arrived + [m] && r.sent == v.sent && r.networkSubs == v.networkSubs && IsSubscriber(r, f)
            && if m.channel in v.byChannel && v.byChannel[m.channel] == f.topic && !SubscriberAt(v, f).networked
               then Got(SubscriberAt(v, f), m, SubscriberAt(r, f))
               else SubscriberAt(r, f) == SubscriberAt(v, f)
  {
  }

  // ----- What taking a message leaves

  /** The next message leaves the queue and is counted as taken; everything else stays. */
  lemma TakenAtTakes<B>(v: NodeValue<B>, f: Forward)
    requires IsSubscriber(v, f) && SubscriberAt(v, f).queue != []
    ensures var r, s := TakenAt(v, f), SubscriberAt(v, f);
            && IsSubscriber(r, f) && SubscriberAt(r, f).queue == s.queue[1..]
            && SubscriberAt(r, f).log.taken == s.log.taken + [s.queue[0].body]
            && SubscriberAt(r, f).log.offered == s.log.offered && SubscriberAt(r, f).networked == s.networked
            && r.networkSubs == v.networkSubs && r.byChannel == v.byChannel && r.sent == v.sent && r.arrived == v.arrived
            && forall g: Forward :: g != f ==>
                 (IsSubscriber(r, g) <==> IsSubscriber(v, g)) && (IsSubscriber(v, g) ==> SubscriberAt(r, g) == SubscriberAt(v, g))
  {
    assert Bodies(SubscriberAt(v, f).queue[..1]) == [SubscriberAt(v, f).queue[0].body];
  }

  /** The sixteenth message held at once makes the queue look empty; fewer are kept. */
  lemma SixteenthLosesAll<B>(s: Subscriber<B>, m: Message<B>, item: Item<B>)
    requires |s.queue| <= 15
    ensures Pushed(s, m, item).queue == if |s.queue| == 15 then [] else s.queue + [m]
  {
  }
}
