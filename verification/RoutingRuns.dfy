/** Whole runs of two nodes joined by a reliable ordered link in each direction. */
module RoutingRuns {
  import opened Routing

  // links[n] holds what node n has sent and the other node has not received yet.
  datatype System<B> = System(nodes: seq<NodeValue<B>>, links: seq<seq<Message<B>>>)

  datatype Call<B> =
    | Advertise(topic: Topic)
    | Subscribe(topic: Topic)
    | NetworkAdvertise(topic: Topic)
    | Publish(topic: Topic, message: Message<B>)
    | Take(subscriber: Forward)

  // ----- Steps

  ghost predicate Enabled<B>(v: NodeValue<B>, names: map<Topic, nat>, call: Call<B>) {
    match call
    case Publish(topic, _) => topic in v.publishers
    case Take(f) => IsSubscriber(v, f) && !SubscriberAt(v, f).networked
    case _ => call.topic in names
  }

  ghost function Called<B>(v: NodeValue<B>, names: map<Topic, nat>, call: Call<B>): NodeValue<B>
    requires Enabled(v, names, call)
  {
    match call
    case Advertise(topic) => Registered(v, topic, names[topic])
    case Subscribe(topic) => Subscribed(Registered(v, topic, names[topic]), topic, false)
    case NetworkAdvertise(topic) => Subscribed(Registered(v, topic, names[topic]), topic, true)
    case Publish(topic, m) => PublishedAt(v, topic, m)
    case Take(f) => TakenAt(v, f)
  }

  ghost predicate CallStep<B>(names: map<Topic, nat>, s: System<B>, t: System<B>, n: nat, call: Call<B>) {
    && n < |s.nodes| && Enabled(s.nodes[n], names, call)
    && t == s.(nodes := s.nodes[n := Called(s.nodes[n], names, call)])
  }

  // A network tick that receives the first messages on the link from the other node.
  ghost predicate TickStep<B>(s: System<B>, t: System<B>, n: nat, count: nat) {
    && |s.nodes| == |s.links| == 2 && n < 2 && count <= |s.links[1 - n]|
    && TablesOk(s.nodes[n])
    && var v, w := s.nodes[n], Ticked(s.nodes[n], s.links[1 - n][..count]);
    && |v.sent| <= |w.sent|
    && t.nodes == s.nodes[n := w]
    && t.links == s.links[n := s.links[n] + Messages(w.sent[|v.sent|..])][1 - n := s.links[1 - n][count..]]
  }

  ghost predicate Next<B(!new)>(names: map<Topic, nat>, s: System<B>, t: System<B>) {
    || (exists n: nat, call: Call<B> :: CallStep(names, s, t, n, call))
    || (exists n: nat, count: nat :: TickStep(s, t, n, count))
  }

  ghost predicate IsRun<B(!new)>(names: map<Topic, nat>, run: seq<System<B>>) {
    && run != []
    && run[0] == System(seq(2, _ => NodeValue(map[], map[], [], [], [])), [[], []])
    && forall i, j :: 0 <= i && j == i + 1 && j < |run| ==> Next(names, run[i], run[j])
  }

  // ----- What every run keeps

  // What one node has sent is what the other has received and what is under way.
  ghost predicate LinkOk<B>(s: System<B>, n: nat)
    requires |s.nodes| == |s.links| == 2 && n < 2
  {
    Messages(s.nodes[n].sent) == s.nodes[1 - n].arrived + s.links[n]
  }

  ghost predicate SystemOk<B>(names: map<Topic, nat>, s: System<B>) {
    && |s.nodes| == |s.links| == 2
    && NodeOk(s.nodes[0], names) && NodeOk(s.nodes[1], names)
    && LinkOk(s, 0) && LinkOk(s, 1)
  }

  lemma CalledOk<B>(v: NodeValue<B>, names: map<Topic, nat>, call: Call<B>)
    requires Injective(names) && NodeOk(v, names) && Enabled(v, names, call)
    ensures NodeOk(Called(v, names, call), names)
    ensures Called(v, names, call).sent == v.sent && Called(v, names, call).arrived == v.arrived
  {
    match call
    case Publish(topic, m) => PublishedAtOk(v, names, topic, m);
    case Take(f) => TakenAtOk(v, names, f);
    case Advertise(topic) => RegisteredOk(v, names, topic);
    case Subscribe(topic) =>
      RegisteredOk(v, names, topic);
      SubscribedOk(Registered(v, topic, names[topic]), names, topic, false);
    case NetworkAdvertise(topic) =>
      RegisteredOk(v, names, topic);
      SubscribedOk(Registered(v, topic, names[topic]), names, topic, true);
  }

  lemma CallKeeps<B>(names: map<Topic, nat>, s: System<B>, t: System<B>, n: nat, call: Call<B>)
    requires Injective(names) && SystemOk(names, s) && CallStep(names, s, t, n, call)
    ensures SystemOk(names, t)
  {
    CalledOk(s.nodes[n], names, call);
    assert LinkOk(s, 0) && LinkOk(s, 1);
  }

  lemma MessagesExtend<B>(before: seq<Sent<B>>, after: seq<Sent<B>>)
    requires before <= after
    ensures Messages(after) == Messages(before) + Messages(after[|before|..])
  {
  }

  lemma TickLinks<B>(s: System<B>, t: System<B>, n: nat, count: nat, w: NodeValue<B>)
    requires |s.nodes| == |s.links| == |t.nodes| == |t.links| == 2 && n < 2 && count <= |s.links[1 - n]|
    requires LinkOk(s, 0) && LinkOk(s, 1)
    requires s.nodes[n].sent <= w.sent && w.arrived == s.nodes[n].arrived + s.links[1 - n][..count]
    requires t.nodes[n] == w && t.nodes[1 - n] == s.nodes[1 - n]
    requires t.links[n] == s.links[n] + Messages(w.sent[|s.nodes[n].sent|..]) && t.links[1 - n] == s.links[1 - n][count..]
    ensures LinkOk(t, n) && LinkOk(t, 1 - n)
  {
    assert LinkOk(s, n) && LinkOk(s, 1 - n);
    MessagesExtend(s.nodes[n].sent, w.sent);
    assert s.links[1 - n] == s.links[1 - n][..count] + s.links[1 - n][count..];
  }

  lemma TickKeeps<B>(names: map<Topic, nat>, s: System<B>, t: System<B>, n: nat, count: nat)
    requires SystemOk(names, s) && TickStep(s, t, n, count)
    ensures SystemOk(names, t)
  {
    var incoming := s.links[1 - n][..count];
    var w := Ticked(s.nodes[n], incoming);
    TickedOk(s.nodes[n], names, incoming);
    TickLinks(s, t, n, count, w);
  }

  lemma {:induction false} RunsOk<B(!new)>(names: map<Topic, nat>, run: seq<System<B>>, i: nat)
    requires Injective(names) && IsRun(names, run) && i < |run|
    ensures SystemOk(names, run[i])
  {
    if i > 0 {
      var p := i - 1;
      RunsOk(names, run, p);
      if n: nat, call: Call<B> :| CallStep(names, run[p], run[i], n, call) {
        CallKeeps(names, run[p], run[i], n, call);
      } else {
        var n: nat, count: nat :| TickStep(run[p], run[i], n, count);
        TickKeeps(names, run[p], run[i], n, count);
      }
    }
  }

  /** In every state of every run each node can tick, whatever part of the link it receives. */
  lemma TickIsPossible<B(!new)>(names: map<Topic, nat>, run: seq<System<B>>, i: nat, n: nat, count: nat)
    requires Injective(names) && IsRun(names, run) && i < |run| && n < 2
    requires |run[i].links| == 2 ==> count <= |run[i].links[1 - n]|
    ensures exists t: System<B> :: TickStep(run[i], t, n, count)
  {
    RunsOk(names, run, i);
    var s := run[i];
    var v, incoming := s.nodes[n], s.links[1 - n][..count];
    TablesFromOk(v, names);
    TickedOk(v, names, incoming);
    var w := Ticked(v, incoming);
    var links := s.links[n := s.links[n] + Messages(w.sent[|v.sent|..])][1 - n := s.links[1 - n][count..]];
    assert TickStep(s, System(s.nodes[n := w], links), n, count);
  }

  // ----- The theorems

  ghost function Since<T>(s: seq<T>, k: nat): seq<T> {
    if k <= |s| then s[k..] else []
  }

  ghost function Before<T>(s: seq<T>, k: nat): seq<T> {
    if k <= |s| then s[..k] else s
  }

  /** A networked subscriber is never given anything that was received: what it forwards
      was published at its own node, and is every message published since, once and in
      order, exactly when its queue never overflowed. */
  lemma ForwardsOwnMessages<B(!new)>(names: map<Topic, nat>, run: seq<System<B>>, i: nat, n: nat, f: Forward)
    requires Injective(names) && IsRun(names, run) && i < |run| && n < 2
    requires |run[i].nodes| == 2 && IsNetworked(run[i].nodes[n], f)
    ensures var v := run[i].nodes[n];
            var s := SubscriberAt(v, f);
            && ReceivedBodies(s.log.offered) == []
            && (s.log.overflows == 0
                <==> ForwardedBy(v.sent, f) + Bodies(s.queue) == Since(v.publishers[f.topic].published, s.log.sincePublished))
  {
    RunsOk(names, run, i);
    var v := run[i].nodes[n];
    var s, p := SubscriberAt(v, f), v.publishers[f.topic];
    ListedIffNetworked(v, names, f);
    assert ForwardOk(v, f) && PublisherOk(p, v.arrived);
    SidesAddUp(s.log.offered);
    OnlyPublished(s.log.offered);
  }

  lemma {:induction false} OnlyPublished<B>(items: seq<Item<B>>)
    requires ReceivedBodies(items) == []
    ensures PublishedBodies(items) == ItemBodies(items)
  {
    if items != [] {
      var init, last := items[..|items| - 1], items[|items| - 1];
      assert items == init + [last];
      OnlyPublished(init);
      SnocPublished(init, last);
    }
  }

  lemma {:induction false} ForwardedOnChannel<B>(v: NodeValue<B>, names: map<Topic, nat>, sent: seq<Sent<B>>, topic: Topic)
    requires Injective(names) && topic in names
    requires forall s :: s in sent ==> SentOk(v.networkSubs, names, s)
    ensures OnChannel(Messages(sent), names[topic]) == ForwardedOn(sent, topic)
  {
    if sent != [] {
      var init, last := sent[..|sent| - 1], sent[|sent| - 1];
      assert sent == init + [last] && SentOk(v.networkSubs, names, last);
      assert Messages(sent) == Messages(init) + [last.message];
      ForwardedOnChannel(v, names, init, topic);
      SnocOnChannel(Messages(init), last.message, names[topic]);
    }
  }

  lemma ArrivedPart<B>(sent: seq<Sent<B>>, arrived: seq<Message<B>>, link: seq<Message<B>>, since: nat)
    requires Messages(sent) == arrived + link && since <= |arrived|
    ensures |arrived| <= |sent| && Messages(sent[since..|arrived|]) == arrived[since..]
  {
    assert |Messages(sent)| == |arrived| + |link|;
    forall k | 0 <= k < |arrived| - since
      ensures sent[since..|arrived|][k].message == arrived[since..][k]
    {
      assert Messages(sent)[since + k] == arrived[since + k];
    }
  }

  lemma ReceivesForwarded<B>(names: map<Topic, nat>, v: NodeValue<B>, w: NodeValue<B>, link: seq<Message<B>>, x: Forward)
    requires Injective(names) && SendsOk(v, names) && NodeOk(w, names) && Messages(v.sent) == w.arrived + link
    requires IsSubscriber(w, x) && !SubscriberAt(w, x).networked
    ensures var log := SubscriberAt(w, x).log;
            && log.sinceArrived <= |w.arrived| <= |v.sent|
            && ReceivedBodies(log.offered) == ForwardedOn(v.sent[log.sinceArrived..|w.arrived|], x.topic)
  {
    var since := SubscriberAt(w, x).log.sinceArrived;
    assert PublisherOk(w.publishers[x.topic], w.arrived);
    ArrivedPart(v.sent, w.arrived, link, since);
    ForwardedOnChannel(v, names, v.sent[since..|w.arrived|], x.topic);
  }

  /** What a local subscriber receives from the other node is what that node has forwarded
      on the subscriber's own topic since the subscription and up to what has arrived. */
  lemma ReceivesOwnTopic<B(!new)>(names: map<Topic, nat>, run: seq<System<B>>, i: nat, n: nat, x: Forward)
    requires Injective(names) && IsRun(names, run) && i < |run| && n < 2 && |run[i].nodes| == 2
    requires IsSubscriber(run[i].nodes[1 - n], x) && !SubscriberAt(run[i].nodes[1 - n], x).networked
    ensures var v, w := run[i].nodes[n], run[i].nodes[1 - n];
            var log := SubscriberAt(w, x).log;
            && log.sinceArrived <= |w.arrived| <= |v.sent|
            && ReceivedBodies(log.offered) == ForwardedOn(v.sent[log.sinceArrived..|w.arrived|], x.topic)
  {
    RunsOk(names, run, i);
    assert LinkOk(run[i], n);
    ReceivesForwarded(names, run[i].nodes[n], run[i].nodes[1 - n], run[i].links[n], x);
  }

  lemma {:induction false} OnlyForward<B>(v: NodeValue<B>, names: map<Topic, nat>, sent: seq<Sent<B>>, f: Forward)
    requires forall s :: s in sent ==> SentOk(v.networkSubs, names, s)
    requires forall g :: g in v.networkSubs && g.topic == f.topic ==> g == f
    ensures ForwardedBy(sent, f) == ForwardedOn(sent, f.topic)
  {
    if sent != [] {
      assert SentOk(v.networkSubs, names, sent[|sent| - 1]);
      OnlyForward(v, names, sent[..|sent| - 1], f);
    }
  }

  lemma ArrivedAndUnderWay<B>(
    v: NodeValue<B>, arrived: seq<Message<B>>, link: seq<Message<B>>, names: map<Topic, nat>, f: Forward)
    requires Injective(names) && f.topic in names && SendsOk(v, names)
    requires forall g :: g in v.networkSubs && g.topic == f.topic ==> g == f
    requires Messages(v.sent) == arrived + link
    ensures OnChannel(arrived, names[f.topic]) + OnChannel(link, names[f.topic]) == ForwardedBy(v.sent, f)
  {
    OnChannelConcat(arrived, link, names[f.topic]);
    ForwardedOnChannel(v, names, v.sent, f.topic);
    OnlyForward(v, names, v.sent, f);
  }

  lemma ReceivedLate<B>(w: NodeValue<B>, x: Forward, names: map<Topic, nat>)
    requires NodeOk(w, names) && IsSubscriber(w, x) && !SubscriberAt(w, x).networked && x.topic in names
    ensures var log := SubscriberAt(w, x).log;
            OnChannel(Before(w.arrived, log.sinceArrived), names[x.topic]) + ReceivedBodies(log.offered) == OnChannel(w.arrived, names[x.topic])
  {
    var since := SubscriberAt(w, x).log.sinceArrived;
    assert PublisherOk(w.publishers[x.topic], w.arrived);
    assert w.arrived == w.arrived[..since] + w.arrived[since..];
    OnChannelConcat(w.arrived[..since], w.arrived[since..], names[x.topic]);
  }

  lemma ReceivedAndUnderWay<B>(names: map<Topic, nat>, s: System<B>, n: nat, f: Forward, x: Forward)
    requires Injective(names) && SystemOk(names, s) && n < 2 && f.topic in names
    requires forall g :: g in s.nodes[n].networkSubs && g.topic == f.topic ==> g == f
    requires IsSubscriber(s.nodes[1 - n], x) && !SubscriberAt(s.nodes[1 - n], x).networked && x.topic == f.topic
    ensures var log := SubscriberAt(s.nodes[1 - n], x).log;
            OnChannel(Before(s.nodes[1 - n].arrived, log.sinceArrived), names[f.topic]) + ReceivedBodies(log.offered)
            + OnChannel(s.links[n], names[f.topic]) == ForwardedBy(s.nodes[n].sent, f)
  {
    var w := s.nodes[1 - n];
    assert LinkOk(s, n);
    ReceivedLate(w, x, names);
    ArrivedAndUnderWay(s.nodes[n], w.arrived, s.links[n], names, f);
  }

  /** End to end, for a topic with one networked subscriber at the sending node: what had
      arrived before the subscription, what the subscriber has received, what is under way
      and what waits to be sent are together everything published, once and in order,
      exactly when the networked subscriber's queue never overflowed. */
  lemma EndToEnd<B(!new)>(names: map<Topic, nat>, run: seq<System<B>>, i: nat, n: nat, f: Forward, x: Forward)
    requires Injective(names) && IsRun(names, run) && i < |run| && n < 2 && |run[i].nodes| == |run[i].links| == 2
    requires IsNetworked(run[i].nodes[n], f)
    requires forall g: Forward :: IsNetworked(run[i].nodes[n], g) && g.topic == f.topic ==> g == f
    requires IsSubscriber(run[i].nodes[1 - n], x) && !SubscriberAt(run[i].nodes[1 - n], x).networked && x.topic == f.topic
    requires f.topic in names
    ensures var v, w := run[i].nodes[n], run[i].nodes[1 - n];
            var s, channel := SubscriberAt(v, f), names[f.topic];
            var log := SubscriberAt(w, x).log;
            s.log.overflows == 0 <==>
              OnChannel(Before(w.arrived, log.sinceArrived), channel) + ReceivedBodies(log.offered)
              + OnChannel(run[i].links[n], channel) + Bodies(s.queue)
              == Since(v.publishers[f.topic].published, s.log.sincePublished)
  {
    RunsOk(names, run, i);
    forall g | g in run[i].nodes[n].networkSubs && g.topic == f.topic
      ensures g == f
    {
      ListedIffNetworked(run[i].nodes[n], names, g);
    }
    ReceivedAndUnderWay(names, run[i], n, f, x);
    ForwardsOwnMessages(names, run, i, n, f);
  }

  /** In every run, a tick leaves nothing held for a networked subscriber, and puts what was
      held on the link, behind what is under way. */
  lemma TickLeavesNothing<B(!new)>(names: map<Topic, nat>, run: seq<System<B>>, i: nat, n: nat, count: nat, f: Forward)
    requires Injective(names) && IsRun(names, run) && i + 1 < |run| && TickStep(run[i], run[i + 1], n, count)
    requires IsNetworked(run[i].nodes[n], f)
    ensures |run[i + 1].nodes| == |run[i + 1].links| == 2
    ensures IsNetworked(run[i + 1].nodes[n], f) && SubscriberAt(run[i + 1].nodes[n], f).queue == []
    ensures run[i + 1].links[n] == run[i].links[n] + Messages(Flushed(run[i].nodes[n], run[i].nodes[n].networkSubs))
    ensures ForwardedBy(run[i + 1].nodes[n].sent, f) == ForwardedBy(run[i].nodes[n].sent, f) + Bodies(SubscriberAt(run[i].nodes[n], f).queue)
  {
    RunsOk(names, run, i);
    RunsOk(names, run, i + 1);
    var v, incoming := run[i].nodes[n], run[i].links[1 - n][..count];
    var w := Ticked(v, incoming);
    TickedSends(v, names, incoming);
    TickedForwards(v, names, incoming, f);
    TickedNetworked(v, names, incoming, f);
    assert w.sent[|v.sent|..] == Flushed(v, v.networkSubs);
  }

  lemma TickedNetworked<B>(v: NodeValue<B>, names: map<Topic, nat>, incoming: seq<Message<B>>, f: Forward)
    requires NodeOk(v, names) && TablesOk(v) && IsNetworked(v, f)
    ensures IsNetworked(Ticked(v, incoming), f)
  {
    ForwardedAllDrains(v, v.networkSubs);
    DeliveredAllNetworked(ForwardedAll(v, v.networkSubs), incoming, f);
  }

  /** End to end after a tick of the sender: what has arrived and what is under way is
      everything published, exactly when the networked subscriber's queue never overflowed. */
  lemma EndToEndAfterTick<B(!new)>(
    names: map<Topic, nat>, run: seq<System<B>>, i: nat, n: nat, count: nat, f: Forward, x: Forward)
    requires Injective(names) && IsRun(names, run) && i + 1 < |run| && TickStep(run[i], run[i + 1], n, count)
    requires IsNetworked(run[i].nodes[n], f) && f.topic in names && |run[i + 1].nodes| == |run[i + 1].links| == 2
    requires forall g: Forward :: IsNetworked(run[i + 1].nodes[n], g) && g.topic == f.topic ==> g == f
    requires IsSubscriber(run[i + 1].nodes[1 - n], x) && !SubscriberAt(run[i + 1].nodes[1 - n], x).networked && x.topic == f.topic
    ensures IsNetworked(run[i + 1].nodes[n], f)
    ensures var v, w := run[i + 1].nodes[n], run[i + 1].nodes[1 - n];
            var s, channel := SubscriberAt(v, f), names[f.topic];
            var log := SubscriberAt(w, x).log;
            s.log.overflows == 0 <==>
              OnChannel(Before(w.arrived, log.sinceArrived), channel) + ReceivedBodies(log.offered)
              + OnChannel(run[i + 1].links[n], channel)
              == Since(v.publishers[f.topic].published, s.log.sincePublished)
  {
    TickLeavesNothing(names, run, i, n, count, f);
    EndToEnd(names, run, i + 1, n, f, x);
    NothingHeld(SubscriberAt(run[i + 1].nodes[n], f).queue);
  }

  lemma NothingHeld<B>(queue: seq<Message<B>>)
    requires queue == []
    ensures forall xs: seq<B> :: xs + Bodies(queue) == xs
  {
  }

  /** A subscription as networked is forwarded for from then on. */
  lemma NetworkedIsListed<B(!new)>(names: map<Topic, nat>, run: seq<System<B>>, i: nat, n: nat, f: Forward)
    requires Injective(names) && IsRun(names, run) && i < |run| && n < 2 && |run[i].nodes| == 2
    ensures f in run[i].nodes[n].networkSubs <==> IsNetworked(run[i].nodes[n], f)
  {
    RunsOk(names, run, i);
    ListedIffNetworked(run[i].nodes[n], names, f);
  }

  /** A local subscriber reads all it was given, once and in order, exactly when its queue
      never overflowed. */
  lemma ReadsInOrder<B(!new)>(names: map<Topic, nat>, run: seq<System<B>>, i: nat, n: nat, x: Forward)
    requires Injective(names) && IsRun(names, run) && i < |run| && n < 2 && |run[i].nodes| == 2
    requires IsSubscriber(run[i].nodes[n], x)
    ensures var s := SubscriberAt(run[i].nodes[n], x);
            && (s.log.overflows == 0 <==> s.log.taken + Bodies(s.queue) == ItemBodies(s.log.offered))
            && PublishedBodies(s.log.offered) == Since(run[i].nodes[n].publishers[x.topic].published, s.log.sincePublished)
  {
    RunsOk(names, run, i);
    var v := run[i].nodes[n];
    assert PublisherOk(v.publishers[x.topic], v.arrived);
  }
}
