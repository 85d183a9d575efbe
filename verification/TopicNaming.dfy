/** Channel ids for topics, agreed on by nodes that share a key-value store. */
module TopicNaming {
  import opened Options

  type Topic = string

  const UINT32 := 0x1_0000_0000
  // Scores are read back as signed 32-bit numbers; a larger one ends the program.
  const READABLE := 0x8000_0000

  // ----- The commands of the store, each of them atomic

  // The counter "topic:next_id" and the sorted set "topic:topics".
  datatype Store = Store(counter: nat, topics: map<Topic, nat>) {
    function Incr(): Store {
      Store(counter + 1, topics)
    }

    // The reply to Incr as the caller sees it: cut to 32 bits.
    function Reply(): (id: nat)
    {
      counter % UINT32
    }

    // Adds the topic unless it is there.
    function ZaddNx(topic: Topic, id: nat): Store {
      if topic in topics then this else Store(counter, topics[topic := id])
    }

    function Zscore(topic: Topic): Option<nat> {
      if topic in topics then Some(topics[topic]) else None
    }
  }

  // ----- One node and its call to advertise

  datatype Failure = OtherMessageType | NotAdded | ScoreTooLarge

  // How far a call to advertise has come: the command it issues next.
  datatype Phase =
    | Idle
    | Looking(topic: Topic, messageType: string)
    | Counting(topic: Topic, messageType: string)
    | Adding(topic: Topic, messageType: string, id: nat)
    | Reading(topic: Topic, messageType: string)
    | Failed(failure: Failure)

  datatype Publisher = Publisher(messageType: string, channel: nat)

  datatype NodeValue = NodeValue(phase: Phase, publishers: map<Topic, Publisher>, byChannel: map<nat, Topic>) {
    // The id is known: a publisher is made, and entered by its channel unless that is taken.
    function Register(topic: Topic, messageType: string, id: nat): NodeValue {
      if id >= READABLE then this.(phase := Failed(ScoreTooLarge))
      else NodeValue(Idle, publishers[topic := Publisher(messageType, id)], if id in byChannel then byChannel else byChannel[id := topic])
    }

    function Begin(topic: Topic, messageType: string): NodeValue {
      if topic !in publishers then this.(phase := Looking(topic, messageType))
      else if publishers[topic].messageType == messageType then this
      else this.(phase := Failed(OtherMessageType))
    }
  }

  // The next command of one node.
  function Advance(store: Store, node: NodeValue): (Store, NodeValue) {
    match node.phase
    case Idle => (store, node)
    case Looking(topic, messageType) =>
      (match store.Zscore(topic)
       case Some(id) => (store, node.Register(topic, messageType, id))
       case None => (store, node.(phase := Counting(topic, messageType))))
    case Counting(topic, messageType) =>
      var counted := store.Incr();
      (counted, node.(phase := Adding(topic, messageType, counted.Reply())))
    case Adding(topic, messageType, id) =>
      (store.ZaddNx(topic, id), node.(phase := Reading(topic, messageType)))
    case Reading(topic, messageType) =>
      (match store.Zscore(topic)
       case Some(id) => (store, node.Register(topic, messageType, id))
       case None => (store, node.(phase := Failed(NotAdded))))
    case Failed(_) => (store, node)
  }

  function CommandsLeft(phase: Phase): nat {
    match phase
    case Looking(_, _) => 4
    case Counting(_, _) => 3
    case Adding(_, _, _) => 2
    case Reading(_, _) => 1
    case _ => 0
  }

  // A call that no other node interferes with.
  function Finish(store: Store, node: NodeValue): (r: (Store, NodeValue))
    ensures r.1.phase.Idle? || r.1.phase.Failed?
    decreases CommandsLeft(node.phase)
  {
    if CommandsLeft(node.phase) == 0 then (store, node)
    else
      var (store', node') := Advance(store, node);
      Finish(store', node')
  }

  // ----- Runs: any number of nodes, their commands interleaved in any order

  datatype System = System(store: Store, nodes: seq<NodeValue>)

  ghost predicate Initial(s: System) {
    s.store == Store(0, map[]) && forall n :: 0 <= n < |s.nodes| ==> s.nodes[n] == NodeValue(Idle, map[], map[])
  }

  ghost predicate Begins(s: System, t: System, n: nat, topic: Topic, messageType: string) {
    && n < |s.nodes| && s.nodes[n].phase.Idle?
    && t == System(s.store, s.nodes[n := s.nodes[n].Begin(topic, messageType)])
  }

  ghost predicate Advances(s: System, t: System, n: nat) {
    && n < |s.nodes| && CommandsLeft(s.nodes[n].phase) > 0
    && var (store, node) := Advance(s.store, s.nodes[n]);
    t == System(store, s.nodes[n := node])
  }

  ghost predicate Next(s: System, t: System) {
    || (exists n: nat, topic: Topic, messageType: string :: Begins(s, t, n, topic, messageType))
    || (exists n: nat :: Advances(s, t, n))
  }

  ghost predicate IsRun(run: seq<System>) {
    && run != [] && Initial(run[0])
    && forall i, j :: 0 <= i && j == i + 1 && j < |run| ==> Next(run[i], run[j])
  }

  // ----- What every run keeps

  // One node's tables against the store.
  ghost predicate NodeAgrees(store: Store, node: NodeValue) {
    && (forall t :: t in node.publishers ==>
      && t in store.topics && node.publishers[t].channel == store.topics[t]
      && store.topics[t] < READABLE && store.topics[t] in node.byChannel)
    && (forall c :: c in node.byChannel ==>
      node.byChannel[c] in node.publishers && node.publishers[node.byChannel[c]].channel == c)
    && (CommandsLeft(node.phase) > 0 ==> node.phase.topic !in node.publishers)
    && (node.phase.Reading? ==> node.phase.topic in store.topics)
    && node.phase != Failed(NotAdded)
    && (node.phase == Failed(ScoreTooLarge) ==> exists t :: t in store.topics && store.topics[t] >= READABLE)
  }

  ghost predicate Agree(s: System) {
    forall n :: 0 <= n < |s.nodes| ==> NodeAgrees(s.store, s.nodes[n])
  }

  // Before the counter has passed 2^32, the reply that was cut to this id.
  function Ticket(id: nat): nat {
    if id == 0 then UINT32 else id
  }

  ghost predicate Issued(store: Store, id: nat) {
    id < UINT32 && Ticket(id) <= store.counter
  }

  ghost predicate Pending(s: System, n: nat) {
    n < |s.nodes| && s.nodes[n].phase.Adding?
  }

  // No id has been given out twice.
  ghost predicate Distinct(s: System) {
    && (forall t :: t in s.store.topics ==> Issued(s.store, s.store.topics[t]))
    && (forall n: nat :: Pending(s, n) ==> Issued(s.store, s.nodes[n].phase.id))
    && (forall t, u :: t in s.store.topics && u in s.store.topics && t != u ==> s.store.topics[t] != s.store.topics[u])
    && (forall t, n: nat :: t in s.store.topics && Pending(s, n) ==> s.store.topics[t] != s.nodes[n].phase.id)
    && (forall m: nat, n: nat :: Pending(s, m) && Pending(s, n) && m != n ==> s.nodes[m].phase.id != s.nodes[n].phase.id)
  }

  // The store only grows, and so does every node's table.
  ghost predicate Grows(s: System, t: System) {
    && |s.nodes| == |t.nodes| && s.store.counter <= t.store.counter
    && (forall u :: u in s.store.topics ==> u in t.store.topics && t.store.topics[u] == s.store.topics[u])
    && (forall n, u :: 0 <= n < |s.nodes| && u in s.nodes[n].publishers ==>
      u in t.nodes[n].publishers && t.nodes[n].publishers[u] == s.nodes[n].publishers[u])
    && (forall n, c :: 0 <= n < |s.nodes| && c in s.nodes[n].byChannel ==>
      c in t.nodes[n].byChannel && t.nodes[n].byChannel[c] == s.nodes[n].byChannel[c])
  }

  lemma AdvanceKeepsStore(store: Store, node: NodeValue)
    ensures var (store', _) := Advance(store, node);
            && store.counter <= store'.counter
            && forall u :: u in store.topics ==> u in store'.topics && store'.topics[u] == store.topics[u]
  {
  }

  lemma NodeKeepsAgreeing(store: Store, store': Store, node: NodeValue)
    requires NodeAgrees(store, node)
    requires forall u :: u in store.topics ==> u in store'.topics && store'.topics[u] == store.topics[u]
    ensures NodeAgrees(store', node)
  {
  }

  lemma RegisterAgrees(store: Store, node: NodeValue, topic: Topic, messageType: string)
    requires NodeAgrees(store, node) && topic in store.topics && topic !in node.publishers
    ensures NodeAgrees(store, node.Register(topic, messageType, store.topics[topic]))
  {
  }

  lemma AdvanceAgrees(store: Store, node: NodeValue)
    requires NodeAgrees(store, node)
    ensures var (store', node') := Advance(store, node);
            NodeAgrees(store', node')
  {
    var phase := node.phase;
    if (phase.Looking? || phase.Reading?) && phase.topic in store.topics {
      RegisterAgrees(store, node, phase.topic, phase.messageType);
    }
  }

  lemma AdvanceKeepsPublishers(store: Store, node: NodeValue)
    requires CommandsLeft(node.phase) > 0 ==> node.phase.topic !in node.publishers
    ensures var (_, node') := Advance(store, node);
            && (forall u :: u in node.publishers ==> u in node'.publishers && node'.publishers[u] == node.publishers[u])
            && (forall c :: c in node.byChannel ==> c in node'.byChannel && node'.byChannel[c] == node.byChannel[c])
  {
  }

  lemma BeginAgrees(store: Store, node: NodeValue, topic: Topic, messageType: string)
    requires NodeAgrees(store, node)
    ensures NodeAgrees(store, node.Begin(topic, messageType))
  {
  }

  lemma NextAgrees(s: System, t: System)
    requires Agree(s) && Next(s, t)
    ensures Agree(t)
  {
    if n: nat, topic: Topic, messageType: string :| Begins(s, t, n, topic, messageType) {
      BeginAgrees(s.store, s.nodes[n], topic, messageType);
    } else {
      var n: nat :| Advances(s, t, n);
      AdvanceAgrees(s.store, s.nodes[n]);
      AdvanceKeepsStore(s.store, s.nodes[n]);
      forall m | 0 <= m < |t.nodes| && m != n
        ensures NodeAgrees(t.store, t.nodes[m])
      {
        NodeKeepsAgreeing(s.store, t.store, s.nodes[m]);
      }
    }
  }

  lemma NextGrows(s: System, t: System)
    requires Agree(s) && Next(s, t)
    ensures Grows(s, t)
  {
    if n: nat, topic: Topic, messageType: string :| Begins(s, t, n, topic, messageType) {
    } else {
      var n: nat :| Advances(s, t, n);
      AdvanceKeepsStore(s.store, s.nodes[n]);
      AdvanceKeepsPublishers(s.store, s.nodes[n]);
    }
  }

  // ----- Ids are given out once while the counter has not passed 2^32

  lemma BeginDistinct(s: System, t: System, n: nat, topic: Topic, messageType: string)
    requires Distinct(s) && Begins(s, t, n, topic, messageType)
    ensures Distinct(t)
  {
    assert forall m: nat :: Pending(t, m) <==> Pending(s, m);
  }

  lemma TicketsDiffer(store: Store, id: nat)
    requires Issued(store, id) && store.counter < UINT32
    ensures id != store.Incr().Reply() && Issued(store.Incr(), store.Incr().Reply())
  {
  }

  lemma CountDistinct(s: System, t: System, n: nat)
    requires Distinct(s) && Advances(s, t, n) && s.nodes[n].phase.Counting? && t.store.counter <= UINT32
    ensures Distinct(t)
  {
    var id := t.nodes[n].phase.id;
    assert forall m: nat :: Pending(t, m) <==> m == n || Pending(s, m);
    forall u | u in s.store.topics
      ensures s.store.topics[u] != id
    {
      TicketsDiffer(s.store, s.store.topics[u]);
    }
    forall m: nat | Pending(s, m)
      ensures s.nodes[m].phase.id != id
    {
      TicketsDiffer(s.store, s.nodes[m].phase.id);
    }
  }

  lemma AddDistinct(s: System, t: System, n: nat)
    requires Distinct(s) && Advances(s, t, n) && s.nodes[n].phase.Adding?
    ensures Distinct(t)
  {
    assert Pending(s, n);
    assert forall m: nat :: Pending(t, m) <==> m != n && Pending(s, m);
  }

  lemma ReadDistinct(s: System, t: System, n: nat)
    requires Distinct(s) && Advances(s, t, n) && (s.nodes[n].phase.Looking? || s.nodes[n].phase.Reading?)
    ensures Distinct(t)
  {
    assert forall m: nat :: Pending(t, m) <==> Pending(s, m);
  }

  lemma NextDistinct(s: System, t: System)
    requires Distinct(s) && Next(s, t) && t.store.counter <= UINT32
    ensures Distinct(t)
  {
    if n: nat, topic: Topic, messageType: string :| Begins(s, t, n, topic, messageType) {
      BeginDistinct(s, t, n, topic, messageType);
    } else {
      var n: nat :| Advances(s, t, n);
      if s.nodes[n].phase.Counting? {
        CountDistinct(s, t, n);
      } else if s.nodes[n].phase.Adding? {
        AddDistinct(s, t, n);
      } else {
        ReadDistinct(s, t, n);
      }
    }
  }

  // ----- The theorems, over every run

  /** Every node that holds a topic holds the id the store has for it, every entry of its
      table by channel leads to a topic it holds on that channel, and the check that the
      topic was added never fails. */
  lemma {:induction false} RunsAgree(run: seq<System>, i: nat)
    requires IsRun(run) && i < |run|
    ensures Agree(run[i])
  {
    if i > 0 {
      var p := i - 1;
      RunsAgree(run, p);
      NextAgrees(run[p], run[i]);
    }
  }

  /** Ids never change once set, in the store or in a node, and neither does the topic that a
      node has for a channel. */
  lemma {:induction false} IdsAreStable(run: seq<System>, i: nat, j: nat)
    requires IsRun(run) && i <= j < |run|
    ensures Grows(run[i], run[j])
    decreases j
  {
    if i < j {
      var p := j - 1;
      IdsAreStable(run, i, p);
      RunsAgree(run, p);
      NextGrows(run[p], run[j]);
    }
  }

  lemma {:induction false} RunsDistinct(run: seq<System>, i: nat)
    requires IsRun(run) && i < |run| && run[i].store.counter <= 0x1_0000_0000
    ensures Distinct(run[i])
  {
    if i > 0 {
      var p := i - 1;
      RunsAgree(run, p);
      NextGrows(run[p], run[i]);
      RunsDistinct(run, p);
      NextDistinct(run[p], run[i]);
    }
  }

  // Two nodes that hold topics.
  ghost predicate Hold(s: System, m: nat, t: Topic, n: nat, u: Topic) {
    m < |s.nodes| && n < |s.nodes| && t in s.nodes[m].publishers && u in s.nodes[n].publishers
  }

  function Channel(s: System, m: nat, t: Topic): nat
    requires m < |s.nodes| && t in s.nodes[m].publishers
  {
    s.nodes[m].publishers[t].channel
  }

  ghost predicate NamesClash(s: System) {
    exists m: nat, t: Topic, n: nat, u: Topic :: Hold(s, m, t, n, u) && !(Channel(s, m, t) == Channel(s, n, u) <==> t == u)
  }

  /** Two nodes have the same channel for two topics exactly when the topics are the same. */
  lemma NamesNeverClash(run: seq<System>, i: nat)
    requires IsRun(run) && i < |run| && run[i].store.counter <= 0x1_0000_0000
    ensures !NamesClash(run[i])
  {
    RunsAgree(run, i);
    RunsDistinct(run, i);
    var s := run[i];
    forall m: nat, t: Topic, n: nat, u: Topic | Hold(s, m, t, n, u)
      ensures Channel(s, m, t) == Channel(s, n, u) <==> t == u
    {
      assert NodeAgrees(s.store, s.nodes[m]) && NodeAgrees(s.store, s.nodes[n]);
    }
  }

  /** A node's lookup by channel then inverts its lookup by topic. */
  lemma TablesInvert(run: seq<System>, i: nat, n: nat, topic: Topic)
    requires IsRun(run) && i < |run| && n < |run[i].nodes| && run[i].store.counter <= 0x1_0000_0000
    requires topic in run[i].nodes[n].publishers
    ensures var node := run[i].nodes[n];
            node.publishers[topic].channel in node.byChannel && node.byChannel[node.publishers[topic].channel] == topic
  {
    RunsAgree(run, i);
    RunsDistinct(run, i);
    assert NodeAgrees(run[i].store, run[i].nodes[n]);
  }

  /** While the counter is below 2^31, only a clash of message types ends a call. */
  lemma NoFailureBelowBound(run: seq<System>, i: nat, n: nat)
    requires IsRun(run) && i < |run| && n < |run[i].nodes| && run[i].store.counter < 0x8000_0000
    ensures run[i].nodes[n].phase.Failed? ==> run[i].nodes[n].phase.failure == OtherMessageType
  {
    RunsAgree(run, i);
    RunsDistinct(run, i);
    assert NodeAgrees(run[i].store, run[i].nodes[n]);
  }

  // Once a call is under way the message type is not looked at again.
  lemma NotRefusedLater(store: Store, node: NodeValue)
    requires CommandsLeft(node.phase) > 0
    ensures Advance(store, node).1.phase != Failed(OtherMessageType)
  {
  }

  /** A node that holds a topic refuses another message type for it when the call begins, and
      nothing else; a call for the same type is over at once. */
  lemma RefusedIff(s: System, n: nat, topic: Topic, messageType: string)
    requires n < |s.nodes| && s.nodes[n].phase.Idle?
    ensures var node := s.nodes[n].Begin(topic, messageType);
            && (node.phase == Failed(OtherMessageType)
                <==> topic in s.nodes[n].publishers && s.nodes[n].publishers[topic].messageType != messageType)
            && (topic in s.nodes[n].publishers && s.nodes[n].publishers[topic].messageType == messageType ==> node == s.nodes[n])
            && (topic !in s.nodes[n].publishers ==> node.phase == Looking(topic, messageType))
            && node.publishers == s.nodes[n].publishers && node.byChannel == s.nodes[n].byChannel
  {
  }

  // ----- Calls are wait-free

  // The steps from i to j in which node n itself got on with its call.
  ghost function OwnSteps(run: seq<System>, n: nat, i: nat, j: nat): (count: nat)
    requires i <= j < |run| && forall k: nat :: k < |run| ==> n < |run[k].nodes|
    decreases j
  {
    if i == j then 0
    else OwnSteps(run, n, i, j - 1) + if run[j].nodes[n] != run[j - 1].nodes[n] then 1 else 0
  }

  ghost predicate Busy(run: seq<System>, n: nat, k: nat) {
    k < |run| && n < |run[k].nodes| && CommandsLeft(run[k].nodes[n].phase) > 0
  }

  lemma AdvanceIsWaitFree(store: Store, node: NodeValue)
    requires CommandsLeft(node.phase) > 0
    ensures CommandsLeft(Advance(store, node).1.phase) < CommandsLeft(node.phase) <= 4
  {
  }

  lemma {:induction false} SameNumberOfNodes(run: seq<System>, n: nat, k: nat)
    requires IsRun(run) && k < |run| && n < |run[0].nodes|
    ensures n < |run[k].nodes|
  {
    if k > 0 {
      SameNumberOfNodes(run, n, k - 1);
      assert Next(run[k - 1], run[k]);
    }
  }

  lemma OwnStepCounts(s: System, t: System, n: nat)
    requires Next(s, t) && n < |s.nodes| && CommandsLeft(s.nodes[n].phase) > 0
    ensures n < |t.nodes|
    ensures t.nodes[n] == s.nodes[n] || CommandsLeft(t.nodes[n].phase) < CommandsLeft(s.nodes[n].phase) <= 4
  {
    AdvanceIsWaitFree(s.store, s.nodes[n]);
  }

  ghost predicate CanAdvance(s: System, n: nat) {
    exists t: System :: Advances(s, t, n)
  }

  lemma BusyCanAdvance(s: System, n: nat)
    requires n < |s.nodes| && CommandsLeft(s.nodes[n].phase) > 0
    ensures CanAdvance(s, n)
  {
    var (store, node) := Advance(s.store, s.nodes[n]);
    assert Advances(s, System(store, s.nodes[n := node]), n);
  }

  /** In every run, a call that has not ended yet has used up at most four steps of its own
      node, whatever the others do, and the node can take its next one. */
  lemma {:induction false} CallsAreWaitFree(run: seq<System>, n: nat, i: nat, j: nat)
    requires IsRun(run) && i <= j < |run| && n < |run[0].nodes|
    requires forall k: nat :: i <= k < j ==> Busy(run, n, k)
    ensures forall k: nat :: k < |run| ==> n < |run[k].nodes|
    ensures OwnSteps(run, n, i, j) + CommandsLeft(run[j].nodes[n].phase) <= CommandsLeft(run[i].nodes[n].phase) <= 4
    ensures Busy(run, n, j) ==> CanAdvance(run[j], n)
    decreases j
  {
    forall k: nat | k < |run|
      ensures n < |run[k].nodes|
    {
      SameNumberOfNodes(run, n, k);
    }
    if i < j {
      var p := j - 1;
      CallsAreWaitFree(run, n, i, p);
      assert Busy(run, n, p) && Next(run[p], run[j]);
      OwnStepCounts(run[p], run[j], n);
    }
    if Busy(run, n, j) {
      BusyCanAdvance(run[j], n);
    }
  }

  // ----- The bound on the counter is sharp

  function Name(i: nat): (t: Topic)
    ensures |t| == i
  {
    seq(i, _ => 'a')
  }

  // The topics Name(1), ..., Name(k), added one after the other.
  function Topics(k: nat): (topics: map<Topic, nat>)
    ensures forall t :: t in topics ==> 1 <= |t| <= k
    ensures forall i: nat :: 1 <= i <= k ==> Name(i) in topics && topics[Name(i)] == i % UINT32
  {
    if k == 0 then map[] else Topics(k - 1)[Name(k) := k % UINT32]
  }

  // Of n nodes, the first k have added a topic each.
  function Chain(n: nat, k: nat): System
    requires k <= n
  {
    System(Store(k, Topics(k)), seq(n, i requires 0 <= i => NodeValue(if i < k then Reading(Name(i + 1), "") else Idle, map[], map[])))
  }

  lemma Extend(run: seq<System>, t: System) returns (run': seq<System>)
    requires IsRun(run) && Next(run[|run| - 1], t)
    ensures run' == run + [t] && IsRun(run')
  {
    run' := run + [t];
  }

  lemma ExtendBegin(run: seq<System>, n: nat, topic: Topic) returns (run': seq<System>)
    requires IsRun(run)
    requires var s := run[|run| - 1]; n < |s.nodes| && s.nodes[n].phase.Idle?
    ensures var s := run[|run| - 1];
            IsRun(run') && run'[|run'| - 1] == System(s.store, s.nodes[n := s.nodes[n].Begin(topic, "")])
  {
    var s := run[|run| - 1];
    var t := System(s.store, s.nodes[n := s.nodes[n].Begin(topic, "")]);
    assert Begins(s, t, n, topic, "");
    run' := Extend(run, t);
  }

  lemma ExtendAdvance(run: seq<System>, n: nat) returns (run': seq<System>)
    requires IsRun(run)
    requires var s := run[|run| - 1]; n < |s.nodes| && CommandsLeft(s.nodes[n].phase) > 0
    ensures var s := run[|run| - 1];
            var (store, node) := Advance(s.store, s.nodes[n]);
            IsRun(run') && run'[|run'| - 1] == System(store, s.nodes[n := node])
  {
    var s := run[|run| - 1];
    var (store, node) := Advance(s.store, s.nodes[n]);
    var t := System(store, s.nodes[n := node]);
    assert Advances(s, t, n);
    run' := Extend(run, t);
  }

  lemma ChainStep(n: nat, p: nat)
    requires p < n
    ensures Chain(n, p).nodes[p] == NodeValue(Idle, map[], map[])
    ensures Chain(n, p + 1) == System(Store(p + 1, Topics(p)[Name(p + 1) := (p + 1) % UINT32]),
                                      Chain(n, p).nodes[p := NodeValue(Reading(Name(p + 1), ""), map[], map[])])
  {
  }

  lemma {:induction false} ChainRun(n: nat, k: nat) returns (run: seq<System>)
    requires k <= n
    ensures IsRun(run) && run[|run| - 1] == Chain(n, k)
    decreases k
  {
    if k == 0 {
      run := [Chain(n, 0)];
    } else {
      var p := k - 1;
      run := ChainRun(n, p);
      run := ExtendBegin(run, p, Name(k));
      run := ExtendAdvance(run, p);
      run := ExtendAdvance(run, p);
      run := ExtendAdvance(run, p);
      ChainStep(n, p);
    }
  }

  lemma ClashingRun(n: nat) returns (run: seq<System>)
    requires n > UINT32
    ensures IsRun(run) && EndsInClash(run, n)
  {
    run := ChainRun(n, n);
    run := ExtendAdvance(run, 0);
    run := ExtendAdvance(run, UINT32);
    assert Hold(run[|run| - 1], 0, Name(1), UINT32, Name(UINT32 + 1));
  }

  // The counter stands at n, and two topics have one id or one topic has two.
  ghost predicate EndsInClash(run: seq<System>, n: nat) {
    run != [] && run[|run| - 1].store.counter == n && NamesClash(run[|run| - 1])
  }

  /** Past 2^32 there are runs in which two topics have the same id. */
  lemma NamesClashPastBound(n: nat)
    requires n > 0x1_0000_0000
    ensures exists run: seq<System> :: IsRun(run) && EndsInClash(run, n)
  {
    var run := ClashingRun(n);
  }

  ghost predicate Unreadable(s: System, n: nat) {
    n < |s.nodes| && s.nodes[n].phase == Failed(ScoreTooLarge)
  }

  ghost predicate SomeUnreadable(s: System) {
    exists m: nat :: Unreadable(s, m)
  }

  // The counter stands at n, and a node could not read back an id that is too large.
  ghost predicate EndsUnreadable(run: seq<System>, n: nat) {
    run != [] && run[|run| - 1].store.counter == n && SomeUnreadable(run[|run| - 1])
  }

  lemma ReadTooLarge(store: Store, node: NodeValue)
    requires node.phase.Reading? && node.phase.topic in store.topics && store.topics[node.phase.topic] >= READABLE
    ensures Advance(store, node) == (store, node.(phase := Failed(ScoreTooLarge)))
  {
  }

  lemma ChainNode(n: nat, p: nat)
    requires p < n
    ensures Chain(n, n).nodes[p] == NodeValue(Reading(Name(p + 1), ""), map[], map[])
    ensures Name(p + 1) in Chain(n, n).store.topics && Chain(n, n).store.topics[Name(p + 1)] == (p + 1) % UINT32
  {
  }

  lemma ExtendUnreadable(run: seq<System>, p: nat) returns (run': seq<System>)
    requires IsRun(run)
    requires var s := run[|run| - 1];
             && p < |s.nodes| && s.nodes[p].phase.Reading? && s.nodes[p].phase.topic in s.store.topics
             && s.store.topics[s.nodes[p].phase.topic] >= READABLE
    ensures IsRun(run') && EndsUnreadable(run', run[|run| - 1].store.counter)
  {
    var s := run[|run| - 1];
    ReadTooLarge(s.store, s.nodes[p]);
    run' := ExtendAdvance(run, p);
    assert Unreadable(run'[|run'| - 1], p);
  }

  lemma UnreadableRun(n: nat) returns (run: seq<System>)
    requires n >= READABLE
    ensures IsRun(run) && EndsUnreadable(run, n)
  {
    run := ChainRun(n, n);
    ChainNode(n, READABLE - 1);
    run := ExtendUnreadable(run, READABLE - 1);
  }

  /** From 2^31 on there are runs in which a call fails because its id is too large. */
  lemma FailurePastBound(n: nat)
    requires n >= 0x8000_0000
    ensures exists run: seq<System> :: IsRun(run) && EndsUnreadable(run, n)
  {
    var run := UnreadableRun(n);
  }
}
