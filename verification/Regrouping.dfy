/** The receiver of a trajectory: commands regrouped by actuator, then issued timepoint by
    timepoint. */
module Regrouping {
  import opened Trajectories

  // ----- Groups

  datatype ActCmd<V> = ActCmd(timepoint: nat, value: V)

  // The commands of one actuator and the eight-bit index of the next one.
  datatype ActCmds<V> = ActCmds(act: uint8, idx: uint8, cmds: seq<ActCmd<V>>)

  datatype Timed<V> = Timed(timepoint: nat, command: Command<V>)

  // The first k commands of the n-th list.
  function TimedList<V>(list: seq<Command<V>>, n: nat, k: nat): (timed: seq<Timed<V>>)
    requires k <= |list|
    ensures |timed| == k
  {
    seq(k, i requires 0 <= i < k => Timed(n, list[i]))
  }

  // All commands of the first n lists.
  function TimedAll<V>(lists: seq<seq<Command<V>>>, n: nat): (timed: seq<Timed<V>>)
    requires n <= |lists|
  {
    if n == 0 then [] else TimedAll(lists, n - 1) + TimedList(lists[n - 1], n - 1, |lists[n - 1]|)
  }

  // The commands for one actuator, in order.
  function Of<V>(timed: seq<Timed<V>>, act: uint8): (cmds: seq<ActCmd<V>>) {
    if timed == [] then []
    else
      var last := timed[|timed| - 1];
      Of(timed[..|timed| - 1], act) + if last.command.act == act then [ActCmd(last.timepoint, last.command.value)] else []
  }

  ghost predicate HasGroup<V>(groups: seq<ActCmds<V>>, act: uint8) {
    exists k :: 0 <= k < |groups| && groups[k].act == act
  }

  ghost predicate DistinctGroups<V>(groups: seq<ActCmds<V>>) {
    forall j, k :: 0 <= j < k < |groups| ==> groups[j].act != groups[k].act
  }

  /** Each actuator that occurs has one group, with all its commands in order. */
  ghost predicate Grouped<V>(groups: seq<ActCmds<V>>, timed: seq<Timed<V>>) {
    && DistinctGroups(groups)
    && (forall k :: 0 <= k < |groups| ==> groups[k].idx == 0 && groups[k].cmds == Of(timed, groups[k].act))
    && (forall i :: 0 <= i < |timed| ==> HasGroup(groups, timed[i].command.act))
  }

  lemma OfSnoc<V>(timed: seq<Timed<V>>, t: Timed<V>, act: uint8)
    ensures Of(timed + [t], act) == Of(timed, act) + if t.command.act == act then [ActCmd(t.timepoint, t.command.value)] else []
  {
    assert (timed + [t])[..|timed|] == timed;
  }

  lemma {:induction false} OfNone<V>(timed: seq<Timed<V>>, act: uint8)
    requires forall i :: 0 <= i < |timed| ==> timed[i].command.act != act
    ensures Of(timed, act) == []
  {
    if timed != [] {
      OfNone(timed[..|timed| - 1], act);
    }
  }

  // Groups keep their actuators, so nothing loses its group.
  lemma GroupsKept<V>(groups: seq<ActCmds<V>>, groups': seq<ActCmds<V>>, timed: seq<Timed<V>>, t: Timed<V>)
    requires forall i :: 0 <= i < |timed| ==> HasGroup(groups, timed[i].command.act)
    requires |groups| <= |groups'| && forall k :: 0 <= k < |groups| ==> groups'[k].act == groups[k].act
    requires HasGroup(groups', t.command.act)
    ensures forall i :: 0 <= i < |timed + [t]| ==> HasGroup(groups', (timed + [t])[i].command.act)
  {
    forall i | 0 <= i < |timed|
      ensures HasGroup(groups', timed[i].command.act)
    {
      assert HasGroup(groups, timed[i].command.act);
      var k :| 0 <= k < |groups| && groups[k].act == timed[i].command.act;
      assert groups'[k].act == timed[i].command.act;
    }
  }

  lemma AddedToGroup<V>(groups: seq<ActCmds<V>>, timed: seq<Timed<V>>, t: Timed<V>, k: nat)
    requires Grouped(groups, timed) && k < |groups| && groups[k].act == t.command.act
    ensures Grouped(groups[k := groups[k].(cmds := groups[k].cmds + [ActCmd(t.timepoint, t.command.value)])], timed + [t])
  {
    var groups' := groups[k := groups[k].(cmds := groups[k].cmds + [ActCmd(t.timepoint, t.command.value)])];
    forall j | 0 <= j < |groups'|
      ensures groups'[j].cmds == Of(timed + [t], groups'[j].act)
    {
      OfSnoc(timed, t, groups'[j].act);
    }
    assert groups'[k].act == t.command.act;
    GroupsKept(groups, groups', timed, t);
  }

  lemma AddedGroup<V>(groups: seq<ActCmds<V>>, timed: seq<Timed<V>>, t: Timed<V>)
    requires Grouped(groups, timed) && !HasGroup(groups, t.command.act)
    ensures Grouped(groups + [ActCmds(t.command.act, 0, [ActCmd(t.timepoint, t.command.value)])], timed + [t])
  {
    var groups' := groups + [ActCmds(t.command.act, 0, [ActCmd(t.timepoint, t.command.value)])];
    OfNone(timed, t.command.act);
    forall j | 0 <= j < |groups'|
      ensures groups'[j].cmds == Of(timed + [t], groups'[j].act)
    {
      OfSnoc(timed, t, groups'[j].act);
    }
    assert groups'[|groups|].act == t.command.act;
    GroupsKept(groups, groups', timed, t);
  }

  /** One command added to the group of its actuator, which is made if there is none. */
  method AddCommand<V>(groups: seq<ActCmds<V>>, act: uint8, cmd: ActCmd<V>, ghost timed: seq<Timed<V>>)
      returns (groups': seq<ActCmds<V>>)
    requires Grouped(groups, timed)
    ensures Grouped(groups', timed + [Timed(cmd.timepoint, Command(act, cmd.value))])
  {
    ghost var t := Timed(cmd.timepoint, Command(act, cmd.value));
    for k := 0 to |groups|
      invariant forall j :: 0 <= j < k ==> groups[j].act != act
    {
      if groups[k].act == act {
        AddedToGroup(groups, timed, t, k);
        return groups[k := groups[k].(cmds := groups[k].cmds + [cmd])];
      }
    }
    AddedGroup(groups, timed, t);
    return groups + [ActCmds(act, 0, [cmd])];
  }

  lemma CarriesAt<V>(msg: TrajectoryMsg<V>, lists: seq<seq<Command<V>>>, n: nat, k: nat)
    requires Carries(msg, lists) && n < |lists| && k < |lists[n]|
    ensures var p := |Flat(lists, n)| + k;
            p < |msg.actuators| && p < |msg.values| && Command(msg.actuators[p], msg.values[p]) == lists[n][k]
  {
    FlatAt(lists, |lists|, n, k);
    var p := |Flat(lists, n)| + k;
    assert Acts(Flat(lists, |lists|))[p] == lists[n][k].act && Values(Flat(lists, |lists|))[p] == lists[n][k].value;
  }

  lemma {:induction false} FlatAt<V>(lists: seq<seq<Command<V>>>, m: nat, n: nat, k: nat)
    requires n < m <= |lists| && k < |lists[n]|
    ensures var p := |Flat(lists, n)| + k; p < |Flat(lists, m)| && Flat(lists, m)[p] == lists[n][k]
    decreases m
  {
    if n < m - 1 {
      FlatAt(lists, m - 1, n, k);
    }
  }

  // The commands of one timepoint, added in order.
  method GroupTimepoint<V>(msg: TrajectoryMsg<V>, ghost lists: seq<seq<Command<V>>>, groups: seq<ActCmds<V>>, n: nat, p: nat)
      returns (groups': seq<ActCmds<V>>, p': nat)
    requires Carries(msg, lists) && n < |lists| && p == |Flat(lists, n)|
    requires Grouped(groups, TimedAll(lists, n))
    ensures p' == |Flat(lists, n + 1)| && Grouped(groups', TimedAll(lists, n + 1))
  {
    ghost var all, list := TimedAll(lists, n), lists[n];
    groups' := groups;
    assert all + TimedList(list, n, 0) == all;
    for j := 0 to msg.numValues[n]
      invariant Grouped(groups', all + TimedList(list, n, j))
    {
      CarriesAt(msg, lists, n, j);
      groups' := AddCommand(groups', msg.actuators[p + j], ActCmd(n, msg.values[p + j]), all + TimedList(list, n, j));
      assert all + TimedList(list, n, j) + [Timed(n, list[j])] == all + TimedList(list, n, j + 1);
    }
    p' := p + msg.numValues[n];
  }

  /** All commands of the message, grouped. */
  method Group<V>(msg: TrajectoryMsg<V>, ghost lists: seq<seq<Command<V>>>) returns (groups: seq<ActCmds<V>>)
    requires Carries(msg, lists)
    ensures Grouped(groups, TimedAll(lists, |lists|))
  {
    groups := [];
    var p: nat := 0;
    for n := 0 to |msg.numValues|
      invariant p == |Flat(lists, n)|
      invariant Grouped(groups, TimedAll(lists, n))
    {
      groups, p := GroupTimepoint(msg, lists, groups, n, p);
    }
  }

  // ----- Issuing

  // The command a group issues at a timepoint: the next one, if it is for that timepoint.
  predicate Fires<V>(g: ActCmds<V>, i: nat) {
    g.idx < |g.cmds| && g.cmds[g.idx].timepoint == i
  }

  function After<V>(g: ActCmds<V>, i: nat): (r: ActCmds<V>) {
    if Fires(g, i) then g.(idx := (g.idx + 1) % 256) else g
  }

  // What the first m groups issue at a timepoint.
  function Issued<V>(groups: seq<ActCmds<V>>, i: nat, m: nat): (commands: seq<Command<V>>)
    requires m <= |groups|
    ensures |commands| <= m
  {
    if m == 0 then []
    else
      var g := groups[m - 1];
      Issued(groups, i, m - 1) + if Fires(g, i) then [Command(g.act, g.cmds[g.idx].value)] else []
  }

  function AllAfter<V>(groups: seq<ActCmds<V>>, i: nat): (r: seq<ActCmds<V>>)
    ensures |r| == |groups|
  {
    seq(|groups|, k requires 0 <= k < |groups| => After(groups[k], i))
  }

  // The groups when timepoint i is reached.
  function GroupsAt<V>(groups: seq<ActCmds<V>>, i: nat): (r: seq<ActCmds<V>>)
    ensures |r| == |groups|
  {
    if i == 0 then groups else AllAfter(GroupsAt(groups, i - 1), i - 1)
  }

  function IssuedAt<V>(groups: seq<ActCmds<V>>, i: nat): seq<Command<V>> {
    Issued(GroupsAt(groups, i), i, |groups|)
  }

  // The index of a group with these commands when timepoint i is reached.
  function IdxAt<V>(cmds: seq<ActCmd<V>>, i: nat): (idx: uint8) {
    if i == 0 then 0
    else
      var idx := IdxAt(cmds, i - 1);
      if idx < |cmds| && cmds[idx].timepoint == i - 1 then (idx + 1) % 256 else idx
  }

  lemma {:induction false} GroupAt<V>(groups: seq<ActCmds<V>>, i: nat, k: nat)
    requires k < |groups| && groups[k].idx == 0
    ensures GroupsAt(groups, i)[k] == groups[k].(idx := IdxAt(groups[k].cmds, i))
  {
    if i > 0 {
      GroupAt(groups, i - 1, k);
    }
  }
}
