/** The handler of a trajectory message: regroup, then issue timepoint by timepoint. */
module TrajectoryCommands {
  import opened Regrouping
  import opened Schedules
  import opened Trajectories

  // The arrays handed to the motion service at one timepoint.
  datatype Angles<V> = Angles(names: seq<uint8>, values: seq<V>)

  // The arrays start with these commands, and are as long as the timepoint's count.
  ghost predicate Issues<V>(angles: Angles<V>, list: seq<Command<V>>, issued: seq<Command<V>>) {
    |angles.names| == |list| && Holds(angles.names, angles.values, issued)
  }

  // The first j groups have had their turn.
  ghost predicate Stepped<V>(groups: seq<ActCmds<V>>, groups': seq<ActCmds<V>>, i: nat, j: nat) {
    |groups'| == j <= |groups| && forall k :: 0 <= k < j ==> groups'[k] == After(groups[k], i)
  }

  lemma GroupsNext<V>(start: seq<ActCmds<V>>, groups: seq<ActCmds<V>>, groups': seq<ActCmds<V>>, i: nat)
    requires groups == GroupsAt(start, i) && Stepped(groups, groups', i, |groups|)
    ensures groups' == GroupsAt(start, i + 1) && IssuedAt(start, i) == Issued(groups, i, |groups|)
  {
    assert groups' == AllAfter(groups, i);
  }

  // One group: its next command, if it is due.
  method IssueGroup<V>(groups: seq<ActCmds<V>>, i: nat, j: nat, names: array<uint8>, values: array<V>, p: nat)
      returns (act: ActCmds<V>, p': nat)
    requires j < |groups| && groups[j].idx as int <= |groups[j].cmds|
    requires (names as object) != values && |Issued(groups, i, j + 1)| <= names.Length == values.Length
    requires p == |Issued(groups, i, j)| && Holds(names[..], values[..], Issued(groups, i, j))
    modifies names, values
    ensures act == After(groups[j], i)
    ensures p' == |Issued(groups, i, j + 1)| && Holds(names[..], values[..], Issued(groups, i, j + 1))
  {
    act, p' := groups[j], p;
    if act.idx as int == |act.cmds| {
      return;
    }
    var cmd := act.cmds[act.idx];
    if cmd.timepoint == i {
      names[p] := act.act;
      values[p] := cmd.value;
      p' := p + 1;
      act := act.(idx := (act.idx + 1) % 256);
    }
  }

  // No index has passed its end, and the arrays have room for what the groups issue.
  ghost predicate Roomy<V>(groups: seq<ActCmds<V>>, i: nat, count: nat) {
    forall j: nat :: j < |groups| ==> GroupRoomy(groups, i, count, j)
  }

  ghost predicate GroupRoomy<V>(groups: seq<ActCmds<V>>, i: nat, count: nat, j: nat)
    requires j < |groups|
  {
    groups[j].idx as int <= |groups[j].cmds| && |Issued(groups, i, j + 1)| <= count
  }

  /** One timepoint: every group in turn, the commands that are due into the arrays. */
  method IssueTimepoint<V(0)>(groups: seq<ActCmds<V>>, i: nat, count: uint8) returns (angles: Angles<V>, groups': seq<ActCmds<V>>)
    requires Roomy(groups, i, count)
    ensures |angles.names| == count && Holds(angles.names, angles.values, Issued(groups, i, |groups|))
    ensures Stepped(groups, groups', i, |groups|)
  {
    var names, values := new uint8[count], new V[count];
    var p: nat := 0;
    groups' := [];
    for j := 0 to |groups|
      invariant Stepped(groups, groups', i, j)
      invariant p == |Issued(groups, i, j)| && Holds(names[..], values[..], Issued(groups, i, j))
    {
      assert GroupRoomy(groups, i, count, j);
      var act;
      act, p := IssueGroup(groups, i, j, names, values, p);
      groups' := groups' + [act];
    }
    angles := Angles(names[..], values[..]);
  }

  // The index never passes the end.
  lemma {:induction false} IdxFits<V>(cmds: seq<ActCmd<V>>, i: nat)
    ensures IdxAt(cmds, i) <= |cmds|
  {
    if i > 0 {
      IdxFits(cmds, i - 1);
    }
  }

  lemma AlwaysRoomy<V>(lists: seq<seq<Command<V>>>, start: seq<ActCmds<V>>, i: nat)
    requires Grouped(start, TimedAll(lists, |lists|)) && i < |lists|
    ensures Roomy(GroupsAt(start, i), i, |lists[i]|)
  {
    forall j: nat | j < |start|
      ensures GroupRoomy(GroupsAt(start, i), i, |lists[i]|, j)
    {
      GroupAt(start, i, j);
      IdxFits(start[j].cmds, i);
      IssuedFits(lists, start, i, j + 1);
    }
  }

  /** What is issued at each timepoint, for a message that carries these lists. */
  method TrajectoryCmd<V(0)>(msg: TrajectoryMsg<V>, ghost lists: seq<seq<Command<V>>>)
      returns (issued: seq<Angles<V>>, ghost start: seq<ActCmds<V>>)
    requires Carries(msg, lists)
    ensures Grouped(start, TimedAll(lists, |lists|)) && |issued| == |lists|
    ensures forall i: nat :: i < |lists| ==> Issues(issued[i], lists[i], IssuedAt(start, i))
  {
    var groups := Group(msg, lists);
    start := groups;
    issued := [];
    for i := 0 to |msg.timestamps|
      invariant |issued| == i && groups == GroupsAt(start, i)
      invariant forall k: nat :: k < i ==> Issues(issued[k], lists[k], IssuedAt(start, k))
    {
      AlwaysRoomy(lists, start, i);
      var angles, next := IssueTimepoint(groups, i, msg.numValues[i]);
      GroupsNext(start, groups, next, i);
      groups := next;
      issued := issued + [angles];
    }
  }
}
