/** What a regrouped trajectory issues at each timepoint, against what was scheduled. */
module Schedules {
  import opened Regrouping
  import opened Trajectories

  ghost predicate DistinctActs<V>(list: seq<Command<V>>) {
    forall j, k :: 0 <= j < k < |list| ==> list[j].act != list[k].act
  }

  // ----- The commands of one actuator over time

  // How many commands there are for an actuator before timepoint i.
  function Before<V>(lists: seq<seq<Command<V>>>, act: uint8, i: nat): nat
    requires i <= |lists|
  {
    |Of(TimedAll(lists, i), act)|
  }

  function AllOf<V>(lists: seq<seq<Command<V>>>, act: uint8): seq<ActCmd<V>> {
    Of(TimedAll(lists, |lists|), act)
  }

  lemma {:induction false} OfConcat<V>(a: seq<Timed<V>>, b: seq<Timed<V>>, act: uint8)
    ensures Of(a + b, act) == Of(a, act) + Of(b, act)
  {
    if b == [] {
      assert a + b == a;
    } else {
      var init, last := b[..|b| - 1], b[|b| - 1];
      assert a + b == (a + init) + [last] && b == init + [last];
      OfConcat(a, init, act);
      OfSnoc(a + init, last, act);
      OfSnoc(init, last, act);
    }
  }

  lemma {:induction false} OfPrefix<V>(lists: seq<seq<Command<V>>>, act: uint8, i: nat, n: nat)
    requires i <= n <= |lists|
    ensures Of(TimedAll(lists, i), act) <= Of(TimedAll(lists, n), act)
    decreases n
  {
    if i < n {
      OfPrefix(lists, act, i, n - 1);
      OfConcat(TimedAll(lists, n - 1), TimedList(lists[n - 1], n - 1, |lists[n - 1]|), act);
    }
  }

  // A command of an actuator comes from one of the lists.
  ghost predicate Scheduled<V>(lists: seq<seq<Command<V>>>, act: uint8, cmd: ActCmd<V>) {
    cmd.timepoint < |lists| && Command(act, cmd.value) in lists[cmd.timepoint]
  }

  lemma {:induction false} OfScheduled<V>(timed: seq<Timed<V>>, lists: seq<seq<Command<V>>>, act: uint8, k: nat)
    requires forall t :: t in timed ==> t.timepoint < |lists| && t.command in lists[t.timepoint]
    requires k < |Of(timed, act)|
    ensures Scheduled(lists, act, Of(timed, act)[k])
  {
    var init := timed[..|timed| - 1];
    if k < |Of(init, act)| {
      OfScheduled(init, lists, act, k);
    } else {
      assert timed[|timed| - 1] in timed;
    }
  }

  lemma {:induction false} AllScheduled<V>(lists: seq<seq<Command<V>>>, n: nat)
    requires n <= |lists|
    ensures forall t :: t in TimedAll(lists, n) ==> t.timepoint < n && t.command in lists[t.timepoint]
  {
    if n > 0 {
      AllScheduled(lists, n - 1);
    }
  }

  // Commands counted before timepoint i are for earlier timepoints, later ones are not.
  lemma {:induction false} SplitByTime<V>(lists: seq<seq<Command<V>>>, act: uint8, i: nat, n: nat, k: nat)
    requires i <= n <= |lists| && k < |Of(TimedAll(lists, n), act)|
    ensures Of(TimedAll(lists, n), act)[k].timepoint < i <==> k < Before(lists, act, i)
    decreases n
  {
    OfPrefix(lists, act, i, n);
    if i == n {
      AllScheduled(lists, n);
      OfScheduled(TimedAll(lists, n), lists[..n], act, k);
    } else {
      var list := TimedList(lists[n - 1], n - 1, |lists[n - 1]|);
      OfConcat(TimedAll(lists, n - 1), list, act);
      OfPrefix(lists, act, i, n - 1);
      if k < Before(lists, act, n - 1) {
        SplitByTime(lists, act, i, n - 1, k);
      } else {
        OfAtTime(lists[n - 1], n - 1, |lists[n - 1]|, act, k - Before(lists, act, n - 1));
      }
    }
  }

  lemma {:induction false} OfAtTime<V>(list: seq<Command<V>>, n: nat, m: nat, act: uint8, k: nat)
    requires m <= |list| && k < |Of(TimedList(list, n, m), act)|
    ensures Of(TimedList(list, n, m), act)[k].timepoint == n
  {
    assert TimedList(list, n, m) == TimedList(list, n, m - 1) + [Timed(n, list[m - 1])];
    OfSnoc(TimedList(list, n, m - 1), Timed(n, list[m - 1]), act);
    if k < |Of(TimedList(list, n, m - 1), act)| {
      OfAtTime(list, n, m - 1, act, k);
    }
  }

  // One list has no command for an actuator, or exactly one if its actuators are distinct.
  lemma {:induction false} OfList<V>(list: seq<Command<V>>, n: nat, m: nat, act: uint8)
    requires m <= |list|
    ensures (exists j :: 0 <= j < m && list[j].act == act) <==> Of(TimedList(list, n, m), act) != []
    ensures DistinctActs(list) ==> |Of(TimedList(list, n, m), act)| <= 1
  {
    if m > 0 {
      OfList(list, n, m - 1, act);
      assert TimedList(list, n, m) == TimedList(list, n, m - 1) + [Timed(n, list[m - 1])];
      OfSnoc(TimedList(list, n, m - 1), Timed(n, list[m - 1]), act);
    }
  }

  lemma BeforeNext<V>(lists: seq<seq<Command<V>>>, act: uint8, i: nat)
    requires i < |lists|
    ensures Before(lists, act, i) <= Before(lists, act, i + 1)
    ensures Before(lists, act, i) < Before(lists, act, i + 1) <==> exists j :: 0 <= j < |lists[i]| && lists[i][j].act == act
    ensures DistinctActs(lists[i]) ==> Before(lists, act, i + 1) <= Before(lists, act, i) + 1
  {
    var list := TimedList(lists[i], i, |lists[i]|);
    OfConcat(TimedAll(lists, i), list, act);
    OfList(lists[i], i, |lists[i]|, act);
  }

  // ----- The index follows the count, as far as eight bits reach

  // A group fires when its actuator has a command, unless it has had 256 before.
  ghost predicate Due<V>(lists: seq<seq<Command<V>>>, act: uint8, i: nat)
    requires i < |lists|
  {
    Before(lists, act, i) < 256 && Before(lists, act, i) < Before(lists, act, i + 1)
  }

  lemma FiresWhenDue<V>(lists: seq<seq<Command<V>>>, act: uint8, i: nat, idx: uint8)
    requires i < |lists| && Before(lists, act, i) <= 256 && idx == Before(lists, act, i) % 256
    ensures Fires(ActCmds(act, idx, AllOf(lists, act)), i) <==> Due(lists, act, i)
  {
    var n, b := |lists|, Before(lists, act, i);
    OfPrefix(lists, act, i, n);
    OfPrefix(lists, act, i + 1, n);
    if b == 256 {
      SplitByTime(lists, act, i, n, 0);
    } else if b < |AllOf(lists, act)| {
      SplitByTime(lists, act, i, n, b);
      SplitByTime(lists, act, i + 1, n, b);
    }
  }

  lemma IdxNext<V>(cmds: seq<ActCmd<V>>, act: uint8, i: nat)
    ensures var idx := IdxAt(cmds, i);
            IdxAt(cmds, i + 1) == if Fires(ActCmds(act, idx, cmds), i) then (idx + 1) % 256 else idx
  {
  }

  // One step of the index, against one step of the count.
  lemma CountNext(b: nat, b': nat, idx: uint8, idx': uint8, due: bool)
    requires b <= b' <= b + 1 && b' <= 256 && idx == b % 256
    requires due <==> b < 256 && b < b'
    requires idx' == if due then (idx + 1) % 256 else idx
    ensures idx' == b' % 256
  {
  }

  lemma {:induction false} IdxTracks<V>(lists: seq<seq<Command<V>>>, act: uint8, i: nat)
    requires i <= |lists| && forall t :: 0 <= t < i ==> DistinctActs(lists[t])
    requires Before(lists, act, i) <= 256
    ensures IdxAt(AllOf(lists, act), i) == Before(lists, act, i) % 256
  {
    if i > 0 {
      var p: nat, cmds := i - 1, AllOf(lists, act);
      BeforeNext(lists, act, p);
      IdxTracks(lists, act, p);
      FiresWhenDue(lists, act, p, IdxAt(cmds, p));
      IdxNext(cmds, act, p);
      CountNext(Before(lists, act, p), Before(lists, act, i), IdxAt(cmds, p), IdxAt(cmds, i), Due(lists, act, p));
    }
  }

  // ----- What is issued at one timepoint

  // A group in its state at timepoint i.
  function GroupAtTime<V>(g: ActCmds<V>, i: nat): ActCmds<V> {
    g.(idx := IdxAt(g.cmds, i))
  }

  // Everything issued at timepoint i is one of the commands scheduled for it, and comes
  // from the group of its actuator.
  lemma {:induction false} IssuedIsScheduled<V>(
    lists: seq<seq<Command<V>>>, groups: seq<ActCmds<V>>, i: nat, m: nat, c: Command<V>)
    requires Grouped(groups, TimedAll(lists, |lists|)) && i < |lists| && m <= |groups|
    requires c in Issued(GroupsAt(groups, i), i, m)
    ensures c in lists[i]
    ensures exists k :: 0 <= k < m && groups[k].act == c.act && Fires(GroupAtTime(groups[k], i), i)
  {
    var g := groups[m - 1];
    GroupAt(groups, i, m - 1);
    if c in Issued(GroupsAt(groups, i), i, m - 1) {
      IssuedIsScheduled(lists, groups, i, m - 1, c);
    } else {
      AllScheduled(lists, |lists|);
      OfScheduled(TimedAll(lists, |lists|), lists, g.act, IdxAt(g.cmds, i));
    }
  }

  lemma DistinctSnoc<V>(list: seq<Command<V>>, c: Command<V>)
    requires DistinctActs(list) && forall d :: d in list ==> d.act != c.act
    ensures DistinctActs(list + [c])
  {
    assert forall j :: 0 <= j < |list| ==> list[j] in list;
  }

  // Earlier groups have other actuators.
  lemma EarlierActs<V>(lists: seq<seq<Command<V>>>, groups: seq<ActCmds<V>>, i: nat, m: nat, d: Command<V>)
    requires Grouped(groups, TimedAll(lists, |lists|)) && i < |lists| && m < |groups|
    requires d in Issued(GroupsAt(groups, i), i, m)
    ensures d.act != groups[m].act
  {
    IssuedIsScheduled(lists, groups, i, m, d);
  }

  lemma {:induction false} IssuedDistinct<V>(lists: seq<seq<Command<V>>>, groups: seq<ActCmds<V>>, i: nat, m: nat)
    requires Grouped(groups, TimedAll(lists, |lists|)) && i < |lists| && m <= |groups|
    ensures DistinctActs(Issued(GroupsAt(groups, i), i, m))
  {
    if m > 0 {
      IssuedDistinct(lists, groups, i, m - 1);
      var at, g := GroupsAt(groups, i), GroupsAt(groups, i)[m - 1];
      var earlier := Issued(at, i, m - 1);
      GroupAt(groups, i, m - 1);
      if Fires(g, i) {
        var c := Command(g.act, g.cmds[g.idx].value);
        forall d | d in earlier
          ensures d.act != c.act
        {
          EarlierActs(lists, groups, i, m - 1, d);
        }
        DistinctSnoc(earlier, c);
      } else {
        assert earlier + [] == earlier;
      }
    }
  }

  lemma {:induction false} FiringIsIssued<V>(groups: seq<ActCmds<V>>, i: nat, m: nat, k: nat)
    requires k < m <= |groups| && groups[k].idx == 0 && Fires(GroupAtTime(groups[k], i), i)
    ensures Command(groups[k].act, groups[k].cmds[IdxAt(groups[k].cmds, i)].value) in Issued(GroupsAt(groups, i), i, m)
    decreases m
  {
    GroupAt(groups, i, k);
    if k < m - 1 {
      FiringIsIssued(groups, i, m - 1, k);
    }
  }

  // ----- Lists without repeated actuators

  lemma {:induction false} DistinctFits<V>(a: seq<Command<V>>, b: seq<Command<V>>)
    requires DistinctActs(a) && forall c :: c in a ==> c in b
    ensures |a| <= |b|
  {
    if a != [] {
      var init, last := a[..|a| - 1], a[|a| - 1];
      assert last in b;
      var k :| 0 <= k < |b| && b[k] == last;
      var rest := b[..k] + b[k + 1..];
      forall c | c in init
        ensures c in rest
      {
        var j :| 0 <= j < |init| && init[j] == c;
        assert a[j].act != last.act && c in a;
        var l :| 0 <= l < |b| && b[l] == c;
        assert if l < k then rest[l] == c else rest[l - 1] == c;
      }
      DistinctFits(init, rest);
    }
  }

  lemma {:induction false} Once<V>(a: seq<Command<V>>, c: Command<V>)
    requires DistinctActs(a)
    ensures multiset(a)[c] == if c in a then 1 else 0
  {
    if a != [] {
      var init, last := a[..|a| - 1], a[|a| - 1];
      assert a == init + [last];
      Once(init, c);
    }
  }

  lemma SameMultiset<V(!new)>(a: seq<Command<V>>, b: seq<Command<V>>)
    requires DistinctActs(a) && DistinctActs(b) && forall c :: c in a <==> c in b
    ensures multiset(a) == multiset(b)
  {
    forall c
      ensures multiset(a)[c] == multiset(b)[c]
    {
      Once(a, c);
      Once(b, c);
    }
  }

  /** Never more is issued at a timepoint than its count says, so the arrays are large enough. */
  lemma IssuedFits<V>(lists: seq<seq<Command<V>>>, groups: seq<ActCmds<V>>, i: nat, m: nat)
    requires Grouped(groups, TimedAll(lists, |lists|)) && i < |lists| && m <= |groups|
    ensures |Issued(GroupsAt(groups, i), i, m)| <= |lists[i]|
  {
    var issued := Issued(GroupsAt(groups, i), i, m);
    IssuedDistinct(lists, groups, i, m);
    forall c | c in issued
      ensures c in lists[i]
    {
      IssuedIsScheduled(lists, groups, i, m, c);
    }
    DistinctFits(issued, lists[i]);
  }

  lemma DistinctByMultiset<V>(a: seq<Command<V>>, b: seq<Command<V>>)
    requires DistinctActs(a) && multiset(a) == multiset(b)
    ensures DistinctActs(b)
  {
    forall j, k | 0 <= j < k < |b|
      ensures b[j].act != b[k].act
    {
      Once(a, b[j]);
      assert b == b[..j] + [b[j]] + b[j + 1..k] + [b[k]] + b[k + 1..];
      assert b[j] in multiset(b) && b[k] in multiset(b);
      assert b[j] in a && b[k] in a;
      var l, m :| 0 <= l < |a| && 0 <= m < |a| && a[l] == b[j] && a[m] == b[k];
    }
  }

  // ----- The theorem

  /** No actuator twice at one timepoint, and at most 256 commands for each actuator. */
  ghost predicate Regular<V>(lists: seq<seq<Command<V>>>) {
    && (forall i :: 0 <= i < |lists| ==> DistinctActs(lists[i]))
    && (forall act: uint8 :: |AllOf(lists, act)| <= 256)
  }

  // Each timepoint issues exactly its own commands, each of them once.
  ghost predicate Exact<V>(lists: seq<seq<Command<V>>>, groups: seq<ActCmds<V>>) {
    forall i: nat :: i < |lists| ==> multiset(IssuedAt(groups, i)) == multiset(lists[i])
  }

  lemma {:induction false} TimedContains<V>(lists: seq<seq<Command<V>>>, n: nat, i: nat, j: nat)
    requires i < n <= |lists| && j < |lists[i]|
    ensures Timed(i, lists[i][j]) in TimedAll(lists, n)
    decreases n
  {
    if i < n - 1 {
      TimedContains(lists, n - 1, i, j);
    } else {
      assert TimedList(lists[i], i, |lists[i]|)[j] == Timed(i, lists[i][j]);
    }
  }

  lemma GroupOf<V>(lists: seq<seq<Command<V>>>, groups: seq<ActCmds<V>>, i: nat, j: nat) returns (k: nat)
    requires Grouped(groups, TimedAll(lists, |lists|)) && i < |lists| && j < |lists[i]|
    ensures k < |groups| && groups[k].act == lists[i][j].act
  {
    TimedContains(lists, |lists|, i, j);
    assert HasGroup(groups, lists[i][j].act);
    k :| 0 <= k < |groups| && groups[k].act == lists[i][j].act;
  }

  lemma BeforeFits<V>(lists: seq<seq<Command<V>>>, act: uint8, i: nat)
    requires i <= |lists|
    ensures Before(lists, act, i) <= |AllOf(lists, act)|
  {
    OfPrefix(lists, act, i, |lists|);
  }

  // In a regular message, the group of a scheduled command fires.
  lemma RegularFires<V>(lists: seq<seq<Command<V>>>, i: nat, j: nat)
    requires Regular(lists) && i < |lists| && j < |lists[i]|
    ensures var act := lists[i][j].act;
            Fires(GroupAtTime(ActCmds(act, 0, AllOf(lists, act)), i), i)
  {
    var act := lists[i][j].act;
    BeforeFits(lists, act, i);
    BeforeFits(lists, act, i + 1);
    BeforeNext(lists, act, i);
    IdxTracks(lists, act, i);
    FiresWhenDue(lists, act, i, IdxAt(AllOf(lists, act), i));
  }

  lemma ScheduledIsIssued<V>(lists: seq<seq<Command<V>>>, groups: seq<ActCmds<V>>, i: nat, j: nat)
    requires Grouped(groups, TimedAll(lists, |lists|)) && Regular(lists) && i < |lists| && j < |lists[i]|
    ensures lists[i][j] in IssuedAt(groups, i)
  {
    var k := GroupOf(lists, groups, i, j);
    RegularFires(lists, i, j);
    FiringIsIssued(groups, i, |groups|, k);
    var issued := Command(groups[k].act, groups[k].cmds[IdxAt(groups[k].cmds, i)].value);
    IssuedIsScheduled(lists, groups, i, |groups|, issued);
    OnlyOne(lists[i], lists[i][j], issued);
  }

  lemma OnlyOne<V>(list: seq<Command<V>>, c: Command<V>, d: Command<V>)
    requires DistinctActs(list) && c in list && d in list && c.act == d.act
    ensures c == d
  {
  }

  lemma RegularIsExact<V(!new)>(lists: seq<seq<Command<V>>>, groups: seq<ActCmds<V>>)
    requires Grouped(groups, TimedAll(lists, |lists|)) && Regular(lists)
    ensures Exact(lists, groups)
  {
    forall i: nat | i < |lists|
      ensures multiset(IssuedAt(groups, i)) == multiset(lists[i])
    {
      IssuedDistinct(lists, groups, i, |groups|);
      forall c
        ensures c in IssuedAt(groups, i) <==> c in lists[i]
      {
        if c in IssuedAt(groups, i) {
          IssuedIsScheduled(lists, groups, i, |groups|, c);
        }
        if c in lists[i] {
          var j :| 0 <= j < |lists[i]| && lists[i][j] == c;
          ScheduledIsIssued(lists, groups, i, j);
        }
      }
      SameMultiset(IssuedAt(groups, i), lists[i]);
    }
  }

  // The time of the 257th command of an actuator, when it has had 256 before.
  lemma TimeOf257th<V>(lists: seq<seq<Command<V>>>, act: uint8) returns (t: nat)
    requires forall i :: 0 <= i < |lists| ==> DistinctActs(lists[i])
    requires |AllOf(lists, act)| > 256
    ensures t < |lists| && Before(lists, act, t) == 256
    ensures exists j :: 0 <= j < |lists[t]| && lists[t][j].act == act
  {
    var n := |lists|;
    AllScheduled(lists, n);
    OfScheduled(TimedAll(lists, n), lists, act, 256);
    t := AllOf(lists, act)[256].timepoint;
    SplitByTime(lists, act, t, n, 256);
    SplitByTime(lists, act, t + 1, n, 256);
    BeforeNext(lists, act, t);
  }

  // Then its group does not fire.
  lemma NotFiringAfter256<V>(lists: seq<seq<Command<V>>>, act: uint8, t: nat)
    requires forall i :: 0 <= i < |lists| ==> DistinctActs(lists[i])
    requires t < |lists| && Before(lists, act, t) == 256
    ensures !Fires(GroupAtTime(ActCmds(act, 0, AllOf(lists, act)), t), t)
  {
    IdxTracks(lists, act, t);
    FiresWhenDue(lists, act, t, IdxAt(AllOf(lists, act), t));
  }

  lemma ExactIsBounded<V>(lists: seq<seq<Command<V>>>, groups: seq<ActCmds<V>>, act: uint8)
    requires Grouped(groups, TimedAll(lists, |lists|)) && Exact(lists, groups)
    requires forall i :: 0 <= i < |lists| ==> DistinctActs(lists[i])
    ensures |AllOf(lists, act)| <= 256
  {
    if |AllOf(lists, act)| > 256 {
      var t := TimeOf257th(lists, act);
      NotFiringAfter256(lists, act, t);
      var j :| 0 <= j < |lists[t]| && lists[t][j].act == act;
      assert lists[t][j] in multiset(IssuedAt(groups, t));
      IssuedIsScheduled(lists, groups, t, |groups|, lists[t][j]);
    }
  }

  lemma ExactIsRegular<V>(lists: seq<seq<Command<V>>>, groups: seq<ActCmds<V>>)
    requires Grouped(groups, TimedAll(lists, |lists|)) && Exact(lists, groups)
    ensures Regular(lists)
  {
    forall i | 0 <= i < |lists|
      ensures DistinctActs(lists[i])
    {
      IssuedDistinct(lists, groups, i, |groups|);
      DistinctByMultiset(IssuedAt(groups, i), lists[i]);
    }
    forall act: uint8
      ensures |AllOf(lists, act)| <= 256
    {
      ExactIsBounded(lists, groups, act);
    }
  }

  /** A received message is issued exactly as scheduled if and only if it is regular. */
  lemma ExactIffRegular<V(!new)>(lists: seq<seq<Command<V>>>, groups: seq<ActCmds<V>>)
    requires Grouped(groups, TimedAll(lists, |lists|))
    ensures Exact(lists, groups) <==> Regular(lists)
  {
    if Regular(lists) {
      RegularIsExact(lists, groups);
    }
    if Exact(lists, groups) {
      ExactIsRegular(lists, groups);
    }
  }

  function Lists<V>(timepoints: seq<Timepoint<V>>): (lists: seq<seq<Command<V>>>)
    ensures |lists| == |timepoints|
  {
    seq(|timepoints|, i requires 0 <= i < |timepoints| => timepoints[i].commands)
  }

  /** From a trajectory to what is issued: each timepoint issues exactly the commands added
      to it, if and only if no timepoint has more than 255 and the trajectory is regular. */
  lemma TrajectoryExactIff<V(!new)>(timepoints: seq<Timepoint<V>>, groups: seq<ActCmds<V>>)
    requires Grouped(groups, TimedAll(Sent(timepoints), |timepoints|))
    ensures (forall i: nat :: i < |timepoints| ==> multiset(IssuedAt(groups, i)) == multiset(timepoints[i].commands))
      <==> (forall i :: 0 <= i < |timepoints| ==> |timepoints[i].commands| <= 255) && Regular(Lists(timepoints))
  {
    if i :| 0 <= i < |timepoints| && |timepoints[i].commands| > 255 {
      IssuedFits(Sent(timepoints), groups, i, |groups|);
      assert |multiset(IssuedAt(groups, i))| < |multiset(timepoints[i].commands)|;
    } else {
      assert forall i :: 0 <= i < |timepoints| ==> Kept(timepoints[i]) == timepoints[i].commands;
      assert Sent(timepoints) == Lists(timepoints);
      ExactIffRegular(Lists(timepoints), groups);
    }
  }
}
