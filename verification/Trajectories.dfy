/** Trajectories: lists of timed actuator commands, and the flat message they are sent as. */
module Trajectories {

  type uint8 = x: int | 0 <= x < 256

  datatype Command<V> = Command(act: uint8, value: V)

  datatype Timepoint<V> = Timepoint(timestamp: int, commands: seq<Command<V>>) {
    function Add(act: uint8, value: V): Timepoint<V> {
      Timepoint(timestamp, commands + [Command(act, value)])
    }
  }

  datatype TrajectoryMsg<V> = TrajectoryMsg(timestamps: seq<int>, numValues: seq<uint8>, actuators: seq<uint8>, values: seq<V>)

  function Total<V>(timepoints: seq<Timepoint<V>>): nat {
    if timepoints == [] then 0 else Total(timepoints[..|timepoints| - 1]) + |timepoints[|timepoints| - 1].commands|
  }

  // The commands of a timepoint that are sent: their number is cut to eight bits.
  function Kept<V>(timepoint: Timepoint<V>): (kept: seq<Command<V>>)
    ensures |kept| < 256 && kept <= timepoint.commands
  {
    timepoint.commands[..|timepoint.commands| % 256]
  }

  function Sent<V>(timepoints: seq<Timepoint<V>>): (sent: seq<seq<Command<V>>>)
    ensures |sent| == |timepoints|
  {
    seq(|timepoints|, i requires 0 <= i < |timepoints| => Kept(timepoints[i]))
  }

  // One list after the other, up to the n-th.
  function Flat<V>(lists: seq<seq<Command<V>>>, n: nat): (flat: seq<Command<V>>)
    requires n <= |lists|
  {
    if n == 0 then [] else Flat(lists, n - 1) + lists[n - 1]
  }

  function Acts<V>(commands: seq<Command<V>>): seq<uint8> {
    seq(|commands|, k requires 0 <= k < |commands| => commands[k].act)
  }

  function Values<V>(commands: seq<Command<V>>): seq<V> {
    seq(|commands|, k requires 0 <= k < |commands| => commands[k].value)
  }

  /** The message carries these lists of commands: their lengths, and the lists one after
      the other. */
  ghost predicate Carries<V>(msg: TrajectoryMsg<V>, lists: seq<seq<Command<V>>>) {
    && |msg.timestamps| == |msg.numValues| == |lists|
    && (forall i :: 0 <= i < |lists| ==> msg.numValues[i] == |lists[i]|)
    && Acts(Flat(lists, |lists|)) <= msg.actuators && Values(Flat(lists, |lists|)) <= msg.values
  }

  lemma {:induction false} KeptFits<V>(timepoints: seq<Timepoint<V>>, n: nat)
    requires n <= |timepoints|
    ensures |Flat(Sent(timepoints), n)| <= Total(timepoints[..n])
  {
    if n > 0 {
      KeptFits(timepoints, n - 1);
      assert timepoints[..n][..n - 1] == timepoints[..n - 1];
    }
  }

  lemma {:induction false} TotalGrows<V>(timepoints: seq<Timepoint<V>>, n: nat)
    requires n <= |timepoints|
    ensures Total(timepoints[..n]) <= Total(timepoints)
    decreases |timepoints| - n
  {
    if n == |timepoints| {
      assert timepoints[..n] == timepoints;
    } else {
      TotalGrows(timepoints, n + 1);
      assert timepoints[..n + 1][..n] == timepoints[..n];
    }
  }

  class Trajectory<V(0)> {
    var timepoints: seq<Timepoint<V>>
    var numTotalValues: nat

    ghost predicate Valid()
      reads this
    {
      numTotalValues == Total(timepoints)
    }

    constructor ()
      ensures Valid() && timepoints == []
    {
      timepoints, numTotalValues := [], 0;
    }

    method Add(timepoint: Timepoint<V>)
      requires Valid()
      modifies this
      ensures Valid() && timepoints == old(timepoints) + [timepoint]
    {
      timepoints := timepoints + [timepoint];
      numTotalValues := numTotalValues + |timepoint.commands|;
    }

    /** The message carries, of every timepoint, as many commands as an eight-bit count says. */
    method Pack() returns (msg: TrajectoryMsg<V>)
      requires Valid()
      ensures Carries(msg, Sent(timepoints)) && TimesOf(msg, timepoints)
      ensures |msg.actuators| == |msg.values| == numTotalValues
    {
      ghost var sent := Sent(timepoints);
      var timestamps := new int[|timepoints|];
      var numValues := new uint8[|timepoints|];
      var actuators := new uint8[numTotalValues];
      var values := new V[numTotalValues];
      var p: nat := 0;
      for i := 0 to |timepoints|
        invariant p == |Flat(sent, i)|
        invariant Counted(timestamps[..], numValues[..], timepoints, i)
        invariant Holds(actuators[..], values[..], Flat(sent, i))
      {
        PackCounts(timestamps, numValues, i);
        p := PackCommands(actuators, values, i, p, numValues[i]);
      }
      msg := TrajectoryMsg(timestamps[..], numValues[..], actuators[..], values[..]);
      PackedCarries(msg, timepoints);
    }

    // The time and the number of commands of one timepoint.
    method PackCounts(timestamps: array<int>, numValues: array<uint8>, i: nat)
      requires (timestamps as object) != numValues && timestamps.Length == numValues.Length == |timepoints|
      requires i < |timepoints| && Counted(timestamps[..], numValues[..], timepoints, i)
      modifies timestamps, numValues
      ensures Counted(timestamps[..], numValues[..], timepoints, i + 1)
    {
      timestamps[i] := timepoints[i].timestamp;
      numValues[i] := |timepoints[i].commands| % 256;
    }

    // The commands of one timepoint, behind those of the earlier ones.
    method PackCommands(actuators: array<uint8>, values: array<V>, i: nat, p: nat, count: uint8) returns (p': nat)
      requires Valid() && i < |timepoints| && p == |Flat(Sent(timepoints), i)| && count == |Kept(timepoints[i])|
      requires (actuators as object) != values && actuators.Length == values.Length == numTotalValues
      requires Holds(actuators[..], values[..], Flat(Sent(timepoints), i))
      modifies actuators, values
      ensures p' == |Flat(Sent(timepoints), i + 1)| && Holds(actuators[..], values[..], Flat(Sent(timepoints), i + 1))
    {
      PackedFits(i);
      CopyCommands(actuators, values, Flat(Sent(timepoints), i), p, timepoints[i].commands, count);
      p' := p + count;
    }

    lemma PackedFits(i: nat)
      requires Valid() && i < |timepoints|
      ensures Flat(Sent(timepoints), i + 1) == Flat(Sent(timepoints), i) + Kept(timepoints[i])
      ensures |Flat(Sent(timepoints), i + 1)| <= numTotalValues
    {
      KeptFits(timepoints, i + 1);
      TotalGrows(timepoints, i + 1);
    }
  }

  ghost predicate TimesOf<V>(msg: TrajectoryMsg<V>, timepoints: seq<Timepoint<V>>) {
    |msg.timestamps| == |timepoints| && forall i :: 0 <= i < |timepoints| ==> msg.timestamps[i] == timepoints[i].timestamp
  }

  ghost predicate Counted<V>(timestamps: seq<int>, numValues: seq<uint8>, timepoints: seq<Timepoint<V>>, n: nat) {
    && n <= |timestamps| == |numValues| == |timepoints|
    && forall k :: 0 <= k < n ==>
      timestamps[k] == timepoints[k].timestamp && numValues[k] == |Kept(timepoints[k])| == |timepoints[k].commands| % 256
  }

  // The arrays start with these commands.
  ghost predicate Holds<V>(actuators: seq<uint8>, values: seq<V>, flat: seq<Command<V>>) {
    && |flat| <= |actuators| == |values|
    && forall k :: 0 <= k < |flat| ==> actuators[k] == flat[k].act && values[k] == flat[k].value
  }

  lemma PackedCarries<V>(msg: TrajectoryMsg<V>, timepoints: seq<Timepoint<V>>)
    requires Counted(msg.timestamps, msg.numValues, timepoints, |timepoints|)
    requires Holds(msg.actuators, msg.values, Flat(Sent(timepoints), |timepoints|))
    ensures Carries(msg, Sent(timepoints)) && TimesOf(msg, timepoints)
  {
  }

  // The first commands of a timepoint, copied behind those already there.
  method CopyCommands<V>(actuators: array<uint8>, values: array<V>, ghost flat: seq<Command<V>>,
                         p: nat, commands: seq<Command<V>>, count: nat)
    requires actuators.Length == values.Length && p == |flat| && count <= |commands| && p + count <= values.Length
    requires (actuators as object) != values
    requires Holds(actuators[..], values[..], flat)
    modifies actuators, values
    ensures Holds(actuators[..], values[..], flat + commands[..count])
  {
    for j := 0 to count
      invariant forall k :: 0 <= k < p ==> actuators[k] == flat[k].act && values[k] == flat[k].value
      invariant forall k :: 0 <= k < j ==> actuators[p + k] == commands[k].act && values[p + k] == commands[k].value
    {
      actuators[p + j] := commands[j].act;
      values[p + j] := commands[j].value;
    }
    forall k | 0 <= k < p + count
      ensures actuators[k] == (flat + commands[..count])[k].act && values[k] == (flat + commands[..count])[k].value
    {
      if k >= p {
        assert actuators[p + (k - p)] == commands[k - p].act && values[p + (k - p)] == commands[k - p].value;
      }
    }
  }
}
