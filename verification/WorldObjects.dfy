/** The tracker of one object of the world: sighted, lost and found again. */
module WorldObjects {
  import opened Options

  datatype Status = Hypothetical | Tracked | Lost

  datatype Event = NewObject | Appear | Disappear

  datatype Limits = Limits(neededSightings: nat, initialLockCounter: nat, initialLoseCounter: nat)

  datatype ObjectValue = ObjectValue(
    status: Status, timeoutCounter: nat, sightingsCounter: nat, shouldDelete: bool, inconsistent: bool)

  function Start(): ObjectValue {
    ObjectValue(Hypothetical, 0, 0, false, false)
  }

  function Sighted(limits: Limits, v: ObjectValue): ObjectValue {
    match v.status
    case Tracked => v.(timeoutCounter := limits.initialLoseCounter)
    case _ =>
      v.(timeoutCounter := if v.sightingsCounter == 0 then limits.initialLockCounter else v.timeoutCounter,
         sightingsCounter := v.sightingsCounter + 1)
  }

  function CountDown(counter: nat): nat {
    if counter == 0 then 0 else counter - 1
  }

  function EventOf(limits: Limits, v: ObjectValue): Option<Event> {
    match v.status
    case Hypothetical => if v.sightingsCounter >= limits.neededSightings then Some(NewObject) else None
    case Tracked => if v.timeoutCounter == 0 || v.inconsistent then Some(Disappear) else None
    case Lost => if v.sightingsCounter >= limits.neededSightings then Some(Appear) else None
  }

  function Ticked(limits: Limits, v: ObjectValue): ObjectValue {
    var w := match EventOf(limits, v)
      case Some(Disappear) => v.(status := Lost, sightingsCounter := 0, inconsistent := false)
      case Some(_) => v.(status := Tracked, timeoutCounter := limits.initialLoseCounter)
      case None =>
        if v.timeoutCounter > 0 || v.status.Tracked? then v
        else if v.status.Lost? then v.(sightingsCounter := 0)
        else v.(shouldDelete := true);
    w.(timeoutCounter := CountDown(w.timeoutCounter))
  }

  class WorldObject {
    const limits: Limits
    var status: Status
    var timeoutCounter: nat
    var sightingsCounter: nat
    var shouldDelete: bool
    var inconsistent: bool

    ghost function Value(): ObjectValue
      reads this
    {
      ObjectValue(status, timeoutCounter, sightingsCounter, shouldDelete, inconsistent)
    }

    constructor (limits: Limits)
      ensures this.limits == limits && Value() == Start()
    {
      this.limits, status, timeoutCounter, sightingsCounter := limits, Hypothetical, 0, 0;
      shouldDelete, inconsistent := false, false;
    }

    method Tick() returns (event: Option<Event>)
      modifies this
      ensures event == EventOf(limits, old(Value())) && Value() == Ticked(limits, old(Value()))
    {
      event := None;
      if status == Hypothetical {
        if sightingsCounter >= limits.neededSightings {
          event := Some(NewObject);
          status := Tracked;
          timeoutCounter := limits.initialLoseCounter;
        } else if timeoutCounter <= 0 {
          shouldDelete := true;
        }
      } else if status == Tracked {
        if timeoutCounter <= 0 || inconsistent {
          event := Some(Disappear);
          status := Lost;
          sightingsCounter := 0;
          inconsistent := false;
        }
      } else if status == Lost {
        if sightingsCounter >= limits.neededSightings {
          event := Some(Appear);
          status := Tracked;
          timeoutCounter := limits.initialLoseCounter;
        } else if timeoutCounter <= 0 {
          sightingsCounter := 0;
        }
      }
      timeoutCounter := if timeoutCounter - 1 > 0 then timeoutCounter - 1 else 0;
    }

    method ProduceSighting()
      modifies this
      ensures Value() == Sighted(limits, old(Value()))
    {
      if status == Lost || status == Hypothetical {
        if sightingsCounter == 0 {
          timeoutCounter := limits.initialLockCounter;
        }
        sightingsCounter := sightingsCounter + 1;
      } else if status == Tracked {
        timeoutCounter := limits.initialLoseCounter;
      }
    }
  }

  // ----- Runs

  // Mark is the outside world finding the object inconsistent.
  datatype Input = Sight | Tick | Mark

  function Step(limits: Limits, v: ObjectValue, input: Input): ObjectValue {
    match input
    case Sight => Sighted(limits, v)
    case Tick => Ticked(limits, v)
    case Mark => v.(inconsistent := true)
  }

  function Run(limits: Limits, inputs: seq<Input>): ObjectValue {
    if inputs == [] then Start() else Step(limits, Run(limits, inputs[..|inputs| - 1]), inputs[|inputs| - 1])
  }

  function Count(inputs: seq<Input>, input: Input): nat {
    if inputs == [] then 0 else Count(inputs[..|inputs| - 1], input) + if inputs[|inputs| - 1] == input then 1 else 0
  }

  lemma CountSnoc(inputs: seq<Input>, last: Input, input: Input)
    ensures Count(inputs + [last], input) == Count(inputs, input) + if last == input then 1 else 0
  {
    assert (inputs + [last])[..|inputs|] == inputs;
  }

  function Emitted(limits: Limits, v: ObjectValue, input: Input): seq<Event> {
    if input.Tick? && EventOf(limits, v).Some? then [EventOf(limits, v).value] else []
  }

  function Events(limits: Limits, inputs: seq<Input>): (events: seq<Event>) {
    if inputs == [] then []
    else
      var init := inputs[..|inputs| - 1];
      Events(limits, init) + Emitted(limits, Run(limits, init), inputs[|inputs| - 1])
  }

  /** NewObject first, then Disappear and Appear in turn. */
  ghost predicate Alternates(events: seq<Event>) {
    forall i :: 0 <= i < |events| ==> events[i] == if i == 0 then NewObject else if i % 2 == 1 then Disappear else Appear
  }

  ghost predicate StatusTells(status: Status, n: nat) {
    && (status.Hypothetical? <==> n == 0)
    && (status.Tracked? <==> n % 2 == 1)
  }

  lemma StepAlternates(limits: Limits, v: ObjectValue, input: Input, events: seq<Event>)
    requires Alternates(events) && StatusTells(v.status, |events|)
    ensures Alternates(events + Emitted(limits, v, input))
    ensures StatusTells(Step(limits, v, input).status, |events + Emitted(limits, v, input)|)
  {
    if Emitted(limits, v, input) == [] {
      assert events + Emitted(limits, v, input) == events;
    }
  }

  /** Every run emits events of this form, and how many there are tells the status. */
  lemma {:induction false} EventsAlternate(limits: Limits, inputs: seq<Input>)
    ensures Alternates(Events(limits, inputs))
    ensures StatusTells(Run(limits, inputs).status, |Events(limits, inputs)|)
  {
    if inputs != [] {
      var init := inputs[..|inputs| - 1];
      EventsAlternate(limits, init);
      StepAlternates(limits, Run(limits, init), inputs[|inputs| - 1], Events(limits, init));
    }
  }

  ghost predicate InBounds(limits: Limits, v: ObjectValue, sightings: nat) {
    && (v.timeoutCounter <= limits.initialLockCounter || v.timeoutCounter <= limits.initialLoseCounter)
    && v.sightingsCounter <= sightings
  }

  lemma StepInBounds(limits: Limits, v: ObjectValue, input: Input, sightings: nat)
    requires InBounds(limits, v, sightings)
    ensures InBounds(limits, Step(limits, v, input), sightings + 1)
    ensures input != Sight ==> InBounds(limits, Step(limits, v, input), sightings)
  {
  }

  /** The counters stay in bounds: below the larger of the two initial values, and below the
      number of sightings. */
  lemma {:induction false} CountersInBounds(limits: Limits, inputs: seq<Input>)
    ensures InBounds(limits, Run(limits, inputs), Count(inputs, Sight))
  {
    if inputs != [] {
      CountersInBounds(limits, inputs[..|inputs| - 1]);
      StepInBounds(limits, Run(limits, inputs[..|inputs| - 1]), inputs[|inputs| - 1], Count(inputs[..|inputs| - 1], Sight));
    }
  }

  // ----- When an object is lost

  // The ticks since a tracked object was last sighted, or since the tick that began to track it.
  function Quiet(limits: Limits, inputs: seq<Input>): nat {
    if inputs == [] then 0
    else
      var init, last := inputs[..|inputs| - 1], inputs[|inputs| - 1];
      match last
      case Sight => 0
      case Mark => Quiet(limits, init)
      case Tick => if Run(limits, init).status.Tracked? then Quiet(limits, init) + 1 else 1
  }

  lemma {:induction false} TimeoutCountsQuiet(limits: Limits, inputs: seq<Input>)
    requires Run(limits, inputs).status.Tracked?
    ensures var lose, quiet := limits.initialLoseCounter, Quiet(limits, inputs);
            Run(limits, inputs).timeoutCounter == if quiet < lose then lose - quiet else 0
  {
    if inputs != [] && Run(limits, inputs[..|inputs| - 1]).status.Tracked? {
      TimeoutCountsQuiet(limits, inputs[..|inputs| - 1]);
    }
  }

  /** A tracked object disappears at the next tick exactly when it is inconsistent or has
      been quiet for as many ticks as it takes to lose it. */
  lemma DisappearsIff(limits: Limits, inputs: seq<Input>)
    ensures EventOf(limits, Run(limits, inputs)) == Some(Disappear)
      <==> (var v := Run(limits, inputs);
            v.status.Tracked? && (v.inconsistent || Quiet(limits, inputs) >= limits.initialLoseCounter))
  {
    if Run(limits, inputs).status.Tracked? {
      TimeoutCountsQuiet(limits, inputs);
    }
  }

  // Found inconsistent since the object last disappeared.
  function Marked(limits: Limits, inputs: seq<Input>): (marked: bool) {
    if inputs == [] then false
    else
      var init := inputs[..|inputs| - 1];
      match inputs[|inputs| - 1]
      case Sight => Marked(limits, init)
      case Mark => true
      case Tick => Marked(limits, init) && !Run(limits, init).status.Tracked?
  }

  /** Losing an object clears that it was found inconsistent, and nothing else does. */
  lemma {:induction false} InconsistentIffMarked(limits: Limits, inputs: seq<Input>)
    ensures Run(limits, inputs).inconsistent <==> Marked(limits, inputs)
  {
    if inputs != [] {
      InconsistentIffMarked(limits, inputs[..|inputs| - 1]);
      DisappearsIff(limits, inputs[..|inputs| - 1]);
    }
  }

  // Among any so many ticks there is a sighting, and the object is never inconsistent.
  ghost predicate Attended(limits: Limits, inputs: seq<Input>) {
    && Mark !in inputs
    && forall i: nat, j: nat :: i <= j <= |inputs| && Count(inputs[i..j], Tick) >= limits.initialLoseCounter ==> Sight in inputs[i..j]
  }

  // The quiet ticks are at the end of the run, with no sighting among them.
  lemma {:induction false} QuietSuffix(limits: Limits, inputs: seq<Input>) returns (i: nat)
    requires Run(limits, inputs).status.Tracked?
    ensures i <= |inputs| && Count(inputs[i..], Tick) == Quiet(limits, inputs) && Sight !in inputs[i..]
  {
    var init, last := inputs[..|inputs| - 1], inputs[|inputs| - 1];
    assert inputs == init + [last];
    if last == Sight {
      i := |inputs|;
      assert inputs[i..] == [];
    } else if Run(limits, init).status.Tracked? {
      i := QuietSuffix(limits, init);
      assert inputs[i..] == init[i..] + [last];
      CountSnoc(init[i..], last, Tick);
    } else {
      i := |init|;
      assert inputs[i..] == [] + [last];
      CountSnoc([], last, Tick);
    }
  }

  lemma AttendedStays(limits: Limits, inputs: seq<Input>)
    requires Attended(limits, inputs)
    ensures EventOf(limits, Run(limits, inputs)) != Some(Disappear)
  {
    NeverMarked(limits, inputs);
    DisappearsIff(limits, inputs);
    if Run(limits, inputs).status.Tracked? {
      var i := QuietSuffix(limits, inputs);
      assert inputs[i..|inputs|] == inputs[i..];
    }
  }

  lemma AttendedPrefix(limits: Limits, inputs: seq<Input>)
    requires Attended(limits, inputs) && inputs != []
    ensures Attended(limits, inputs[..|inputs| - 1])
  {
    var init := inputs[..|inputs| - 1];
    forall i: nat, j: nat | i <= j <= |init| && Count(init[i..j], Tick) >= limits.initialLoseCounter
      ensures Sight in init[i..j]
    {
      assert init[i..j] == inputs[i..j];
    }
  }

  /** An object that is consistent and sighted often enough is never lost. */
  lemma {:induction false} NeverLost(limits: Limits, inputs: seq<Input>)
    requires Attended(limits, inputs)
    ensures Disappear !in Events(limits, inputs)
  {
    if inputs != [] {
      AttendedPrefix(limits, inputs);
      NeverLost(limits, inputs[..|inputs| - 1]);
      AttendedStays(limits, inputs[..|inputs| - 1]);
    }
  }

  lemma {:induction false} NeverMarked(limits: Limits, inputs: seq<Input>)
    requires Mark !in inputs
    ensures !Run(limits, inputs).inconsistent
  {
    if inputs != [] {
      assert inputs[|inputs| - 1] in inputs;
      NeverMarked(limits, inputs[..|inputs| - 1]);
    }
  }

  // ----- When an object is locked on to

  ghost predicate Window(limits: Limits, inputs: seq<Input>, i: nat) {
    && i < |inputs| && inputs[i] == Sight
    && Count(inputs[i..], Sight) == Run(limits, inputs).sightingsCounter
    && Count(inputs[i..], Tick) <= limits.initialLockCounter
    && Run(limits, inputs).timeoutCounter == limits.initialLockCounter - Count(inputs[i..], Tick)
  }

  lemma WindowStarts(limits: Limits, init: seq<Input>, last: Input)
    requires var v := Run(limits, init + [last]); !v.status.Tracked? && v.sightingsCounter > 0
    requires Run(limits, init).sightingsCounter == 0
    ensures Window(limits, init + [last], |init|)
  {
    assert (init + [last])[..|init|] == init;
    assert (init + [last])[|init|..] == [] + [last];
    CountSnoc([], last, Sight);
    CountSnoc([], last, Tick);
  }

  lemma WindowGoesOn(limits: Limits, init: seq<Input>, last: Input, i: nat)
    requires var v := Run(limits, init + [last]); !v.status.Tracked? && !v.shouldDelete && v.sightingsCounter > 0
    requires !Run(limits, init).status.Tracked? && Window(limits, init, i)
    requires Run(limits, init).sightingsCounter > 0
    ensures Window(limits, init + [last], i)
  {
    assert (init + [last])[..|init|] == init;
    assert (init + [last])[i..] == init[i..] + [last];
    CountSnoc(init[i..], last, Sight);
    CountSnoc(init[i..], last, Tick);
  }

  // The sightings counted so far are those since the first of them, which is recent enough.
  lemma {:induction false} SightingsWindow(limits: Limits, inputs: seq<Input>) returns (i: nat)
    requires !Run(limits, inputs).status.Tracked? && !Run(limits, inputs).shouldDelete
    requires Run(limits, inputs).sightingsCounter > 0
    ensures Window(limits, inputs, i)
  {
    var init, last := inputs[..|inputs| - 1], inputs[|inputs| - 1];
    assert inputs == init + [last];
    if Run(limits, init).sightingsCounter == 0 {
      i := |init|;
      WindowStarts(limits, init, last);
    } else {
      i := SightingsWindow(limits, init);
      WindowGoesOn(limits, init, last, i);
    }
  }

  /** An object that is announced, and was not up for deletion before, has been sighted as
      often as needed within the time to lock on to it. */
  lemma AnnouncedAfterSightings(limits: Limits, inputs: seq<Input>) returns (i: nat)
    requires limits.neededSightings > 0
    requires EventOf(limits, Run(limits, inputs)) in {Some(NewObject), Some(Appear)} && !Run(limits, inputs).shouldDelete
    ensures i < |inputs| && inputs[i] == Sight
    ensures Count(inputs[i..], Sight) >= limits.neededSightings && Count(inputs[i..], Tick) <= limits.initialLockCounter
  {
    i := SightingsWindow(limits, inputs);
  }

  // ----- Exactly when an object is announced or given up

  // The first sighting of the current attempt to lock on.  A lost object starts afresh when
  // a tick finds that there were as many ticks since as there is time.
  function Opened(limits: Limits, inputs: seq<Input>): (i: Option<nat>)
    ensures i.Some? ==> i.value < |inputs| && inputs[i.value] == Sight
  {
    if inputs == [] then None
    else
      var init, last := inputs[..|inputs| - 1], inputs[|inputs| - 1];
      var v, o := Run(limits, init), Opened(limits, init);
      match last
      case Sight => if v.status.Tracked? || o.Some? then o else Some(|init|)
      case Mark => o
      case Tick =>
        if EventOf(limits, v).Some? then None
        else if v.status.Lost? && o.Some? && Count(init[o.value..], Tick) >= limits.initialLockCounter then None
        else o
  }

  // The sightings and the ticks since then.
  function Since(limits: Limits, inputs: seq<Input>, input: Input): nat {
    match Opened(limits, inputs)
    case None => 0
    case Some(i) => Count(inputs[i..], input)
  }

  ghost predicate CountsSince(limits: Limits, inputs: seq<Input>) {
    var v, lock := Run(limits, inputs), limits.initialLockCounter;
    if v.status.Tracked? then Opened(limits, inputs).None?
    else
      && v.sightingsCounter == Since(limits, inputs, Sight)
      && (v.status.Hypothetical? && Opened(limits, inputs).None? ==> v.timeoutCounter == 0)
      && (Opened(limits, inputs).Some? ==>
           && Since(limits, inputs, Sight) > 0
           && v.timeoutCounter == if Since(limits, inputs, Tick) < lock then lock - Since(limits, inputs, Tick) else 0)
  }

  lemma SinceSnoc(limits: Limits, init: seq<Input>, last: Input, input: Input)
    ensures Opened(limits, init + [last]) == Opened(limits, init) && Opened(limits, init).Some? ==>
              Since(limits, init + [last], input) == Since(limits, init, input) + if last == input then 1 else 0
    ensures Opened(limits, init + [last]) == Some(|init|) ==>
              Since(limits, init + [last], input) == if last == input then 1 else 0
  {
    if Opened(limits, init + [last]) == Opened(limits, init) && Opened(limits, init).Some? {
      var i := Opened(limits, init).value;
      assert (init + [last])[i..] == init[i..] + [last];
      CountSnoc(init[i..], last, input);
    }
    if Opened(limits, init + [last]) == Some(|init|) {
      assert (init + [last])[|init|..] == [] + [last];
      CountSnoc([], last, input);
    }
  }

  lemma {:induction false} AlwaysCounts(limits: Limits, inputs: seq<Input>)
    ensures CountsSince(limits, inputs)
    decreases |inputs|
  {
    if inputs != [] {
      var init, last := inputs[..|inputs| - 1], inputs[|inputs| - 1];
      AlwaysCounts(limits, init);
      assert inputs == init + [last];
      SinceSnoc(limits, init, last, Sight);
      SinceSnoc(limits, init, last, Tick);
    }
  }

  /** An object that is not tracked is announced by the next tick exactly when it has been
      sighted as often as needed since the first sighting of the current attempt. */
  lemma AnnouncedIff(limits: Limits, inputs: seq<Input>)
    ensures EventOf(limits, Run(limits, inputs)) in {Some(NewObject), Some(Appear)}
      <==> !Run(limits, inputs).status.Tracked? && Since(limits, inputs, Sight) >= limits.neededSightings
    ensures EventOf(limits, Run(limits, inputs)) == Some(Appear) ==> Run(limits, inputs).status.Lost?
  {
    AlwaysCounts(limits, inputs);
  }

  lemma {:induction false} HypotheticalCountsAll(limits: Limits, inputs: seq<Input>)
    requires Run(limits, inputs).status.Hypothetical?
    ensures Run(limits, inputs).sightingsCounter == Count(inputs, Sight)
    decreases |inputs|
  {
    if inputs != [] {
      HypotheticalCountsAll(limits, inputs[..|inputs| - 1]);
    }
  }

  /** The first event comes exactly with the first tick that finds the object sighted as
      often as needed since the beginning. */
  lemma NewObjectIff(limits: Limits, inputs: seq<Input>)
    ensures EventOf(limits, Run(limits, inputs)) == Some(NewObject)
      <==> Events(limits, inputs) == [] && Count(inputs, Sight) >= limits.neededSightings
  {
    EventsAlternate(limits, inputs);
    if Run(limits, inputs).status.Hypothetical? {
      HypotheticalCountsAll(limits, inputs);
    }
  }

  lemma DeletesNow(limits: Limits, v: ObjectValue)
    ensures Step(limits, v, Tick).shouldDelete
      <==> v.shouldDelete || (v.status.Hypothetical? && v.sightingsCounter < limits.neededSightings && v.timeoutCounter == 0)
    ensures Step(limits, v, Sight).shouldDelete == v.shouldDelete && Step(limits, v, Mark).shouldDelete == v.shouldDelete
  {
  }

  /** A tick puts an object up for deletion exactly when it has never been announced, has not
      been sighted as often as needed, and was first sighted, if at all, as many ticks ago as
      there is time; nothing else does, and nothing takes it back. */
  lemma DeletedIff(limits: Limits, inputs: seq<Input>)
    ensures Run(limits, inputs + [Tick]).shouldDelete
      <==> || Run(limits, inputs).shouldDelete
           || (&& Events(limits, inputs) == [] && Count(inputs, Sight) < limits.neededSightings
               && (Opened(limits, inputs).None? || Since(limits, inputs, Tick) >= limits.initialLockCounter))
    ensures Run(limits, inputs + [Sight]).shouldDelete == Run(limits, inputs).shouldDelete
    ensures Run(limits, inputs + [Mark]).shouldDelete == Run(limits, inputs).shouldDelete
  {
    forall last: Input
      ensures Run(limits, inputs + [last]) == Step(limits, Run(limits, inputs), last)
    {
      assert (inputs + [last])[..|inputs|] == inputs;
    }
    DeletesNow(limits, Run(limits, inputs));
    EventsAlternate(limits, inputs);
    AlwaysCounts(limits, inputs);
    if Run(limits, inputs).status.Hypothetical? {
      HypotheticalCountsAll(limits, inputs);
    }
  }
}
