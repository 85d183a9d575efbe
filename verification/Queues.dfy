/** The per-subscriber queue: a ring of slots whose writer does not look for room. */
module Queues {
  import opened Options

  // ----- What the queue holds, as a sequence

  /** Putting into a queue of this many slots.  When all but one are in use, the new
      element takes the last slot, the two ends meet, and everything held is lost. */
  function Put<T>(size: nat, held: seq<T>, x: T): (r: seq<T>) {
    if |held| + 1 == size then [] else held + [x]
  }

  function Count(size: nat, head: nat, tail: nat): nat
    requires head < size && tail < size
  {
    if tail <= head then head - tail else head + size - tail
  }

  // The k-th slot from the tail, round the ring.
  function Slot(size: nat, tail: nat, k: nat): (i: nat)
    requires tail < size && k < size
    ensures i < size
  {
    if tail + k < size then tail + k else tail + k - size
  }

  // No slot between the tail and the head has been cleared.
  ghost predicate Filled<T>(slots: seq<Option<T>>, head: nat, tail: nat) {
    && head < |slots| && tail < |slots|
    && forall k: nat :: k < Count(|slots|, head, tail) ==> slots[Slot(|slots|, tail, k)].Some?
  }

  ghost function Elements<T>(slots: seq<Option<T>>, head: nat, tail: nat): (held: seq<T>)
    requires Filled(slots, head, tail)
    ensures |held| == Count(|slots|, head, tail) < |slots|
  {
    seq(Count(|slots|, head, tail), k requires 0 <= k < Count(|slots|, head, tail) => slots[Slot(|slots|, tail, k)].value)
  }

  lemma NextSlot(size: nat, i: nat)
    requires i < size
    ensures (i + 1) % size == if i + 1 == size then 0 else i + 1
  {
  }

  lemma ElementsGet<T>(slots: seq<Option<T>>, head: nat, tail: nat, r: seq<Option<T>>, tail': nat)
    requires Filled(slots, head, tail) && head != tail
    requires r == slots[tail := None] && tail' == if tail + 1 == |slots| then 0 else tail + 1
    ensures slots[tail] == Some(Elements(slots, head, tail)[0])
    ensures Filled(r, head, tail') && Elements(r, head, tail') == Elements(slots, head, tail)[1..]
  {
    var size, count := |slots|, Count(|slots|, head, tail);
    assert Slot(size, tail, 0) == tail;
    assert Count(size, head, tail') == count - 1;
    forall k: nat | k < count - 1
      ensures r[Slot(size, tail', k)] == slots[Slot(size, tail, k + 1)] && r[Slot(size, tail', k)].Some?
    {
      assert Slot(size, tail', k) == Slot(size, tail, k + 1) != tail;
    }
  }

  lemma ElementsPut<T>(slots: seq<Option<T>>, head: nat, tail: nat, x: T, r: seq<Option<T>>, head': nat)
    requires Filled(slots, head, tail)
    requires r == slots[head := Some(x)] && head' == if head + 1 == |slots| then 0 else head + 1
    ensures Filled(r, head', tail) && Elements(r, head', tail) == Put(|slots|, Elements(slots, head, tail), x)
  {
    var size, count := |slots|, Count(|slots|, head, tail);
    assert Slot(size, tail, count) == head;
    if count + 1 == size {
      assert head' == tail;
    } else {
      assert Count(size, head', tail) == count + 1;
      forall k: nat | k < count
        ensures r[Slot(size, tail, k)] == slots[Slot(size, tail, k)] && r[Slot(size, tail, k)].Some?
      {
        assert Slot(size, tail, k) != head;
      }
    }
  }

  class MPSCQueue<T> {
    const internal: array<Option<T>>
    var head: nat
    var tail: nat

    ghost predicate Valid()
      reads this, internal
    {
      Filled(internal[..], head, tail)
    }

    ghost function Held(): (held: seq<T>)
      requires Valid()
      reads this, internal
    {
      Elements(internal[..], head, tail)
    }

    constructor (size: nat)
      requires size > 0
      ensures Valid() && fresh(internal) && internal.Length == size && Held() == []
    {
      internal := new Option<T>[size](_ => None);
      head, tail := 0, 0;
    }

    /** What is read is never a cleared slot. */
    method Get() returns (r: Option<Option<T>>)
      requires Valid()
      modifies this`tail, internal
      ensures Valid()
      ensures r == if old(Held()) == [] then None else Some(Some(old(Held())[0]))
      ensures Held() == if old(Held()) == [] then [] else old(Held())[1..]
    {
      if tail != head {
        ghost var slots, first := internal[..], tail;
        var elem := internal[tail];
        internal[tail] := None;
        NextSlot(internal.Length, tail);
        tail := (tail + 1) % internal.Length;
        ElementsGet(slots, head, first, internal[..], tail);
        return Some(elem);
      } else {
        return None;
      }
    }

    method PutValue(val: T)
      requires Valid()
      modifies this`head, internal
      ensures Valid()
      ensures Held() == Put(internal.Length, old(Held()), val)
    {
      ghost var slots, last := internal[..], head;
      internal[head] := Some(val);
      NextSlot(internal.Length, head);
      head := (head + 1) % internal.Length;
      ElementsPut(slots, last, tail, val, internal[..], head);
    }
  }

  // ----- Whole runs of one queue

  datatype Operation<T> = PutOp(val: T) | GetOp

  // What is held, what has been got, and how often a put found no room.
  datatype History<T> = History(held: seq<T>, got: seq<T>, overflows: nat) {
    function Step(size: nat, op: Operation<T>): History<T> {
      match op
      case PutOp(x) => History(Put(size, held, x), got, if |held| + 1 == size then overflows + 1 else overflows)
      case GetOp => if held == [] then this else History(held[1..], got + [held[0]], overflows)
    }
  }

  function Run<T>(size: nat, ops: seq<Operation<T>>): (h: History<T>) {
    if ops == [] then History([], [], 0) else Run(size, ops[..|ops| - 1]).Step(size, ops[|ops| - 1])
  }

  function Puts<T>(ops: seq<Operation<T>>): (puts: seq<T>) {
    if ops == [] then [] else
      Puts(ops[..|ops| - 1]) + (match ops[|ops| - 1] case PutOp(x) => [x] case GetOp => [])
  }

  /** Every overflow loses exactly as many elements as there are slots. */
  lemma {:induction false} LossIsWholeQueues<T>(size: nat, ops: seq<Operation<T>>)
    requires size > 0
    ensures var h := Run(size, ops);
            |h.held| < size && |Puts(ops)| == |h.got| + |h.held| + size * h.overflows
  {
    if ops != [] {
      LossIsWholeQueues(size, ops[..|ops| - 1]);
      var h := Run(size, ops[..|ops| - 1]);
      assert size * (h.overflows + 1) == size * h.overflows + size;
    }
  }

  lemma {:induction false} KeptInOrder<T>(size: nat, ops: seq<Operation<T>>)
    requires Run(size, ops).overflows == 0
    ensures Puts(ops) == Run(size, ops).got + Run(size, ops).held
  {
    if ops != [] {
      KeptInOrder(size, ops[..|ops| - 1]);
    }
  }

  /** Everything put comes out once and in order exactly when no put found the queue
      holding one element less than it has slots. */
  lemma FifoIffNoOverflow<T>(size: nat, ops: seq<Operation<T>>)
    requires size > 0
    ensures Run(size, ops).overflows == 0 <==> Puts(ops) == Run(size, ops).got + Run(size, ops).held
  {
    var h := Run(size, ops);
    LossIsWholeQueues(size, ops);
    if h.overflows == 0 {
      KeptInOrder(size, ops);
    } else {
      assert size * h.overflows > 0;
    }
  }
}
