/**
 The drop-oldest queue between producers and consumers. Every operation holds the
 queue's mutex throughout, so each is one atomic step on the queue's value.
 */
module BoundedQueue {
  import opened Common

  datatype Stats = Stats(pushed: nat, popped: nat, dropped: nat, discarded: nat, highWater: nat)

  datatype Queue<T> = Queue(items: seq<T>, stats: Stats, closed: bool, capacity: nat)

  function Max(a: nat, b: nat): nat { if a < b then b else a }

  function Empty<T>(capacity: nat): Queue<T> { Queue([], Stats(0, 0, 0, 0, 0), false, capacity) }

  function Push<T>(q: Queue<T>, x: T): Queue<T> {
    if q.closed then q
    else
      var all := q.items + [x];
      var over := |all| > q.capacity;
      var items := if over then all[1..] else all;
      q.(items := items,
         stats := q.stats.(pushed := q.stats.pushed + 1,
                           dropped := q.stats.dropped + (if over then 1 else 0),
                           highWater := Max(q.stats.highWater, |items|)))
  }

  function Front<T>(q: Queue<T>): Option<T> { if q.items == [] then None else Some(q.items[0]) }

  function Pop<T>(q: Queue<T>): Queue<T> {
    if q.items == [] then q
    else q.(items := q.items[1..], stats := q.stats.(popped := q.stats.popped + 1))
  }

  function Discard<T>(q: Queue<T>): Queue<T> {
    q.(items := [], stats := q.stats.(discarded := q.stats.discarded + |q.items|))
  }

  function Close<T>(q: Queue<T>): Queue<T> { q.(closed := true) }

  class Bounded<T> {
    const capacity: nat
    var items: seq<T>
    var stats: Stats
    var closed: bool

    ghost function View(): Queue<T>
      reads this
    {
      Queue(items, stats, closed, capacity)
    }

    // A zero capacity is rejected at construction.
    constructor (capacity: nat)
      requires capacity > 0
      ensures View() == Empty(capacity)
    {
      this.capacity := capacity;
      items, stats, closed := [], Stats(0, 0, 0, 0, 0), false;
    }

    method PushBack(x: T) returns (accepted: bool)
      modifies this
      ensures accepted == !old(closed) && View() == Push(old(View()), x)
    {
      if closed { return false; }
      items := items + [x];
      stats := stats.(pushed := stats.pushed + 1);
      if |items| > capacity {
        items := items[1..];
        stats := stats.(dropped := stats.dropped + 1);
      }
      stats := stats.(highWater := Max(stats.highWater, |items|));
      return true;
    }

    method TakeFront() returns (x: Option<T>)
      modifies this
      ensures x == Front(old(View())) && View() == Pop(old(View()))
    {
      if |items| == 0 { return None; }
      x := Some(items[0]);
      items := items[1..];
      stats := stats.(popped := stats.popped + 1);
    }

    method DiscardAll() returns (count: nat)
      modifies this
      ensures count == |old(items)| && View() == Discard(old(View()))
    {
      count := |items|;
      items := [];
      stats := stats.(discarded := stats.discarded + count);
    }

    method Shutdown()
      modifies this
      ensures View() == Close(old(View()))
    {
      closed := true;
    }

    method Reset()
      modifies this
      ensures View() == Empty(capacity)
    {
      items, stats, closed := [], Stats(0, 0, 0, 0, 0), false;
    }
  }

  // ----- every run between two resets -----

  datatype Op<T> = DoPush(x: T) | DoPop | DoDiscard | DoClose

  function Apply<T>(q: Queue<T>, op: Op<T>): Queue<T> {
    match op
    case DoPush(x) => Push(q, x)
    case DoPop => Pop(q)
    case DoDiscard => Discard(q)
    case DoClose => Close(q)
  }

  function Run<T>(q: Queue<T>, ops: seq<Op<T>>): Queue<T> {
    if ops == [] then q else Apply(Run(q, ops[..|ops| - 1]), ops[|ops| - 1])
  }

  /** The values the queue accepted, oldest first. */
  function Accepted<T>(q: Queue<T>, ops: seq<Op<T>>): seq<T> {
    if ops == [] then []
    else
      var n := |ops| - 1;
      Accepted(q, ops[..n])
      + (if ops[n].DoPush? && !Run(q, ops[..n]).closed then [ops[n].x] else [])
  }

  /**
   What each operation does to the values. A push to an open queue that is not full
   removes nothing; one to a full queue removes exactly the oldest value; a pop removes
   the oldest, a discard all, and nothing else changes the queue.
   */
  lemma OpEffect<T>(q: Queue<T>, op: Op<T>)
    requires q.capacity > 0 && |q.items| <= q.capacity
    ensures var t := Apply(q, op);
            match op
            case DoPush(x) =>
              && (q.closed ==> t == q)
              && (!q.closed && |q.items| < q.capacity ==> t.items == q.items + [x] && t.stats.dropped == q.stats.dropped)
              && (!q.closed && |q.items| == q.capacity ==>
                    [q.items[0]] + t.items == q.items + [x] && t.stats.dropped == q.stats.dropped + 1)
              && t.closed == q.closed
            case DoPop =>
              && (q.items == [] ==> t == q && Front(q) == None)
              && (q.items != [] ==> Front(q).Some? && [Front(q).value] + t.items == q.items
                                    && t.stats == q.stats.(popped := q.stats.popped + 1))
            case DoDiscard => t.items == [] && t.stats == q.stats.(discarded := q.stats.discarded + |q.items|)
            case DoClose => t.closed && t.items == q.items && t.stats == q.stats
  {}

  /** How many values the queue held, at first and after each operation. */
  function Sizes<T>(capacity: nat, ops: seq<Op<T>>): seq<nat> {
    if ops == [] then [0]
    else Sizes(capacity, ops[..|ops| - 1]) + [|Run(Empty(capacity), ops).items|]
  }

  /** The high-water mark is the largest number of values the queue has ever held. */
  lemma {:induction false} HighWaterIs<T>(capacity: nat, ops: seq<Op<T>>)
    ensures var high := Run(Empty(capacity), ops).stats.highWater;
            high in Sizes(capacity, ops) && forall size :: size in Sizes(capacity, ops) ==> size <= high
  {
    if ops != [] {
      var before := ops[..|ops| - 1];
      HighWaterIs(capacity, before);
      QueueRuns(capacity, before);
      HighWaterStep(Run(Empty(capacity), before), ops[|ops| - 1]);
    }
  }

  lemma HighWaterStep<T>(q: Queue<T>, op: Op<T>)
    requires |q.items| <= q.stats.highWater
    ensures Apply(q, op).stats.highWater == Max(q.stats.highWater, |Apply(q, op).items|)
  {}

  ghost predicate Conserved<T>(q: Queue<T>) {
    && q.stats.pushed == q.stats.popped + q.stats.dropped + q.stats.discarded + |q.items|
    && |q.items| <= q.stats.highWater <= q.capacity
  }

  /**
   Every accepted value is popped, dropped, discarded or still there, and what is
   still there is the newest accepted values in order, never more than the capacity.
   */
  lemma {:induction false} QueueRuns<T>(capacity: nat, ops: seq<Op<T>>)
    ensures var q := Run(Empty(capacity), ops);
            q.capacity == capacity && Holds(q, Accepted(Empty(capacity), ops))
  {
    if ops != [] {
      var n := |ops| - 1;
      QueueRuns(capacity, ops[..n]);
      StepHolds(Run(Empty(capacity), ops[..n]), Accepted(Empty(capacity), ops[..n]), ops[n]);
    }
  }

  ghost predicate Holds<T>(q: Queue<T>, accepted: seq<T>) {
    && Conserved(q) && q.stats.pushed == |accepted|
    && |q.items| <= |accepted| && q.items == accepted[|accepted| - |q.items|..]
  }

  lemma StepHolds<T>(q: Queue<T>, accepted: seq<T>, op: Op<T>)
    requires Holds(q, accepted)
    ensures Holds(Apply(q, op), accepted + (if op.DoPush? && !q.closed then [op.x] else []))
  {
    if op.DoPush? && !q.closed {
      assert q.items + [op.x] == (accepted + [op.x])[|accepted| - |q.items|..];
    } else {
      assert accepted + [] == accepted;
    }
  }
}
