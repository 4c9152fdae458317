/** Bounded queues that evict the oldest element: the hub's ring buffer and the failure
    buffer share this discipline and differ only in their counters. */
module BoundedQueue {
  import opened Machine

  /** The result of pushing: the queue, what really left it, and what was counted as dropped. */
  datatype Pushed<T> = Pushed(queue: seq<T>, evicted: seq<T>, dropped: nat)

  /** One turn of the push loop. With capacity zero it counts a drop even when there is
      nothing to evict, and still keeps the new element. */
  function PushOne<T>(queue: seq<T>, capacity: nat, x: T): Pushed<T> {
    if |queue| >= capacity then
      if queue == [] then Pushed([x], [], 1) else Pushed(queue[1..] + [x], [queue[0]], 1)
    else Pushed(queue + [x], [], 0)
  }

  function PushAll<T>(queue: seq<T>, capacity: nat, xs: seq<T>): Pushed<T>
    decreases |xs|
  {
    if xs == [] then Pushed(queue, [], 0)
    else
      var one := PushOne(queue, capacity, xs[0]);
      var rest := PushAll(one.queue, capacity, xs[1..]);
      Pushed(rest.queue, one.evicted + rest.evicted, one.dropped + rest.dropped)
  }

  /** The most elements a queue of this capacity ever holds. */
  function Room(capacity: nat): nat { Max(1, capacity) }

  /** Drops counted without an eviction: the first push into an empty queue of capacity zero. */
  function Phantoms<T>(queue: seq<T>, capacity: nat, xs: seq<T>): nat {
    if capacity == 0 && queue == [] && xs != [] then 1 else 0
  }

  lemma PushOneKeepsOrder<T>(queue: seq<T>, capacity: nat, x: T)
    ensures PushOne(queue, capacity, x).evicted + PushOne(queue, capacity, x).queue == queue + [x]
  {
  }

  lemma {:induction false} PushKeepsOrder<T>(queue: seq<T>, capacity: nat, xs: seq<T>)
    ensures PushAll(queue, capacity, xs).evicted + PushAll(queue, capacity, xs).queue == queue + xs
    decreases |xs|
  {
    if xs != [] {
      var one := PushOne(queue, capacity, xs[0]);
      var rest := PushAll(one.queue, capacity, xs[1..]);
      PushOneKeepsOrder(queue, capacity, xs[0]);
      PushKeepsOrder(one.queue, capacity, xs[1..]);
      Regroup(one.evicted, rest.evicted, rest.queue);
      Regroup(one.evicted, one.queue, xs[1..]);
      Regroup(queue, [xs[0]], xs[1..]);
      assert [xs[0]] + xs[1..] == xs;
    }
  }

  lemma {:induction false} PushSizes<T>(queue: seq<T>, capacity: nat, xs: seq<T>)
    requires |queue| <= Room(capacity)
    ensures
      var p := PushAll(queue, capacity, xs);
      && |p.queue| == (if xs == [] then |queue| else Min(|queue| + |xs|, Room(capacity)))
      && p.dropped == |p.evicted| + Phantoms(queue, capacity, xs)
    decreases |xs|
  {
    if xs != [] {
      PushSizes(PushOne(queue, capacity, xs[0]).queue, capacity, xs[1..]);
    }
  }

  /** Pushing keeps exactly the newest elements that fit, evicts the rest in order, and
      counts the evictions plus the phantom drop of capacity zero. */
  lemma PushKeepsTheNewest<T>(queue: seq<T>, capacity: nat, xs: seq<T>)
    requires |queue| <= Room(capacity)
    ensures
      var p := PushAll(queue, capacity, xs);
      && p.evicted + p.queue == queue + xs
      && |p.queue| == (if xs == [] then |queue| else Min(|queue| + |xs|, Room(capacity)))
      && p.dropped == |p.evicted| + Phantoms(queue, capacity, xs)
  {
    PushKeepsOrder(queue, capacity, xs);
    PushSizes(queue, capacity, xs);
  }

  /** Pushing a batch is pushing its parts one after the other. */
  lemma {:induction false} PushInParts<T>(queue: seq<T>, capacity: nat, xs: seq<T>, ys: seq<T>)
    ensures
      var a := PushAll(queue, capacity, xs);
      var b := PushAll(a.queue, capacity, ys);
      PushAll(queue, capacity, xs + ys) == Pushed(b.queue, a.evicted + b.evicted, a.dropped + b.dropped)
    decreases |xs|
  {
    if xs == [] {
      assert xs + ys == ys;
    } else {
      var one := PushOne(queue, capacity, xs[0]);
      var a := PushAll(one.queue, capacity, xs[1..]);
      assert (xs + ys)[1..] == xs[1..] + ys;
      PushInParts(one.queue, capacity, xs[1..], ys);
      Regroup(one.evicted, a.evicted, PushAll(a.queue, capacity, ys).evicted);
    }
  }

  lemma PushSingle<T>(queue: seq<T>, capacity: nat, x: T)
    ensures PushAll(queue, capacity, [x]) == PushOne(queue, capacity, x)
  {
  }

  // ------------------------------------------------------------------------ whole runs

  datatype Op<T> = Push(xs: seq<T>) | Drain(n: nat) | Clear

  datatype How = Evicted | Drained | Cleared

  /** The queue, the three running counters, and history: everything pushed, everything
      that left and why, the phantom drops, and the occupancy found by each push. */
  datatype Log<T> = Log(
    queue: seq<T>,
    pushed: nat,
    dropped: nat,
    drained: nat,
    inputs: seq<T>,
    left: seq<T>,
    why: seq<How>,
    phantoms: nat,
    occupancy: nat)

  function Empty<T>(): Log<T> { Log([], 0, 0, 0, [], [], [], 0, 0) }

  function Repeat(how: How, n: nat): seq<How> { seq(n, _ => how) }

  function Apply<T>(capacity: nat, log: Log<T>, op: Op<T>): Log<T> {
    match op
    case Push(xs) =>
      var p := PushAll(log.queue, capacity, xs);
      log.(
        queue := p.queue,
        pushed := log.pushed + |p.queue| + p.dropped,
        dropped := log.dropped + p.dropped,
        inputs := log.inputs + xs,
        left := log.left + p.evicted,
        why := log.why + Repeat(Evicted, |p.evicted|),
        phantoms := log.phantoms + Phantoms(log.queue, capacity, xs),
        occupancy := log.occupancy + |log.queue|)
    case Drain(n) =>
      var k := Min(n, |log.queue|);
      log.(
        queue := log.queue[k..],
        drained := log.drained + k,
        left := log.left + log.queue[..k],
        why := log.why + Repeat(Drained, k))
    case Clear =>
      log.(queue := [], left := log.left + log.queue, why := log.why + Repeat(Cleared, |log.queue|))
  }

  function Run<T>(capacity: nat, log: Log<T>, ops: seq<Op<T>>): Log<T>
    decreases |ops|
  {
    if ops == [] then log else Run(capacity, Apply(capacity, log, ops[0]), ops[1..])
  }

  function Count(why: seq<How>, how: How): nat {
    if why == [] then 0
    else Count(why[..|why| - 1], how) + if why[|why| - 1] == how then 1 else 0
  }

  lemma {:induction false} CountRepeat(why: seq<How>, how: How, n: nat, other: How)
    ensures Count(why + Repeat(how, n), other) == Count(why, other) + if how == other then n else 0
    decreases n
  {
    var more := why + Repeat(how, n);
    if n == 0 {
      assert more == why;
    } else {
      assert more[..|more| - 1] == why + Repeat(how, n - 1);
      CountRepeat(why, how, n - 1, other);
    }
  }

  lemma {:induction false} CountAll(why: seq<How>)
    ensures Count(why, Evicted) + Count(why, Drained) + Count(why, Cleared) == |why|
  {
    if why != [] {
      CountAll(why[..|why| - 1]);
    }
  }

  /** The contents: what left followed by what is held is what came in. */
  ghost predicate InOrder<T(!new)>(capacity: nat, log: Log<T>) {
    && log.left + log.queue == log.inputs
    && |log.left| == |log.why|
    && |log.queue| <= Room(capacity)
  }

  /** The counters. */
  ghost predicate Counted<T(!new)>(capacity: nat, log: Log<T>) {
    && log.dropped == Count(log.why, Evicted) + log.phantoms
    && log.drained == Count(log.why, Drained)
    && log.pushed == |log.inputs| + log.occupancy + log.phantoms
    && (log.phantoms > 0 <==> capacity == 0 && log.inputs != [])
  }

  lemma ApplyKeepsOrder<T(!new)>(capacity: nat, log: Log<T>, op: Op<T>)
    requires InOrder(capacity, log)
    ensures InOrder(capacity, Apply(capacity, log, op))
  {
    match op
    case Push(xs) =>
      var p := PushAll(log.queue, capacity, xs);
      PushKeepsTheNewest(log.queue, capacity, xs);
      assert log.left + p.evicted + p.queue == log.left + (log.queue + xs);
      assert log.left + (log.queue + xs) == log.inputs + xs;
    case Drain(n) =>
      var k := Min(n, |log.queue|);
      assert log.left + log.queue[..k] + log.queue[k..] == log.left + log.queue;
    case Clear =>
  }

  lemma PushKeepsCounts<T(!new)>(capacity: nat, log: Log<T>, xs: seq<T>)
    requires InOrder(capacity, log) && Counted(capacity, log)
    ensures Counted(capacity, Apply(capacity, log, Push(xs)))
  {
    var p := PushAll(log.queue, capacity, xs);
    PushKeepsTheNewest(log.queue, capacity, xs);
    assert |p.evicted + p.queue| == |log.queue| + |xs|;
    CountRepeat(log.why, Evicted, |p.evicted|, Evicted);
    CountRepeat(log.why, Evicted, |p.evicted|, Drained);
  }

  lemma ApplyKeepsCounts<T(!new)>(capacity: nat, log: Log<T>, op: Op<T>)
    requires InOrder(capacity, log) && Counted(capacity, log)
    ensures Counted(capacity, Apply(capacity, log, op))
  {
    match op
    case Push(xs) => PushKeepsCounts(capacity, log, xs);
    case Drain(n) =>
      CountRepeat(log.why, Drained, Min(n, |log.queue|), Evicted);
      CountRepeat(log.why, Drained, Min(n, |log.queue|), Drained);
    case Clear =>
      CountRepeat(log.why, Cleared, |log.queue|, Evicted);
      CountRepeat(log.why, Cleared, |log.queue|, Drained);
  }

  lemma {:induction false} RunKeeps<T(!new)>(capacity: nat, log: Log<T>, ops: seq<Op<T>>)
    requires InOrder(capacity, log) && Counted(capacity, log)
    ensures InOrder(capacity, Run(capacity, log, ops)) && Counted(capacity, Run(capacity, log, ops))
    decreases |ops|
  {
    if ops != [] {
      ApplyKeepsOrder(capacity, log, ops[0]);
      ApplyKeepsCounts(capacity, log, ops[0]);
      RunKeeps(capacity, Apply(capacity, log, ops[0]), ops[1..]);
    }
  }

  /** Everything the operations push, in order. */
  function Inputs<T>(ops: seq<Op<T>>): seq<T> {
    if ops == [] then [] else (if ops[0].Push? then ops[0].xs else []) + Inputs(ops[1..])
  }

  function QueueAfter<T>(capacity: nat, queue: seq<T>, op: Op<T>): seq<T> {
    match op
    case Push(xs) => PushAll(queue, capacity, xs).queue
    case Drain(n) => queue[Min(n, |queue|)..]
    case Clear => []
  }

  /** The occupancies found by the pushes, added up. */
  function Occupancy<T>(capacity: nat, queue: seq<T>, ops: seq<Op<T>>): nat
    decreases |ops|
  {
    if ops == [] then 0
    else (if ops[0].Push? then |queue| else 0) + Occupancy(capacity, QueueAfter(capacity, queue, ops[0]), ops[1..])
  }

  /** The drops counted although nothing was there to drop. */
  function PhantomDrops<T>(capacity: nat, queue: seq<T>, ops: seq<Op<T>>): nat
    decreases |ops|
  {
    if ops == [] then 0
    else
      (if ops[0].Push? then Phantoms(queue, capacity, ops[0].xs) else 0)
        + PhantomDrops(capacity, QueueAfter(capacity, queue, ops[0]), ops[1..])
  }

  /** The history fields are what the operations make them. */
  lemma {:induction false} RunRemembers<T>(capacity: nat, log: Log<T>, ops: seq<Op<T>>)
    ensures
      var r := Run(capacity, log, ops);
      && r.inputs == log.inputs + Inputs(ops)
      && r.occupancy == log.occupancy + Occupancy(capacity, log.queue, ops)
      && r.phantoms == log.phantoms + PhantomDrops(capacity, log.queue, ops)
    decreases |ops|
  {
    if ops == [] {
      assert log.inputs + [] == log.inputs;
    } else {
      var next := Apply(capacity, log, ops[0]);
      RunRemembers(capacity, next, ops[1..]);
      assert next.queue == QueueAfter(capacity, log.queue, ops[0]);
      assert next.inputs == log.inputs + if ops[0].Push? then ops[0].xs else [];
      Regroup(log.inputs, if ops[0].Push? then ops[0].xs else [], Inputs(ops[1..]));
    }
  }

  /** Over any sequence of pushes, drains and clears, for every capacity: what has left, in
      order, followed by what is held is exactly what the operations pushed; the queue never
      holds more than its room; `drained` is exact; `dropped` is the evictions plus the
      phantom drops; and `pushed` exceeds the inputs by the occupancies the pushes found and
      the phantom drops. */
  lemma NothingIsLostOrReordered<T(!new)>(capacity: nat, ops: seq<Op<T>>)
    ensures
      var log := Run(capacity, Empty(), ops);
      && log.left + log.queue == Inputs(ops)
      && |log.left| == |log.why| && |log.queue| <= Room(capacity)
      && log.drained == Count(log.why, Drained)
      && log.dropped == Count(log.why, Evicted) + PhantomDrops(capacity, [], ops)
      && log.pushed == |Inputs(ops)| + Occupancy(capacity, [], ops) + PhantomDrops(capacity, [], ops)
  {
    RunKeeps(capacity, Empty(), ops);
    RunRemembers(capacity, Empty(), ops);
  }

  lemma BalanceExactlyWhen<T(!new)>(capacity: nat, log: Log<T>)
    requires InOrder(capacity, log) && Counted(capacity, log)
    ensures
      (log.dropped + log.drained + Count(log.why, Cleared) + |log.queue| == |log.inputs|) <==>
      (capacity >= 1 || log.inputs == [])
  {
    CountAll(log.why);
    assert |log.left| + |log.queue| == |log.inputs|;
  }

  /** The counters balance, dropped plus drained plus cleared plus held equal to pushed in,
      if and only if the capacity is at least one or nothing was ever pushed. */
  lemma CountersBalanceExactlyWhen<T(!new)>(capacity: nat, ops: seq<Op<T>>)
    ensures
      var log := Run(capacity, Empty(), ops);
      (log.dropped + log.drained + Count(log.why, Cleared) + |log.queue| == |Inputs(ops)|) <==>
      (capacity >= 1 || Inputs(ops) == [])
  {
    RunKeeps(capacity, Empty(), ops);
    RunRemembers(capacity, Empty(), ops);
    BalanceExactlyWhen(capacity, Run(capacity, Empty(), ops));
  }
}

/** The hub's ring buffer. */
module RingBuffers {
  import opened Machine
  import opened BoundedQueue

  class RingBuffer<T> {
    const capacity: nat
    var messages: seq<T>
    var pushed: nat
    var dropped: nat
    var drained: nat
    /** Everything done to the buffer since it was made. */
    ghost var log: Log<T>

    ghost predicate Valid()
      reads this
    {
      messages == log.queue && pushed == log.pushed && dropped == log.dropped && drained == log.drained
    }

    constructor (capacity: nat)
      ensures Valid() && this.capacity == capacity && log == Empty()
    {
      this.capacity := capacity;
      messages, pushed, dropped, drained := [], 0, 0, 0;
      log := Empty();
    }

    method Push(batch: seq<T>) returns (lost: nat)
      requires Valid()
      modifies this
      ensures Valid() && log == Apply(capacity, old(log), BoundedQueue.Push(batch))
      ensures lost == dropped - old(dropped)
    {
      lost := 0;
      ghost var evicted: seq<T> := [];
      for i := 0 to |batch|
        invariant PushAll(log.queue, capacity, batch[..i]) == Pushed(messages, evicted, lost)
        invariant log == old(log) && pushed == log.pushed && dropped == log.dropped && drained == log.drained
      {
        PushInParts(log.queue, capacity, batch[..i], [batch[i]]);
        PushSingle(messages, capacity, batch[i]);
        assert batch[..i] + [batch[i]] == batch[..i + 1];
        if |messages| >= capacity {
          if messages != [] {
            evicted := evicted + [messages[0]];
            messages := messages[1..];
          }
          lost := lost + 1;
        }
        messages := messages + [batch[i]];
      }
      assert batch[..|batch|] == batch;
      pushed := pushed + |messages| + lost;
      dropped := dropped + lost;
      log := Apply(capacity, log, BoundedQueue.Push(batch));
    }

    method Drain(n: nat) returns (batch: seq<T>)
      requires Valid()
      modifies this
      ensures Valid() && log == Apply(capacity, old(log), BoundedQueue.Drain(n))
      ensures batch + messages == old(messages) && |batch| == Min(n, |old(messages)|)
    {
      var count := Min(n, |messages|);
      batch := messages[..count];
      messages := messages[count..];
      drained := drained + |batch|;
      log := Apply(capacity, log, BoundedQueue.Drain(n));
    }
  }
}

/** The buffer of failed events kept for inspection. */
module FailureBuffers {
  import opened Machine
  import opened BoundedQueue

  class FailureBuffer<T> {
    const capacity: nat
    var events: seq<T>
    var totalCaptured: nat
    var totalDropped: nat
    /** Everything done to the buffer since it was made. */
    ghost var log: Log<T>

    ghost predicate Valid()
      reads this
    {
      events == log.queue && totalCaptured == |log.inputs| && totalDropped == log.dropped
    }

    constructor (capacity: nat)
      ensures Valid() && this.capacity == capacity && log == Empty()
    {
      this.capacity := capacity;
      events, totalCaptured, totalDropped := [], 0, 0;
      log := Empty();
    }

    method Push(batch: seq<T>)
      requires Valid()
      modifies this
      ensures Valid() && log == Apply(capacity, old(log), BoundedQueue.Push(batch))
    {
      var lost := 0;
      ghost var evicted: seq<T> := [];
      for i := 0 to |batch|
        invariant PushAll(log.queue, capacity, batch[..i]) == Pushed(events, evicted, lost)
        invariant log == old(log) && totalCaptured == |log.inputs| && totalDropped == log.dropped
      {
        PushInParts(log.queue, capacity, batch[..i], [batch[i]]);
        PushSingle(events, capacity, batch[i]);
        assert batch[..i] + [batch[i]] == batch[..i + 1];
        if |events| >= capacity {
          if events != [] {
            evicted := evicted + [events[0]];
            events := events[1..];
          }
          lost := lost + 1;
        }
        events := events + [batch[i]];
      }
      assert batch[..|batch|] == batch;
      totalCaptured := totalCaptured + |batch|;
      if lost > 0 {
        totalDropped := totalDropped + lost;
      }
      log := Apply(capacity, log, BoundedQueue.Push(batch));
    }

    method Drain(n: nat) returns (batch: seq<T>)
      requires Valid()
      modifies this
      ensures Valid() && log == Apply(capacity, old(log), BoundedQueue.Drain(n))
      ensures batch + events == old(events) && |batch| == Min(n, |old(events)|)
    {
      var count := Min(n, |events|);
      batch := events[..count];
      events := events[count..];
      log := Apply(capacity, log, BoundedQueue.Drain(n));
    }

    method Clear()
      requires Valid()
      modifies this
      ensures Valid() && log == Apply(capacity, old(log), BoundedQueue.Clear)
    {
      events := [];
      log := Apply(capacity, log, BoundedQueue.Clear);
    }
  }
}
