/** The hub: a receiver that filters messages into the ring buffer and a flusher that
    drains it in batches and fans each batch out to the emitters by route. The two run
    concurrently; when the input channel closes, the receiver raises a flag and the
    flusher is to drain what is left and stop. */
module Hub {
  import opened Machine
  import opened Messages
  import opened BoundedQueue
  import RB = RingBuffers

  datatype Config = Config(capacity: nat, batchSize: nat, emitters: seq<string>)

  /** Where the flush loop stands; `FanOut` holds the drained batch and the next emitter. */
  datatype Flusher =
    | CheckFlag
    | CheckEmpty
    | Waiting
    | FanOut(batch: seq<Message>, next: nat)
    | Exited

  /** The buffer with its log, the flag, the flusher, and history: the batches fully fanned
      out, what each emitter was offered, and the number of drains. */
  datatype Sys = Sys(
    log: Log<Message>,
    shutdown: bool,
    flusher: Flusher,
    settled: seq<Message>,
    offers: seq<seq<Message>>,
    drains: nat)

  /** A message arrives and middleware lets something through or not; the channel closes; or
      the flusher takes its next step. What an emitter returns is only logged and counted,
      so a flusher step carries no result. */
  datatype Event = Arrive(passed: Option<Message>) | Close | Flush

  function Init(cfg: Config): Sys {
    Sys(Empty(), false, CheckFlag, [], seq(|cfg.emitters|, _ => []), 0)
  }

  function FlushStep(cfg: Config, s: Sys): Sys {
    match s.flusher
    case CheckFlag => s.(flusher := if s.shutdown then CheckEmpty else Waiting)
    case CheckEmpty => s.(flusher := if s.log.queue == [] then Exited else Waiting)
    case Waiting =>
      var batch := s.log.queue[..Min(cfg.batchSize, |s.log.queue|)];
      s.(log := Apply(cfg.capacity, s.log, Drain(cfg.batchSize)),
         flusher := if batch == [] then CheckFlag else FanOut(batch, 0),
         drains := s.drains + 1)
    case FanOut(batch, next) =>
      if next >= |cfg.emitters| || next >= |s.offers| then
        s.(flusher := CheckFlag, settled := s.settled + batch)
      else
        var routed := Routed(batch, cfg.emitters[next]);
        var moved := s.(flusher := FanOut(batch, next + 1));
        if routed == [] then moved
        else moved.(offers := s.offers[next := s.offers[next] + routed])
    case Exited => s
  }

  /** After the channel has closed nothing more arrives. */
  function Step(cfg: Config, s: Sys, e: Event): Sys {
    match e
    case Arrive(passed) =>
      if s.shutdown || passed.None? then s
      else s.(log := Apply(cfg.capacity, s.log, Push([passed.value])))
    case Close => s.(shutdown := true)
    case Flush => FlushStep(cfg, s)
  }

  function Exec(cfg: Config, s: Sys, events: seq<Event>): Sys
    decreases |events|
  {
    if events == [] then s else Exec(cfg, Step(cfg, s, events[0]), events[1..])
  }

  // -------------------------------------------------------------------- nothing is lost

  /** The items that left for one reason, in order. */
  function Select(left: seq<Message>, why: seq<How>, how: How): seq<Message>
    requires |left| == |why|
  {
    if left == [] then []
    else
      var n := |left| - 1;
      Select(left[..n], why[..n], how) + if why[n] == how then [left[n]] else []
  }

  lemma SelectSnoc(left: seq<Message>, why: seq<How>, m: Message, how: How, other: How)
    requires |left| == |why|
    ensures Select(left + [m], why + [how], other) == Select(left, why, other) + if how == other then [m] else []
  {
    assert (left + [m])[..|left|] == left && (why + [how])[..|left|] == why;
  }

  lemma {:induction false} SelectRepeat(left: seq<Message>, why: seq<How>, more: seq<Message>, how: How, other: How)
    requires |left| == |why|
    ensures
      Select(left + more, why + Repeat(how, |more|), other)
        == Select(left, why, other) + if how == other then more else []
    decreases |more|
  {
    if more == [] {
      assert left + more == left && why + Repeat(how, |more|) == why;
    } else {
      var n := |more| - 1;
      var front, last := more[..n], more[n];
      SelectRepeat(left, why, front, how, other);
      SelectSnoc(left + front, why + Repeat(how, n), last, how, other);
      assert more == front + [last] && Repeat(how, n + 1) == Repeat(how, n) + [how];
      Regroup(left, front, [last]);
      Regroup(why, Repeat(how, n), [how]);
      Regroup(Select(left, why, other), front, [last]);
    }
  }

  /** Everything drained so far, in order. */
  function Delivered(s: Sys): seq<Message> {
    if s.flusher.FanOut? then s.settled + s.flusher.batch else s.settled
  }

  /** What emitter `i` has had a chance to see. */
  function Seen(s: Sys, i: nat): seq<Message> {
    if s.flusher.FanOut? && i < s.flusher.next then s.settled + s.flusher.batch else s.settled
  }

  ghost predicate OffersOk(cfg: Config, s: Sys) {
    && |s.offers| == |cfg.emitters|
    && (s.flusher.FanOut? ==> s.flusher.next <= |cfg.emitters|)
    && forall i :: 0 <= i < |s.offers| ==> s.offers[i] == Routed(Seen(s, i), cfg.emitters[i])
  }

  ghost predicate BufferOk(cfg: Config, s: Sys) {
    && InOrder(cfg.capacity, s.log)
    && Delivered(s) == Select(s.log.left, s.log.why, Drained)
    && (s.flusher.Exited? ==> s.shutdown && s.log.queue == [])
    && (s.flusher.CheckEmpty? ==> s.shutdown)
  }

  lemma OfferKeepsOffers(cfg: Config, s: Sys)
    requires OffersOk(cfg, s) && s.flusher.FanOut? && s.flusher.next < |cfg.emitters|
    ensures OffersOk(cfg, FlushStep(cfg, s))
  {
    var t, next := FlushStep(cfg, s), s.flusher.next;
    RoutedAppend(s.settled, s.flusher.batch, cfg.emitters[next]);
    forall i | 0 <= i < |t.offers| ensures t.offers[i] == Routed(Seen(t, i), cfg.emitters[i]) {
      assert i != next ==> Seen(t, i) == Seen(s, i);
    }
  }

  lemma StepKeepsOffers(cfg: Config, s: Sys, e: Event)
    requires OffersOk(cfg, s)
    ensures OffersOk(cfg, Step(cfg, s, e))
  {
    if e.Flush? && s.flusher.FanOut? && s.flusher.next < |cfg.emitters| {
      OfferKeepsOffers(cfg, s);
    } else {
      var t := Step(cfg, s, e);
      assert forall i :: 0 <= i < |s.offers| ==> Seen(t, i) == Seen(s, i);
    }
  }

  lemma ArriveKeepsBuffer(cfg: Config, s: Sys, m: Message)
    requires BufferOk(cfg, s) && !s.shutdown
    ensures BufferOk(cfg, Step(cfg, s, Arrive(Some(m))))
  {
    ApplyKeepsOrder(cfg.capacity, s.log, Push([m]));
    SelectRepeat(s.log.left, s.log.why, PushAll(s.log.queue, cfg.capacity, [m]).evicted, Evicted, Drained);
  }

  lemma FlushKeepsBuffer(cfg: Config, s: Sys)
    requires BufferOk(cfg, s)
    ensures BufferOk(cfg, FlushStep(cfg, s))
  {
    if s.flusher.Waiting? {
      var k := Min(cfg.batchSize, |s.log.queue|);
      ApplyKeepsOrder(cfg.capacity, s.log, Drain(cfg.batchSize));
      SelectRepeat(s.log.left, s.log.why, s.log.queue[..k], Drained, Drained);
    }
  }

  lemma StepKeepsBuffer(cfg: Config, s: Sys, e: Event)
    requires BufferOk(cfg, s)
    ensures BufferOk(cfg, Step(cfg, s, e))
  {
    match e
    case Arrive(passed) =>
      if !s.shutdown && passed.Some? {
        ArriveKeepsBuffer(cfg, s, passed.value);
      }
    case Close =>
    case Flush => FlushKeepsBuffer(cfg, s);
  }

  lemma {:induction false} ExecKeeps(cfg: Config, s: Sys, events: seq<Event>)
    requires OffersOk(cfg, s) && BufferOk(cfg, s)
    ensures OffersOk(cfg, Exec(cfg, s, events)) && BufferOk(cfg, Exec(cfg, s, events))
    decreases |events|
  {
    if events != [] {
      StepKeepsOffers(cfg, s, events[0]);
      StepKeepsBuffer(cfg, s, events[0]);
      ExecKeeps(cfg, Step(cfg, s, events[0]), events[1..]);
    }
  }

  /** What middleware let through before the channel closed, in order. */
  function Passed(events: seq<Event>): seq<Message> {
    if events == [] || events[0].Close? then []
    else (if events[0].Arrive? && events[0].passed.Some? then [events[0].passed.value] else []) + Passed(events[1..])
  }

  lemma StepInputs(cfg: Config, s: Sys, e: Event)
    ensures
      var t := Step(cfg, s, e);
      && t.shutdown == (s.shutdown || e.Close?)
      && t.log.inputs == s.log.inputs +
           if e.Arrive? && e.passed.Some? && !s.shutdown then [e.passed.value] else []
  {
  }

  lemma {:induction false} InputsArePassed(cfg: Config, s: Sys, events: seq<Event>)
    ensures Exec(cfg, s, events).log.inputs == s.log.inputs + if s.shutdown then [] else Passed(events)
    decreases |events|
  {
    if events != [] {
      var e := events[0];
      StepInputs(cfg, s, e);
      InputsArePassed(cfg, Step(cfg, s, e), events[1..]);
      var now := if e.Arrive? && e.passed.Some? then [e.passed.value] else [];
      assert !s.shutdown && !e.Close? ==> Passed(events) == now + Passed(events[1..]);
      Regroup(s.log.inputs, now, Passed(events[1..]));
    }
  }

  /** In every interleaving of receiver and flusher, and whatever emitters return: the
      messages that passed middleware are, in order, those that left the buffer followed by
      those still in it, each leaving either evicted or drained; and each emitter has been
      offered exactly the drained messages routed to it, once each and in order, up to the
      batch being fanned out. */
  lemma EveryRunDelivers(cfg: Config, events: seq<Event>)
    ensures
      var s := Exec(cfg, Init(cfg), events);
      && s.log.left + s.log.queue == Passed(events)
      && |s.log.left| == |s.log.why|
      && Delivered(s) == Select(s.log.left, s.log.why, Drained)
      && |s.offers| == |cfg.emitters|
      && forall i :: 0 <= i < |s.offers| ==> s.offers[i] == Routed(Seen(s, i), cfg.emitters[i])
  {
    ExecKeeps(cfg, Init(cfg), events);
    InputsArePassed(cfg, Init(cfg), events);
  }

  /** In every run an arriving message joins the end of the buffer, and the oldest message is
      evicted exactly when the buffer holds as many as it has room for. */
  lemma ArrivalsEvictExactlyWhenFull(cfg: Config, events: seq<Event>, m: Message)
    requires !Exec(cfg, Init(cfg), events).shutdown
    ensures
      var s := Exec(cfg, Init(cfg), events);
      var t := Step(cfg, s, Arrive(Some(m)));
      if |s.log.queue| >= cfg.capacity && s.log.queue != []
      then t.log.queue == s.log.queue[1..] + [m] && t.log.left == s.log.left + [s.log.queue[0]]
      else t.log.queue == s.log.queue + [m] && t.log.left == s.log.left
  {
    var s := Exec(cfg, Init(cfg), events);
    PushSingle(s.log.queue, cfg.capacity, m);
    assert s.log.left + [] == s.log.left;
  }

  lemma {:induction false} SelectAll(left: seq<Message>, why: seq<How>, how: How)
    requires |left| == |why| && forall i :: 0 <= i < |why| ==> why[i] == how
    ensures Select(left, why, how) == left
  {
    if left != [] {
      SelectAll(left[..|left| - 1], why[..|left| - 1], how);
    }
  }

  lemma {:induction false} ExitIsFinal(cfg: Config, s: Sys, events: seq<Event>)
    requires s.flusher.Exited? && s.shutdown
    ensures Exec(cfg, s, events) == s
    decreases |events|
  {
    if events != [] {
      ExitIsFinal(cfg, s, events[1..]);
    }
  }

  /** Once the flush loop has exited, the buffer is empty and stays so whatever happens next,
      and every emitter has been offered everything drained that is routed to it; if nothing
      was evicted, that is everything that ever passed middleware. */
  lemma ExitedMeansDelivered(cfg: Config, events: seq<Event>, later: seq<Event>)
    requires Exec(cfg, Init(cfg), events).flusher.Exited?
    ensures
      var s := Exec(cfg, Init(cfg), events);
      && Exec(cfg, s, later) == s
      && s.log.queue == []
      && |s.offers| == |cfg.emitters|
      && (forall i :: 0 <= i < |s.offers| ==> s.offers[i] == Routed(s.settled, cfg.emitters[i]))
      && ((forall i :: 0 <= i < |s.log.why| ==> s.log.why[i] == Drained) ==> s.settled == Passed(events))
  {
    ExecKeeps(cfg, Init(cfg), events);
    InputsArePassed(cfg, Init(cfg), events);
    var s := Exec(cfg, Init(cfg), events);
    ExitIsFinal(cfg, s, later);
    if forall i :: 0 <= i < |s.log.why| ==> s.log.why[i] == Drained {
      SelectAll(s.log.left, s.log.why, Drained);
      assert s.log.left + [] == s.log.left;
    }
  }

  // ------------------------------------------------------------------- keeping up

  /** Nothing is waiting to be delivered. */
  predicate CaughtUp(s: Sys) { s.log.queue == [] && !s.flusher.FanOut? }

  /** Flusher steps until everything buffered has been delivered, if nothing more arrives. */
  function StepsBehind(cfg: Config, s: Sys): nat
    requires cfg.batchSize >= 1
  {
    Batches(|s.log.queue|, cfg.batchSize) * (|cfg.emitters| + 4) +
    match s.flusher
    case Exited => 0
    case Waiting => 0
    case CheckEmpty => 1
    case CheckFlag => 2
    case FanOut(_, next) => 3 + SaturatingSub(|cfg.emitters|, next)
  }

  lemma FlushCatchesUp(cfg: Config, s: Sys)
    requires cfg.batchSize >= 1 && OffersOk(cfg, s) && BufferOk(cfg, s)
    ensures
      var t := FlushStep(cfg, s);
      if CaughtUp(s) then CaughtUp(t) else StepsBehind(cfg, t) < StepsBehind(cfg, s)
  {
    if s.flusher.Waiting? && s.log.queue != [] {
      var w, t := |cfg.emitters| + 4, FlushStep(cfg, s);
      assert Batches(|s.log.queue|, cfg.batchSize) == Batches(|t.log.queue|, cfg.batchSize) + 1;
      TimesDistributes(Batches(|t.log.queue|, cfg.batchSize), 1, w);
    }
  }

  lemma {:induction false} FlushesCatchUp(cfg: Config, s: Sys, n: nat)
    requires cfg.batchSize >= 1 && OffersOk(cfg, s) && BufferOk(cfg, s)
    requires CaughtUp(s) || StepsBehind(cfg, s) <= n
    ensures CaughtUp(Exec(cfg, s, FlushTimes(n)))
    decreases n
  {
    if n > 0 {
      FlushCatchesUp(cfg, s);
      StepKeepsOffers(cfg, s, Flush);
      StepKeepsBuffer(cfg, s, Flush);
      assert FlushTimes(n)[1..] == FlushTimes(n - 1);
      FlushesCatchUp(cfg, FlushStep(cfg, s), n - 1);
    } else if !CaughtUp(s) {
      FlushCatchesUp(cfg, s);
    }
  }

  /** Before or after shutdown: from any reachable state, once the flusher has taken enough
      steps without a new arrival, the buffer is empty and every emitter has been offered all
      drained messages routed to it. */
  lemma FlusherCatchesUp(cfg: Config, events: seq<Event>, n: nat)
    requires cfg.batchSize >= 1 && StepsBehind(cfg, Exec(cfg, Init(cfg), events)) <= n
    ensures
      var t := Exec(cfg, Exec(cfg, Init(cfg), events), FlushTimes(n));
      && t.log.queue == []
      && |t.log.left| == |t.log.why| && |t.offers| == |cfg.emitters|
      && forall i :: 0 <= i < |t.offers| ==>
           t.offers[i] == Routed(Select(t.log.left, t.log.why, Drained), cfg.emitters[i])
  {
    ExecKeeps(cfg, Init(cfg), events);
    var s := Exec(cfg, Init(cfg), events);
    FlushesCatchUp(cfg, s, n);
    ExecKeeps(cfg, s, FlushTimes(n));
  }

  // --------------------------------------------------------------------------- shutdown

  /** The flush loop can empty the buffer at all. */
  predicate CanDrain(cfg: Config, s: Sys) { cfg.batchSize >= 1 || s.log.queue == [] }

  function Batches(n: nat, size: nat): nat
    requires size >= 1 || n == 0
  {
    if n == 0 then 0 else 1 + Batches(n - Min(n, size), size)
  }

  /** Drains the flusher may still perform once the flag is up. */
  function DrainsLeft(cfg: Config, s: Sys): nat
    requires CanDrain(cfg, s)
  {
    Batches(|s.log.queue|, cfg.batchSize) + if s.flusher.Waiting? && s.log.queue == [] then 1 else 0
  }

  function Rank(cfg: Config, f: Flusher): nat {
    match f
    case Exited => 0
    case Waiting => 1
    case CheckEmpty => 2
    case CheckFlag => 3
    case FanOut(_, next) => 4 + SaturatingSub(|cfg.emitters|, next)
  }

  /** Flusher steps until exit, at most. */
  function StepsLeft(cfg: Config, s: Sys): nat
    requires CanDrain(cfg, s)
  {
    DrainsLeft(cfg, s) * (|cfg.emitters| + 4) + Rank(cfg, s.flusher)
  }

  lemma StepAfterShutdown(cfg: Config, s: Sys, e: Event)
    requires s.shutdown && CanDrain(cfg, s) && OffersOk(cfg, s) && BufferOk(cfg, s)
    ensures
      var t := Step(cfg, s, e);
      && t.shutdown && CanDrain(cfg, t)
      && t.drains + DrainsLeft(cfg, t) <= s.drains + DrainsLeft(cfg, s)
      && StepsLeft(cfg, t) <= StepsLeft(cfg, s)
      && (e.Flush? && !s.flusher.Exited? ==> StepsLeft(cfg, t) < StepsLeft(cfg, s))
  {
    var t := Step(cfg, s, e);
    if e.Flush? && s.flusher.Waiting? {
      var w := |cfg.emitters| + 4;
      assert DrainsLeft(cfg, s) == DrainsLeft(cfg, t) + 1;
      assert DrainsLeft(cfg, s) * w == DrainsLeft(cfg, t) * w + w;
    }
  }

  /** Flusher steps in an event list. */
  function Flushes(events: seq<Event>): nat {
    if events == [] then 0 else (if events[0].Flush? then 1 else 0) + Flushes(events[1..])
  }

  lemma {:induction false} ExecAfterShutdown(cfg: Config, s: Sys, events: seq<Event>)
    requires s.shutdown && CanDrain(cfg, s) && OffersOk(cfg, s) && BufferOk(cfg, s)
    ensures
      var t := Exec(cfg, s, events);
      && CanDrain(cfg, t)
      && t.drains + DrainsLeft(cfg, t) <= s.drains + DrainsLeft(cfg, s)
      && (t.flusher.Exited? || StepsLeft(cfg, t) + Flushes(events) <= StepsLeft(cfg, s))
    decreases |events|
  {
    if events != [] {
      var t := Step(cfg, s, events[0]);
      StepAfterShutdown(cfg, s, events[0]);
      StepKeepsOffers(cfg, s, events[0]);
      StepKeepsBuffer(cfg, s, events[0]);
      ExecAfterShutdown(cfg, t, events[1..]);
      if s.flusher.Exited? {
        ExitIsFinal(cfg, s, events);
      }
    }
  }

  /** The state right after the flag is raised, somewhere in a run. */
  function Closed(cfg: Config, events: seq<Event>): Sys { Step(cfg, Exec(cfg, Init(cfg), events), Close) }

  lemma ClosedFacts(cfg: Config, events: seq<Event>)
    ensures
      var s := Closed(cfg, events);
      s.shutdown && OffersOk(cfg, s) && BufferOk(cfg, s)
  {
    ExecKeeps(cfg, Init(cfg), events);
    var r := Exec(cfg, Init(cfg), events);
    StepKeepsOffers(cfg, r, Close);
    StepKeepsBuffer(cfg, r, Close);
  }

  lemma RunningHasStepsLeft(cfg: Config, s: Sys)
    requires CanDrain(cfg, s) && !s.flusher.Exited?
    ensures StepsLeft(cfg, s) >= 1
  {
    assert Rank(cfg, s.flusher) >= 1;
    assert DrainsLeft(cfg, s) * (|cfg.emitters| + 4) >= 0;
  }

  lemma EnoughFlushesExit(cfg: Config, s: Sys, events: seq<Event>)
    requires s.shutdown && CanDrain(cfg, s) && OffersOk(cfg, s) && BufferOk(cfg, s)
    requires Flushes(events) >= StepsLeft(cfg, s)
    ensures Exec(cfg, s, events).flusher.Exited?
  {
    ExecAfterShutdown(cfg, s, events);
    var t := Exec(cfg, s, events);
    if !t.flusher.Exited? {
      RunningHasStepsLeft(cfg, t);
    }
  }

  /** Raise the flag in any reachable state with L messages buffered and a batch size of at
      least one: every continuation performs at most max(1, ceil(L / batchSize)) more
      drains, and once the flusher has taken enough steps it has exited. */
  lemma ShutdownDrainsAndExits(cfg: Config, events: seq<Event>, later: seq<Event>)
    requires cfg.batchSize >= 1
    ensures
      var s := Closed(cfg, events);
      var t := Exec(cfg, s, later);
      && t.drains <= s.drains + Max(1, (|s.log.queue| + cfg.batchSize - 1) / cfg.batchSize)
      && (Flushes(later) >= StepsLeft(cfg, s) ==> t.flusher.Exited?)
  {
    var s := Closed(cfg, events);
    ClosedFacts(cfg, events);
    ExecAfterShutdown(cfg, s, later);
    BatchesIsCeiling(|s.log.queue|, cfg.batchSize);
    if Flushes(later) >= StepsLeft(cfg, s) {
      EnoughFlushesExit(cfg, s, later);
    }
  }

  lemma {:induction false} BatchesIsCeiling(n: nat, size: nat)
    requires size >= 1
    ensures Batches(n, size) == (n + size - 1) / size
  {
    if n == 0 {
      QuotientIsUnique(size - 1, 0, size);
    } else if n <= size {
      QuotientIsUnique(n + size - 1, 1, size);
    } else {
      BatchesIsCeiling(n - size, size);
      AddMultiple(n - size + size - 1, 1, size);
    }
  }

  lemma {:induction false} StuckWithoutBatches(cfg: Config, s: Sys, events: seq<Event>)
    requires cfg.batchSize == 0 && s.shutdown && s.log.queue != [] && !s.flusher.Exited?
    ensures !Exec(cfg, s, events).flusher.Exited?
    decreases |events|
  {
    if events != [] {
      StuckWithoutBatches(cfg, Step(cfg, s, events[0]), events[1..]);
    }
  }

  function FlushTimes(n: nat): seq<Event> { seq(n, _ => Flush) }

  lemma {:induction false} CountFlushTimes(n: nat)
    ensures Flushes(FlushTimes(n)) == n
  {
    if n > 0 {
      assert FlushTimes(n)[1..] == FlushTimes(n - 1);
      CountFlushTimes(n - 1);
    }
  }

  /** After the flag is raised the flush loop can reach its exit if and only if the batch
      size is at least one or the buffer was already empty; otherwise it never does. */
  lemma ExitsExactlyWhen(cfg: Config, events: seq<Event>)
    ensures
      var s := Closed(cfg, events);
      (cfg.batchSize >= 1 || s.log.queue == []) <==>
      exists later: seq<Event> :: Exec(cfg, s, later).flusher.Exited?
  {
    var s := Closed(cfg, events);
    ClosedFacts(cfg, events);
    if CanDrain(cfg, s) {
      var later := FlushTimes(StepsLeft(cfg, s));
      CountFlushTimes(StepsLeft(cfg, s));
      EnoughFlushesExit(cfg, s, later);
    } else {
      forall later: seq<Event> ensures !Exec(cfg, s, later).flusher.Exited? {
        StuckWithoutBatches(cfg, s, later);
      }
    }
  }

  // ------------------------------------------------------------- one flush, imperatively

  method SelectRouted(events: seq<Message>, name: string) returns (routed: seq<Message>)
    ensures routed == Routed(events, name)
  {
    routed := [];
    for i := 0 to |events|
      invariant routed == Routed(events[..i], name)
    {
      RoutedSnoc(events[..i], events[i], name);
      assert events[..i] + [events[i]] == events[..i + 1];
      if ShouldRouteTo(events[i], name) {
        routed := routed + [events[i]];
      }
    }
    assert events[..|events|] == events;
  }

  /** Messages offered to emitters that refused them. */
  function Undelivered(batch: seq<Message>, emitters: seq<string>, accepts: seq<bool>): nat
    requires |accepts| == |emitters|
  {
    if emitters == [] then 0
    else
      var n := |emitters| - 1;
      Undelivered(batch, emitters[..n], accepts[..n]) + if accepts[n] then 0 else |Routed(batch, emitters[n])|
  }

  /** Offer each emitter its routed part of a batch, `accepts` saying what each returns; a
      refusal stops nobody else. */
  method OfferBatch(batch: seq<Message>, emitters: seq<string>, accepts: seq<bool>)
    returns (offered: seq<seq<Message>>, undelivered: nat)
    requires |accepts| == |emitters|
    ensures |offered| == |emitters|
    ensures forall i :: 0 <= i < |emitters| ==> offered[i] == Routed(batch, emitters[i])
    ensures undelivered == Undelivered(batch, emitters, accepts)
  {
    offered, undelivered := [], 0;
    for i := 0 to |emitters|
      invariant |offered| == i
      invariant forall j :: 0 <= j < i ==> offered[j] == Routed(batch, emitters[j])
      invariant undelivered == Undelivered(batch, emitters[..i], accepts[..i])
    {
      assert emitters[..i + 1][..i] == emitters[..i] && accepts[..i + 1][..i] == accepts[..i];
      var routed := SelectRouted(batch, emitters[i]);
      offered := offered + [routed];
      if routed != [] && !accepts[i] {
        undelivered := undelivered + |routed|;
      }
    }
    assert emitters[..|emitters|] == emitters && accepts[..|emitters|] == accepts;
  }

  /** One turn of the flush loop over the real buffer: drain a batch and fan it out. */
  method FlushOnce(buffer: RB.RingBuffer<Message>, batchSize: nat, emitters: seq<string>, accepts: seq<bool>)
    returns (batch: seq<Message>, offered: seq<seq<Message>>, undelivered: nat)
    requires buffer.Valid() && |accepts| == |emitters|
    modifies buffer
    ensures buffer.Valid()
    ensures buffer.log == Apply(buffer.capacity, old(buffer.log), Drain(batchSize))
    ensures batch + buffer.messages == old(buffer.messages) && |batch| == Min(batchSize, |old(buffer.messages)|)
    ensures |offered| == |emitters|
    ensures forall i :: 0 <= i < |emitters| ==> offered[i] == Routed(batch, emitters[i])
    ensures undelivered == Undelivered(batch, emitters, accepts)
  {
    batch := buffer.Drain(batchSize);
    offered, undelivered := OfferBatch(batch, emitters, accepts);
  }
}
