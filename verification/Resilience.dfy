/** The resilience stack: failure capture over circuit breaker over retry over an emitter,
    as the builder composes them, each wrapper optional. */
module Resilience {
  import opened Machine
  import opened Messages
  import opened Retrying
  import opened BoundedQueue
  import CB = CircuitBreaker
  import FB = FailureBuffers

  /** `bufferCapacity` is that of the shared failure buffer handed to the builder; the
      capacity field of the capture configuration itself is never read. */
  datatype CaptureConfig = CaptureConfig(bufferCapacity: nat, storeFullBatch: bool)

  /** A captured event: with sampling, `batchSize` is the size of the batch it stands for. */
  datatype FailedEvent = FailedEvent(event: Message, error: Error, emitterName: string, batchSize: nat)

  /** An emitter and its wrappers, each carrying its own state. */
  datatype Emitter =
    | Raw(name: string)
    | Retry(inner: Emitter, backoff: Backoff, retries: nat, recovered: nat)
    | Breaker(inner: Emitter, config: CB.Config, breaker: CB.Breaker)
    | Capture(inner: Emitter, capture: CaptureConfig, log: Log<FailedEvent>)

  /** The environment: what the backend answers to each of its calls, the jitter drawn
      before each, and how much time passes before each reading of the clock. */
  datatype World = World(
    script: nat -> Outcome,
    jitter: nat -> real,
    gaps: nat -> nat,
    calls: nat,
    ticks: nat,
    now: nat)

  function Tick(w: World): World { w.(ticks := w.ticks + 1, now := w.now + w.gaps(w.ticks)) }

  function Name(e: Emitter): string {
    match e
    case Raw(name) => name
    case Retry(_, _, _, _) => "retry"
    case Breaker(_, _, _) => "circuit_breaker"
    case Capture(_, _, _) => "failure_capture"
  }

  function Depth(e: Emitter): nat {
    if e.Raw? then 0 else 1 + Depth(e.inner)
  }

  datatype Emitted = Emitted(emitter: Emitter, world: World, result: Outcome)

  /** What `FailureCaptureEmitter` stores for a failed batch. */
  function Captured(cfg: CaptureConfig, batch: seq<Message>, error: Error, inner: string): seq<FailedEvent> {
    if cfg.storeFullBatch then
      seq(|batch|, i requires 0 <= i < |batch| => FailedEvent(batch[i], error, inner, 1))
    else if batch == [] then []
    else [FailedEvent(batch[0], error, inner, |batch|)]
  }

  /** `failed` is what a failed batch leaves behind: with the full batch, one entry per event
      in order; with sampling, one entry for the first event that carries the batch's size,
      and none for an empty batch. Each carries the error and the inner emitter's name. */
  ghost predicate StandsFor(
      cfg: CaptureConfig, failed: seq<FailedEvent>, batch: seq<Message>, error: Error, inner: string)
  {
    && (forall i :: 0 <= i < |failed| ==> failed[i].error == error && failed[i].emitterName == inner)
    && (cfg.storeFullBatch ==>
          |failed| == |batch| && forall i :: 0 <= i < |batch| ==> failed[i].event == batch[i] && failed[i].batchSize == 1)
    && (!cfg.storeFullBatch && batch == [] ==> failed == [])
    && (!cfg.storeFullBatch && batch != [] ==>
          |failed| == 1 && failed[0].event == batch[0] && failed[0].batchSize == |batch|)
  }

  /** These conditions leave nothing open: what is stored is the only list that stands for
      the batch. */
  lemma CapturedStandsForTheBatch(
      cfg: CaptureConfig, failed: seq<FailedEvent>, batch: seq<Message>, error: Error, inner: string)
    ensures StandsFor(cfg, failed, batch, error, inner) <==> failed == Captured(cfg, batch, error, inner)
  {
    var captured := Captured(cfg, batch, error, inner);
    if StandsFor(cfg, failed, batch, error, inner) {
      assert |failed| == |captured|;
      forall i | 0 <= i < |failed| ensures failed[i] == captured[i] {
      }
    }
  }

  /** `emit` on a wrapped emitter. */
  function Emit(e: Emitter, w: World, batch: seq<Message>): (r: Emitted)
    ensures Depth(r.emitter) == Depth(e)
    decreases Depth(e), 0
  {
    match e
    case Raw(_) => Emitted(e, w.(calls := w.calls + 1), w.script(w.calls))
    case Retry(_, _, _, _) => EmitWithRetry(e, w, batch, 0)
    case Breaker(inner, config, breaker) =>
      var w1 := Tick(w);
      var (gated, allowed) := CB.Gate(config, breaker, w1.now);
      if !allowed then Emitted(e.(breaker := gated), w1, Err(NotReady))
      else
        var r := Emit(inner, w1, batch);
        if r.result.Ok? then
          Emitted(Breaker(r.emitter, config, CB.Succeed(config, gated)), r.world, Ok)
        else
          var w2 := Tick(r.world);
          Emitted(Breaker(r.emitter, config, CB.Fail(config, gated, w2.now)), w2, r.result)
    case Capture(inner, capture, log) =>
      var r := Emit(inner, w, batch);
      if r.result.Ok? then Emitted(Capture(r.emitter, capture, log), r.world, Ok)
      else
        var failed := Captured(capture, batch, r.result.error, Name(inner));
        Emitted(Capture(r.emitter, capture, Apply(capture.bufferCapacity, log, Push(failed))), r.world, r.result)
  }

  /** The retry loop from attempt number `attempt` on. */
  function EmitWithRetry(e: Emitter, w: World, batch: seq<Message>, attempt: nat): (r: Emitted)
    requires e.Retry? && attempt <= e.backoff.maxAttempts
    ensures Depth(r.emitter) == Depth(e)
    decreases Depth(e.inner) + 1, 0, e.backoff.maxAttempts - attempt
  {
    var waits := Delay(e.backoff, attempt, w.jitter(w.calls)) != 0;
    var retries := e.retries + if waits then 1 else 0;
    var r := Emit(e.inner, w, batch);
    var e' := Retry(r.emitter, e.backoff, retries, e.recovered);
    if r.result.Ok? then Emitted(e'.(recovered := e.recovered + if attempt > 0 then 1 else 0), r.world, Ok)
    else if attempt == e.backoff.maxAttempts then Emitted(e', r.world, r.result)
    else EmitWithRetry(e', r.world, batch, attempt + 1)
  }

  // ------------------------------------------------------------------------ the builder

  datatype Options = Options(
    retry: Option<Backoff>,
    breaker: Option<CB.Config>,
    capture: Option<CaptureConfig>)

  /** Retry innermost, then the breaker, then failure capture; each only if configured. */
  function Build(name: string, options: Options): Emitter {
    var current := Raw(name);
    var current := if options.retry.Some? then Retry(current, options.retry.value, 0, 0) else current;
    var current := if options.breaker.Some? then Breaker(current, options.breaker.value, CB.FRESH) else current;
    if options.capture.Some? then Capture(current, options.capture.value, Empty()) else current
  }

  /** An emitter of the shape the builder makes, in any state. */
  ghost predicate Shaped(options: Options, e: Emitter) {
    var below := if options.capture.Some? then
        if e.Capture? && e.capture == options.capture.value then Some(e.inner) else None
      else Some(e);
    below.Some? && ShapedBreaker(options, below.value)
  }

  ghost predicate ShapedBreaker(options: Options, e: Emitter) {
    if options.breaker.Some? then
      e.Breaker? && e.config == options.breaker.value && ShapedRetry(options, e.inner)
    else ShapedRetry(options, e)
  }

  ghost predicate ShapedRetry(options: Options, e: Emitter) {
    if options.retry.Some? then
      e.Retry? && e.backoff == options.retry.value && e.inner.Raw?
    else e.Raw?
  }

  /** Whatever is configured, and nothing else, is wrapped around the emitter, retry inside
      the breaker inside capture, each wrapper in its initial state. */
  lemma BuildComposesInOrder(name: string, options: Options)
    ensures
      var e := Build(name, options);
      && Shaped(options, e)
      && Innermost(e) == Raw(name)
      && (options.capture.Some? ==> e.log == Empty())
      && (options.breaker.Some? ==> Uncaptured(e).breaker == CB.FRESH)
      && (options.retry.Some? ==>
            var r := if options.breaker.Some? then Uncaptured(e).inner else Uncaptured(e);
            r.retries == 0 && r.recovered == 0)
  {
    var e := Build(name, options);
    var gate := Uncaptured(e);
    var core := if gate.Breaker? then gate.inner else gate;
    assert Innermost(e) == Innermost(gate) == Innermost(core) == Raw(name);
  }

  function Innermost(e: Emitter): Emitter { if e.Raw? then e else Innermost(e.inner) }

  function Attempted(options: Options): nat {
    if options.retry.Some? then options.retry.value.maxAttempts else 0
  }

  /** The retry layer of a built stack, alone. */
  lemma {:induction false} RetryLayer(e: Emitter, w: World, batch: seq<Message>, attempt: nat)
    requires e.Retry? && e.inner.Raw? && attempt <= e.backoff.maxAttempts
    ensures
      var r := EmitWithRetry(e, w, batch, attempt);
      var t := Attempts(w.script, w.calls, e.backoff.maxAttempts - attempt);
      && r.result == t.result
      && r.world == w.(calls := w.calls + t.calls)
      && r.emitter.Retry? && r.emitter.inner == e.inner && r.emitter.backoff == e.backoff
      && r.emitter.retries == e.retries + t.calls - (if attempt == 0 then 1 else 0)
      && r.emitter.recovered == e.recovered + if t.result.Ok? && attempt + t.calls > 1 then 1 else 0
    decreases e.backoff.maxAttempts - attempt
  {
    RetriesAlwaysWait(e.backoff, attempt, w.jitter(w.calls));
    if w.script(w.calls).Err? && attempt < e.backoff.maxAttempts {
      var e' := e.(retries := e.retries + if attempt > 0 then 1 else 0);
      RetryLayer(e', w.(calls := w.calls + 1), batch, attempt + 1);
    }
  }

  /** The retry layer, present or not: one emit makes the attempts of the retry loop. */
  lemma InnerLayer(options: Options, e: Emitter, w: World, batch: seq<Message>)
    requires ShapedRetry(options, e)
    ensures
      var r := Emit(e, w, batch);
      var t := Attempts(w.script, w.calls, Attempted(options));
      r.result == t.result && r.world == w.(calls := w.calls + t.calls) && ShapedRetry(options, r.emitter)
  {
    if options.retry.Some? {
      RetryLayer(e, w, batch, 0);
    }
  }

  /** Does the breaker, if there is one, let this emit through? */
  predicate Admits(e: Emitter, w: World) {
    e.Breaker? ==> CB.Gate(e.config, e.breaker, Tick(w).now).1
  }

  /** The breaker layer: one gate, and one outcome reported exactly when admitted. */
  lemma BreakerLayer(options: Options, e: Emitter, w: World, batch: seq<Message>)
    requires ShapedBreaker(options, e)
    ensures
      var r := Emit(e, w, batch);
      var t := Attempts(w.script, w.calls, Attempted(options));
      && ShapedBreaker(options, r.emitter)
      && r.world.script == w.script
      && (e.Breaker? ==>
            r.world.now == Tick(w).now + if Admits(e, w) && t.result.Err? then w.gaps(w.ticks + 1) else 0)
      && r.result == (if Admits(e, w) then t.result else Err(NotReady))
      && r.world.calls == w.calls + (if Admits(e, w) then t.calls else 0)
      && (e.Breaker? ==>
            var gated := CB.Gate(e.config, e.breaker, Tick(w).now).0;
            r.emitter.breaker ==
              if !Admits(e, w) then gated
              else if t.result.Ok? then CB.Succeed(e.config, gated)
              else CB.Fail(e.config, gated, r.world.now))
  {
    if e.Breaker? {
      InnerLayer(options, e.inner, Tick(w), batch);
    } else {
      InnerLayer(options, e, w, batch);
    }
  }

  /** The emitter under the capture layer. */
  function Uncaptured(e: Emitter): Emitter { if e.Capture? then e.inner else e }

  /** For every choice of wrappers, every state and every pattern of backend answers: the
      stack returns Ok exactly when the breaker admits and one of the first attempts
      succeeds; it calls the backend up to the first success and never when rejected; it
      returns the last error or "not ready"; and the failure buffer receives the batch, or
      its first event, on an error and only then. */
  lemma StackMeaning(options: Options, e: Emitter, w: World, batch: seq<Message>)
    requires Shaped(options, e)
    ensures
      var r := Emit(e, w, batch);
      var admitted := Admits(Uncaptured(e), w);
      var n := Attempted(options);
      && Shaped(options, r.emitter)
      && (r.result.Ok? <==> admitted && exists k :: w.calls <= k <= w.calls + n && w.script(k).Ok?)
      && (admitted ==>
            && w.calls + 1 <= r.world.calls <= w.calls + n + 1
            && (forall k :: w.calls <= k < r.world.calls - 1 ==> w.script(k).Err?)
            && r.result == w.script(r.world.calls - 1)
            && (r.result.Err? ==> r.world.calls == w.calls + n + 1))
      && (!admitted ==> r.world.calls == w.calls && r.result == Err(NotReady))
      && (e.Capture? && r.result.Ok? ==> r.emitter.log == e.log)
      && (e.Capture? && r.result.Err? ==>
            exists failed: seq<FailedEvent> ::
              && StandsFor(e.capture, failed, batch, r.result.error, Name(e.inner))
              && r.emitter.log.inputs == e.log.inputs + failed
              && r.emitter.log == Apply(e.capture.bufferCapacity, e.log, Push(failed)))
  {
    BreakerLayer(options, Uncaptured(e), w, batch);
    AttemptsStopAtFirstSuccess(w.script, w.calls, Attempted(options));
    var r := Emit(e, w, batch);
    if e.Capture? && r.result.Err? {
      var failed := Captured(e.capture, batch, r.result.error, Name(e.inner));
      CapturedStandsForTheBatch(e.capture, failed, batch, r.result.error, Name(e.inner));
      assert r.emitter.log == Apply(e.capture.bufferCapacity, e.log, Push(failed));
    }
  }

  /** The name of the last wrapper the builder applies, if any. */
  function Outermost(options: Options): Option<string> {
    if options.capture.Some? then Some("failure_capture")
    else if options.breaker.Some? then Some("circuit_breaker")
    else if options.retry.Some? then Some("retry")
    else None
  }

  /** A wrapped emitter answers to its outermost wrapper's name: a message that lists the
      destination still reaches it if and only if nothing was wrapped or the message lists
      the wrapper's name as well. */
  lemma WrappingHidesTheName(name: string, options: Options, m: Message)
    requires name in m.routeTo
    ensures
      ShouldRouteTo(m, Name(Build(name, options))) <==>
      (Outermost(options).None? || Outermost(options).value in m.routeTo)
  {
  }

  // ------------------------------------------------------------------------- whole runs

  /** An emit through the stack, or an inspector working on the shared failure buffer. */
  datatype Action = DoEmit(batch: seq<Message>) | DoDrain(n: nat) | DoClear

  function Act(e: Emitter, w: World, a: Action): (Emitter, World) {
    match a
    case DoEmit(batch) => var r := Emit(e, w, batch); (r.emitter, r.world)
    case DoDrain(n) => (if e.Capture? then e.(log := Apply(e.capture.bufferCapacity, e.log, Drain(n))) else e, w)
    case DoClear => (if e.Capture? then e.(log := Apply(e.capture.bufferCapacity, e.log, Clear)) else e, w)
  }

  function Perform(e: Emitter, w: World, actions: seq<Action>): (Emitter, World)
    decreases |actions|
  {
    if actions == [] then (e, w)
    else
      var (e', w') := Act(e, w, actions[0]);
      Perform(e', w', actions[1..])
  }

  /** What the failing emits among the actions hand to the failure buffer, in order. */
  function Failures(e: Emitter, w: World, actions: seq<Action>): seq<FailedEvent>
    decreases |actions|
  {
    if actions == [] then []
    else
      var (e', w') := Act(e, w, actions[0]);
      var now :=
        if actions[0].DoEmit? && e.Capture? then
          var r := Emit(e, w, actions[0].batch);
          if r.result.Err? then Captured(e.capture, actions[0].batch, r.result.error, Name(e.inner)) else []
        else [];
      now + Failures(e', w', actions[1..])
  }

  /** The buffer keeps its order and counters, and has been given `more`. */
  ghost predicate Kept(options: Options, e: Emitter, e': Emitter, more: seq<FailedEvent>) {
    && Shaped(options, e') && options.capture.Some? && e.Capture?
    && InOrder(e'.capture.bufferCapacity, e'.log) && Counted(e'.capture.bufferCapacity, e'.log)
    && e'.log.inputs == e.log.inputs + more
  }

  lemma ApplyKept(options: Options, e: Emitter, e': Emitter, op: Op<FailedEvent>)
    requires Kept(options, e, e, []) && Shaped(options, e')
    requires e'.capture == e.capture && e'.log == Apply(e.capture.bufferCapacity, e.log, op)
    ensures Kept(options, e, e', if op.Push? then op.xs else [])
  {
    ApplyKeepsOrder(e.capture.bufferCapacity, e.log, op);
    ApplyKeepsCounts(e.capture.bufferCapacity, e.log, op);
  }

  lemma EmitKept(options: Options, e: Emitter, w: World, batch: seq<Message>)
    requires Kept(options, e, e, [])
    ensures
      var r := Emit(e, w, batch);
      Kept(options, e, r.emitter,
           if r.result.Err? then Captured(e.capture, batch, r.result.error, Name(e.inner)) else [])
  {
    StackMeaning(options, e, w, batch);
    var r := Emit(e, w, batch);
    if r.result.Err? {
      var failed: seq<FailedEvent> :|
        && StandsFor(e.capture, failed, batch, r.result.error, Name(e.inner))
        && r.emitter.log == Apply(e.capture.bufferCapacity, e.log, Push(failed));
      CapturedStandsForTheBatch(e.capture, failed, batch, r.result.error, Name(e.inner));
      ApplyKept(options, e, r.emitter, Push(failed));
    }
  }

  lemma ActKept(options: Options, e: Emitter, w: World, a: Action)
    requires Kept(options, e, e, [])
    ensures Kept(options, e, Act(e, w, a).0, Failures(e, w, [a]))
  {
    match a
    case DoEmit(batch) => EmitKept(options, e, w, batch);
    case DoDrain(n) => ApplyKept(options, e, Act(e, w, a).0, Drain(n));
    case DoClear => ApplyKept(options, e, Act(e, w, a).0, Clear);
  }

  lemma FailuresCons(e: Emitter, w: World, actions: seq<Action>)
    requires actions != []
    ensures
      var (e', w') := Act(e, w, actions[0]);
      Failures(e, w, actions) == Failures(e, w, [actions[0]]) + Failures(e', w', actions[1..])
  {
  }

  lemma {:induction false} PerformKept(options: Options, e: Emitter, w: World, actions: seq<Action>)
    requires Kept(options, e, e, [])
    ensures Kept(options, e, Perform(e, w, actions).0, Failures(e, w, actions))
    decreases |actions|
  {
    if actions != [] {
      var (e', w') := Act(e, w, actions[0]);
      ActKept(options, e, w, actions[0]);
      PerformKept(options, e', w', actions[1..]);
      FailuresCons(e, w, actions);
      Regroup(e.log.inputs, Failures(e, w, [actions[0]]), Failures(e', w', actions[1..]));
    }
  }

  lemma FreshIsKept(name: string, options: Options)
    requires options.capture.Some?
    ensures Kept(options, Build(name, options), Build(name, options), [])
    ensures Build(name, options).log.inputs == []
  {
  }

  lemma CapturesFrom(options: Options, e: Emitter, w: World, actions: seq<Action>)
    requires Kept(options, e, e, []) && e.log.inputs == []
    ensures
      var e', captured := Perform(e, w, actions).0, Failures(e, w, actions);
      && e'.Capture? && e'.capture == options.capture.value
      && InOrder(e'.capture.bufferCapacity, e'.log) && e'.log.inputs == captured
      && ((e'.log.dropped + e'.log.drained + Count(e'.log.why, Cleared) + |e'.log.queue| == |captured|) <==>
          (e'.capture.bufferCapacity >= 1 || captured == []))
  {
    PerformKept(options, e, w, actions);
    var e' := Perform(e, w, actions).0;
    BalanceExactlyWhen(e'.capture.bufferCapacity, e'.log);
  }

  /** From a freshly built stack: what its failing emits captured is, in order, what has left
      the failure buffer followed by what it holds, and the counters balance exactly when the
      buffer has room or nothing failed. */
  lemma CapturesAreAccountedFor(name: string, options: Options, w: World, actions: seq<Action>)
    requires options.capture.Some?
    ensures
      var e := Build(name, options);
      var e', captured := Perform(e, w, actions).0, Failures(e, w, actions);
      && e'.Capture?
      && var log, capacity := e'.log, options.capture.value.bufferCapacity;
      && log.left + log.queue == captured
      && |log.left| == |log.why|
      && |log.queue| <= Room(capacity)
      && ((log.dropped + log.drained + Count(log.why, Cleared) + |log.queue| == |captured|) <==>
          (capacity >= 1 || captured == []))
  {
    FreshIsKept(name, options);
    CapturesFrom(options, Build(name, options), w, actions);
  }

  /** `r` is an emit's effect on the breaker, the clock and the backend, if its attempts
      would end as in `t`. */
  ghost predicate Gated(e: Emitter, w: World, r: Emitted, t: Tried)
    requires e.Breaker?
  {
    var gated, admits := CB.Gate(e.config, e.breaker, Tick(w).now).0, Admits(e, w);
    && r.emitter.Breaker?
    && r.world.now == Tick(w).now + (if admits && t.result.Err? then w.gaps(w.ticks + 1) else 0)
    && r.world.calls == w.calls + (if admits then t.calls else 0)
    && r.emitter.breaker ==
         (if !admits then gated
          else if t.result.Ok? then CB.Succeed(e.config, gated)
          else CB.Fail(e.config, gated, r.world.now))
  }

  lemma GatedIsABreakerCall(e: Emitter, w: World, r: Emitted, t: Tried, s: CB.Sys, n: nat) returns (call: CB.Call)
    requires e.Breaker? && Gated(e, w, r, t) && t.calls <= n
    requires s.b == e.breaker && s.clock == w.now && s.inFlight == 0
    ensures
      var s' := CB.Emit(e.config, s, call);
      && s'.b == r.emitter.breaker && s'.clock == r.world.now && s'.inFlight == 0
      && s'.admitted >= s.admitted
      && 0 <= r.world.calls - w.calls <= (s'.admitted - s.admitted) * n
      && (call.ok <==> t.result.Ok?)
  {
    call := CB.Call(w.gaps(w.ticks), if t.result.Ok? then 0 else w.gaps(w.ticks + 1), t.result.Ok?);
    CB.EmitMeaning(e.config, s, call);
  }

  /** One emit through a stack is one call of the breaker's single caller. */
  lemma EmitIsABreakerCall(options: Options, e: Emitter, w: World, batch: seq<Message>, s: CB.Sys)
    returns (call: CB.Call)
    requires ShapedBreaker(options, e) && options.breaker.Some?
    requires s.b == e.breaker && s.clock == w.now && s.inFlight == 0
    ensures
      var r := Emit(e, w, batch);
      var s' := CB.Emit(options.breaker.value, s, call);
      && ShapedBreaker(options, r.emitter)
      && s'.b == r.emitter.breaker && s'.clock == r.world.now && s'.inFlight == 0
      && r.world.script == w.script && r.world.calls >= w.calls
      && s'.admitted >= s.admitted
      && r.world.calls - w.calls <= (s'.admitted - s.admitted) * (Attempted(options) + 1)
      && (call.ok <==> Attempts(w.script, w.calls, Attempted(options)).result.Ok?)
  {
    BreakerLayer(options, e, w, batch);
    AttemptsStopAtFirstSuccess(w.script, w.calls, Attempted(options));
    var t := Attempts(w.script, w.calls, Attempted(options));
    call := GatedIsABreakerCall(e, w, Emit(e, w, batch), t, s, Attempted(options) + 1);
  }

  /** The stack's breaker and clock are those of the breaker system `s`, with nothing in flight. */
  ghost predicate Linked(options: Options, e: Emitter, w: World, s: CB.Sys) {
    && Shaped(options, e) && options.breaker.Some?
    && s.b == Uncaptured(e).breaker && s.clock == w.now && s.inFlight == 0
  }

  /** From `w` and `s` to `w'` and `s'` the backend got at most its share of calls. */
  ghost predicate Spends(options: Options, w: World, s: CB.Sys, w': World, s': CB.Sys) {
    && w'.script == w.script
    && w.calls <= w'.calls && s.admitted <= s'.admitted
    && w'.calls - w.calls <= (s'.admitted - s.admitted) * (Attempted(options) + 1)
  }

  lemma SpendsTransitive(options: Options, w0: World, s0: CB.Sys, w1: World, s1: CB.Sys, w2: World, s2: CB.Sys)
    requires Spends(options, w0, s0, w1, s1) && Spends(options, w1, s1, w2, s2)
    ensures Spends(options, w0, s0, w2, s2)
  {
    TimesDistributes(s1.admitted - s0.admitted, s2.admitted - s1.admitted, Attempted(options) + 1);
  }

  lemma ActIsABreakerCall(options: Options, e: Emitter, w: World, a: Action, s: CB.Sys) returns (call: CB.Call)
    requires Linked(options, e, w, s) && a.DoEmit?
    ensures
      var (e', w') := Act(e, w, a);
      var s' := CB.Emit(options.breaker.value, s, call);
      && Linked(options, e', w', s') && Spends(options, w, s, w', s')
      && (call.ok <==> Attempts(w.script, w.calls, Attempted(options)).result.Ok?)
  {
    call := EmitIsABreakerCall(options, Uncaptured(e), w, a.batch, s);
  }

  lemma {:induction false} RunIsOneCaller(options: Options, e: Emitter, w: World, actions: seq<Action>, s: CB.Sys)
    returns (calls: seq<CB.Call>)
    requires Linked(options, e, w, s)
    ensures
      var (e', w') := Perform(e, w, actions);
      var s' := CB.Calls(options.breaker.value, s, calls);
      && Linked(options, e', w', s') && Spends(options, w, s, w', s')
      && ((forall k :: w.script(k).Err?) ==> CB.AllFail(calls))
    decreases |actions|
  {
    if actions == [] {
      calls := [];
    } else if actions[0].DoEmit? {
      var (e1, w1) := Act(e, w, actions[0]);
      var call := ActIsABreakerCall(options, e, w, actions[0], s);
      var s1 := CB.Emit(options.breaker.value, s, call);
      var rest := RunIsOneCaller(options, e1, w1, actions[1..], s1);
      calls := [call] + rest;
      var w2 := Perform(e1, w1, actions[1..]).1;
      SpendsTransitive(options, w, s, w1, s1, w2, CB.Calls(options.breaker.value, s1, rest));
      AttemptsStopAtFirstSuccess(w.script, w.calls, Attempted(options));
    } else {
      var (e1, w1) := Act(e, w, actions[0]);
      calls := RunIsOneCaller(options, e1, w1, actions[1..], s);
    }
  }

  /** With a backend that always fails, a freshly built stack with a breaker calls it, by
      time T, at most (failure threshold + T / resetTimeout) times the attempts per emit. */
  lemma StackSparesAFailingBackend(name: string, options: Options, w: World, actions: seq<Action>)
    requires options.breaker.Some? && options.breaker.value.resetTimeout >= 1
    requires w.calls == 0 && w.now == 0 && forall k :: w.script(k).Err?
    ensures
      var cfg := options.breaker.value;
      var w' := Perform(Build(name, options), w, actions).1;
      w'.calls <= (CB.Tolerated(cfg) + w'.now / cfg.resetTimeout) * (Attempted(options) + 1)
  {
    var cfg, n := options.breaker.value, Attempted(options) + 1;
    var calls := RunIsOneCaller(options, Build(name, options), w, actions, CB.START);
    CB.FailingBackendIsSpared(cfg, calls);
    var w' := Perform(Build(name, options), w, actions).1;
    TimesMonotone(CB.Calls(cfg, CB.START, calls).admitted, CB.Tolerated(cfg) + w'.now / cfg.resetTimeout, n);
  }

  /** Below the threshold the probe budget locks the stack out for good: once its breaker has
      left Closed, no run ever brings it back, whatever the backend answers. */
  lemma StackNeverRecloses(options: Options, name: string, w: World, actions: seq<Action>, more: seq<Action>)
    requires options.breaker.Some? && w.now == 0
    requires CB.Budget(options.breaker.value) < CB.Needed(options.breaker.value)
    requires
      var e := Perform(Build(name, options), w, actions).0;
      Uncaptured(e).Breaker? && Uncaptured(e).breaker.state != CB.Closed
    ensures
      var (e, w') := Perform(Build(name, options), w, actions);
      var last := Perform(e, w', more).0;
      Uncaptured(last).Breaker? && Uncaptured(last).breaker.state != CB.Closed
  {
    var cfg := options.breaker.value;
    var calls := RunIsOneCaller(options, Build(name, options), w, actions, CB.START);
    var (e, w') := Perform(Build(name, options), w, actions);
    var s := CB.Calls(cfg, CB.START, calls);
    CB.CallsKeepOneCaller(cfg, CB.START, calls);
    var later := RunIsOneCaller(options, e, w', more, s);
    CB.OneCallerNeverRecloses(cfg, s, later);
  }

  // ------------------------------------------------------------ capture, imperatively

  /** The error path of `FailureCaptureEmitter::emit` over the real buffer. */
  method CaptureFailure(
      buffer: FB.FailureBuffer<FailedEvent>, cfg: CaptureConfig,
      batch: seq<Message>, error: Error, inner: string)
    requires buffer.Valid()
    modifies buffer
    ensures buffer.Valid()
    ensures
      exists failed: seq<FailedEvent> ::
        && StandsFor(cfg, failed, batch, error, inner)
        && buffer.log.inputs == old(buffer.log.inputs) + failed
        && buffer.log == Apply(buffer.capacity, old(buffer.log), Push(failed))
  {
    var failed: seq<FailedEvent> := [];
    if cfg.storeFullBatch {
      for i := 0 to |batch|
        invariant |failed| == i
        invariant forall j :: 0 <= j < i ==> failed[j] == FailedEvent(batch[j], error, inner, 1)
        modifies {}
      {
        failed := failed + [FailedEvent(batch[i], error, inner, 1)];
      }
    } else if batch != [] {
      failed := [FailedEvent(batch[0], error, inner, |batch|)];
    }
    assert StandsFor(cfg, failed, batch, error, inner);
    buffer.Push(failed);
  }
}
