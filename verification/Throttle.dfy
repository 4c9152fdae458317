/** Per-source throttling: a bounded map of token buckets behind a read-write lock. Callers
    of known sources share the read lock and run inside their bucket concurrently; a new
    source takes the write lock, evicts a bucket if the map is full, and inserts its own.

    Each bucket is the concurrent token bucket, so this machine interleaves every atomic
    step of every bucket with the lock operations. */
module Throttling {
  import opened Machine
  import TB = TokenBucket

  /** Every bucket is made alike; `threads` callers share the throttle. */
  datatype Config = Config(bucket: TB.Config, maxSources: nat, threads: nat)

  /** Whole tokens in a full bucket. */
  function Burst(cfg: Config): nat { cfg.bucket.capacity / TB.TOKEN }

  /** A bucket, when it was created on the common clock, and its last access relative to that. */
  datatype Tracked = Tracked(bucket: TB.Sys, created: nat, lastAccess: U64)

  /** How a caller inside holds the lock: shared, exclusive after finding the bucket on the
      second look, or exclusive with a bucket it has just made. */
  datatype Hold = Shared | Exclusive | Creating

  /** Inside a bucket a caller reads the clock, stores the reading as last access, and then
      runs the token bucket. */
  datatype Stage = Entering | Storing(reading: U64) | Calling

  datatype Phase =
    | Outside
    | WantRead(source: string)
    | WantWrite(source: string)
    | Inside(source: string, hold: Hold, stage: Stage)
    | Crashed

  /** What a call returned to a message of `source`. */
  datatype Answer = Answer(source: string, admitted: bool)

  /** The map, the callers, the common clock and the answers given. */
  datatype Sys = Sys(buckets: map<string, Tracked>, threads: seq<Phase>, clock: nat, answers: seq<Answer>)

  /** `dt` passes and thread `tid` takes its next step; `source` is what it asks for if it
      starts a call, `victim` the bucket the scan picks if it evicts. */
  datatype Event = Event(tid: nat, dt: nat, source: string, victim: string, spurious: bool)

  function Init(cfg: Config): Sys { Sys(map[], seq(cfg.threads, _ => Outside), 0, []) }

  /** Nanoseconds since the bucket was created, truncated to 64 bits. */
  function Reading(clock: nat, created: nat): U64 { SaturatingSub(clock, created) % (U64_MAX + 1) }

  /** Another caller holds the lock; for a reader only an exclusive holder matters. */
  predicate Blocked(threads: seq<Phase>, tid: nat, reader: bool) {
    exists i :: 0 <= i < |threads| && i != tid && threads[i].Inside? && (!reader || !threads[i].hold.Shared?)
  }

  /** The scan's choice: no resident bucket has a smaller last access. */
  predicate Oldest(buckets: map<string, Tracked>, victim: string) {
    victim in buckets && forall k :: k in buckets ==> buckets[victim].lastAccess <= buckets[k].lastAccess
  }

  predicate Full(cfg: Config, buckets: map<string, Tracked>) { |buckets| >= cfg.maxSources && buckets != map[] }

  function Fresh(cfg: Config, clock: nat): Tracked { Tracked(TB.Init(cfg.bucket, cfg.threads), clock, 0) }

  function Goto(s: Sys, tid: nat, phase: Phase): Sys
    requires tid < |s.threads|
  {
    s.(threads := s.threads[tid := phase])
  }

  /** Under the read lock: go inside if the source is known. */
  function TakeRead(s: Sys, e: Event, source: string): Sys
    requires e.tid < |s.threads|
  {
    if Blocked(s.threads, e.tid, true) then s
    else Goto(s, e.tid, if source in s.buckets then Inside(source, Shared, Entering) else WantWrite(source))
  }

  function Insert(cfg: Config, s: Sys, tid: nat, source: string): Sys
    requires tid < |s.threads|
  {
    Goto(s.(buckets := s.buckets[source := Fresh(cfg, s.clock)]), tid, Inside(source, Creating, Entering))
  }

  /** Under the write lock: look again, evict if full, insert. The source inserts after the
      new bucket's first call, under the same lock, so nobody can tell the difference. */
  function TakeWrite(cfg: Config, s: Sys, e: Event, source: string): Sys
    requires e.tid < |s.threads|
  {
    if Blocked(s.threads, e.tid, false) then s
    else if source in s.buckets then Goto(s, e.tid, Inside(source, Exclusive, Entering))
    else if !Full(cfg, s.buckets) then Insert(cfg, s, e.tid, source)
    else if !Oldest(s.buckets, e.victim) then s
    else Insert(cfg, s.(buckets := s.buckets - {e.victim}), e.tid, source)
  }

  /** The call has left the token bucket in `t`: it goes on, returns an answer, or unwinds
      from a panic, in which case a bucket being created never enters the map. */
  function Leave(s: Sys, tid: nat, source: string, hold: Hold, before: Tracked, t: Tracked): Sys
    requires tid < |s.threads|
  {
    var s' := s.(buckets := s.buckets[source := t]);
    if tid >= |t.bucket.threads| then s' else
    match t.bucket.threads[tid]
    case Idle =>
      Goto(s', tid, Outside).(answers := s.answers + [Answer(source, t.bucket.acquired > before.bucket.acquired)])
    case Panicked => Goto(if hold.Creating? then s.(buckets := s.buckets - {source}) else s', tid, Crashed)
    case _ => s'
  }

  /** One atomic step inside the bucket; the lock is released when the call returns. */
  function BucketStep(cfg: Config, s: Sys, e: Event, source: string, hold: Hold, stage: Stage): Sys
    requires e.tid < |s.threads|
  {
    if source !in s.buckets then s
    else
      var t := s.buckets[source];
      var now := Reading(s.clock, t.created);
      match stage
      case Entering => Goto(s, e.tid, Inside(source, hold, Storing(now)))
      case Storing(reading) =>
        Goto(s.(buckets := s.buckets[source := t.(lastAccess := reading)]), e.tid, Inside(source, hold, Calling))
      case Calling =>
        var b := TB.Step(cfg.bucket, t.bucket, TB.Event(e.tid, now, e.spurious));
        Leave(s, e.tid, source, hold, t, t.(bucket := b))
  }

  function Later(s: Sys, dt: nat): Sys { s.(clock := s.clock + dt) }

  function Step(cfg: Config, s: Sys, e: Event): Sys { Act(cfg, Later(s, e.dt), e) }

  function Act(cfg: Config, s: Sys, e: Event): Sys {
    if e.tid >= |s.threads| then s else
    match s.threads[e.tid]
    case Outside => Goto(s, e.tid, WantRead(e.source))
    case WantRead(source) => TakeRead(s, e, source)
    case WantWrite(source) => TakeWrite(cfg, s, e, source)
    case Inside(source, hold, stage) => BucketStep(cfg, s, e, source, hold, stage)
    case Crashed => s
  }

  function Run(cfg: Config, events: seq<Event>): Sys {
    if events == [] then Init(cfg)
    else Step(cfg, Run(cfg, events[..|events| - 1]), events[|events| - 1])
  }

  lemma RunSnoc(cfg: Config, events: seq<Event>, e: Event)
    ensures Run(cfg, events + [e]) == Step(cfg, Run(cfg, events), e)
  {
    assert (events + [e])[..|events|] == events;
  }

  // ------------------------------------------------------------------- locks and bounds

  /** Callers inside are inside resident buckets, and one that does not share is alone. */
  ghost predicate LocksOk(s: Sys) {
    && (forall i :: 0 <= i < |s.threads| && s.threads[i].Inside? ==> s.threads[i].source in s.buckets)
    && (forall i, j ::
          (0 <= i < |s.threads| && 0 <= j < |s.threads| && i != j && s.threads[i].Inside? && s.threads[j].Inside?) ==>
          s.threads[i].hold.Shared?)
  }

  ghost predicate Safe(cfg: Config, s: Sys) {
    && |s.threads| == cfg.threads
    && |s.buckets| <= Max(1, cfg.maxSources)
    && LocksOk(s)
  }

  lemma InsertIsSafe(cfg: Config, s: Sys, tid: nat, source: string)
    requires Safe(cfg, s) && tid < |s.threads| && source !in s.buckets
    requires |s.buckets| < Max(1, cfg.maxSources) && !Blocked(s.threads, tid, false)
    ensures Safe(cfg, Insert(cfg, s, tid, source))
  {
    assert Insert(cfg, s, tid, source).buckets.Keys == s.buckets.Keys + {source};
  }

  lemma EvictIsSafe(cfg: Config, s: Sys, tid: nat, victim: string)
    requires Safe(cfg, s) && tid < |s.threads| && victim in s.buckets
    requires !Blocked(s.threads, tid, false) && !s.threads[tid].Inside?
    ensures
      var t := s.(buckets := s.buckets - {victim});
      Safe(cfg, t) && |t.buckets| == |s.buckets| - 1
  {
    var t := s.(buckets := s.buckets - {victim});
    assert t.buckets.Keys == s.buckets.Keys - {victim};
    assert |t.buckets.Keys| == |s.buckets.Keys| - 1;
  }

  lemma TakeWriteIsSafe(cfg: Config, s: Sys, e: Event, source: string)
    requires Safe(cfg, s) && e.tid < |s.threads| && s.threads[e.tid] == WantWrite(source)
    ensures Safe(cfg, TakeWrite(cfg, s, e, source))
  {
    if !Blocked(s.threads, e.tid, false) && source !in s.buckets {
      if !Full(cfg, s.buckets) {
        InsertIsSafe(cfg, s, e.tid, source);
      } else if Oldest(s.buckets, e.victim) {
        EvictIsSafe(cfg, s, e.tid, e.victim);
        InsertIsSafe(cfg, s.(buckets := s.buckets - {e.victim}), e.tid, source);
      }
    }
  }

  /** Moving one caller that was inside, with at most its own bucket changed or, if it was
      alone, removed. */
  lemma MoveIsSafe(cfg: Config, s: Sys, t: Sys, tid: nat)
    requires Safe(cfg, s) && tid < |s.threads| && s.threads[tid].Inside?
    requires |t.threads| == |s.threads| && t.threads == s.threads[tid := t.threads[tid]]
    requires
      var to := t.threads[tid];
      if to.Inside? then
        to.source == s.threads[tid].source && to.hold == s.threads[tid].hold && t.buckets.Keys == s.buckets.Keys
      else t.buckets.Keys == s.buckets.Keys || (!s.threads[tid].hold.Shared? && t.buckets.Keys < s.buckets.Keys)
    ensures Safe(cfg, t)
  {
    assert |t.buckets.Keys| <= |s.buckets.Keys| by {
      SubsetIsSmaller(t.buckets.Keys, s.buckets.Keys);
    }
  }

  lemma SubsetIsSmaller<T>(a: set<T>, b: set<T>)
    requires a <= b
    ensures |a| <= |b|
  {
    assert b == a + (b - a);
  }

  lemma BucketStepIsSafe(cfg: Config, s: Sys, e: Event)
    requires Safe(cfg, s) && e.tid < |s.threads| && s.threads[e.tid].Inside?
    ensures Safe(cfg, Act(cfg, s, e))
  {
    var p := s.threads[e.tid];
    var t := BucketStep(cfg, s, e, p.source, p.hold, p.stage);
    assert t.buckets.Keys == s.buckets.Keys || t.buckets.Keys == s.buckets.Keys - {p.source};
    MoveIsSafe(cfg, s, t, e.tid);
  }

  lemma ActIsSafe(cfg: Config, s: Sys, e: Event)
    requires Safe(cfg, s)
    ensures Safe(cfg, Act(cfg, s, e))
  {
    if e.tid < |s.threads| {
      match s.threads[e.tid]
      case WantWrite(source) => TakeWriteIsSafe(cfg, s, e, source);
      case Inside(_, _, _) => BucketStepIsSafe(cfg, s, e);
      case _ =>
    }
  }

  lemma {:induction false} RunIsSafe(cfg: Config, events: seq<Event>)
    ensures Safe(cfg, Run(cfg, events))
  {
    if events != [] {
      var front, e := events[..|events| - 1], events[|events| - 1];
      RunIsSafe(cfg, front);
      ActIsSafe(cfg, Later(Run(cfg, front), e.dt), e);
    }
  }

  /** In every run the map never holds more than max(1, maxSources) buckets. */
  lemma MapIsBounded(cfg: Config, events: seq<Event>)
    ensures |Run(cfg, events).buckets| <= Max(1, cfg.maxSources)
  {
    RunIsSafe(cfg, events);
  }

  // --------------------------------------------------- what one source sees of a run

  /** The stage of caller `tid` if it is inside the bucket of `source`. */
  function StageIn(s: Sys, tid: nat, source: string): Option<Stage> {
    if tid < |s.threads| && s.threads[tid].Inside? && s.threads[tid].source == source
    then Some(s.threads[tid].stage) else None
  }

  /** What an observer of the callers of one source writes down about its bucket's current
      life, all on the common clock: when it began, when callers last read the clock for
      their access, the time so read that was last stored, when callers last started a call
      in the token bucket, and the steps they took there; and about earlier lives: the
      answers given by then, how often the bucket left the map, and when it last did. */
  datatype Record = Record(
    born: nat, looked: map<nat, nat>, used: nat, began: map<nat, nat>, calls: seq<TB.Event>,
    admitted: nat, refused: nat, departures: nat, gone: nat)

  function Count(s: Sys, source: string, admitted: bool): nat { multiset(s.answers)[Answer(source, admitted)] }

  /** The observer's note of step `e` from `s` to `s'`. It looks at who is inside the bucket
      and whether the source has one, never into the bucket; time since the bucket's birth is
      measured on the common clock and cut to 64 bits. */
  function Observe(s: Sys, s': Sys, e: Event, source: string, r: Record): Record {
    if source !in s.buckets then
      if source in s'.buckets then r.(born := s.clock, looked := map[], used := s.clock, began := map[], calls := [])
      else r
    else if source !in s'.buckets then
      r.(admitted := Count(s', source, true), refused := Count(s', source, false),
         departures := r.departures + 1, gone := s.clock)
    else
      match StageIn(s, e.tid, source)
      case None => r
      case Some(Entering) => r.(looked := r.looked[e.tid := s.clock])
      case Some(Storing(_)) =>
        if e.tid in r.looked then r.(used := r.looked[e.tid], began := r.began - {e.tid}) else r
      case Some(Calling) =>
        r.(began := if e.tid in r.began then r.began else r.began[e.tid := s.clock],
           calls := r.calls + [TB.Event(e.tid, (s.clock - r.born) % 0x1_0000_0000_0000_0000, e.spurious)])
  }

  function RecordOf(cfg: Config, events: seq<Event>, source: string): Record {
    if events == [] then Record(0, map[], 0, map[], [], 0, 0, 0, 0)
    else
      var front, e := events[..|events| - 1], events[|events| - 1];
      var s := Later(Run(cfg, front), e.dt);
      Observe(s, Act(cfg, s, e), e, source, RecordOf(cfg, front, source))
  }

  lemma RecordSnoc(cfg: Config, events: seq<Event>, e: Event, source: string)
    ensures
      var s := Later(Run(cfg, events), e.dt);
      RecordOf(cfg, events + [e], source) == Observe(s, Act(cfg, s, e), e, source, RecordOf(cfg, events, source))
  {
    assert (events + [e])[..|events|] == events;
  }

  /** The private token bucket the record describes. */
  function Private(cfg: Config, r: Record): Tracked {
    Tracked(TB.Run(cfg.bucket, cfg.threads, r.calls), r.born, (r.used - r.born) % 0x1_0000_0000_0000_0000)
  }

  ghost predicate ReadingsOk(s: Sys, r: Record, source: string) {
    forall i :: 0 <= i < |s.threads| && StageIn(s, i, source).Some? && s.threads[i].stage.Storing? ==>
      && i in r.looked && r.born <= r.looked[i] <= s.clock
      && s.threads[i].stage.reading == (r.looked[i] - r.born) % 0x1_0000_0000_0000_0000
  }

  ghost predicate LifeOk(cfg: Config, s: Sys, r: Record, source: string) {
    if source in s.buckets then
      var b := s.buckets[source].bucket;
      && s.buckets[source] == Private(cfg, r)
      && r.gone <= r.born <= r.used <= s.clock
      && b.latest <= s.clock - r.born
      && Count(s, source, true) == r.admitted + b.acquired
      && Count(s, source, false) == r.refused + b.rejected
    else
      && r.gone <= s.clock
      && Count(s, source, true) == r.admitted
      && Count(s, source, false) == r.refused
  }

  ghost predicate RecordOk(cfg: Config, s: Sys, r: Record, source: string) {
    LifeOk(cfg, s, r, source) && ReadingsOk(s, r, source)
  }

  /** Moving caller `tid` keeps the readings the others took. */
  lemma ReadingsFrame(s: Sys, s': Sys, r: Record, r': Record, tid: nat, source: string)
    requires ReadingsOk(s, r, source) && tid < |s.threads| == |s'.threads|
    requires s'.threads == s.threads[tid := s'.threads[tid]] && s'.clock == s.clock
    requires
      (forall i: nat :: i != tid ==> !(StageIn(s, i, source).Some? && s.threads[i].stage.Storing?)) ||
      (r'.born == r.born && forall i :: i != tid && i in r.looked ==> i in r'.looked && r'.looked[i] == r.looked[i])
    requires StageIn(s', tid, source).Some? && s'.threads[tid].stage.Storing? ==>
      && tid in r'.looked && r'.born <= r'.looked[tid] <= s'.clock
      && s'.threads[tid].stage.reading == (r'.looked[tid] - r'.born) % 0x1_0000_0000_0000_0000
    ensures ReadingsOk(s', r', source)
  {
  }

  lemma TakeWriteIsRecorded(cfg: Config, s: Sys, e: Event, r: Record, source: string, wanted: string)
    requires Safe(cfg, s) && RecordOk(cfg, s, r, source)
    requires e.tid < |s.threads| && s.threads[e.tid] == WantWrite(wanted)
    ensures RecordOk(cfg, Act(cfg, s, e), Observe(s, Act(cfg, s, e), e, source, r), source)
  {
    WriteEffect(cfg, s, e, source, wanted);
    WriteIsNoted(cfg, s, Act(cfg, s, e), e, r, source);
  }

  /** Under the write lock a source keeps its bucket, loses it or gets a fresh one, and
      nobody is answered. */
  lemma WriteEffect(cfg: Config, s: Sys, e: Event, source: string, wanted: string)
    requires Safe(cfg, s) && e.tid < |s.threads| && s.threads[e.tid] == WantWrite(wanted)
    ensures
      var s' := Act(cfg, s, e);
      && s'.clock == s.clock && s'.answers == s.answers
      && |s'.threads| == |s.threads| && s'.threads == s.threads[e.tid := s'.threads[e.tid]]
      && !(s'.threads[e.tid].Inside? && s'.threads[e.tid].stage.Storing?)
      && (source in s.buckets && source in s'.buckets ==> s'.buckets[source] == s.buckets[source])
      && (source !in s.buckets && source in s'.buckets ==> s'.buckets[source] == Fresh(cfg, s.clock))
  {
  }

  lemma WriteIsNoted(cfg: Config, s: Sys, s': Sys, e: Event, r: Record, source: string)
    requires Safe(cfg, s) && RecordOk(cfg, s, r, source)
    requires e.tid < |s.threads| && s.threads[e.tid].WantWrite?
    requires s'.clock == s.clock && s'.answers == s.answers
    requires |s'.threads| == |s.threads| && s'.threads == s.threads[e.tid := s'.threads[e.tid]]
    requires !(s'.threads[e.tid].Inside? && s'.threads[e.tid].stage.Storing?)
    requires source in s.buckets && source in s'.buckets ==> s'.buckets[source] == s.buckets[source]
    requires source !in s.buckets && source in s'.buckets ==> s'.buckets[source] == Fresh(cfg, s.clock)
    ensures RecordOk(cfg, s', Observe(s, s', e, source, r), source)
  {
    assert source !in s.buckets ==> forall i: nat :: StageIn(s, i, source).None?;
    ReadingsFrame(s, s', r, Observe(s, s', e, source, r), e.tid, source);
  }

  /** What one step inside a bucket adds to its own run. */
  lemma StepInPrivate(cfg: Config, calls: seq<TB.Event>, step: TB.Event)
    ensures
      var b := TB.Run(cfg.bucket, cfg.threads, calls);
      var b' := TB.Step(cfg.bucket, b, step);
      && TB.Run(cfg.bucket, cfg.threads, calls + [step]) == b'
      && |b.threads| == |b'.threads| == cfg.threads
      && b'.latest <= Max(b.latest, step.now)
  {
    var init := TB.Init(cfg.bucket, cfg.threads);
    TB.ExecAppend(cfg.bucket, init, calls, [step]);
    TB.ExecKeepsThreads(cfg.bucket, init, calls);
    assert [step][1..] == [];
    var b := TB.Run(cfg.bucket, cfg.threads, calls);
    assert TB.Exec(cfg.bucket, b, [step]) == TB.Step(cfg.bucket, b, step);
  }

  /** A call that has just returned was either admitted or refused, and one that has not
      returned has changed neither count. */
  lemma ReturnsAreCounted(cfg: Config, b: TB.Sys, step: TB.Event)
    requires step.tid < |b.threads|
    ensures
      var b' := TB.Step(cfg.bucket, b, step);
      && |b'.threads| == |b.threads|
      && (b'.threads[step.tid].Idle? ==>
            if b'.acquired > b.acquired then b'.acquired == b.acquired + 1 && b'.rejected == b.rejected
            else b'.acquired == b.acquired && b'.rejected == b.rejected + 1)
      && (!b'.threads[step.tid].Idle? ==> b'.acquired == b.acquired && b'.rejected == b.rejected)
  {
  }

  /** The effect of a step in the token bucket, as the caller sees it. */
  lemma CallEffect(cfg: Config, s: Sys, e: Event, source: string)
    requires Safe(cfg, s) && StageIn(s, e.tid, source) == Some(Calling) && source in s.buckets
    requires e.tid < |s.buckets[source].bucket.threads|
    ensures
      var t, s' := s.buckets[source], Act(cfg, s, e);
      var b := TB.Step(cfg.bucket, t.bucket, TB.Event(e.tid, Reading(s.clock, t.created), e.spurious));
      && s'.clock == s.clock
      && |s'.threads| == |s.threads| && s'.threads == s.threads[e.tid := s'.threads[e.tid]]
      && !(s'.threads[e.tid].Inside? && s'.threads[e.tid].stage.Storing?)
      && (source in s'.buckets ==> s'.buckets[source] == t.(bucket := b))
      && (source in s'.buckets ==> Count(s', source, true) == Count(s, source, true) + b.acquired - t.bucket.acquired)
      && (source in s'.buckets ==> Count(s', source, false) == Count(s, source, false) + b.rejected - t.bucket.rejected)
  {
    var t := s.buckets[source];
    var step := TB.Event(e.tid, Reading(s.clock, t.created), e.spurious);
    ReturnsAreCounted(cfg, t.bucket, step);
    var b := TB.Step(cfg.bucket, t.bucket, step);
    assert Act(cfg, s, e) == Leave(s, e.tid, source, s.threads[e.tid].hold, t, t.(bucket := b));
  }

  /** The bucket's clock is the common clock since its birth, cut to 64 bits. */
  lemma ReadingIsTheAge(clock: nat, born: nat)
    requires born <= clock
    ensures Reading(clock, born) == (clock - born) % 0x1_0000_0000_0000_0000
  {
  }

  lemma CallIsRecorded(cfg: Config, s: Sys, e: Event, r: Record, source: string)
    requires Safe(cfg, s) && RecordOk(cfg, s, r, source)
    requires StageIn(s, e.tid, source) == Some(Calling)
    ensures RecordOk(cfg, Act(cfg, s, e), Observe(s, Act(cfg, s, e), e, source, r), source)
  {
    var step := TB.Event(e.tid, (s.clock - r.born) % 0x1_0000_0000_0000_0000, e.spurious);
    StepInPrivate(cfg, r.calls, step);
    ReadingIsTheAge(s.clock, r.born);
    CallEffect(cfg, s, e, source);
    CallIsNoted(cfg, s, Act(cfg, s, e), e, r, source, step);
  }

  lemma CallIsNoted(cfg: Config, s: Sys, s': Sys, e: Event, r: Record, source: string, step: TB.Event)
    requires RecordOk(cfg, s, r, source) && source in s.buckets && StageIn(s, e.tid, source) == Some(Calling)
    requires step == TB.Event(e.tid, (s.clock - r.born) % 0x1_0000_0000_0000_0000, e.spurious)
    requires s'.clock == s.clock
    requires |s'.threads| == |s.threads| && s'.threads == s.threads[e.tid := s'.threads[e.tid]]
    requires !(s'.threads[e.tid].Inside? && s'.threads[e.tid].stage.Storing?)
    requires
      var b, b' := s.buckets[source].bucket, TB.Run(cfg.bucket, cfg.threads, r.calls + [step]);
      && b'.latest <= Max(b.latest, step.now)
      && (source in s'.buckets ==>
            && s'.buckets[source] == s.buckets[source].(bucket := b')
            && Count(s', source, true) == Count(s, source, true) + b'.acquired - b.acquired
            && Count(s', source, false) == Count(s, source, false) + b'.rejected - b.rejected)
    ensures RecordOk(cfg, s', Observe(s, s', e, source, r), source)
  {
    ReadingsFrame(s, s', r, Observe(s, s', e, source, r), e.tid, source);
  }

  lemma AccessIsRecorded(cfg: Config, s: Sys, e: Event, r: Record, source: string)
    requires Safe(cfg, s) && RecordOk(cfg, s, r, source)
    requires StageIn(s, e.tid, source).Some? && StageIn(s, e.tid, source).value != Calling
    ensures RecordOk(cfg, Act(cfg, s, e), Observe(s, Act(cfg, s, e), e, source, r), source)
  {
    var s', r' := Act(cfg, s, e), Observe(s, Act(cfg, s, e), e, source, r);
    ReadingsFrame(s, s', r, r', e.tid, source);
    assert LifeOk(cfg, s', r', source);
  }

  /** A step inside one bucket changes no other and answers only its own source. */
  lemma OtherBucketsStay(cfg: Config, s: Sys, e: Event, source: string)
    requires e.tid < |s.threads| && s.threads[e.tid].Inside? && s.threads[e.tid].source != source
    ensures
      var s' := Act(cfg, s, e);
      && s'.clock == s.clock
      && |s'.threads| == |s.threads| && s'.threads == s.threads[e.tid := s'.threads[e.tid]]
      && StageIn(s', e.tid, source).None?
      && (source in s'.buckets <==> source in s.buckets)
      && (source in s.buckets ==> s'.buckets[source] == s.buckets[source])
      && forall yes :: Count(s', source, yes) == Count(s, source, yes)
  {
    var s', other := Act(cfg, s, e), s.threads[e.tid].source;
    assert s'.answers == s.answers || exists yes :: s'.answers == s.answers + [Answer(other, yes)];
  }

  /** Steps inside other buckets leave no trace here. */
  lemma OthersAreNotRecorded(cfg: Config, s: Sys, e: Event, r: Record, source: string)
    requires RecordOk(cfg, s, r, source)
    requires e.tid < |s.threads| && s.threads[e.tid].Inside? && s.threads[e.tid].source != source
    ensures RecordOk(cfg, Act(cfg, s, e), Observe(s, Act(cfg, s, e), e, source, r), source)
  {
    OtherBucketsStay(cfg, s, e, source);
    ReadingsFrame(s, Act(cfg, s, e), r, r, e.tid, source);
  }

  /** Starting a call or taking the read lock changes no bucket and answers nobody. */
  lemma WaitingIsNotRecorded(cfg: Config, s: Sys, e: Event, r: Record, source: string)
    requires RecordOk(cfg, s, r, source)
    requires e.tid < |s.threads| && !s.threads[e.tid].WantWrite? && !s.threads[e.tid].Inside?
    ensures RecordOk(cfg, Act(cfg, s, e), Observe(s, Act(cfg, s, e), e, source, r), source)
  {
    var s' := Act(cfg, s, e);
    assert s'.buckets == s.buckets && s'.answers == s.answers && s'.clock == s.clock;
    assert s'.threads == s.threads[e.tid := s'.threads[e.tid]];
    ReadingsFrame(s, s', r, r, e.tid, source);
  }

  lemma ActIsRecorded(cfg: Config, s: Sys, e: Event, r: Record, source: string)
    requires Safe(cfg, s) && RecordOk(cfg, s, r, source)
    ensures RecordOk(cfg, Act(cfg, s, e), Observe(s, Act(cfg, s, e), e, source, r), source)
  {
    if e.tid < |s.threads| {
      match s.threads[e.tid]
      case WantWrite(wanted) => TakeWriteIsRecorded(cfg, s, e, r, source, wanted);
      case Inside(own, _, stage) =>
        if own != source {
          OthersAreNotRecorded(cfg, s, e, r, source);
        } else if stage.Calling? {
          CallIsRecorded(cfg, s, e, r, source);
        } else {
          AccessIsRecorded(cfg, s, e, r, source);
        }
      case _ => WaitingIsNotRecorded(cfg, s, e, r, source);
    }
  }

  lemma {:induction false} RunIsRecorded(cfg: Config, events: seq<Event>, source: string)
    ensures RecordOk(cfg, Run(cfg, events), RecordOf(cfg, events, source), source)
  {
    if events != [] {
      var front, e := events[..|events| - 1], events[|events| - 1];
      RunIsRecorded(cfg, front, source);
      RunIsSafe(cfg, front);
      ActIsRecorded(cfg, Later(Run(cfg, front), e.dt), e, RecordOf(cfg, front, source), source);
    }
  }

  /** In every run a resident bucket is, in every field, the private token bucket that began
      when the source got it and has been through exactly the steps of the source's own
      callers, each at the time since its birth on the common clock, cut to 64 bits; its last
      access is the time since its birth at which the caller that stored last read the clock;
      and the answers the source's callers got since then are that bucket's. */
  lemma {:induction false} ResidentBucketIsPrivate(cfg: Config, events: seq<Event>, source: string)
    ensures IsPrivate(cfg, Run(cfg, events), RecordOf(cfg, events, source), source)
  {
    RunIsRecorded(cfg, events, source);
    LifeIsPrivate(cfg, Run(cfg, events), RecordOf(cfg, events, source), source);
  }

  /** The state is what the record says of the source's own bucket and answers. */
  ghost predicate IsPrivate(cfg: Config, s: Sys, r: Record, source: string) {
    if source in s.buckets then
      var b := TB.Run(cfg.bucket, cfg.threads, r.calls);
      && s.buckets[source].bucket == b
      && s.buckets[source].created == r.born
      && s.buckets[source].lastAccess == (r.used - r.born) % 0x1_0000_0000_0000_0000
      && r.born <= r.used <= s.clock
      && Count(s, source, true) == r.admitted + b.acquired
      && Count(s, source, false) == r.refused + b.rejected
    else
      Count(s, source, true) == r.admitted && Count(s, source, false) == r.refused
  }

  lemma LifeIsPrivate(cfg: Config, s: Sys, r: Record, source: string)
    requires LifeOk(cfg, s, r, source)
    ensures IsPrivate(cfg, s, r, source)
  {
  }

  // -------------------------------------------------------- keeping up with the common clock

  /** A caller in the token bucket of `source` that has not started there is idle in it, one
      that has is not, everybody else is idle; and each call read the time since the bucket's
      birth at which it started. */
  ghost predicate Timed(cfg: Config, s: Sys, r: Record, source: string) {
    source in s.buckets ==>
      && |s.buckets[source].bucket.threads| == |s.threads|
      && forall i: nat :: i < |s.threads| ==> TimedAt(cfg, s, r, source, i)
  }

  ghost predicate TimedAt(cfg: Config, s: Sys, r: Record, source: string, i: nat)
    requires source in s.buckets && i < |s.buckets[source].bucket.threads|
  {
    && (s.buckets[source].bucket.threads[i].Idle? <==> StageIn(s, i, source) != Some(Calling) || i !in r.began)
    && (i in r.began ==>
          && r.born <= r.began[i] <= s.clock
          && TB.LatestReading(cfg.bucket, cfg.threads, r.calls, i)
               == Some((r.began[i] - r.born) % 0x1_0000_0000_0000_0000))
  }

  /** The token bucket's side of a step of caller `tid`: only it moves, it leaves idle if it
      was idle, and only then takes a new reading. */
  lemma StepIsTimed(cfg: Config, calls: seq<TB.Event>, step: TB.Event)
    requires cfg.bucket.refillNanos >= 1 && step.tid < cfg.threads
    ensures
      var b, b' := TB.Run(cfg.bucket, cfg.threads, calls), TB.Run(cfg.bucket, cfg.threads, calls + [step]);
      && |b.threads| == |b'.threads| == cfg.threads
      && b' == TB.Step(cfg.bucket, b, step)
      && !b'.threads[step.tid].Panicked?
      && (b.threads[step.tid].Idle? ==> !b'.threads[step.tid].Idle?)
      && forall i: nat :: i < cfg.threads ==>
           && (i != step.tid ==> b'.threads[i] == b.threads[i])
           && TB.LatestReading(cfg.bucket, cfg.threads, calls + [step], i) ==
                if i == step.tid && b.threads[i].Idle? then Some(step.now)
                else TB.LatestReading(cfg.bucket, cfg.threads, calls, i)
  {
    StepInPrivate(cfg, calls, step);
    TB.RunNeverPanics(cfg.bucket, cfg.threads, calls + [step]);
    assert (calls + [step])[..|calls|] == calls;
  }

  lemma CallIsTimed(cfg: Config, s: Sys, e: Event, r: Record, source: string)
    requires cfg.bucket.refillNanos >= 1 && Safe(cfg, s) && RecordOk(cfg, s, r, source) && Timed(cfg, s, r, source)
    requires StageIn(s, e.tid, source) == Some(Calling)
    ensures Timed(cfg, Act(cfg, s, e), Observe(s, Act(cfg, s, e), e, source, r), source)
  {
    var step := TB.Event(e.tid, (s.clock - r.born) % 0x1_0000_0000_0000_0000, e.spurious);
    StepIsTimed(cfg, r.calls, step);
    CallEffect(cfg, s, e, source);
    CallMoves(cfg, s, e, source);
    ReadingIsTheAge(s.clock, r.born);
    CallIsTimedFrom(cfg, s, Act(cfg, s, e), e, r, source, step);
  }

  lemma CallIsTimedFrom(cfg: Config, s: Sys, s': Sys, e: Event, r: Record, source: string, step: TB.Event)
    requires Timed(cfg, s, r, source) && StageIn(s, e.tid, source) == Some(Calling)
    requires source in s.buckets && source in s'.buckets && |s.threads| == cfg.threads && r.born <= s.clock
    requires step == TB.Event(e.tid, (s.clock - r.born) % 0x1_0000_0000_0000_0000, e.spurious)
    requires s'.clock == s.clock && |s'.threads| == |s.threads| && s'.threads == s.threads[e.tid := s'.threads[e.tid]]
    requires
      var b, b' := s.buckets[source].bucket, s'.buckets[source].bucket;
      && |b.threads| == |b'.threads| == cfg.threads
      && (b.threads[e.tid].Idle? ==> !b'.threads[e.tid].Idle?)
      && (StageIn(s', e.tid, source) == Some(Calling) <==> !b'.threads[e.tid].Idle?)
      && forall i: nat :: i < cfg.threads ==>
           && (i != e.tid ==> b'.threads[i] == b.threads[i])
           && TB.LatestReading(cfg.bucket, cfg.threads, r.calls + [step], i) ==
                if i == e.tid && b.threads[i].Idle? then Some(step.now)
                else TB.LatestReading(cfg.bucket, cfg.threads, r.calls, i)
    ensures Timed(cfg, s', Observe(s, s', e, source, r), source)
  {
    var r' := Observe(s, s', e, source, r);
    forall i: nat | i < |s'.threads| ensures TimedAt(cfg, s', r', source, i) {
      assert TimedAt(cfg, s, r, source, i);
      assert i != e.tid ==> StageIn(s', i, source) == StageIn(s, i, source);
    }
  }

  /** A caller in the token bucket stays there until it is idle again. */
  lemma CallMoves(cfg: Config, s: Sys, e: Event, source: string)
    requires Safe(cfg, s) && StageIn(s, e.tid, source) == Some(Calling) && source in s.buckets
    requires e.tid < |s.buckets[source].bucket.threads|
    ensures
      var t, s' := s.buckets[source], Act(cfg, s, e);
      var b := TB.Step(cfg.bucket, t.bucket, TB.Event(e.tid, Reading(s.clock, t.created), e.spurious));
      && |b.threads| == |t.bucket.threads|
      && (!b.threads[e.tid].Panicked? ==>
            && source in s'.buckets
            && (StageIn(s', e.tid, source) == Some(Calling) <==> !b.threads[e.tid].Idle?))
  {
  }

  lemma AccessIsTimed(cfg: Config, s: Sys, e: Event, r: Record, source: string)
    requires Safe(cfg, s) && RecordOk(cfg, s, r, source) && Timed(cfg, s, r, source)
    requires StageIn(s, e.tid, source).Some? && StageIn(s, e.tid, source).value != Calling
    ensures Timed(cfg, Act(cfg, s, e), Observe(s, Act(cfg, s, e), e, source, r), source)
  {
    AccessEffect(cfg, s, e, source);
    AccessIsTimedFrom(cfg, s, Act(cfg, s, e), e, r, source);
  }

  /** Reading the clock and storing the reading touch no token bucket. */
  lemma AccessEffect(cfg: Config, s: Sys, e: Event, source: string)
    requires source in s.buckets && StageIn(s, e.tid, source).Some? && StageIn(s, e.tid, source).value != Calling
    ensures
      var s' := Act(cfg, s, e);
      && s'.clock == s.clock && s'.buckets.Keys == s.buckets.Keys
      && |s'.threads| == |s.threads| && s'.threads == s.threads[e.tid := s'.threads[e.tid]]
      && s'.buckets[source].bucket == s.buckets[source].bucket
      && (StageIn(s', e.tid, source) == Some(Calling) <==> StageIn(s, e.tid, source).value.Storing?)
  {
  }

  lemma AccessIsTimedFrom(cfg: Config, s: Sys, s': Sys, e: Event, r: Record, source: string)
    requires Timed(cfg, s, r, source) && ReadingsOk(s, r, source)
    requires source in s.buckets && StageIn(s, e.tid, source).Some? && StageIn(s, e.tid, source).value != Calling
    requires s'.clock == s.clock && s'.buckets.Keys == s.buckets.Keys
    requires |s'.threads| == |s.threads| && s'.threads == s.threads[e.tid := s'.threads[e.tid]]
    requires s'.buckets[source].bucket == s.buckets[source].bucket
    requires StageIn(s', e.tid, source) == Some(Calling) <==> StageIn(s, e.tid, source).value.Storing?
    ensures Timed(cfg, s', Observe(s, s', e, source, r), source)
  {
    var r' := Observe(s, s', e, source, r);
    assert e.tid in r'.began ==> r'.began == r.began;
    forall i: nat | i < |s'.threads| ensures TimedAt(cfg, s', r', source, i) {
      assert TimedAt(cfg, s, r, source, i);
      assert i != e.tid ==> StageIn(s', i, source) == StageIn(s, i, source);
    }
  }

  /** Callers that are not inside the bucket of `source` leave its callers alone. */
  lemma OutsidersAreNotTimed(cfg: Config, s: Sys, e: Event, r: Record, source: string)
    requires Safe(cfg, s) && Timed(cfg, s, r, source) && StageIn(s, e.tid, source).None?
    ensures Timed(cfg, Act(cfg, s, e), Observe(s, Act(cfg, s, e), e, source, r), source)
  {
    if e.tid < |s.threads| {
      OutsiderEffect(cfg, s, e, source);
      OutsiderIsNotTimedFrom(cfg, s, Act(cfg, s, e), e, r, source);
    }
  }

  lemma OutsiderIsNotTimedFrom(cfg: Config, s: Sys, s': Sys, e: Event, r: Record, source: string)
    requires Safe(cfg, s) && Timed(cfg, s, r, source) && e.tid < |s.threads| && StageIn(s, e.tid, source).None?
    requires s'.clock == s.clock
    requires |s'.threads| == |s.threads| && s'.threads == s.threads[e.tid := s'.threads[e.tid]]
    requires StageIn(s', e.tid, source) != Some(Calling)
    requires source in s.buckets && source in s'.buckets ==> s'.buckets[source] == s.buckets[source]
    requires source !in s.buckets && source in s'.buckets ==> s'.buckets[source] == Fresh(cfg, s.clock)
    ensures Timed(cfg, s', Observe(s, s', e, source, r), source)
  {
    var r' := Observe(s, s', e, source, r);
    if source in s'.buckets {
      forall i: nat | i < |s'.threads| ensures TimedAt(cfg, s', r', source, i) {
        assert i != e.tid ==> StageIn(s', i, source) == StageIn(s, i, source);
        assert source in s.buckets ==> TimedAt(cfg, s, r, source, i);
      }
    }
  }

  lemma OutsiderEffect(cfg: Config, s: Sys, e: Event, source: string)
    requires Safe(cfg, s) && e.tid < |s.threads| && StageIn(s, e.tid, source).None?
    ensures
      var s' := Act(cfg, s, e);
      && s'.clock == s.clock
      && |s'.threads| == |s.threads| && s'.threads == s.threads[e.tid := s'.threads[e.tid]]
      && StageIn(s', e.tid, source) != Some(Calling)
      && (source in s.buckets && source in s'.buckets ==> s'.buckets[source] == s.buckets[source])
      && (source !in s.buckets && source in s'.buckets ==> s'.buckets[source] == Fresh(cfg, s.clock))
  {
    match s.threads[e.tid]
    case Inside(_, _, _) => OtherBucketsStay(cfg, s, e, source);
    case WantWrite(wanted) => WriteEffect(cfg, s, e, source, wanted);
    case _ =>
  }

  lemma {:induction false} RunIsTimed(cfg: Config, events: seq<Event>, source: string)
    requires cfg.bucket.refillNanos >= 1
    ensures Timed(cfg, Run(cfg, events), RecordOf(cfg, events, source), source)
  {
    if events != [] {
      var front, e := events[..|events| - 1], events[|events| - 1];
      RunIsTimed(cfg, front, source);
      NextIsTimed(cfg, front, e, source);
      assert front + [e] == events;
    }
  }

  lemma {:induction false} NextIsTimed(cfg: Config, events: seq<Event>, e: Event, source: string)
    requires cfg.bucket.refillNanos >= 1 && Timed(cfg, Run(cfg, events), RecordOf(cfg, events, source), source)
    ensures Timed(cfg, Run(cfg, events + [e]), RecordOf(cfg, events + [e], source), source)
  {
    RunIsRecorded(cfg, events, source);
    RunIsSafe(cfg, events);
    RunSnoc(cfg, events, e);
    RecordSnoc(cfg, events, e, source);
    LaterIsTimed(cfg, Run(cfg, events), e.dt, RecordOf(cfg, events, source), source);
    ActIsTimed(cfg, Later(Run(cfg, events), e.dt), e, RecordOf(cfg, events, source), source);
  }

  lemma LaterIsTimed(cfg: Config, s: Sys, dt: nat, r: Record, source: string)
    requires Safe(cfg, s) && RecordOk(cfg, s, r, source) && Timed(cfg, s, r, source)
    ensures var t := Later(s, dt); Safe(cfg, t) && RecordOk(cfg, t, r, source) && Timed(cfg, t, r, source)
  {
    var t := Later(s, dt);
    assert forall i: nat :: StageIn(t, i, source) == StageIn(s, i, source);
    if source in s.buckets {
      forall i: nat | i < |t.threads| ensures TimedAt(cfg, t, r, source, i) {
        assert TimedAt(cfg, s, r, source, i);
      }
    }
  }

  lemma ActIsTimed(cfg: Config, s: Sys, e: Event, r: Record, source: string)
    requires cfg.bucket.refillNanos >= 1 && Safe(cfg, s) && RecordOk(cfg, s, r, source) && Timed(cfg, s, r, source)
    ensures Timed(cfg, Act(cfg, s, e), Observe(s, Act(cfg, s, e), e, source, r), source)
  {
    match StageIn(s, e.tid, source)
    case None => OutsidersAreNotTimed(cfg, s, e, r, source);
    case Some(Calling) => CallIsTimed(cfg, s, e, r, source);
    case Some(_) => AccessIsTimed(cfg, s, e, r, source);
  }

  /** Less than one interval of the first `age` nanoseconds of the bucket's life is unclaimed,
      the age being cut to 64 bits. */
  ghost predicate RefilledUpTo(cfg: Config, b: TB.Sys, age: int) {
    && age % 0x1_0000_0000_0000_0000 < b.lastRefill + cfg.bucket.refillNanos
    && (0 <= age < 0x1_0000_0000_0000_0000 ==> age < b.lastRefill + cfg.bucket.refillNanos)
  }

  /** Whenever a call has returned, its bucket has been refilled up to the moment on the
      common clock at which the call started in it. */
  ghost predicate CallsCaughtUp(cfg: Config, s: Sys, r: Record, source: string) {
    source in s.buckets ==>
      forall tid :: 0 <= tid < cfg.threads && tid in r.began && StageIn(s, tid, source) != Some(Calling) ==>
        r.born <= r.began[tid] <= s.clock && RefilledUpTo(cfg, s.buckets[source].bucket, r.began[tid] - r.born)
  }

  /** In every run, for every resident source. */
  lemma {:induction false} EveryCallCatchesUp(cfg: Config, events: seq<Event>, source: string)
    requires cfg.bucket.refillNanos >= 1
    ensures CallsCaughtUp(cfg, Run(cfg, events), RecordOf(cfg, events, source), source)
  {
    RunIsSafe(cfg, events);
    RunIsTimed(cfg, events, source);
    RunIsRecorded(cfg, events, source);
    CaughtUpFrom(cfg, Run(cfg, events), RecordOf(cfg, events, source), source);
  }

  lemma CaughtUpFrom(cfg: Config, s: Sys, r: Record, source: string)
    requires cfg.bucket.refillNanos >= 1 && Safe(cfg, s) && RecordOk(cfg, s, r, source) && Timed(cfg, s, r, source)
    ensures CallsCaughtUp(cfg, s, r, source)
  {
    if source in s.buckets {
      forall tid | 0 <= tid < cfg.threads && tid in r.began && StageIn(s, tid, source) != Some(Calling)
        ensures r.born <= r.began[tid] <= s.clock
        ensures RefilledUpTo(cfg, s.buckets[source].bucket, r.began[tid] - r.born)
      {
        assert TimedAt(cfg, s, r, source, tid);
        TB.RunCatchesUp(cfg.bucket, cfg.threads, r.calls, tid);
      }
    }
  }

  // ------------------------------------------------------------------------- admissions

  /** The most that `lives` buckets may admit in `elapsed` nanoseconds between them. */
  function Allowance(burst: nat, n: nat, lives: nat, elapsed: nat): nat
    requires n >= 1
  {
    lives * burst + elapsed / n
  }

  /** A bucket's own admissions are bounded by its burst and its age. */
  lemma LifeIsBounded(cfg: Config, s: Sys, r: Record, source: string)
    requires cfg.bucket.refillNanos >= 1 && source in s.buckets && LifeOk(cfg, s, r, source)
    ensures
      s.buckets[source].bucket.acquired <= Allowance(Burst(cfg), cfg.bucket.refillNanos, 1, s.clock - r.born)
  {
    TB.RunAdmissions(cfg.bucket, cfg.threads, r.calls);
    QuotientMonotone(s.buckets[source].bucket.latest, s.clock - r.born, cfg.bucket.refillNanos);
  }

  /** Earlier lives plus the current one: the floors of the parts fit in the floor of the whole. */
  lemma LivesAddUp(burst: nat, n: nat, lives: nat, gone: nat, born: nat, clock: nat)
    requires n >= 1 && gone <= born <= clock
    ensures
      Allowance(burst, n, lives, gone) + Allowance(burst, n, 1, clock - born) <= Allowance(burst, n, lives + 1, clock)
  {
    QuotientSuperadditive(gone, clock - born, n);
    QuotientMonotone(gone + (clock - born), clock, n);
    TimesDistributes(lives, 1, burst);
  }

  ghost predicate WithinAllowance(cfg: Config, s: Sys, r: Record, source: string)
    requires cfg.bucket.refillNanos >= 1
  {
    && r.admitted <= Allowance(Burst(cfg), cfg.bucket.refillNanos, r.departures, r.gone)
    && Count(s, source, true) <= Allowance(Burst(cfg), cfg.bucket.refillNanos, r.departures + 1, s.clock)
  }

  lemma AccountCloses(cfg: Config, s: Sys, r: Record, source: string)
    requires cfg.bucket.refillNanos >= 1 && LifeOk(cfg, s, r, source)
    requires r.admitted <= Allowance(Burst(cfg), cfg.bucket.refillNanos, r.departures, r.gone)
    ensures WithinAllowance(cfg, s, r, source)
  {
    if source in s.buckets {
      LifeIsBounded(cfg, s, r, source);
      LivesAddUp(Burst(cfg), cfg.bucket.refillNanos, r.departures, r.gone, r.born, s.clock);
    } else {
      LivesAddUp(Burst(cfg), cfg.bucket.refillNanos, r.departures, r.gone, s.clock, s.clock);
    }
  }

  /** A step that removes the bucket of `source` answers nobody. */
  lemma DeparturesAreSilent(cfg: Config, s: Sys, e: Event, source: string)
    requires source in s.buckets && source !in Act(cfg, s, e).buckets
    ensures Act(cfg, s, e).answers == s.answers && Act(cfg, s, e).clock == s.clock
  {
  }

  lemma {:induction false} RunIsWithinAllowance(cfg: Config, events: seq<Event>, source: string)
    requires cfg.bucket.refillNanos >= 1
    ensures WithinAllowance(cfg, Run(cfg, events), RecordOf(cfg, events, source), source)
  {
    if events != [] {
      var front, e := events[..|events| - 1], events[|events| - 1];
      RunIsWithinAllowance(cfg, front, source);
      RunIsRecorded(cfg, front, source);
      var s, r := Later(Run(cfg, front), e.dt), RecordOf(cfg, front, source);
      AccountCloses(cfg, s, r, source);
      if source in s.buckets && source !in Act(cfg, s, e).buckets {
        DeparturesAreSilent(cfg, s, e, source);
      }
    }
    RunIsRecorded(cfg, events, source);
    AccountCloses(cfg, Run(cfg, events), RecordOf(cfg, events, source), source);
  }

  /** Up to any moment the callers of a source have been told yes at most the burst once per
      life of its bucket, plus once per refill interval of the time that has passed; with a
      zero interval never. */
  lemma AdmissionsPerSource(
      rate: U64, burst: U64, maxSources: nat, threads: nat, events: seq<Event>, source: string)
    ensures
      var cfg := Config(TB.Configure(rate, burst), maxSources, threads);
      var s := Run(cfg, events);
      if cfg.bucket.refillNanos == 0 then Count(s, source, true) == 0
      else Count(s, source, true)
             <= (RecordOf(cfg, events, source).departures + 1) * burst + s.clock / cfg.bucket.refillNanos
  {
    var cfg := Config(TB.Configure(rate, burst), maxSources, threads);
    TB.ConfigureFacts(rate, burst);
    if cfg.bucket.refillNanos == 0 {
      ZeroIntervalAnswersNobody(cfg, events);
    } else {
      RunIsWithinAllowance(cfg, events, source);
      AllowanceGrows(Burst(cfg), burst, cfg.bucket.refillNanos, RecordOf(cfg, events, source).departures + 1,
                     Run(cfg, events).clock);
    }
  }

  lemma AllowanceGrows(burst: nat, more: nat, n: nat, lives: nat, elapsed: nat)
    requires n >= 1 && burst <= more
    ensures Allowance(burst, n, lives, elapsed) <= lives * more + elapsed / n
  {
    TimesMonotone(burst, more, lives);
  }

  // ------------------------------------------------------------------ a zero interval

  /** Caller `i` is creating the bucket of `source` and has not got past the first load. */
  ghost predicate Doomed(s: Sys, source: string, i: nat) {
    && i < |s.threads| && s.threads[i].Inside? && s.threads[i].source == source && s.threads[i].hold.Creating?
    && source in s.buckets
    && var b := s.buckets[source].bucket;
       i < |b.threads| && (b.threads[i].Idle? || b.threads[i].Claiming?)
  }

  ghost predicate AllDoomed(s: Sys) {
    && s.answers == []
    && forall k :: k in s.buckets ==> exists i: nat :: Doomed(s, k, i)
  }

  lemma AtMostOneDoomed(cfg: Config, s: Sys)
    requires Safe(cfg, s) && AllDoomed(s)
    ensures forall j, k :: j in s.buckets && k in s.buckets ==> j == k
    ensures forall i :: 0 <= i < |s.threads| && s.threads[i].Inside? ==> Doomed(s, s.threads[i].source, i)
  {
    forall j, k | j in s.buckets && k in s.buckets ensures j == k {
      var a: nat :| Doomed(s, j, a);
      var b: nat :| Doomed(s, k, b);
    }
    forall i | 0 <= i < |s.threads| && s.threads[i].Inside? ensures Doomed(s, s.threads[i].source, i) {
      var a: nat :| Doomed(s, s.threads[i].source, a);
    }
  }

  lemma DoomedInsideStep(cfg: Config, s: Sys, e: Event)
    requires cfg.bucket.refillNanos == 0 && Safe(cfg, s) && AllDoomed(s)
    requires e.tid < |s.threads| && s.threads[e.tid].Inside?
    ensures AllDoomed(Act(cfg, s, e))
  {
    AtMostOneDoomed(cfg, s);
    var s', source := Act(cfg, s, e), s.threads[e.tid].source;
    assert source in s'.buckets ==> Doomed(s', source, e.tid);
  }

  lemma DoomedOutsideStep(cfg: Config, s: Sys, e: Event)
    requires Safe(cfg, s) && AllDoomed(s) && e.tid < |s.threads| && !s.threads[e.tid].Inside?
    ensures AllDoomed(Act(cfg, s, e))
  {
    var s' := Act(cfg, s, e);
    if k :| k in s.buckets {
      var i: nat :| Doomed(s, k, i);
      assert Blocked(s.threads, e.tid, false) && Blocked(s.threads, e.tid, true);
      assert s'.buckets == s.buckets && s'.answers == s.answers;
      AtMostOneDoomed(cfg, s);
      assert Doomed(s', k, i);
    } else if s'.buckets != map[] {
      var source := s.threads[e.tid].source;
      assert s'.buckets.Keys == {source};
      assert Doomed(s', source, e.tid);
    }
  }

  lemma {:induction false} RunIsDoomed(cfg: Config, events: seq<Event>)
    requires cfg.bucket.refillNanos == 0
    ensures AllDoomed(Run(cfg, events))
  {
    if events != [] {
      var front, e := events[..|events| - 1], events[|events| - 1];
      RunIsSafe(cfg, front);
      RunIsDoomed(cfg, front);
      DoomedStep(cfg, Run(cfg, front), e);
    }
  }

  lemma DoomedStep(cfg: Config, before: Sys, e: Event)
    requires cfg.bucket.refillNanos == 0 && Safe(cfg, before) && AllDoomed(before)
    ensures AllDoomed(Step(cfg, before, e))
  {
    var s := Later(before, e.dt);
    assert forall k, i: nat :: Doomed(before, k, i) ==> Doomed(s, k, i);
    if e.tid < |s.threads| {
      if s.threads[e.tid].Inside? {
        DoomedInsideStep(cfg, s, e);
      } else {
        DoomedOutsideStep(cfg, s, e);
      }
    }
  }

  ghost predicate Quiet(s: Sys) { forall i :: 0 <= i < |s.threads| ==> !s.threads[i].Inside? }

  /** With a zero refill interval every call panics: none is ever answered, and no bucket
      outlives the call that made it. */
  lemma ZeroIntervalAnswersNobody(cfg: Config, events: seq<Event>)
    requires cfg.bucket.refillNanos == 0
    ensures
      var s := Run(cfg, events);
      s.answers == [] && (Quiet(s) ==> s.buckets == map[])
  {
    RunIsDoomed(cfg, events);
    var s := Run(cfg, events);
    if k :| k in s.buckets {
      var i: nat :| Doomed(s, k, i);
    }
  }

  // ------------------------------------------------------------- calls that run alone

  /** Creation time and stored access of every resident bucket. */
  function Profile(s: Sys): map<string, (nat, U64)> {
    map k | k in s.buckets :: (s.buckets[k].created, s.buckets[k].lastAccess)
  }

  /** Steps left to a caller in the token bucket, if it runs alone. */
  function StepsLeft(t: Tracked, tid: nat): nat
    requires tid < |t.bucket.threads|
  {
    var pc := t.bucket.threads[tid];
    if pc.Idle? then 7 else TB.Rank(t.bucket, pc)
  }

  lemma ResidentFacts(cfg: Config, events: seq<Event>, source: string)
    requires cfg.bucket.refillNanos >= 1 && source in Run(cfg, events).buckets
    ensures
      var b := Run(cfg, events).buckets[source].bucket;
      |b.threads| == cfg.threads && forall i :: 0 <= i < |b.threads| ==> !b.threads[i].Panicked?
  {
    RunIsRecorded(cfg, events, source);
    var calls := RecordOf(cfg, events, source).calls;
    TB.ExecKeepsThreads(cfg.bucket, TB.Init(cfg.bucket, cfg.threads), calls);
    TB.InitInv(cfg.bucket, cfg.threads);
    TB.ExecInv(cfg.bucket, TB.Init(cfg.bucket, cfg.threads), calls);
    var b := Run(cfg, events).buckets[source].bucket;
    forall i | 0 <= i < |b.threads| ensures !b.threads[i].Panicked? {
      assert TB.ThreadOk(cfg.bucket, b, b.threads[i]);
    }
  }

  /** From state `s` a run goes on to `t`, in which caller `tid` is where `phase` says, nobody
      else has moved, and the clock is at `clock`. */
  ghost predicate MovedTo(s: Sys, t: Sys, tid: nat, phase: Phase, clock: nat) {
    tid < |s.threads| && t.threads == s.threads[tid := phase] && t.clock == clock
  }

  function Plain(tid: nat, dt: nat, source: string): Event { Event(tid, dt, source, "", false) }

  lemma FinishStep(cfg: Config, s: Sys, tid: nat)
    requires cfg.bucket.refillNanos >= 1 && tid < |s.threads|
    requires s.threads[tid].Inside? && s.threads[tid].stage.Calling? && s.threads[tid].source in s.buckets
    requires
      var b := s.buckets[s.threads[tid].source].bucket;
      tid < |b.threads| && !b.threads[tid].Panicked?
    ensures
      var p, t := s.threads[tid], Step(cfg, s, Plain(tid, 0, ""));
      && p.source in t.buckets
      && Profile(t) == Profile(s)
      && (|| MovedTo(s, t, tid, Outside, s.clock)
          || (&& MovedTo(s, t, tid, p, s.clock)
              && tid < |t.buckets[p.source].bucket.threads|
              && StepsLeft(t.buckets[p.source], tid) < StepsLeft(s.buckets[p.source], tid)))
  {
    var p := s.threads[tid];
    var b, now := s.buckets[p.source], Reading(s.clock, s.buckets[p.source].created);
    TB.SoloStep(cfg.bucket, b.bucket, tid, now);
    var t := Step(cfg, s, Plain(tid, 0, ""));
    assert t.threads == s.threads[tid := t.threads[tid]];
  }

  /** The buckets' last uses did not change. */
  ghost predicate SameUses(cfg: Config, events: seq<Event>, more: seq<Event>) {
    forall k :: RecordOf(cfg, more, k).used == RecordOf(cfg, events, k).used
  }

  lemma CallingKeepsUses(cfg: Config, events: seq<Event>, e: Event)
    requires
      var s := Run(cfg, events);
      e.tid < |s.threads| && s.threads[e.tid].Inside? && s.threads[e.tid].stage.Calling?
    ensures SameUses(cfg, events, events + [e])
  {
    var s := Later(Run(cfg, events), e.dt);
    assert Act(cfg, s, e).buckets.Keys <= s.buckets.Keys;
    forall k ensures RecordOf(cfg, events + [e], k).used == RecordOf(cfg, events, k).used {
      RecordSnoc(cfg, events, e, k);
    }
  }

  lemma WaitingKeepsUses(cfg: Config, events: seq<Event>, e: Event)
    requires
      var s := Run(cfg, events);
      e.tid < |s.threads| && (s.threads[e.tid].Outside? || s.threads[e.tid].WantRead?)
    ensures SameUses(cfg, events, events + [e])
  {
    var s := Later(Run(cfg, events), e.dt);
    assert Act(cfg, s, e).buckets == s.buckets;
    forall k ensures RecordOf(cfg, events + [e], k).used == RecordOf(cfg, events, k).used {
      RecordSnoc(cfg, events, e, k);
    }
  }

  /** A caller in its token bucket that runs alone returns, and the stored accesses stay. */
  lemma {:induction false} FinishAlone(cfg: Config, events: seq<Event>, tid: nat) returns (more: seq<Event>)
    requires cfg.bucket.refillNanos >= 1 && tid < cfg.threads
    requires
      var s := Run(cfg, events);
      |s.threads| == cfg.threads && s.threads[tid].Inside? && s.threads[tid].stage.Calling?
      && s.threads[tid].source in s.buckets && tid < |s.buckets[s.threads[tid].source].bucket.threads|
    ensures
      var s, t := Run(cfg, events), Run(cfg, more);
      MovedTo(s, t, tid, Outside, s.clock) && Profile(t) == Profile(s)
    ensures SameUses(cfg, events, more)
    decreases var s := Run(cfg, events); StepsLeft(s.buckets[s.threads[tid].source], tid)
  {
    var s := Run(cfg, events);
    var source := s.threads[tid].source;
    ResidentFacts(cfg, events, source);
    FinishStep(cfg, s, tid);
    CallingKeepsUses(cfg, events, Plain(tid, 0, ""));
    more := events + [Plain(tid, 0, "")];
    RunSnoc(cfg, events, Plain(tid, 0, ""));
    var t := Run(cfg, more);
    if t.threads[tid].Inside? {
      more := FinishAlone(cfg, more, tid);
    }
  }

  /** `source` was used at `time`, and no other bucket's last use changed. */
  ghost predicate UsedNow(cfg: Config, events: seq<Event>, more: seq<Event>, source: string, time: nat) {
    forall k :: RecordOf(cfg, more, k).used == if k == source then time else RecordOf(cfg, events, k).used
  }

  lemma EnteringIsNoted(cfg: Config, s: Sys, e: Event, k: string, r: Record)
    requires e.tid < |s.threads| && s.threads[e.tid].Inside? && s.threads[e.tid].stage.Entering?
    requires s.threads[e.tid].source in s.buckets
    ensures
      var source, r' := s.threads[e.tid].source, Observe(s, Act(cfg, s, e), e, k, r);
      && r'.used == r.used
      && (k == source ==> e.tid in r'.looked && r'.looked[e.tid] == s.clock)
  {
  }

  lemma StoringIsNoted(cfg: Config, s: Sys, e: Event, k: string, r: Record)
    requires e.tid < |s.threads| && s.threads[e.tid].Inside? && s.threads[e.tid].stage.Storing?
    requires s.threads[e.tid].source in s.buckets
    requires k == s.threads[e.tid].source ==> e.tid in r.looked
    ensures
      Observe(s, Act(cfg, s, e), e, k, r).used == if k == s.threads[e.tid].source then r.looked[e.tid] else r.used
  {
  }

  /** Reading the clock and storing the reading, with nothing in between, is a use. */
  lemma {:induction false} EnteringIsAUse(cfg: Config, events: seq<Event>, e: Event, source: string)
    requires e.dt == 0 && source in Run(cfg, events).buckets
    requires
      var s := Run(cfg, events);
      e.tid < |s.threads| && s.threads[e.tid].Inside? && s.threads[e.tid].stage.Entering? && s.threads[e.tid].source == source
    ensures UsedNow(cfg, events, events + [e] + [e], source, Run(cfg, events).clock)
  {
    RunSnoc(cfg, events, e);
    var s, t := Run(cfg, events), Run(cfg, events + [e]);
    assert Later(s, 0) == s && Later(t, 0) == t && t == Act(cfg, s, e);
    forall k ensures RecordOf(cfg, events + [e] + [e], k).used == if k == source then s.clock else RecordOf(cfg, events, k).used {
      RecordSnoc(cfg, events, e, k);
      RecordSnoc(cfg, events + [e], e, k);
      EnteringIsNoted(cfg, s, e, k, RecordOf(cfg, events, k));
      StoringIsNoted(cfg, t, e, k, RecordOf(cfg, events + [e], k));
    }
  }

  /** A caller that has just entered stores its reading and finishes. */
  lemma EnterAlone(cfg: Config, events: seq<Event>, tid: nat) returns (more: seq<Event>)
    requires cfg.bucket.refillNanos >= 1 && tid < cfg.threads
    requires
      var s := Run(cfg, events);
      |s.threads| == cfg.threads && s.threads[tid].Inside? && s.threads[tid].stage.Entering?
      && s.threads[tid].source in s.buckets
    ensures
      var s, t := Run(cfg, events), Run(cfg, more);
      var source := s.threads[tid].source;
      var created := s.buckets[source].created;
      MovedTo(s, t, tid, Outside, s.clock) && Profile(t) == Profile(s)[source := (created, Reading(s.clock, created))]
    ensures UsedNow(cfg, events, more, Run(cfg, events).threads[tid].source, Run(cfg, events).clock)
  {
    var s, e := Run(cfg, events), Plain(tid, 0, "");
    var source := s.threads[tid].source;
    RunSnoc(cfg, events, e);
    RunSnoc(cfg, events + [e], e);
    var t := Run(cfg, events + [e] + [e]);
    ResidentFacts(cfg, events + [e] + [e], source);
    EnteringIsAUse(cfg, events, e, source);
    more := FinishAlone(cfg, events + [e] + [e], tid);
  }

  ghost predicate Idle(s: Sys) { forall i :: 0 <= i < |s.threads| ==> s.threads[i].Outside? }

  /** With everybody outside, caller 0 calls for a resident source after `dt`. */
  lemma UseAlone(cfg: Config, events: seq<Event>, dt: nat, source: string) returns (more: seq<Event>)
    requires cfg.bucket.refillNanos >= 1 && cfg.threads >= 1
    requires Idle(Run(cfg, events)) && source in Run(cfg, events).buckets
    ensures
      var s, t := Run(cfg, events), Run(cfg, more);
      var created := s.buckets[source].created;
      && Idle(t) && t.clock == s.clock + dt
      && Profile(t) == Profile(s)[source := (created, Reading(t.clock, created))]
    ensures UsedNow(cfg, events, more, source, Run(cfg, more).clock)
  {
    var e := Plain(0, dt, source);
    var f := Plain(0, 0, "");
    RunIsSafe(cfg, events);
    RunSnoc(cfg, events, e);
    RunSnoc(cfg, events + [e], f);
    var t := Run(cfg, events + [e] + [f]);
    assert t.threads[0] == Inside(source, Shared, Entering);
    WaitingKeepsUses(cfg, events, e);
    WaitingKeepsUses(cfg, events + [e], f);
    more := EnterAlone(cfg, events + [e] + [f], 0);
  }

  /** Caller 0 asks after `dt` for a source without a bucket, and waits for the write lock. */
  lemma AskAlone(cfg: Config, events: seq<Event>, dt: nat, source: string) returns (more: seq<Event>)
    requires cfg.threads >= 1 && Idle(Run(cfg, events)) && source !in Run(cfg, events).buckets
    ensures
      var s, t := Run(cfg, events), Run(cfg, more);
      && |s.threads| == cfg.threads
      && MovedTo(s, t, 0, WantWrite(source), s.clock + dt) && t.buckets == s.buckets
      && !Blocked(t.threads, 0, false)
    ensures SameUses(cfg, events, more)
  {
    var e := Plain(0, dt, source);
    var f := Plain(0, 0, "");
    RunIsSafe(cfg, events);
    RunSnoc(cfg, events, e);
    RunSnoc(cfg, events + [e], f);
    WaitingKeepsUses(cfg, events, e);
    WaitingKeepsUses(cfg, events + [e], f);
    more := events + [e] + [f];
  }

  /** With everybody outside and room in the map, caller 0 makes a bucket after `dt`. */
  lemma InsertAlone(cfg: Config, events: seq<Event>, dt: nat, source: string) returns (more: seq<Event>)
    requires cfg.threads >= 1
    requires Idle(Run(cfg, events)) && source !in Run(cfg, events).buckets && !Full(cfg, Run(cfg, events).buckets)
    ensures
      var s, t := Run(cfg, events), Run(cfg, more);
      && |s.threads| == cfg.threads
      && MovedTo(s, t, 0, Inside(source, Creating, Entering), s.clock + dt)
      && t.buckets == s.buckets[source := Fresh(cfg, s.clock + dt)]
  {
    var g := Plain(0, 0, "");
    var asked := AskAlone(cfg, events, dt, source);
    RunSnoc(cfg, asked, g);
    more := asked + [g];
    assert Run(cfg, more) == Insert(cfg, Run(cfg, asked), 0, source);
  }

  /** With everybody outside and room in the map, caller 0 calls for a new source after `dt`. */
  lemma CreateAlone(cfg: Config, events: seq<Event>, dt: nat, source: string) returns (more: seq<Event>)
    requires cfg.bucket.refillNanos >= 1 && cfg.threads >= 1
    requires Idle(Run(cfg, events)) && source !in Run(cfg, events).buckets && !Full(cfg, Run(cfg, events).buckets)
    ensures
      var s, t := Run(cfg, events), Run(cfg, more);
      && Idle(t) && t.clock == s.clock + dt
      && Profile(t) == Profile(s)[source := (t.clock, 0)]
      && |t.buckets| == |s.buckets| + 1
  {
    var made := InsertAlone(cfg, events, dt, source);
    more := EnterAlone(cfg, made, 0);
    var s, u, t := Run(cfg, events), Run(cfg, made), Run(cfg, more);
    CreatedProfile(cfg, s, u, t, source);
    BackOutside(s, u, t);
  }

  /** If only caller 0 moved, and it is outside again, then everybody is. */
  lemma BackOutside(s: Sys, u: Sys, t: Sys)
    requires Idle(s) && |s.threads| > 0
    requires exists pc :: MovedTo(s, u, 0, pc, u.clock)
    requires MovedTo(u, t, 0, Outside, u.clock)
    ensures Idle(t)
  {
  }

  lemma CreatedProfile(cfg: Config, s: Sys, u: Sys, t: Sys, source: string)
    requires source !in s.buckets && u.buckets == s.buckets[source := Fresh(cfg, u.clock)]
    requires Profile(t) == Profile(u)[source := (u.clock, Reading(u.clock, u.clock))]
    ensures Profile(t) == Profile(s)[source := (u.clock, 0)]
    ensures |t.buckets| == |s.buckets| + 1
  {
    NoTimePassed(u.clock);
    FreshProfile(cfg, s, u, source);
    OneMoreBucket(s, t, source);
  }

  lemma FreshProfile(cfg: Config, s: Sys, u: Sys, source: string)
    requires u.buckets == s.buckets[source := Fresh(cfg, u.clock)]
    ensures Profile(u) == Profile(s)[source := (u.clock, 0)]
  {
  }

  lemma NoTimePassed(clock: nat)
    ensures Reading(clock, clock) == 0
  {
  }

  lemma OneMoreBucket(s: Sys, t: Sys, source: string)
    requires source !in s.buckets && Profile(t).Keys == Profile(s).Keys + {source}
    ensures |t.buckets| == |s.buckets| + 1
  {
    assert t.buckets.Keys == Profile(t).Keys && s.buckets.Keys == Profile(s).Keys;
    assert |t.buckets.Keys| == |s.buckets.Keys| + 1;
  }

  // --------------------------------------------------------------------------- eviction

  /** The limit documented for the map holds in every run, observed while nobody is inside,
      if and only if it is at least one (or every call panics): a limit of zero keeps one. */
  lemma LimitHoldsExactlyWhen(cfg: Config)
    requires cfg.threads >= 1
    ensures
      (forall events: seq<Event> :: Quiet(Run(cfg, events)) ==> |Run(cfg, events).buckets| <= cfg.maxSources) <==>
      (cfg.maxSources >= 1 || cfg.bucket.refillNanos == 0)
  {
    if cfg.bucket.refillNanos == 0 {
      forall events: seq<Event> | Quiet(Run(cfg, events)) ensures Run(cfg, events).buckets == map[] {
        ZeroIntervalAnswersNobody(cfg, events);
      }
    } else if cfg.maxSources == 0 {
      assert Idle(Run(cfg, []));
      var events := CreateAlone(cfg, [], 0, "");
      assert Quiet(Run(cfg, events)) && |Run(cfg, events).buckets| == 1;
    } else {
      forall events: seq<Event> ensures |Run(cfg, events).buckets| <= cfg.maxSources {
        MapIsBounded(cfg, events);
      }
    }
  }

  /** When the bucket of `source` was last used, on the common clock: when the caller that was
      the last to store its access had read the clock, or when the bucket was made. */
  function LastUse(cfg: Config, events: seq<Event>, source: string): nat { RecordOf(cfg, events, source).used }

  /** In every run the stored access is the time of the last use since the bucket's creation,
      cut to 64 bits; within 64 bits of nanoseconds, creation plus stored access is the time
      of the last use itself. */
  lemma {:induction false} AccessIsTheLastUse(cfg: Config, events: seq<Event>, source: string)
    ensures RecordsTheLastUse(Run(cfg, events), source, LastUse(cfg, events, source))
  {
    RunIsRecorded(cfg, events, source);
    AccessIsTheUse(cfg, Run(cfg, events), RecordOf(cfg, events, source), source);
  }

  lemma AccessIsTheUse(cfg: Config, s: Sys, r: Record, source: string)
    requires LifeOk(cfg, s, r, source)
    ensures RecordsTheLastUse(s, source, r.used)
  {
  }

  ghost predicate RecordsTheLastUse(s: Sys, source: string, used: nat) {
    source in s.buckets ==> Stores(s.buckets[source], used) && used <= s.clock
  }

  ghost predicate Stores(t: Tracked, used: nat) {
    && t.created <= used
    && t.lastAccess == (used - t.created) % 0x1_0000_0000_0000_0000
    && (used - t.created < 0x1_0000_0000_0000_0000 ==> t.created + t.lastAccess == used)
  }

  ghost predicate Evicts(cfg: Config, s: Sys, e: Event, victim: string) {
    victim in s.buckets && victim !in Step(cfg, s, e).buckets
  }

  /** Whatever bucket leaves the map in this step was used no later than any other. */
  ghost predicate EvictsLru(cfg: Config, events: seq<Event>, e: Event) {
    forall v, k :: Evicts(cfg, Run(cfg, events), e, v) && k in Run(cfg, events).buckets ==>
      LastUse(cfg, events, v) <= LastUse(cfg, events, k)
  }

  lemma SingleBucket(cfg: Config, s: Sys, j: string, k: string)
    requires Safe(cfg, s) && j in s.buckets && k in s.buckets
    requires cfg.maxSources <= 1 || AllDoomed(s)
    ensures j == k
  {
    if AllDoomed(s) {
      AtMostOneDoomed(cfg, s);
    } else if j != k {
      SubsetIsSmaller({j, k}, s.buckets.Keys);
    }
  }

  lemma WritersEvictTheOldest(cfg: Config, s: Sys, e: Event, v: string)
    requires Evicts(cfg, s, e, v) && !s.threads[e.tid].Inside?
    ensures Oldest(s.buckets, v)
  {
  }

  /** With a positive interval nobody panics, so a step inside a bucket removes none. */
  lemma CallersEvictNobody(cfg: Config, events: seq<Event>, e: Event, v: string)
    requires cfg.bucket.refillNanos >= 1
    requires
      var s := Run(cfg, events);
      e.tid < |s.threads| && s.threads[e.tid].Inside? && s.threads[e.tid].source in s.buckets && v in s.buckets
    ensures !Evicts(cfg, Run(cfg, events), e, v)
  {
    var s := Run(cfg, events);
    var source := s.threads[e.tid].source;
    ResidentFacts(cfg, events, source);
    RunIsSafe(cfg, events);
    var t := s.buckets[source];
    TB.NobodyPanics(cfg.bucket, t.bucket, TB.Event(e.tid, Reading(s.clock + e.dt, t.created), e.spurious));
  }

  /** A bucket that leaves the map was chosen by the scan, or is the only one. */
  lemma DeparturesAreOldest(cfg: Config, events: seq<Event>, e: Event, v: string)
    requires Evicts(cfg, Run(cfg, events), e, v)
    ensures Oldest(Run(cfg, events).buckets, v)
  {
    var s := Run(cfg, events);
    RunIsSafe(cfg, events);
    if cfg.bucket.refillNanos == 0 {
      RunIsDoomed(cfg, events);
      forall k | k in s.buckets ensures k == v {
        SingleBucket(cfg, s, k, v);
      }
    } else if s.threads[e.tid].Inside? {
      CallersEvictNobody(cfg, events, e, v);
    } else {
      WritersEvictTheOldest(cfg, s, e, v);
    }
  }

  /** Whatever bucket leaves the map in this step was used later than another only if it is
      younger, and then by no more than the difference of their ages. */
  ghost predicate EvictsLruUpToAge(cfg: Config, events: seq<Event>, e: Event) {
    forall v, k :: Evicts(cfg, Run(cfg, events), e, v) && k in Run(cfg, events).buckets ==>
      LastUse(cfg, events, v)
        <= LastUse(cfg, events, k)
           + SaturatingSub(Run(cfg, events).buckets[v].created, Run(cfg, events).buckets[k].created)
  }

  /** In every run of at most 64 bits of nanoseconds. */
  lemma {:induction false} EvictionIsLruUpToAge(cfg: Config, events: seq<Event>, e: Event)
    requires Run(cfg, events).clock <= U64_MAX
    ensures EvictsLruUpToAge(cfg, events, e)
  {
    var s := Run(cfg, events);
    forall v, k | Evicts(cfg, s, e, v) && k in s.buckets
      ensures LastUse(cfg, events, v)
                <= LastUse(cfg, events, k) + SaturatingSub(s.buckets[v].created, s.buckets[k].created)
    {
      DeparturesAreOldest(cfg, events, e, v);
      AccessIsTheLastUse(cfg, events, v);
      AccessIsTheLastUse(cfg, events, k);
    }
  }

  /** The `n`-th source. */
  function Nth(n: nat): string { seq(n, _ => 'x') }

  /** Sources 0 to n - 1. */
  function FirstSources(n: nat): set<string> { if n == 0 then {} else FirstSources(n - 1) + {Nth(n - 1)} }

  lemma {:induction false} SourceNumbers(n: nat, k: string)
    ensures k in FirstSources(n) <==> exists i: nat :: i < n && k == Nth(i)
  {
    if n > 0 {
      SourceNumbers(n - 1, k);
    }
  }

  lemma NthIsNew(n: nat)
    ensures Nth(n) !in FirstSources(n)
    ensures forall i: nat :: i < n ==> Nth(i) != Nth(n) && Nth(i) in FirstSources(n)
  {
    SourceNumbers(n, Nth(n));
    forall i: nat | i < n ensures Nth(i) != Nth(n) && Nth(i) in FirstSources(n) {
      assert |Nth(i)| == i && |Nth(n)| == n;
      SourceNumbers(n, Nth(i));
    }
  }

  /** Everybody is outside at time `clock`; sources 0 to n - 1 have buckets; source 0 was
      created at time 0 and has stored access `first`, source 1 was created at `made` and has
      stored access zero. */
  ghost predicate Row(s: Sys, n: nat, clock: nat, first: U64, made: nat) {
    && n >= 1 && Idle(s) && |s.buckets| == n && s.clock == clock
    && s.buckets.Keys == FirstSources(n) && Nth(0) in s.buckets && Profile(s)[Nth(0)] == (0, first)
    && (n > 1 ==> Nth(1) in s.buckets && Profile(s)[Nth(1)] == (made, 0))
  }

  lemma OneMoreKey<K, V>(m: map<K, V>, k: K, v: V)
    ensures m[k := v].Keys == m.Keys + {k}
  {
  }

  lemma FirstInRow(cfg: Config, made: nat) returns (events: seq<Event>)
    requires cfg.bucket.refillNanos >= 1 && cfg.threads >= 1
    ensures Row(Run(cfg, events), 1, 0, 0, made)
  {
    var s := Run(cfg, []);
    assert Idle(s) && s.buckets == map[];
    events := CreateAlone(cfg, [], 0, Nth(0));
    IsFirst(s, Run(cfg, events), made);
  }

  lemma IsFirst(s: Sys, t: Sys, made: nat)
    requires s.buckets == map[] && Idle(t) && t.clock == 0 && |t.buckets| == 1
    requires Profile(t) == Profile(s)[Nth(0) := (0, 0)]
    ensures Row(t, 1, 0, 0, made)
  {
    OneMoreKey(Profile(s), Nth(0), (0, 0));
    assert t.buckets.Keys == Profile(t).Keys == {Nth(0)};
    assert FirstSources(1) == FirstSources(0) + {Nth(0)};
  }

  /** With room in the map, the next source gets its bucket at time `made`. */
  lemma NextInRow(s: Sys, t: Sys, n: nat, clock: nat, first: U64, made: nat)
    requires Row(s, n, clock, first, made) && Idle(t) && t.clock == made && |t.buckets| == n + 1
    requires Profile(t) == Profile(s)[Nth(n) := (made, 0)]
    ensures Row(t, n + 1, made, first, made)
  {
    NthIsNew(n);
    OneMoreKey(Profile(s), Nth(n), (made, 0));
    assert t.buckets.Keys == Profile(t).Keys && s.buckets.Keys == Profile(s).Keys;
    assert Nth(n) != Nth(0) && (n > 1 ==> Nth(n) != Nth(1));
  }

  lemma RoomInRow(cfg: Config, s: Sys, n: nat, clock: nat, first: U64, made: nat)
    requires Row(s, n, clock, first, made)
    ensures Nth(n) !in s.buckets && (n < cfg.maxSources ==> !Full(cfg, s.buckets))
  {
    NthIsNew(n);
  }

  /** Fill the map up to `n` sources at time `made`. */
  lemma {:induction false} FillRow(cfg: Config, events: seq<Event>, m: nat, n: nat, clock: nat, first: U64, made: nat)
    returns (more: seq<Event>)
    requires cfg.bucket.refillNanos >= 1 && cfg.threads >= 1 && m < n <= cfg.maxSources && clock <= made
    requires Row(Run(cfg, events), m, clock, first, made)
    ensures Row(Run(cfg, more), n, made, first, made)
    decreases n - m
  {
    RoomInRow(cfg, Run(cfg, events), m, clock, first, made);
    more := CreateAlone(cfg, events, made - clock, Nth(m));
    NextInRow(Run(cfg, events), Run(cfg, more), m, clock, first, made);
    if m + 1 < n {
      more := FillRow(cfg, more, m + 1, n, made, first, made);
    }
  }

  /** Using source 0, or source 1 when it stores zero, keeps the row. */
  lemma RowAfterUse(s: Sys, t: Sys, n: nat, first: U64, made: nat, i: nat, access: U64)
    requires Row(s, n, s.clock, first, made) && i < Min(2, n) && (i == 1 ==> access == 0)
    requires Idle(t) && Profile(t) == Profile(s)[Nth(i) := (if i == 0 then 0 else made, access)]
    ensures Row(t, n, t.clock, if i == 0 then access else first, made)
  {
    NthIsNew(1);
    OneMoreKey(Profile(s), Nth(i), (if i == 0 then 0 else made, access));
    assert t.buckets.Keys == Profile(t).Keys && s.buckets.Keys == Profile(s).Keys;
  }

  lemma UseInRow(
      cfg: Config, events: seq<Event>, n: nat, clock: nat, first: U64, made: nat, i: nat, time: nat, access: U64)
    returns (more: seq<Event>)
    requires cfg.bucket.refillNanos >= 1 && cfg.threads >= 1 && i < Min(2, n) && clock <= time
    requires Row(Run(cfg, events), n, clock, first, made)
    requires access == Reading(time, if i == 0 then 0 else made) && (i == 1 ==> access == 0)
    ensures Row(Run(cfg, more), n, time, if i == 0 then access else first, made)
    ensures LastUse(cfg, more, Nth(i)) == time
    ensures LastUse(cfg, more, Nth(1 - i)) == LastUse(cfg, events, Nth(1 - i))
  {
    NthIsNew(1);
    more := UseAlone(cfg, events, time - clock, Nth(i));
    UsesAre(cfg, events, more, Nth(i), Nth(1 - i), time);
    RowAfterUse(Run(cfg, events), Run(cfg, more), n, first, made, i, access);
  }

  lemma UsesAre(cfg: Config, events: seq<Event>, more: seq<Event>, source: string, other: string, time: nat)
    requires UsedNow(cfg, events, more, source, time) && source != other
    ensures LastUse(cfg, more, source) == time
    ensures LastUse(cfg, more, other) == LastUse(cfg, events, other)
  {
  }

  /** In a full row a new source may evict source 1, whose stored access is zero. */
  lemma EvictFromRow(cfg: Config, events: seq<Event>, clock: nat, first: U64, made: nat)
    returns (more: seq<Event>, e: Event)
    requires cfg.threads >= 1 && cfg.maxSources >= 2 && Row(Run(cfg, events), cfg.maxSources, clock, first, made)
    ensures
      var s := Run(cfg, more);
      && s.clock == clock && Evicts(cfg, s, e, Nth(1)) && Nth(0) in s.buckets
      && Profile(s)[Nth(0)] == (0, first) && Profile(s)[Nth(1)] == (made, 0)
    ensures SameUses(cfg, events, more)
  {
    var n := cfg.maxSources;
    RoomInRow(cfg, Run(cfg, events), n, clock, first, made);
    ZeroIsOldest(Run(cfg, events), n, clock, first, made);
    more := AskAlone(cfg, events, 0, Nth(n));
    e := Event(0, 0, "", Nth(1), false);
  }

  lemma ZeroIsOldest(s: Sys, n: nat, clock: nat, first: U64, made: nat)
    requires Row(s, n, clock, first, made) && n >= 2
    ensures Oldest(s.buckets, Nth(1)) && Nth(n) != Nth(1)
  {
    NthIsNew(n);
    assert Profile(s)[Nth(1)] == (made, 0);
  }

  /** A full map of at least two sources, and a step of caller 0 that removes the bucket used
      at time 2, with the smaller stored access, and keeps the one used at time 1. */
  lemma RecentBucketIsEvicted(cfg: Config) returns (events: seq<Event>, e: Event)
    requires cfg.bucket.refillNanos >= 1 && cfg.threads >= 1 && cfg.maxSources >= 2
    ensures
      var s := Run(cfg, events);
      && Evicts(cfg, s, e, Nth(1)) && Nth(0) in s.buckets
      && Profile(s)[Nth(0)] == (0, 1) && LastUse(cfg, events, Nth(0)) == 1
      && Profile(s)[Nth(1)] == (2, 0) && LastUse(cfg, events, Nth(1)) == 2
  {
    assert Reading(1, 0) == 1;
    var made := FirstInRow(cfg, 2);
    var used := UseInRow(cfg, made, 1, 0, 0, 2, 0, 1, 1);
    var filled := FillRow(cfg, used, 1, cfg.maxSources, 1, 1, 2);
    events, e := EvictFromRow(cfg, filled, 2, 1, 2);
    AccessIsTheLastUse(cfg, events, Nth(0));
    AccessIsTheLastUse(cfg, events, Nth(1));
  }

  /** Last accesses are stored relative to each bucket's own creation: every eviction of every
      run is least recently used on the common clock if and only if at most one source is
      ever kept (or every call panics). */
  lemma LruExactlyWhen(cfg: Config)
    requires cfg.threads >= 1
    ensures
      (forall events: seq<Event>, e: Event :: EvictsLru(cfg, events, e)) <==>
      (cfg.maxSources <= 1 || cfg.bucket.refillNanos == 0)
  {
    if cfg.maxSources <= 1 || cfg.bucket.refillNanos == 0 {
      forall events: seq<Event>, e: Event ensures EvictsLru(cfg, events, e) {
        AtMostOneBucket(cfg, events);
      }
    } else {
      var events, e := RecentBucketIsEvicted(cfg);
      assert !EvictsLru(cfg, events, e);
    }
  }

  lemma AtMostOneBucket(cfg: Config, events: seq<Event>)
    requires cfg.maxSources <= 1 || cfg.bucket.refillNanos == 0
    ensures forall v, k :: v in Run(cfg, events).buckets && k in Run(cfg, events).buckets ==> v == k
  {
    var s := Run(cfg, events);
    RunIsSafe(cfg, events);
    if cfg.bucket.refillNanos == 0 {
      RunIsDoomed(cfg, events);
    }
    forall v, k | v in s.buckets && k in s.buckets ensures v == k {
      SingleBucket(cfg, s, v, k);
    }
  }

  // ------------------------------------------------------ after 64 bits of nanoseconds

  /** After 2^64 nanoseconds a bucket used just now stores access zero: a run and a step that
      evict it and keep one of the same age used 2^64 - 1 nanoseconds earlier. */
  lemma WrappedBucketIsEvicted(cfg: Config) returns (events: seq<Event>, e: Event)
    requires cfg.bucket.refillNanos >= 1 && cfg.threads >= 1 && cfg.maxSources >= 2
    ensures
      var s := Run(cfg, events);
      && s.clock == 0x1_0000_0000_0000_0000
      && Evicts(cfg, s, e, Nth(1)) && Nth(0) in s.buckets
      && Profile(s)[Nth(0)] == (0, 1) && LastUse(cfg, events, Nth(0)) == 1
      && Profile(s)[Nth(1)] == (0, 0) && LastUse(cfg, events, Nth(1)) == 0x1_0000_0000_0000_0000
  {
    var late := 0x1_0000_0000_0000_0000;
    assert Reading(1, 0) == 1 && Reading(late, 0) == 0;
    var used := TwoUses(cfg, cfg.maxSources, 1, late);
    events, e := EvictFromRow(cfg, used, late, 1, 0);
  }

  /** All sources are created at time 0; source 0 is used at `early` and stores that; source 1
      is used at `late` and stores zero. */
  lemma TwoUses(cfg: Config, n: nat, early: U64, late: nat) returns (events: seq<Event>)
    requires cfg.bucket.refillNanos >= 1 && cfg.threads >= 1 && 2 <= n <= cfg.maxSources && early <= late
    requires early == Reading(early, 0) && 0 == Reading(late, 0)
    ensures Row(Run(cfg, events), n, late, early, 0)
    ensures LastUse(cfg, events, Nth(0)) == early && LastUse(cfg, events, Nth(1)) == late
  {
    var made := FirstInRow(cfg, 0);
    var filled := FillRow(cfg, made, 1, n, 0, 0, 0);
    var once := UseInRow(cfg, filled, n, 0, 0, 0, 0, early, early);
    events := UseInRow(cfg, once, n, early, early, 0, 1, late, 0);
  }

  /** Up to a horizon, evictions are least recently used up to the buckets' ages if and only
      if the horizon is within 64 bits of nanoseconds (or at most one source is ever kept, or
      every call panics). */
  lemma LruUpToAgeExactlyWhen(cfg: Config, horizon: nat)
    requires cfg.threads >= 1
    ensures
      (forall events: seq<Event>, e: Event :: Run(cfg, events).clock <= horizon ==> EvictsLruUpToAge(cfg, events, e)) <==>
      (horizon <= U64_MAX || cfg.maxSources <= 1 || cfg.bucket.refillNanos == 0)
  {
    if horizon <= U64_MAX {
      forall events: seq<Event>, e: Event | Run(cfg, events).clock <= horizon ensures EvictsLruUpToAge(cfg, events, e) {
        EvictionIsLruUpToAge(cfg, events, e);
      }
    } else if cfg.maxSources <= 1 || cfg.bucket.refillNanos == 0 {
      forall events: seq<Event>, e: Event ensures EvictsLruUpToAge(cfg, events, e) {
        AtMostOneBucket(cfg, events);
      }
    } else {
      var events, e := WrappedBucketIsEvicted(cfg);
      assert !EvictsLruUpToAge(cfg, events, e);
    }
  }

  /** The write-lock side of the map, as the source updates it in place. */
  class BucketMap {
    const config: Config
    var buckets: map<string, Tracked>

    constructor (config: Config)
      ensures this.config == config && buckets == map[]
    {
      this.config := config;
      buckets := map[];
    }

    /** The scan for the smallest last access, and the removal. */
    method EvictLru() returns (victim: string)
      requires buckets != map[]
      modifies this
      ensures Oldest(old(buckets), victim)
      ensures buckets == old(buckets) - {victim}
    {
      var pending := buckets.Keys;
      victim :| victim in pending;
      pending := pending - {victim};
      while pending != {}
        invariant pending <= buckets.Keys && victim in buckets && buckets == old(buckets)
        invariant forall k :: k in buckets && k !in pending ==> buckets[victim].lastAccess <= buckets[k].lastAccess
        decreases |pending|
      {
        var k :| k in pending;
        pending := pending - {k};
        if buckets[k].lastAccess < buckets[victim].lastAccess {
          victim := k;
        }
      }
      buckets := buckets - {victim};
    }

    /** Make sure the source has a bucket, evicting one if the map is full. */
    method GetOrCreate(source: string, clock: nat) returns (victim: string)
      modifies this
      ensures source !in old(buckets) && Full(config, old(buckets)) ==> Oldest(old(buckets), victim)
      ensures buckets == WithBucket(config, old(buckets), source, victim, clock)
    {
      victim := "";
      if source in buckets {
        return;
      }
      if |buckets| >= config.maxSources {
        if buckets != map[] {
          victim := EvictLru();
        }
      }
      buckets := buckets[source := Fresh(config, clock)];
    }
  }

  /** The map after `source` has made sure it has a bucket. */
  function WithBucket(
      cfg: Config, buckets: map<string, Tracked>, source: string, victim: string, clock: nat): map<string, Tracked>
  {
    if source in buckets then buckets
    else (if Full(cfg, buckets) then buckets - {victim} else buckets)[source := Fresh(cfg, clock)]
  }

  /** The step machine's write-lock step changes the map exactly as the in-place code does. */
  lemma WriteStepMatchesTheMap(cfg: Config, s: Sys, e: Event, source: string)
    requires e.tid < |s.threads| && !Blocked(s.threads, e.tid, false)
    requires source !in s.buckets && Full(cfg, s.buckets) ==> Oldest(s.buckets, e.victim)
    ensures TakeWrite(cfg, s, e, source).buckets == WithBucket(cfg, s.buckets, source, e.victim, s.clock)
  {
  }
}
