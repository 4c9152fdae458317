/** The circuit breaker. Admission, success and failure are three separate critical
    sections, so with several requests in flight a late result can land in any state. */
module CircuitBreaker {
  import opened Machine

  datatype State = Closed | Open | HalfOpen

  datatype Config = Config(failureThreshold: U32, successThreshold: U32, resetTimeout: nat, halfOpenMax: U32)

  const DEFAULTS := Config(5, 2, 30_000_000_000, 1)

  /** What the lock protects, and the two metric counters. */
  datatype Breaker = Breaker(
    state: State,
    failures: U32,
    successes: U32,
    lastFailure: Option<nat>,
    probes: U32,
    openCount: nat,
    rejected: nat)

  const FRESH := Breaker(Closed, 0, 0, None, 0, 0, 0)

  predicate TimedOut(cfg: Config, b: Breaker, now: nat) {
    b.lastFailure.Some? && SaturatingSub(now, b.lastFailure.value) >= cfg.resetTimeout
  }

  /** `should_allow_request` at time `now`: the new state and the verdict. */
  function Gate(cfg: Config, b: Breaker, now: nat): (Breaker, bool) {
    match b.state
    case Closed => (b, true)
    case Open =>
      if TimedOut(cfg, b, now) then (b.(state := HalfOpen, probes := 1, successes := 0), true)
      else (b.(rejected := b.rejected + 1), false)
    case HalfOpen =>
      if b.probes < cfg.halfOpenMax then (b.(probes := b.probes + 1), true)
      else (b.(rejected := b.rejected + 1), false)
  }

  /** `record_success`. */
  function Succeed(cfg: Config, b: Breaker): Breaker {
    var b := b.(failures := 0);
    if b.state == HalfOpen then
      var b := b.(successes := WrappingInc(b.successes));
      if b.successes >= cfg.successThreshold then b.(state := Closed, probes := 0) else b
    else b
  }

  /** `record_failure` at time `now`. */
  function Fail(cfg: Config, b: Breaker, now: nat): Breaker {
    var b := b.(successes := 0, failures := WrappingInc(b.failures), lastFailure := Some(now));
    match b.state
    case Closed =>
      if b.failures >= cfg.failureThreshold then b.(state := Open, openCount := b.openCount + 1) else b
    case HalfOpen => b.(state := Open, probes := 0, openCount := b.openCount + 1)
    case Open => b
  }

  // ------------------------------------------------------------ requests in flight

  datatype Kind = Request | Success | Failure

  /** `dt` nanoseconds pass, then a request arrives or one in flight reports its result. */
  datatype Event = Event(dt: nat, kind: Kind)

  /** The breaker with its clock, the requests in flight, and history: requests admitted,
      how many of them before the latest half-open episode, the times at which the episodes
      began, failures reported since the last success, and successes reported since the
      last failure or half-open entry. */
  datatype Sys = Sys(
    b: Breaker,
    clock: nat,
    inFlight: nat,
    admitted: nat,
    earlier: nat,
    entries: seq<nat>,
    losses: nat,
    wins: nat)

  const START := Sys(FRESH, 0, 0, 0, 0, [], 0, 0)

  /** A result with nothing in flight is not an event of the system and changes nothing. */
  function Step(cfg: Config, s: Sys, e: Event): Sys {
    var now := s.clock + e.dt;
    match e.kind
    case Request =>
      var (b, allowed) := Gate(cfg, s.b, now);
      var t := s.(b := b, clock := now);
      if !allowed then t
      else if s.b.state == Open then
        t.(inFlight := s.inFlight + 1, admitted := s.admitted + 1, earlier := s.admitted,
           entries := s.entries + [now], wins := 0)
      else t.(inFlight := s.inFlight + 1, admitted := s.admitted + 1)
    case Success =>
      if s.inFlight == 0 then s.(clock := now)
      else s.(b := Succeed(cfg, s.b), clock := now, inFlight := s.inFlight - 1, losses := 0, wins := s.wins + 1)
    case Failure =>
      if s.inFlight == 0 then s.(clock := now)
      else s.(b := Fail(cfg, s.b, now), clock := now, inFlight := s.inFlight - 1, losses := s.losses + 1, wins := 0)
  }

  function Exec(cfg: Config, s: Sys, events: seq<Event>): Sys
    decreases |events|
  {
    if events == [] then s else Exec(cfg, Step(cfg, s, events[0]), events[1..])
  }

  lemma {:induction false} ExecAppend(cfg: Config, s: Sys, a: seq<Event>, b: seq<Event>)
    ensures Exec(cfg, s, a + b) == Exec(cfg, Exec(cfg, s, a), b)
    decreases |a|
  {
    if a == [] {
      assert a + b == b;
    } else {
      assert (a + b)[1..] == a[1..] + b;
      ExecAppend(cfg, Step(cfg, s, a[0]), a[1..], b);
    }
  }

  lemma ExecSnoc(cfg: Config, events: seq<Event>)
    requires events != []
    ensures
      var front, e := events[..|events| - 1], events[|events| - 1];
      Exec(cfg, START, events) == Step(cfg, Exec(cfg, START, front), e)
  {
    var front, e := events[..|events| - 1], events[|events| - 1];
    ExecAppend(cfg, START, front, [e]);
    assert front + [e] == events;
    var s := Exec(cfg, START, front);
    assert Exec(cfg, Step(cfg, s, e), [e][1..]) == Step(cfg, s, e);
  }

  // ------------------------------------------------------------- what callers can observe

  /** What callers see: a request let through, and the state it found, or turned away; a
      result reported. */
  datatype Note = Admitted(at: nat, found: State) | Rejected(at: nat) | Won(at: nat) | Lost(at: nat)

  /** The time that has passed. */
  function TimeOf(events: seq<Event>): nat {
    if events == [] then 0 else TimeOf(events[..|events| - 1]) + events[|events| - 1].dt
  }

  function NoteOf(s: Sys, t: Sys, kind: Kind, at: nat): seq<Note> {
    match kind
    case Request => [if t.inFlight > s.inFlight then Admitted(at, s.b.state) else Rejected(at)]
    case Success => if s.inFlight == 0 then [] else [Won(at)]
    case Failure => if s.inFlight == 0 then [] else [Lost(at)]
  }

  /** Everything the callers saw in a run, in order. */
  function Notes(cfg: Config, events: seq<Event>): seq<Note> {
    if events == [] then []
    else
      var front, e := events[..|events| - 1], events[|events| - 1];
      var s := Exec(cfg, START, front);
      Notes(cfg, front) + NoteOf(s, Step(cfg, s, e), e.kind, TimeOf(events))
  }

  /** When a failure was last reported. */
  function LastLoss(notes: seq<Note>): Option<nat> {
    if notes == [] then None
    else
      match notes[|notes| - 1]
      case Lost(at) => Some(at)
      case _ => LastLoss(notes[..|notes| - 1])
  }

  /** Failures reported since the last success. */
  function LossesInARow(notes: seq<Note>): nat {
    if notes == [] then 0
    else
      var before := LossesInARow(notes[..|notes| - 1]);
      match notes[|notes| - 1]
      case Lost(_) => before + 1
      case Won(_) => 0
      case _ => before
  }

  /** Successes reported since the last failure or half-open entry. */
  function WinsInARow(notes: seq<Note>): nat {
    if notes == [] then 0
    else
      var before := WinsInARow(notes[..|notes| - 1]);
      match notes[|notes| - 1]
      case Lost(_) => 0
      case Won(_) => before + 1
      case Admitted(_, found) => if found == Open then 0 else before
      case _ => before
  }

  /** Requests let through since the last half-open entry, which is one of them. */
  function EpisodeAdmissions(notes: seq<Note>): nat {
    if notes == [] then 0
    else
      var before := EpisodeAdmissions(notes[..|notes| - 1]);
      match notes[|notes| - 1]
      case Admitted(_, found) => if found == Open then 1 else before + 1
      case _ => before
  }

  /** When the half-open episodes began. */
  function Entries(notes: seq<Note>): seq<nat> {
    if notes == [] then []
    else
      var before := Entries(notes[..|notes| - 1]);
      match notes[|notes| - 1]
      case Admitted(at, found) => if found == Open then before + [at] else before
      case _ => before
  }

  function Admissions(notes: seq<Note>): nat {
    if notes == [] then 0
    else Admissions(notes[..|notes| - 1]) + if notes[|notes| - 1].Admitted? then 1 else 0
  }

  function Rejections(notes: seq<Note>): nat {
    if notes == [] then 0
    else Rejections(notes[..|notes| - 1]) + if notes[|notes| - 1].Rejected? then 1 else 0
  }

  function Results(notes: seq<Note>): nat {
    if notes == [] then 0
    else Results(notes[..|notes| - 1]) + if notes[|notes| - 1].Won? || notes[|notes| - 1].Lost? then 1 else 0
  }

  /** The clock, the failure time, the metrics and the history fields say what was seen. */
  ghost predicate Observed(s: Sys, notes: seq<Note>, time: nat) {
    && s.clock == time
    && s.b.lastFailure == LastLoss(notes)
    && s.b.rejected == Rejections(notes)
    && s.admitted == Admissions(notes) == s.inFlight + Results(notes)
    && s.admitted == s.earlier + EpisodeAdmissions(notes)
    && s.losses == LossesInARow(notes)
    && s.wins == WinsInARow(notes)
    && s.entries == Entries(notes)
  }

  /** The tallies of one more note. */
  lemma OneMoreNote(notes: seq<Note>, note: Note)
    ensures
      var more := notes + [note];
      && LastLoss(more) == (if note.Lost? then Some(note.at) else LastLoss(notes))
      && LossesInARow(more) == (if note.Lost? then LossesInARow(notes) + 1 else if note.Won? then 0 else LossesInARow(notes))
      && Admissions(more) == Admissions(notes) + (if note.Admitted? then 1 else 0)
      && Rejections(more) == Rejections(notes) + (if note.Rejected? then 1 else 0)
      && Results(more) == Results(notes) + (if note.Won? || note.Lost? then 1 else 0)
  {
    var more := notes + [note];
    assert more[..|more| - 1] == notes && more[|more| - 1] == note;
  }

  /** The episode tallies of one more note. */
  lemma OneMoreInEpisode(notes: seq<Note>, note: Note)
    ensures
      var more, entry := notes + [note], note.Admitted? && note.found == Open;
      && WinsInARow(more) ==
           (if note.Lost? || entry then 0 else WinsInARow(notes) + if note.Won? then 1 else 0)
      && EpisodeAdmissions(more) ==
           (if entry then 1 else EpisodeAdmissions(notes) + if note.Admitted? then 1 else 0)
      && Entries(more) == (if entry then Entries(notes) + [note.at] else Entries(notes))
  {
    var more := notes + [note];
    assert more[..|more| - 1] == notes && more[|more| - 1] == note;
  }

  lemma StepIsObserved(cfg: Config, s: Sys, e: Event, notes: seq<Note>)
    requires Observed(s, notes, s.clock)
    ensures
      var t := Step(cfg, s, e);
      Observed(t, notes + NoteOf(s, t, e.kind, s.clock + e.dt), s.clock + e.dt)
  {
    var t := Step(cfg, s, e);
    var note := NoteOf(s, t, e.kind, s.clock + e.dt);
    if note == [] {
      assert notes + note == notes;
    } else {
      assert note == [note[0]];
      OneMoreNote(notes, note[0]);
      OneMoreInEpisode(notes, note[0]);
    }
  }

  /** In every run the system's clock, counters and history are those of what callers saw. */
  lemma {:induction false} RunIsObserved(cfg: Config, events: seq<Event>)
    ensures Observed(Exec(cfg, START, events), Notes(cfg, events), TimeOf(events))
  {
    if events != [] {
      var front, e := events[..|events| - 1], events[|events| - 1];
      RunIsObserved(cfg, front);
      ExecSnoc(cfg, events);
      StepIsObserved(cfg, Exec(cfg, START, front), e, Notes(cfg, front));
    }
  }

  /** How many probes one half-open episode may admit: the first is always let through. */
  function Budget(cfg: Config): nat { Max(1, cfg.halfOpenMax) }

  /** How many successes close the breaker: a threshold of zero acts like one. */
  function Needed(cfg: Config): nat { Max(1, cfg.successThreshold) }

  /** How many failures open it. */
  function Tolerated(cfg: Config): nat { Max(1, cfg.failureThreshold) }

  /** Half-open entries so far are spaced by the reset timeout, counting from time zero. */
  ghost predicate Spaced(cfg: Config, entries: seq<nat>) {
    forall i :: 0 <= i < |entries| ==> LastEntry(entries[..i]) + cfg.resetTimeout <= entries[i]
  }

  function LastEntry(entries: seq<nat>): nat { if entries == [] then 0 else entries[|entries| - 1] }

  /** What the counters say in each state. */
  ghost predicate Counts(cfg: Config, s: Sys) {
    && (s.b.state == Closed ==> s.b.failures == s.losses < Tolerated(cfg))
    && (s.b.state == HalfOpen ==>
          && s.b.successes == s.wins
          && 1 <= s.b.probes <= Budget(cfg)
          && s.b.probes == s.admitted - s.earlier
          && s.b.successes < Needed(cfg)
          && s.b.probes <= s.b.successes + s.inFlight)
    && (s.b.state != HalfOpen ==> s.b.probes == 0)
    && s.b.openCount == |s.entries| + (if s.b.state == Open then 1 else 0)
  }

  /** How failures and half-open entries lie on the clock. */
  ghost predicate Timeline(cfg: Config, s: Sys) {
    && (s.b.state == Open ==>
          s.b.lastFailure.Some? && LastEntry(s.entries) <= s.b.lastFailure.value <= s.clock)
    && LastEntry(s.entries) <= s.clock
    && Spaced(cfg, s.entries)
  }

  ghost predicate Inv(cfg: Config, s: Sys) { Counts(cfg, s) && Timeline(cfg, s) }

  lemma SpacedSnoc(cfg: Config, entries: seq<nat>, time: nat)
    requires Spaced(cfg, entries) && LastEntry(entries) + cfg.resetTimeout <= time
    ensures Spaced(cfg, entries + [time])
  {
    var more := entries + [time];
    forall i | 0 <= i < |more| ensures LastEntry(more[..i]) + cfg.resetTimeout <= more[i] {
      assert more[..i] == entries[..i];
      assert i == |entries| ==> entries[..i] == entries;
    }
  }

  lemma RequestTimeline(cfg: Config, s: Sys, e: Event)
    requires Timeline(cfg, s) && e.kind == Request
    ensures Timeline(cfg, Step(cfg, s, e))
  {
    var t := Step(cfg, s, e);
    if t.entries != s.entries {
      SpacedSnoc(cfg, s.entries, t.clock);
    }
  }

  lemma ResultTimeline(cfg: Config, s: Sys, e: Event)
    requires Timeline(cfg, s) && e.kind != Request
    ensures Timeline(cfg, Step(cfg, s, e))
  {
    assert Step(cfg, s, e).entries == s.entries;
  }

  lemma StepTimeline(cfg: Config, s: Sys, e: Event)
    requires Timeline(cfg, s)
    ensures Timeline(cfg, Step(cfg, s, e))
  {
    if e.kind == Request {
      RequestTimeline(cfg, s, e);
    } else {
      ResultTimeline(cfg, s, e);
    }
  }

  lemma StepCounts(cfg: Config, s: Sys, e: Event)
    requires Counts(cfg, s)
    ensures Counts(cfg, Step(cfg, s, e))
  {
  }

  lemma StepInv(cfg: Config, s: Sys, e: Event)
    requires Inv(cfg, s)
    ensures Inv(cfg, Step(cfg, s, e))
  {
    StepCounts(cfg, s, e);
    StepTimeline(cfg, s, e);
  }

  lemma {:induction false} ExecInv(cfg: Config, s: Sys, events: seq<Event>)
    requires Inv(cfg, s)
    ensures Inv(cfg, Exec(cfg, s, events))
    decreases |events|
  {
    if events != [] {
      StepInv(cfg, s, events[0]);
      ExecInv(cfg, Step(cfg, s, events[0]), events[1..]);
    }
  }

  /** In every interleaving of requests and results, with any number in flight, in terms of
      what callers saw: a closed breaker has counted the failures since the last success and
      is below its threshold, an open one remembers the latest failure, a half-open one has
      counted the requests let through in this episode, at least one and at most its budget,
      all of which have either succeeded or are still in flight, and too few successes
      without a failure; the open count is the number of half-open entries, plus one while
      open; and every request was let through or counted as rejected. */
  lemma EveryRunKeepsTheStates(cfg: Config, events: seq<Event>)
    ensures
      var s, notes := Exec(cfg, START, events), Notes(cfg, events);
      && s.b.rejected == Rejections(notes)
      && s.inFlight == Admissions(notes) - Results(notes)
      && s.b.openCount == |Entries(notes)| + (if s.b.state == Open then 1 else 0)
      && match s.b.state
         case Closed => s.b.failures == LossesInARow(notes) < Tolerated(cfg) && s.b.probes == 0
         case Open => s.b.lastFailure.Some? && s.b.lastFailure == LastLoss(notes) && s.b.probes == 0
         case HalfOpen =>
           && 1 <= s.b.probes == EpisodeAdmissions(notes) <= Budget(cfg)
           && s.b.successes == WinsInARow(notes) < Needed(cfg)
           && s.b.probes <= s.b.successes + s.inFlight
  {
    ExecInv(cfg, START, events);
    RunIsObserved(cfg, events);
  }

  /** In any run a reported result trips, re-opens or closes the breaker exactly when it
      should: the threshold-th failure in a row while closed, any failure while half-open,
      the threshold-th success of a half-open episode. */
  lemma ResultsMoveTheState(cfg: Config, events: seq<Event>, e: Event)
    requires e.kind != Request && Exec(cfg, START, events).inFlight >= 1
    ensures
      var s, notes := Exec(cfg, START, events), Notes(cfg, events);
      var t := Step(cfg, s, e);
      match s.b.state
      case Closed =>
        t.b.state == if e.kind == Failure && LossesInARow(notes) + 1 == Tolerated(cfg) then Open else Closed
      case Open => t.b.state == Open
      case HalfOpen =>
        t.b.state ==
          if e.kind == Failure then Open else if WinsInARow(notes) + 1 == Needed(cfg) then Closed else HalfOpen
  {
    ExecInv(cfg, START, events);
    RunIsObserved(cfg, events);
  }

  /** When the latest failure was reported, as a time; zero if none was. */
  function LossTime(notes: seq<Note>): nat {
    match LastLoss(notes)
    case Some(at) => at
    case None => 0
  }

  /** In any run a request is let through exactly when it should: always while closed; while
      open exactly from the reset timeout after the latest reported failure on, which starts
      a half-open episode; while half-open exactly while fewer requests were let through in
      this episode than the maximum. */
  lemma RequestsAreAdmittedExactlyWhen(cfg: Config, events: seq<Event>, dt: nat)
    ensures
      var s, notes := Exec(cfg, START, events), Notes(cfg, events);
      var t := Step(cfg, s, Event(dt, Request));
      var admitted := t.inFlight == s.inFlight + 1;
      && (admitted || t.inFlight == s.inFlight)
      && match s.b.state
         case Closed => admitted && t.b.state == Closed
         case Open =>
           && LastLoss(notes).Some?
           && (admitted <==> TimeOf(events) + dt >= LossTime(notes) + cfg.resetTimeout)
           && t.b.state == if admitted then HalfOpen else Open
         case HalfOpen =>
           && (admitted <==> EpisodeAdmissions(notes) < cfg.halfOpenMax)
           && t.b.state == HalfOpen
  {
    ExecInv(cfg, START, events);
    RunIsObserved(cfg, events);
  }

  lemma {:induction false} SpacedBound(cfg: Config, entries: seq<nat>)
    requires Spaced(cfg, entries)
    ensures |entries| * cfg.resetTimeout <= LastEntry(entries)
  {
    if entries != [] {
      var front := entries[..|entries| - 1];
      forall i | 0 <= i < |front| ensures LastEntry(front[..i]) + cfg.resetTimeout <= front[i] {
        assert front[..i] == entries[..i];
      }
      SpacedBound(cfg, front);
      assert LastEntry(front) + cfg.resetTimeout <= entries[|entries| - 1];
      assert |entries| * cfg.resetTimeout == |front| * cfg.resetTimeout + cfg.resetTimeout;
    }
  }

  /** In any run, entries to half-open are at least the reset timeout apart, so by time T
      there are at most T / resetTimeout of them. */
  lemma ProbingIsRateLimited(cfg: Config, events: seq<Event>)
    ensures
      var entries, time := Entries(Notes(cfg, events)), TimeOf(events);
      && Exec(cfg, START, events).entries == entries && Exec(cfg, START, events).clock == time
      && Spaced(cfg, entries)
      && |entries| * cfg.resetTimeout <= time
      && (cfg.resetTimeout >= 1 ==> |entries| <= time / cfg.resetTimeout)
  {
    ExecInv(cfg, START, events);
    RunIsObserved(cfg, events);
    var s := Exec(cfg, START, events);
    SpacedBound(cfg, s.entries);
    if cfg.resetTimeout >= 1 {
      QuotientBound(|s.entries|, s.clock, cfg.resetTimeout);
    }
  }

  // ------------------------------------------------------------------------ one caller

  /** One `emit`: it arrives `before` nanoseconds later and, if admitted, the backend
      answers `during` nanoseconds after that. */
  datatype Call = Call(before: nat, during: nat, ok: bool)

  function Emit(cfg: Config, s: Sys, c: Call): Sys {
    var g := Step(cfg, s, Event(c.before, Request));
    if g.admitted == s.admitted then g
    else Step(cfg, g, Event(c.during, if c.ok then Success else Failure))
  }

  /** What one call of a lone caller does to the breaker, the clock and the count. */
  lemma EmitMeaning(cfg: Config, s: Sys, c: Call)
    requires s.inFlight == 0
    ensures
      var s' := Emit(cfg, s, c);
      var (gated, admits) := Gate(cfg, s.b, s.clock + c.before);
      && s'.inFlight == 0
      && s'.admitted == s.admitted + (if admits then 1 else 0)
      && s'.clock == s.clock + c.before + (if admits then c.during else 0)
      && s'.b == (if !admits then gated else if c.ok then Succeed(cfg, gated) else Fail(cfg, gated, s'.clock))
  {
  }

  function Calls(cfg: Config, s: Sys, calls: seq<Call>): Sys
    decreases |calls|
  {
    if calls == [] then s else Calls(cfg, Emit(cfg, s, calls[0]), calls[1..])
  }

  lemma {:induction false} CallsAppend(cfg: Config, s: Sys, a: seq<Call>, b: seq<Call>)
    ensures Calls(cfg, s, a + b) == Calls(cfg, Calls(cfg, s, a), b)
    decreases |a|
  {
    if a == [] {
      assert a + b == b;
    } else {
      assert (a + b)[1..] == a[1..] + b;
      CallsAppend(cfg, Emit(cfg, s, a[0]), a[1..], b);
    }
  }

  /** The calls of one caller are one of the interleavings. */
  lemma {:induction false} CallsAreARun(cfg: Config, s: Sys, calls: seq<Call>) returns (events: seq<Event>)
    ensures Exec(cfg, s, events) == Calls(cfg, s, calls)
    decreases |calls|
  {
    if calls == [] {
      events := [];
    } else {
      var c := calls[0];
      var e := Event(c.before, Request);
      var g := Step(cfg, s, e);
      var rest := CallsAreARun(cfg, Emit(cfg, s, c), calls[1..]);
      if g.admitted == s.admitted {
        events := [e] + rest;
      } else {
        var r := Event(c.during, if c.ok then Success else Failure);
        events := [e] + ([r] + rest);
        assert ([r] + rest)[1..] == rest;
      }
      assert events[1..] == if g.admitted == s.admitted then rest
        else [Event(c.during, if c.ok then Success else Failure)] + rest;
    }
  }

  // -------------------------------------------------------------------------- recovery

  predicate AllOk(calls: seq<Call>) { forall i :: 0 <= i < |calls| ==> calls[i].ok }

  lemma {:induction false} ClosedStaysClosed(cfg: Config, s: Sys, calls: seq<Call>)
    requires s.b.state == Closed && AllOk(calls)
    ensures Calls(cfg, s, calls).b.state == Closed
    ensures Calls(cfg, s, calls).admitted == s.admitted + |calls|
    decreases |calls|
  {
    if calls != [] {
      ClosedStaysClosed(cfg, Emit(cfg, s, calls[0]), calls[1..]);
    }
  }

  lemma EmitInv(cfg: Config, s: Sys, c: Call)
    requires Inv(cfg, s)
    ensures Inv(cfg, Emit(cfg, s, c))
  {
    StepInv(cfg, s, Event(c.before, Request));
    StepInv(cfg, Step(cfg, s, Event(c.before, Request)), Event(c.during, if c.ok then Success else Failure));
  }

  lemma {:induction false} HalfOpenRecovers(cfg: Config, s: Sys, calls: seq<Call>)
    requires Needed(cfg) <= Budget(cfg)
    requires Inv(cfg, s) && s.b.state == HalfOpen && s.inFlight == 0
    requires AllOk(calls) && s.b.successes + |calls| >= Needed(cfg)
    ensures Calls(cfg, s, calls).b.state == Closed
    ensures Calls(cfg, s, calls).admitted == s.admitted + |calls|
    decreases |calls|
  {
    var t := Emit(cfg, s, calls[0]);
    EmitInv(cfg, s, calls[0]);
    if t.b.state == Closed {
      ClosedStaysClosed(cfg, t, calls[1..]);
    } else {
      HalfOpenRecovers(cfg, t, calls[1..]);
    }
  }

  /** The calls find a recovered backend, are enough to close the breaker, and the first of
      them comes at least the reset timeout after the latest failure reported in the run. */
  ghost predicate RecoveryAttempt(cfg: Config, events: seq<Event>, calls: seq<Call>) {
    && AllOk(calls)
    && |calls| >= Needed(cfg)
    && (Exec(cfg, START, events).b.state == Open ==>
          TimeOf(events) + calls[0].before >= LossTime(Notes(cfg, events)) + cfg.resetTimeout)
  }

  /** If the probe budget covers the success threshold, every reachable state with nothing
      in flight closes within that many calls of one caller, all of them admitted. */
  lemma RecoversWithinThreshold(cfg: Config, events: seq<Event>, calls: seq<Call>)
    requires Needed(cfg) <= Budget(cfg)
    requires Exec(cfg, START, events).inFlight == 0
    requires RecoveryAttempt(cfg, events, calls)
    ensures
      var s := Exec(cfg, START, events);
      var t := Calls(cfg, s, calls);
      t.b.state == Closed && t.admitted == s.admitted + |calls|
  {
    var s := Exec(cfg, START, events);
    ExecInv(cfg, START, events);
    RunIsObserved(cfg, events);
    match s.b.state
    case Closed => ClosedStaysClosed(cfg, s, calls);
    case HalfOpen => HalfOpenRecovers(cfg, s, calls);
    case Open => OpenRecovers(cfg, s, calls);
  }

  lemma FirstProbe(cfg: Config, s: Sys, c: Call)
    requires s.b.state == Open && s.inFlight == 0 && c.ok && TimedOut(cfg, s.b, s.clock + c.before)
    ensures
      var t := Emit(cfg, s, c);
      && t.inFlight == 0 && t.admitted == s.admitted + 1
      && (t.b.state == Closed || (t.b.state == HalfOpen && t.b.successes == 1))
  {
  }

  lemma OpenRecovers(cfg: Config, s: Sys, calls: seq<Call>)
    requires Needed(cfg) <= Budget(cfg)
    requires Inv(cfg, s) && s.b.state == Open && s.inFlight == 0
    requires AllOk(calls) && |calls| >= Needed(cfg) && TimedOut(cfg, s.b, s.clock + calls[0].before)
    ensures Calls(cfg, s, calls).b.state == Closed
    ensures Calls(cfg, s, calls).admitted == s.admitted + |calls|
  {
    var t := Emit(cfg, s, calls[0]);
    EmitInv(cfg, s, calls[0]);
    FirstProbe(cfg, s, calls[0]);
    if t.b.state == Closed {
      ClosedStaysClosed(cfg, t, calls[1..]);
    } else {
      HalfOpenRecovers(cfg, t, calls[1..]);
    }
  }

  /** With one caller every half-open success is a probe of the same episode. */
  ghost predicate OneCaller(cfg: Config, s: Sys) {
    Inv(cfg, s) && s.inFlight == 0 && (s.b.state == HalfOpen ==> s.b.successes == s.b.probes)
  }

  lemma EmitSettles(cfg: Config, s: Sys, c: Call)
    requires Counts(cfg, s) && s.inFlight == 0 && (s.b.state == HalfOpen ==> s.b.successes == s.b.probes)
    ensures
      var t := Emit(cfg, s, c);
      t.inFlight == 0 && (t.b.state == HalfOpen ==> t.b.successes == t.b.probes)
  {
  }

  lemma EmitKeepsOneCaller(cfg: Config, s: Sys, c: Call)
    requires OneCaller(cfg, s)
    ensures OneCaller(cfg, Emit(cfg, s, c))
  {
    EmitInv(cfg, s, c);
    EmitSettles(cfg, s, c);
  }

  lemma EmitStaysOut(cfg: Config, s: Sys, c: Call)
    requires Counts(cfg, s) && s.inFlight == 0 && (s.b.state == HalfOpen ==> s.b.successes == s.b.probes)
    requires Budget(cfg) < Needed(cfg) && s.b.state != Closed
    ensures Emit(cfg, s, c).b.state != Closed
  {
  }

  lemma {:induction false} CallsKeepOneCaller(cfg: Config, s: Sys, calls: seq<Call>)
    requires OneCaller(cfg, s)
    ensures OneCaller(cfg, Calls(cfg, s, calls))
    decreases |calls|
  {
    if calls != [] {
      EmitKeepsOneCaller(cfg, s, calls[0]);
      CallsKeepOneCaller(cfg, Emit(cfg, s, calls[0]), calls[1..]);
    }
  }

  lemma {:induction false} OneCallerNeverRecloses(cfg: Config, s: Sys, calls: seq<Call>)
    requires OneCaller(cfg, s) && Budget(cfg) < Needed(cfg) && s.b.state != Closed
    ensures Calls(cfg, s, calls).b.state != Closed
    decreases |calls|
  {
    if calls != [] {
      EmitKeepsOneCaller(cfg, s, calls[0]);
      EmitStaysOut(cfg, s, calls[0]);
      OneCallerNeverRecloses(cfg, Emit(cfg, s, calls[0]), calls[1..]);
    }
  }

  /** If the budget is below the threshold, a breaker that one caller has tripped never
      closes again, whatever the backend answers and however long the caller waits. */
  lemma NeverRecloses(cfg: Config, calls: seq<Call>, more: seq<Call>)
    requires Budget(cfg) < Needed(cfg)
    requires Calls(cfg, START, calls).b.state != Closed
    ensures Calls(cfg, START, calls + more).b.state != Closed
  {
    CallsKeepOneCaller(cfg, START, calls);
    CallsAppend(cfg, START, calls, more);
    OneCallerNeverRecloses(cfg, Calls(cfg, START, calls), more);
  }

  /** Half-open with the budget spent and nothing in flight is absorbing: no event of any
      kind is ever admitted again and the state stays. */
  lemma {:induction false} SpentBudgetIsAbsorbing(cfg: Config, s: Sys, events: seq<Event>)
    requires s.b.state == HalfOpen && s.b.probes >= cfg.halfOpenMax && s.inFlight == 0
    ensures
      var t := Exec(cfg, s, events);
      && t.b == s.b.(rejected := t.b.rejected)
      && t.inFlight == 0
      && t.admitted == s.admitted
    decreases |events|
  {
    if events != [] {
      SpentBudgetIsAbsorbing(cfg, Step(cfg, s, events[0]), events[1..]);
    }
  }

  function Failing(n: nat): seq<Call> { seq(n, _ => Call(0, 0, false)) }

  lemma {:induction false} FailuresOpen(cfg: Config, s: Sys, n: nat)
    requires s.b.state == Closed && s.b.failures + n == Tolerated(cfg) && n >= 1
    ensures
      var t := Calls(cfg, s, Failing(n));
      t.b.state == Open && t.b.lastFailure == Some(t.clock)
    decreases n
  {
    var t := Emit(cfg, s, Failing(n)[0]);
    assert Failing(n)[1..] == Failing(n - 1);
    if n > 1 {
      FailuresOpen(cfg, t, n - 1);
    }
  }

  /** Every reachable quiescent state recovers. */
  ghost predicate AlwaysRecovers(cfg: Config) {
    forall events, calls ::
      var s := Exec(cfg, START, events);
      s.inFlight == 0 && RecoveryAttempt(cfg, events, calls) ==> Calls(cfg, s, calls).b.state == Closed
  }

  /** A recovered backend always closes the breaker if and only if the success threshold is
      within the probe budget. */
  lemma RecoversExactlyWhen(cfg: Config)
    ensures AlwaysRecovers(cfg) <==> cfg.successThreshold <= Budget(cfg)
  {
    if cfg.successThreshold <= Budget(cfg) {
      forall events, calls |
        Exec(cfg, START, events).inFlight == 0 && RecoveryAttempt(cfg, events, calls)
        ensures Calls(cfg, Exec(cfg, START, events), calls).b.state == Closed
      {
        RecoversWithinThreshold(cfg, events, calls);
      }
    } else {
      var trip := Failing(Tolerated(cfg));
      var probes := seq(Needed(cfg), _ => Call(cfg.resetTimeout, 0, true));
      FailuresOpen(cfg, START, Tolerated(cfg));
      CallsKeepOneCaller(cfg, START, trip);
      var s := Calls(cfg, START, trip);
      var events := CallsAreARun(cfg, START, trip);
      RunIsObserved(cfg, events);
      assert RecoveryAttempt(cfg, events, probes);
      OneCallerNeverRecloses(cfg, s, probes);
    }
  }

  /** The shipped defaults are on the wrong side: two successes, a budget of one. */
  lemma DefaultsDoNotRecover()
    ensures !AlwaysRecovers(DEFAULTS)
  {
    RecoversExactlyWhen(DEFAULTS);
  }

  lemma TrippedAtOnce(cfg: Config)
    ensures
      var s := Calls(cfg, START, Failing(Tolerated(cfg)));
      && s.b.state == Open && s.clock == 0 && s.admitted == Tolerated(cfg)
      && s.b.lastFailure == Some(0) && OneCaller(cfg, s)
  {
    FailuresOpen(cfg, START, Tolerated(cfg));
    CallsKeepTally(cfg, START, Failing(Tolerated(cfg)));
    FailingTakesNoTime(cfg, START, Tolerated(cfg));
  }

  lemma FirstAfterTrip(cfg: Config, s: Sys, wait: nat)
    requires s.b.state == Open && s.clock == 0 && s.b.lastFailure == Some(0) && s.inFlight == 0
    ensures Emit(cfg, s, Call(wait, 0, true)).admitted == s.admitted + if wait >= cfg.resetTimeout then 1 else 0
  {
    EmitMeaning(cfg, s, Call(wait, 0, true));
  }

  /** With the defaults: five failures in a row trip the breaker, nothing passes for 30
      seconds, the first request after that does, and whatever the backend answers to it and
      later, one caller never sees the breaker closed again. */
  lemma DefaultsInUse(wait: nat, calls: seq<Call>)
    ensures
      var s := Calls(DEFAULTS, START, Failing(5));
      && s.b.state == Open && s.clock == 0 && s.admitted == 5
      && Emit(DEFAULTS, s, Call(wait, 0, true)).admitted == (if wait >= 30_000_000_000 then 6 else 5)
      && Calls(DEFAULTS, s, calls).b.state != Closed
  {
    var s := Calls(DEFAULTS, START, Failing(5));
    assert Tolerated(DEFAULTS) == 5;
    TrippedAtOnce(DEFAULTS);
    FirstAfterTrip(DEFAULTS, s, wait);
    OneCallerNeverRecloses(DEFAULTS, s, calls);
  }

  lemma {:induction false} FailingTakesNoTime(cfg: Config, s: Sys, n: nat)
    ensures Calls(cfg, s, Failing(n)).clock == s.clock
    ensures Calls(cfg, s, Failing(n)).admitted <= s.admitted + n
    decreases n
  {
    if n > 0 {
      assert Failing(n)[1..] == Failing(n - 1);
      FailingTakesNoTime(cfg, Emit(cfg, s, Failing(n)[0]), n - 1);
    }
  }

  // ------------------------------------------------------------------ a failing backend

  predicate AllFail(calls: seq<Call>) { forall i :: 0 <= i < |calls| ==> !calls[i].ok }

  /** Exactly how many requests a tripped single caller has sent. */
  ghost predicate Tally(cfg: Config, s: Sys) {
    && OneCaller(cfg, s)
    && s.b.state != HalfOpen
    && (s.b.state == Closed ==> s.entries == [] && s.admitted == s.b.failures)
    && (s.b.state == Open ==> s.admitted == Tolerated(cfg) + |s.entries|)
  }

  lemma {:induction false} CallsKeepTally(cfg: Config, s: Sys, calls: seq<Call>)
    requires Tally(cfg, s) && AllFail(calls)
    ensures Tally(cfg, Calls(cfg, s, calls))
    decreases |calls|
  {
    if calls != [] {
      EmitKeepsOneCaller(cfg, s, calls[0]);
      CallsKeepTally(cfg, Emit(cfg, s, calls[0]), calls[1..]);
    }
  }

  /** With one caller and a backend that always fails, the requests that reach the backend
      by time T are at most the failure threshold plus T / resetTimeout. */
  lemma FailingBackendIsSpared(cfg: Config, calls: seq<Call>)
    requires AllFail(calls)
    ensures
      var s := Calls(cfg, START, calls);
      && s.admitted <= Tolerated(cfg) + |s.entries|
      && (cfg.resetTimeout >= 1 ==> s.admitted <= Tolerated(cfg) + s.clock / cfg.resetTimeout)
  {
    CallsKeepTally(cfg, START, calls);
    var events := CallsAreARun(cfg, START, calls);
    ProbingIsRateLimited(cfg, events);
  }

  // ------------------------------------------------------------------------- the class

  /** The emitter's locked state and metrics; `now` is what the clock returns inside the
      critical section. */
  class CircuitBreakerEmitter {
    const config: Config
    var state: State
    var failures: U32
    var successes: U32
    var lastFailure: Option<nat>
    var probes: U32
    var openCount: nat
    var rejected: nat

    ghost function Now(): Breaker
      reads this
    {
      Breaker(state, failures, successes, lastFailure, probes, openCount, rejected)
    }

    constructor (config: Config)
      ensures this.config == config && Now() == FRESH
    {
      this.config := config;
      state, failures, successes, lastFailure, probes := Closed, 0, 0, None, 0;
      openCount, rejected := 0, 0;
    }

    method ShouldAllowRequest(now: nat) returns (allowed: bool)
      modifies this
      ensures Gate(config, old(Now()), now) == (Now(), allowed)
      ensures old(state) == Closed ==> allowed
      ensures old(state) == Open && old(lastFailure).Some? && now >= old(lastFailure).value ==>
        (allowed <==> now >= old(lastFailure).value + config.resetTimeout)
      ensures old(state) == HalfOpen ==> (allowed <==> old(probes) < config.halfOpenMax)
    {
      match state {
        case Closed =>
          allowed := true;
        case Open =>
          if lastFailure.Some? && SaturatingSub(now, lastFailure.value) >= config.resetTimeout {
            state := HalfOpen;
            probes := 1;
            successes := 0;
            return true;
          }
          rejected := rejected + 1;
          allowed := false;
        case HalfOpen =>
          if probes < config.halfOpenMax {
            probes := probes + 1;
            allowed := true;
          } else {
            rejected := rejected + 1;
            allowed := false;
          }
      }
    }

    method RecordSuccess()
      modifies this
      ensures Now() == Succeed(config, old(Now()))
    {
      failures := 0;
      if state == HalfOpen {
        successes := WrappingInc(successes);
        if successes >= config.successThreshold {
          state := Closed;
          probes := 0;
        }
      }
    }

    method RecordFailure(now: nat)
      modifies this
      ensures Now() == Fail(config, old(Now()), now)
    {
      successes := 0;
      failures := WrappingInc(failures);
      lastFailure := Some(now);
      match state {
        case Closed =>
          if failures >= config.failureThreshold {
            state := Open;
            openCount := openCount + 1;
          }
        case HalfOpen =>
          state := Open;
          probes := 0;
          openCount := openCount + 1;
        case Open =>
      }
    }
  }
}
