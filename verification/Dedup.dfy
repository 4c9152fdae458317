/** The deduplicator: a map pruned lazily, against a specification that never forgets.

    `check` reads the clock first and then runs up to two critical sections, a cleanup and
    a lookup. Any number of concurrent calls is some sequence of such sections, each with
    the clock reading its thread took earlier, so readings need not be in order. */
module Dedup {
  import opened Machine

  datatype Section = Lookup(id: string, now: nat) | Cleanup(now: nat)

  /** An entry made at `at` still suppresses duplicates at `now`. */
  predicate Live(ttl: nat, now: nat, at: nat) { SaturatingSub(now, at) < ttl }

  /** The entries `cleanup` keeps. */
  function Retained(ttl: nat, seen: map<string, nat>, now: nat): map<string, nat> {
    map id | id in seen && Live(ttl, now, seen[id]) :: seen[id]
  }

  predicate IsNew(ttl: nat, seen: map<string, nat>, id: string, now: nat) {
    !(id in seen && Live(ttl, now, seen[id]))
  }

  function Recorded(ttl: nat, seen: map<string, nat>, id: string, now: nat): map<string, nat> {
    if IsNew(ttl, seen, id, now) then seen[id := now] else seen
  }

  /** The map and the answers given so far. */
  datatype Sys = Sys(seen: map<string, nat>, answers: seq<bool>)

  function Step(ttl: nat, s: Sys, section: Section): Sys {
    match section
    case Cleanup(now) => s.(seen := Retained(ttl, s.seen, now))
    case Lookup(id, now) => Sys(Recorded(ttl, s.seen, id, now), s.answers + [IsNew(ttl, s.seen, id, now)])
  }

  function Run(ttl: nat, sections: seq<Section>): Sys {
    if sections == [] then Sys(map[], [])
    else Step(ttl, Run(ttl, sections[..|sections| - 1]), sections[|sections| - 1])
  }

  // ------------------------------------------------------------------ the specification

  /** Everything that happened: acceptances, and when cleanups ran. */
  datatype Entry = Accepted(id: string, at: nat) | Swept(now: nat)

  /** Some acceptance of `id` is less than the time-to-live ago. */
  ghost predicate Duplicate(ttl: nat, log: seq<Entry>, id: string, now: nat) {
    ttl > 0 && exists i :: 0 <= i < |log| && log[i].Accepted? && log[i].id == id && now < log[i].at + ttl
  }

  datatype Spec = Spec(log: seq<Entry>, answers: seq<bool>)

  /** The specification accepts exactly what is not a duplicate of its whole history; a
      cleanup is only noted. */
  ghost function SpecStep(ttl: nat, s: Spec, section: Section): Spec {
    match section
    case Cleanup(now) => s.(log := s.log + [Swept(now)])
    case Lookup(id, now) =>
      if Duplicate(ttl, s.log, id, now) then s.(answers := s.answers + [false])
      else Spec(s.log + [Accepted(id, now)], s.answers + [true])
  }

  ghost function SpecRun(ttl: nat, sections: seq<Section>): Spec {
    if sections == [] then Spec([], [])
    else SpecStep(ttl, SpecRun(ttl, sections[..|sections| - 1]), sections[|sections| - 1])
  }

  /** What happened to the latest acceptance of an id: none yet, not swept, or swept away. */
  datatype Memory = Never | Kept(at: nat) | Lost(at: nat)

  function Recollect(ttl: nat, log: seq<Entry>, id: string): Memory {
    if log == [] then Never
    else
      var before := Recollect(ttl, log[..|log| - 1], id);
      match log[|log| - 1]
      case Accepted(other, at) => if other == id then Kept(at) else before
      case Swept(now) => if before.Kept? && (ttl == 0 || now >= before.at + ttl) then Lost(before.at) else before
  }

  /** The lookup's reading is so old that an entry swept away in the meantime should still
      have suppressed it. */
  ghost predicate StaleHit(ttl: nat, log: seq<Entry>, section: Section) {
    section.Lookup? &&
    var m := Recollect(ttl, log, section.id);
    m.Lost? && ttl > 0 && section.now < m.at + ttl
  }

  // -------------------------------------------------------------------- when they agree

  /** The latest acceptance of `id` is live if any acceptance is. */
  ghost predicate LatestDecides(ttl: nat, log: seq<Entry>, id: string) {
    var m := Recollect(ttl, log, id);
    forall i :: 0 <= i < |log| && log[i].Accepted? && log[i].id == id ==>
      !m.Never? && (ttl == 0 || log[i].at <= m.at)
  }

  lemma {:induction false} LatestIsAnEntry(ttl: nat, log: seq<Entry>, id: string)
    ensures
      var m := Recollect(ttl, log, id);
      m.Never? || exists i :: 0 <= i < |log| && log[i] == Accepted(id, m.at)
  {
    if log != [] {
      var front := log[..|log| - 1];
      LatestIsAnEntry(ttl, front, id);
      var m := Recollect(ttl, log, id);
      if !m.Never? && log[|log| - 1] != Accepted(id, m.at) {
        var i :| 0 <= i < |front| && front[i] == Accepted(id, m.at);
        assert log[i] == Accepted(id, m.at);
      }
    }
  }

  lemma DuplicateMeansLatestIsLive(ttl: nat, log: seq<Entry>, id: string, now: nat)
    requires LatestDecides(ttl, log, id)
    ensures
      var m := Recollect(ttl, log, id);
      Duplicate(ttl, log, id, now) <==> !m.Never? && ttl > 0 && now < m.at + ttl
  {
    LatestIsAnEntry(ttl, log, id);
  }

  lemma SpecStepKeepsLatest(ttl: nat, s: Spec, section: Section, id: string)
    requires forall x :: LatestDecides(ttl, s.log, x)
    ensures LatestDecides(ttl, SpecStep(ttl, s, section).log, id)
  {
    var t := SpecStep(ttl, s, section);
    if t.log != s.log {
      assert t.log[..|t.log| - 1] == s.log;
      assert LatestDecides(ttl, s.log, id);
      if section.Lookup? {
        DuplicateMeansLatestIsLive(ttl, s.log, section.id, section.now);
      }
      var m := Recollect(ttl, t.log, id);
      forall i | 0 <= i < |t.log| && t.log[i].Accepted? && t.log[i].id == id
        ensures !m.Never? && (ttl == 0 || t.log[i].at <= m.at)
      {
        assert i < |s.log| ==> t.log[i] == s.log[i];
      }
    }
  }

  lemma {:induction false} SpecRunLatest(ttl: nat, sections: seq<Section>)
    ensures forall id :: LatestDecides(ttl, SpecRun(ttl, sections).log, id)
  {
    if sections != [] {
      var front := sections[..|sections| - 1];
      SpecRunLatest(ttl, front);
      forall id ensures LatestDecides(ttl, SpecRun(ttl, sections).log, id) {
        SpecStepKeepsLatest(ttl, SpecRun(ttl, front), sections[|sections| - 1], id);
      }
    }
  }

  /** The map holds exactly the latest acceptances that have not been swept away. */
  ghost predicate Mirrors(ttl: nat, seen: map<string, nat>, log: seq<Entry>) {
    forall id ::
      && (id in seen <==> Recollect(ttl, log, id).Kept?)
      && (id in seen ==> seen[id] == Recollect(ttl, log, id).at)
  }

  lemma StepMirrors(ttl: nat, s: Sys, spec: Spec, section: Section)
    requires Mirrors(ttl, s.seen, spec.log) && forall id :: LatestDecides(ttl, spec.log, id)
    ensures
      var s', spec' := Step(ttl, s, section), SpecStep(ttl, spec, section);
      && (StaleHit(ttl, spec.log, section) <==> s'.answers != s.answers + spec'.answers[|spec.answers|..])
      && (!StaleHit(ttl, spec.log, section) ==> Mirrors(ttl, s'.seen, spec'.log))
  {
    var s', spec' := Step(ttl, s, section), SpecStep(ttl, spec, section);
    if section.Lookup? {
      DuplicateMeansLatestIsLive(ttl, spec.log, section.id, section.now);
      assert spec'.answers[|spec.answers|..] == [spec'.answers[|spec.answers|]];
      assert s'.answers[|s.answers|] == IsNew(ttl, s.seen, section.id, section.now);
    } else {
      assert spec'.answers[|spec.answers|..] == [];
    }
    if !StaleHit(ttl, spec.log, section) {
      assert spec'.log != spec.log ==> spec'.log[..|spec'.log| - 1] == spec.log;
    }
  }

  ghost predicate NoStaleHits(ttl: nat, sections: seq<Section>) {
    forall j :: 0 <= j < |sections| ==> !StaleHit(ttl, SpecRun(ttl, sections[..j]).log, sections[j])
  }

  lemma NoStaleHitsSnoc(ttl: nat, sections: seq<Section>)
    requires sections != []
    ensures
      var front, last := sections[..|sections| - 1], sections[|sections| - 1];
      NoStaleHits(ttl, sections) <==>
      NoStaleHits(ttl, front) && !StaleHit(ttl, SpecRun(ttl, front).log, last)
  {
    var front, last := sections[..|sections| - 1], sections[|sections| - 1];
    assert forall j :: 0 <= j < |front| ==> front[..j] == sections[..j];
    if NoStaleHits(ttl, front) && !StaleHit(ttl, SpecRun(ttl, front).log, last) {
      forall j | 0 <= j < |sections| ensures !StaleHit(ttl, SpecRun(ttl, sections[..j]).log, sections[j]) {
        if j < |front| {
          assert !StaleHit(ttl, SpecRun(ttl, front[..j]).log, front[j]);
        }
      }
    }
    if NoStaleHits(ttl, sections) {
      forall j | 0 <= j < |front| ensures !StaleHit(ttl, SpecRun(ttl, front[..j]).log, front[j]) {
        assert !StaleHit(ttl, SpecRun(ttl, sections[..j]).log, sections[j]);
      }
    }
  }

  lemma {:induction false} AgreementAndMirroring(ttl: nat, sections: seq<Section>)
    ensures
      var s, spec := Run(ttl, sections), SpecRun(ttl, sections);
      && |s.answers| == |spec.answers|
      && (s.answers == spec.answers <==> NoStaleHits(ttl, sections))
      && (s.answers == spec.answers ==> Mirrors(ttl, s.seen, spec.log))
  {
    if sections != [] {
      var front, last := sections[..|sections| - 1], sections[|sections| - 1];
      var s, spec := Run(ttl, front), SpecRun(ttl, front);
      var s', spec' := Run(ttl, sections), SpecRun(ttl, sections);
      AgreementAndMirroring(ttl, front);
      NoStaleHitsSnoc(ttl, sections);
      assert spec'.answers == spec.answers + spec'.answers[|spec.answers|..];
      assert s'.answers[..|s.answers|] == s.answers && spec'.answers[..|spec.answers|] == spec.answers;
      if s.answers == spec.answers {
        SpecRunLatest(ttl, front);
        StepMirrors(ttl, s, spec, last);
      }
    }
  }

  /** Under any interleaving of lookups and cleanups, with any clock readings, the
      deduplicator answers like the specification that never forgets if and only if no
      lookup is a stale hit. */
  lemma AgreesExactlyWhen(ttl: nat, sections: seq<Section>)
    ensures Run(ttl, sections).answers == SpecRun(ttl, sections).answers <==> NoStaleHits(ttl, sections)
  {
    AgreementAndMirroring(ttl, sections);
  }

  /** Every lookup's reading is at least as recent as the reading of every earlier cleanup. */
  ghost predicate CleanupsAreOlder(sections: seq<Section>) {
    forall i, j :: 0 <= i < j < |sections| && sections[i].Cleanup? && sections[j].Lookup? ==>
      sections[i].now <= sections[j].now
  }

  lemma {:induction false} LostToSomeCleanup(ttl: nat, sections: seq<Section>, id: string)
    requires Recollect(ttl, SpecRun(ttl, sections).log, id).Lost?
    ensures exists i :: 0 <= i < |sections| && sections[i].Cleanup? &&
              !Live(ttl, sections[i].now, Recollect(ttl, SpecRun(ttl, sections).log, id).at)
  {
    var front, last := sections[..|sections| - 1], sections[|sections| - 1];
    var log, log' := SpecRun(ttl, front).log, SpecRun(ttl, sections).log;
    assert log' != log ==> log'[..|log'| - 1] == log;
    var m := Recollect(ttl, log', id);
    if last.Cleanup? && !Live(ttl, last.now, m.at) {
      assert sections[|sections| - 1].Cleanup?;
    } else {
      LostToSomeCleanup(ttl, front, id);
      var i :| 0 <= i < |front| && front[i].Cleanup? && !Live(ttl, front[i].now, m.at);
      assert sections[i] == front[i];
    }
  }

  /** What an earlier cleanup swept away is dead at any later reading. */
  lemma LostIsDead(ttl: nat, sections: seq<Section>, id: string, now: nat)
    requires forall i :: 0 <= i < |sections| && sections[i].Cleanup? ==> sections[i].now <= now
    ensures
      var m := Recollect(ttl, SpecRun(ttl, sections).log, id);
      m.Lost? ==> !Live(ttl, now, m.at)
  {
    var m := Recollect(ttl, SpecRun(ttl, sections).log, id);
    if m.Lost? {
      LostToSomeCleanup(ttl, sections, id);
    }
  }

  lemma NotStale(ttl: nat, sections: seq<Section>, j: nat)
    requires CleanupsAreOlder(sections) && j < |sections|
    ensures !StaleHit(ttl, SpecRun(ttl, sections[..j]).log, sections[j])
  {
    if sections[j].Lookup? {
      LostIsDead(ttl, sections[..j], sections[j].id, sections[j].now);
    }
  }

  /** Cleanup is unobservable whenever no lookup reads a clock older than an earlier
      cleanup's; in particular for every monotone clock. */
  lemma CleanupIsUnobservable(ttl: nat, sections: seq<Section>)
    requires CleanupsAreOlder(sections)
    ensures Run(ttl, sections).answers == SpecRun(ttl, sections).answers
  {
    forall j | 0 <= j < |sections| ensures !StaleHit(ttl, SpecRun(ttl, sections[..j]).log, sections[j]) {
      NotStale(ttl, sections, j);
    }
    AgreesExactlyWhen(ttl, sections);
  }

  /** A stale reading does re-admit: accepted at 0, swept at 10, and looked up again by a
      thread that had read the clock at 5. */
  lemma StaleReadingReadmits(x: string)
    ensures
      var sections := [Lookup(x, 0), Cleanup(10), Lookup(x, 5)];
      && Run(10, sections).answers == [true, true]
      && SpecRun(10, sections).answers == [true, false]
  {
    var a := [Lookup(x, 0)];
    var b := a + [Cleanup(10)];
    var c := b + [Lookup(x, 5)];
    assert c == [Lookup(x, 0), Cleanup(10), Lookup(x, 5)];
    assert c[..2] == b && b[..1] == a && a[..0] == [];
    assert Run(10, a) == Sys(map[x := 0], [true]);
    assert Run(10, b) == Sys(map[], [true]);
    assert SpecRun(10, a) == Spec([Accepted(x, 0)], [true]);
    assert SpecRun(10, b) == Spec([Accepted(x, 0), Swept(10)], [true]);
    assert SpecRun(10, b).log[0] == Accepted(x, 0);
  }

  // ------------------------------------------------------------- calls and the counter

  datatype Call = Call(id: string, now: nat)

  /** The map, the operation counter, and history: how many entries the last cleanup left. */
  datatype State = State(seen: map<string, nat>, ops: U32, floor: nat)

  /** `check`, one caller at a time: the new state, and the sections it ran. */
  function Check(ttl: nat, interval: U32, st: State, c: Call): (State, seq<Section>) {
    if st.ops >= interval then
      var kept := Retained(ttl, st.seen, c.now);
      (State(Recorded(ttl, kept, c.id, c.now), 0, |kept|), [Cleanup(c.now), Lookup(c.id, c.now)])
    else
      (State(Recorded(ttl, st.seen, c.id, c.now), WrappingInc(st.ops), st.floor), [Lookup(c.id, c.now)])
  }

  function Checks(ttl: nat, interval: U32, calls: seq<Call>): (State, seq<Section>) {
    if calls == [] then (State(map[], 0, 0), [])
    else
      var (st, sections) := Checks(ttl, interval, calls[..|calls| - 1]);
      var (st', more) := Check(ttl, interval, st, calls[|calls| - 1]);
      (st', sections + more)
  }

  ghost predicate Monotone(calls: seq<Call>) {
    forall i, j :: 0 <= i < j < |calls| ==> calls[i].now <= calls[j].now
  }

  lemma RunAppend(ttl: nat, a: seq<Section>, b: Section)
    ensures Run(ttl, a + [b]) == Step(ttl, Run(ttl, a), b)
  {
    assert (a + [b])[..|a|] == a;
  }

  lemma {:induction false} ChecksAreSections(ttl: nat, interval: U32, calls: seq<Call>)
    ensures
      var (st, sections) := Checks(ttl, interval, calls);
      && Run(ttl, sections).seen == st.seen
      && |Run(ttl, sections).answers| == |calls|
  {
    if calls != [] {
      var front, c := calls[..|calls| - 1], calls[|calls| - 1];
      ChecksAreSections(ttl, interval, front);
      var (st, sections) := Checks(ttl, interval, front);
      if st.ops >= interval {
        RunAppend(ttl, sections, Cleanup(c.now));
        RunAppend(ttl, sections + [Cleanup(c.now)], Lookup(c.id, c.now));
        assert sections + [Cleanup(c.now), Lookup(c.id, c.now)]
            == sections + [Cleanup(c.now)] + [Lookup(c.id, c.now)];
      } else {
        RunAppend(ttl, sections, Lookup(c.id, c.now));
      }
    }
  }

  lemma {:induction false} SectionsFollowTheCalls(ttl: nat, interval: U32, calls: seq<Call>, bound: nat)
    requires Monotone(calls) && forall i :: 0 <= i < |calls| ==> calls[i].now <= bound
    ensures
      var sections := Checks(ttl, interval, calls).1;
      CleanupsAreOlder(sections) && forall i :: 0 <= i < |sections| ==> sections[i].now <= bound
  {
    if calls != [] {
      var c := calls[|calls| - 1];
      SectionsFollowTheCalls(ttl, interval, calls[..|calls| - 1], c.now);
    }
  }

  /** With a monotone clock, every call is answered as by the specification that keeps all
      history: accepted exactly when the id was not accepted less than the time-to-live ago. */
  lemma MonotoneCallsAgree(ttl: nat, interval: U32, calls: seq<Call>)
    requires Monotone(calls)
    ensures
      var sections := Checks(ttl, interval, calls).1;
      && Run(ttl, sections).answers == SpecRun(ttl, sections).answers
      && |Run(ttl, sections).answers| == |calls|
  {
    var bound := if calls == [] then 0 else calls[|calls| - 1].now;
    SectionsFollowTheCalls(ttl, interval, calls, bound);
    ChecksAreSections(ttl, interval, calls);
    CleanupIsUnobservable(ttl, Checks(ttl, interval, calls).1);
  }

  /** The lookups among the sections, in order. */
  function LookupsOf(sections: seq<Section>): seq<Call> {
    if sections == [] then []
    else
      var last := sections[|sections| - 1];
      LookupsOf(sections[..|sections| - 1]) + if last.Lookup? then [Call(last.id, last.now)] else []
  }

  /** Call `k` comes less than the time-to-live after an accepted call for the same id. */
  ghost predicate Suppressed(ttl: nat, calls: seq<Call>, answers: seq<bool>, k: nat)
    requires k < |calls| && k <= |answers|
  {
    ttl > 0 && exists j :: 0 <= j < k && answers[j] && calls[j].id == calls[k].id && calls[k].now < calls[j].now + ttl
  }

  /** Every entry of the log is an accepted lookup. */
  ghost predicate OnlyAccepted(log: seq<Entry>, calls: seq<Call>, answers: seq<bool>)
    requires |answers| == |calls|
  {
    forall i :: 0 <= i < |log| && log[i].Accepted? ==>
      exists j :: 0 <= j < |calls| && answers[j] && calls[j] == Call(log[i].id, log[i].at)
  }

  /** Every accepted lookup is in the log. */
  ghost predicate AllAccepted(log: seq<Entry>, calls: seq<Call>, answers: seq<bool>)
    requires |answers| == |calls|
  {
    forall j :: 0 <= j < |calls| && answers[j] ==> Accepted(calls[j].id, calls[j].now) in log
  }

  /** The log holds exactly the accepted lookups, and each was accepted exactly when not
      suppressed by an earlier one. */
  ghost predicate Explains(ttl: nat, log: seq<Entry>, calls: seq<Call>, answers: seq<bool>) {
    && |answers| == |calls|
    && OnlyAccepted(log, calls, answers) && AllAccepted(log, calls, answers)
    && (forall k :: 0 <= k < |calls| ==> (answers[k] <==> !Suppressed(ttl, calls, answers, k)))
  }

  lemma SuppressedMeansDuplicate(ttl: nat, log: seq<Entry>, calls: seq<Call>, answers: seq<bool>, c: Call)
    requires Explains(ttl, log, calls, answers)
    ensures Suppressed(ttl, calls + [c], answers, |calls|) <==> Duplicate(ttl, log, c.id, c.now)
  {
    var more := calls + [c];
    if Suppressed(ttl, more, answers, |calls|) {
      var j :| 0 <= j < |calls| && answers[j] && more[j].id == c.id && c.now < more[j].now + ttl;
      assert Accepted(calls[j].id, calls[j].now) in log;
    }
    if Duplicate(ttl, log, c.id, c.now) {
      var i :| 0 <= i < |log| && log[i].Accepted? && log[i].id == c.id && c.now < log[i].at + ttl;
      var j :| 0 <= j < |calls| && answers[j] && calls[j] == Call(log[i].id, log[i].at);
      assert more[j] == calls[j];
    }
  }

  /** Earlier calls do not look at later ones. */
  lemma SuppressionIsPast(ttl: nat, calls: seq<Call>, answers: seq<bool>, c: Call, answer: bool, k: nat)
    requires |answers| == |calls| && k <= |calls|
    ensures
      k < |calls| ==> (Suppressed(ttl, calls + [c], answers + [answer], k) <==> Suppressed(ttl, calls, answers, k))
    ensures
      k == |calls| ==> (Suppressed(ttl, calls + [c], answers + [answer], k) <==> Suppressed(ttl, calls + [c], answers, k))
  {
    var more, all := calls + [c], answers + [answer];
    assert forall j :: 0 <= j < |calls| ==> more[j] == calls[j] && all[j] == answers[j];
    if k < |calls| && Suppressed(ttl, calls, answers, k) {
      var j :| 0 <= j < k && answers[j] && calls[j].id == calls[k].id && calls[k].now < calls[j].now + ttl;
      assert all[j] && more[j].id == more[k].id;
    }
  }

  /** One more lookup, logged if accepted. */
  lemma LogGrows(log: seq<Entry>, calls: seq<Call>, answers: seq<bool>, c: Call, answer: bool)
    requires |answers| == |calls| && OnlyAccepted(log, calls, answers) && AllAccepted(log, calls, answers)
    ensures
      var more := if answer then log + [Accepted(c.id, c.now)] else log;
      OnlyAccepted(more, calls + [c], answers + [answer]) && AllAccepted(more, calls + [c], answers + [answer])
  {
    var log', calls', answers' := if answer then log + [Accepted(c.id, c.now)] else log, calls + [c], answers + [answer];
    forall i | 0 <= i < |log'| && log'[i].Accepted?
      ensures exists j :: 0 <= j < |calls'| && answers'[j] && calls'[j] == Call(log'[i].id, log'[i].at)
    {
      if i < |log| {
        var j :| 0 <= j < |calls| && answers[j] && calls[j] == Call(log[i].id, log[i].at);
        assert answers'[j] && calls'[j] == calls[j];
      } else {
        assert answers'[|calls|] && calls'[|calls|] == c;
      }
    }
    forall j | 0 <= j < |calls'| && answers'[j] ensures Accepted(calls'[j].id, calls'[j].now) in log' {
      assert j < |calls| ==> Accepted(calls[j].id, calls[j].now) in log;
    }
  }

  lemma LookupExplains(ttl: nat, spec: Spec, calls: seq<Call>, c: Call)
    requires Explains(ttl, spec.log, calls, spec.answers)
    ensures
      var spec' := SpecStep(ttl, spec, Lookup(c.id, c.now));
      Explains(ttl, spec'.log, calls + [c], spec'.answers)
  {
    var answer, answers := !Duplicate(ttl, spec.log, c.id, c.now), spec.answers;
    LogGrows(spec.log, calls, answers, c, answer);
    SuppressedMeansDuplicate(ttl, spec.log, calls, answers, c);
    forall k | 0 <= k <= |calls|
      ensures (answers + [answer])[k] <==> !Suppressed(ttl, calls + [c], answers + [answer], k)
    {
      SuppressionIsPast(ttl, calls, answers, c, answer, k);
    }
  }

  /** The specification in plain terms: a lookup is accepted exactly when no accepted lookup
      of the same id came less than the time-to-live before it. */
  lemma {:induction false} SpecExplains(ttl: nat, sections: seq<Section>)
    ensures Explains(ttl, SpecRun(ttl, sections).log, LookupsOf(sections), SpecRun(ttl, sections).answers)
  {
    if sections != [] {
      var front, last := sections[..|sections| - 1], sections[|sections| - 1];
      SpecExplains(ttl, front);
      var spec := SpecRun(ttl, front);
      if last.Lookup? {
        LookupExplains(ttl, spec, LookupsOf(front), Call(last.id, last.now));
      } else {
        assert LookupsOf(sections) == LookupsOf(front);
        assert forall i :: 0 <= i < |spec.log| ==> SpecRun(ttl, sections).log[i] == spec.log[i];
      }
    }
  }

  lemma {:induction false} ChecksLookUpTheCalls(ttl: nat, interval: U32, calls: seq<Call>)
    ensures LookupsOf(Checks(ttl, interval, calls).1) == calls
  {
    if calls != [] {
      var front, c := calls[..|calls| - 1], calls[|calls| - 1];
      ChecksLookUpTheCalls(ttl, interval, front);
      var (st, sections) := Checks(ttl, interval, front);
      var swept, looked := sections + [Cleanup(c.now)], Lookup(c.id, c.now);
      assert swept[..|sections|] == sections;
      assert (swept + [looked])[..|swept|] == swept;
      assert (sections + [looked])[..|sections|] == sections;
      assert sections + [Cleanup(c.now), looked] == swept + [looked];
      assert front + [c] == calls;
    }
  }

  /** With a monotone clock, and however cleanups fall, call `k` is accepted exactly when no
      accepted call for the same id came less than the time-to-live before it. */
  lemma AcceptedExactlyWhenFresh(ttl: nat, interval: U32, calls: seq<Call>, k: nat)
    requires Monotone(calls) && k < |calls|
    ensures
      var answers := Run(ttl, Checks(ttl, interval, calls).1).answers;
      && |answers| == |calls|
      && (answers[k] <==>
          !(ttl > 0 && exists j :: 0 <= j < k && answers[j] && calls[j].id == calls[k].id && calls[k].now < calls[j].now + ttl))
  {
    var sections := Checks(ttl, interval, calls).1;
    MonotoneCallsAgree(ttl, interval, calls);
    SpecExplains(ttl, sections);
    ChecksLookUpTheCalls(ttl, interval, calls);
    assert Suppressed(ttl, calls, Run(ttl, sections).answers, k) <==>
      (var answers := Run(ttl, sections).answers;
       ttl > 0 && exists j :: 0 <= j < k && answers[j] && calls[j].id == calls[k].id && calls[k].now < calls[j].now + ttl);
  }

  /** The operation counter after one more check. */
  lemma CounterStep(ttl: nat, interval: U32, st: State, c: Call)
    ensures Check(ttl, interval, st, c).0.ops == if st.ops >= interval then 0 else st.ops + 1
    ensures Cleanup(c.now) in Check(ttl, interval, st, c).1 <==> st.ops >= interval
  {
  }

  lemma {:induction false} CounterIsTheRemainder(ttl: nat, interval: U32, calls: seq<Call>)
    ensures Checks(ttl, interval, calls).0.ops == |calls| % (interval + 1)
  {
    if calls == [] {
      QuotientIsUnique(0, 0, interval + 1);
    } else {
      var front, c := calls[..|calls| - 1], calls[|calls| - 1];
      CounterIsTheRemainder(ttl, interval, front);
      CounterStep(ttl, interval, Checks(ttl, interval, front).0, c);
      NextRemainder(|front|, interval + 1);
    }
  }

  /** Called one at a time, the deduplicator cleans up on every (interval + 1)-th call and on
      no other. */
  lemma CleanupsComeEveryInterval(ttl: nat, interval: U32, calls: seq<Call>, c: Call)
    ensures
      Cleanup(c.now) in Check(ttl, interval, Checks(ttl, interval, calls).0, c).1 <==>
      |calls| % (interval + 1) == interval
  {
    CounterIsTheRemainder(ttl, interval, calls);
    CounterStep(ttl, interval, Checks(ttl, interval, calls).0, c);
    QuotientBounds(|calls|, interval + 1);
  }

  lemma NextRemainder(a: nat, n: nat)
    requires n >= 1
    ensures (a + 1) % n == if a % n == n - 1 then 0 else a % n + 1
  {
    var q := a / n;
    var p := if a % n == n - 1 then q + 1 else q;
    QuotientBounds(a, n);
    TimesDistributes(q, 1, n);
    TimesDistributes(q + 1, 1, n);
    QuotientIsUnique(a + 1, p, n);
    QuotientBounds(a + 1, n);
  }

  lemma {:induction false} MapIsBounded(ttl: nat, interval: U32, calls: seq<Call>)
    ensures
      var st := Checks(ttl, interval, calls).0;
      st.ops <= interval && |st.seen| <= st.floor + st.ops + 1
  {
    if calls != [] {
      MapIsBounded(ttl, interval, calls[..|calls| - 1]);
    }
  }

  /** The map never holds more than what the last cleanup left plus the interval plus one. */
  lemma MemoryIsBounded(ttl: nat, interval: U32, calls: seq<Call>)
    ensures
      var st := Checks(ttl, interval, calls).0;
      |st.seen| <= st.floor + interval + 1
  {
    MapIsBounded(ttl, interval, calls);
  }

  // ------------------------------------------------------ any number of concurrent calls

  /** Where a thread stands in `check`, which it entered with `id` after reading `now`: about
      to count the operation, to reset the counter, to clean up, or to look up. */
  datatype Pc =
    | Idle
    | Counting(id: string, now: nat)
    | Resetting(id: string, now: nat)
    | Sweeping(id: string, now: nat)
    | Looking(id: string, now: nat)

  datatype Shared = Shared(seen: map<string, nat>, ops: U32, threads: seq<Pc>, answers: seq<bool>)

  /** Thread `tid` takes its next step; `id` and `now` matter if it starts a call. */
  datatype Move = Move(tid: nat, id: string, now: nat)

  function Advance(ttl: nat, interval: U32, s: Shared, e: Move): Shared {
    if e.tid >= |s.threads| then s else
    match s.threads[e.tid]
    case Idle => s.(threads := s.threads[e.tid := Counting(e.id, e.now)])
    case Counting(id, now) =>
      s.(ops := WrappingInc(s.ops),
         threads := s.threads[e.tid := if s.ops >= interval then Resetting(id, now) else Looking(id, now)])
    case Resetting(id, now) => s.(ops := 0, threads := s.threads[e.tid := Sweeping(id, now)])
    case Sweeping(id, now) => s.(seen := Retained(ttl, s.seen, now), threads := s.threads[e.tid := Looking(id, now)])
    case Looking(id, now) =>
      s.(seen := Recorded(ttl, s.seen, id, now), threads := s.threads[e.tid := Idle],
         answers := s.answers + [IsNew(ttl, s.seen, id, now)])
  }

  function Interleave(ttl: nat, interval: U32, n: nat, moves: seq<Move>): Shared {
    if moves == [] then Shared(map[], 0, seq(n, _ => Idle), [])
    else Advance(ttl, interval, Interleave(ttl, interval, n, moves[..|moves| - 1]), moves[|moves| - 1])
  }

  /** The critical section a step runs, if any. */
  function SectionOf(s: Shared, e: Move): seq<Section> {
    if e.tid >= |s.threads| then [] else
    match s.threads[e.tid]
    case Sweeping(_, now) => [Cleanup(now)]
    case Looking(id, now) => [Lookup(id, now)]
    case _ => []
  }

  /** The critical sections of an interleaving, in lock order. */
  function Sections(ttl: nat, interval: U32, n: nat, moves: seq<Move>): seq<Section> {
    if moves == [] then []
    else
      var front := moves[..|moves| - 1];
      Sections(ttl, interval, n, front) + SectionOf(Interleave(ttl, interval, n, front), moves[|moves| - 1])
  }

  lemma MoveIsSection(ttl: nat, interval: U32, s: Shared, e: Move)
    ensures
      var t, section, before := Advance(ttl, interval, s, e), SectionOf(s, e), Sys(s.seen, s.answers);
      && |section| <= 1
      && Sys(t.seen, t.answers) == if section == [] then before else Step(ttl, before, section[0])
  {
  }

  lemma {:induction false} InterleavingIsSections(ttl: nat, interval: U32, n: nat, moves: seq<Move>)
    ensures
      var s := Interleave(ttl, interval, n, moves);
      Run(ttl, Sections(ttl, interval, n, moves)) == Sys(s.seen, s.answers)
  {
    if moves != [] {
      var front, e := moves[..|moves| - 1], moves[|moves| - 1];
      InterleavingIsSections(ttl, interval, n, front);
      var s, sections := Interleave(ttl, interval, n, front), Sections(ttl, interval, n, front);
      var section := SectionOf(s, e);
      MoveIsSection(ttl, interval, s, e);
      if section == [] {
        assert sections + section == sections;
      } else {
        assert section == [section[0]];
        RunAppend(ttl, sections, section[0]);
      }
    }
  }

  /** In every interleaving of any number of threads, the answers returned are those of the
      specification that never forgets if and only if no lookup is a stale hit. */
  lemma ThreadsAgreeExactlyWhen(ttl: nat, interval: U32, n: nat, moves: seq<Move>)
    ensures
      var sections := Sections(ttl, interval, n, moves);
      Interleave(ttl, interval, n, moves).answers == SpecRun(ttl, sections).answers <==> NoStaleHits(ttl, sections)
  {
    InterleavingIsSections(ttl, interval, n, moves);
    AgreesExactlyWhen(ttl, Sections(ttl, interval, n, moves));
  }

  /** The move with which thread `tid` started its latest call. */
  function Started(ttl: nat, interval: U32, n: nat, moves: seq<Move>, tid: nat): Option<Move> {
    if moves == [] then None
    else
      var front, e := moves[..|moves| - 1], moves[|moves| - 1];
      var s := Interleave(ttl, interval, n, front);
      if e.tid == tid < |s.threads| && s.threads[tid].Idle? then Some(e) else Started(ttl, interval, n, front, tid)
  }

  /** In every interleaving a thread inside `check` works on the id, and with the clock
      reading, with which it started the call. */
  lemma {:induction false} ThreadsCarryTheirCalls(ttl: nat, interval: U32, n: nat, moves: seq<Move>, tid: nat)
    requires tid < n
    ensures
      var s, m := Interleave(ttl, interval, n, moves), Started(ttl, interval, n, moves, tid);
      && |s.threads| == n
      && (s.threads[tid].Idle? || (m.Some? && s.threads[tid].id == m.value.id && s.threads[tid].now == m.value.now))
  {
    if moves != [] {
      ThreadsCarryTheirCalls(ttl, interval, n, moves[..|moves| - 1], tid);
    }
  }

  /** A list of states with the moves between them. */
  ghost predicate IsTrace(ttl: nat, interval: U32, moves: seq<Move>, states: seq<Shared>) {
    && |states| == |moves| + 1
    && forall k :: 0 <= k < |moves| ==> states[k + 1] == Advance(ttl, interval, states[k], moves[k])
  }

  function SectionsAlong(moves: seq<Move>, states: seq<Shared>, k: nat): seq<Section>
    requires k <= |moves| < |states|
  {
    if k == 0 then [] else SectionsAlong(moves, states, k - 1) + SectionOf(states[k - 1], moves[k - 1])
  }

  lemma {:induction false} TraceIsRun(ttl: nat, interval: U32, n: nat, moves: seq<Move>, states: seq<Shared>, k: nat)
    requires IsTrace(ttl, interval, moves, states) && states[0] == Interleave(ttl, interval, n, []) && k <= |moves|
    ensures Interleave(ttl, interval, n, moves[..k]) == states[k]
    ensures Sections(ttl, interval, n, moves[..k]) == SectionsAlong(moves, states, k)
  {
    if k > 0 {
      TraceIsRun(ttl, interval, n, moves, states, k - 1);
      assert moves[..k][..k - 1] == moves[..k - 1];
    }
  }

  /** Two threads, a time-to-live of ten and a cleanup every two operations: thread 1 reads
      the clock at 5 and waits; thread 0 reads it at 10 and cleans up; thread 1 goes on. */
  function StaleRun(x: string, y: string): seq<Move> {
    [Move(0, x, 0), Move(0, "", 0), Move(0, "", 0),
     Move(1, x, 5), Move(1, "", 0),
     Move(0, y, 10), Move(0, "", 0), Move(0, "", 0), Move(0, "", 0),
     Move(1, "", 0)]
  }

  function StaleStates(x: string, y: string): seq<Shared> {
    [Shared(map[], 0, [Idle, Idle], []),
     Shared(map[], 0, [Counting(x, 0), Idle], []),
     Shared(map[], 1, [Looking(x, 0), Idle], []),
     Shared(map[x := 0], 1, [Idle, Idle], [true]),
     Shared(map[x := 0], 1, [Idle, Counting(x, 5)], [true]),
     Shared(map[x := 0], 2, [Idle, Looking(x, 5)], [true]),
     Shared(map[x := 0], 2, [Counting(y, 10), Looking(x, 5)], [true]),
     Shared(map[x := 0], 3, [Resetting(y, 10), Looking(x, 5)], [true]),
     Shared(map[x := 0], 0, [Sweeping(y, 10), Looking(x, 5)], [true]),
     Shared(map[], 0, [Looking(y, 10), Looking(x, 5)], [true]),
     Shared(map[x := 5], 0, [Looking(y, 10), Idle], [true, true])]
  }

  ghost predicate Hop(x: string, y: string, k: nat, section: seq<Section>) {
    && k + 1 < |StaleStates(x, y)| && k < |StaleRun(x, y)|
    && StaleStates(x, y)[k + 1] == Advance(10, 2, StaleStates(x, y)[k], StaleRun(x, y)[k])
    && SectionOf(StaleStates(x, y)[k], StaleRun(x, y)[k]) == section
  }

  lemma FirstHops(x: string, y: string)
    ensures Hop(x, y, 0, []) && Hop(x, y, 1, []) && Hop(x, y, 2, [Lookup(x, 0)]) && Hop(x, y, 3, []) && Hop(x, y, 4, [])
  {
  }

  lemma LastHops(x: string, y: string)
    ensures Hop(x, y, 5, []) && Hop(x, y, 6, []) && Hop(x, y, 7, []) && Hop(x, y, 8, [Cleanup(10)])
    ensures Hop(x, y, 9, [Lookup(x, 5)])
  {
  }

  lemma StaleTrace(x: string, y: string)
    ensures IsTrace(10, 2, StaleRun(x, y), StaleStates(x, y))
  {
    FirstHops(x, y);
    LastHops(x, y);
    var run, states := StaleRun(x, y), StaleStates(x, y);
    forall k | 0 <= k < 10 ensures states[k + 1] == Advance(10, 2, states[k], run[k]) {
    }
  }

  lemma HopAlong(x: string, y: string, k: nat, section: seq<Section>, before: seq<Section>)
    requires Hop(x, y, k, section) && SectionsAlong(StaleRun(x, y), StaleStates(x, y), k) == before
    ensures SectionsAlong(StaleRun(x, y), StaleStates(x, y), k + 1) == before + section
  {
  }

  lemma StaleSections(x: string, y: string)
    ensures SectionsAlong(StaleRun(x, y), StaleStates(x, y), 10) == [Lookup(x, 0), Cleanup(10), Lookup(x, 5)]
  {
    var accepted, swept := [Lookup(x, 0)], [Lookup(x, 0), Cleanup(10)];
    FirstHops(x, y);
    LastHops(x, y);
    HopAlong(x, y, 0, [], []);
    HopAlong(x, y, 1, [], []);
    HopAlong(x, y, 2, [Lookup(x, 0)], []);
    HopAlong(x, y, 3, [], accepted);
    HopAlong(x, y, 4, [], accepted);
    HopAlong(x, y, 5, [], accepted);
    HopAlong(x, y, 6, [], accepted);
    HopAlong(x, y, 7, [], accepted);
    HopAlong(x, y, 8, [Cleanup(10)], accepted);
    HopAlong(x, y, 9, [Lookup(x, 5)], swept);
  }

  /** Threads really get there: this interleaving admits `x` twice within its time-to-live. */
  lemma StaleReadingHappens(x: string, y: string)
    ensures
      && Sections(10, 2, 2, StaleRun(x, y)) == [Lookup(x, 0), Cleanup(10), Lookup(x, 5)]
      && Interleave(10, 2, 2, StaleRun(x, y)).answers == [true, true]
      && SpecRun(10, Sections(10, 2, 2, StaleRun(x, y))).answers == [true, false]
  {
    StaleTrace(x, y);
    StaleSections(x, y);
    assert StaleStates(x, y)[0] == Interleave(10, 2, 2, []);
    TraceIsRun(10, 2, 2, StaleRun(x, y), StaleStates(x, y), 10);
    assert StaleRun(x, y)[..10] == StaleRun(x, y);
    StaleReadingReadmits(x);
  }

  /** How many entries the last cleanup of an interleaving left. */
  function Floor(ttl: nat, interval: U32, n: nat, moves: seq<Move>): nat {
    if moves == [] then 0
    else
      var front, e := moves[..|moves| - 1], moves[|moves| - 1];
      var s := Interleave(ttl, interval, n, front);
      if e.tid < |s.threads| && s.threads[e.tid].Sweeping? then |Interleave(ttl, interval, n, moves).seen|
      else Floor(ttl, interval, n, front)
  }

  function IsLooking(pc: Pc): nat { if pc.Looking? then 1 else 0 }

  function IsSweeping(pc: Pc): nat { if pc.Sweeping? then 1 else 0 }

  function IsResetting(pc: Pc): nat { if pc.Resetting? then 1 else 0 }

  function Sum(threads: seq<Pc>, f: Pc -> nat): nat {
    if threads == [] then 0 else f(threads[0]) + Sum(threads[1..], f)
  }

  lemma {:induction false} SumUpdate(threads: seq<Pc>, f: Pc -> nat, tid: nat, pc: Pc)
    requires tid < |threads|
    ensures Sum(threads[tid := pc], f) + f(threads[tid]) == Sum(threads, f) + f(pc)
  {
    if tid == 0 {
      assert threads[0 := pc][1..] == threads[1..];
    } else {
      assert threads[tid := pc][1..] == threads[1..][tid - 1 := pc];
      SumUpdate(threads[1..], f, tid - 1, pc);
    }
  }

  lemma {:induction false} SumBound(threads: seq<Pc>, f: Pc -> nat)
    requires forall pc :: f(pc) <= 1
    ensures Sum(threads, f) <= |threads|
  {
    if threads != [] {
      SumBound(threads[1..], f);
    }
  }

  lemma {:induction false} SumOfIdle(n: nat, f: Pc -> nat)
    requires f(Idle) == 0
    ensures Sum(seq(n, _ => Idle), f) == 0
  {
    if n > 0 {
      assert seq(n, _ => Idle)[1..] == seq(n - 1, _ => Idle);
      SumOfIdle(n - 1, f);
    }
  }

  /** The counter can pass its largest value: more threads than room above the interval. */
  predicate CanWrap(interval: U32, n: nat) { n + interval > U32_MAX }

  /** The intervals that threads about to reset or clean up may still have let pass. */
  function Debt(interval: U32, n: nat, threads: seq<Pc>): nat {
    if CanWrap(interval, n) then 2 * Sum(threads, IsSweeping) + Sum(threads, IsResetting)
    else Sum(threads, IsSweeping)
  }

  ghost predicate Bounded(interval: U32, n: nat, s: Shared, floor: nat) {
    && |s.threads| == n
    && (!CanWrap(interval, n) ==> s.ops <= interval + Sum(s.threads, IsResetting))
    && |s.seen| + Sum(s.threads, IsLooking)
         <= floor + n + Debt(interval, n, s.threads) * interval + Min(s.ops, interval)
  }

  /** Moving thread `tid` to `pc` moves the three counts. */
  lemma CountsMove(s: Shared, tid: nat, pc: Pc)
    requires tid < |s.threads|
    ensures
      var t := s.threads[tid := pc];
      && Sum(t, IsLooking) + IsLooking(s.threads[tid]) == Sum(s.threads, IsLooking) + IsLooking(pc)
      && Sum(t, IsSweeping) + IsSweeping(s.threads[tid]) == Sum(s.threads, IsSweeping) + IsSweeping(pc)
      && Sum(t, IsResetting) + IsResetting(s.threads[tid]) == Sum(s.threads, IsResetting) + IsResetting(pc)
      && Sum(t, IsLooking) <= |s.threads| && Sum(t, IsResetting) <= |s.threads|
  {
    SumUpdate(s.threads, IsLooking, tid, pc);
    SumUpdate(s.threads, IsSweeping, tid, pc);
    SumUpdate(s.threads, IsResetting, tid, pc);
    SumBound(s.threads[tid := pc], IsLooking);
    SumBound(s.threads[tid := pc], IsResetting);
  }

  lemma CountingIsBounded(ttl: nat, interval: U32, n: nat, s: Shared, e: Move, floor: nat)
    requires Bounded(interval, n, s, floor) && e.tid < n && s.threads[e.tid].Counting?
    ensures Bounded(interval, n, Advance(ttl, interval, s, e), floor)
  {
    var t := Advance(ttl, interval, s, e);
    CountsMove(s, e.tid, t.threads[e.tid]);
    TimesDistributes(Debt(interval, n, s.threads), 1, interval);
  }

  lemma ResettingIsBounded(ttl: nat, interval: U32, n: nat, s: Shared, e: Move, floor: nat)
    requires Bounded(interval, n, s, floor) && e.tid < n && s.threads[e.tid].Resetting?
    ensures Bounded(interval, n, Advance(ttl, interval, s, e), floor)
  {
    var t := Advance(ttl, interval, s, e);
    CountsMove(s, e.tid, t.threads[e.tid]);
    TimesDistributes(Debt(interval, n, s.threads), 1, interval);
  }

  /** A cleanup starts the count afresh: at most every thread is about to look up. */
  lemma SweepingIsBounded(ttl: nat, interval: U32, n: nat, s: Shared, e: Move, floor: nat)
    requires Bounded(interval, n, s, floor) && e.tid < n && s.threads[e.tid].Sweeping?
    ensures
      var t := Advance(ttl, interval, s, e);
      Bounded(interval, n, t, |t.seen|)
  {
    var t := Advance(ttl, interval, s, e);
    CountsMove(s, e.tid, t.threads[e.tid]);
    TimesMonotone(0, Debt(interval, n, t.threads), interval);
  }

  lemma OneMoreEntry(ttl: nat, seen: map<string, nat>, id: string, now: nat)
    ensures |Recorded(ttl, seen, id, now)| <= |seen| + 1
  {
    assert seen[id := now].Keys == seen.Keys + {id};
  }

  lemma LookingIsBounded(ttl: nat, interval: U32, n: nat, s: Shared, e: Move, floor: nat)
    requires Bounded(interval, n, s, floor) && e.tid < n && s.threads[e.tid].Looking?
    ensures Bounded(interval, n, Advance(ttl, interval, s, e), floor)
  {
    CountsMove(s, e.tid, Idle);
    OneMoreEntry(ttl, s.seen, s.threads[e.tid].id, s.threads[e.tid].now);
  }

  lemma StartIsBounded(ttl: nat, interval: U32, n: nat, s: Shared, e: Move, floor: nat)
    requires Bounded(interval, n, s, floor) && e.tid < n && s.threads[e.tid].Idle?
    ensures Bounded(interval, n, Advance(ttl, interval, s, e), floor)
  {
    CountsMove(s, e.tid, Counting(e.id, e.now));
  }

  lemma {:induction false} InterleavingIsBounded(ttl: nat, interval: U32, n: nat, moves: seq<Move>)
    ensures Bounded(interval, n, Interleave(ttl, interval, n, moves), Floor(ttl, interval, n, moves))
  {
    if moves == [] {
      SumOfIdle(n, IsLooking);
      SumOfIdle(n, IsSweeping);
      SumOfIdle(n, IsResetting);
    } else {
      var front, e := moves[..|moves| - 1], moves[|moves| - 1];
      InterleavingIsBounded(ttl, interval, n, front);
      var s, floor := Interleave(ttl, interval, n, front), Floor(ttl, interval, n, front);
      if e.tid < n {
        match s.threads[e.tid]
        case Counting(_, _) => CountingIsBounded(ttl, interval, n, s, e, floor);
        case Resetting(_, _) => ResettingIsBounded(ttl, interval, n, s, e, floor);
        case Sweeping(_, _) => SweepingIsBounded(ttl, interval, n, s, e, floor);
        case Looking(_, _) => LookingIsBounded(ttl, interval, n, s, e, floor);
        case Idle => StartIsBounded(ttl, interval, n, s, e, floor);
      }
    }
  }

  /** With any number of threads the map holds at most what the last cleanup left, one entry
      per thread, and one interval, plus one more interval for every thread that has reset
      the counter and not yet cleaned up. Only with more threads than fit between the
      interval and the 32-bit maximum can the counter wrap, and then each such thread may
      cost two and each thread about to reset one. */
  lemma MemoryIsBoundedForThreads(ttl: nat, interval: U32, n: nat, moves: seq<Move>)
    ensures
      var s := Interleave(ttl, interval, n, moves);
      |s.seen| <= Floor(ttl, interval, n, moves) + n + interval + Debt(interval, n, s.threads) * interval
  {
    InterleavingIsBounded(ttl, interval, n, moves);
  }

  // ------------------------------------------------------------------------- the class

  class Deduplicator {
    const ttl: nat
    const cleanupInterval: U32
    var seen: map<string, nat>
    var ops: U32
    ghost var floor: nat

    ghost function Now(): State reads this { State(seen, ops, floor) }

    constructor (ttl: nat, cleanupInterval: U32)
      ensures this.ttl == ttl && this.cleanupInterval == Max(cleanupInterval, 1)
      ensures Now() == State(map[], 0, 0)
    {
      this.ttl := ttl;
      this.cleanupInterval := Max(cleanupInterval, 1);
      seen, ops := map[], 0;
      floor := 0;
    }

    method CleanUp(now: nat)
      modifies this`seen
      ensures seen == Retained(ttl, old(seen), now)
      ensures forall k :: k in seen <==> k in old(seen) && ttl > 0 && now < old(seen)[k] + ttl
      ensures forall k :: k in seen ==> seen[k] == old(seen)[k]
    {
      var pending := seen.Keys;
      var kept: map<string, nat> := map[];
      while pending != {}
        invariant seen == old(seen) && pending <= seen.Keys
        invariant kept == map id | id in seen && id !in pending && Live(ttl, now, seen[id]) :: seen[id]
        decreases |pending|
      {
        var id :| id in pending;
        pending := pending - {id};
        if SaturatingSub(now, seen[id]) < ttl {
          kept := kept[id := seen[id]];
        }
      }
      seen := kept;
    }

    /** Returns true if the message is new. */
    method CheckId(id: string, now: nat) returns (isNew: bool)
      modifies this
      ensures Now() == Check(ttl, cleanupInterval, old(Now()), Call(id, now)).0
      ensures isNew <==> !(id in old(seen) && ttl > 0 && now < old(seen)[id] + ttl)
      ensures forall k :: k in seen <==>
        (k == id || (k in old(seen) && (old(ops) < cleanupInterval || (ttl > 0 && now < old(seen)[k] + ttl))))
      ensures forall k :: k in seen ==> seen[k] == if k == id && isNew then now else old(seen)[k]
    {
      var count := ops;
      ops := WrappingInc(ops);
      if count >= cleanupInterval {
        ops := 0;
        CleanUp(now);
        floor := |seen|;
      }
      if id in seen && SaturatingSub(now, seen[id]) < ttl {
        return false;
      }
      seen := seen[id := now];
      return true;
    }
  }
}
