/** The hub with the aggregator as its middleware. The receive loop passes every message to
    the aggregator and buffers what it returns; when the channel closes, the hub raises the
    flag and never asks the aggregator for what it still holds. */
module Pipeline {
  import opened Machine
  import opened Messages
  import A = Aggregation
  import H = Hub
  import BoundedQueue

  datatype Config = Config(hub: H.Config, batchSize: nat, strategy: A.Strategy)

  /** A message and what the aggregator would take from outside when it arrives. */
  datatype Arrival = Arrival(m: Message, out: A.Outside)

  datatype Event = Receive(arrival: Arrival) | Close | Flush

  /** The hub and what the aggregator holds. */
  datatype Sys = Sys(hub: H.Sys, held: seq<Message>)

  function Step(cfg: Config, s: Sys, e: Event): Sys {
    match e
    case Receive(a) =>
      if s.hub.shutdown then s
      else
        var (held, passed) := A.Offer(cfg.batchSize, cfg.strategy, s.held, a.m, a.out);
        Sys(H.Step(cfg.hub, s.hub, H.Arrive(passed)), held)
    case Close => s.(hub := H.Step(cfg.hub, s.hub, H.Close))
    case Flush => s.(hub := H.Step(cfg.hub, s.hub, H.Flush))
  }

  function Run(cfg: Config, events: seq<Event>): Sys {
    if events == [] then Sys(H.Init(cfg.hub), [])
    else Step(cfg, Run(cfg, events[..|events| - 1]), events[|events| - 1])
  }

  // -------------------------------------------------------------------- what should happen

  predicate IsOpen(events: seq<Event>) { forall i :: 0 <= i < |events| ==> !events[i].Close? }

  /** The messages received before the channel closed, in order. */
  function Received(events: seq<Event>): seq<Arrival> {
    if events == [] then []
    else
      var front, e := events[..|events| - 1], events[|events| - 1];
      Received(front) + if e.Receive? && IsOpen(front) then [e.arrival] else []
  }

  /** Complete groups of `n`, in order. */
  function Groups(n: nat, xs: seq<Arrival>): (groups: seq<seq<Arrival>>)
    requires n >= 1
    ensures forall i :: 0 <= i < |groups| ==> |groups[i]| == n
  {
    if |xs| < n then [] else [xs[..n]] + Groups(n, xs[n..])
  }

  /** What is left after the last complete group. */
  function Rest(n: nat, xs: seq<Arrival>): seq<Arrival>
    requires n >= 1
  {
    if |xs| < n then xs else Rest(n, xs[n..])
  }

  function Bodies(xs: seq<Arrival>): seq<Message> { seq(|xs|, i requires 0 <= i < |xs| => xs[i].m) }

  /** The aggregate of a group, made when its last message arrives. */
  function Aggregate(strategy: A.Strategy, group: seq<Arrival>): Message
    requires group != []
  {
    A.Combine(strategy, Bodies(group), group[|group| - 1].out)
  }

  function Aggregates(strategy: A.Strategy, groups: seq<seq<Arrival>>): seq<Message>
    requires forall i :: 0 <= i < |groups| ==> groups[i] != []
  {
    seq(|groups|, i requires 0 <= i < |groups| => Aggregate(strategy, groups[i]))
  }

  function Flatten(groups: seq<seq<Arrival>>): seq<Arrival> {
    if groups == [] then [] else groups[0] + Flatten(groups[1..])
  }

  lemma {:induction false} GroupsSplit(n: nat, xs: seq<Arrival>)
    requires n >= 1
    ensures Flatten(Groups(n, xs)) + Rest(n, xs) == xs
    ensures |Rest(n, xs)| == |xs| % n
  {
    if |xs| >= n {
      GroupsSplit(n, xs[n..]);
      AddMultiple(|xs| - n, 1, n);
      assert xs == xs[..n] + xs[n..];
      assert Groups(n, xs)[1..] == Groups(n, xs[n..]);
    } else {
      QuotientIsUnique(|xs|, 0, n);
    }
  }

  /** One more message completes the group being collected, or joins it. */
  lemma {:induction false} OneMore(n: nat, xs: seq<Arrival>, x: Arrival)
    requires n >= 1
    ensures |Rest(n, xs)| < n
    ensures
      var rest := Rest(n, xs);
      if |rest| + 1 >= n
      then Groups(n, xs + [x]) == Groups(n, xs) + [rest + [x]] && Rest(n, xs + [x]) == []
      else Groups(n, xs + [x]) == Groups(n, xs) && Rest(n, xs + [x]) == rest + [x]
  {
    if |xs| >= n {
      OneMore(n, xs[n..], x);
      assert (xs + [x])[..n] == xs[..n] && (xs + [x])[n..] == xs[n..] + [x];
    } else if |xs| + 1 == n {
      assert (xs + [x])[..n] == xs + [x] && (xs + [x])[n..] == [];
    }
  }

  // -------------------------------------------------------------------------- every run

  /** The hub has taken in the aggregates of the complete groups, and the rest is held. */
  ghost predicate Tracks(cfg: Config, s: Sys, xs: seq<Arrival>)
    requires cfg.batchSize >= 1
  {
    && s.hub.log.inputs == Aggregates(cfg.strategy, Groups(cfg.batchSize, xs))
    && s.held == Bodies(Rest(cfg.batchSize, xs))
  }

  lemma ReceiveTracks(cfg: Config, s: Sys, xs: seq<Arrival>, a: Arrival)
    requires cfg.batchSize >= 1 && Tracks(cfg, s, xs) && !s.hub.shutdown
    ensures Tracks(cfg, Step(cfg, s, Receive(a)), xs + [a])
  {
    OneMore(cfg.batchSize, xs, a);
    var rest := Rest(cfg.batchSize, xs);
    assert Bodies(rest + [a]) == Bodies(rest) + [a.m];
    if |rest| + 1 >= cfg.batchSize {
      assert Aggregates(cfg.strategy, Groups(cfg.batchSize, xs) + [rest + [a]])
          == Aggregates(cfg.strategy, Groups(cfg.batchSize, xs)) + [Aggregate(cfg.strategy, rest + [a])];
    }
  }

  lemma StepKeepsHub(cfg: Config, s: Sys, e: Event)
    requires H.OffersOk(cfg.hub, s.hub) && H.BufferOk(cfg.hub, s.hub)
    ensures H.OffersOk(cfg.hub, Step(cfg, s, e).hub) && H.BufferOk(cfg.hub, Step(cfg, s, e).hub)
  {
    var he := match e
      case Receive(a) => H.Arrive(A.Offer(cfg.batchSize, cfg.strategy, s.held, a.m, a.out).1)
      case Close => H.Close
      case Flush => H.Flush;
    H.StepKeepsOffers(cfg.hub, s.hub, he);
    H.StepKeepsBuffer(cfg.hub, s.hub, he);
  }

  lemma {:induction false} RunKeepsHub(cfg: Config, events: seq<Event>)
    ensures H.OffersOk(cfg.hub, Run(cfg, events).hub) && H.BufferOk(cfg.hub, Run(cfg, events).hub)
  {
    if events != [] {
      RunKeepsHub(cfg, events[..|events| - 1]);
      StepKeepsHub(cfg, Run(cfg, events[..|events| - 1]), events[|events| - 1]);
    }
  }

  lemma QuietStep(cfg: Config, s: Sys, e: Event)
    requires e.Receive? ==> s.hub.shutdown
    ensures Step(cfg, s, e).hub.log.inputs == s.hub.log.inputs && Step(cfg, s, e).held == s.held
  {
  }

  lemma {:induction false} RunTracks(cfg: Config, events: seq<Event>)
    requires cfg.batchSize >= 1
    ensures Tracks(cfg, Run(cfg, events), Received(events))
    ensures Run(cfg, events).hub.shutdown <==> !IsOpen(events)
  {
    if events != [] {
      var front, e := events[..|events| - 1], events[|events| - 1];
      RunTracks(cfg, front);
      var s := Run(cfg, front);
      assert IsOpen(events) <==> IsOpen(front) && !e.Close?;
      if e.Receive? && IsOpen(front) {
        ReceiveTracks(cfg, s, Received(front), e.arrival);
      } else {
        QuietStep(cfg, s, e);
        assert Received(events) == Received(front);
      }
    }
  }

  /** In every interleaving: the received messages are, in order, the members of complete
      groups followed by what the aggregator holds; the groups' aggregates are, in order,
      those that left the buffer, evicted or drained, followed by those still in it; and each
      emitter has been offered exactly the drained aggregates routed to it. */
  lemma EveryMessageIsAccountedFor(cfg: Config, events: seq<Event>)
    requires cfg.batchSize >= 1
    ensures
      var s, xs := Run(cfg, events), Received(events);
      var groups := Groups(cfg.batchSize, xs);
      && Bodies(xs) == Bodies(Flatten(groups)) + s.held
      && |s.held| == |xs| % cfg.batchSize
      && s.hub.log.left + s.hub.log.queue == Aggregates(cfg.strategy, groups)
      && |s.hub.log.left| == |s.hub.log.why|
      && H.Delivered(s.hub) == H.Select(s.hub.log.left, s.hub.log.why, BoundedQueue.Drained)
      && |s.hub.offers| == |cfg.hub.emitters|
      && forall i :: 0 <= i < |s.hub.offers| ==> s.hub.offers[i] == Routed(H.Seen(s.hub, i), cfg.hub.emitters[i])
  {
    RunTracks(cfg, events);
    RunKeepsHub(cfg, events);
    var xs := Received(events);
    GroupsSplit(cfg.batchSize, xs);
    var members, rest := Flatten(Groups(cfg.batchSize, xs)), Rest(cfg.batchSize, xs);
    assert Bodies(members + rest) == Bodies(members) + Bodies(rest);
  }

  /** Shutdown does not flush the aggregator: even if nothing was evicted, once the flush loop
      has exited every received message has been part of an aggregate offered to the emitters
      if and only if the number received is a multiple of the batch size. */
  lemma NothingHeldBackExactlyWhen(cfg: Config, events: seq<Event>)
    requires cfg.batchSize >= 1
    requires Run(cfg, events).hub.flusher.Exited?
    requires
      var why := Run(cfg, events).hub.log.why;
      forall i :: 0 <= i < |why| ==> why[i] == BoundedQueue.Drained
    ensures
      var s, xs := Run(cfg, events), Received(events);
      var groups := Groups(cfg.batchSize, xs);
      && s.hub.settled == Aggregates(cfg.strategy, groups)
      && (Flatten(groups) == xs <==> |xs| % cfg.batchSize == 0)
  {
    EveryMessageIsAccountedFor(cfg, events);
    RunKeepsHub(cfg, events);
    var s, xs := Run(cfg, events), Received(events);
    GroupsSplit(cfg.batchSize, xs);
    H.SelectAll(s.hub.log.left, s.hub.log.why, BoundedQueue.Drained);
    assert s.hub.log.left + [] == s.hub.log.left;
    assert |xs| == |Flatten(Groups(cfg.batchSize, xs))| + |Rest(cfg.batchSize, xs)|;
  }
}
