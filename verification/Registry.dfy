/** The plugin registry's routing: events are indexed by route first and handed out
    emitter by emitter afterwards, against the plain routing predicate of the hub. */
module Registry {
  import opened Messages

  function Broadcasts(events: seq<Message>): seq<Message> {
    if events == [] then []
    else
      var last := events[|events| - 1];
      Broadcasts(events[..|events| - 1]) + if last.routeTo == [] then [last] else []
  }

  function Occurrences(routes: seq<string>, name: string): nat {
    if routes == [] then 0
    else Occurrences(routes[..|routes| - 1], name) + if routes[|routes| - 1] == name then 1 else 0
  }

  function Copies(m: Message, n: nat): seq<Message> { seq(n, _ => m) }

  /** The targeted events for `name` in input order, each as often as it lists the name. */
  function Targeted(events: seq<Message>, name: string): seq<Message> {
    if events == [] then []
    else
      var last := events[|events| - 1];
      Targeted(events[..|events| - 1], name) + Copies(last, Occurrences(last.routeTo, name))
  }

  /** The batches one emitter is called with. */
  function BatchesFor(events: seq<Message>, name: string): seq<seq<Message>> {
    (if Broadcasts(events) == [] then [] else [Broadcasts(events)]) +
    (if Targeted(events, name) == [] then [] else [Targeted(events, name)])
  }

  function Flatten(batches: seq<seq<Message>>): seq<Message> {
    if batches == [] then [] else batches[0] + Flatten(batches[1..])
  }

  /** An emitter is called at most twice, never with nothing, and over its calls gets the
      broadcasts followed by its targeted events. */
  lemma BroadcastsComeFirst(events: seq<Message>, name: string)
    ensures
      var batches := BatchesFor(events, name);
      && |batches| <= 2 && (forall i :: 0 <= i < |batches| ==> batches[i] != [])
      && Flatten(batches) == Broadcasts(events) + Targeted(events, name)
  {
    var b, t, batches := Broadcasts(events), Targeted(events, name), BatchesFor(events, name);
    assert Flatten([]) == [];
    assert batches[|batches|..] == [];
    if b != [] && t != [] {
      assert batches[1..] == [t] && [t][1..] == [];
      assert Flatten([t]) == t + Flatten([t][1..]) == t;
    } else if b != [] || t != [] {
      assert batches[1..] == [];
    }
  }

  /** How many of the first `n` emit calls returned Ok. */
  function Successes(script: nat -> bool, n: nat): nat {
    if n == 0 then 0 else Successes(script, n - 1) + if script(n - 1) then 1 else 0
  }

  /** Calls made over all emitters. */
  function CallCount(offers: seq<seq<seq<Message>>>): nat {
    if offers == [] then 0 else CallCount(offers[..|offers| - 1]) + |offers[|offers| - 1]|
  }

  lemma {:induction false} BroadcastsAppend(a: seq<Message>, b: seq<Message>)
    ensures Broadcasts(a + b) == Broadcasts(a) + Broadcasts(b)
    decreases |b|
  {
    if b == [] {
      assert a + b == a;
    } else {
      assert (a + b)[..|a + b| - 1] == a + b[..|b| - 1];
      BroadcastsAppend(a, b[..|b| - 1]);
    }
  }

  lemma {:induction false} TargetedAppend(a: seq<Message>, b: seq<Message>, name: string)
    ensures Targeted(a + b, name) == Targeted(a, name) + Targeted(b, name)
    decreases |b|
  {
    if b == [] {
      assert a + b == a;
    } else {
      assert (a + b)[..|a + b| - 1] == a + b[..|b| - 1];
      TargetedAppend(a, b[..|b| - 1], name);
    }
  }

  lemma {:induction false} OccurrencesAreTheMultiplicity(routes: seq<string>, name: string)
    ensures Occurrences(routes, name) == multiset(routes)[name]
  {
    if routes != [] {
      OccurrencesAreTheMultiplicity(routes[..|routes| - 1], name);
      assert routes == routes[..|routes| - 1] + [routes[|routes| - 1]];
    }
  }

  /** What an emitter gets is fixed by the parts of the input, in order, and by single events:
      a broadcast once, a targeted one as often as it lists the name. */
  lemma OffersFollowTheInput(a: seq<Message>, m: Message, b: seq<Message>, name: string)
    ensures Broadcasts(a + [m] + b) == Broadcasts(a) + (if m.routeTo == [] then [m] else []) + Broadcasts(b)
    ensures Targeted(a + [m] + b, name) == Targeted(a, name) + Copies(m, multiset(m.routeTo)[name]) + Targeted(b, name)
  {
    BroadcastsAppend(a + [m], b);
    BroadcastsAppend(a, [m]);
    TargetedAppend(a + [m], b, name);
    TargetedAppend(a, [m], name);
    OccurrencesAreTheMultiplicity(m.routeTo, name);
    assert [m][..0] == [];
    assert Broadcasts([m]) == if m.routeTo == [] then [m] else [];
    assert Targeted([m], name) == [] + Copies(m, Occurrences(m.routeTo, name));
  }

  /** The first `n` calls that returned Ok. */
  ghost function OkCalls(script: nat -> bool, n: nat): set<nat> { set k: nat | k < n && script(k) }

  lemma OneMoreCall(script: nat -> bool, n: nat)
    ensures OkCalls(script, n + 1) == if script(n) then OkCalls(script, n) + {n} else OkCalls(script, n)
  {
  }

  /** The count is the number of calls that returned Ok. */
  lemma {:induction false} SuccessesAreTheOkCalls(script: nat -> bool, n: nat)
    ensures Successes(script, n) == |OkCalls(script, n)|
  {
    if n > 0 {
      SuccessesAreTheOkCalls(script, n - 1);
      OneMoreCall(script, n - 1);
      assert n - 1 !in OkCalls(script, n - 1);
    }
  }

  // --------------------------------------------------------- against the hub's predicate

  lemma {:induction false} OccursWhenListed(routes: seq<string>, name: string)
    ensures Occurrences(routes, name) >= 1 <==> name in routes
  {
    if routes != [] {
      OccursWhenListed(routes[..|routes| - 1], name);
      assert routes == routes[..|routes| - 1] + [routes[|routes| - 1]];
    }
  }

  /** Copies beyond the first, over all events. */
  function Surplus(events: seq<Message>, name: string): nat {
    if events == [] then 0
    else
      var n := Occurrences(events[|events| - 1].routeTo, name);
      Surplus(events[..|events| - 1], name) + if n >= 1 then n - 1 else 0
  }

  lemma {:induction false} OffersCountUpToSurplus(events: seq<Message>, name: string)
    ensures |Broadcasts(events)| + |Targeted(events, name)| == |Routed(events, name)| + Surplus(events, name)
  {
    if events != [] {
      OffersCountUpToSurplus(events[..|events| - 1], name);
      OccursWhenListed(events[|events| - 1].routeTo, name);
    }
  }

  lemma MultisetsAdd<T>(a: seq<T>, b: seq<T>)
    ensures multiset(a + b) == multiset(a) + multiset(b)
  {
  }

  lemma SumsOfSums<T>(b: multiset<T>, t: multiset<T>, x: multiset<T>, y: multiset<T>)
    ensures (b + x) + (t + y) == (b + t) + (x + y)
  {
  }

  lemma {:induction false} OffersMatchWithoutSurplus(events: seq<Message>, name: string)
    requires Surplus(events, name) == 0
    ensures multiset(Broadcasts(events)) + multiset(Targeted(events, name)) == multiset(Routed(events, name))
  {
    if events != [] {
      var front, last := events[..|events| - 1], events[|events| - 1];
      OffersMatchWithoutSurplus(front, name);
      var n := Occurrences(last.routeTo, name);
      var x: seq<Message> := if last.routeTo == [] then [last] else [];
      var z: seq<Message> := if ShouldRouteTo(last, name) then [last] else [];
      assert multiset(x) + multiset(Copies(last, n)) == multiset(z) by {
        OccursWhenListed(last.routeTo, name);
        assert Copies(last, 1) == [last] && Copies(last, 0) == [];
      }
      MultisetsAdd(Broadcasts(front), x);
      MultisetsAdd(Targeted(front, name), Copies(last, n));
      MultisetsAdd(Routed(front, name), z);
      SumsOfSums(multiset(Broadcasts(front)), multiset(Targeted(front, name)), multiset(x), multiset(Copies(last, n)));
    }
  }

  lemma {:induction false} NoSurplusWhen(events: seq<Message>, name: string)
    ensures Surplus(events, name) == 0 <==>
      forall i :: 0 <= i < |events| ==> Occurrences(events[i].routeTo, name) <= 1
  {
    if events != [] {
      var front := events[..|events| - 1];
      NoSurplusWhen(front, name);
      assert forall i :: 0 <= i < |front| ==> front[i] == events[i];
    }
  }

  /** An emitter is handed the same multiset of events through the registry as the hub's
      filter would give it, if and only if no event lists its name twice. */
  lemma RegistryMatchesHubExactlyWhen(events: seq<Message>, name: string)
    ensures
      (multiset(Broadcasts(events)) + multiset(Targeted(events, name)) == multiset(Routed(events, name))) <==>
      (forall i :: 0 <= i < |events| ==> Occurrences(events[i].routeTo, name) <= 1)
  {
    OffersCountUpToSurplus(events, name);
    NoSurplusWhen(events, name);
    if Surplus(events, name) == 0 {
      OffersMatchWithoutSurplus(events, name);
    }
    assert |multiset(Broadcasts(events)) + multiset(Targeted(events, name))|
        == |Broadcasts(events)| + |Targeted(events, name)|;
    assert |multiset(Routed(events, name))| == |Routed(events, name)|;
  }

  // ------------------------------------------------------------------------ the methods

  /** The events for `name` after `events` and the first `j` routes of `m`. */
  ghost function Partial(events: seq<Message>, m: Message, j: nat, name: string): seq<Message>
    requires j <= |m.routeTo|
  {
    Targeted(events, name) + Copies(m, Occurrences(m.routeTo[..j], name))
  }

  ghost predicate IndexesPartly(routed: map<string, seq<Message>>, events: seq<Message>, m: Message, j: nat)
    requires j <= |m.routeTo|
  {
    forall name ::
      && (name in routed <==> Partial(events, m, j, name) != [])
      && (name in routed ==> routed[name] == Partial(events, m, j, name))
  }

  /** The index maps exactly the targeted names to their events. */
  ghost predicate Indexes(routed: map<string, seq<Message>>, events: seq<Message>) {
    forall name ::
      && (name in routed <==> Targeted(events, name) != [])
      && (name in routed ==> routed[name] == Targeted(events, name))
  }

  lemma PartialStep(events: seq<Message>, m: Message, j: nat, name: string)
    requires j < |m.routeTo|
    ensures Partial(events, m, j + 1, name) == Partial(events, m, j, name) + if m.routeTo[j] == name then [m] else []
  {
    assert m.routeTo[..j + 1][..j] == m.routeTo[..j];
  }

  method IndexRoutes(events: seq<Message>, m: Message, routed: map<string, seq<Message>>)
    returns (after: map<string, seq<Message>>)
    requires Indexes(routed, events)
    ensures Indexes(after, events + [m])
  {
    after := routed;
    assert forall name :: Partial(events, m, 0, name) == Targeted(events, name);
    for j := 0 to |m.routeTo|
      invariant IndexesPartly(after, events, m, j)
    {
      var route := m.routeTo[j];
      forall name ensures
        Partial(events, m, j + 1, name) == Partial(events, m, j, name) + if route == name then [m] else []
      {
        PartialStep(events, m, j, name);
      }
      after := after[route := (if route in after then after[route] else []) + [m]];
    }
    assert m.routeTo[..|m.routeTo|] == m.routeTo;
    assert (events + [m])[..|events|] == events;
    assert forall name :: Targeted(events + [m], name) == Partial(events, m, |m.routeTo|, name);
  }

  method Index(events: seq<Message>) returns (all: seq<Message>, routed: map<string, seq<Message>>)
    ensures all == Broadcasts(events)
    ensures Indexes(routed, events)
  {
    all, routed := [], map[];
    for i := 0 to |events|
      invariant all == Broadcasts(events[..i])
      invariant Indexes(routed, events[..i])
    {
      var m := events[i];
      assert events[..i + 1][..i] == events[..i] && events[..i + 1] == events[..i] + [m];
      if m.routeTo == [] {
        all := all + [m];
        assert forall name :: Targeted(events[..i + 1], name) == Targeted(events[..i], name);
      } else {
        routed := IndexRoutes(events[..i], m, routed);
      }
    }
    assert events[..|events|] == events;
  }

  /** One call to every emitter, numbered from `call` on: how many return Ok. */
  method EmitToAll(emitters: nat, script: nat -> bool, call: nat) returns (successes: nat)
    ensures Successes(script, call + emitters) == Successes(script, call) + successes
    ensures successes == |set k: nat | call <= k < call + emitters && script(k)|
  {
    successes := 0;
    for i := 0 to emitters
      invariant Successes(script, call + i) == Successes(script, call) + successes
    {
      if script(call + i) {
        successes := successes + 1;
      }
    }
    OkCallsFrom(script, call, emitters);
  }

  lemma OkCallsFrom(script: nat -> bool, call: nat, n: nat)
    ensures
      |set k: nat | call <= k < call + n && script(k)| == Successes(script, call + n) - Successes(script, call)
  {
    var before := set k: nat | k < call && script(k);
    var after := set k: nat | call <= k < call + n && script(k);
    SuccessesAreTheOkCalls(script, call);
    SuccessesAreTheOkCalls(script, call + n);
    assert before == OkCalls(script, call) && before !! after;
    assert OkCalls(script, call + n) == before + after;
  }

  lemma {:induction false} SameBatchForAll(n: nat, batches: seq<seq<Message>>)
    ensures CallCount(seq(n, _ => batches)) == n * |batches|
  {
    var offers := seq(n, _ => batches);
    if n > 0 {
      assert offers[..n - 1] == seq(n - 1, _ => batches);
      SameBatchForAll(n - 1, batches);
    }
  }

  lemma {:induction false} CallCountUpdate(offers: seq<seq<seq<Message>>>, i: nat, batch: seq<Message>)
    requires i < |offers|
    ensures CallCount(offers[i := offers[i] + [batch]]) == CallCount(offers) + 1
  {
    var n := |offers| - 1;
    if i == n {
      assert offers[i := offers[i] + [batch]][..n] == offers[..n];
    } else {
      assert offers[i := offers[i] + [batch]][..n] == offers[..n][i := offers[i] + [batch]];
      CallCountUpdate(offers[..n], i, batch);
    }
  }

  /** The broadcast half: every emitter is called once, unless there is nothing to send. */
  method EmitBroadcasts(emitters: nat, all: seq<Message>, script: nat -> bool)
    returns (successes: nat, offers: seq<seq<seq<Message>>>)
    ensures offers == seq(emitters, _ => if all == [] then [] else [all])
    ensures successes == Successes(script, CallCount(offers))
  {
    successes := 0;
    offers := seq(emitters, _ => if all == [] then [] else [all]);
    SameBatchForAll(emitters, if all == [] then [] else [all]);
    if all != [] {
      successes := EmitToAll(emitters, script, 0);
    }
  }

  /** The targeted half: emitters named in the index are called once more. */
  method EmitTargeted(
      emitters: seq<string>, routed: map<string, seq<Message>>, script: nat -> bool,
      successes: nat, offers: seq<seq<seq<Message>>>)
    returns (successes': nat, offers': seq<seq<seq<Message>>>)
    requires |offers| == |emitters| && successes == Successes(script, CallCount(offers))
    ensures |offers'| == |emitters|
    ensures forall i :: 0 <= i < |emitters| ==>
      offers'[i] == offers[i] + if emitters[i] in routed then [routed[emitters[i]]] else []
    ensures successes' == Successes(script, CallCount(offers'))
  {
    successes', offers' := successes, offers;
    for i := 0 to |emitters|
      invariant |offers'| == |emitters|
      invariant forall j :: 0 <= j < i ==>
        offers'[j] == offers[j] + if emitters[j] in routed then [routed[emitters[j]]] else []
      invariant forall j :: i <= j < |emitters| ==> offers'[j] == offers[j]
      invariant successes' == Successes(script, CallCount(offers'))
    {
      if emitters[i] in routed {
        if script(CallCount(offers')) {
          successes' := successes' + 1;
        }
        CallCountUpdate(offers', i, routed[emitters[i]]);
        offers' := offers'[i := offers'[i] + [routed[emitters[i]]]];
      }
    }
  }

  /** `emit_with_routing`; `script` is what each emit call returns, in call order. Every
      emitter gets the broadcasts and then its targeted events, and the result is the
      number of calls that succeeded. */
  method EmitWithRouting(emitters: seq<string>, events: seq<Message>, script: nat -> bool)
    returns (successes: nat, offers: seq<seq<seq<Message>>>)
    ensures |offers| == |emitters|
    ensures forall i :: 0 <= i < |emitters| ==> offers[i] == BatchesFor(events, emitters[i])
    ensures successes == |OkCalls(script, CallCount(offers))|
  {
    var all, routed := Index(events);
    var count, broadcast := EmitBroadcasts(|emitters|, all, script);
    successes, offers := EmitTargeted(emitters, routed, script, count, broadcast);
    SuccessesAreTheOkCalls(script, CallCount(offers));
    forall i | 0 <= i < |emitters| ensures offers[i] == BatchesFor(events, emitters[i]) {
      assert broadcast[i] == if all == [] then [] else [all];
      assert emitters[i] in routed <==> Targeted(events, emitters[i]) != [];
    }
  }
}
