/** The message envelope and the routing predicate. */
module Messages {

  datatype Message = Message(
    id: string,
    timestamp: int,
    source: string,
    messageType: string,
    metadata: map<string, string>,
    payload: seq<bv8>,
    routeTo: seq<string>)

  /** An empty `routeTo` is a broadcast. */
  predicate ShouldRouteTo(m: Message, name: string) { m.routeTo == [] || name in m.routeTo }

  /** The messages routed to `name`, in order. */
  function Routed(ms: seq<Message>, name: string): seq<Message> {
    if ms == [] then []
    else
      var last := ms[|ms| - 1];
      Routed(ms[..|ms| - 1], name) + if ShouldRouteTo(last, name) then [last] else []
  }

  lemma {:induction false} RoutedAppend(a: seq<Message>, b: seq<Message>, name: string)
    ensures Routed(a + b, name) == Routed(a, name) + Routed(b, name)
    decreases |b|
  {
    if b == [] {
      assert a + b == a;
    } else {
      assert (a + b)[..|a + b| - 1] == a + b[..|b| - 1];
      RoutedAppend(a, b[..|b| - 1], name);
    }
  }

  lemma RoutedSnoc(a: seq<Message>, m: Message, name: string)
    ensures Routed(a + [m], name) == Routed(a, name) + if ShouldRouteTo(m, name) then [m] else []
  {
    assert (a + [m])[..|a|] == a;
  }
}
