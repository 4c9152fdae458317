/** The aggregator: it holds messages until a batch is complete and combines the batch into
    one message, merging metadata, routes and payloads. */
module Aggregation {
  import opened Machine
  import opened Messages

  // ---------------------------------------------------------------------- route order

  /** Lexicographic order on names. */
  predicate Leq(a: string, b: string) {
    a == [] || (b != [] && (a[0] < b[0] || (a[0] == b[0] && Leq(a[1..], b[1..]))))
  }

  lemma {:induction false} LeqIsAntisymmetric(a: string, b: string)
    requires Leq(a, b) && Leq(b, a)
    ensures a == b
  {
    if a != [] && b != [] {
      LeqIsAntisymmetric(a[1..], b[1..]);
      assert a == [a[0]] + a[1..] && b == [b[0]] + b[1..];
    }
  }

  lemma {:induction false} LeqIsTransitive(a: string, b: string, c: string)
    requires Leq(a, b) && Leq(b, c)
    ensures Leq(a, c)
  {
    if a != [] && a[0] == b[0] == c[0] {
      LeqIsTransitive(a[1..], b[1..], c[1..]);
    }
  }

  lemma {:induction false} LeqIsTotal(a: string, b: string)
    ensures Leq(a, b) || Leq(b, a)
  {
    if a != [] && b != [] {
      LeqIsTotal(a[1..], b[1..]);
    }
  }

  predicate Less(a: string, b: string) { Leq(a, b) && a != b }

  lemma LessThenLeq(a: string, b: string, c: string)
    requires Less(a, b) && Leq(b, c)
    ensures Less(a, c)
  {
    LeqIsTransitive(a, b, c);
    if a == c {
      LeqIsAntisymmetric(a, b);
    }
  }

  ghost predicate Sorted(s: seq<string>) { forall i, j :: 0 <= i < j < |s| ==> Leq(s[i], s[j]) }

  ghost predicate StrictlySorted(s: seq<string>) { forall i, j :: 0 <= i < j < |s| ==> Less(s[i], s[j]) }

  // ------------------------------------------------------------ sorting and deduplicating

  function Insert(x: string, s: seq<string>): seq<string> {
    if s == [] || Leq(x, s[0]) then [x] + s else [s[0]] + Insert(x, s[1..])
  }

  function Sort(s: seq<string>): seq<string> {
    if s == [] then [] else Insert(s[0], Sort(s[1..]))
  }

  /** Drop elements equal to their predecessor. */
  function DropRepeats(s: seq<string>): seq<string> {
    if |s| <= 1 then s
    else if s[0] == s[1] then DropRepeats(s[1..])
    else [s[0]] + DropRepeats(s[1..])
  }

  lemma {:induction false} InsertAdds(x: string, s: seq<string>)
    ensures multiset(Insert(x, s)) == multiset(s) + multiset{x}
  {
    if s != [] && !Leq(x, s[0]) {
      InsertAdds(x, s[1..]);
      assert s == [s[0]] + s[1..];
    }
  }

  lemma {:induction false} InsertKeeps(x: string, s: seq<string>)
    requires Sorted(s)
    ensures Sorted(Insert(x, s))
  {
    if s == [] || Leq(x, s[0]) {
      forall j | 0 <= j < |s| ensures s != [] && Leq(x, s[j]) {
        assert Leq(s[0], s[j]) by { if j == 0 { LeqIsTotal(s[0], s[0]); } }
        LeqIsTransitive(x, s[0], s[j]);
      }
    } else {
      var tail, rest := s[1..], Insert(x, s[1..]);
      InsertKeeps(x, tail);
      InsertAdds(x, tail);
      LeqIsTotal(x, s[0]);
      forall j | 0 <= j < |rest| ensures Leq(s[0], rest[j]) {
        assert rest[j] in multiset(rest);
        assert rest[j] == x || rest[j] in tail;
      }
    }
  }

  lemma {:induction false} SortSorts(s: seq<string>)
    ensures Sorted(Sort(s)) && multiset(Sort(s)) == multiset(s)
  {
    if s != [] {
      SortSorts(s[1..]);
      InsertKeeps(s[0], Sort(s[1..]));
      InsertAdds(s[0], Sort(s[1..]));
      assert s == [s[0]] + s[1..];
    }
  }

  lemma {:induction false} DropRepeatsKeeps(s: seq<string>)
    requires Sorted(s)
    ensures StrictlySorted(DropRepeats(s))
    ensures forall x :: x in DropRepeats(s) <==> x in s
  {
    if |s| > 1 {
      var tail := s[1..];
      DropRepeatsKeeps(tail);
      assert s == [s[0]] + tail;
      if s[0] != s[1] {
        var rest := DropRepeats(tail);
        forall j | 0 <= j < |rest| ensures Less(s[0], rest[j]) {
          assert rest[j] in tail;
          var k :| 0 <= k < |tail| && tail[k] == rest[j];
          assert Leq(s[1], s[k + 1]) by { if k == 0 { LeqIsTotal(s[1], s[1]); } }
          LessThenLeq(s[0], s[1], s[k + 1]);
        }
      } else {
        assert s[0] == tail[0];
      }
    }
  }

  function AllRoutes(ms: seq<Message>): seq<string> {
    if ms == [] then [] else ms[0].routeTo + AllRoutes(ms[1..])
  }

  function MergedRoutes(ms: seq<Message>): seq<string> { DropRepeats(Sort(AllRoutes(ms))) }

  lemma {:induction false} AllRoutesContains(ms: seq<Message>, r: string)
    ensures r in AllRoutes(ms) <==> exists i :: 0 <= i < |ms| && r in ms[i].routeTo
  {
    if ms != [] {
      AllRoutesContains(ms[1..], r);
      if i :| 0 <= i < |ms[1..]| && r in ms[1..][i].routeTo {
        assert r in ms[i + 1].routeTo;
      }
      assert forall i :: 1 <= i < |ms| ==> ms[i] == ms[1..][i - 1];
    }
  }

  /** The merged routes are the strictly sorted union of the members' routes. */
  lemma RoutesAreTheSortedUnion(ms: seq<Message>)
    ensures StrictlySorted(MergedRoutes(ms))
    ensures forall r :: r in MergedRoutes(ms) <==> exists i :: 0 <= i < |ms| && r in ms[i].routeTo
  {
    var all := AllRoutes(ms);
    SortSorts(all);
    DropRepeatsKeeps(Sort(all));
    forall r ensures r in MergedRoutes(ms) <==> exists i :: 0 <= i < |ms| && r in ms[i].routeTo {
      AllRoutesContains(ms, r);
      assert r in Sort(all) <==> r in multiset(Sort(all));
      assert r in all <==> r in multiset(all);
    }
  }

  lemma {:induction false} SortedIsUnique(a: seq<string>, b: seq<string>)
    requires StrictlySorted(a) && StrictlySorted(b) && forall x :: x in a <==> x in b
    ensures a == b
  {
    assert b != [] ==> b[0] in a;
    if a != [] {
      assert a[0] in b && b != [];
      HeadsAgree(a, b);
      var x, s, t := a[0], a[1..], b[1..];
      assert a == [x] + s && b == [x] + t;
      assert forall j :: 0 <= j < |s| ==> s[j] == a[j + 1] && Less(x, s[j]);
      assert forall j :: 0 <= j < |t| ==> t[j] == b[j + 1] && Less(x, t[j]);
      forall y ensures y in s <==> y in t {
        assert y in a <==> y == x || y in s;
        assert y in b <==> y == x || y in t;
      }
      SortedIsUnique(s, t);
    }
  }

  lemma HeadsAgree(a: seq<string>, b: seq<string>)
    requires StrictlySorted(a) && StrictlySorted(b) && a != [] && b != [] && a[0] in b && b[0] in a
    ensures a[0] == b[0]
  {
    if a[0] != b[0] {
      var i :| 0 <= i < |b| && b[i] == a[0];
      var j :| 0 <= j < |a| && a[j] == b[0];
      LeqIsAntisymmetric(a[0], b[0]);
    }
  }

  /** Being strictly sorted with the members' routes as elements determines the merged routes,
      whatever algorithm sorts and deduplicates. */
  lemma MergedRoutesAreDetermined(ms: seq<Message>, routes: seq<string>)
    requires StrictlySorted(routes)
    requires forall r :: r in routes <==> exists i :: 0 <= i < |ms| && r in ms[i].routeTo
    ensures routes == MergedRoutes(ms)
  {
    RoutesAreTheSortedUnion(ms);
    SortedIsUnique(routes, MergedRoutes(ms));
  }

  ghost predicate AllBroadcast(ms: seq<Message>) { forall i :: 0 <= i < |ms| ==> ms[i].routeTo == [] }

  ghost predicate AllTargeted(ms: seq<Message>) { forall i :: 0 <= i < |ms| ==> ms[i].routeTo != [] }

  ghost predicate SomeRoutesTo(ms: seq<Message>, name: string) {
    exists i :: 0 <= i < |ms| && ShouldRouteTo(ms[i], name)
  }

  /** A name longer than every one in the list, hence not in it. */
  function Unlisted(names: seq<string>): string {
    if names == [] then "x" else names[0] + Unlisted(names[1..])
  }

  lemma {:induction false} UnlistedIsLonger(names: seq<string>, i: nat)
    requires i < |names|
    ensures |names[i]| < |Unlisted(names)|
    ensures |Unlisted(names)| >= 1
  {
    UnlistedIsNotEmpty(names[1..]);
    if i > 0 {
      UnlistedIsLonger(names[1..], i - 1);
    }
  }

  lemma {:induction false} UnlistedIsNotEmpty(names: seq<string>)
    ensures |Unlisted(names)| >= 1
  {
    if names != [] {
      UnlistedIsNotEmpty(names[1..]);
    }
  }

  lemma {:induction false} BroadcastsHaveNoRoutes(ms: seq<Message>)
    requires AllBroadcast(ms)
    ensures AllRoutes(ms) == []
  {
    if ms != [] {
      BroadcastsHaveNoRoutes(ms[1..]);
    }
  }

  /** The same for any message that carries the merged routes. */
  lemma MergedRoutingSurvivesWhen(ms: seq<Message>, aggregate: Message)
    requires ms != [] && aggregate.routeTo == MergedRoutes(ms)
    ensures
      (forall name :: ShouldRouteTo(aggregate, name) <==> SomeRoutesTo(ms, name)) <==>
      (AllTargeted(ms) || AllBroadcast(ms))
  {
    RoutesAreTheSortedUnion(ms);
    var merged := MergedRoutes(ms);
    if AllBroadcast(ms) {
      BroadcastsHaveNoRoutes(ms);
      assert forall name :: ShouldRouteTo(ms[0], name);
    } else if AllTargeted(ms) {
      assert ms[0].routeTo[0] in merged;
      forall name ensures ShouldRouteTo(aggregate, name) <==> SomeRoutesTo(ms, name) {
      }
    } else {
      var name := MixedBatchNarrows(ms, aggregate);
      assert !ShouldRouteTo(aggregate, name) && SomeRoutesTo(ms, name);
    }
  }

  /** In a mixed batch some name is reached by a broadcast member and not by the aggregate. */
  lemma MixedBatchNarrows(ms: seq<Message>, aggregate: Message) returns (name: string)
    requires aggregate.routeTo == MergedRoutes(ms) && !AllTargeted(ms) && !AllBroadcast(ms)
    ensures SomeRoutesTo(ms, name) && !ShouldRouteTo(aggregate, name)
  {
    RoutesAreTheSortedUnion(ms);
    var merged := MergedRoutes(ms);
    var b :| 0 <= b < |ms| && ms[b].routeTo == [];
    var t :| 0 <= t < |ms| && ms[t].routeTo != [];
    assert ms[t].routeTo[0] in merged;
    name := Unlisted(merged);
    forall i | 0 <= i < |merged| ensures merged[i] != name {
      UnlistedIsLonger(merged, i);
    }
    assert ShouldRouteTo(ms[b], name);
  }

  // --------------------------------------------------------------------------- metadata

  const COUNT_KEY := "polku.aggregator.count"

  function Decimal(n: nat): string {
    if n < 10 then [ "0123456789"[n] ] else Decimal(n / 10) + [ "0123456789"[n % 10] ]
  }

  /** The number a string of decimal digits stands for. */
  function ReadDecimal(s: string): int {
    if s == [] then 0 else 10 * ReadDecimal(s[..|s| - 1]) + (s[|s| - 1] as int - '0' as int)
  }

  /** The count is written as its decimal digits, without a leading zero unless it is zero. */
  lemma {:induction false} DecimalReadsBack(n: nat)
    ensures ReadDecimal(Decimal(n)) == n
    ensures forall i :: 0 <= i < |Decimal(n)| ==> '0' <= Decimal(n)[i] <= '9'
    ensures Decimal(n) != [] && (Decimal(n)[0] == '0' ==> n == 0)
  {
    var d := Decimal(n);
    if n >= 10 {
      DecimalReadsBack(n / 10);
    }
    assert n < 10 ==> d[..|d| - 1] == [];
    assert n >= 10 ==> d[..|d| - 1] == Decimal(n / 10);
  }

  function MergedMetadata(ms: seq<Message>): map<string, string> {
    if ms == [] then map[] else MergedMetadata(ms[..|ms| - 1]) + ms[|ms| - 1].metadata
  }

  /** `j` is the last member that carries the key. */
  ghost predicate LastWith(ms: seq<Message>, key: string, j: nat) {
    && j < |ms| && key in ms[j].metadata
    && forall i :: j < i < |ms| ==> key !in ms[i].metadata
  }

  lemma {:induction false} MergedMetadataIsLast(ms: seq<Message>, key: string)
    ensures key in MergedMetadata(ms) <==> exists j: nat :: LastWith(ms, key, j)
    ensures forall j: nat :: LastWith(ms, key, j) ==>
      key in MergedMetadata(ms) && MergedMetadata(ms)[key] == ms[j].metadata[key]
  {
    if ms != [] {
      var n := |ms| - 1;
      var front := ms[..n];
      MergedMetadataIsLast(front, key);
      if key in ms[n].metadata {
        assert LastWith(ms, key, n);
      } else {
        forall j: nat | j < n ensures LastWith(ms, key, j) <==> LastWith(front, key, j) {
          assert front[j] == ms[j];
          assert forall i :: j < i < n ==> front[i] == ms[i];
        }
      }
    }
  }

  // --------------------------------------------------------------------------- payloads

  const NEWLINE: bv8 := 10

  function Concatenated(ps: seq<seq<bv8>>): seq<bv8> {
    if ps == [] then [] else ps[0] + [NEWLINE] + Concatenated(ps[1..])
  }

  /** Split at newlines; a trailing newline ends the last piece. */
  function Split(bytes: seq<bv8>): seq<seq<bv8>>
    decreases |bytes|
  {
    if bytes == [] then []
    else
      var n := LineLength(bytes);
      if n == |bytes| then [bytes] else [bytes[..n]] + Split(bytes[n + 1..])
  }

  /** Bytes before the first newline. */
  function LineLength(bytes: seq<bv8>): (n: nat)
    ensures n <= |bytes|
    ensures NEWLINE !in bytes[..n]
    ensures n < |bytes| ==> bytes[n] == NEWLINE
  {
    if bytes == [] || bytes[0] == NEWLINE then 0
    else
      var n := LineLength(bytes[1..]);
      assert bytes[..n + 1] == [bytes[0]] + bytes[1..][..n];
      n + 1
  }

  lemma {:induction false} PiecesHaveNoNewline(bytes: seq<bv8>)
    ensures forall i :: 0 <= i < |Split(bytes)| ==> NEWLINE !in Split(bytes)[i]
    decreases |bytes|
  {
    if bytes != [] {
      var n := LineLength(bytes);
      if n < |bytes| {
        PiecesHaveNoNewline(bytes[n + 1..]);
      } else {
        assert bytes[..n] == bytes;
      }
    }
  }

  lemma {:induction false} FirstLine(line: seq<bv8>, rest: seq<bv8>)
    requires NEWLINE !in line
    ensures LineLength(line + [NEWLINE] + rest) == |line|
  {
    if line != [] {
      assert (line + [NEWLINE] + rest)[1..] == line[1..] + [NEWLINE] + rest;
      FirstLine(line[1..], rest);
    }
  }

  lemma LineThenRest(line: seq<bv8>, rest: seq<bv8>)
    requires NEWLINE !in line
    ensures Split(line + [NEWLINE] + rest) == [line] + Split(rest)
  {
    var bytes := line + [NEWLINE] + rest;
    FirstLine(line, rest);
    assert bytes[..|line|] == line && bytes[|line| + 1..] == rest;
  }

  /** Concatenated payloads split back into the originals if and only if none of them
      contains a newline. */
  lemma {:induction false} ConcatSplitsBackExactlyWhen(ps: seq<seq<bv8>>)
    ensures Split(Concatenated(ps)) == ps <==> forall i :: 0 <= i < |ps| ==> NEWLINE !in ps[i]
  {
    PiecesHaveNoNewline(Concatenated(ps));
    if ps != [] && forall i :: 0 <= i < |ps| ==> NEWLINE !in ps[i] {
      ConcatSplitsBackExactlyWhen(ps[1..]);
      LineThenRest(ps[0], Concatenated(ps[1..]));
    }
  }

  // ----------------------------------------------------------------------- combination

  datatype Strategy = JsonArray | Concat | Last | First

  /** A payload as JSON: what the parser made of it, or a string. */
  datatype Value = Parsed(json: string) | Text(text: string)

  /** What the source takes from outside: the new id, the time, and the libraries that parse
      JSON, decode text and serialize, each of which may fail. */
  datatype Outside = Outside(
    id: string,
    timestamp: int,
    parse: seq<bv8> -> Option<Value>,
    decode: seq<bv8> -> Option<string>,
    serialize: seq<Value> -> Option<seq<bv8>>)

  function ValueOr<T>(o: Option<T>, default: T): T { if o.Some? then o.value else default }

  function Payloads(ms: seq<Message>): seq<seq<bv8>> {
    seq(|ms|, i requires 0 <= i < |ms| => ms[i].payload)
  }

  /** A payload that is not JSON becomes a string, one that is not text an empty string. */
  function AsValue(payload: seq<bv8>, out: Outside): Value {
    ValueOr(out.parse(payload), Text(ValueOr(out.decode(payload), "")))
  }

  function AsValues(ms: seq<Message>, out: Outside): seq<Value> {
    seq(|ms|, i requires 0 <= i < |ms| => AsValue(ms[i].payload, out))
  }

  function MergedPayload(strategy: Strategy, ms: seq<Message>, out: Outside): seq<bv8>
    requires ms != []
  {
    match strategy
    case JsonArray => ValueOr(out.serialize(AsValues(ms, out)), [])
    case Concat => Concatenated(Payloads(ms))
    case Last => ms[|ms| - 1].payload
    case First => ms[0].payload
  }

  function Combine(strategy: Strategy, ms: seq<Message>, out: Outside): Message
    requires ms != []
  {
    Message(
      out.id,
      out.timestamp,
      if forall i :: 0 <= i < |ms| ==> ms[i].source == ms[0].source then ms[0].source else "aggregated",
      ms[0].messageType + ".aggregate",
      MergedMetadata(ms)[COUNT_KEY := Decimal(|ms|)],
      MergedPayload(strategy, ms, out),
      MergedRoutes(ms))
  }

  /** The aggregate goes exactly where some member would have gone, if and only if the members
      are all targeted or all broadcast; a mixed batch narrows the broadcast members. */
  lemma RoutingSurvivesExactlyWhen(strategy: Strategy, ms: seq<Message>, out: Outside)
    requires ms != []
    ensures
      (forall name :: ShouldRouteTo(Combine(strategy, ms, out), name) <==> SomeRoutesTo(ms, name)) <==>
      (AllTargeted(ms) || AllBroadcast(ms))
  {
    MergedRoutingSurvivesWhen(ms, Combine(strategy, ms, out));
  }

  /** The aggregate's envelope: a new id and time, the common source if there is one, the
      first member's type marked as aggregate, and the strictly sorted union of the routes. */
  lemma CombineEnvelope(strategy: Strategy, ms: seq<Message>, out: Outside)
    requires ms != []
    ensures
      var m := Combine(strategy, ms, out);
      && m.id == out.id && m.timestamp == out.timestamp
      && ((forall i :: 0 <= i < |ms| ==> ms[i].source == ms[0].source) ==> m.source == ms[0].source)
      && ((exists i :: 0 <= i < |ms| && ms[i].source != ms[0].source) ==> m.source == "aggregated")
      && m.messageType == ms[0].messageType + ".aggregate"
      && StrictlySorted(m.routeTo)
      && forall r :: r in m.routeTo <==> exists i :: 0 <= i < |ms| && r in ms[i].routeTo
  {
    RoutesAreTheSortedUnion(ms);
  }

  /** The aggregate's payload by strategy: the last member's, the first member's, a text whose
      lines are the members' payloads if none of them contains a newline, or the serialized
      values, empty if serializing fails. */
  lemma CombinePayload(strategy: Strategy, ms: seq<Message>, out: Outside)
    requires ms != []
    ensures
      var payload := Combine(strategy, ms, out).payload;
      match strategy
      case Last => payload == ms[|ms| - 1].payload
      case First => payload == ms[0].payload
      case Concat =>
        Split(payload) == Payloads(ms) <==> forall i :: 0 <= i < |ms| ==> NEWLINE !in ms[i].payload
      case JsonArray => JsonOf(payload, ms, out)
  {
    match strategy
    case Concat => ConcatPayloadSplits(ms);
    case JsonArray => JsonPayload(ms, out);
    case _ =>
  }

  lemma ConcatPayloadSplits(ms: seq<Message>)
    ensures
      Split(Concatenated(Payloads(ms))) == Payloads(ms) <==> forall i :: 0 <= i < |ms| ==> NEWLINE !in ms[i].payload
  {
    ConcatSplitsBackExactlyWhen(Payloads(ms));
    assert forall i :: 0 <= i < |ms| ==> Payloads(ms)[i] == ms[i].payload;
  }

  lemma JsonPayload(ms: seq<Message>, out: Outside)
    ensures JsonOf(ValueOr(out.serialize(AsValues(ms, out)), []), ms, out)
  {
    assert |AsValues(ms, out)| == |ms|;
  }

  /** The payload is the serialization of one value per member, in order: what parsing makes
      of its payload, or else its text, or else empty text; or it is empty. */
  ghost predicate JsonOf(payload: seq<bv8>, ms: seq<Message>, out: Outside) {
    exists values: seq<Value> ::
      && |values| == |ms|
      && (forall i :: 0 <= i < |ms| ==>
            values[i] ==
              match out.parse(ms[i].payload)
              case Some(v) => v
              case None => Text(if out.decode(ms[i].payload).Some? then out.decode(ms[i].payload).value else ""))
      && payload == match out.serialize(values) case Some(bytes) => bytes case None => []
  }

  /** The aggregate's metadata: its own count under the count key, whatever the members say
      there; under any other key the value of the last member that carries it; no other key. */
  lemma LastMemberWins(strategy: Strategy, ms: seq<Message>, out: Outside, key: string)
    requires ms != []
    ensures
      var metadata := Combine(strategy, ms, out).metadata;
      && (key in metadata <==> key == COUNT_KEY || Carried(ms, key))
      && (key == COUNT_KEY ==> metadata[key] == Decimal(|ms|))
      && forall j: nat :: LastWith(ms, key, j) && key != COUNT_KEY ==>
           key in metadata && metadata[key] == ms[j].metadata[key]
  {
    MergedMetadataIsLast(ms, key);
    CarriedMeansLast(ms, key);
    var metadata := Combine(strategy, ms, out).metadata;
    assert metadata == MergedMetadata(ms)[COUNT_KEY := Decimal(|ms|)];
  }

  ghost predicate Carried(ms: seq<Message>, key: string) { exists i :: 0 <= i < |ms| && key in ms[i].metadata }

  lemma CarriedMeansLast(ms: seq<Message>, key: string)
    ensures Carried(ms, key) <==> exists j: nat :: LastWith(ms, key, j)
  {
    if i :| 0 <= i < |ms| && key in ms[i].metadata {
      var j := LastCarrier(ms, key, i);
    }
  }

  lemma LastCarrier(ms: seq<Message>, key: string, i: nat) returns (j: nat)
    requires i < |ms| && key in ms[i].metadata
    ensures LastWith(ms, key, j)
  {
    j := |ms| - 1;
    while key !in ms[j].metadata
      invariant i <= j < |ms|
      invariant forall k :: j < k < |ms| ==> key !in ms[k].metadata
      decreases j
    {
      j := j - 1;
    }
  }

  // ------------------------------------------------------------------------ whole runs

  datatype Op = Process(m: Message) | Flush

  /** A combined batch and whether it was complete. */
  datatype Batch = Batch(members: seq<Message>, full: bool)

  /** The held messages, and history: the batches combined. */
  datatype State = State(pending: seq<Message>, batches: seq<Batch>)

  const START := State([], [])

  function Step(batchSize: nat, s: State, op: Op): State {
    match op
    case Process(m) =>
      var held := s.pending + [m];
      if |held| >= batchSize then State([], s.batches + [Batch(held, true)]) else State(held, s.batches)
    case Flush =>
      if s.pending == [] then s else State([], s.batches + [Batch(s.pending, false)])
  }

  function Run(batchSize: nat, s: State, ops: seq<Op>): State
    decreases |ops|
  {
    if ops == [] then s else Run(batchSize, Step(batchSize, s, ops[0]), ops[1..])
  }

  function Given(op: Op): seq<Message> { if op.Process? then [op.m] else [] }

  /** The messages given to the aggregator, in order. */
  function Inputs(ops: seq<Op>): seq<Message> { if ops == [] then [] else Given(ops[0]) + Inputs(ops[1..]) }

  function Members(batches: seq<Batch>): seq<Message> {
    if batches == [] then [] else Members(batches[..|batches| - 1]) + batches[|batches| - 1].members
  }

  ghost predicate Accounted(batchSize: nat, s: State, inputs: seq<Message>) {
    && Members(s.batches) + s.pending == inputs
    && |s.pending| < batchSize
    && forall i :: 0 <= i < |s.batches| ==>
         if s.batches[i].full then |s.batches[i].members| == batchSize
         else 1 <= |s.batches[i].members| < batchSize
  }

  lemma StepAccounts(batchSize: nat, s: State, op: Op, inputs: seq<Message>)
    requires Accounted(batchSize, s, inputs)
    ensures Accounted(batchSize, Step(batchSize, s, op), inputs + Given(op))
  {
    var t := Step(batchSize, s, op);
    if t.batches != s.batches {
      assert t.batches[..|t.batches| - 1] == s.batches;
      assert Members(t.batches) == Members(s.batches) + t.batches[|t.batches| - 1].members;
    }
    if op.Process? {
      assert Members(s.batches) + (s.pending + [op.m]) == inputs + [op.m];
    }
  }

  lemma {:induction false} RunAccounts(batchSize: nat, s: State, ops: seq<Op>, inputs: seq<Message>)
    requires Accounted(batchSize, s, inputs)
    ensures Accounted(batchSize, Run(batchSize, s, ops), inputs + Inputs(ops))
    decreases |ops|
  {
    if ops == [] {
      assert inputs + Inputs(ops) == inputs;
    } else {
      StepAccounts(batchSize, s, ops[0], inputs);
      RunAccounts(batchSize, Step(batchSize, s, ops[0]), ops[1..], inputs + Given(ops[0]));
      Regroup(inputs, Given(ops[0]), Inputs(ops[1..]));
    }
  }

  /** In every run the members of the combined batches followed by the held messages are the
      messages given, in order; processing emits only full batches, flushing only shorter
      non-empty ones, and fewer than a batch is ever held. */
  lemma EveryMessageIsBatchedOnce(batchSize: nat, ops: seq<Op>)
    requires batchSize > 0
    ensures
      var s := Run(batchSize, START, ops);
      && Members(s.batches) + s.pending == Inputs(ops)
      && |s.pending| < batchSize
      && forall i :: 0 <= i < |s.batches| ==>
           if s.batches[i].full then |s.batches[i].members| == batchSize
           else 1 <= |s.batches[i].members| < batchSize
  {
    RunAccounts(batchSize, START, ops, []);
  }

  /** What `process` holds afterwards and what it returns. */
  function Offer(
      batchSize: nat, strategy: Strategy, held: seq<Message>, m: Message, out: Outside): (seq<Message>, Option<Message>)
  {
    if |held| + 1 >= batchSize then ([], Some(Combine(strategy, held + [m], out))) else (held + [m], None)
  }

  // ------------------------------------------------------------------------- the class

  class Aggregator {
    const batchSize: nat
    const strategy: Strategy
    var buffer: seq<Message>
    /** Everything the aggregator has done and was given. */
    ghost var history: State
    ghost var inputs: seq<Message>

    ghost predicate Valid()
      reads this
    {
      batchSize > 0 && buffer == history.pending && Accounted(batchSize, history, inputs)
    }

    constructor (batchSize: nat, strategy: Strategy)
      requires batchSize > 0
      ensures Valid() && this.batchSize == batchSize && this.strategy == strategy
      ensures history == START && inputs == []
    {
      this.batchSize := batchSize;
      this.strategy := strategy;
      buffer := [];
      history, inputs := START, [];
    }

    static method MergeMetadata(ms: seq<Message>) returns (metadata: map<string, string>)
      ensures metadata == MergedMetadata(ms)
    {
      metadata := map[];
      for i := 0 to |ms|
        invariant metadata == MergedMetadata(ms[..i])
      {
        assert ms[..i + 1][..i] == ms[..i];
        metadata := metadata + ms[i].metadata;
      }
      assert ms[..|ms|] == ms;
    }

    static method ConcatPayloads(ms: seq<Message>) returns (payload: seq<bv8>)
      ensures payload == Concatenated(Payloads(ms))
    {
      payload := [];
      for i := 0 to |ms|
        invariant payload + Concatenated(Payloads(ms[i..])) == Concatenated(Payloads(ms))
      {
        assert Payloads(ms[i..])[1..] == Payloads(ms[i + 1..]);
        payload := payload + ms[i].payload + [NEWLINE];
      }
    }

    static method CollectValues(ms: seq<Message>, out: Outside) returns (values: seq<Value>)
      ensures values == AsValues(ms, out)
    {
      values := [];
      for i := 0 to |ms|
        invariant |values| == i
        invariant forall j :: 0 <= j < i ==> values[j] == AsValue(ms[j].payload, out)
      {
        var value;
        match out.parse(ms[i].payload) {
          case Some(parsed) => value := parsed;
          case None => value := Text(ValueOr(out.decode(ms[i].payload), ""));
        }
        values := values + [value];
      }
    }

    static method SameSource(ms: seq<Message>) returns (same: bool)
      requires ms != []
      ensures same <==> forall i :: 0 <= i < |ms| ==> ms[i].source == ms[0].source
    {
      same := true;
      for i := 0 to |ms|
        invariant same <==> forall j :: 0 <= j < i ==> ms[j].source == ms[0].source
      {
        same := same && ms[i].source == ms[0].source;
      }
    }

    method CombineAll(ms: seq<Message>, out: Outside) returns (m: Message)
      requires ms != []
      ensures m == Combine(strategy, ms, out)
    {
      var payload;
      match strategy {
        case JsonArray =>
          var values := CollectValues(ms, out);
          payload := ValueOr(out.serialize(values), []);
        case Concat => payload := ConcatPayloads(ms);
        case Last => payload := ms[|ms| - 1].payload;
        case First => payload := ms[0].payload;
      }
      var metadata := MergeMetadata(ms);
      var sameSource := SameSource(ms);
      m := Message(
        out.id, out.timestamp, if sameSource then ms[0].source else "aggregated",
        ms[0].messageType + ".aggregate", metadata[COUNT_KEY := Decimal(|ms|)], payload, MergedRoutes(ms));
    }

    method DoProcess(m: Message, out: Outside) returns (r: Option<Message>)
      requires Valid()
      modifies this
      ensures Valid() && history == Step(batchSize, old(history), Process(m)) && inputs == old(inputs) + [m]
      ensures (buffer, r) == Offer(batchSize, strategy, old(buffer), m, out)
    {
      StepAccounts(batchSize, history, Process(m), inputs);
      history, inputs := Step(batchSize, history, Process(m)), inputs + [m];
      buffer := buffer + [m];
      if |buffer| >= batchSize {
        var taken := buffer;
        buffer := [];
        var combined := CombineAll(taken, out);
        r := Some(combined);
      } else {
        r := None;
      }
    }

    method DoFlush(out: Outside) returns (r: Option<Message>)
      requires Valid()
      modifies this
      ensures Valid() && history == Step(batchSize, old(history), Flush) && inputs == old(inputs)
      ensures r == if old(buffer) == [] then None else Some(Combine(strategy, old(buffer), out))
    {
      StepAccounts(batchSize, history, Flush, inputs);
      assert inputs + Given(Flush) == inputs;
      history := Step(batchSize, history, Flush);
      if buffer == [] {
        return None;
      }
      var taken := buffer;
      buffer := [];
      var combined := CombineAll(taken, out);
      r := Some(combined);
    }
  }
}
