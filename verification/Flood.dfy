/** A flood dies out: every delivery can cause one transmission at most, one hop further, and seven hops are all. */
module Flood {
  import opened Bytes
  import opened Packet
  import opened AesCrypto
  import opened EncryptionService
  import opened MicService
  import opened InclusionController
  import opened PacketRouter
  import opened FailClosed
  import opened Device
  import opened Mesh
  import Tracker = PacketTracker

  // ----- one station -----

  lemma SendingAdvances(P: Primitives, s: Sender, route: Option<Id>, p: Packet)
    ensures var out := Transmission(P, s, route, p);
      out.OnAir? ==> p.hopCount < MAX_HOPS && out.packet.hopCount == p.hopCount + 1 && out.packet.topic == p.topic
  {
    hide Forwarded, Sealed, Summed, Authenticated;
    ForwardedKeeps(p, s.id, route);
    var f := Forwarded(p, s.id, route);
    SealingKeepsHop(P, s, f);
    AuthenticatingKeepsHop(P, s, Sealed(P, s.ring, s.loadedKey, s.deviceType, s.state, f));
  }

  lemma SealingKeepsHop(P: Primitives, s: Sender, p: Packet)
    ensures var q := Sealed(P, s.ring, s.loadedKey, s.deviceType, s.state, p);
      q.hopCount == p.hopCount && q.topic == p.topic
  {
    hide Crypted, SealKey;
  }

  lemma AuthenticatingKeepsHop(P: Primitives, s: Sender, p: Packet)
    ensures var out := Authenticated(P, s.ring, s.deviceType, s.state, Summed(p));
      out.OnAir? ==> out.packet.hopCount == p.hopCount && out.packet.topic == p.topic
  {
    hide PacketMic, HeaderBytes;
  }

  /** What a station puts on air for one packet it hears that is no inclusion message: nothing, or this. */
  function Answer(P: Primitives, st: Station, p: Packet, env: Env, air: Air): Option<seq<byte>> {
    var before, after := st.link.air, Received(P, st, p, env, air).0.link.air;
    if |after| > |before| then Some(after[|before|]) else None
  }

  lemma AnswersOnce(P: Primitives, st: Station, p: Packet, env: Env, air: Air)
    requires !IsInclusionMessage(p.topic)
    ensures var before, after := st.link.air, Received(P, st, p, env, air).0.link.air;
      after == if Answer(P, st, p, env, air).None? then before else before + [Answer(P, st, p, env, air).value]
    ensures var b := Answer(P, st, p, env, air);
      b.Some? ==> |b.value| >= HEADER_LENGTH && OneHopFurther(p, Parse(b.value))
  {
    var checked := st.(link := st.link.(recency := Tracker.FindIn(st.link.recency, Key(p))));
    GenuineKeepsHeader(P, Who(st), st.link.recency, p);
    var v := Judged(P, Who(st), st.link.recency, p);
    hide Judged, Tracker.FindIn, Processed;
    if v.Genuine? {
      ProcessingAnswersOnce(P, checked, v.packet, env, air);
    }
  }

  /** The same topic, one more hop, and no more than seven. */
  predicate OneHopFurther(p: Packet, q: Packet) {
    q.topic == p.topic && Value(q.hopCount) == Value(p.hopCount) + 1 <= 7
  }

  lemma ProcessingAnswersOnce(P: Primitives, st: Station, p: Packet, env: Env, air: Air)
    requires !IsInclusionMessage(p.topic)
    ensures var before, after := st.link.air, Processed(P, st, p, env, air).0.link.air;
      after == before || exists b ::
        after == before + [b] && |b| >= HEADER_LENGTH && OneHopFurther(p, Parse(b))
  {
    hide Plain, IsInclusionMessage, IsApplicationMessage, RoutedAt, Parse, OneHopFurther;
    PlainKeepsHeader(P, Who(st), p);
    var q := Plain(P, Who(st), p);
    assert q.topic == p.topic && q.hopCount == p.hopCount;
    RoutingAnswersOnce(P, Told(st, q), q, air);
    if RoutedAt(P, Told(st, q), q, air).0.link.air != st.link.air {
      var b :| RoutedAt(P, Told(st, q), q, air).0.link.air == st.link.air + [b] && |b| >= HEADER_LENGTH
        && OneHopFurther(q, Parse(b));
      SameHop(p, q, Parse(b));
    }
  }

  lemma RoutingAnswersOnce(P: Primitives, st: Station, q: Packet, air: Air)
    ensures var before, after := st.link.air, RoutedAt(P, st, q, air).0.link.air;
      after == before || exists b ::
        after == before + [b] && |b| >= HEADER_LENGTH && OneHopFurther(q, Parse(b))
  {
    hide Transmission, Parse, ToBytes, Tracker.AddTo, Value, OneHopFurther;
    var out := Transmission(P, Who(st), air.route, q);
    if out.OnAir? {
      SendingAdvances(P, Who(st), air.route, q);
      Further(q, out.packet);
    }
  }

  lemma SameHop(p: Packet, q: Packet, r: Packet)
    requires q.topic == p.topic && q.hopCount == p.hopCount && OneHopFurther(q, r)
    ensures OneHopFurther(p, r)
  {
  }

  lemma Further(q: Packet, r: Packet)
    requires q.hopCount < MAX_HOPS && r.hopCount == q.hopCount + 1 && r.topic == q.topic
    ensures OneHopFurther(q, r) && |ToBytes(r)| >= HEADER_LENGTH && Parse(ToBytes(r)) == r
  {
    HopCounts(q.hopCount);
    ParseOfToBytes(r);
  }

  // ----- the network -----

  /** A buffer on its way to a station. */
  datatype Delivery = Delivery(to: nat, buffer: seq<byte>)

  /** How many stations there are, what is in flight, and how often anyone has transmitted. */
  datatype Network = Network(size: nat, flight: seq<Delivery>, transmissions: nat)

  /**
   The `k`th delivery arrives at a station, in whatever state that station then is, its tracker
   included; what it answers is heard by `hearers`, each once at most.
   */
  datatype Arrival = Arrival(k: nat, station: Station, env: Env, air: Air, hearers: seq<nat>)

  predicate Distinct(s: seq<nat>) {
    forall i, j :: 0 <= i < j < |s| ==> s[i] != s[j]
  }

  predicate Possible(net: Network, a: Arrival) {
    && a.k < |net.flight| && Distinct(a.hearers)
    && forall i :: 0 <= i < |a.hearers| ==> a.hearers[i] < net.size
  }

  function Deliveries(hearers: seq<nat>, buffer: seq<byte>): (ds: seq<Delivery>)
    ensures |ds| == |hearers| && forall i :: 0 <= i < |ds| ==> ds[i] == Delivery(hearers[i], buffer)
  {
    seq(|hearers|, i requires 0 <= i < |hearers| => Delivery(hearers[i], buffer))
  }

  /** A packet of the flood: no inclusion message, after one to seven hops. */
  predicate InFlight(d: Delivery) {
    |d.buffer| >= HEADER_LENGTH && !IsInclusionMessage(Parse(d.buffer).topic)
      && 1 <= Value(Parse(d.buffer).hopCount) <= 7
  }

  predicate Flooding(flight: seq<Delivery>) {
    forall i :: 0 <= i < |flight| ==> InFlight(flight[i])
  }

  function Rest(flight: seq<Delivery>, k: nat): seq<Delivery>
    requires k < |flight|
  {
    flight[..k] + flight[k + 1..]
  }

  function Arrived(P: Primitives, net: Network, a: Arrival): Network
    requires Possible(net, a) && Flooding(net.flight)
  {
    assert InFlight(net.flight[a.k]);
    var rest := Rest(net.flight, a.k);
    var answer := Answer(P, a.station, Parse(net.flight[a.k].buffer), a.env, a.air);
    if answer.None? then net.(flight := rest)
    else net.(flight := rest + Deliveries(a.hearers, answer.value), transmissions := net.transmissions + 1)
  }

  // ----- the measure -----

  function Pow(base: nat, exponent: nat): (r: nat)
    ensures base > 0 ==> r > 0
  {
    if exponent == 0 then 1 else base * Pow(base, exponent - 1)
  }

  /** What a delivery can still cause: itself, and what its answer would cause at every station. */
  function Cost(n: nat, buffer: seq<byte>): nat
    requires |buffer| >= HEADER_LENGTH
  {
    var hops := Value(Parse(buffer).hopCount);
    if hops <= 7 then Pow(n + 1, 7 - hops) else 0
  }

  function Weight(n: nat, flight: seq<Delivery>): nat
    requires forall i :: 0 <= i < |flight| ==> |flight[i].buffer| >= HEADER_LENGTH
  {
    if flight == [] then 0 else Cost(n, flight[0].buffer) + Weight(n, flight[1..])
  }

  lemma {:induction false} WeightOfConcat(n: nat, a: seq<Delivery>, b: seq<Delivery>)
    requires forall i :: 0 <= i < |a| ==> |a[i].buffer| >= HEADER_LENGTH
    requires forall i :: 0 <= i < |b| ==> |b[i].buffer| >= HEADER_LENGTH
    ensures Weight(n, a + b) == Weight(n, a) + Weight(n, b)
  {
    hide Cost;
    if a == [] {
      assert a + b == b;
    } else {
      WeightOfConcat(n, a[1..], b);
      assert (a + b)[1..] == a[1..] + b && (a + b)[0] == a[0];
    }
  }

  lemma {:induction false} WeightOfSame(n: nat, flight: seq<Delivery>, buffer: seq<byte>)
    requires |buffer| >= HEADER_LENGTH && forall i :: 0 <= i < |flight| ==> flight[i].buffer == buffer
    ensures Weight(n, flight) == |flight| * Cost(n, buffer)
  {
    hide Cost;
    if flight != [] {
      WeightOfSame(n, flight[1..], buffer);
      Once(|flight|, Cost(n, buffer));
    }
  }

  lemma Once(k: nat, cost: nat)
    requires k > 0
    ensures k * cost == cost + (k - 1) * cost
  {
  }

  function Below(n: nat): (s: set<nat>)
    ensures |s| == n && forall x: nat :: x in s <==> x < n
  {
    if n == 0 then {} else Below(n - 1) + {n - 1}
  }

  lemma {:induction false} DistinctFit(s: seq<nat>, bound: set<nat>)
    requires Distinct(s) && forall i :: 0 <= i < |s| ==> s[i] in bound
    ensures |s| <= |bound|
  {
    if s != [] {
      DistinctFit(s[1..], bound - {s[0]});
    }
  }

  lemma HopCost(n: nat, b: seq<byte>, c: seq<byte>)
    requires |b| >= HEADER_LENGTH && |c| >= HEADER_LENGTH && OneHopFurther(Parse(b), Parse(c))
    ensures Cost(n, b) == (n + 1) * Cost(n, c) && Cost(n, c) > 0
  {
    hide Parse, Value;
  }

  lemma Fewer(k: nat, n: nat, cost: nat)
    requires k <= n && cost > 0
    ensures k * cost <= n * cost < (n + 1) * cost
  {
  }

  /** Everybody's copy of one buffer. */
  lemma DeliveriesWeigh(n: nat, hearers: seq<nat>, buffer: seq<byte>)
    requires |buffer| >= HEADER_LENGTH && InFlight(Delivery(0, buffer))
    requires Distinct(hearers) && forall i :: 0 <= i < |hearers| ==> hearers[i] < n
    ensures Flooding(Deliveries(hearers, buffer)) && |hearers| <= n
    ensures Weight(n, Deliveries(hearers, buffer)) == |hearers| * Cost(n, buffer)
  {
    DistinctFit(hearers, Below(n));
    forall i | 0 <= i < |hearers| ensures InFlight(Deliveries(hearers, buffer)[i]) {
      SameBuffer(Delivery(0, buffer), Deliveries(hearers, buffer)[i]);
    }
    hide InFlight, Cost, Deliveries;
    WeightOfSame(n, Deliveries(hearers, buffer), buffer);
  }

  lemma SameBuffer(d: Delivery, e: Delivery)
    requires InFlight(d) && d.buffer == e.buffer
    ensures InFlight(e)
  {
  }

  lemma NextInFlight(d: Delivery, buffer: seq<byte>)
    requires InFlight(d) && |buffer| >= HEADER_LENGTH && OneHopFurther(Parse(d.buffer), Parse(buffer))
    ensures InFlight(Delivery(0, buffer)) && |d.buffer| >= HEADER_LENGTH
  {
    hide Parse, Value, IsInclusionMessage;
  }

  /** The answer's deliveries, at every station at most, weigh less than the delivery that caused them. */
  lemma AnswerIsLighter(n: nat, d: Delivery, hearers: seq<nat>, buffer: seq<byte>)
    requires InFlight(d) && |buffer| >= HEADER_LENGTH && OneHopFurther(Parse(d.buffer), Parse(buffer))
    requires Distinct(hearers) && forall i :: 0 <= i < |hearers| ==> hearers[i] < n
    ensures Flooding(Deliveries(hearers, buffer)) && Weight(n, Deliveries(hearers, buffer)) < Cost(n, d.buffer)
  {
    hide InFlight, Cost, Deliveries, Parse, Flooding, Weight;
    NextInFlight(d, buffer);
    DeliveriesWeigh(n, hearers, buffer);
    HopCost(n, d.buffer, buffer);
    Fewer(|hearers|, n, Cost(n, buffer));
  }

  /** Every arrival takes its weight out of flight and puts back less. */
  lemma ArrivalIsLighter(P: Primitives, net: Network, a: Arrival)
    requires Possible(net, a) && Flooding(net.flight)
    ensures var next := Arrived(P, net, a);
      && Flooding(next.flight) && Weight(net.size, next.flight) < Weight(net.size, net.flight)
      && net.transmissions <= next.transmissions <= net.transmissions + 1 && next.size == net.size
  {
    hide InFlight, Parse, Weight, Cost, Deliveries, Answer, Flooding, OneHopFurther, IsInclusionMessage, Rest;
    var d, n := net.flight[a.k], net.size;
    var rest := Rest(net.flight, a.k);
    WeightWithout(n, net.flight, a.k);
    AnswersOnce(P, a.station, Parse(d.buffer), a.env, a.air);
    var answer := Answer(P, a.station, Parse(d.buffer), a.env, a.air);
    if answer.Some? {
      AnswerIsLighter(n, d, a.hearers, answer.value);
      FloodingTogether(n, rest, Deliveries(a.hearers, answer.value));
    }
  }

  lemma WeightWithout(n: nat, flight: seq<Delivery>, k: nat)
    requires Flooding(flight) && k < |flight|
    ensures var rest := Rest(flight, k);
      && Flooding(rest) && InFlight(flight[k]) && |flight[k].buffer| >= HEADER_LENGTH
      && !IsInclusionMessage(Parse(flight[k].buffer).topic)
      && Weight(n, flight) == Cost(n, flight[k].buffer) + Weight(n, rest) && Cost(n, flight[k].buffer) > 0
  {
    hide InFlight, Parse, Weight, Cost;
    var before, d, behind := flight[..k], flight[k], flight[k + 1..];
    assert flight == before + ([d] + behind);
    assert Flooding(before + behind);
    FloodingHasHeaders(flight);
    WeightOfConcat(n, before, [d] + behind);
    WeightOfConcat(n, [d], behind);
    WeightOfConcat(n, before, behind);
    WeightOfOne(n, d);
    ParsedTopic(d);
  }

  lemma FloodingTogether(n: nat, a: seq<Delivery>, b: seq<Delivery>)
    requires Flooding(a) && Flooding(b)
    ensures Flooding(a + b) && Weight(n, a + b) == Weight(n, a) + Weight(n, b)
  {
    hide InFlight, Weight;
    FloodingHasHeaders(a);
    FloodingHasHeaders(b);
    WeightOfConcat(n, a, b);
  }

  lemma FloodingHasHeaders(flight: seq<Delivery>)
    requires Flooding(flight)
    ensures forall i :: 0 <= i < |flight| ==> |flight[i].buffer| >= HEADER_LENGTH
  {
    forall i | 0 <= i < |flight| ensures |flight[i].buffer| >= HEADER_LENGTH {
      assert InFlight(flight[i]);
    }
  }

  lemma WeightOfOne(n: nat, d: Delivery)
    requires InFlight(d)
    ensures Weight(n, [d]) == Cost(n, d.buffer) && Cost(n, d.buffer) > 0
  {
    hide Parse, Value;
  }

  lemma ParsedTopic(d: Delivery)
    requires InFlight(d)
    ensures |d.buffer| >= HEADER_LENGTH && !IsInclusionMessage(Parse(d.buffer).topic)
  {
  }

  // ----- runs -----

  predicate Runs(P: Primitives, net: Network, arrivals: seq<Arrival>)
    requires Flooding(net.flight)
    decreases |arrivals|
  {
    arrivals == [] ||
    (Possible(net, arrivals[0])
     && (ArrivalIsLighter(P, net, arrivals[0]); Runs(P, Arrived(P, net, arrivals[0]), arrivals[1..])))
  }

  function After(P: Primitives, net: Network, arrivals: seq<Arrival>): Network
    requires Flooding(net.flight) && Runs(P, net, arrivals)
    decreases |arrivals|
  {
    if arrivals == [] then net
    else
      ArrivalIsLighter(P, net, arrivals[0]);
      After(P, Arrived(P, net, arrivals[0]), arrivals[1..])
  }

  /**
   However the stations' trackers forget and the air loses and reorders, a flood has no more
   arrivals, and no more transmissions, than the weight it started with; and every packet of it
   ever in flight has made between one and seven hops.
   */
  lemma {:induction false} FloodDiesOut(P: Primitives, net: Network, arrivals: seq<Arrival>)
    requires Flooding(net.flight) && Runs(P, net, arrivals)
    ensures var last := After(P, net, arrivals);
      && Flooding(last.flight)
      && |arrivals| + Weight(net.size, last.flight) <= Weight(net.size, net.flight)
      && net.transmissions <= last.transmissions <= net.transmissions + |arrivals|
      && last.size == net.size
    decreases |arrivals|
  {
    hide Flooding, Weight, Possible, Arrived;
    if arrivals != [] {
      ArrivalIsLighter(P, net, arrivals[0]);
      FloodDiesOut(P, Arrived(P, net, arrivals[0]), arrivals[1..]);
    }
  }

  /** What one `sendData` of any other topic puts in flight. */
  function Launched(P: Primitives, st: Station, topic: byte, data: seq<byte>, target: Id, air: Air,
      hearers: seq<nat>): seq<Delivery> {
    var before, after := st.link.air, Sent(P, st, topic, data, target, air).0.link.air;
    if |after| > |before| then Deliveries(hearers, after[|before|]) else []
  }

  lemma SendingAnswersOnce(P: Primitives, st: Station, topic: byte, data: seq<byte>, target: Id, air: Air)
    ensures var before, after := st.link.air, Sent(P, st, topic, data, target, air).0.link.air;
      after == before || exists b ::
        && after == before + [b] && |b| >= HEADER_LENGTH && Parse(b).topic == topic && Value(Parse(b).hopCount) == 1
  {
    hide RoutedAt, Parse, Value, CanSend, OneHopFurther, Originated;
    var p := Originated(st.id, st.node.deviceType, target, air.packetId, topic, st.counter + 1, data);
    var counted := st.(counter := st.counter + 1, outgoing := p);
    FreshHasNoHops(st, target, air.packetId, topic, data);
    RoutingAnswersOnce(P, counted, p, air);
    if RoutedAt(P, counted, p, air).0.link.air != st.link.air {
      var b :| RoutedAt(P, counted, p, air).0.link.air == st.link.air + [b] && |b| >= HEADER_LENGTH
        && OneHopFurther(p, Parse(b));
      OneHopIsOne(p, Parse(b));
    }
  }

  lemma FreshHasNoHops(st: Station, target: Id, packetId: Id, topic: byte, data: seq<byte>)
    ensures var p := Originated(st.id, st.node.deviceType, target, packetId, topic, st.counter + 1, data);
      Value(p.hopCount) == 0 && p.topic == topic
  {
  }

  lemma OneHopIsOne(p: Packet, q: Packet)
    requires OneHopFurther(p, q) && Value(p.hopCount) == 0
    ensures q.topic == p.topic && Value(q.hopCount) == 1
  {
    hide Value;
  }

  /** One `sendData` in a network of N stations causes at most N * (N+1)^6 arrivals, ever. */
  lemma OneSendIsBounded(P: Primitives, st: Station, topic: byte, data: seq<byte>, target: Id, air: Air,
      hearers: seq<nat>,
                         size: nat, arrivals: seq<Arrival>)
    requires !IsInclusionMessage(topic) && Distinct(hearers) && forall i :: 0 <= i < |hearers| ==> hearers[i] < size
    requires Flooding(Launched(P, st, topic, data, target, air, hearers)) ==>
      Runs(P, Network(size, Launched(P, st, topic, data, target, air, hearers), 1), arrivals)
    ensures Flooding(Launched(P, st, topic, data, target, air, hearers))
    ensures |arrivals| <= size * Pow(size + 1, 6)
    ensures After(P, Network(size, Launched(P, st, topic, data, target, air, hearers), 1), arrivals).transmissions
            <= 1 + size * Pow(size + 1, 6)
  {
    var flight := Launched(P, st, topic, data, target, air, hearers);
    LaunchIsBounded(P, st, topic, data, target, air, hearers, size);
    hide Launched, Flooding, Runs, After, Weight, Pow;
    FloodDiesOut(P, Network(size, flight, 1), arrivals);
  }

  lemma LaunchIsBounded(P: Primitives, st: Station, topic: byte, data: seq<byte>, target: Id, air: Air,
      hearers: seq<nat>, size: nat)
    requires !IsInclusionMessage(topic) && Distinct(hearers) && forall i :: 0 <= i < |hearers| ==> hearers[i] < size
    ensures var flight := Launched(P, st, topic, data, target, air, hearers);
      Flooding(flight) && Weight(size, flight) <= size * Pow(size + 1, 6)
  {
    hide Sent, Parse, Value, Pow, Deliveries, Cost, Flooding, Weight;
    SendingAnswersOnce(P, st, topic, data, target, air);
    var before, after := st.link.air, Sent(P, st, topic, data, target, air).0.link.air;
    if after == before {
      NothingWeighs(size);
    } else {
      var b :| after == before + [b] && |b| >= HEADER_LENGTH && Parse(b).topic == topic
        && Value(Parse(b).hopCount) == 1;
      FirstCost(size, b);
      DeliveriesWeigh(size, hearers, b);
      Fewer(|hearers|, size, Cost(size, b));
    }
  }

  lemma NothingWeighs(n: nat)
    ensures Flooding([]) && Weight(n, []) == 0 && n * Pow(n + 1, 6) >= 0
  {
  }

  lemma FirstCost(n: nat, b: seq<byte>)
    requires |b| >= HEADER_LENGTH && Value(Parse(b).hopCount) == 1
    ensures Cost(n, b) == Pow(n + 1, 6) && Cost(n, b) > 0
  {
    hide Parse, Value, Pow;
  }
}
