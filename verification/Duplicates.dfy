/** A station never puts a packet on air twice while its tracker holds it. */
module Duplicates {
  import opened Bytes
  import opened Errors
  import opened Definitions
  import opened Packet
  import opened AesCrypto
  import opened EncryptionService
  import opened MicService
  import opened InclusionController
  import opened PacketRouter
  import opened FailClosed
  import opened Device
  import opened Mesh
  import Sealing
  import Tracker = PacketTracker

  // ----- what happens to a station -----

  /**
   It hears a packet, or its application sends one, or something happens that leaves its router alone: a
   timeout, a change of inclusion mode, a factory reset, the relay switched on or off.
   */
  datatype Event =
    | Hears(packet: Packet, env: Env, air: Air)
    | Sends(topic: byte, data: seq<byte>, target: Id, air: Air)
    | Changes(node: Node, relayEnabled: bool, counter: u32)

  function Happened(P: Primitives, st: Station, e: Event): Station {
    match e
    case Hears(packet, env, air) => Received(P, st, packet, env, air).0
    case Sends(topic, data, target, air) => Sent(P, st, topic, data, target, air).0
    case Changes(node, relayEnabled, counter) => st.(node := node, relayEnabled := relayEnabled, counter := counter)
  }

  /** The id drawn for a packet of the station's own is this one. */
  predicate Draws(e: Event, id: u32) {
    !e.Changes? && FromBigEndian(e.air.packetId) == id
  }

  function AllHappened(P: Primitives, st: Station, es: seq<Event>): Station
    decreases |es|
  {
    if es == [] then st else AllHappened(P, Happened(P, st, es[0]), es[1..])
  }

  /** No buffer put on air since `before` carries this packet id. */
  ghost predicate Silent(before: Station, after: Station, id: u32) {
    && before.link.air <= after.link.air
    && forall i :: |before.link.air| <= i < |after.link.air| ==> Silence(after.link.air[i], id)
  }

  predicate Silence(buffer: seq<byte>, id: u32) {
    |buffer| >= HEADER_LENGTH && Key(Parse(buffer)) != id
  }

  lemma SilenceAddsUp(a: Station, b: Station, c: Station, id: u32)
    requires Silent(a, b, id) && Silent(b, c, id)
    ensures Silent(a, c, id)
  {
    hide Silence;
    forall i | |a.link.air| <= i < |c.link.air| ensures Silence(c.link.air[i], id) {
      if i < |b.link.air| {
        assert b.link.air[i] == c.link.air[i];
      }
    }
  }

  // ----- what one event does to air and tracker -----

  /** A packet put on air, and how it is tracked. */
  datatype Put = Put(id: u32, crc: u32, buffer: seq<byte>)

  function LinkAfter(air: seq<seq<byte>>, recency: seq<Tracker.Entry<u32, u32>>, put: Option<Put>): Link {
    match put
    case None => Link(air, recency)
    case Some(p) => Link(air + [p.buffer], Tracker.AddTo(TRACKER_CAPACITY, recency, p.id, p.crc))
  }

  /** A lookup comes with hearing. */
  function LookedIn(recency: seq<Tracker.Entry<u32, u32>>, e: Event): seq<Tracker.Entry<u32, u32>> {
    if e.Hears? then Tracker.FindIn(recency, Key(e.packet)) else recency
  }

  predicate Carried(put: Put) {
    |put.buffer| >= HEADER_LENGTH && Key(Parse(put.buffer)) == put.id && Parse(put.buffer).packetCrc == put.crc
  }

  /** What goes out for a packet keeps its id. */
  lemma TransmissionKeepsId(P: Primitives, s: Sender, route: Option<Id>, p: Packet)
    ensures var out := Transmission(P, s, route, p); out.OnAir? ==> out.packet.packetId == p.packetId
  {
    hide Forwarded, Sealed, Summed, Authenticated;
    ForwardedKeeps(p, s.id, route);
    var f := Forwarded(p, s.id, route);
    var q := Sealed(P, s.ring, s.loadedKey, s.deviceType, s.state, f);
    assert q.packetId == f.packetId by { SealedKeepsId(P, s, f); }
    assert Summed(q).packetId == q.packetId by { SummedKeepsId(q); }
    AuthenticatedKeepsId(P, s, Summed(q));
  }

  lemma SealedKeepsId(P: Primitives, s: Sender, p: Packet)
    ensures Sealed(P, s.ring, s.loadedKey, s.deviceType, s.state, p).packetId == p.packetId
  {
    hide Crypted, SealKey;
  }

  lemma SummedKeepsId(p: Packet)
    ensures Summed(p).packetId == p.packetId
  {
  }

  lemma AuthenticatedKeepsId(P: Primitives, s: Sender, p: Packet)
    ensures var out := Authenticated(P, s.ring, s.deviceType, s.state, p);
      out.OnAir? ==> out.packet.packetId == p.packetId
  {
    hide PacketMic, HeaderBytes;
  }

  lemma ToBytesIsLongEnough(p: Packet)
    ensures |ToBytes(p)| >= HEADER_LENGTH
  {
  }

  lemma RoutingEffect(P: Primitives, st: Station, p: Packet, air: Air) returns (put: Option<Put>)
    ensures RoutedAt(P, st, p, air).0.link == LinkAfter(st.link.air, st.link.recency, put)
    ensures put.Some? ==> put.value.id == Key(p) && Carried(put.value)
  {
    var out := Transmission(P, Who(st), air.route, p);
    TransmissionKeepsId(P, Who(st), air.route, p);
    hide Transmission, Tracker.AddTo, ToBytes, Parse, FromBigEndian;
    put := None;
    if out.OnAir? && air.radioRc == RM_E_NONE {
      ParseOfToBytes(out.packet);
      ToBytesIsLongEnough(out.packet);
      put := Some(Put(Key(p), out.packet.packetCrc, ToBytes(out.packet)));
    }
  }

  lemma SendingEffect(P: Primitives, st: Station, topic: byte, data: seq<byte>, target: Id, air: Air)
    returns (put: Option<Put>)
    ensures Sent(P, st, topic, data, target, air).0.link == LinkAfter(st.link.air, st.link.recency, put)
    ensures put.Some? ==> put.value.id == FromBigEndian(air.packetId) && Carried(put.value)
  {
    hide RoutedAt, CanSend, Carried, FromBigEndian, Tracker.AddTo;
    put := None;
    if CanSend(st.node, topic) && |data| <= MAX_DATA_LENGTH {
      var p := Originated(st.id, st.node.deviceType, target, air.packetId, topic, st.counter + 1, data);
      put := RoutingEffect(P, st.(counter := st.counter + 1, outgoing := p), p, air);
    }
  }

  lemma ProcessingEffect(P: Primitives, st: Station, p: Packet, env: Env, air: Air) returns (put: Option<Put>)
    ensures Processed(P, st, p, env, air).0.link == LinkAfter(st.link.air, st.link.recency, put)
    ensures put.Some? ==> Carried(put.value) && (put.value.id == Key(p) || put.value.id == FromBigEndian(air.packetId))
  {
    PlainKeepsHeader(P, Who(st), p);
    hide RoutedAt, Sent, Plain, Handled, IsInclusionMessage, IsApplicationMessage, Carried, FromBigEndian,
      Tracker.AddTo;
    var q := Plain(P, Who(st), p);
    put := None;
    if IsInclusionMessage(p.topic) {
      var t := Handled(P, st.node, q.topic, q.packetData, env);
      if t.action.SendData? {
        put := SendingEffect(P, st.(node := t.node), t.action.topic, t.action.payload, BROADCAST_ADDR, air);
      }
    } else if Relays(st, q) {
      put := RoutingEffect(P, Told(st, q), q, air);
    }
  }

  /**
   Every event is one lookup if it hears, and at most one packet put on air: its own, or what it
   heard and had not seen.
   */
  lemma EventEffect(P: Primitives, st: Station, e: Event) returns (put: Option<Put>)
    ensures Happened(P, st, e).link == LinkAfter(st.link.air, LookedIn(st.link.recency, e), put)
    ensures put.Some? ==>
      && Carried(put.value)
      && (Draws(e, put.value.id)
          || (e.Hears? && put.value.id == Key(e.packet) && !Seen(st.link.recency, e.packet)))
  {
    hide Processed, Sent, Carried, Tracker.FindIn, Tracker.AddTo, FromBigEndian, MicHolds, Stripped;
    match e
    case Sends(topic, data, target, air) => put := SendingEffect(P, st, topic, data, target, air);
    case Changes(_, _, _) => put := None;
    case Hears(p, env, air) =>
      var checked := st.(link := st.link.(recency := Tracker.FindIn(st.link.recency, Key(p))));
      GenuineKeepsHeader(P, Who(st), st.link.recency, p);
      var v := Judged(P, Who(st), st.link.recency, p);
      put := None;
      if v.Genuine? {
        put := ProcessingEffect(P, checked, v.packet, env, air);
      }
  }

  // ----- duplicate suppression -----

  /** If the tracker holds the id, then with this CRC. */
  predicate Knows(st: Station, id: u32, crc: u32) {
    Tracker.Holds(st.link.recency, id) ==> Tracker.ValueOr(st.link.recency, id, 0) == crc
  }

  /** Packet ids are unique: whatever carries this one is a copy with this CRC, and the station's own packets do not. */
  predicate Unique(e: Event, id: u32, crc: u32) {
    !Draws(e, id) && (e.Hears? && Key(e.packet) == id ==> e.packet.packetCrc == crc)
  }

  /** The tracker holds the id before each event. */
  predicate HeldThroughout(P: Primitives, st: Station, es: seq<Event>, id: u32)
    decreases |es|
  {
    es == [] || (Tracker.Holds(st.link.recency, id) && HeldThroughout(P, Happened(P, st, es[0]), es[1..], id))
  }

  lemma EventIsSilent(P: Primitives, st: Station, e: Event, id: u32, crc: u32)
    requires Tracker.Holds(st.link.recency, id) && Knows(st, id, crc) && Unique(e, id, crc)
    ensures Silent(st, Happened(P, st, e), id) && Knows(Happened(P, st, e), id, crc)
  {
    hide Happened, Tracker.Holds, Tracker.FindIn, Tracker.AddTo, Tracker.ValueOr, FromBigEndian, Parse;
    var put := EventEffect(P, st, e);
    var looked := LookedIn(st.link.recency, e);
    if e.Hears? {
      SeenIfHeld(st, e.packet, id, crc);
      Tracker.FindKeepsValues(st.link.recency, Key(e.packet), id);
    }
    if put.Some? {
      Tracker.AddKeepsValues(TRACKER_CAPACITY, looked, put.value.id, put.value.crc, id);
    }
  }

  lemma SeenIfHeld(st: Station, p: Packet, id: u32, crc: u32)
    requires Tracker.Holds(st.link.recency, id) && Knows(st, id, crc)
    ensures Key(p) == id && p.packetCrc == crc ==> Seen(st.link.recency, p)
  {
  }

  /**
   Duplicate suppression. A station stays silent about a packet as long as its tracker holds the id
   with the packet's CRC, through every sequence of packets heard and sent, copies of it included.
   */
  lemma {:induction false} NeverTwice(P: Primitives, st: Station, es: seq<Event>, id: u32, crc: u32)
    requires Knows(st, id, crc) && HeldThroughout(P, st, es, id)
    requires forall e :: e in es ==> Unique(e, id, crc)
    ensures Silent(st, AllHappened(P, st, es), id)
    decreases |es|
  {
    hide Knows, Happened, Unique, Silence, Tracker.Holds;
    if es != [] {
      var next := Happened(P, st, es[0]);
      EventIsSilent(P, st, es[0], id, crc);
      NeverTwice(P, next, es[1..], id, crc);
      SilenceAddsUp(st, next, AllHappened(P, next, es[1..]), id);
    }
  }

  // ----- how long the tracker holds an id -----

  /** The ids an event uses the tracker for: one it finds there, and one it puts on air. */
  function Uses(P: Primitives, st: Station, e: Event): set<u32> {
    (if e.Hears? && Tracker.Holds(st.link.recency, Key(e.packet)) then {Key(e.packet)} else {}) + Transmits(P, st, e)
  }

  /** The ids on the buffers an event puts on air. */
  function Transmits(P: Primitives, st: Station, e: Event): set<u32> {
    var before, after := st.link.air, Happened(P, st, e).link.air;
    if |before| < |after| && |after[|before|]| >= HEADER_LENGTH then {Key(Parse(after[|before|]))} else {}
  }

  predicate UsesOnly(P: Primitives, st: Station, es: seq<Event>, id: u32, others: set<u32>)
    decreases |es|
  {
    es == [] || (Uses(P, st, es[0]) <= others + {id} && UsesOnly(P, Happened(P, st, es[0]), es[1..], id, others))
  }

  /** The tracker has the packet, used more recently than everything but some of the others. */
  ghost predicate Recent(st: Station, id: u32, others: set<u32>) {
    Tracker.Bounded(TRACKER_CAPACITY, st.link.recency) && Tracker.OnlyBefore(st.link.recency, id, others)
  }

  lemma EventKeepsRecent(P: Primitives, st: Station, e: Event, id: u32, crc: u32, others: set<u32>)
    requires Recent(st, id, others) && |others| < TRACKER_CAPACITY && id !in others
    requires Knows(st, id, crc) && Unique(e, id, crc) && Uses(P, st, e) <= others + {id}
    ensures Recent(Happened(P, st, e), id, others)
  {
    hide Tracker.FindIn, Tracker.AddTo, Tracker.ValueOr, FromBigEndian, Parse, Happened, Tracker.Position;
    EventIsSilent(P, st, e, id, crc);
    var put := EventEffect(P, st, e);
    var r := st.link.recency;
    var looked := LookedIn(r, e);
    if e.Hears? {
      FindingKeepsRecent(r, Key(e.packet), id, others);
    }
    if put.Some? {
      assert Happened(P, st, e).link.air[|st.link.air|] == put.value.buffer;
      assert Silence(put.value.buffer, id);
      assert put.value.id in Transmits(P, st, e);
      var op := Tracker.Add(put.value.id, put.value.crc);
      Tracker.StepKeepsBound(TRACKER_CAPACITY, looked, op);
      Tracker.StepKeepsEntry(TRACKER_CAPACITY, looked, op, id, others);
    }
  }

  lemma FindingKeepsRecent(r: seq<Tracker.Entry<u32, u32>>, key: u32, id: u32, others: set<u32>)
    requires Tracker.Bounded(TRACKER_CAPACITY, r) && Tracker.OnlyBefore(r, id, others)
    requires |others| < TRACKER_CAPACITY && id !in others && (Tracker.Holds(r, key) ==> key == id || key in others)
    ensures Tracker.Bounded(TRACKER_CAPACITY, Tracker.FindIn(r, key))
    ensures Tracker.OnlyBefore(Tracker.FindIn(r, key), id, others)
  {
    if Tracker.Holds(r, key) {
      var op := Tracker.Find(key);
      Tracker.StepKeepsBound(TRACKER_CAPACITY, r, op);
      Tracker.StepKeepsEntry(TRACKER_CAPACITY, r, op, id, others);
    }
  }

  /** Fewer than fifty other ids found or put on air leave it held; ids only heard do not count. */
  lemma {:induction false} HeldWhileFewAreUsed(P: Primitives, st: Station, es: seq<Event>, id: u32, crc: u32,
                                               others: set<u32>)
    requires Recent(st, id, others) && |others| < TRACKER_CAPACITY && id !in others && Knows(st, id, crc)
    requires UsesOnly(P, st, es, id, others) && forall e :: e in es ==> Unique(e, id, crc)
    ensures HeldThroughout(P, st, es, id)
    decreases |es|
  {
    hide Knows, Happened, Unique, Uses, Silent;
    if es != [] {
      assert Tracker.Holds(st.link.recency, id) by { RecentIsHeld(st, id, others); }
      hide Recent;
      EventIsSilent(P, st, es[0], id, crc);
      EventKeepsRecent(P, st, es[0], id, crc, others);
      HeldWhileFewAreUsed(P, Happened(P, st, es[0]), es[1..], id, crc, others);
    }
  }

  lemma RecentIsHeld(st: Station, id: u32, others: set<u32>)
    requires Recent(st, id, others)
    ensures Tracker.Holds(st.link.recency, id)
  {
  }

  // ----- with what the mesh keeps: every copy of a packet has the same id and CRC -----

  /** The event in which a member puts application packet `p` on air: it sends it, or hears a copy of it as a relay. */
  ghost predicate PutsOnAir(P: Primitives, st: Station, networkKey: seq<byte>, p: Packet, e: Event) {
    match e
    case Changes(_, _, _) => false
    case Sends(topic, data, target, air) => air.radioRc == RM_E_NONE && p == PacketFrom(st, topic, data, target, air)
    case Hears(q, _, air) =>
      && IsRelay(st, p.destDevId, air) && !Seen(st.link.recency, q)
      && exists hops :: hops < 7 && CopyOf(P, networkKey, p, q, hops)
  }

  /** An event that is about another packet, or hears `p` itself, at whatever hop. */
  ghost predicate OnlyCopies(P: Primitives, networkKey: seq<byte>, p: Packet, e: Event) {
    && !Draws(e, Key(p))
    && (e.Hears? && Key(e.packet) == Key(p) ==> exists hops :: CopyOf(P, networkKey, p, e.packet, hops))
  }

  lemma CopiesAreUnique(P: Primitives, networkKey: seq<byte>, p: Packet, e: Event)
    requires OnlyCopies(P, networkKey, p, e)
    ensures Unique(e, Key(p), CrcOf(P, networkKey, p))
  {
    if e.Hears? && Key(e.packet) == Key(p) {
      var hops :| CopyOf(P, networkKey, p, e.packet, hops);
    }
    hide CrcOf, FromBigEndian;
  }

  /** The event puts one copy on air, and the tracker holds its id with the CRC of every copy, most recently used. */
  lemma PuttingIsTracked(P: Primitives, st: Station, networkKey: seq<byte>, p: Packet, e: Event)
    requires Sound(P) && Shares(st, networkKey) && |networkKey| == 32
    requires IsApplicationMessage(p.topic) && |p.packetData| <= MAX_DATA_LENGTH && PutsOnAir(P, st, networkKey, p, e)
    ensures var after := Happened(P, st, e);
      && |after.link.air| == |st.link.air| + 1 && st.link.air <= after.link.air
      && Knows(after, Key(p), CrcOf(P, networkKey, p))
      && (Tracker.Bounded(TRACKER_CAPACITY, st.link.recency) ==> Recent(after, Key(p), {}))
  {
    hide CopyOf, CrcOf, Received, Sent, Shares, Seen, IsRelay, FromBigEndian, Parse, ToBytes, IsApplicationMessage;
    var q := CopyGoesOut(P, st, networkKey, p, e);
    var put := EventEffect(P, st, e);
    CopyIdentity(P, networkKey, p, q);
    var after := Happened(P, st, e);
    assert after.link.air[|st.link.air|] == ToBytes(q);
    assert put.Some? && put.value.buffer == ToBytes(q);
    var looked := LookedIn(st.link.recency, e);
    AddedIsKnown(looked, Key(p), put.value.crc);
    if Tracker.Bounded(TRACKER_CAPACITY, st.link.recency) {
      LookingKeepsBound(st.link.recency, e);
      var op := Tracker.Add(Key(p), put.value.crc);
      Tracker.StepKeepsBound(TRACKER_CAPACITY, looked, op);
      Tracker.UseBringsToFront(TRACKER_CAPACITY, looked, op);
    }
  }

  lemma LookingKeepsBound(r: seq<Tracker.Entry<u32, u32>>, e: Event)
    requires Tracker.Bounded(TRACKER_CAPACITY, r)
    ensures Tracker.Bounded(TRACKER_CAPACITY, LookedIn(r, e))
  {
    if e.Hears? {
      Tracker.StepKeepsBound(TRACKER_CAPACITY, r, Tracker.Find(Key(e.packet)));
    }
  }

  lemma AddedIsKnown(r: seq<Tracker.Entry<u32, u32>>, id: u32, crc: u32)
    ensures Tracker.ValueOr(Tracker.AddTo(TRACKER_CAPACITY, r, id, crc), id, 0) == crc
  {
  }

  lemma CopyIdentity(P: Primitives, networkKey: seq<byte>, p: Packet, q: Packet)
    requires exists hops :: CopyOf(P, networkKey, p, q, hops)
    ensures |ToBytes(q)| >= HEADER_LENGTH && Parse(ToBytes(q)) == q
    ensures Key(q) == Key(p) && q.packetCrc == CrcOf(P, networkKey, p)
  {
    ParseOfToBytes(q);
    ToBytesIsLongEnough(q);
    hide CrcOf, FromBigEndian, ToBytes, Parse;
    var hops :| CopyOf(P, networkKey, p, q, hops);
  }

  lemma CopyGoesOut(P: Primitives, st: Station, networkKey: seq<byte>, p: Packet, e: Event) returns (q: Packet)
    requires Sound(P) && Shares(st, networkKey) && |networkKey| == 32
    requires IsApplicationMessage(p.topic) && |p.packetData| <= MAX_DATA_LENGTH && PutsOnAir(P, st, networkKey, p, e)
    ensures Happened(P, st, e).link.air == st.link.air + [ToBytes(q)]
    ensures exists hops :: CopyOf(P, networkKey, p, q, hops)
  {
    hide CopyOf, Received, Sent, Shares, Seen, IsRelay, ToBytes, IsApplicationMessage;
    match e
    case Sends(topic, data, target, air) =>
      FromHasFields(st, topic, data, target, air);
      q := OriginSendsCopy(P, st, networkKey, topic, data, target, air);
    case Hears(x, env, air) =>
      var hops :| hops < 7 && CopyOf(P, networkKey, p, x, hops);
      q := RelaySendsCopy(P, st, networkKey, p, x, hops, env, air);
  }

  lemma FromHasFields(st: Station, topic: byte, data: seq<byte>, target: Id, air: Air)
    ensures var p := PacketFrom(st, topic, data, target, air); p.topic == topic && p.packetData == data
  {
  }

  /**
   A member that has put an application packet on air, its own or one it relays, never does so again
   while its tracker holds the id: the CRC tracked with it is the CRC of every copy, at every hop.
   */
  lemma TransmittedOnce(P: Primitives, st: Station, networkKey: seq<byte>, p: Packet, first: Event, es: seq<Event>)
    requires Sound(P) && Shares(st, networkKey) && |networkKey| == 32
    requires IsApplicationMessage(p.topic) && |p.packetData| <= MAX_DATA_LENGTH
    requires PutsOnAir(P, st, networkKey, p, first)
    requires HeldThroughout(P, Happened(P, st, first), es, Key(p))
    requires forall e :: e in es ==> OnlyCopies(P, networkKey, p, e)
    ensures var sent := Happened(P, st, first);
      |sent.link.air| == |st.link.air| + 1 && Silent(sent, AllHappened(P, sent, es), Key(p))
  {
    hide CrcOf, Knows, Happened, AllHappened, HeldThroughout, FromBigEndian, OnlyCopies, Unique, PutsOnAir, Shares,
      Silent;
    PuttingIsTracked(P, st, networkKey, p, first);
    forall e | e in es ensures Unique(e, Key(p), CrcOf(P, networkKey, p)) {
      CopiesAreUnique(P, networkKey, p, e);
    }
    NeverTwice(P, Happened(P, st, first), es, Key(p), CrcOf(P, networkKey, p));
  }

  /** That is so at least until fifty other ids have been put on air or found in the tracker, however many are heard. */
  lemma TransmittedOnceAmongFew(P: Primitives, st: Station, networkKey: seq<byte>, p: Packet, first: Event,
                                es: seq<Event>, others: set<u32>)
    requires Sound(P) && Shares(st, networkKey) && |networkKey| == 32
    requires Tracker.Bounded(TRACKER_CAPACITY, st.link.recency)
    requires IsApplicationMessage(p.topic) && |p.packetData| <= MAX_DATA_LENGTH
    requires PutsOnAir(P, st, networkKey, p, first)
    requires UsesOnly(P, Happened(P, st, first), es, Key(p), others) && |others| < 50 && Key(p) !in others
    requires forall e :: e in es ==> OnlyCopies(P, networkKey, p, e)
    ensures var sent := Happened(P, st, first);
      |sent.link.air| == |st.link.air| + 1 && Silent(sent, AllHappened(P, sent, es), Key(p))
  {
    hide CrcOf, Knows, Happened, AllHappened, HeldThroughout, UsesOnly, FromBigEndian, OnlyCopies, Unique, PutsOnAir,
      Shares, Silent, Tracker.Bounded, Tracker.OnlyBefore;
    var sent := Happened(P, st, first);
    PuttingIsTracked(P, st, networkKey, p, first);
    MoreOthers(sent, Key(p), others);
    forall e | e in es ensures Unique(e, Key(p), CrcOf(P, networkKey, p)) {
      CopiesAreUnique(P, networkKey, p, e);
    }
    HeldWhileFewAreUsed(P, sent, es, Key(p), CrcOf(P, networkKey, p), others);
    NeverTwice(P, sent, es, Key(p), CrcOf(P, networkKey, p));
  }

  lemma MoreOthers(st: Station, id: u32, others: set<u32>)
    requires Recent(st, id, {})
    ensures Recent(st, id, others)
  {
  }

  // ----- exactly when a packet goes out again -----

  /** The tracker holds the id with this CRC. */
  predicate Remembers(r: seq<Tracker.Entry<u32, u32>>, id: u32, crc: u32) {
    Tracker.Holds(r, id) && Tracker.ValueOr(r, id, 0) == crc
  }

  /**
   A member that hears a copy, its first or its hundredth, puts it on air if and only if it is a standard
   device with its relay switched on, the packet is for another station and has made fewer than seven
   hops, the radio takes it, and the tracker does not hold the id with the packet's CRC; ids need not be
   unique. A packet with CRC 0 goes on only where its id is tracked with another CRC.
   */
  lemma RelaysIff(P: Primitives, st: Station, networkKey: seq<byte>, p: Packet, q: Packet, hops: nat, env: Env,
                  air: Air)
    requires Sound(P) && Shares(st, networkKey) && |networkKey| == 32
    requires IsApplicationMessage(p.topic) && |p.packetData| <= MAX_DATA_LENGTH && CopyOf(P, networkKey, p, q, hops)
    ensures var crc := CrcOf(P, networkKey, p);
      Received(P, st, q, env, air).0.link.air != st.link.air <==>
        && st.node.deviceType == STANDARD && st.relayEnabled && p.destDevId != st.id && hops < 7
        && air.radioRc == RM_E_NONE
        && !Remembers(st.link.recency, Key(p), crc) && (crc == 0 ==> Tracker.Holds(st.link.recency, Key(p)))
  {
    CopyKeeps(P, networkKey, p, q, hops);
    assert Key(q) == Key(p);
    hide CopyOf, CrcOf, Received, Shares, Tracker.Position, FromBigEndian, ToBytes;
    if Seen(st.link.recency, q) {
      SeenIsDropped(P, st, q, env, air);
    } else {
      UnseenIsRelayedIff(P, st, networkKey, p, q, hops, env, air);
    }
  }

  lemma UnseenIsRelayedIff(P: Primitives, st: Station, networkKey: seq<byte>, p: Packet, q: Packet, hops: nat, env: Env,
                           air: Air)
    requires Sound(P) && Shares(st, networkKey) && |networkKey| == 32 && !Seen(st.link.recency, q)
    requires IsApplicationMessage(p.topic) && |p.packetData| <= MAX_DATA_LENGTH && CopyOf(P, networkKey, p, q, hops)
    ensures Received(P, st, q, env, air).0.link.air != st.link.air <==>
            && st.node.deviceType == STANDARD && st.relayEnabled && p.destDevId != st.id && hops < 7
            && air.radioRc == RM_E_NONE
  {
    CopyKeeps(P, networkKey, p, q, hops);
    Sealing.CopiesAreTransmissions(P, networkKey, p, q, hops);
    hide CopyOf, Received, Shares, ToBytes, Transmission, Judged, Plain, Seen, Sealing.Transmitted,
      Sealing.PayloadHeard, Key;
    var x := q.(packetData := Sealing.PayloadHeard(P, networkKey, p, hops));
    Sealing.TransmittedIsGenuine(P, st, networkKey, p, q, hops);
    Sealing.GenuineAtMember(P, st, q, x, env, air);
    Sealing.RelaysNext(P, st, networkKey, p, q, hops, air.route);
  }

  lemma SeenIsDropped(P: Primitives, st: Station, q: Packet, env: Env, air: Air)
    requires Seen(st.link.recency, q)
    ensures Received(P, st, q, env, air).0.link.air == st.link.air
  {
    hide Seen, MicHolds, Processed, Tracker.FindIn;
  }

  /** Adding `put` pushes the least recent entry, the one for `id`, out of a full tracker. */
  predicate Evicts(r: seq<Tracker.Entry<u32, u32>>, put: Put, id: u32) {
    !Tracker.Holds(r, put.id) && |r| == TRACKER_CAPACITY && r[TRACKER_CAPACITY - 1].key == id
  }

  /**
   A station forgets a packet in exactly two ways: it puts another packet on air that happens to have the
   same id, or fifty others have been used since and it puts one more on air.
   */
  lemma ForgetsIff(P: Primitives, st: Station, e: Event, id: u32, crc: u32) returns (put: Option<Put>)
    requires Tracker.Bounded(TRACKER_CAPACITY, st.link.recency) && Remembers(st.link.recency, id, crc)
    ensures Happened(P, st, e).link == LinkAfter(st.link.air, LookedIn(st.link.recency, e), put)
    ensures !Remembers(Happened(P, st, e).link.recency, id, crc) <==>
            put.Some? && ((put.value.id == id && put.value.crc != crc)
                          || Evicts(LookedIn(st.link.recency, e), put.value, id))
  {
    hide Happened, Tracker.FindIn, Tracker.AddTo, Tracker.Position, Carried;
    put := EventEffect(P, st, e);
    var looked := LookedIn(st.link.recency, e);
    LookingKeepsBound(st.link.recency, e);
    if e.Hears? {
      Tracker.FindKeepsValues(st.link.recency, Key(e.packet), id);
    }
    if put.Some? {
      AddForgetsIff(looked, put.value, id, crc);
    }
  }

  lemma AddForgetsIff(r: seq<Tracker.Entry<u32, u32>>, put: Put, id: u32, crc: u32)
    requires Tracker.Bounded(TRACKER_CAPACITY, r) && Remembers(r, id, crc)
    ensures !Remembers(Tracker.AddTo(TRACKER_CAPACITY, r, put.id, put.crc), id, crc) <==>
            (put.id == id && put.crc != crc) || Evicts(r, put, id)
  {
    if put.id == id {
      AddedIsKnown(r, id, put.crc);
      AddedIsHeld(r, id, put.crc);
    } else if Evicts(r, put, id) {
      Tracker.PositionIs(r, id, TRACKER_CAPACITY - 1);
      Tracker.OneMoreKeyEvicts(TRACKER_CAPACITY, r, id, put.id, put.crc);
    } else {
      Tracker.AddKeepsOthers(TRACKER_CAPACITY, r, put.id, put.crc, id);
    }
  }

  lemma AddedIsHeld(r: seq<Tracker.Entry<u32, u32>>, id: u32, crc: u32)
    ensures Tracker.Holds(Tracker.AddTo(TRACKER_CAPACITY, r, id, crc), id)
  {
  }
}
