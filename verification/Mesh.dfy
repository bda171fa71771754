/** What a packet keeps on its way through the mesh: its meaning, its identity and its CRC, hop after hop. */
module Mesh {
  import opened Bytes
  import opened Errors
  import opened Definitions
  import opened Packet
  import opened AesCrypto
  import opened EncryptionService
  import opened MicService
  import opened InclusionController
  import opened PacketRouter
  import opened FailClosed
  import opened Device
  import AesCmac
  import Crc32
  import Tracker = PacketTracker
  import Routes = RoutingTable

  // ----- the hop count as a number -----

  lemma HopCounts(b: byte)
    ensures b < MAX_HOPS <==> Value(b) < 7
    ensures b < MAX_HOPS ==> Value(b + 1) == Value(b) + 1
  {
    ValueIsConversion(b);
    if b < MAX_HOPS {
      assert (b + 1) - 1 == b && b + 1 != 0;
    }
  }

  // ----- a copy of a packet -----

  /** A member of the network: included, or the hub, with the network key. */
  predicate Shares(st: Station, networkKey: seq<byte>) {
    && (st.node.state == INCLUDED || st.node.deviceType == HUB)
    && st.node.ring.networkKey == networkKey && Keys32(st.node.ring)
  }

  /** The payload of `p` as it goes over the air. */
  function OnAirPayload(P: Primitives, networkKey: seq<byte>, p: Packet): seq<byte> {
    Ctr(P, networkKey, ZeroIv(), p.packetData)
  }

  /** The CRC every copy of `p` carries. */
  function CrcOf(P: Primitives, networkKey: seq<byte>, p: Packet): u32 {
    Crc32.PacketCrc(p.fcounter, OnAirPayload(P, networkKey, p))
  }

  /** `q` is `p` after `hops` transmissions. */
  ghost predicate CopyOf(P: Primitives, networkKey: seq<byte>, p: Packet, q: Packet, hops: nat) {
    && q == p.(hopCount := q.hopCount, packetCrc := CrcOf(P, networkKey, p), lastHopId := q.lastHopId,
               nextHopId := q.nextHopId, reserved := [0, 0, 0], packetData := q.packetData)
    && Value(q.hopCount) == hops && HasMic(q) && DataWithoutMic(q) == OnAirPayload(P, networkKey, p)
    && ExtractMic(q) == AesCmac.Mic(P.blockCipher, networkKey, HeaderBytes(q) + OnAirPayload(P, networkKey, p))
  }

  /** What an application is given of `p` after `hops` transmissions. */
  ghost predicate Recovered(p: Packet, x: Packet, hops: nat, crc: u32) {
    && x == p.(hopCount := x.hopCount, packetCrc := crc, lastHopId := x.lastHopId, nextHopId := x.nextHopId,
      reserved := [0, 0, 0])
    && Value(x.hopCount) == hops
  }

  /** A member's transmission of a packet that stands at `hops` is a copy one hop further. */
  lemma TransmissionIsCopy(P: Primitives, st: Station, networkKey: seq<byte>, route: Option<Id>, p: Packet, x: Packet,
                           hops: nat, crc: u32)
    requires Sound(P) && Shares(st, networkKey) && |networkKey| == 32
    requires IsApplicationMessage(p.topic) && |p.packetData| <= MAX_DATA_LENGTH
    requires Recovered(p, x, hops, crc) && hops < 7
    ensures var out := Transmission(P, Who(st), route, x);
      out.OnAir? && out.packet.lastHopId == st.id && CopyOf(P, networkKey, p, out.packet, hops + 1)
  {
    var s := Who(st);
    HopCounts(x.hopCount);
    assert KeyFor(P, s, p.topic) == Some(networkKey) && Guarded(s, p.topic);
    SendingFailsClosed(P, s, route, x);
    FrameIsSealed(P, s, route, x);
    ForwardedKeeps(x, s.id, route);
    FrameCrc(P, s, route, x);
    hide Transmission, Frame, Forwarded, KeyFor, Ctr, HeaderBytes, HasMic, DataWithoutMic, ExtractMic, AesCmac.Mic,
      Crc32.PacketCrc, Value;
  }

  /** At a member that does not count it as seen, a copy passes every check and opens to the packet it was. */
  lemma CopyIsGenuine(P: Primitives, st: Station, networkKey: seq<byte>, p: Packet, q: Packet, hops: nat)
    requires Sound(P) && Shares(st, networkKey) && |networkKey| == 32
    requires IsApplicationMessage(p.topic) && CopyOf(P, networkKey, p, q, hops) && !Seen(st.link.recency, q)
    ensures var v := Judged(P, Who(st), st.link.recency, q);
      v.Genuine? && v.packet.topic == q.topic
      && Plain(P, Who(st), v.packet) == q.(packetData := p.packetData)
      && Recovered(p, Plain(P, Who(st), v.packet), hops, CrcOf(P, networkKey, p))
  {
    var s := Who(st);
    var sealed := OnAirPayload(P, networkKey, p);
    CtrUndoesItself(P, networkKey, ZeroIv(), p.packetData);
    KeysOfMember(P, s, p.topic);
    hide Seen, Ctr, HeaderBytes, ExtractMic, DataWithoutMic, AesCmac.Mic, Crc32.PacketCrc, MicKey, OpenKey, Value,
      HasMic;
    assert RequiresMic(q.topic) && q.topic == p.topic;
    assert Stripped(q) == q.(packetData := sealed);
    assert Judged(P, s, st.link.recency, q) == Genuine(q.(packetData := sealed));
    assert IsApplicationMessage(q.topic);
    assert Plain(P, s, q.(packetData := sealed)) == q.(packetData := p.packetData);
  }

  lemma KeysOfMember(P: Primitives, s: Sender, topic: byte)
    requires Sound(P) && IsApplicationMessage(topic) && (s.state == INCLUDED || s.deviceType == HUB)
      && |s.ring.networkKey| == 32
    ensures MicKey(P, s.ring, topic, s.deviceType, s.state) == s.ring.networkKey
    ensures OpenKey(P, s.ring, topic, s.deviceType, s.state) == Some(s.ring.networkKey)
    ensures SealKey(P, s.ring, topic, s.deviceType, s.state) == Some(s.ring.networkKey)
  {
  }

  // ----- one relay -----

  /** A station that passes on what is not for it, with a radio that works. */
  predicate IsRelay(st: Station, target: Id, air: Air) {
    st.node.deviceType == STANDARD && st.relayEnabled && st.id != target && air.radioRc == RM_E_NONE
  }

  predicate Unknown(st: Station, packetId: Id) {
    !Tracker.Holds(st.link.recency, FromBigEndian(packetId))
  }

  /** A packet a station has no entry for is taken as seen exactly if its CRC is 0. */
  lemma UnknownIsSeenIffCrcIsZero(st: Station, q: Packet)
    requires Unknown(st, q.packetId)
    ensures Seen(st.link.recency, q) <==> q.packetCrc == 0
  {
  }

  lemma RelaySendsCopy(P: Primitives, st: Station, networkKey: seq<byte>, p: Packet, q: Packet, hops: nat, env: Env,
      air: Air)
    returns (next: Packet)
    requires Sound(P) && Shares(st, networkKey) && |networkKey| == 32 && IsRelay(st, p.destDevId, air)
    requires IsApplicationMessage(p.topic) && |p.packetData| <= MAX_DATA_LENGTH
    requires CopyOf(P, networkKey, p, q, hops) && hops < 7 && !Seen(st.link.recency, q)
    ensures CopyOf(P, networkKey, p, next, hops + 1) && next.lastHopId == st.id
    ensures var (after, rc) := Received(P, st, q, env, air);
      && rc == RM_E_NONE && after.link.air == st.link.air + [ToBytes(next)]
      && after.delivered == st.delivered + [q.(packetData := p.packetData)]
  {
    CopyIsGenuine(P, st, networkKey, p, q, hops);
    var x := q.(packetData := p.packetData);
    TransmissionIsCopy(P, st, networkKey, air.route, p, x, hops, CrcOf(P, networkKey, p));
    hide CopyOf, Judged, Plain, Transmission, Shares, Seen, Tracker.AddTo, Tracker.FindIn, ToBytes;
    next := Transmission(P, Who(st), air.route, x).packet;
    GenuineIsRouted(P, st, q, x, env, air);
  }

  /** A genuine application packet at a relay is told and handed to the router. */
  lemma GenuineIsRouted(P: Primitives, st: Station, q: Packet, x: Packet, env: Env, air: Air)
    requires IsRelay(st, q.destDevId, air) && IsApplicationMessage(q.topic)
    requires var v := Judged(P, Who(st), st.link.recency, q);
      v.Genuine? && v.packet.topic == q.topic && Plain(P, Who(st), v.packet) == x && x == q.(packetData := x.packetData)
    ensures var (after, rc) := Received(P, st, q, env, air);
      var out := Transmission(P, Who(st), air.route, x);
      && after.delivered == st.delivered + [x]
      && (out.OnAir? ==> rc == RM_E_NONE && after.link.air == st.link.air + [ToBytes(out.packet)])
      && (out.Refused? ==> rc == out.rc && after.link.air == st.link.air)
  {
    hide Judged, Plain, Transmission, Tracker.AddTo, Tracker.FindIn, ToBytes, Acted;
  }

  /** The seventh transmission is the last: a relay that hears it tells its application and refuses to go on. */
  lemma SeventhCopyStops(P: Primitives, st: Station, networkKey: seq<byte>, p: Packet, q: Packet, env: Env, air: Air)
    requires Sound(P) && Shares(st, networkKey) && |networkKey| == 32 && IsRelay(st, p.destDevId, air)
    requires IsApplicationMessage(p.topic) && CopyOf(P, networkKey, p, q, 7) && !Seen(st.link.recency, q)
    ensures var (after, rc) := Received(P, st, q, env, air);
      && rc == RM_E_MAX_HOPS && after.link.air == st.link.air
      && after.delivered == st.delivered + [q.(packetData := p.packetData)]
  {
    CopyIsGenuine(P, st, networkKey, p, q, 7);
    HopCounts(q.hopCount);
    var x := q.(packetData := p.packetData);
    assert Transmission(P, Who(st), air.route, x) == Refused(RM_E_MAX_HOPS);
    hide CopyOf, Judged, Plain, Transmission, Shares, Seen;
    GenuineIsRouted(P, st, q, x, env, air);
  }

  // ----- whole chains, over the bytes on air -----

  /** A station as it hears the packet, and what its surroundings supply. */
  datatype Hop = Hop(station: Station, env: Env, air: Air)

  /** The one buffer a station puts on air for the one it hears. */
  function Carried(P: Primitives, hop: Hop, buffer: seq<byte>): Option<seq<byte>>
    requires |buffer| >= HEADER_LENGTH
  {
    var before, after := hop.station.link.air, Received(P, hop.station, Parse(buffer), hop.env, hop.air).0.link.air;
    if |after| == |before| + 1 then Some(after[|before|]) else None
  }

  function Journey(P: Primitives, hops: seq<Hop>, buffer: seq<byte>): Option<seq<byte>>
    decreases |hops|
  {
    if hops == [] then Some(buffer)
    else if |buffer| < HEADER_LENGTH then None
    else
      var next := Carried(P, hops[0], buffer);
      if next.None? then None else Journey(P, hops[1..], next.value)
  }

  /** Every station of the chain is a relay of this network that has not met the packet. */
  predicate Carrier(hop: Hop, networkKey: seq<byte>, p: Packet) {
    Shares(hop.station, networkKey) && IsRelay(hop.station, p.destDevId, hop.air) && Unknown(hop.station, p.packetId)
  }

  lemma {:induction false} JourneyCarriesCopy(P: Primitives, networkKey: seq<byte>, p: Packet, hops: seq<Hop>,
      q: Packet, n: nat)
    returns (last: Packet)
    requires Sound(P) && |networkKey| == 32 && IsApplicationMessage(p.topic) && |p.packetData| <= MAX_DATA_LENGTH
    requires CopyOf(P, networkKey, p, q, n) && n + |hops| <= 7 && CrcOf(P, networkKey, p) != 0
    requires forall h :: h in hops ==> Carrier(h, networkKey, p)
    ensures Journey(P, hops, ToBytes(q)) == Some(ToBytes(last)) && CopyOf(P, networkKey, p, last, n + |hops|)
    ensures last.lastHopId == if hops == [] then q.lastHopId else hops[|hops| - 1].station.id
    decreases |hops|
  {
    hide CopyOf, Carried, Carrier, CrcOf, ToBytes;
    if hops == [] {
      last := q;
    } else {
      var next := HopCarriesCopy(P, networkKey, p, hops[0], q, n);
      last := JourneyCarriesCopy(P, networkKey, p, hops[1..], next, n + 1);
    }
  }

  lemma HopCarriesCopy(P: Primitives, networkKey: seq<byte>, p: Packet, hop: Hop, q: Packet,
      n: nat) returns (next: Packet)
    requires Sound(P) && |networkKey| == 32 && IsApplicationMessage(p.topic) && |p.packetData| <= MAX_DATA_LENGTH
    requires CopyOf(P, networkKey, p, q, n) && n < 7 && CrcOf(P, networkKey, p) != 0 && Carrier(hop, networkKey, p)
    ensures |ToBytes(q)| >= HEADER_LENGTH && Carried(P, hop, ToBytes(q)) == Some(ToBytes(next))
    ensures CopyOf(P, networkKey, p, next, n + 1) && next.lastHopId == hop.station.id
  {
    hide CopyOf, Received, Shares, IsRelay, Unknown, Seen, CrcOf, Parse;
    CopyKeeps(P, networkKey, p, q, n);
    UnknownIsSeenIffCrcIsZero(hop.station, q);
    ParseOfToBytes(q);
    next := RelaySendsCopy(P, hop.station, networkKey, p, q, n, hop.env, hop.air);
  }

  /** The packet an origin sends. */
  function PacketFrom(origin: Station, topic: byte, data: seq<byte>, target: Id, air: Air): Packet {
    Originated(origin.id, origin.node.deviceType, target, air.packetId, topic, origin.counter + 1, data)
  }

  lemma OriginSendsCopy(P: Primitives, origin: Station, networkKey: seq<byte>, topic: byte, data: seq<byte>,
      target: Id, air: Air)
    returns (q: Packet)
    requires Sound(P) && |networkKey| == 32 && Shares(origin, networkKey) && air.radioRc == RM_E_NONE
    requires IsApplicationMessage(topic) && |data| <= MAX_DATA_LENGTH
    ensures var (sent, rc) := Sent(P, origin, topic, data, target, air);
      rc == RM_E_NONE && sent.link.air == origin.link.air + [ToBytes(q)]
    ensures CopyOf(P, networkKey, PacketFrom(origin, topic, data, target, air), q, 1) && q.lastHopId == origin.id
  {
    var p := PacketFrom(origin, topic, data, target, air);
    var counted := origin.(counter := origin.counter + 1, outgoing := p);
    MemberIsRouted(P, origin, networkKey, topic, data, target, air);
    FreshIsRecovered(origin, topic, data, target, air);
    hide CopyOf, Recovered, Transmission, RoutedAt, Sent, PacketFrom, ToBytes;
    TransmissionIsCopy(P, counted, networkKey, air.route, p, p, 0, 0);
    OnAirIsTaken(P, counted, p, air);
    q := Transmission(P, Who(counted), air.route, p).packet;
  }

  lemma FreshIsRecovered(origin: Station, topic: byte, data: seq<byte>, target: Id, air: Air)
    ensures var p := PacketFrom(origin, topic, data, target, air);
      Recovered(p, p, 0, 0) && p.topic == topic && p.packetData == data
  {
  }

  lemma MemberIsRouted(P: Primitives, origin: Station, networkKey: seq<byte>, topic: byte, data: seq<byte>,
                       target: Id, air: Air)
    requires Shares(origin, networkKey) && |data| <= MAX_DATA_LENGTH
    ensures var p := PacketFrom(origin, topic, data, target, air);
      && Sent(P, origin, topic, data, target, air) ==
         RoutedAt(P, origin.(counter := origin.counter + 1, outgoing := p), p, air)
      && Shares(origin.(counter := origin.counter + 1, outgoing := p), networkKey)
  {
    hide RoutedAt, Originated;
  }

  lemma OnAirIsTaken(P: Primitives, st: Station, p: Packet, air: Air)
    requires Transmission(P, Who(st), air.route, p).OnAir? && air.radioRc == RM_E_NONE
    ensures var (sent, rc) := RoutedAt(P, st, p, air);
      rc == RM_E_NONE && sent.link.air == st.link.air + [ToBytes(Transmission(P, Who(st), air.route, p).packet)]
  {
    hide Transmission, Tracker.AddTo, ToBytes;
  }

  lemma CopyKeeps(P: Primitives, networkKey: seq<byte>, p: Packet, q: Packet, hops: nat)
    requires CopyOf(P, networkKey, p, q, hops)
    ensures q.packetCrc == CrcOf(P, networkKey, p) && Value(q.hopCount) == hops
    ensures q.topic == p.topic && q.sourceDevId == p.sourceDevId && q.destDevId == p.destDevId
      && q.packetId == p.packetId && q.fcounter == p.fcounter
  {
    hide CrcOf, Value, HasMic, DataWithoutMic, ExtractMic, HeaderBytes, AesCmac.Mic, OnAirPayload;
  }

  /**
   Multi-hop transparency. An application payload of at most 217 bytes sent by a member reaches,
   through any chain of at most six relays of the network, any member that has not met it: the
   application there gets the payload, the source, the packet id and the frame counter as sent, and
   as hop count the number of transmissions. The one exception is a packet whose CRC is 0.
   */
  lemma PayloadSurvivesTheMesh(P: Primitives, origin: Station, networkKey: seq<byte>, topic: byte, data: seq<byte>,
      target: Id,
                               air: Air, hops: seq<Hop>, receiver: Station, env: Env, reply: Air)
    requires Sound(P) && |networkKey| == 32 && IsApplicationMessage(topic) && |data| <= MAX_DATA_LENGTH
    requires Shares(origin, networkKey) && air.radioRc == RM_E_NONE && |hops| <= 6
    requires Shares(receiver, networkKey) && Unknown(receiver, air.packetId)
    requires forall h :: h in hops ==> Carrier(h, networkKey, PacketFrom(origin, topic, data, target, air))
    requires CrcOf(P, networkKey, PacketFrom(origin, topic, data, target, air)) != 0
    ensures var (sent, rc) := Sent(P, origin, topic, data, target, air);
      && rc == RM_E_NONE && |sent.link.air| == |origin.link.air| + 1
      && var arrived := Journey(P, hops, sent.link.air[|origin.link.air|]);
      && arrived.Some? && |arrived.value| >= HEADER_LENGTH
      && var got := Received(P, receiver, Parse(arrived.value), env, reply).0.delivered;
      && |got| == |receiver.delivered| + 1 && got[..|receiver.delivered|] == receiver.delivered
      && var x := got[|receiver.delivered|];
      && x.packetData == data && x.topic == topic && x.sourceDevId == origin.id && x.destDevId == target
      && x.packetId == air.packetId && x.fcounter == origin.counter + 1
      && Value(x.hopCount) == |hops| + 1
      && x.lastHopId == (if hops == [] then origin.id else hops[|hops| - 1].station.id)
  {
    hide CopyOf, Received, Sent, Journey, Shares, Seen, Unknown, CrcOf, Parse;
    var p := PacketFrom(origin, topic, data, target, air);
    var q := OriginSendsCopy(P, origin, networkKey, topic, data, target, air);
    var last := JourneyCarriesCopy(P, networkKey, p, hops, q, 1);
    CopyKeeps(P, networkKey, p, last, |hops| + 1);
    UnknownIsSeenIffCrcIsZero(receiver, last);
    ParseOfToBytes(last);
    CopyIsDelivered(P, receiver, networkKey, p, last, |hops| + 1, env, reply);
  }

  lemma CopyIsDelivered(P: Primitives, st: Station, networkKey: seq<byte>, p: Packet, q: Packet, hops: nat, env: Env,
      air: Air)
    requires Sound(P) && Shares(st, networkKey) && |networkKey| == 32
    requires IsApplicationMessage(p.topic) && CopyOf(P, networkKey, p, q, hops) && !Seen(st.link.recency, q)
    ensures Received(P, st, q, env, air).0.delivered == st.delivered + [q.(packetData := p.packetData)]
  {
    CopyIsGenuine(P, st, networkKey, p, q, hops);
    hide CopyOf, Judged, Plain, Shares, Seen, Routed, Handled, Sent, Tracker.FindIn;
  }

  /** A member that has not met a packet accepts its copies if and only if the CRC they carry is not 0. */
  lemma AcceptedIffCrcIsNotZero(P: Primitives, st: Station, networkKey: seq<byte>, p: Packet, q: Packet, hops: nat,
      env: Env, air: Air)
    requires Sound(P) && Shares(st, networkKey) && |networkKey| == 32
    requires IsApplicationMessage(p.topic) && CopyOf(P, networkKey, p, q, hops) && Unknown(st, p.packetId)
    ensures Received(P, st, q, env, air).0.delivered != st.delivered <==> CrcOf(P, networkKey, p) != 0
  {
    assert q.packetId == p.packetId && q.packetCrc == CrcOf(P, networkKey, p);
    UnknownIsSeenIffCrcIsZero(st, q);
    if !Seen(st.link.recency, q) {
      CopyIsDelivered(P, st, networkKey, p, q, hops, env, air);
    }
    hide CopyOf, Processed, Shares, CrcOf, MicHolds, Crc32.PacketCrc, DataWithoutMic;
  }

  /**
   The exception occurs: for every length from 4 up, whatever the frame counter and the key, there is
   a payload whose packet has CRC 0.
   */
  lemma SomePayloadHasCrcZero(P: Primitives, networkKey: seq<byte>, p: Packet, n: nat) returns (data: seq<byte>)
    requires n >= 4
    ensures |data| == n && CrcOf(P, networkKey, p.(packetData := data)) == 0
  {
    var beginning := seq(n - 4, _ => 0 as byte);
    var ending := Crc32.EveryCrcOccurs(p.fcounter, beginning, 0);
    data := Ctr(P, networkKey, ZeroIv(), beginning + ending);
    CtrUndoesItself(P, networkKey, ZeroIv(), beginning + ending);
    hide Ctr, Crc32.PacketCrc;
    assert OnAirPayload(P, networkKey, p.(packetData := data)) == beginning + ending;
  }

  /** Every member can send such a payload, of any length from 4 to 217, and no member ever takes it. */
  lemma SomePayloadIsNeverDelivered(P: Primitives, origin: Station, networkKey: seq<byte>, topic: byte, n: nat,
                                    target: Id, air: Air) returns (data: seq<byte>, q: Packet)
    requires Sound(P) && |networkKey| == 32 && Shares(origin, networkKey) && air.radioRc == RM_E_NONE
    requires IsApplicationMessage(topic) && 4 <= n <= MAX_DATA_LENGTH
    ensures |data| == n
    ensures var (sent, rc) := Sent(P, origin, topic, data, target, air);
      rc == RM_E_NONE && sent.link.air == origin.link.air + [ToBytes(q)]
    ensures CopyOf(P, networkKey, PacketFrom(origin, topic, data, target, air), q, 1)
    ensures forall st: Station, env: Env, reply: Air {:trigger Received(P, st, q, env, reply)} ::
              Shares(st, networkKey) && Unknown(st, air.packetId) ==>
                Received(P, st, q, env, reply).0.delivered == st.delivered
  {
    data := SomePayloadHasCrcZero(P, networkKey, PacketFrom(origin, topic, [], target, air), n);
    var p := PacketFrom(origin, topic, data, target, air);
    assert p == PacketFrom(origin, topic, [], target, air).(packetData := data);
    assert p.packetId == air.packetId && p.topic == topic;
    hide Sent, CopyOf, Received, CrcOf, Shares, PacketFrom, Unknown, ToBytes;
    q := OriginSendsCopy(P, origin, networkKey, topic, data, target, air);
    forall st: Station, env: Env, reply: Air | Shares(st, networkKey) && Unknown(st, air.packetId)
      ensures Received(P, st, q, env, reply).0.delivered == st.delivered
    {
      AcceptedIffCrcIsNotZero(P, st, networkKey, p, q, 1, env, reply);
    }
  }

  // ----- damage on the way -----

  /**
   Damage confined to four consecutive bytes of what the CRC covers, the frame counter as it is
   summed and the payload after it, never gets a packet past the checks.
   */
  lemma BurstIsCaught(P: Primitives, st: Station, q: Packet, damaged: Packet, k: nat)
    requires q.packetCrc == Crc32.PacketCrc(q.fcounter, DataWithoutMic(q)) && damaged.packetCrc == q.packetCrc
    requires |DataWithoutMic(damaged)| == |DataWithoutMic(q)| && k <= |DataWithoutMic(q)|
    requires var (s, t) := (Crc32.LittleEndian(q.fcounter) + DataWithoutMic(q),
      Crc32.LittleEndian(damaged.fcounter) + DataWithoutMic(damaged));
      s != t && s[..k] == t[..k] && s[k + 4..] == t[k + 4..]
    ensures !Judged(P, Who(st), st.link.recency, damaged).Genuine?
  {
    Crc32.CrcDetectsBurst(q.fcounter, DataWithoutMic(q), damaged.fcounter, DataWithoutMic(damaged), k);
    hide Crc32.PacketCrc, DataWithoutMic, Crc32.LittleEndian, Seen, MicHolds;
  }

  // ----- towards a station that was heard -----

  /**
   What is sent to a station heard for the first time goes out towards the neighbour it was heard through,
   for five minutes, while the table keeps that route.
   */
  lemma HeardThroughIsNextHop(P: Primitives, st: Station, q: Packet, rssi: int, at: nat, rs: seq<Routes.RouteEntry>,
                              tables: seq<seq<Routes.RouteEntry>>, actions: seq<Routes.Action>, now: nat,
                              topic: byte, data: seq<byte>, air: Air)
    requires var r := Reception(q, rssi, at);
      && tables != [] && Routes.Updated(rs, tables[0], r) && Routes.Sparing(tables, actions, r, now)
    requires Routes.FindRoute(rs, q.sourceDevId, 0) == |rs| && q.hopCount < 6 && at <= now < at + 300000
    requires q.sourceDevId != BROADCAST_ADDR && air.route == LookedUp(tables[|tables| - 1], q.sourceDevId, now)
    ensures var sent := Sent(P, st, topic, data, q.sourceDevId, air).0.link.air;
      sent == st.link.air
      || exists x :: sent == st.link.air + [ToBytes(x)] && x.destDevId == q.sourceDevId && x.nextHopId == q.lastHopId
  {
    hide Routes.Updated, Routes.Sparing, Routes.NextHop, Routes.FindRoute, Sent, ToBytes, Value;
    SmallHopCount(q.hopCount);
    var r := Reception(q, rssi, at);
    Routes.LearnedRouteIsUsed(rs, tables, actions, r, now);
    SentTowardsRoute(P, st, topic, data, q.sourceDevId, air);
  }

  /** A packet for one station goes out towards the hop that the lookup gave, or towards none. */
  lemma SentTowardsRoute(P: Primitives, st: Station, topic: byte, data: seq<byte>, target: Id, air: Air)
    requires target != BROADCAST_ADDR
    ensures var sent := Sent(P, st, topic, data, target, air).0.link.air;
      sent == st.link.air
      || exists x :: sent == st.link.air + [ToBytes(x)] && x.destDevId == target
                     && x.nextHopId == if air.route.Some? then air.route.value else [0, 0, 0, 0]
  {
    var p := Originated(st.id, st.node.deviceType, target, air.packetId, topic, st.counter + 1, data);
    var counted := st.(counter := st.counter + 1, outgoing := p);
    FreshTarget(st, topic, data, target, air.packetId);
    hide Transmission, CanSend, ToBytes, Originated, RoutedAt;
    TransmissionHeader(P, Who(counted), air.route, p);
    RoutedAddsTransmission(P, counted, p, air);
    if CanSend(st.node, topic) && |data| <= MAX_DATA_LENGTH && Transmission(P, Who(counted), air.route, p).OnAir? {
      var x := Transmission(P, Who(counted), air.route, p).packet;
      assert x.destDevId == target && x.nextHopId == if air.route.Some? then air.route.value else [0, 0, 0, 0];
    }
  }

  lemma FreshTarget(st: Station, topic: byte, data: seq<byte>, target: Id, packetId: Id)
    ensures Originated(st.id, st.node.deviceType, target, packetId, topic, st.counter + 1, data).destDevId == target
  {
  }

  lemma RoutedAddsTransmission(P: Primitives, st: Station, p: Packet, air: Air)
    ensures var out := Transmission(P, Who(st), air.route, p);
      RoutedAt(P, st, p, air).0.link.air ==
      if out.OnAir? && air.radioRc == RM_E_NONE then st.link.air + [ToBytes(out.packet)] else st.link.air
  {
    hide Transmission, ToBytes, Tracker.AddTo;
  }

  lemma SmallHopCount(b: byte)
    requires b < 6
    ensures Value(b) < 6
  {
    ValueIsConversion(b);
  }
}
