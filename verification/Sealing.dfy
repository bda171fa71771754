/**
 What the payload of a packet is on air, transmission after transmission. A relay decrypts application
 payloads before it sends them on, and only those, while the router encrypts whatever it is handed; and
 encrypting twice is not encrypting at all.
 */
module Sealing {
  import opened Bytes
  import opened Errors
  import opened Definitions
  import opened Packet
  import opened AesCrypto
  import opened EncryptionService
  import opened MicService
  import opened DeviceStorage
  import opened InclusionController
  import opened PacketRouter
  import opened FailClosed
  import opened Device
  import opened Mesh
  import AesCmac
  import Crc32
  import Tracker = PacketTracker

  // ----- a packet after any number of transmissions -----

  /** The payload of `p` as its n-th transmission puts it on air. */
  function PayloadOnAir(P: Primitives, networkKey: seq<byte>, p: Packet, n: nat): (r: seq<byte>)
    ensures |r| == |p.packetData|
  {
    if IsApplicationMessage(p.topic) || n % 2 == 1 then Ctr(P, networkKey, ZeroIv(), p.packetData) else p.packetData
  }

  /** What a member makes of that payload, for its application and for the next transmission. */
  function PayloadHeard(P: Primitives, networkKey: seq<byte>, p: Packet, n: nat): seq<byte> {
    if IsApplicationMessage(p.topic) then p.packetData else PayloadOnAir(P, networkKey, p, n)
  }

  /** `q` is what the n-th transmission of `p` puts on air. */
  ghost predicate Transmitted(P: Primitives, networkKey: seq<byte>, p: Packet, q: Packet, n: nat) {
    var payload := PayloadOnAir(P, networkKey, p, n);
    && q == p.(hopCount := q.hopCount, packetCrc := Crc32.PacketCrc(p.fcounter, payload), lastHopId := q.lastHopId,
               nextHopId := q.nextHopId, reserved := [0, 0, 0], packetData := q.packetData)
    && Value(q.hopCount) == n && HasMic(q) && DataWithoutMic(q) == payload
    && ExtractMic(q) == AesCmac.Mic(P.blockCipher, networkKey, HeaderBytes(q) + payload)
  }

  /** For application packets these are the copies that the mesh carries. */
  lemma CopiesAreTransmissions(P: Primitives, networkKey: seq<byte>, p: Packet, q: Packet, n: nat)
    requires IsApplicationMessage(p.topic)
    ensures Transmitted(P, networkKey, p, q, n) <==> CopyOf(P, networkKey, p, q, n)
  {
    hide Ctr, Crc32.PacketCrc, HasMic, DataWithoutMic, ExtractMic, AesCmac.Mic, HeaderBytes, Value;
  }

  lemma PayloadGoesOn(P: Primitives, networkKey: seq<byte>, p: Packet, n: nat)
    ensures Ctr(P, networkKey, ZeroIv(), PayloadHeard(P, networkKey, p, n)) == PayloadOnAir(P, networkKey, p, n + 1)
  {
    CtrUndoesItself(P, networkKey, ZeroIv(), p.packetData);
    hide Ctr;
  }

  // ----- one transmission -----

  lemma KeyOfMember(P: Primitives, s: Sender, topic: byte)
    requires Sound(P) && !IsInclusionMessage(topic) && (s.state == INCLUDED || s.deviceType == HUB)
      && |s.ring.networkKey| == 32
    ensures MicKey(P, s.ring, topic, s.deviceType, s.state) == s.ring.networkKey
    ensures OpenKey(P, s.ring, topic, s.deviceType, s.state) == Some(s.ring.networkKey)
    ensures KeyFor(P, s, topic) == Some(s.ring.networkKey) && Guarded(s, topic)
  {
  }

  /** A packet as a member hands it to its router after `n` transmissions. */
  ghost predicate Pending(P: Primitives, networkKey: seq<byte>, p: Packet, x: Packet, n: nat) {
    && x == p.(hopCount := x.hopCount, packetCrc := x.packetCrc, lastHopId := x.lastHopId, nextHopId := x.nextHopId,
               reserved := x.reserved, packetData := x.packetData)
    && Value(x.hopCount) == n
    && Ctr(P, networkKey, ZeroIv(), x.packetData) == PayloadOnAir(P, networkKey, p, n + 1)
  }

  lemma NextTransmission(P: Primitives, st: Station, networkKey: seq<byte>, route: Option<Id>, p: Packet, x: Packet,
                         n: nat)
    requires Sound(P) && Shares(st, networkKey) && |networkKey| == 32 && !IsInclusionMessage(p.topic)
    requires |p.packetData| <= MAX_DATA_LENGTH && |x.packetData| == |p.packetData|
    requires Pending(P, networkKey, p, x, n)
    ensures var out := Transmission(P, Who(st), route, x);
      && (out.OnAir? <==> n < 7)
      && (out.OnAir? ==> Transmitted(P, networkKey, p, out.packet, n + 1) && out.packet.lastHopId == st.id)
  {
    var s := Who(st);
    HopCounts(x.hopCount);
    KeyOfMember(P, s, p.topic);
    SendingFailsClosed(P, s, route, x);
    FrameIsSealed(P, s, route, x);
    ForwardedKeeps(x, s.id, route);
    FrameCrc(P, s, route, x);
    hide Transmission, Frame, Forwarded, KeyFor, Guarded, Ctr, PayloadOnAir, HeaderBytes, HasMic, DataWithoutMic,
      ExtractMic, AesCmac.Mic, Crc32.PacketCrc, Value;
  }

  /** A member that does not count it as seen finds it genuine and makes that of its payload. */
  lemma TransmittedIsGenuine(P: Primitives, st: Station, networkKey: seq<byte>, p: Packet, q: Packet, n: nat)
    requires Sound(P) && Shares(st, networkKey) && |networkKey| == 32 && !IsInclusionMessage(p.topic)
    requires Transmitted(P, networkKey, p, q, n) && !Seen(st.link.recency, q)
    ensures var v := Judged(P, Who(st), st.link.recency, q);
      v.Genuine? && v.packet.topic == q.topic
      && Plain(P, Who(st), v.packet) == q.(packetData := PayloadHeard(P, networkKey, p, n))
  {
    var s := Who(st);
    CtrUndoesItself(P, networkKey, ZeroIv(), p.packetData);
    KeyOfMember(P, s, p.topic);
    hide Seen, Ctr, HeaderBytes, ExtractMic, DataWithoutMic, AesCmac.Mic, Crc32.PacketCrc, MicKey, OpenKey, Value,
      HasMic, KeyFor;
    var x := q.(packetData := PayloadOnAir(P, networkKey, p, n));
    assert RequiresMic(q.topic) && q.topic == p.topic && Stripped(q) == x;
    assert Judged(P, s, st.link.recency, q) == Genuine(x);
  }

  /** So a relay's next transmission of it is the next one of the packet. */
  lemma RelaysNext(P: Primitives, st: Station, networkKey: seq<byte>, p: Packet, q: Packet, n: nat, route: Option<Id>)
    requires Sound(P) && Shares(st, networkKey) && |networkKey| == 32 && !IsInclusionMessage(p.topic)
    requires |p.packetData| <= MAX_DATA_LENGTH && Transmitted(P, networkKey, p, q, n)
    ensures var out := Transmission(P, Who(st), route, q.(packetData := PayloadHeard(P, networkKey, p, n)));
      && (out.OnAir? <==> n < 7)
      && (out.OnAir? ==> Transmitted(P, networkKey, p, out.packet, n + 1) && out.packet.lastHopId == st.id)
  {
    var x := q.(packetData := PayloadHeard(P, networkKey, p, n));
    PayloadGoesOn(P, networkKey, p, n);
    hide Ctr, Crc32.PacketCrc, HasMic, DataWithoutMic, ExtractMic, AesCmac.Mic, HeaderBytes, Value, Shares,
      Transmission;
    NextTransmission(P, st, networkKey, route, p, x, n);
  }

  // ----- whole chains -----

  /** What a member does with any packet that is no inclusion message and passes its checks. */
  lemma GenuineAtMember(P: Primitives, st: Station, q: Packet, x: Packet, env: Env, air: Air)
    requires !IsInclusionMessage(q.topic)
    requires var v := Judged(P, Who(st), st.link.recency, q);
      v.Genuine? && v.packet.topic == q.topic && Plain(P, Who(st), v.packet) == x
    ensures var after := Received(P, st, q, env, air).0;
      var out := Transmission(P, Who(st), air.route, x);
      && after.delivered == st.delivered + [x]
      && after.link.air == if Relays(st, x) && out.OnAir? && air.radioRc == RM_E_NONE
                           then st.link.air + [ToBytes(out.packet)] else st.link.air
  {
    hide Judged, Plain, Transmission, Tracker.AddTo, Tracker.FindIn, ToBytes, Acted;
  }

  lemma NotGenuineIsDropped(P: Primitives, st: Station, q: Packet, env: Env, air: Air)
    requires !Judged(P, Who(st), st.link.recency, q).Genuine?
    ensures Received(P, st, q, env, air).0.link.air == st.link.air
    ensures Received(P, st, q, env, air).0.delivered == st.delivered
  {
    hide Judged, Tracker.FindIn;
  }

  /** Whatever a member puts on air for the n-th transmission is the next one. */
  lemma CarriesNext(P: Primitives, networkKey: seq<byte>, p: Packet, hop: Hop, q: Packet, n: nat)
    returns (next: Packet)
    requires Sound(P) && |networkKey| == 32 && !IsInclusionMessage(p.topic) && |p.packetData| <= MAX_DATA_LENGTH
    requires Transmitted(P, networkKey, p, q, n) && Shares(hop.station, networkKey)
    requires |ToBytes(q)| >= HEADER_LENGTH && Carried(P, hop, ToBytes(q)).Some?
    ensures Carried(P, hop, ToBytes(q)) == Some(ToBytes(next)) && n < 7
    ensures Transmitted(P, networkKey, p, next, n + 1)
  {
    var st := hop.station;
    ParseOfToBytes(q);
    assert q.topic == p.topic;
    hide Transmitted, Judged, Plain, Received, Transmission, Shares, Relays, Seen, ToBytes, Parse, PayloadHeard;
    NotSeenIfGenuine(P, st, q);
    if Judged(P, Who(st), st.link.recency, q).Genuine? {
      TransmittedIsGenuine(P, st, networkKey, p, q, n);
      var x := q.(packetData := PayloadHeard(P, networkKey, p, n));
      GenuineAtMember(P, st, q, x, hop.env, hop.air);
      RelaysNext(P, st, networkKey, p, q, n, hop.air.route);
      next := Transmission(P, Who(st), hop.air.route, x).packet;
    } else {
      NotGenuineIsDropped(P, st, q, hop.env, hop.air);
    }
  }

  lemma NotSeenIfGenuine(P: Primitives, st: Station, q: Packet)
    ensures Judged(P, Who(st), st.link.recency, q).Genuine? ==> !Seen(st.link.recency, q)
  {
    hide Seen, MicHolds, Crc32.PacketCrc, DataWithoutMic;
  }

  ghost predicate Members(hops: seq<Hop>, networkKey: seq<byte>) {
    forall h :: h in hops ==> Shares(h.station, networkKey)
  }

  /**
   In every chain of members, whatever they know and whatever their radios and routes do, what comes out
   of it is the packet after one more transmission for each of them.
   */
  lemma {:induction false} JourneyIsTransmitted(P: Primitives, networkKey: seq<byte>, p: Packet, hops: seq<Hop>,
                                                q: Packet, n: nat) returns (last: Packet)
    requires Sound(P) && |networkKey| == 32 && !IsInclusionMessage(p.topic) && |p.packetData| <= MAX_DATA_LENGTH
    requires Transmitted(P, networkKey, p, q, n) && n <= 7 && Members(hops, networkKey)
    requires Journey(P, hops, ToBytes(q)).Some?
    ensures Journey(P, hops, ToBytes(q)) == Some(ToBytes(last)) && n + |hops| <= 7
    ensures Transmitted(P, networkKey, p, last, n + |hops|)
    decreases |hops|
  {
    hide Transmitted, Carried, Shares, ToBytes;
    if hops == [] {
      last := q;
    } else {
      var next := CarriesNext(P, networkKey, p, hops[0], q, n);
      last := JourneyIsTransmitted(P, networkKey, p, hops[1..], next, n + 1);
    }
  }

  lemma OriginTransmitsFirst(P: Primitives, origin: Station, networkKey: seq<byte>, topic: byte, data: seq<byte>,
                             target: Id, air: Air) returns (q: Packet)
    requires Sound(P) && |networkKey| == 32 && Shares(origin, networkKey) && air.radioRc == RM_E_NONE
    requires !IsInclusionMessage(topic) && |data| <= MAX_DATA_LENGTH
    ensures var (sent, rc) := Sent(P, origin, topic, data, target, air);
      rc == RM_E_NONE && sent.link.air == origin.link.air + [ToBytes(q)]
    ensures Transmitted(P, networkKey, PacketFrom(origin, topic, data, target, air), q, 1) && q.lastHopId == origin.id
  {
    var p := PacketFrom(origin, topic, data, target, air);
    var counted := origin.(counter := origin.counter + 1, outgoing := p);
    MemberIsRouted(P, origin, networkKey, topic, data, target, air);
    FreshIsPending(P, networkKey, origin, topic, data, target, air);
    hide Transmitted, Pending, Transmission, RoutedAt, Sent, PacketFrom, ToBytes, Shares;
    NextTransmission(P, counted, networkKey, air.route, p, p, 0);
    OnAirIsTaken(P, counted, p, air);
    q := Transmission(P, Who(counted), air.route, p).packet;
  }

  lemma FreshIsPending(P: Primitives, networkKey: seq<byte>, origin: Station, topic: byte, data: seq<byte>, target: Id,
                       air: Air)
    ensures var p := PacketFrom(origin, topic, data, target, air);
      p.topic == topic && p.packetData == data && Pending(P, networkKey, p, p, 0)
  {
    hide Ctr;
  }

  /**
   The payload on air. A member sends a packet of any topic but the inclusion ones; whatever any chain of
   members makes of it, the buffer at its end carries the payload encrypted once if the topic is an
   application's or the number of transmissions odd, and the payload as it was sent if not.
   */
  lemma PayloadThroughEveryChain(P: Primitives, origin: Station, networkKey: seq<byte>, topic: byte, data: seq<byte>,
                                 target: Id, air: Air, hops: seq<Hop>) returns (last: Packet)
    requires Sound(P) && |networkKey| == 32 && Shares(origin, networkKey) && air.radioRc == RM_E_NONE
    requires !IsInclusionMessage(topic) && |data| <= MAX_DATA_LENGTH && Members(hops, networkKey)
    ensures var (sent, rc) := Sent(P, origin, topic, data, target, air);
      && rc == RM_E_NONE && |sent.link.air| == |origin.link.air| + 1
      && var arrived := Journey(P, hops, sent.link.air[|origin.link.air|]);
      arrived.Some? ==>
        && arrived.value == ToBytes(last) && HasMic(last) && Value(last.hopCount) == 1 + |hops| <= 7
        && DataWithoutMic(last) == (if IsApplicationMessage(topic) || |hops| % 2 == 0
                                    then Ctr(P, networkKey, ZeroIv(), data) else data)
        && ExtractMic(last) == AesCmac.Mic(P.blockCipher, networkKey, HeaderBytes(last) + DataWithoutMic(last))
  {
    var p := PacketFrom(origin, topic, data, target, air);
    FreshIsPending(P, networkKey, origin, topic, data, target, air);
    hide Journey, Sent, Shares, Members, PacketFrom, ToBytes, Pending, HasMic, DataWithoutMic, ExtractMic, AesCmac.Mic,
      HeaderBytes, Crc32.PacketCrc, Ctr, Value;
    var q := OriginTransmitsFirst(P, origin, networkKey, topic, data, target, air);
    last := q;
    if Journey(P, hops, ToBytes(q)).Some? {
      last := JourneyIsTransmitted(P, networkKey, p, hops, q, 1);
      assert (1 + |hops|) % 2 == 1 <==> |hops| % 2 == 0;
    }
  }

  // ----- exactly when it is ciphertext -----

  /** One relay that has not seen the packet makes the next transmission. */
  lemma RelayTransmits(P: Primitives, st: Station, networkKey: seq<byte>, p: Packet, q: Packet, n: nat, env: Env,
                       air: Air) returns (next: Packet)
    requires Sound(P) && |networkKey| == 32 && !IsInclusionMessage(p.topic) && |p.packetData| <= MAX_DATA_LENGTH
    requires Transmitted(P, networkKey, p, q, n) && n < 7 && Shares(st, networkKey)
    requires IsRelay(st, p.destDevId, air) && !Seen(st.link.recency, q)
    ensures Received(P, st, q, env, air).0.link.air == st.link.air + [ToBytes(next)]
    ensures Transmitted(P, networkKey, p, next, n + 1)
  {
    assert q.topic == p.topic && q.destDevId == p.destDevId;
    hide Transmitted, Judged, Plain, Received, Transmission, Shares, Seen, ToBytes, PayloadHeard;
    TransmittedIsGenuine(P, st, networkKey, p, q, n);
    var x := q.(packetData := PayloadHeard(P, networkKey, p, n));
    GenuineAtMember(P, st, q, x, env, air);
    RelaysNext(P, st, networkKey, p, q, n, air.route);
    next := Transmission(P, Who(st), air.route, x).packet;
  }

  /**
   Clear text on air. A member sends a packet of a reserved topic, say 0x04: any member that relays and
   has not seen it puts the payload on air as it was handed to `sendData`, under a MIC that verifies.
   */
  lemma RelayedReservedIsClear(P: Primitives, origin: Station, networkKey: seq<byte>, topic: byte, data: seq<byte>,
                               target: Id, air: Air, st: Station, env: Env, relayed: Air)
    returns (first: Packet, second: Packet)
    requires Sound(P) && |networkKey| == 32 && Shares(origin, networkKey) && air.radioRc == RM_E_NONE
    requires !IsInclusionMessage(topic) && !IsApplicationMessage(topic) && |data| <= MAX_DATA_LENGTH
    requires Shares(st, networkKey) && IsRelay(st, target, relayed)
    ensures Sent(P, origin, topic, data, target, air).0.link.air == origin.link.air + [ToBytes(first)]
    ensures DataWithoutMic(first) == Ctr(P, networkKey, ZeroIv(), data)
    ensures !Seen(st.link.recency, first) ==>
      && Received(P, st, first, env, relayed).0.link.air == st.link.air + [ToBytes(second)]
      && HasMic(second) && DataWithoutMic(second) == data
      && ExtractMic(second) == AesCmac.Mic(P.blockCipher, networkKey, HeaderBytes(second) + data)
  {
    var p := PacketFrom(origin, topic, data, target, air);
    FreshIsPending(P, networkKey, origin, topic, data, target, air);
    assert p.destDevId == target;
    hide Received, Sent, Shares, PacketFrom, ToBytes, Pending, HasMic, DataWithoutMic, ExtractMic, AesCmac.Mic,
      HeaderBytes, Crc32.PacketCrc, Ctr, Value, Seen, IsRelay;
    first := OriginTransmitsFirst(P, origin, networkKey, topic, data, target, air);
    second := first;
    if !Seen(st.link.recency, first) {
      second := RelayTransmits(P, st, networkKey, p, first, 1, env, relayed);
    }
  }

  /** What any chain of members puts on air for the packet first sent as `first` is its payload encrypted once. */
  ghost predicate StaysSealed(P: Primitives, networkKey: seq<byte>, p: Packet, first: Packet) {
    forall hops: seq<Hop>, buffer: seq<byte> {:trigger Arrives(P, networkKey, hops, first, buffer)} ::
      Arrives(P, networkKey, hops, first, buffer) ==>
        |buffer| >= HEADER_LENGTH && DataWithoutMic(Parse(buffer)) == Ctr(P, networkKey, ZeroIv(), p.packetData)
  }

  ghost predicate Arrives(P: Primitives, networkKey: seq<byte>, hops: seq<Hop>, first: Packet, buffer: seq<byte>) {
    Members(hops, networkKey) && Journey(P, hops, ToBytes(first)) == Some(buffer)
  }

  /** A member that relays and has not seen the packet: what its tracker holds for the id is another CRC. */
  function SomeRelay(networkKey: seq<byte>, q: Packet): Hop {
    var node := Node(STANDARD, INCLUDED, false, PROTOCOL_IDLE, 0, [], [], Memory(map[], map[]),
                     NO_KEYS.(networkKey := networkKey));
    var id: Id := if q.destDevId == NO_ID then BROADCAST_ADDR else NO_ID;
    Hop(Station(id, true, node, Link([], [Tracker.Entry(Key(q), q.packetCrc + 1)]), 0, EMPTY, []),
        Env(0, [], NoRoom), Air(NO_ID, None, RM_E_NONE))
  }

  lemma SomeRelayRelays(networkKey: seq<byte>, q: Packet)
    requires |networkKey| == 32
    ensures var hop := SomeRelay(networkKey, q);
      Shares(hop.station, networkKey) && IsRelay(hop.station, q.destDevId, hop.air)
      && !Seen(hop.station.link.recency, q)
  {
  }

  /**
   Every transmission of every chain is ciphertext if and only if the topic is an application's, which a
   caller can check before sending. The one other way is a payload that the cipher does not change at
   all, the empty one for instance.
   */
  lemma SealedIffApplicationMessage(P: Primitives, networkKey: seq<byte>, p: Packet, first: Packet)
    requires Sound(P) && |networkKey| == 32 && !IsInclusionMessage(p.topic) && |p.packetData| <= MAX_DATA_LENGTH
    requires Transmitted(P, networkKey, p, first, 1)
    ensures StaysSealed(P, networkKey, p, first) <==>
            IsApplicationMessage(p.topic) || Ctr(P, networkKey, ZeroIv(), p.packetData) == p.packetData
  {
    hide Journey, Members, ToBytes, Parse, HasMic, DataWithoutMic, ExtractMic, AesCmac.Mic, HeaderBytes, Ctr,
      Crc32.PacketCrc, Value;
    if IsApplicationMessage(p.topic) || Ctr(P, networkKey, ZeroIv(), p.packetData) == p.packetData {
      forall hops: seq<Hop>, buffer: seq<byte> | Arrives(P, networkKey, hops, first, buffer)
        ensures |buffer| >= HEADER_LENGTH
        ensures DataWithoutMic(Parse(buffer)) == Ctr(P, networkKey, ZeroIv(), p.packetData)
      {
        var last := JourneyIsTransmitted(P, networkKey, p, hops, first, 1);
        BytesParse(last);
      }
    } else {
      var second := SecondArrives(P, networkKey, p, first);
      BytesParse(second);
      assert Arrives(P, networkKey, [SomeRelay(networkKey, first)], first, ToBytes(second));
    }
  }

  lemma BytesParse(q: Packet)
    ensures |ToBytes(q)| >= HEADER_LENGTH && Parse(ToBytes(q)) == q
  {
    ParseOfToBytes(q);
    hide Parse;
  }

  lemma SecondArrives(P: Primitives, networkKey: seq<byte>, p: Packet, first: Packet) returns (second: Packet)
    requires Sound(P) && |networkKey| == 32 && !IsInclusionMessage(p.topic) && |p.packetData| <= MAX_DATA_LENGTH
    requires Transmitted(P, networkKey, p, first, 1)
    ensures Arrives(P, networkKey, [SomeRelay(networkKey, first)], first, ToBytes(second))
    ensures Transmitted(P, networkKey, p, second, 2)
  {
    var hop := SomeRelay(networkKey, first);
    assert first.destDevId == p.destDevId;
    SomeRelayRelays(networkKey, first);
    BytesParse(first);
    hide Transmitted, Received, Shares, IsRelay, Seen, ToBytes, Parse, SomeRelay, Carried, Arrives;
    second := RelayTransmits(P, hop.station, networkKey, p, first, 1, hop.env, hop.air);
    AddedIsCarried(P, hop, first, ToBytes(second));
    ArrivesInOneHop(P, networkKey, hop, first, ToBytes(second));
  }

  lemma AddedIsCarried(P: Primitives, hop: Hop, q: Packet, next: seq<byte>)
    requires |ToBytes(q)| >= HEADER_LENGTH && Parse(ToBytes(q)) == q
    requires Received(P, hop.station, q, hop.env, hop.air).0.link.air == hop.station.link.air + [next]
    ensures Carried(P, hop, ToBytes(q)) == Some(next)
  {
    hide Received, ToBytes, Parse;
  }

  lemma ArrivesInOneHop(P: Primitives, networkKey: seq<byte>, hop: Hop, q: Packet, next: seq<byte>)
    requires Shares(hop.station, networkKey) && |ToBytes(q)| >= HEADER_LENGTH
    requires Carried(P, hop, ToBytes(q)) == Some(next)
    ensures Arrives(P, networkKey, [hop], q, next)
  {
    hide Carried, Shares, ToBytes;
    assert [hop][1..] == [] && Journey(P, [], next) == Some(next);
  }

  /**
   What the application of a member gets of the n-th transmission: always the payload as sent if the topic
   is an application's; otherwise exactly if `n` is even or the cipher does not change the payload.
   */
  lemma DeliveredAsSentIff(P: Primitives, st: Station, networkKey: seq<byte>, p: Packet, q: Packet, n: nat, env: Env,
                           air: Air)
    requires Sound(P) && |networkKey| == 32 && !IsInclusionMessage(p.topic) && Shares(st, networkKey)
    requires Transmitted(P, networkKey, p, q, n) && !Seen(st.link.recency, q)
    ensures var got := Received(P, st, q, env, air).0.delivered;
      && |got| == |st.delivered| + 1 && got[..|st.delivered|] == st.delivered
      && (got[|st.delivered|].packetData == p.packetData <==>
          IsApplicationMessage(p.topic) || n % 2 == 0 || Ctr(P, networkKey, ZeroIv(), p.packetData) == p.packetData)
  {
    assert q.topic == p.topic;
    TransmittedIsGenuine(P, st, networkKey, p, q, n);
    hide Transmitted, Judged, Plain, Received, Transmission, Shares, Seen, ToBytes, Ctr;
    GenuineAtMember(P, st, q, q.(packetData := PayloadHeard(P, networkKey, p, n)), env, air);
  }
}
