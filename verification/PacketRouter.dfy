/** Sending and relaying: the steps of `routePacket` on one packet copy, and the tracker behind them. */
module PacketRouter {
  import opened Bytes
  import opened Errors
  import opened Definitions
  import opened Packet
  import opened AesCrypto
  import opened EncryptionService
  import opened MicService
  import Crc32
  import Tracker = PacketTracker
  import Routes = RoutingTable

  const MAX_HOPS: byte := 7
  const TRACKER_CAPACITY := 50

  // ----- the specification: what goes on air for a packet -----

  /** The node a packet is sent from: its identity, role and keys, and the key its AES instance holds. */
  datatype Sender = Sender(
    id: Id, deviceType: MeshDeviceType, state: DeviceInclusionState,
    ring: KeyRing, loadedKey: seq<byte>)

  datatype Outcome = Refused(rc: int) | OnAir(packet: Packet)

  function Key(p: Packet): u32 {
    FromBigEndian(p.packetId)
  }

  /** One more hop, through us, towards `route` if it is known and not a broadcast. */
  function Forwarded(p: Packet, us: Id, route: Option<Id>): Packet {
    p.(lastHopId := us, hopCount := p.hopCount + 1, reserved := [0, 0, 0],
       nextHopId := if p.destDevId == BROADCAST_ADDR then p.nextHopId
                    else if route.Some? then route.value else NO_ID)
  }

  /** Only a packet for one station is looked up. */
  function LookedUp(rs: seq<Routes.RouteEntry>, dest: Id, now: nat): Option<Id> {
    if dest == BROADCAST_ADDR then None else Routes.NextHop(rs, dest, now)
  }

  /** The lookup switches off a route it finds too old. */
  function RoutesAfter(rs: seq<Routes.RouteEntry>, dest: Id, now: nat): seq<Routes.RouteEntry> {
    if dest == BROADCAST_ADDR then rs else Routes.Retired(rs, dest, now)
  }

  function Sealed(P: Primitives, ring: KeyRing, loaded: seq<byte>, deviceType: MeshDeviceType,
                  state: DeviceInclusionState, p: Packet): Packet {
    if p.topic == INCLUDE_OPEN || p.packetData == [] then p
    else p.(packetData := Crypted(P, SealKey(P, ring, p.topic, deviceType, state), loaded, p.packetData))
  }

  function Summed(p: Packet): Packet {
    p.(packetCrc := Crc32.PacketCrc(p.fcounter, p.packetData))
  }

  function Authenticated(P: Primitives, ring: KeyRing, deviceType: MeshDeviceType, state: DeviceInclusionState,
                         p: Packet): Outcome {
    if !RequiresMic(p.topic) then OnAir(p)
    else
      var mic := PacketMic(P, ring, HeaderBytes(p), p.packetData, p.topic, deviceType, state);
      if mic == [] then Refused(RM_E_AUTH_FAILED) else OnAir(WithMic(p, mic))
  }

  /** The packet `routePacket` hands to the radio for `p`, or why it does not. */
  function Transmission(P: Primitives, s: Sender, route: Option<Id>, p: Packet): Outcome {
    if p.hopCount >= MAX_HOPS then Refused(RM_E_MAX_HOPS)
    else
      var q := Sealed(P, s.ring, s.loadedKey, s.deviceType, s.state, Forwarded(p, s.id, route));
      Authenticated(P, s.ring, s.deviceType, s.state, Summed(q))
  }

  /** What `routePacket` leaves behind: the buffers the radio took, in order, and the tracker's entries. */
  datatype Link = Link(air: seq<seq<byte>>, recency: seq<Tracker.Entry<u32, u32>>)

  /** A packet is on air and tracked, with the CRC it was sent with, or there is no trace of it. */
  function Routed(P: Primitives, s: Sender, route: Option<Id>, p: Packet, radioRc: int, l: Link): (Link, int) {
    var out := Transmission(P, s, route, p);
    if out.Refused? then (l, out.rc)
    else if radioRc != RM_E_NONE then (l, radioRc)
    else (Link(l.air + [ToBytes(out.packet)], Tracker.AddTo(TRACKER_CAPACITY, l.recency, Key(p), out.packet.packetCrc)),
          RM_E_NONE)
  }

  // ----- the code -----

  class PacketRouter {
    const P: Primitives
    const packetTracker: Tracker.PacketTracker<u32, u32>
    const routingTable: Routes.RoutingTable
    const encryptionService: EncryptionService
    const micService: MicService
    var air: seq<seq<byte>>        // the buffers the radio accepted, in order

    ghost predicate Valid()
      reads this, packetTracker, routingTable, routingTable.routes
    {
      && packetTracker.Valid() && packetTracker.capacity == TRACKER_CAPACITY
      && routingTable.Valid()
      && Wired()
    }

    ghost predicate Wired() {
      && encryptionService.P == P && encryptionService.aesCrypto.P == P && Sound(P)
      && micService.encryptionService == encryptionService
    }

    ghost function View(): Link
      reads this, packetTracker
    {
      Link(air, packetTracker.Recency())
    }

    /** What `routePacket` reads of the node. */
    ghost function From(us: Id, deviceType: MeshDeviceType, state: DeviceInclusionState): Sender
      reads encryptionService, encryptionService.aesCrypto
    {
      Sender(us, deviceType, state, encryptionService.Ring(), encryptionService.aesCrypto.key)
    }

    /** The keys for this topic can be used: the AES key can be loaded, and CMAC knows the MIC key's size. */
    ghost predicate Ready(topic: byte, deviceType: MeshDeviceType, state: DeviceInclusionState)
      reads encryptionService, encryptionService.aesCrypto
    {
      && encryptionService.Usable(SealKey(P, encryptionService.Ring(), topic, deviceType, state))
      && |MicKey(P, encryptionService.Ring(), topic, deviceType, state)| != 24
    }

    /** The router with the services `initialize` gives it. */
    constructor (encryption: EncryptionService, mic: MicService, routes: Routes.RoutingTable)
      requires routes.Valid() && encryption.Valid() && mic.encryptionService == encryption
      ensures Valid() && P == encryption.P && routingTable == routes && fresh(packetTracker)
      ensures encryptionService == encryption && micService == mic && View() == Link([], [])
    {
      P, routingTable, encryptionService, micService, air := encryption.P, routes, encryption, mic, [];
      packetTracker := new Tracker.PacketTracker(TRACKER_CAPACITY);
    }

    method CheckMaxHops(packetCopy: RadioMeshPacket) returns (reached: bool)
      ensures reached <==> packetCopy.hopCount >= MAX_HOPS
    {
      reached := packetCopy.hopCount >= MAX_HOPS;
    }

    method UpdateLastHopId(packetCopy: RadioMeshPacket, ourDeviceId: Id)
      modifies packetCopy
      ensures packetCopy.Fields() == old(packetCopy.Fields()).(lastHopId := ourDeviceId,
        hopCount := old(packetCopy.hopCount) + 1)
    {
      packetCopy.lastHopId := ourDeviceId;
      packetCopy.hopCount := packetCopy.hopCount + 1;
    }

    /** Looks the route up only for packets that are not broadcast. */
    method RouteToNextHop(packetCopy: RadioMeshPacket, now: nat) returns (ghost route: Option<Id>)
      requires Valid()
      modifies packetCopy, routingTable.routes
      ensures Valid()
      ensures var p := old(packetCopy.Fields());
        && route == LookedUp(old(routingTable.routes[..]), p.destDevId, now)
        && packetCopy.Fields() == p.(nextHopId := if p.destDevId == BROADCAST_ADDR then p.nextHopId
                                                  else if route.Some? then route.value else [0, 0, 0, 0])
        && routingTable.routes[..] == RoutesAfter(old(routingTable.routes[..]), p.destDevId, now)
    {
      route := None;
      if packetCopy.destDevId != BROADCAST_ADDR {
        var found, nextHop := routingTable.FindNextHop(packetCopy.destDevId, now);
        if found {
          packetCopy.nextHopId := nextHop;
          route := Some(nextHop);
        } else {
          packetCopy.nextHopId := NO_ID;
        }
      }
    }

    method EncryptPacketData(packetCopy: RadioMeshPacket, deviceType: MeshDeviceType, state: DeviceInclusionState)
      requires Wired() && Ready(packetCopy.topic, deviceType, state) && packetCopy.topic != INCLUDE_OPEN
      modifies packetCopy, encryptionService.aesCrypto
      ensures packetCopy.Fields() == Sealed(P, encryptionService.Ring(), old(encryptionService.aesCrypto.key),
        deviceType,
                                            state, old(packetCopy.Fields()))
      ensures packetCopy.topic == old(packetCopy.topic)
    {
      if |packetCopy.packetData| == 0 {
        return;
      }
      var data := encryptionService.Encrypt(packetCopy.packetData, packetCopy.topic, deviceType, state);
      packetCopy.packetData := data;
    }

    method CalculatePacketCrc(packetCopy: RadioMeshPacket)
      modifies packetCopy
      ensures packetCopy.Fields() == Summed(old(packetCopy.Fields())) && packetCopy.topic == old(packetCopy.topic)
    {
      var crc32 := new Crc32.CRC32();
      crc32.Update32(packetCopy.fcounter);
      if |packetCopy.packetData| > 0 {
        crc32.UpdateBytes(packetCopy.packetData);
      }
      Crc32.StreamSplits(Crc32.INITIAL, Crc32.LittleEndian(packetCopy.fcounter), packetCopy.packetData);
      var crc := crc32.Finalize();
      packetCopy.packetCrc := crc;
    }

    method ComputeAndAppendMIC(packetCopy: RadioMeshPacket, deviceType: MeshDeviceType, state: DeviceInclusionState)
      returns (rc: int)
      requires Wired() && |MicKey(P, encryptionService.Ring(), packetCopy.topic, deviceType, state)| != 24
      modifies packetCopy
      ensures var out := Authenticated(P, encryptionService.Ring(), deviceType, state, old(packetCopy.Fields()));
        if out.Refused? then rc == out.rc && rc != RM_E_NONE
        else rc == RM_E_NONE && packetCopy.Fields() == out.packet
    {
      if packetCopy.topic == INCLUDE_OPEN || packetCopy.topic == INCLUDE_REQUEST {
        return RM_E_NONE;
      }
      var mic := micService.ComputePacketMIC(HeaderBytes(packetCopy.Fields()), packetCopy.packetData, packetCopy.topic,
                                             deviceType, state);
      if mic == [] {
        return RM_E_AUTH_FAILED;
      }
      packetCopy.AppendMIC(mic);
      return RM_E_NONE;
    }

    /** `radioRc` is what the radio answers. */
    method SendPacket(packetCopy: RadioMeshPacket, radioRc: int) returns (rc: int)
      modifies `air
      ensures rc == radioRc
      ensures air == if rc == RM_E_NONE then old(air) + [ToBytes(packetCopy.Fields())] else old(air)
    {
      if radioRc == RM_E_NONE {
        air := air + [ToBytes(packetCopy.Fields())];
      }
      return radioRc;
    }

    method TrackPacket(packetCopy: RadioMeshPacket, key: u32)
      requires Valid()
      modifies packetTracker
      ensures Valid()
      ensures packetTracker.Recency() ==
              Tracker.AddTo(TRACKER_CAPACITY, old(packetTracker.Recency()), key, packetCopy.packetCrc)
    {
      packetTracker.AddEntry(key, packetCopy.packetCrc);
    }

    /** The header of the next transmission. */
    method ForwardPacket(packetCopy: RadioMeshPacket, ourDeviceId: Id, now: nat) returns (ghost route: Option<Id>)
      requires Valid()
      modifies packetCopy, routingTable.routes
      ensures Valid()
      ensures packetCopy.Fields() == Forwarded(old(packetCopy.Fields()), ourDeviceId, route)
      ensures route == LookedUp(old(routingTable.routes[..]), old(packetCopy.destDevId), now)
      ensures routingTable.routes[..] == RoutesAfter(old(routingTable.routes[..]), old(packetCopy.destDevId), now)
      ensures packetCopy.topic == old(packetCopy.topic)
    {
      UpdateLastHopId(packetCopy, ourDeviceId);
      route := RouteToNextHop(packetCopy, now);
      packetCopy.reserved := [0, 0, 0];
    }

    /** From the header to the MIC: everything `routePacket` does to its copy. */
    method PreparePacket(packetCopy: RadioMeshPacket, ourDeviceId: Id, deviceType: MeshDeviceType,
                         state: DeviceInclusionState, now: nat) returns (rc: int, ghost route: Option<Id>)
      requires Valid() && packetCopy.hopCount < MAX_HOPS && Ready(packetCopy.topic, deviceType, state)
      modifies packetCopy, routingTable.routes, encryptionService.aesCrypto
      ensures Valid()
      ensures var out := Transmission(P, old(From(ourDeviceId, deviceType, state)), route, old(packetCopy.Fields()));
        if out.Refused? then rc == out.rc && rc != RM_E_NONE
        else rc == RM_E_NONE && packetCopy.Fields() == out.packet
      ensures route == LookedUp(old(routingTable.routes[..]), old(packetCopy.destDevId), now)
      ensures routingTable.routes[..] == RoutesAfter(old(routingTable.routes[..]), old(packetCopy.destDevId), now)
    {
      hide RoutesAfter, Forwarded, Sealed, Summed, Authenticated, SealKey, MicKey, LookedUp;
      route := ForwardPacket(packetCopy, ourDeviceId, now);
      OpenIsNotSealed(P, encryptionService.Ring(), encryptionService.aesCrypto.key, deviceType, state,
        packetCopy.Fields());
      if packetCopy.topic != INCLUDE_OPEN {
        EncryptPacketData(packetCopy, deviceType, state);
      }
      CalculatePacketCrc(packetCopy);
      rc := ComputeAndAppendMIC(packetCopy, deviceType, state);
    }

    method RoutePacket(packet: RadioMeshPacket, ourDeviceId: Id, deviceType: MeshDeviceType,
        state: DeviceInclusionState,
                       now: nat, radioRc: int) returns (rc: int, ghost route: Option<Id>)
      requires Valid() && Ready(packet.topic, deviceType, state)
      modifies `air, packetTracker, routingTable.routes, encryptionService.aesCrypto
      ensures Valid()
      ensures (View(), rc) ==
              Routed(P, old(From(ourDeviceId, deviceType, state)), route, old(packet.Fields()), radioRc, old(View()))
      ensures packet.hopCount < MAX_HOPS ==> route == LookedUp(old(routingTable.routes[..]), packet.destDevId, now)
      ensures routingTable.routes[..] == if packet.hopCount < MAX_HOPS
        then RoutesAfter(old(routingTable.routes[..]), packet.destDevId, now) else old(routingTable.routes[..])
    {
      hide RoutesAfter, Transmission, SealKey, MicKey, LookedUp, ToBytes, Tracker.AddTo, FromBigEndian;
      TooManyHops(P, From(ourDeviceId, deviceType, state), packet.Fields());
      route := None;
      var packetCopy := new RadioMeshPacket.CopyOf(packet);
      var key := FromBigEndian(packetCopy.packetId);
      var reached := CheckMaxHops(packetCopy);
      if reached {
        return RM_E_MAX_HOPS, route;
      }
      var micResult;
      micResult, route := PreparePacket(packetCopy, ourDeviceId, deviceType, state, now);
      if micResult != RM_E_NONE {
        return micResult, route;
      }
      rc := SendAndTrack(packetCopy, key, radioRc);
    }

    /** The end of `routePacket`: only a packet the radio took is tracked. */
    method SendAndTrack(packetCopy: RadioMeshPacket, key: u32, radioRc: int) returns (rc: int)
      requires Valid()
      modifies `air, packetTracker
      ensures Valid() && rc == radioRc
      ensures View() == var l := old(View());
        if radioRc != RM_E_NONE then l
        else Link(l.air + [ToBytes(packetCopy.Fields())],
                  Tracker.AddTo(TRACKER_CAPACITY, l.recency, key, packetCopy.packetCrc))
    {
      hide ToBytes, Tracker.AddTo;
      rc := SendPacket(packetCopy, radioRc);
      if rc == RM_E_NONE {
        TrackPacket(packetCopy, key);
      }
    }

    /** Already transmitted, or an unknown packet whose CRC happens to be 0. */
    method IsPacketFoundInTracker(packet: RadioMeshPacket) returns (found: bool)
      requires Valid()
      modifies packetTracker
      ensures Valid()
      ensures found <==> Seen(old(View()).recency, packet.Fields())
      ensures View() == old(View()).(recency := Tracker.FindIn(old(View()).recency, Key(packet.Fields())))
    {
      var key := FromBigEndian(packet.packetId);
      var foundValue := packetTracker.FindOrDefault(key, 0);
      found := foundValue == packet.packetCrc;
    }
  }

  /**
   What goes on air of a packet, whatever its topic: one hop more, through this station, to the next hop
   the table gave, none if it gave none, and unchanged for a broadcast; the rest of the header as it was.
   */
  lemma TransmissionHeader(P: Primitives, s: Sender, route: Option<Id>, p: Packet)
    ensures var out := Transmission(P, s, route, p);
      && (out.Refused? && out.rc == RM_E_MAX_HOPS <==> p.hopCount >= 7)
      && (out.OnAir? ==>
            out.packet == p.(hopCount := p.hopCount + 1, lastHopId := s.id, reserved := [0, 0, 0],
                             nextHopId := if p.destDevId == [0xFF, 0xFF, 0xFF, 0xFF] then p.nextHopId
                                          else if route.Some? then route.value else [0, 0, 0, 0],
                             packetCrc := out.packet.packetCrc, packetData := out.packet.packetData))
  {
    hide Sealed, Summed, Authenticated;
    var f := Forwarded(p, s.id, route);
    StepsKeepHeader(P, s, f);
    StepsKeepHeader(P, s, Sealed(P, s.ring, s.loadedKey, s.deviceType, s.state, f));
    StepsKeepHeader(P, s, Summed(Sealed(P, s.ring, s.loadedKey, s.deviceType, s.state, f)));
  }

  lemma StepsKeepHeader(P: Primitives, s: Sender, p: Packet)
    ensures var q := Sealed(P, s.ring, s.loadedKey, s.deviceType, s.state, p); q == p.(packetData := q.packetData)
    ensures Summed(p) == p.(packetCrc := Summed(p).packetCrc)
    ensures var out := Authenticated(P, s.ring, s.deviceType, s.state, p);
      if out.OnAir? then out.packet == p.(packetData := out.packet.packetData) else out.rc == RM_E_AUTH_FAILED
  {
    hide Crypted, SealKey, PacketMic, HeaderBytes, Crc32.PacketCrc;
  }

  /** A packet the radio takes is on air and tracked with its CRC, whatever it is; any other leaves no trace. */
  lemma RoutedIsTracked(P: Primitives, s: Sender, route: Option<Id>, p: Packet, radioRc: int, l: Link)
    ensures var (after, rc) := Routed(P, s, route, p, radioRc, l);
      var out := Transmission(P, s, route, p);
      if out.OnAir? && radioRc == RM_E_NONE then
        && rc == RM_E_NONE && after.air == l.air + [ToBytes(out.packet)]
        && Tracker.Holds(after.recency, FromBigEndian(p.packetId))
        && Tracker.ValueOr(after.recency, FromBigEndian(p.packetId), 0) == out.packet.packetCrc
      else after == l && rc == if out.OnAir? then radioRc else out.rc
  {
    hide Transmission, ToBytes, FromBigEndian;
  }

  lemma TooManyHops(P: Primitives, s: Sender, p: Packet)
    ensures forall route {:trigger Transmission(P, s, route, p)} ::
              p.hopCount >= MAX_HOPS ==> Transmission(P, s, route, p) == Refused(RM_E_MAX_HOPS)
  {
    hide Forwarded, Sealed, Summed, Authenticated;
  }

  lemma OpenIsNotSealed(P: Primitives, ring: KeyRing, loaded: seq<byte>, deviceType: MeshDeviceType,
                        state: DeviceInclusionState, p: Packet)
    ensures p.topic == INCLUDE_OPEN ==> Sealed(P, ring, loaded, deviceType, state, p) == p
  {
  }

  /** The tracker's answer to "already seen". */
  predicate Seen(recency: seq<Tracker.Entry<u32, u32>>, p: Packet) {
    Tracker.ValueOr(recency, Key(p), 0) == p.packetCrc
  }
}
