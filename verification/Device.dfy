/** The device: what it sends, what it makes of a received buffer, and its run loop. */
module Device {
  import opened Bytes
  import opened Clock
  import opened Errors
  import opened Definitions
  import opened Packet
  import opened AesCrypto
  import opened EncryptionService
  import opened MicService
  import opened DeviceStorage
  import opened EepromStorage
  import opened InclusionController
  import opened PacketRouter
  import AesCmac
  import Crc32
  import Tracker = PacketTracker
  import Routes = RoutingTable

  // ----- the specification: sending -----

  /** The packet `sendData` fills in. */
  function Originated(id: Id, deviceType: MeshDeviceType, target: Id, packetId: Id, topic: byte, fcounter: u32,
                      data: seq<byte>): Packet {
    Packet(RM_PROTOCOL_VERSION, id, target, packetId, topic, deviceType.Code(), 0, 0, fcounter, id, BROADCAST_ADDR,
           [0, 0, 0], data)
  }

  /**
   A device as a value: its inclusion state, its link, its frame counter, the packet it filled in last
   and what the application was given.
   */
  datatype Station = Station(
    id: Id, relayEnabled: bool, node: Node, link: Link, counter: u32, outgoing: Packet, delivered: seq<Packet>)

  /** The station as the router knows it; what its AES instance held before does not matter. */
  function Who(st: Station): Sender {
    Sender(st.id, st.node.deviceType, st.node.state, st.node.ring, [])
  }

  /** What the surroundings supply to one packet sent: a random id, the route found, the radio's answer. */
  datatype Air = Air(packetId: Id, route: Option<Id>, radioRc: int)

  function RoutedAt(P: Primitives, st: Station, p: Packet, air: Air): (Station, int) {
    var (l, rc) := Routed(P, Who(st), air.route, p, air.radioRc, st.link);
    (st.(link := l), rc)
  }

  function Sent(P: Primitives, st: Station, topic: byte, data: seq<byte>, target: Id, air: Air): (Station, int) {
    if !CanSend(st.node, topic) then (st, RM_E_DEVICE_NOT_INCLUDED)
    else if |data| > MAX_DATA_LENGTH then (st, RM_E_PACKET_TOO_LONG)
    else
      var p := Originated(st.id, st.node.deviceType, target, air.packetId, topic, st.counter + 1, data);
      RoutedAt(P, st.(counter := st.counter + 1, outgoing := p), p, air)
  }

  /** What becomes of the last act of a handler. */
  function Acted(P: Primitives, st: Station, t: Turn, air: Air): (Station, int) {
    var next := st.(node := t.node);
    match t.action
    case Return(rc) => (next, rc)
    case SendData(topic, payload) => Sent(P, next, topic, payload, BROADCAST_ADDR, air)
  }

  // ----- the specification: receiving -----

  predicate IsInclusionMessage(topic: byte) {
    INCLUDE_REQUEST <= topic <= INCLUDE_SUCCESS
  }

  predicate IsApplicationMessage(topic: byte) {
    topic > MAX_RESERVED
  }

  /** What the checks make of a packet; a genuine one goes on without its MIC. */
  datatype Verdict = AlreadySeen | Corrupted | Forged | Genuine(packet: Packet)

  function Stripped(p: Packet): Packet {
    if RequiresMic(p.topic) then p.(packetData := DataWithoutMic(p)) else p
  }

  predicate MicHolds(P: Primitives, s: Sender, p: Packet) {
    RequiresMic(p.topic) ==>
      HasMic(p) && Verified(P, s.ring, HeaderBytes(p), DataWithoutMic(p), ExtractMic(p), p.topic, s.deviceType, s.state)
  }

  function Judged(P: Primitives, s: Sender, recency: seq<Tracker.Entry<u32, u32>>, p: Packet): Verdict {
    if Seen(recency, p) then AlreadySeen
    else if Crc32.PacketCrc(p.fcounter, DataWithoutMic(p)) != p.packetCrc then Corrupted
    else if !MicHolds(P, s, p) then Forged
    else Genuine(Stripped(p))
  }

  function RejectionCode(v: Verdict): int
    requires !v.Genuine?
  {
    match v
    case AlreadySeen => RM_E_NONE
    case Corrupted => RM_E_PACKET_CORRUPTED
    case Forged => RM_E_AUTH_FAILED
  }

  /** A packet as the routing table hears it. */
  function Reception(p: Packet, rssi: int, now: nat): Routes.Reception {
    Routes.Reception(p.sourceDevId, p.lastHopId, Value(p.hopCount), Routes.Narrowed(rssi), now)
  }

  /**
   The table after a genuine packet: it has taken up the reception, and passing the packet on may have
   switched off the route to where it goes.
   */
  ghost predicate Learned(rs: seq<Routes.RouteEntry>, rs': seq<Routes.RouteEntry>, r: Routes.Reception, dest: Id) {
    exists learned :: Routes.Updated(rs, learned, r) && (rs' == learned || rs' == RoutesAfter(learned, dest, r.at))
  }

  /** The packet the application sees: inclusion and application payloads are decrypted, reserved ones are not. */
  function Plain(P: Primitives, s: Sender, p: Packet): Packet {
    if IsInclusionMessage(p.topic) || IsApplicationMessage(p.topic)
    then p.(packetData := Crypted(P, OpenKey(P, s.ring, p.topic, s.deviceType, s.state), s.loadedKey, p.packetData))
    else p
  }

  /** Only a standard device with relaying on passes a packet on, and never one that is for it. */
  predicate Relays(st: Station, p: Packet) {
    st.node.deviceType == STANDARD && st.relayEnabled && p.destDevId != st.id
  }

  /** The application's callback is given a packet. */
  function Told(st: Station, p: Packet): Station {
    st.(delivered := st.delivered + [p])
  }

  /** A genuine packet: the inclusion handler, or the relay, and in any case the application. */
  function Processed(P: Primitives, st: Station, p: Packet, env: Env, air: Air): (Station, int) {
    var q := Plain(P, Who(st), p);
    if IsInclusionMessage(p.topic) then
      var (next, rc) := Acted(P, st, Handled(P, st.node, q.topic, q.packetData, env), air);
      (Told(next, q), rc)
    else if Relays(st, q) then RoutedAt(P, Told(st, q), q, air)
    else (Told(st, q), RM_E_NONE)
  }

  /** One received packet; one that fails a check leaves no trace but the use of its tracker entry. */
  function Received(P: Primitives, st: Station, p: Packet, env: Env, air: Air): (Station, int) {
    var checked := st.(link := st.link.(recency := Tracker.FindIn(st.link.recency, Key(p))));
    var v := Judged(P, Who(st), st.link.recency, p);
    if v.Genuine? then Processed(P, checked, v.packet, env, air) else (checked, RejectionCode(v))
  }

  /** Who does not relay: a hub, a device with its relay switched off, and the station a packet is for. */
  lemma OthersDoNotRelay(P: Primitives, st: Station, p: Packet, env: Env, air: Air)
    requires p.topic < 0x06 || p.topic > 0x0A
    requires st.node.deviceType != STANDARD || !st.relayEnabled || p.destDevId == st.id
    ensures Received(P, st, p, env, air).0.link.air == st.link.air
  {
    GenuineKeepsHeader(P, Who(st), st.link.recency, p);
    hide Judged, Crypted, OpenKey, Tracker.FindIn, RoutedAt, Acted, Handled;
  }

  // ----- with keys of 32 bytes, what the AES instance held before does not matter -----

  lemma LoadedKeyDoesNotMatter(P: Primitives, s: Sender, loaded: seq<byte>, route: Option<Id>, p: Packet)
    requires Sound(P) && Keys32(s.ring)
    ensures Transmission(P, s, route, p) == Transmission(P, s.(loadedKey := loaded), route, p)
    ensures Plain(P, s, p) == Plain(P, s.(loadedKey := loaded), p)
  {
    hide Authenticated, Summed, Ctr;
  }

  lemma RoutedAlike(P: Primitives, s: Sender, loaded: seq<byte>, route: Option<Id>, p: Packet, radioRc: int, l: Link)
    requires Sound(P) && Keys32(s.ring)
    ensures Routed(P, s, route, p, radioRc, l) == Routed(P, s.(loadedKey := loaded), route, p, radioRc, l)
  {
    hide Transmission;
    LoadedKeyDoesNotMatter(P, s, loaded, route, p);
  }

  lemma HandledKeeps32(P: Primitives, n: Node, topic: byte, payload: seq<byte>, env: Env)
    requires Keys32(n.ring) && Shaped(n.memory.ram)
    ensures Keys32(Handled(P, n, topic, payload, env).node.ring)
  {
  }

  lemma ConfiguredKeeps32(P: Primitives, n: Node)
    requires Keys32(n.ring) && Shaped(n.memory.ram)
    ensures Keys32(Configured(P, n).ring)
  {
    hide Keys32, Shaped, WithDeviceKeys, WithStoredNetworkKey;
    DeviceKeysKeep32(P, n);
    NetworkKeyKeeps32(n);
    NetworkKeyKeeps32(WithDeviceKeys(P, n));
    assert WithDeviceKeys(P, n).memory == n.memory by { DeviceKeysKeepMemory(P, n); }
  }

  lemma DeviceKeysKeepMemory(P: Primitives, n: Node)
    ensures WithDeviceKeys(P, n).memory == n.memory
  {
  }

  lemma DeviceKeysKeep32(P: Primitives, n: Node)
    requires Keys32(n.ring) && Shaped(n.memory.ram)
    ensures Keys32(WithDeviceKeys(P, n).ring)
  {
  }

  lemma NetworkKeyKeeps32(n: Node)
    requires Keys32(n.ring)
    ensures Shaped(n.memory.ram) ==> Keys32(WithStoredNetworkKey(n).ring)
  {
  }

  lemma Keys32IsReady(P: Primitives, s: Sender, topic: byte)
    requires Sound(P) && Keys32(s.ring)
    ensures var seal := SealKey(P, s.ring, topic, s.deviceType, s.state); seal.Some? ==> |seal.value| == AES_KEY_SIZE
    ensures var open := OpenKey(P, s.ring, topic, s.deviceType, s.state); open.Some? ==> |open.value| == AES_KEY_SIZE
    ensures |MicKey(P, s.ring, topic, s.deviceType, s.state)| in {0, 32}
  {
  }

  lemma OpenKeepsRing(P: Primitives, n: Node, clock: nat)
    ensures Opened(P, n, clock).node.ring == n.ring
  {
  }

  lemma CheckKeepsRing(n: Node, clock: nat)
    ensures forall o :: Checked(n, clock, o).ring == n.ring
  {
  }

  // ----- the code -----

  type RadioError = rc: int | rc != RM_E_NONE witness 1

  /** What the radio has received when the loop asks; it fails in receiving or in handing the buffer over. */
  datatype Radio = Quiet | Failed(rc: RadioError) | Heard(buffer: seq<byte>, rssi: int)

  class RadioMeshDevice {
    const id: Id
    const deviceType: MeshDeviceType
    const router: PacketRouter
    const encryptionService: EncryptionService
    const micService: MicService
    const eepromStorage: EEPROMStorage
    const txPacket: RadioMeshPacket
    var inclusionController: InclusionController
    var relayEnabled: bool
    var packetCounter: u32
    var delivered: seq<Packet>     // the packets the application's receive callback was given, in order
    var errors: seq<int>           // the errors it was given instead of a packet
    var confirmations: seq<(Packet, int)>    // what its send callback was given: a packet and the radio's error

    ghost predicate Valid()
      reads `inclusionController, router, router.packetTracker, router.routingTable, router.routingTable.routes,
            encryptionService, inclusionController, eepromStorage, eepromStorage.buf
    {
      && router.Valid() && router.encryptionService == encryptionService && router.micService == micService
      && inclusionController.encryptionService == encryptionService
      && inclusionController.storage.storage == eepromStorage
      && inclusionController.Valid() && inclusionController.deviceType == deviceType
      && Keys32(encryptionService.Ring())
      && eepromStorage.buf as object != router.routingTable.routes as object
    }

    /**
     A device and, as `initialize` makes it, its inclusion controller, on a store that has begun. Keys
     are made where flash has none; `garbage` is what memory held where the controller leaves its state unset.
     */
    constructor (id: Id, deviceType: MeshDeviceType, storage: DeviceStorage, router: PacketRouter,
                 privateKey: seq<byte>, networkKey: seq<byte>, garbage: DeviceInclusionState, first: Eeprom,
                 second: Eeprom)
      requires router.Valid() && storage.Valid() && Keys32(router.encryptionService.Ring())
      requires |privateKey| == KEY_SIZE && |networkKey| == KEY_SIZE
      requires storage.storage.buf as object != router.routingTable.routes as object
      modifies storage.storage, storage.storage.buf
      ensures Valid() && this.router == router && inclusionController.storage == storage && fresh(inclusionController)
      ensures errors == [] && confirmations == []
      ensures State() == Station(id, false, State().node, router.View(), 0, EMPTY, [])
      ensures State().node == Constructed(router.P, deviceType, old(storage.Mem()), router.encryptionService.Ring(),
                                          BirthOf(router.P, old(storage.Free()), old(storage.Mem()), privateKey,
                                                  networkKey, garbage, first.commitOk, second.commitOk))
    {
      hide Constructed, BirthOf, Keys32, DeviceStorage.Valid, Tracker.PacketTracker.Valid,
        Routes.RoutingTable.Valid, InclusionController.Valid, Sound;
      this.id, this.deviceType, this.router := id, deviceType, router;
      encryptionService, micService, eepromStorage := router.encryptionService, router.micService, storage.storage;
      txPacket := new RadioMeshPacket();
      relayEnabled, packetCounter, delivered, errors, confirmations := false, 0, [], [], [];
      inclusionController := new InclusionController(deviceType, storage, router.encryptionService,
                                                     privateKey, networkKey, garbage, first, second);
    }

    /** The rest of `initialize`: the keys go from storage into the encryption service. */
    method Configure()
      requires Valid()
      modifies encryptionService, encryptionService.aesCrypto
      ensures Valid() && State() == old(State()).(node := Configured(router.P, old(State()).node))
    {
      hide Configured, Keys32, Shaped, EncryptionService.Valid, DeviceStorage.Valid, PacketRouter.Valid;
      MemoryIsShaped();
      ConfiguredKeeps32(router.P, State().node);
      inclusionController.Configure();
    }

    /** A failed commit leaves the storage cleared in RAM only, and everything else as it was. */
    method FactoryReset(commitOk: bool, privateKey: seq<byte>, networkKey: seq<byte>, garbage: DeviceInclusionState,
                        first: Eeprom, second: Eeprom) returns (rc: int)
      requires Valid() && |privateKey| == KEY_SIZE && |networkKey| == KEY_SIZE
      modifies `packetCounter, `inclusionController, eepromStorage, eepromStorage.buf
      ensures Valid() && rc == if commitOk then RM_E_NONE else RM_E_STORAGE_WRITE_FAILED
      ensures !commitOk ==>
        State() == var st := old(State()); st.(node := st.node.(memory := st.node.memory.(ram := map[])))
      ensures commitOk ==>
        && State() == old(State()).(counter := 0, node := State().node)
        && State().node == Constructed(router.P, deviceType, Memory(map[], map[]), encryptionService.Ring(),
                                       BirthOf(router.P, eepromStorage.buf.Length - 8, Memory(map[], map[]), privateKey,
                                               networkKey, garbage, first.commitOk, second.commitOk))
    {
      hide Constructed, BirthOf, Keys32, Valid, State;
      rc := ClearStorage(commitOk);
      if rc != RM_E_NONE {
        return;
      }
      StartAnew(privateKey, networkKey, garbage, first, second);
    }

    /** The frame counter at zero and a new controller on a storage that has been cleared. */
    method StartAnew(privateKey: seq<byte>, networkKey: seq<byte>, garbage: DeviceInclusionState, first: Eeprom,
                     second: Eeprom)
      requires Valid() && |privateKey| == KEY_SIZE && |networkKey| == KEY_SIZE
      modifies `packetCounter, `inclusionController, eepromStorage, eepromStorage.buf
      ensures Valid() && State() == old(State()).(counter := 0, node := State().node)
      ensures State().node == Constructed(router.P, deviceType, old(State()).node.memory, encryptionService.Ring(),
                                          BirthOf(router.P, old(eepromStorage.Free()), old(State()).node.memory,
                                                  privateKey, networkKey, garbage, first.commitOk, second.commitOk))
    {
      hide Constructed, BirthOf, Keys32, EncryptionService.Valid, DeviceStorage.Valid, PacketRouter.Valid;
      MemoryIsShaped();
      packetCounter := 0;
      inclusionController := new InclusionController(deviceType, inclusionController.storage, encryptionService,
                                                     privateKey, networkKey, garbage, first, second);
    }

    method ClearStorage(commitOk: bool) returns (rc: int)
      requires Valid()
      modifies eepromStorage, eepromStorage.buf
      ensures Valid() && rc == if commitOk then RM_E_NONE else RM_E_STORAGE_WRITE_FAILED
      ensures State() == var st := old(State());
        st.(node := st.node.(memory := Memory(map[], if commitOk then map[] else st.node.memory.flash)))
      ensures eepromStorage.Free() == eepromStorage.buf.Length - 8
    {
      hide Keys32, EncryptionService.Valid, PacketRouter.Valid, PacketRouter.View, RadioMeshPacket.Fields;
      rc := eepromStorage.Clear(commitOk);
    }

    ghost function State(): Station
      reads `relayEnabled, `inclusionController, `packetCounter, `delivered, txPacket, inclusionController,
            inclusionController.storage.storage, inclusionController.encryptionService, router, router.packetTracker
    {
      Station(id, relayEnabled, inclusionController.View(), router.View(), packetCounter, txPacket.Fields(), delivered)
    }

    method FillTxPacket(topic: byte, data: seq<byte>, target: Id, packetId: Id)
      modifies txPacket
      ensures txPacket.Fields() == Originated(id, deviceType, target, packetId, topic, packetCounter, data)
      ensures txPacket.hopCount == 0 && txPacket.destDevId == target
    {
      hide Valid, State;
      txPacket.Reset();
      txPacket.topic, txPacket.sourceDevId, txPacket.destDevId, txPacket.deviceType := topic, id, target,
        deviceType.Code();
      txPacket.packetId, txPacket.hopCount, txPacket.fcounter := packetId, 0, packetCounter;
      txPacket.lastHopId, txPacket.nextHopId, txPacket.packetData := id, BROADCAST_ADDR, data;
    }

    lemma Identity()
      requires Valid()
      ensures State().id == id && State().node.deviceType == deviceType && State().relayEnabled == relayEnabled
    {
      hide Keys32, InclusionController.Valid, EncryptionService.Valid, DeviceStorage.Valid, PacketRouter.Valid;
    }

    /** The next frame counter, in the next packet. */
    method StartPacket(topic: byte, data: seq<byte>, target: Id, packetId: Id)
      requires Valid()
      modifies `packetCounter, txPacket
      ensures Valid() && packetCounter == old(packetCounter) + 1
      ensures txPacket.hopCount == 0 && txPacket.destDevId == target
      ensures var st := old(State());
        var p := Originated(st.id, st.node.deviceType, target, packetId, topic, st.counter + 1, data);
        State() == st.(counter := st.counter + 1, outgoing := p) && txPacket.Fields() == p
    {
      hide Originated, Keys32, InclusionController.Valid, EncryptionService.Valid, DeviceStorage.Valid,
        PacketRouter.Valid, PacketRouter.View, RadioMeshPacket.Fields;
      packetCounter := packetCounter + 1;
      FillTxPacket(topic, data, target, packetId);
    }

    method CanSendMessage(topic: byte) returns (allowed: bool)
      requires Valid()
      ensures allowed == CanSend(State().node, topic)
    {
      hide CanSend, Keys32, EncryptionService.Valid, DeviceStorage.Valid, PacketRouter.Valid, PacketRouter.View;
      allowed := inclusionController.CanSendMessage(topic);
    }

    /** With keys of 32 bytes every key a topic can ask for can be used. */
    lemma KeysAreReady(topic: byte)
      requires Valid()
      ensures router.Ready(topic, deviceType, inclusionController.state) && Sound(router.P)
      ensures encryptionService.Valid() && encryptionService.P == router.P && Keys32(encryptionService.Ring())
      ensures
        encryptionService.Usable(
          OpenKey(router.P, encryptionService.Ring(), topic, deviceType, inclusionController.state))
      ensures router.encryptionService == encryptionService && micService.encryptionService == encryptionService
      ensures |MicKey(router.P, encryptionService.Ring(), topic, deviceType, inclusionController.state)| != 24
    {
      Keys32IsReady(router.P, Who(State()), topic);
      hide SealKey, OpenKey, MicKey;
    }

    /** `routePacket` with this device's identity, role and state. */
    method Route(packet: RadioMeshPacket, ghost packetId: Id, now: nat, radioRc: int)
      returns (rc: int, ghost route: Option<Id>)
      requires Valid()
      modifies router`air, router.packetTracker, router.routingTable.routes, encryptionService.aesCrypto
      ensures Valid()
      ensures (State(), rc) == RoutedAt(router.P, old(State()), packet.Fields(), Air(packetId, route, radioRc))
      ensures packet.hopCount < MAX_HOPS ==>
        route == LookedUp(old(router.routingTable.routes[..]), packet.destDevId, now)
      ensures router.routingTable.routes[..] == if packet.hopCount < MAX_HOPS
        then RoutesAfter(old(router.routingTable.routes[..]), packet.destDevId, now)
        else old(router.routingTable.routes[..])
    {
      hide RoutesAfter, Routed, LookedUp, Keys32, Sound, SealKey, OpenKey, MicKey, Crypted, PacketRouter.Ready,
        EncryptionService.Usable;
      hide InclusionController.Valid, EncryptionService.Valid, DeviceStorage.Valid, PacketRouter.Valid;
      ghost var loaded, l, s := encryptionService.aesCrypto.key, router.View(), Who(State());
      KeysAreReady(packet.topic);
      rc, route := router.RoutePacket(packet, id, deviceType, inclusionController.state, now, radioRc);
      RoutedAlike(router.P, s, loaded, route, packet.Fields(), radioRc, l);
    }

    method SendData(topic: byte, data: seq<byte>, target: Id, packetId: Id, now: nat, radioRc: int)
      returns (rc: int, ghost route: Option<Id>)
      requires Valid()
      modifies `packetCounter, txPacket, router`air, router.packetTracker, router.routingTable.routes,
        encryptionService.aesCrypto
      ensures Valid()
      ensures (State(), rc) == Sent(router.P, old(State()), topic, data, target, Air(packetId, route, radioRc))
      ensures packetCounter != old(packetCounter) ==>
        route == LookedUp(old(router.routingTable.routes[..]), target, now)
      ensures router.routingTable.routes[..] == if packetCounter != old(packetCounter)
        then RoutesAfter(old(router.routingTable.routes[..]), target, now) else old(router.routingTable.routes[..])
    {
      hide RoutesAfter, LookedUp, RoutedAt, CanSend, Originated, Valid, State, RadioMeshPacket.Fields;
      route := None;
      var allowed := CanSendMessage(topic);
      if !allowed {
        return RM_E_DEVICE_NOT_INCLUDED, route;
      }
      if |data| > MAX_DATA_LENGTH {
        return RM_E_PACKET_TOO_LONG, route;
      }
      StartPacket(topic, data, target, packetId);
      rc, route := Route(txPacket, packetId, now, radioRc);
    }

    // ----- receiving -----

    method IsReceivedDataCrcValid(receivedPacket: RadioMeshPacket) returns (valid: bool)
      ensures var p := receivedPacket.Fields(); valid <==> Crc32.PacketCrc(p.fcounter, DataWithoutMic(p)) == p.packetCrc
    {
      hide DataWithoutMic;
      var crc32 := new Crc32.CRC32();
      crc32.Update32(receivedPacket.fcounter);
      var dataForCrc := DataWithoutMic(receivedPacket.Fields());
      if |dataForCrc| > 0 {
        crc32.UpdateBytes(dataForCrc);
      }
      Crc32.StreamSplits(Crc32.INITIAL, Crc32.LittleEndian(receivedPacket.fcounter), dataForCrc);
      var computed := crc32.Finalize();
      crc32.Reset();
      valid := computed == receivedPacket.packetCrc;
    }

    method VerifyAndStripReceivedPacketMIC(receivedPacket: RadioMeshPacket) returns (valid: bool)
      requires Valid() && receivedPacket != txPacket
      modifies receivedPacket
      ensures Valid() && State() == old(State())
      ensures valid <==> MicHolds(router.P, Who(State()), old(receivedPacket.Fields()))
      ensures var p := old(receivedPacket.Fields()); receivedPacket.Fields() == if valid then Stripped(p) else p
    {
      hide Verified, Keys32, Sound, MicKey, DataWithoutMic, ExtractMic, HeaderBytes, InclusionController.Valid,
        EncryptionService.Valid, DeviceStorage.Valid, PacketRouter.Valid, PacketRouter.Ready, EncryptionService.Usable,
        OpenKey;
      if receivedPacket.topic == INCLUDE_OPEN || receivedPacket.topic == INCLUDE_REQUEST {
        return true;
      }
      if !HasMic(receivedPacket.Fields()) {
        return false;
      }
      var receivedMic := ExtractMic(receivedPacket.Fields());
      var payloadWithoutMic := DataWithoutMic(receivedPacket.Fields());
      var header := HeaderBytes(receivedPacket.Fields());
      KeysAreReady(receivedPacket.topic);
      valid := micService.VerifyPacketMIC(header, payloadWithoutMic, receivedMic, receivedPacket.topic, deviceType,
                                          inclusionController.state);
      if valid {
        receivedPacket.packetData := payloadWithoutMic;
      }
    }

    method FindInTracker(receivedPacket: RadioMeshPacket) returns (found: bool)
      requires Valid()
      modifies router.packetTracker
      ensures Valid()
      ensures var p, st := receivedPacket.Fields(), old(State());
        && (found <==> Seen(st.link.recency, p))
        && State() == st.(link := st.link.(recency := Tracker.FindIn(st.link.recency, Key(p))))
    {
      hide Seen, Tracker.FindIn, Key, Keys32, InclusionController.Valid, InclusionController.View,
        EncryptionService.Valid, DeviceStorage.Valid, PacketRouter.Valid, RadioMeshPacket.Fields;
      found := router.IsPacketFoundInTracker(receivedPacket);
    }

    /** The three checks, in their order; only the tracker's recency changes. */
    method Judge(receivedPacket: RadioMeshPacket) returns (verdict: Verdict)
      requires Valid() && receivedPacket != txPacket
      modifies receivedPacket, router.packetTracker
      ensures Valid()
      ensures var p, st := old(receivedPacket.Fields()), old(State());
        && verdict == Judged(router.P, Who(st), st.link.recency, p)
        && State() == st.(link := st.link.(recency := Tracker.FindIn(st.link.recency, Key(p))))
        && (verdict.Genuine? ==> receivedPacket.Fields() == verdict.packet)
    {
      hide MicHolds, Stripped, Seen, DataWithoutMic, Valid, State, Tracker.FindIn, Key;
      var found := FindInTracker(receivedPacket);
      if found {
        return AlreadySeen;
      }
      var crcValid := IsReceivedDataCrcValid(receivedPacket);
      if !crcValid {
        return Corrupted;
      }
      var micValid := VerifyAndStripReceivedPacketMIC(receivedPacket);
      if !micValid {
        return Forged;
      }
      return Genuine(receivedPacket.Fields());
    }

    method DecryptPayload(receivedPacket: RadioMeshPacket)
      requires Valid() && receivedPacket != txPacket
      modifies receivedPacket, encryptionService.aesCrypto
      ensures Valid() && State() == old(State())
      ensures IsInclusionMessage(old(receivedPacket.topic)) || IsApplicationMessage(old(receivedPacket.topic)) ==>
        receivedPacket.Fields() == Plain(router.P, Who(State()), old(receivedPacket.Fields()))
    {
      hide Keys32, Sound, OpenKey, Crypted, PacketRouter.Ready, EncryptionService.Usable, Transmission,
        IsInclusionMessage, IsApplicationMessage;
      hide InclusionController.Valid, EncryptionService.Valid, DeviceStorage.Valid, PacketRouter.Valid;
      ghost var s := Who(State());
      ghost var loaded := encryptionService.aesCrypto.key;
      KeysAreReady(receivedPacket.topic);
      LoadedKeyDoesNotMatter(router.P, s, loaded, None, receivedPacket.Fields());
      var data := encryptionService.Decrypt(receivedPacket.packetData, receivedPacket.topic, deviceType,
        inclusionController.state);
      receivedPacket.packetData := data;
    }

    lemma MemoryIsShaped()
      requires Valid()
      ensures Shaped(State().node.memory.ram) && Keys32(State().node.ring) && inclusionController.P == router.P
    {
      hide Keys32, Shaped;
    }

    /** The handler, then its last act. */
    method Act(topic: byte, payload: seq<byte>, now: nat, random: seq<byte>, replyId: Id, radioRc: int, eeprom: Eeprom)
      returns (rc: int, ghost o: WriteOutcome, ghost route: Option<Id>)
      requires Valid() && |random| == NONCE_SIZE
      modifies `packetCounter, txPacket, router`air, router.packetTracker, router.routingTable.routes,
               encryptionService, encryptionService.aesCrypto, inclusionController, eepromStorage, eepromStorage.buf
      ensures Valid() && inclusionController == old(inclusionController)
      ensures var t := Handled(router.P, old(State()).node, topic, payload, Env(Millis(now), random, o));
        (State(), rc) == Acted(router.P, old(State()), t, Air(replyId, route, radioRc))
      ensures o == OutcomeOf(old(eepromStorage.Free()), WriteSize(topic), eeprom.commitOk)
      ensures router.routingTable.routes[..] == old(router.routingTable.routes[..])
    {
      hide Sent, Handled, Keys32, Shaped, EncryptionService.Valid, DeviceStorage.Valid, PacketRouter.Valid;
      route := None;
      MemoryIsShaped();
      ghost var n := State().node;
      var action;
      action, o := inclusionController.HandleInclusionMessage(topic, payload, now, random, eeprom);
      HandledKeeps32(router.P, n, topic, payload, Env(Millis(now), random, o));
      match action {
        case Return(code) => rc := code;
        case SendData(replyTopic, data) => rc, route := SendData(replyTopic, data, BROADCAST_ADDR, replyId, now,
          radioRc);
      }
    }

    /** The application's callback. */
    method Deliver(packet: RadioMeshPacket)
      requires Valid()
      modifies `delivered
      ensures Valid() && State() == Told(old(State()), packet.Fields())
    {
      hide Keys32, InclusionController.Valid, InclusionController.View, EncryptionService.Valid, DeviceStorage.Valid,
        PacketRouter.Valid, PacketRouter.View;
      delivered := delivered + [packet.Fields()];
    }

    method HandleInclusion(receivedPacket: RadioMeshPacket, now: nat, random: seq<byte>, replyId: Id, radioRc: int,
        eeprom: Eeprom)
      returns (rc: int, ghost o: WriteOutcome, ghost route: Option<Id>)
      requires Valid() && |random| == NONCE_SIZE && receivedPacket != txPacket
        && IsInclusionMessage(receivedPacket.topic)
      modifies `packetCounter, `delivered, txPacket, receivedPacket, router`air, router.packetTracker,
               router.routingTable.routes, encryptionService, encryptionService.aesCrypto, inclusionController,
               eepromStorage, eepromStorage.buf
      ensures Valid() && inclusionController == old(inclusionController)
      ensures (State(), rc) ==
              Processed(router.P, old(State()), old(receivedPacket.Fields()), Env(Millis(now), random, o),
                        Air(replyId, route, radioRc))
      ensures o == OutcomeOf(old(eepromStorage.Free()), WriteSize(old(receivedPacket.topic)), eeprom.commitOk)
      ensures router.routingTable.routes[..] == old(router.routingTable.routes[..])
    {
      hide Acted, Handled, IsInclusionMessage, IsApplicationMessage, Plain, Valid, State;
      ghost var st, p := State(), receivedPacket.Fields();
      DecryptPayload(receivedPacket);
      ghost var q := Plain(router.P, Who(st), p);
      PlainKeepsHeader(router.P, Who(st), p);
      rc, o, route := Act(receivedPacket.topic, receivedPacket.packetData, now, random, replyId, radioRc, eeprom);
      Deliver(receivedPacket);
    }

    method HandleOther(receivedPacket: RadioMeshPacket, now: nat, ghost env: Env, ghost packetId: Id, radioRc: int)
      returns (rc: int, ghost route: Option<Id>)
      requires Valid() && receivedPacket != txPacket && !IsInclusionMessage(receivedPacket.topic)
      modifies `delivered, receivedPacket, router`air, router.packetTracker, router.routingTable.routes,
        encryptionService.aesCrypto
      ensures Valid()
      ensures (State(), rc) ==
              Processed(router.P, old(State()), old(receivedPacket.Fields()), env, Air(packetId, route, radioRc))
      ensures var rs, dest := old(router.routingTable.routes[..]), old(receivedPacket.destDevId);
        router.routingTable.routes[..] == rs || router.routingTable.routes[..] == RoutesAfter(rs, dest, now)
    {
      hide RoutesAfter;
      hide RoutedAt, IsInclusionMessage, IsApplicationMessage, Plain, Valid, State;
      route := None;
      ghost var st, p := State(), receivedPacket.Fields();
      PlainKeepsHeader(router.P, Who(st), p);
      if IsApplicationMessage(receivedPacket.topic) {
        DecryptPayload(receivedPacket);
      }
      Deliver(receivedPacket);
      rc, route := PassOn(receivedPacket, now, packetId, radioRc);
    }

    /** Only a standard device with relaying on routes a packet, and never one that is for it. */
    method PassOn(receivedPacket: RadioMeshPacket, now: nat, ghost packetId: Id, radioRc: int)
      returns (rc: int, ghost route: Option<Id>)
      requires Valid()
      modifies router`air, router.packetTracker, router.routingTable.routes, encryptionService.aesCrypto
      ensures Valid()
      ensures var st, p := old(State()), receivedPacket.Fields();
        (State(), rc) == if Relays(st, p) then RoutedAt(router.P, st, p, Air(packetId, route, radioRc))
                         else (st, RM_E_NONE)
      ensures var rs, dest := old(router.routingTable.routes[..]), receivedPacket.destDevId;
        router.routingTable.routes[..] == rs || router.routingTable.routes[..] == RoutesAfter(rs, dest, now)
    {
      hide RoutedAt, RoutesAfter, Valid, State;
      Identity();
      route := None;
      if deviceType == HUB || receivedPacket.destDevId == id {
        return RM_E_NONE, route;
      }
      if deviceType == STANDARD && relayEnabled {
        rc, route := Route(receivedPacket, packetId, now, radioRc);
        return;
      }
      return RM_E_NONE, route;
    }

    /** What follows the checks. */
    method Process(receivedPacket: RadioMeshPacket, rssi: int, now: nat, random: seq<byte>, replyId: Id,
        radioRc: int, eeprom: Eeprom)
      returns (rc: int, ghost o: WriteOutcome, ghost route: Option<Id>)
      requires Valid() && |random| == NONCE_SIZE && receivedPacket != txPacket
      modifies `packetCounter, `delivered, txPacket, receivedPacket, router`air, router.packetTracker,
        router.routingTable,
               router.routingTable.routes, encryptionService, encryptionService.aesCrypto, inclusionController,
               eepromStorage, eepromStorage.buf
      ensures Valid() && inclusionController == old(inclusionController)
      ensures router.routingTable.heard ==
              old(router.routingTable.heard) + {Reception(old(receivedPacket.Fields()), rssi, now)}
      ensures (State(), rc) ==
              Processed(router.P, old(State()), old(receivedPacket.Fields()), Env(Millis(now), random, o),
                        Air(replyId, route, radioRc))
      ensures o == OutcomeOf(old(eepromStorage.Free()), WriteSize(old(receivedPacket.topic)), eeprom.commitOk)
      ensures Learned(old(router.routingTable.routes[..]), router.routingTable.routes[..],
                      Reception(old(receivedPacket.Fields()), rssi, now), old(receivedPacket.destDevId))
    {
      hide Learned, RoutesAfter, Routes.Updated, Processed, Keys32, IsInclusionMessage, Reception;
      hide InclusionController.Valid, EncryptionService.Valid, DeviceStorage.Valid, PacketRouter.Valid;
      o := OutcomeOf(eepromStorage.Free(), WriteSize(receivedPacket.topic), eeprom.commitOk);
      UpdateRoute(receivedPacket, rssi, now);
      ghost var learned := router.routingTable.routes[..];
      if IsInclusionMessage(receivedPacket.topic) {
        rc, o, route := HandleInclusion(receivedPacket, now, random, replyId, radioRc, eeprom);
      } else {
        rc, route := HandleOther(receivedPacket, now, Env(Millis(now), random, o), replyId, radioRc);
      }
      TakenUp(old(router.routingTable.routes[..]), learned, router.routingTable.routes[..],
              old(receivedPacket.Fields()), rssi, now);
    }

    /** One received buffer: the checks, the routing table, then the application and the handler or the relay. */
    method HandleReceivedData(buffer: seq<byte>, rssi: int, now: nat, random: seq<byte>, replyId: Id, radioRc: int,
        eeprom: Eeprom)
      returns (rc: int, ghost o: WriteOutcome, ghost route: Option<Id>)
      requires Valid() && |random| == NONCE_SIZE && |buffer| >= HEADER_LENGTH
      modifies `packetCounter, `delivered, txPacket, router`air, router.packetTracker, router.routingTable,
               router.routingTable.routes, encryptionService, encryptionService.aesCrypto, inclusionController,
               eepromStorage, eepromStorage.buf
      ensures Valid() && inclusionController == old(inclusionController)
      ensures var v := Judged(router.P, Who(old(State())), old(State()).link.recency, Parse(buffer));
        router.routingTable.heard ==
        old(router.routingTable.heard) + (if v.Genuine? then {Reception(Parse(buffer), rssi, now)} else {})
      ensures (State(), rc) ==
              Received(router.P, old(State()), Parse(buffer), Env(Millis(now), random, o), Air(replyId, route, radioRc))
      ensures o == OutcomeOf(old(eepromStorage.Free()), WriteSize(Parse(buffer).topic), eeprom.commitOk)
      ensures var v := Judged(router.P, Who(old(State())), old(State()).link.recency, Parse(buffer));
        var before, after := old(router.routingTable.routes[..]), router.routingTable.routes[..];
        if v.Genuine? then Learned(before, after, Reception(Parse(buffer), rssi, now), Parse(buffer).destDevId)
        else after == before
    {
      hide Learned, Processed, Judged, Keys32, Parse, Key, Tracker.FindIn, Value;
      hide InclusionController.Valid, EncryptionService.Valid, DeviceStorage.Valid, PacketRouter.Valid;
      o, route := OutcomeOf(eepromStorage.Free(), WriteSize(Parse(buffer).topic), eeprom.commitOk), None;
      var receivedPacket := new RadioMeshPacket.FromBuffer(buffer);
      GenuineKeepsHeader(router.P, Who(State()), State().link.recency, Parse(buffer));
      var verdict := Judge(receivedPacket);
      match verdict {
        case AlreadySeen => return RM_E_NONE, o, route;
        case Corrupted => return RM_E_PACKET_CORRUPTED, o, route;
        case Forged => return RM_E_AUTH_FAILED, o, route;
        case Genuine(_) =>
      }
      rc, o, route := Process(receivedPacket, rssi, now, random, replyId, radioRc, eeprom);
    }

    method EnableRelay(enabled: bool)
      requires Valid()
      modifies `relayEnabled
      ensures Valid() && State() == old(State()).(relayEnabled := enabled)
    {
      hide Keys32, InclusionController.Valid, EncryptionService.Valid, DeviceStorage.Valid, PacketRouter.Valid;
      relayEnabled := enabled;
    }

    method EnableInclusionMode(enable: bool, now: nat, eeprom: Eeprom) returns (rc: int, ghost o: WriteOutcome)
      requires Valid()
      modifies inclusionController, eepromStorage, eepromStorage.buf
      ensures Valid() && inclusionController == old(inclusionController)
      ensures var t := if enable then Entered(old(State()).node) else Exited(old(State()).node, Millis(now), o);
        State() == old(State()).(node := t.node) && t.action == Return(rc)
      ensures o == OutcomeOf(old(eepromStorage.Free()), |STATE_KEY| + 1, eeprom.commitOk)
    {
      hide Reset, Keys32, EncryptionService.Valid, DeviceStorage.Valid, PacketRouter.Valid;
      o := OutcomeOf(eepromStorage.Free(), |STATE_KEY| + 1, eeprom.commitOk);
      if enable {
        rc := inclusionController.EnterInclusionMode();
      } else {
        rc, o := inclusionController.ExitInclusionMode(now, eeprom);
      }
    }

    method SendInclusionOpen(packetId: Id, now: nat, radioRc: int) returns (rc: int, ghost route: Option<Id>)
      requires Valid()
      modifies `packetCounter, txPacket, router`air, router.packetTracker, router.routingTable.routes,
               encryptionService.aesCrypto, inclusionController
      ensures Valid() && inclusionController == old(inclusionController)
      ensures (State(), rc) == Acted(router.P, old(State()), Opened(router.P, old(State()).node, Millis(now)),
                                     Air(packetId, route, radioRc))
    {
      hide Sent, Opened, Keys32, EncryptionService.Valid, DeviceStorage.Valid, PacketRouter.Valid;
      route := None;
      MemoryIsShaped();
      OpenKeepsRing(router.P, State().node, Millis(now));
      var action := inclusionController.SendInclusionOpen(now);
      match action {
        case Return(code) => rc := code;
        case SendData(topic, data) => rc, route := SendData(topic, data, BROADCAST_ADDR, packetId, now, radioRc);
      }
    }

    method CheckTimeouts(now: nat, eeprom: Eeprom) returns (ghost o: WriteOutcome)
      requires Valid()
      modifies inclusionController, eepromStorage, eepromStorage.buf
      ensures Valid() && State() == old(State()).(node := Checked(old(State()).node, Millis(now), o))
      ensures o == OutcomeOf(old(eepromStorage.Free()), |STATE_KEY| + 1, eeprom.commitOk)
      ensures eepromStorage.Free() == RoomChecked(old(eepromStorage.Free()), old(State()).node, Millis(now), o)
    {
      hide Checked, Keys32, EncryptionService.Valid, DeviceStorage.Valid, PacketRouter.Valid;
      CheckKeepsRing(State().node, Millis(now));
      o := inclusionController.CheckProtocolTimeouts(now, eeprom);
    }

    /** The application hears of an error of the receiving side; only without one does the transmit flag count. */
    method Report(rc: int, transmitted: Option<int>)
      requires Valid()
      modifies `errors, `confirmations
      ensures Valid() && State() == old(State())
      ensures errors == old(errors) + if rc == RM_E_NONE then [] else [rc]
      ensures confirmations == old(confirmations) +
        if rc == RM_E_NONE && transmitted.Some? then [(State().outgoing, transmitted.value)] else []
    {
      hide Keys32, InclusionController.Valid, InclusionController.View, EncryptionService.Valid, DeviceStorage.Valid,
        PacketRouter.Valid, PacketRouter.View, RadioMeshPacket.Fields;
      if rc != RM_E_NONE {
        errors := errors + [rc];
      } else if transmitted.Some? {
        confirmations := confirmations + [(txPacket.Fields(), transmitted.value)];
      }
    }

    /**
     One turn of the loop: the timeout first, then what the radio has received, then what it has sent.
     An error of the receiving side goes to the application and leaves the transmit flag for the next turn.
     */
    method Run(radio: Radio, transmitted: Option<int>, now: nat, random: seq<byte>, replyId: Id, radioRc: int,
               first: Eeprom, second: Eeprom)
      returns (rc: int, ghost o1: WriteOutcome, ghost o2: WriteOutcome, ghost route: Option<Id>)
      requires Valid() && |random| == NONCE_SIZE && (radio.Heard? ==> |radio.buffer| >= HEADER_LENGTH)
      modifies `packetCounter, `delivered, `errors, `confirmations, txPacket, router`air, router.packetTracker,
               router.routingTable, router.routingTable.routes, encryptionService, encryptionService.aesCrypto,
               inclusionController, eepromStorage, eepromStorage.buf
      ensures Valid() && inclusionController == old(inclusionController)
      ensures var st := old(State()).(node := Checked(old(State()).node, Millis(now), o1));
        (State(), rc) == match radio
          case Quiet => (st, RM_E_NONE)
          case Failed(code) => (st, code)
          case Heard(buffer, _) =>
            Received(router.P, st, Parse(buffer), Env(Millis(now), random, o2), Air(replyId, route, radioRc))
      ensures o1 == OutcomeOf(old(eepromStorage.Free()), |STATE_KEY| + 1, first.commitOk)
      ensures radio.Heard? ==>
        o2 == OutcomeOf(RoomChecked(old(eepromStorage.Free()), old(State()).node, Millis(now), o1),
                        WriteSize(Parse(radio.buffer).topic), second.commitOk)
      ensures errors == old(errors) + if rc == RM_E_NONE then [] else [rc]
      ensures confirmations == old(confirmations) +
        if rc == RM_E_NONE && transmitted.Some? then [(State().outgoing, transmitted.value)] else []
    {
      hide Received, Checked, Parse, Valid, State, RoomChecked, OutcomeOf;
      o2, route := NoRoom, None;
      o1 := CheckTimeouts(now, first);
      match radio {
        case Quiet => rc := RM_E_NONE;
        case Failed(code) => rc := code;
        case Heard(buffer, rssi) =>
          rc, o2, route := HandleReceivedData(buffer, rssi, now, random, replyId, radioRc, second);
      }
      Report(rc, transmitted);
    }

    method UpdateRoute(receivedPacket: RadioMeshPacket, rssi: int, now: nat)
      requires Valid()
      modifies router.routingTable, router.routingTable.routes
      ensures Valid() && State() == old(State())
      ensures router.routingTable.heard ==
              old(router.routingTable.heard) + {Reception(receivedPacket.Fields(), rssi, now)}
      ensures Routes.Updated(old(router.routingTable.routes[..]), router.routingTable.routes[..],
                             Reception(receivedPacket.Fields(), rssi, now))
    {
      hide Keys32, InclusionController.Valid, EncryptionService.Valid, DeviceStorage.Valid, Routes.Updated;
      router.routingTable.UpdateRoute(Reception(receivedPacket.Fields(), rssi, now));
    }
  }

  lemma TakenUp(rs: seq<Routes.RouteEntry>, learned: seq<Routes.RouteEntry>, rs': seq<Routes.RouteEntry>, p: Packet,
                rssi: int, now: nat)
    requires Routes.Updated(rs, learned, Reception(p, rssi, now))
    requires rs' == learned || rs' == RoutesAfter(learned, p.destDevId, now)
    ensures Learned(rs, rs', Reception(p, rssi, now), p.destDevId)
  {
    hide Routes.Updated, RoutesAfter;
  }

  lemma GenuineKeepsHeader(P: Primitives, s: Sender, recency: seq<Tracker.Entry<u32, u32>>, p: Packet)
    ensures var v := Judged(P, s, recency, p);
      v.Genuine? ==> v.packet == p.(packetData := v.packet.packetData)
  {
    hide Seen, MicHolds, DataWithoutMic;
  }

  lemma PlainKeepsHeader(P: Primitives, s: Sender, p: Packet)
    ensures Plain(P, s, p) == p.(packetData := Plain(P, s, p).packetData)
    ensures !IsInclusionMessage(p.topic) && !IsApplicationMessage(p.topic) ==> Plain(P, s, p) == p
  {
    hide Crypted, OpenKey;
  }

  // ----- what a device does with a packet, case by case -----

  /** Topics 0x06 to 0x0A are inclusion messages, those above 0x0F the application's. */
  lemma TopicRanges(topic: byte)
    ensures IsInclusionMessage(topic) <==> 0x06 <= topic <= 0x0A
    ensures IsApplicationMessage(topic) <==> topic > 0x0F
  {
  }

  /** A MIC holds if none is required or the last four bytes are the MIC of the header and the rest, under a key. */
  lemma MicHoldsIff(P: Primitives, s: Sender, p: Packet)
    ensures MicHolds(P, s, p) <==>
            || p.topic == 0x08 || p.topic == 0x06
            || var n := |p.packetData|;
               n >= 4 && MicKey(P, s.ring, p.topic, s.deviceType, s.state) != []
               && p.packetData[n - 4..] ==
                  AesCmac.Mic(P.blockCipher, MicKey(P, s.ring, p.topic, s.deviceType, s.state),
                              HeaderBytes(p) + p.packetData[..n - 4])
  {
    hide MicKey, HeaderBytes, AesCmac.Mic;
  }

  /** A packet already seen, corrupted or forged is dropped with its code, and nothing else happens. */
  lemma RejectedPackets(P: Primitives, st: Station, p: Packet, env: Env, air: Air)
    ensures var (after, rc) := Received(P, st, p, env, air);
      var seen := Tracker.ValueOr(st.link.recency, FromBigEndian(p.packetId), 0) == p.packetCrc;
      var intact := Crc32.PacketCrc(p.fcounter, DataWithoutMic(p)) == p.packetCrc;
      && (seen ==> rc == RM_E_NONE) && (!seen && !intact ==> rc == RM_E_PACKET_CORRUPTED)
      && (!seen && intact && !MicHolds(P, Who(st), p) ==> rc == RM_E_AUTH_FAILED)
      && (seen || !intact || !MicHolds(P, Who(st), p) ==>
            after == st.(link := st.link.(recency := Tracker.FindIn(st.link.recency, FromBigEndian(p.packetId)))))
  {
    hide MicHolds, Processed, Crc32.PacketCrc, DataWithoutMic, Tracker.FindIn, Tracker.ValueOr, FromBigEndian;
  }

  /** A packet that passes the checks is told to the application, opened if it is for it to open, and told once. */
  lemma AcceptedPackets(P: Primitives, st: Station, p: Packet, env: Env, air: Air)
    requires Tracker.ValueOr(st.link.recency, FromBigEndian(p.packetId), 0) != p.packetCrc
    requires Crc32.PacketCrc(p.fcounter, DataWithoutMic(p)) == p.packetCrc && MicHolds(P, Who(st), p)
    ensures var body := if p.topic == 0x08 || p.topic == 0x06 then p.packetData else DataWithoutMic(p);
      var key := OpenKey(P, st.node.ring, p.topic, st.node.deviceType, st.node.state);
      var told := if (0x06 <= p.topic <= 0x0A || p.topic > 0x0F) && key.Some? && |key.value| == 32
                  then Ctr(P, key.value, ZeroIv(), body) else body;
      (key.Some? ==> |key.value| == 32) ==>
        Received(P, st, p, env, air).0.delivered == st.delivered + [p.(packetData := told)]
  {
    AcceptedIsGenuine(P, Who(st), st.link.recency, p);
    var checked := st.(link := st.link.(recency := Tracker.FindIn(st.link.recency, Key(p))));
    assert Who(checked) == Who(st);
    PlainIs(P, Who(st), p);
    hide Judged, MicHolds, Crc32.PacketCrc, Tracker.FindIn, Tracker.ValueOr, FromBigEndian, OpenKey, Processed, Plain,
      Stripped, DataWithoutMic, Ctr;
    ProcessedIsTold(P, checked, Stripped(p), env, air);
  }

  lemma AcceptedIsGenuine(P: Primitives, s: Sender, recency: seq<Tracker.Entry<u32, u32>>, p: Packet)
    requires Tracker.ValueOr(recency, FromBigEndian(p.packetId), 0) != p.packetCrc
    requires Crc32.PacketCrc(p.fcounter, DataWithoutMic(p)) == p.packetCrc && MicHolds(P, s, p)
    ensures Judged(P, s, recency, p) == Genuine(Stripped(p))
  {
    hide MicHolds, Stripped, Crc32.PacketCrc, Tracker.ValueOr, FromBigEndian, DataWithoutMic;
  }

  lemma PlainIs(P: Primitives, s: Sender, p: Packet)
    ensures var body := if p.topic == 0x08 || p.topic == 0x06 then p.packetData else DataWithoutMic(p);
      var key := OpenKey(P, s.ring, p.topic, s.deviceType, s.state);
      (key.Some? ==> |key.value| == 32) ==>
        Plain(P, s, Stripped(p)) ==
        p.(packetData := if (0x06 <= p.topic <= 0x0A || p.topic > 0x0F) && key.Some?
                         then Ctr(P, key.value, ZeroIv(), body) else body)
  {
    hide OpenKey, DataWithoutMic, Ctr;
  }

  lemma ProcessedIsTold(P: Primitives, st: Station, p: Packet, env: Env, air: Air)
    ensures Processed(P, st, p, env, air).0.delivered == st.delivered + [Plain(P, Who(st), p)]
  {
    var q := Plain(P, Who(st), p);
    ActedKeepsDelivered(P, st, Handled(P, st.node, q.topic, q.packetData, env), air);
    hide Plain, Routed, Handled, Acted;
  }

  lemma ActedKeepsDelivered(P: Primitives, st: Station, t: Turn, air: Air)
    ensures Acted(P, st, t, air).0.delivered == st.delivered
  {
    hide Sent;
    if t.action.SendData? {
      SendingIs(P, st.(node := t.node), t.action.topic, t.action.payload, BROADCAST_ADDR, air);
    }
  }

  /** What `sendData` refuses, and what it counts and fills in before it routes. */
  lemma SendingIs(P: Primitives, st: Station, topic: byte, data: seq<byte>, target: Id, air: Air)
    ensures var (sent, rc) := Sent(P, st, topic, data, target, air);
      var p := Packet(4, st.id, target, air.packetId, topic, st.node.deviceType.Code(), 0, 0, st.counter + 1, st.id,
                      [0xFF, 0xFF, 0xFF, 0xFF], [0, 0, 0], data);
      if !CanSend(st.node, topic) then sent == st && rc == RM_E_DEVICE_NOT_INCLUDED
      else if |data| > 217 then sent == st && rc == RM_E_PACKET_TOO_LONG
      else sent == st.(counter := st.counter + 1, outgoing := p, link := sent.link)
           && (sent.link, rc) == Routed(P, Who(st), air.route, p, air.radioRc, st.link)
  {
    hide Routed, CanSend;
  }

  /** An inclusion message that passes the checks is handled once, on the payload as it opens, and goes no further. */
  lemma AcceptedInclusionIsHandled(P: Primitives, st: Station, p: Packet, env: Env, air: Air)
    requires Tracker.ValueOr(st.link.recency, FromBigEndian(p.packetId), 0) != p.packetCrc
    requires Crc32.PacketCrc(p.fcounter, DataWithoutMic(p)) == p.packetCrc && MicHolds(P, Who(st), p)
    requires 0x06 <= p.topic <= 0x0A
    ensures var looked := st.(link := st.link.(recency := Tracker.FindIn(st.link.recency, FromBigEndian(p.packetId))));
      var q := Plain(P, Who(st), Stripped(p));
      var t := Handled(P, st.node, p.topic, q.packetData, env);
      var (after, rc) := Received(P, st, p, env, air);
      match t.action
      case Return(code) => rc == code && after == looked.(node := t.node, delivered := st.delivered + [q])
      case SendData(topic, payload) =>
        var (sent, sentRc) := Sent(P, looked.(node := t.node), topic, payload, [0xFF, 0xFF, 0xFF, 0xFF], air);
        rc == sentRc && after == sent.(delivered := sent.delivered + [q])
  {
    AcceptedIsGenuine(P, Who(st), st.link.recency, p);
    hide Judged, MicHolds, Stripped, Processed, Crc32.PacketCrc, Tracker.FindIn, Tracker.ValueOr, FromBigEndian, Plain,
      DataWithoutMic, Handled, Sent;
    var looked := st.(link := st.link.(recency := Tracker.FindIn(st.link.recency, Key(p))));
    assert Received(P, st, p, env, air) == Processed(P, looked, Stripped(p), env, air);
    assert Stripped(p).topic == p.topic by { StrippedTopic(p); }
    assert Who(looked) == Who(st);
    InclusionIsHandled(P, looked, Stripped(p), env, air);
  }

  lemma StrippedTopic(p: Packet)
    ensures Stripped(p).topic == p.topic
  {
  }

  lemma InclusionIsHandled(P: Primitives, st: Station, p: Packet, env: Env, air: Air)
    requires 0x06 <= p.topic <= 0x0A
    ensures var q := Plain(P, Who(st), p);
      var t := Handled(P, st.node, p.topic, q.packetData, env);
      var (after, rc) := Processed(P, st, p, env, air);
      match t.action
      case Return(code) => rc == code && after == st.(node := t.node, delivered := st.delivered + [q])
      case SendData(topic, payload) =>
        var (sent, sentRc) := Sent(P, st.(node := t.node), topic, payload, [0xFF, 0xFF, 0xFF, 0xFF], air);
        rc == sentRc && after == sent.(delivered := sent.delivered + [q])
  {
    PlainKeepsHeader(P, Who(st), p);
    hide Plain, Handled, Sent;
  }
}
