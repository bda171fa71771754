/**
 One hub and any number of devices joining over a broadcast medium that loses, duplicates,
 delays and reorders: whatever was sent may be heard by anyone, any time, any number of times.
 */
module InclusionSystem {
  import opened Bytes
  import opened Clock
  import opened Errors
  import opened Definitions
  import opened Packet
  import opened AesCrypto
  import opened EncryptionService
  import opened MicService
  import opened DeviceStorage
  import opened EepromLog
  import opened InclusionController
  import opened PacketRouter
  import opened FailClosed
  import AesCmac
  import Crc32

  // ----- messages -----

  datatype Origin = TheHub | Device(index: nat)

  /** A message on air: who sent it, its sealed payload, and the key its MIC was made with. */
  datatype Wire = Wire(origin: Origin, topic: byte, payload: seq<byte>, micKey: seq<byte>)

  /** What `sendData` of a node puts on air for the last act of a handler. */
  function OnWire(P: Primitives, n: Node, origin: Origin, a: Action): set<Wire> {
    if a.Return? || !CanSend(n, a.topic) || |a.payload| > MAX_DATA_LENGTH then {}
    else
      var micKey := MicKey(P, n.ring, a.topic, n.deviceType, n.state);
      if RequiresMic(a.topic) && micKey == [] then {}
      else {Wire(origin, a.topic, Crypted(P, SealKey(P, n.ring, a.topic, n.deviceType, n.state), [], a.payload),
        micKey)}
  }

  /** What a node makes of a message: a MIC made with another key, or with none, does not verify. */
  function Heard(P: Primitives, n: Node, w: Wire): Option<seq<byte>> {
    var micKey := MicKey(P, n.ring, w.topic, n.deviceType, n.state);
    if RequiresMic(w.topic) && (micKey == [] || micKey != w.micKey) then None
    else Some(Crypted(P, OpenKey(P, n.ring, w.topic, n.deviceType, n.state), [], w.payload))
  }

  // ----- states and steps -----

  /** Where the network key of a device is gone from, after resets whose commit failed. */
  datatype Lost = NOTHING | RAM | STORAGE | EVERYTHING

  /**
   A device, and what nobody but the proofs knows: when it last ran, entered its state, became pending;
   whether its state is still what uninitialised memory held; and where it lost its network key.
   */
  datatype Member = Member(node: Node, lastRun: nat, since: nat, pendingSince: nat, garbled: bool, lost: Lost)

  /** A device took the network key and this nonce out of a response, with `storedKey` then in its flash. */
  datatype Acceptance = Acceptance(device: nat, nonce: seq<byte>, storedKey: seq<byte>)

  datatype System = System(hub: Node, devices: seq<Member>, wires: set<Wire>, accepted: set<Acceptance>, now: nat)

  datatype Step =
    | HubEnters
    | HubExits
    | HubOpens
    | HubHears(w: Wire, random: seq<byte>)
    | HubRuns
    | HubBoots(b: Birth)
    | DeviceHears(i: nat, w: Wire, o: WriteOutcome)
    | DeviceRuns(i: nat, o: WriteOutcome)
    | DeviceBoots(i: nat, b: Birth)
    | DeviceResets(i: nat, commitOk: bool, b: Birth)
    | Ticks(ms: nat)

  /** A node after power-up from `flash`: a new device object, its controller, its configured keys. */
  function Booted(P: Primitives, deviceType: MeshDeviceType, flash: Store, b: Birth): Node {
    Configured(P, Constructed(P, deviceType, Memory(flash, flash), NO_KEYS, b))
  }

  /**
   `factoryReset`: the storage is cleared and the controller made anew, while the encryption service stays;
   or, if the commit fails, the storage is cleared in RAM and that is all.
   */
  function FactoryReset(P: Primitives, n: Node, commitOk: bool, b: Birth): Node {
    if commitOk then Constructed(P, n.deviceType, Memory(map[], map[]), n.ring, b)
    else n.(memory := n.memory.(ram := map[]))
  }

  /** A key pair for the memory a controller starts from; without one a device's state is indeterminate. */
  predicate Ready(P: Primitives, store: Store, b: Birth) {
    KeysReady(P, Memory(store, store), b).1 == RM_E_NONE
  }

  /** The network key a hub makes has 32 bytes; apart from that, what can happen to a node can happen any time. */
  predicate Enabled(P: Primitives, s: System, step: Step) {
    match step
    case HubHears(w, random) => w in s.wires && |random| == NONCE_SIZE
    case HubBoots(b) => |b.networkKey| == KEY_SIZE
    case DeviceHears(i, w, _) => i < |s.devices| && w in s.wires
    case DeviceRuns(i, _) => i < |s.devices|
    case DeviceBoots(i, _) => i < |s.devices|
    case DeviceResets(i, _, _) => i < |s.devices|
    case _ => true
  }

  function HubMoves(P: Primitives, s: System, t: Turn): System {
    s.(hub := t.node, wires := s.wires + OnWire(P, t.node, TheHub, t.action))
  }

  /** The new node of a device, with the times of what changed; a handler that changes its state settles it. */
  function Moved(m: Member, n: Node, now: nat): Member {
    m.(node := n,
       since := if n.protocolState != m.node.protocolState then now else m.since,
       pendingSince :=
         if n.state == INCLUSION_PENDING && m.node.state != INCLUSION_PENDING then now else m.pendingSince,
       garbled := m.garbled && n.state == m.node.state)
  }

  /** Taking a response stores the key anew; becoming included commits a RAM without the key. */
  function LostHearing(m: Member, n: Node, o: WriteOutcome): Lost {
    if m.node.protocolState == WAITING_FOR_RESPONSE && n.protocolState == WAITING_FOR_SUCCESS then NOTHING
    else if m.node.state != INCLUDED && n.state == INCLUDED && m.lost == RAM && o == Committed then STORAGE
    else m.lost
  }

  /** RAM comes back from flash; what flash has lost is lost. */
  function LostBooting(lost: Lost): Lost {
    if lost == NOTHING || lost == RAM then NOTHING else EVERYTHING
  }

  function LostResetting(lost: Lost, commitOk: bool): Lost {
    if commitOk then NOTHING else if lost == NOTHING then RAM else lost
  }

  function Accepted(i: nat, before: Node, after: Node): set<Acceptance> {
    if before.protocolState == WAITING_FOR_RESPONSE && after.protocolState == WAITING_FOR_SUCCESS
      && NKEY in after.memory.flash
    then {Acceptance(i, after.currentNonce, after.memory.flash[NKEY])} else {}
  }

  function DeviceMoves(P: Primitives, s: System, i: nat, t: Turn, o: WriteOutcome): System
    requires i < |s.devices|
  {
    var m := s.devices[i];
    s.(devices := s.devices[i := Moved(m, t.node, s.now).(lost := LostHearing(m, t.node, o))],
       wires := s.wires + OnWire(P, t.node, Device(i), t.action),
       accepted := s.accepted + Accepted(i, s.devices[i].node, t.node))
  }

  function DeviceBooted(P: Primitives, m: Member, b: Birth, now: nat): Member {
    var flash := m.node.memory.flash;
    Moved(m, Booted(P, STANDARD, flash, b), now)
    .(lastRun := now, garbled := !Ready(P, flash, b), lost := LostBooting(m.lost))
  }

  function DeviceReset(P: Primitives, m: Member, commitOk: bool, b: Birth, now: nat): Member {
    Moved(m, FactoryReset(P, m.node, commitOk, b), now)
    .(garbled := if commitOk then !Ready(P, map[], b) else m.garbled, lost := LostResetting(m.lost, commitOk))
  }

  function Next(P: Primitives, s: System, step: Step): System
    requires Enabled(P, s, step)
  {
    var clock := Millis(s.now);
    match step
    case HubEnters => HubMoves(P, s, Entered(s.hub))
    case HubExits => HubMoves(P, s, Exited(s.hub, clock, NoRoom))
    case HubOpens => HubMoves(P, s, Opened(P, s.hub, clock))
    case HubHears(w, random) =>
      var payload := Heard(P, s.hub, w);
      if payload.None? then s
      else HubMoves(P, s, Handled(P, s.hub, w.topic, payload.value, Env(clock, random, NoRoom)))
    case HubRuns => s.(hub := Checked(s.hub, clock, NoRoom))
    case HubBoots(b) => s.(hub := Booted(P, HUB, s.hub.memory.flash, b))
    case DeviceHears(i, w, o) =>
      var n := s.devices[i].node;
      var payload := Heard(P, n, w);
      if payload.None? then s
      else DeviceMoves(P, s, i, Handled(P, n, w.topic, payload.value, Env(clock, [], o)), o)
    case DeviceRuns(i, o) =>
      var m := s.devices[i];
      s.(devices := s.devices[i := Moved(m, Checked(m.node, clock, o), s.now).(lastRun := s.now)])
    case DeviceBoots(i, b) => s.(devices := s.devices[i := DeviceBooted(P, s.devices[i], b, s.now)])
    case DeviceResets(i, commitOk, b) => s.(devices := s.devices[i := DeviceReset(P, s.devices[i], commitOk, b, s.now)])
    case Ticks(ms) => s.(now := s.now + ms)
  }

  /** Any finite sequence of steps, each of them possible when it is taken. */
  predicate Legal(P: Primitives, s: System, steps: seq<Step>)
    decreases |steps|
  {
    steps == [] || (Enabled(P, s, steps[0]) && Legal(P, Next(P, s, steps[0]), steps[1..]))
  }

  function Run(P: Primitives, s: System, steps: seq<Step>): System
    requires Legal(P, s, steps)
    decreases |steps|
  {
    if steps == [] then s else Run(P, Next(P, s, steps[0]), steps[1..])
  }

  /**
   Where runs start: the hub has come up with a network key, from flash or made anew, the devices from
   any flash whose INCLUDED, if stored, comes with that key; nothing is on air.
   */
  ghost predicate Initial(P: Primitives, s: System, networkKey: seq<byte>) {
    && |networkKey| == KEY_SIZE && Holds(s.hub.memory.ram, networkKey)
    && (exists flash, b :: s.hub == Booted(P, HUB, flash, b))
    && (forall i :: 0 <= i < |s.devices| ==> FreshMember(P, s.devices[i], networkKey, s.now))
    && s.wires == {} && s.accepted == {}
  }

  ghost predicate FreshMember(P: Primitives, m: Member, networkKey: seq<byte>, now: nat) {
    && m.lastRun == now && m.since <= now && m.pendingSince <= now && m.lost == NOTHING
    && exists flash, b ::
         && m.node == Booted(P, STANDARD, flash, b) && m.garbled == !Ready(P, flash, b)
         && (LoadedState(flash) == INCLUDED ==> Holds(flash, networkKey))
  }

  predicate Holds(m: Store, networkKey: seq<byte>) {
    NKEY in m && m[NKEY] == networkKey
  }

  // ----- the messages are the packets of the router and the services -----

  /** `q` is the message `w` with a header: its sealed payload, its CRC, and a MIC made with the message's key. */
  predicate Carries(P: Primitives, q: Packet, w: Wire) {
    && q.topic == w.topic && DataWithoutMic(q) == w.payload && q.packetCrc == Crc32.PacketCrc(q.fcounter, w.payload)
    && (RequiresMic(q.topic) ==>
          HasMic(q) && ExtractMic(q) == AesCmac.Mic(P.blockCipher, w.micKey, HeaderBytes(q) + w.payload))
  }

  /**
   `OnWire` is `Transmission` seen without its header: a packet goes on air exactly when there is a
   message, with its sealed payload, and a MIC under its key over the transmitted header and payload.
   */
  lemma WireIsTransmission(P: Primitives, n: Node, origin: Origin, s: Sender, route: Option<Id>, p: Packet)
    requires Sound(P) && Keys32(n.ring) && CanSend(n, p.topic) && |p.packetData| <= MAX_DATA_LENGTH
      && p.hopCount < MAX_HOPS
    requires s.deviceType == n.deviceType && s.state == n.state && s.ring == n.ring
    requires p.topic == INCLUDE_RESPONSE ==> n.deviceType == HUB
    ensures var out := Transmission(P, s, route, p);
      var wires := OnWire(P, n, origin, SendData(p.topic, p.packetData));
      && (out.OnAir? <==> wires != {})
      && forall w :: out.OnAir? && w in wires ==> Carries(P, out.packet, w)
  {
    hide Frame, Forwarded, SealKey, MicKey, Crypted, HeaderBytes, Authenticated, Transmission, CanSend, HasMic,
      ExtractMic, DataWithoutMic, AesCmac.Mic, Crc32.PacketCrc;
    FrameIsSealed(P, s, route, p);
    FrameCrc(P, s, route, p);
    TransmissionIsFrame(P, s, route, p);
    var r, key := Frame(P, s, route, p), MicKey(P, n.ring, p.topic, n.deviceType, n.state);
    if RequiresMic(p.topic) {
      MicCovers(P, s, r);
      OneKeySealsAndAuthenticates(P, n.ring, p.topic, n.deviceType, n.state);
    } else {
      OpenFrame(P, s, r);
    }
    var w := Wire(origin, p.topic, r.packetData, key);
    assert OnWire(P, n, origin, SendData(p.topic, p.packetData)) ==
           if RequiresMic(p.topic) && key == [] then {} else {w};
    assert w in {w};
  }

  lemma TransmissionIsFrame(P: Primitives, s: Sender, route: Option<Id>, p: Packet)
    requires p.hopCount < MAX_HOPS
    ensures var r := Frame(P, s, route, p);
      Transmission(P, s, route, p) == Authenticated(P, s.ring, s.deviceType, s.state, r)
      && r.topic == p.topic && r.fcounter == p.fcounter
  {
    hide Authenticated, Crypted, SealKey, Crc32.PacketCrc;
  }

  lemma OpenFrame(P: Primitives, s: Sender, r: Packet)
    requires !RequiresMic(r.topic)
    ensures Authenticated(P, s.ring, s.deviceType, s.state, r) == OnAir(r) && DataWithoutMic(r) == r.packetData
  {
  }
}
