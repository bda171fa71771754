/**
 The inclusion system is what a network of stations does: every run of stations that send and receive
 packets, relay, check their timeouts, boot and are reset is a legal run of the system.
 */
module InclusionNetwork {
  import opened Bytes
  import opened Clock
  import opened Errors
  import opened Definitions
  import opened Packet
  import opened AesCrypto
  import opened EncryptionService
  import opened MicService
  import opened DeviceStorage
  import EepromLog
  import opened InclusionController
  import opened InclusionSystem
  import opened InclusionNonce
  import opened InclusionSafety
  import opened InclusionJoin
  import InclusionOnAir
  import opened PacketRouter
  import Flood
  import D = Device
  import Sealing
  import Crc32
  import AesCmac
  import Tracker = PacketTracker

  // ----- stations and what is on air between them -----

  /** A packet that went on air, and the key its sender made MICs of its topic with. */
  datatype Traffic = Traffic(packet: Packet, micKey: seq<byte>)

  datatype Network = Network(hub: D.Station, devices: seq<D.Station>, air: set<Traffic>, now: nat)

  datatype Event =
    | HubReceives(t: Traffic, env: Env, air: D.Air)
    | HubSends(topic: byte, data: seq<byte>, target: Id, air: D.Air)
    | HubSwitches(inclusionMode: bool)
    | HubOffers(air: D.Air)
    | HubChecks
    | HubStarts(b: Birth, st: D.Station)
    | DeviceReceives(i: nat, t: Traffic, env: Env, air: D.Air)
    | DeviceSends(i: nat, topic: byte, data: seq<byte>, target: Id, air: D.Air)
    | DeviceSwitches(i: nat, relayEnabled: bool)
    | DeviceChecks(i: nat, o: WriteOutcome)
    | DeviceStarts(i: nat, b: Birth, st: D.Station)
    | DeviceRestores(i: nat, commitOk: bool, b: Birth)
    | Passes(ms: nat)

  function KeyOfMic(P: Primitives, n: Node, topic: byte): seq<byte> {
    MicKey(P, n.ring, topic, n.deviceType, n.state)
  }

  /** What a station has put on air between two of its states. */
  function Added(P: Primitives, before: D.Station, after: D.Station): set<Traffic> {
    var (a, b) := (before.link.air, after.link.air);
    if |b| == |a| + 1 && |b[|a|]| >= HEADER_LENGTH
    then {Traffic(Parse(b[|a|]), KeyOfMic(P, after.node, Parse(b[|a|]).topic))} else {}
  }

  function HubBecomes(P: Primitives, net: Network, after: D.Station): Network {
    net.(hub := after, air := net.air + Added(P, net.hub, after))
  }

  function DeviceBecomes(P: Primitives, net: Network, i: nat, after: D.Station): Network
    requires i < |net.devices|
  {
    net.(devices := net.devices[i := after], air := net.air + Added(P, net.devices[i], after))
  }

  /** The idealisation: where the MIC of this packet verifies, it was made with the receiver's key. */
  predicate Unforged(P: Primitives, st: D.Station, t: Traffic) {
    RequiresMic(t.packet.topic) && D.MicHolds(P, D.Who(st), t.packet) ==>
      KeyOfMic(P, st.node, t.packet.topic) == t.micKey
  }

  predicate Receivable(P: Primitives, net: Network, st: D.Station, t: Traffic, env: Env) {
    t in net.air && Unforged(P, st, t) && env.clock == Millis(net.now) && |env.random| == NONCE_SIZE
  }

  predicate Made(b: Birth) {
    |b.privateKey| == KEY_SIZE && |b.networkKey| == KEY_SIZE
  }

  /** Applications send no inclusion messages; a start makes a new station, of which only the node matters. */
  predicate Possible(P: Primitives, net: Network, e: Event) {
    match e
    case HubReceives(t, env, _) => Receivable(P, net, net.hub, t, env)
    case HubSends(topic, _, _, _) => !D.IsInclusionMessage(topic)
    case HubSwitches(_) => true
    case HubOffers(_) => true
    case HubChecks => true
    case HubStarts(b, st) => Made(b) && st.node == Booted(P, HUB, net.hub.node.memory.flash, b)
    case DeviceReceives(i, t, env, _) => i < |net.devices| && Receivable(P, net, net.devices[i], t, env)
    case DeviceSends(i, topic, _, _, _) => i < |net.devices| && !D.IsInclusionMessage(topic)
    case DeviceSwitches(i, _) => i < |net.devices|
    case DeviceChecks(i, _) => i < |net.devices|
    case DeviceStarts(i, b, st) =>
      i < |net.devices| && Made(b) && st.node == Booted(P, STANDARD, net.devices[i].node.memory.flash, b)
    case DeviceRestores(i, _, b) => i < |net.devices| && Made(b)
    case Passes(_) => true
  }

  function After(P: Primitives, net: Network, e: Event): Network
    requires Possible(P, net, e)
  {
    var clock := Millis(net.now);
    match e
    case HubReceives(t, env, air) => HubBecomes(P, net, D.Received(P, net.hub, t.packet, env, air).0)
    case HubSends(topic, data, target, air) => HubBecomes(P, net, D.Sent(P, net.hub, topic, data, target, air).0)
    case HubSwitches(inclusionMode) =>
      var n := net.hub.node;
      net.(hub := net.hub.(node := if inclusionMode then Entered(n).node else Exited(n, clock, NoRoom).node))
    case HubOffers(air) => HubBecomes(P, net, D.Acted(P, net.hub, Opened(P, net.hub.node, clock), air).0)
    case HubChecks => net.(hub := net.hub.(node := Checked(net.hub.node, clock, NoRoom)))
    case HubStarts(_, st) => net.(hub := st)
    case DeviceReceives(i, t, env, air) => DeviceBecomes(P, net, i, D.Received(P, net.devices[i], t.packet, env, air).0)
    case DeviceSends(i, topic, data, target, air) =>
      DeviceBecomes(P, net, i, D.Sent(P, net.devices[i], topic, data, target, air).0)
    case DeviceSwitches(i, relayEnabled) =>
      net.(devices := net.devices[i := net.devices[i].(relayEnabled := relayEnabled)])
    case DeviceChecks(i, o) =>
      net.(devices := net.devices[i := net.devices[i].(node := Checked(net.devices[i].node, clock, o))])
    case DeviceStarts(i, _, st) => net.(devices := net.devices[i := st])
    case DeviceRestores(i, commitOk, b) =>
      var st := net.devices[i];
      net.(devices := net.devices[i := st.(node := FactoryReset(P, st.node, commitOk, b),
                                           counter := if commitOk then 0 else st.counter)])
    case Passes(ms) => net.(now := net.now + ms)
  }

  predicate Happens(P: Primitives, net: Network, es: seq<Event>)
    decreases |es|
  {
    es == [] || (Possible(P, net, es[0]) && Happens(P, After(P, net, es[0]), es[1..]))
  }

  function AllAfter(P: Primitives, net: Network, es: seq<Event>): Network
    requires Happens(P, net, es)
    decreases |es|
  {
    if es == [] then net else AllAfter(P, After(P, net, es[0]), es[1..])
  }

  // ----- what every station keeps -----

  /** The widths of all keys and stored values, which nothing a node does changes. */
  predicate Sized(n: Node) {
    Keys32(n.ring) && Shaped(n.memory.ram) && Shaped(n.memory.flash)
  }

  predicate ShapedAlike(m: Node, n: Node) {
    Shaped(m.memory.ram) && Shaped(m.memory.flash) && m.deviceType == n.deviceType
  }

  lemma OpenKeepsShapes(P: Primitives, n: Node, payload: seq<byte>, clock: nat, o: WriteOutcome)
    requires Shaped(n.memory.ram) && Shaped(n.memory.flash)
    ensures ShapedAlike(OnOpen(P, n, payload, clock, o).node, n)
  {
    hide StoredPublicKey, Shaped, Stored, Fits;
    StateFits(INCLUSION_PENDING);
    StoredStaysShaped(n.memory, STATE_KEY, [INCLUSION_PENDING.Code()], o);
  }

  lemma ResponseKeepsShapes(n: Node, payload: seq<byte>, clock: nat, o: WriteOutcome)
    requires Shaped(n.memory.ram) && Shaped(n.memory.flash)
    ensures ShapedAlike(OnResponse(n, payload, clock, o).node, n)
  {
    hide Confirmation, Shaped, Stored, Fits;
    if |payload| >= KEY_SIZE {
      NetworkKeyFits(payload[..KEY_SIZE]);
      StoredStaysShaped(n.memory, NKEY, payload[..KEY_SIZE], o);
    }
  }

  lemma SuccessKeepsShapes(n: Node, clock: nat, o: WriteOutcome)
    requires Shaped(n.memory.ram) && Shaped(n.memory.flash)
    ensures ShapedAlike(OnSuccess(n, clock, o).node, n)
  {
    hide Shaped, Stored, Fits;
    StateFits(INCLUDED);
    StoredStaysShaped(n.memory, STATE_KEY, [INCLUDED.Code()], o);
  }

  lemma HandledKeepsSizes(P: Primitives, n: Node, topic: byte, payload: seq<byte>, env: Env)
    requires Sized(n)
    ensures var m := Handled(P, n, topic, payload, env).node; Sized(m) && m.deviceType == n.deviceType
  {
    hide Keys32, Shaped, OnOpen, OnResponse, OnSuccess;
    D.HandledKeeps32(P, n, topic, payload, env);
    OpenKeepsShapes(P, n, payload, env.clock, env.outcome);
    ResponseKeepsShapes(n, payload, env.clock, env.outcome);
    SuccessKeepsShapes(n, env.clock, env.outcome);
  }

  lemma StateFits(s: DeviceInclusionState)
    ensures Fits(STATE_KEY, [s.Code()])
  {
    StateRoundTrip(s);
  }

  lemma NetworkKeyFits(data: seq<byte>)
    requires |data| == KEY_SIZE
    ensures Fits(NKEY, data)
  {
  }

  lemma PrivateKeyFits(data: seq<byte>)
    requires |data| == KEY_SIZE
    ensures Fits(PRIV_KEY, data)
  {
  }

  lemma CheckedKeepsSizes(n: Node, clock: nat, o: WriteOutcome)
    requires Sized(n)
    ensures Sized(Checked(n, clock, o)) && Checked(n, clock, o).deviceType == n.deviceType
  {
    hide Keys32, Shaped, Stored, Fits;
    StateFits(NOT_INCLUDED);
    StoredStaysShaped(n.memory, STATE_KEY, [NOT_INCLUDED.Code()], o);
  }

  lemma HubTurnsKeepSizes(P: Primitives, n: Node, clock: nat)
    requires Sized(n) && n.deviceType == HUB
    ensures Sized(Entered(n).node) && Entered(n).node.deviceType == HUB
    ensures Sized(Exited(n, clock, NoRoom).node) && Exited(n, clock, NoRoom).node.deviceType == HUB
    ensures Sized(Opened(P, n, clock).node) && Opened(P, n, clock).node.deviceType == HUB
  {
    hide Keys32, Shaped;
  }

  lemma ConstructedIsSized(P: Primitives, deviceType: MeshDeviceType, memory: Memory, ring: KeyRing, b: Birth)
    requires Keys32(ring) && Shaped(memory.ram) && Shaped(memory.flash) && Made(b)
    ensures var n := Constructed(P, deviceType, memory, ring, b); Sized(n) && n.deviceType == deviceType
  {
    hide Keys32, PublicKeyOf, Shaped, Stored, Fits;
    PrivateKeyFits(b.privateKey);
    NetworkKeyFits(b.networkKey);
    StoredStaysShaped(memory, PRIV_KEY, b.privateKey, b.first);
    var m := KeysReady(P, memory, b).0;
    StoredStaysShaped(m, NKEY, b.networkKey, b.second);
  }

  lemma ConfiguredMemory(P: Primitives, n: Node)
    ensures Configured(P, n).memory == n.memory && Configured(P, n).deviceType == n.deviceType
  {
  }

  lemma BootedIsSized(P: Primitives, deviceType: MeshDeviceType, flash: EepromLog.Store, b: Birth)
    requires Shaped(flash) && Made(b)
    ensures var n := Booted(P, deviceType, flash, b); Sized(n) && n.deviceType == deviceType
  {
    hide Constructed, Configured, Shaped;
    ConstructedIsSized(P, deviceType, Memory(flash, flash), NO_KEYS, b);
    var n := Constructed(P, deviceType, Memory(flash, flash), NO_KEYS, b);
    D.ConfiguredKeeps32(P, n);
    ConfiguredMemory(P, n);
  }

  lemma ResetKeepsSizes(P: Primitives, n: Node, commitOk: bool, b: Birth)
    requires Sized(n) && Made(b)
    ensures var m := FactoryReset(P, n, commitOk, b); Sized(m) && m.deviceType == n.deviceType
  {
    hide Constructed, Keys32;
    if commitOk {
      ConstructedIsSized(P, n.deviceType, Memory(map[], map[]), n.ring, b);
    }
  }

  // ----- a station's acts, as messages -----

  ghost predicate Represented(P: Primitives, t: Traffic, wires: set<Wire>) {
    exists w :: w in wires && Carries(P, t.packet, w) && w.micKey == t.micKey
  }

  lemma MoreWires(P: Primitives, t: Traffic, wires: set<Wire>, more: set<Wire>)
    requires Represented(P, t, wires) && wires <= more
    ensures Represented(P, t, more)
  {
  }

  lemma SendingKeepsNode(P: Primitives, st: D.Station, topic: byte, data: seq<byte>, target: Id, air: D.Air)
    ensures D.Sent(P, st, topic, data, target, air).0.node == st.node
    ensures air.radioRc != RM_E_NONE ==> D.Sent(P, st, topic, data, target, air).0.link.air == st.link.air
  {
    hide Transmission, D.Originated, CanSend, Tracker.AddTo, ToBytes;
  }

  lemma ActingKeepsTurn(P: Primitives, st: D.Station, t: Turn, air: D.Air)
    ensures D.Acted(P, st, t, air).0.node == t.node
    ensures air.radioRc != RM_E_NONE ==> D.Acted(P, st, t, air).0.link.air == st.link.air
  {
    hide D.Sent;
    if t.action.SendData? {
      SendingKeepsNode(P, st.(node := t.node), t.action.topic, t.action.payload, BROADCAST_ADDR, air);
    }
  }

  /** Wires all carry the MIC key of their sender for their topic. */
  lemma WireHasKey(P: Primitives, n: Node, origin: Origin, a: Action)
    ensures forall w :: w in OnWire(P, n, origin, a) ==> w.micKey == KeyOfMic(P, n, w.topic)
  {
    hide Crypted, SealKey, MicKey, CanSend;
  }

  /** What the last act of a handler adds is represented by the message it sends. */
  lemma ActIsRepresented(P: Primitives, before: D.Station, st: D.Station, t: Turn, origin: Origin, air: D.Air,
                         after: D.Station)
    requires Sound(P) && Keys32(t.node.ring) && before.link.air == st.link.air
    requires t.action.SendData? && t.action.topic == INCLUDE_RESPONSE ==> t.node.deviceType == HUB
    requires after.link.air == D.Acted(P, st, t, air).0.link.air && after.node == t.node
    ensures forall x :: x in Added(P, before, after) ==> Represented(P, x, OnWire(P, t.node, origin, t.action))
  {
    hide D.Acted, OnWire, Carries, Keys32, ToBytes, Parse, MicKey;
    ActingKeepsTurn(P, st, t, air);
    if air.radioRc == RM_E_NONE {
      var q := InclusionOnAir.ActingIsOnWire(P, st, t, origin, air);
      var wires := OnWire(P, t.node, origin, t.action);
      WireHasKey(P, t.node, origin, t.action);
      Sealing.BytesParse(q);
      if wires != {} {
        var w :| w in wires;
        assert Carries(P, q, w);
        assert q.topic == w.topic by { CarriedTopic(P, q, w); }
        assert Represented(P, Traffic(q, KeyOfMic(P, t.node, q.topic)), wires);
      }
    }
  }

  lemma CarriedTopic(P: Primitives, q: Packet, w: Wire)
    requires Carries(P, q, w)
    ensures q.topic == w.topic
  {
  }

  // ----- a station's receptions, as messages heard -----

  lemma SentNoInclusion(P: Primitives, st: D.Station, topic: byte, data: seq<byte>, target: Id, air: D.Air)
    requires !D.IsInclusionMessage(topic)
    ensures forall x :: x in Added(P, st, D.Sent(P, st, topic, data, target, air).0) ==>
              !D.IsInclusionMessage(x.packet.topic)
  {
    hide D.Sent, Parse, D.IsInclusionMessage, MicKey;
    Flood.SendingAnswersOnce(P, st, topic, data, target, air);
  }

  lemma OtherKeepsNode(P: Primitives, st: D.Station, q: Packet, env: Env, air: D.Air)
    requires !D.IsInclusionMessage(q.topic)
    ensures var after := D.Received(P, st, q, env, air).0;
      after.node == st.node && forall x :: x in Added(P, st, after) ==> !D.IsInclusionMessage(x.packet.topic)
  {
    Flood.AnswersOnce(P, st, q, env, air);
    D.GenuineKeepsHeader(P, D.Who(st), st.link.recency, q);
    hide D.Judged, D.Plain, Transmission, Tracker.FindIn, Tracker.AddTo, ToBytes, Parse, MicKey, Value;
  }

  /** A packet that is not genuine leaves no trace in the node or on air. */
  lemma RejectedKeepsNode(P: Primitives, st: D.Station, q: Packet, env: Env, air: D.Air)
    requires !D.Judged(P, D.Who(st), st.link.recency, q).Genuine?
    ensures var after := D.Received(P, st, q, env, air).0; after.node == st.node && after.link.air == st.link.air
  {
    hide D.Judged, Tracker.FindIn;
  }

  /** A genuine inclusion message goes to the handler, opened, and the handler's last act goes on air. */
  lemma GenuineIsActed(P: Primitives, st: D.Station, q: Packet, env: Env, air: D.Air) returns (checked: D.Station)
    requires D.IsInclusionMessage(q.topic) && D.Judged(P, D.Who(st), st.link.recency, q).Genuine?
    ensures checked.link.air == st.link.air && checked.node == st.node
    ensures var n, after := st.node, D.Received(P, st, q, env, air).0;
      var payload := Crypted(P, OpenKey(P, n.ring, q.topic, n.deviceType, n.state), [], D.Stripped(q).packetData);
      var t := Handled(P, n, q.topic, payload, env);
      after.link.air == D.Acted(P, checked, t, air).0.link.air && after.node == t.node
  {
    checked := st.(link := st.link.(recency := Tracker.FindIn(st.link.recency, Key(q))));
    assert D.Judged(P, D.Who(st), st.link.recency, q) == D.Genuine(D.Stripped(q)) by { GenuineIsStripped(P, st, q); }
    var n := st.node;
    var payload := Crypted(P, OpenKey(P, n.ring, q.topic, n.deviceType, n.state), [], D.Stripped(q).packetData);
    ActingKeepsTurn(P, checked, Handled(P, n, q.topic, payload, env), air);
    InclusionOnAir.StrippedIsPayload(q);
    hide D.Judged, D.Acted, Crypted, OpenKey, Handled, Tracker.FindIn, D.Stripped, DataWithoutMic, D.IsInclusionMessage;
  }

  lemma GenuineIsStripped(P: Primitives, st: D.Station, q: Packet)
    requires D.Judged(P, D.Who(st), st.link.recency, q).Genuine?
    ensures D.Judged(P, D.Who(st), st.link.recency, q) == D.Genuine(D.Stripped(q)) && D.MicHolds(P, D.Who(st), q)
  {
    hide D.MicHolds, D.Stripped, Seen, Crc32.PacketCrc, DataWithoutMic;
  }

  /** Where the MIC is not forged, the message that the packet carries is heard as that payload. */
  lemma GenuineIsHeard(P: Primitives, st: D.Station, t: Traffic, w: Wire)
    requires Sound(P) && Keys32(st.node.ring) && D.Judged(P, D.Who(st), st.link.recency, t.packet).Genuine?
    requires Carries(P, t.packet, w) && w.micKey == t.micKey && Unforged(P, st, t)
    ensures var n, q := st.node, t.packet;
      Heard(P, n, w) ==
      Some(Crypted(P, OpenKey(P, n.ring, q.topic, n.deviceType, n.state), [], D.Stripped(q).packetData))
  {
    GenuineIsStripped(P, st, t.packet);
    InclusionOnAir.StrippedIsPayload(t.packet);
    MicNeedsKey(P, st, t.packet);
    hide D.Judged, D.MicHolds, D.Stripped, Crypted, OpenKey, MicKey, DataWithoutMic, HasMic, ExtractMic, AesCmac.Mic,
      HeaderBytes, Crc32.PacketCrc;
  }

  lemma MicNeedsKey(P: Primitives, st: D.Station, q: Packet)
    requires D.MicHolds(P, D.Who(st), q)
    ensures RequiresMic(q.topic) ==> KeyOfMic(P, st.node, q.topic) != []
  {
    hide MicKey, HeaderBytes, DataWithoutMic, ExtractMic, HasMic;
  }

  // ----- the simulation -----

  /** The system has the nodes of the stations, and a message for every inclusion packet on air. */
  ghost predicate Mirrors(P: Primitives, net: Network, s: System) {
    && net.now == s.now && net.hub.node == s.hub && s.hub.deviceType == HUB && Sized(s.hub)
    && |net.devices| == |s.devices|
    && (forall i :: 0 <= i < |s.devices| ==> MirrorsDevice(net.devices[i], s.devices[i]))
    && (forall t :: t in net.air ==> RepresentedIfInclusion(P, t, s.wires))
  }

  predicate MirrorsDevice(st: D.Station, m: Member) {
    st.node == m.node && m.node.deviceType == STANDARD && Sized(m.node)
  }

  ghost predicate RepresentedIfInclusion(P: Primitives, t: Traffic, wires: set<Wire>) {
    D.IsInclusionMessage(t.packet.topic) ==> Represented(P, t, wires)
  }

  /** The step is of the event's kind, with the same outcome. */
  predicate Matches(e: Event, step: Step) {
    match step
    case HubHears(_, _) => e.HubReceives?
    case HubBoots(b) => e.HubStarts? && e.b == b
    case DeviceHears(i, _, o) => e.DeviceReceives? && e.i == i && e.env.outcome == o
    case DeviceRuns(i, o) => e == DeviceChecks(i, o)
    case DeviceBoots(i, b) => e.DeviceStarts? && e.i == i && e.b == b
    case DeviceResets(i, commitOk, b) => e == DeviceRestores(i, commitOk, b)
    case HubEnters => e == HubSwitches(true)
    case HubExits => e == HubSwitches(false)
    case HubOpens => e.HubOffers?
    case HubRuns => e.HubChecks?
    case Ticks(ms) => e == Passes(ms)
  }

  /** The hub's part of the relation, after a turn with this message. */
  lemma HubStillMirrors(P: Primitives, net: Network, s: System, after: D.Station, t: Turn)
    requires Mirrors(P, net, s) && after.node == t.node && Sized(t.node) && t.node.deviceType == HUB
    requires forall x :: x in Added(P, net.hub, after) ==>
                           RepresentedIfInclusion(P, x, OnWire(P, t.node, TheHub, t.action))
    ensures Mirrors(P, HubBecomes(P, net, after), HubMoves(P, s, t))
  {
    hide OnWire, Added, MirrorsDevice, Represented, Sized, D.IsInclusionMessage;
    var r, n := HubMoves(P, s, t), HubBecomes(P, net, after);
    forall x | x in n.air ensures RepresentedIfInclusion(P, x, r.wires) {
      if x in net.air {
        StaysRepresented(P, x, s.wires, r.wires);
      } else {
        StaysRepresented(P, x, OnWire(P, t.node, TheHub, t.action), r.wires);
      }
    }
  }

  lemma StaysRepresented(P: Primitives, t: Traffic, wires: set<Wire>, more: set<Wire>)
    requires RepresentedIfInclusion(P, t, wires) && wires <= more
    ensures RepresentedIfInclusion(P, t, more)
  {
    hide Represented, D.IsInclusionMessage;
    if D.IsInclusionMessage(t.packet.topic) {
      MoreWires(P, t, wires, more);
    }
  }

  lemma DeviceStillMirrors(P: Primitives, net: Network, s: System, i: nat, after: D.Station, t: Turn, o: WriteOutcome)
    requires Mirrors(P, net, s) && i < |s.devices| && after.node == t.node && Sized(t.node)
      && t.node.deviceType == STANDARD
    requires forall x :: x in Added(P, net.devices[i], after) ==>
                           RepresentedIfInclusion(P, x, OnWire(P, t.node, Device(i), t.action))
    ensures Mirrors(P, DeviceBecomes(P, net, i, after), DeviceMoves(P, s, i, t, o))
  {
    hide OnWire, Added, Represented, Sized, D.IsInclusionMessage, LostHearing, Accepted;
    var r, n := DeviceMoves(P, s, i, t, o), DeviceBecomes(P, net, i, after);
    forall x | x in n.air ensures RepresentedIfInclusion(P, x, r.wires) {
      if x in net.air {
        StaysRepresented(P, x, s.wires, r.wires);
      } else {
        StaysRepresented(P, x, OnWire(P, t.node, Device(i), t.action), r.wires);
      }
    }
  }

  /** Events that change no node and add no inclusion packet need no step. */
  lemma HubIdles(P: Primitives, net: Network, s: System, after: D.Station)
    requires Mirrors(P, net, s) && after.node == net.hub.node
    requires forall x :: x in Added(P, net.hub, after) ==> !D.IsInclusionMessage(x.packet.topic)
    ensures Mirrors(P, HubBecomes(P, net, after), s)
  {
    hide Added, MirrorsDevice, Represented, Sized, D.IsInclusionMessage;
  }

  lemma DeviceIdles(P: Primitives, net: Network, s: System, i: nat, after: D.Station)
    requires Mirrors(P, net, s) && i < |net.devices| && after.node == net.devices[i].node
    requires forall x :: x in Added(P, net.devices[i], after) ==> !D.IsInclusionMessage(x.packet.topic)
    ensures Mirrors(P, DeviceBecomes(P, net, i, after), s)
  {
    hide Added, Represented, Sized, D.IsInclusionMessage;
  }

  /** A hub's handlers do not depend on how a write goes, a device's not on the random bytes. */
  lemma OutcomeDoesNotMatter(P: Primitives, n: Node, topic: byte, payload: seq<byte>, env: Env)
    ensures n.deviceType == HUB ==>
      Handled(P, n, topic, payload, env) == Handled(P, n, topic, payload, env.(outcome := NoRoom))
    ensures n.deviceType != HUB ==>
      Handled(P, n, topic, payload, env) == Handled(P, n, topic, payload, env.(random := []))
  {
    hide OnOpen, OnResponse, OnSuccess, OnRequest, OnConfirm;
  }

  lemma DevicesDoNotRespond(P: Primitives, n: Node, topic: byte, payload: seq<byte>, env: Env)
    ensures var t := Handled(P, n, topic, payload, env);
      t.node.deviceType == n.deviceType
      && (t.action.SendData? && t.action.topic == INCLUDE_RESPONSE ==> t.node.deviceType == HUB)
  {
    hide StoredPublicKey, Confirmation, Stored;
  }

  lemma OneStep(P: Primitives, s: System, step: Step)
    requires Enabled(P, s, step)
    ensures Legal(P, s, [step]) && Run(P, s, [step]) == Next(P, s, step)
  {
    hide Enabled, Next;
    assert [step][1..] == [];
  }

  lemma NoStep(P: Primitives, s: System)
    ensures Legal(P, s, []) && Run(P, s, []) == s
  {
  }

  lemma SilentAdds(P: Primitives, before: D.Station, after: D.Station)
    requires after.link.air == before.link.air
    ensures Added(P, before, after) == {}
  {
  }

  lemma NotedWire(P: Primitives, net: Network, s: System, t: Traffic) returns (w: Wire)
    requires Mirrors(P, net, s) && t in net.air && D.IsInclusionMessage(t.packet.topic)
    ensures w in s.wires && Carries(P, t.packet, w) && w.micKey == t.micKey
  {
    hide Carries, D.IsInclusionMessage, Sized;
    assert RepresentedIfInclusion(P, t, s.wires);
    w :| w in s.wires && Carries(P, t.packet, w) && w.micKey == t.micKey;
  }

  /** A station that takes an inclusion message: its turn is the handler's, on the message as it is heard. */
  lemma Reception(P: Primitives, st: D.Station, t: Traffic, w: Wire, env: Env, air: D.Air, origin: Origin)
    returns (turn: Turn)
    requires Sound(P) && Sized(st.node) && D.IsInclusionMessage(t.packet.topic) && Unforged(P, st, t)
    requires Carries(P, t.packet, w) && w.micKey == t.micKey
    requires D.Judged(P, D.Who(st), st.link.recency, t.packet).Genuine?
    ensures Heard(P, st.node, w).Some? && turn == Handled(P, st.node, w.topic, Heard(P, st.node, w).value, env)
    ensures var after := D.Received(P, st, t.packet, env, air).0;
      && after.node == turn.node && Sized(turn.node) && turn.node.deviceType == st.node.deviceType
      && forall x :: x in Added(P, st, after) ==>
                       RepresentedIfInclusion(P, x, OnWire(P, turn.node, origin, turn.action))
  {
    CarriedTopic(P, t.packet, w);
    hide D.Judged, D.Acted, D.Received, Unforged, Carries, Heard, Handled, OnWire, Added, Keys32, Crypted, OpenKey,
      D.Stripped, D.IsInclusionMessage, Represented;
    GenuineIsHeard(P, st, t, w);
    var checked := GenuineIsActed(P, st, t.packet, env, air);
    var payload := Heard(P, st.node, w).value;
    turn := Handled(P, st.node, w.topic, payload, env);
    HandledKeepsSizes(P, st.node, w.topic, payload, env);
    DevicesDoNotRespond(P, st.node, w.topic, payload, env);
    ActIsRepresented(P, st, checked, turn, origin, air, D.Received(P, st, t.packet, env, air).0);
  }

  lemma HubReception(P: Primitives, net: Network, s: System, t: Traffic, env: Env, air: D.Air)
    returns (steps: seq<Step>)
    requires Sound(P) && Mirrors(P, net, s) && Receivable(P, net, net.hub, t, env)
    ensures Legal(P, s, steps) && forall x :: x in steps ==> Matches(HubReceives(t, env, air), x)
    ensures Mirrors(P, HubBecomes(P, net, D.Received(P, net.hub, t.packet, env, air).0), Run(P, s, steps))
  {
    hide Mirrors, Unforged, D.Received, D.Judged, Added, OnWire, Handled, Heard, Carries, D.IsInclusionMessage, Legal,
      Run, Sized;
    var st, after := net.hub, D.Received(P, net.hub, t.packet, env, air).0;
    NoStep(P, s);
    steps := [];
    if !D.IsInclusionMessage(t.packet.topic) {
      OtherKeepsNode(P, st, t.packet, env, air);
      HubIdles(P, net, s, after);
    } else if !D.Judged(P, D.Who(st), st.link.recency, t.packet).Genuine? {
      RejectedKeepsNode(P, st, t.packet, env, air);
      SilentAdds(P, st, after);
      HubIdles(P, net, s, after);
    } else {
      MirroredHub(P, net, s);
      var w := NotedWire(P, net, s, t);
      var turn := Reception(P, st, t, w, env, air, TheHub);
      OutcomeDoesNotMatter(P, s.hub, w.topic, Heard(P, s.hub, w).value, env);
      HubStillMirrors(P, net, s, after, turn);
      OneStep(P, s, HubHears(w, env.random));
      steps := [HubHears(w, env.random)];
    }
  }

  lemma MirroredHub(P: Primitives, net: Network, s: System)
    requires Mirrors(P, net, s)
    ensures net.hub.node == s.hub && s.hub.deviceType == HUB && Sized(s.hub) && net.now == s.now
  {
  }

  lemma MirroredDevice(P: Primitives, net: Network, s: System, i: nat)
    requires Mirrors(P, net, s) && i < |net.devices|
    ensures |net.devices| == |s.devices| && net.devices[i].node == s.devices[i].node && net.now == s.now
    ensures s.devices[i].node.deviceType == STANDARD && Sized(s.devices[i].node)
  {
    hide Sized;
    assert MirrorsDevice(net.devices[i], s.devices[i]);
  }

  lemma DeviceReception(P: Primitives, net: Network, s: System, i: nat, t: Traffic, env: Env, air: D.Air)
    returns (steps: seq<Step>)
    requires Sound(P) && Mirrors(P, net, s) && i < |net.devices| && Receivable(P, net, net.devices[i], t, env)
    ensures Legal(P, s, steps) && forall x :: x in steps ==> Matches(DeviceReceives(i, t, env, air), x)
    ensures Mirrors(P, DeviceBecomes(P, net, i, D.Received(P, net.devices[i], t.packet, env, air).0), Run(P, s, steps))
  {
    hide Mirrors, Unforged, D.Received, D.Judged, Added, OnWire, Handled, Heard, Carries, D.IsInclusionMessage, Legal,
      Run, Sized, LostHearing, Accepted;
    MirroredDevice(P, net, s, i);
    var st, after := net.devices[i], D.Received(P, net.devices[i], t.packet, env, air).0;
    NoStep(P, s);
    steps := [];
    if !D.IsInclusionMessage(t.packet.topic) {
      OtherKeepsNode(P, st, t.packet, env, air);
      DeviceIdles(P, net, s, i, after);
    } else if !D.Judged(P, D.Who(st), st.link.recency, t.packet).Genuine? {
      RejectedKeepsNode(P, st, t.packet, env, air);
      SilentAdds(P, st, after);
      DeviceIdles(P, net, s, i, after);
    } else {
      var w := NotedWire(P, net, s, t);
      var turn := Reception(P, st, t, w, env, air, Device(i));
      OutcomeDoesNotMatter(P, st.node, w.topic, Heard(P, st.node, w).value, env);
      DeviceStillMirrors(P, net, s, i, after, turn, env.outcome);
      OneStep(P, s, DeviceHears(i, w, env.outcome));
      steps := [DeviceHears(i, w, env.outcome)];
    }
  }

  // ----- the other events -----

  lemma HubChanges(P: Primitives, net: Network, s: System, st: D.Station, n: Node)
    requires Mirrors(P, net, s) && st.node == n && Sized(n) && n.deviceType == HUB
    ensures Mirrors(P, net.(hub := st), s.(hub := n))
  {
    hide MirrorsDevice, RepresentedIfInclusion, Sized;
  }

  lemma DeviceChanges(P: Primitives, net: Network, s: System, i: nat, st: D.Station, m: Member)
    requires Mirrors(P, net, s) && i < |net.devices| && st.node == m.node && Sized(m.node)
      && m.node.deviceType == STANDARD
    ensures |s.devices| == |net.devices|
    ensures Mirrors(P, net.(devices := net.devices[i := st]), s.(devices := s.devices[i := m]))
  {
    hide RepresentedIfInclusion, Sized;
  }

  lemma HubEvent(P: Primitives, net: Network, s: System, e: Event) returns (steps: seq<Step>)
    requires Sound(P) && Mirrors(P, net, s) && Possible(P, net, e)
    requires e.HubSwitches? || e.HubOffers? || e.HubChecks? || e.HubStarts?
    ensures Legal(P, s, steps) && forall x :: x in steps ==> Matches(e, x)
    ensures Mirrors(P, After(P, net, e), Run(P, s, steps))
  {
    hide Mirrors, Added, OnWire, Legal, Run, Sized, Entered, Exited, Opened, Checked, Booted, D.Acted, Represented;
    MirroredHub(P, net, s);
    var clock := Millis(net.now);
    assert Keys32(s.hub.ring) by { SizedHasKeys(s.hub); }
    hide Keys32;
    var step;
    match e {
      case HubSwitches(inclusionMode) =>
        HubTurnsKeepSizes(P, s.hub, clock);
        step := if inclusionMode then HubEnters else HubExits;
        var t := if inclusionMode then Entered(s.hub) else Exited(s.hub, clock, NoRoom);
        SwitchesSendNothing(P, s.hub, clock);
        HubChanges(P, net, s, net.hub.(node := t.node), t.node);
        assert s.wires + {} == s.wires;
      case HubOffers(air) =>
        HubTurnsKeepSizes(P, s.hub, clock);
        step := HubOpens;
        var t := Opened(P, s.hub, clock);
        var after := D.Acted(P, net.hub, t, air).0;
        ActingKeepsTurn(P, net.hub, t, air);
        OffersDoNotRespond(P, s.hub, clock);
        assert Keys32(t.node.ring) by { SizedHasKeys(t.node); }
        ActIsRepresented(P, net.hub, net.hub, t, TheHub, air, after);
        HubStillMirrors(P, net, s, after, t);
      case HubChecks =>
        CheckedKeepsSizes(s.hub, clock, NoRoom);
        step := HubRuns;
        HubChanges(P, net, s, net.hub.(node := Checked(s.hub, clock, NoRoom)), Checked(s.hub, clock, NoRoom));
      case HubStarts(b, st) =>
        step := HubBoots(b);
        assert Shaped(s.hub.memory.flash) by { SizedHasKeys(s.hub); }
        BootedIsSized(P, HUB, s.hub.memory.flash, b);
        HubChanges(P, net, s, st, st.node);
    }
    OneStep(P, s, step);
    steps := [step];
  }

  lemma SizedHasKeys(n: Node)
    requires Sized(n)
    ensures Keys32(n.ring) && Shaped(n.memory.ram) && Shaped(n.memory.flash)
  {
  }

  lemma SwitchesSendNothing(P: Primitives, n: Node, clock: nat)
    ensures OnWire(P, Entered(n).node, TheHub, Entered(n).action) == {}
    ensures OnWire(P, Exited(n, clock, NoRoom).node, TheHub, Exited(n, clock, NoRoom).action) == {}
  {
  }

  lemma OffersDoNotRespond(P: Primitives, n: Node, clock: nat)
    ensures var a := Opened(P, n, clock).action; a.SendData? ==> a.topic != INCLUDE_RESPONSE
  {
    hide StoredPublicKey;
  }

  lemma DeviceEvent(P: Primitives, net: Network, s: System, e: Event) returns (steps: seq<Step>)
    requires Sound(P) && Mirrors(P, net, s) && Possible(P, net, e)
    requires e.DeviceSwitches? || e.DeviceChecks? || e.DeviceStarts? || e.DeviceRestores?
    ensures Legal(P, s, steps) && forall x :: x in steps ==> Matches(e, x)
    ensures Mirrors(P, After(P, net, e), Run(P, s, steps))
  {
    hide Mirrors, Legal, Run, Sized, Checked, Booted, FactoryReset, Ready, Shaped;
    MirroredDevice(P, net, s, e.i);
    var clock, st, m := Millis(net.now), net.devices[e.i], s.devices[e.i];
    var step;
    match e {
      case DeviceSwitches(i, relayEnabled) =>
        DeviceChanges(P, net, s, i, st.(relayEnabled := relayEnabled), m);
        assert s.(devices := s.devices[i := m]) == s;
        NoStep(P, s);
        steps := [];
        return;
      case DeviceChecks(i, o) =>
        CheckedKeepsSizes(m.node, clock, o);
        step := DeviceRuns(i, o);
        var n := Checked(m.node, clock, o);
        DeviceChanges(P, net, s, i, st.(node := n), Moved(m, n, s.now).(lastRun := s.now));
      case DeviceStarts(i, b, started) =>
        step := DeviceBoots(i, b);
        assert Shaped(m.node.memory.flash) by { SizedHasKeys(m.node); }
        BootedIsSized(P, STANDARD, m.node.memory.flash, b);
        DeviceChanges(P, net, s, i, started, DeviceBooted(P, m, b, s.now));
      case DeviceRestores(i, commitOk, b) =>
        step := DeviceResets(i, commitOk, b);
        ResetKeepsSizes(P, m.node, commitOk, b);
        DeviceChanges(P, net, s, i, st.(node := FactoryReset(P, m.node, commitOk, b),
                                        counter := if commitOk then 0 else st.counter),
                      DeviceReset(P, m, commitOk, b, s.now));
    }
    OneStep(P, s, step);
    steps := [step];
  }

  lemma OtherEvent(P: Primitives, net: Network, s: System, e: Event) returns (steps: seq<Step>)
    requires Sound(P) && Mirrors(P, net, s) && Possible(P, net, e) && (e.HubSends? || e.DeviceSends? || e.Passes?)
    ensures Legal(P, s, steps) && forall x :: x in steps ==> Matches(e, x)
    ensures Mirrors(P, After(P, net, e), Run(P, s, steps))
  {
    hide Legal, Run, Sized, D.Sent, Added, D.IsInclusionMessage, MirrorsDevice, RepresentedIfInclusion;
    NoStep(P, s);
    steps := [];
    match e {
      case HubSends(topic, data, target, air) =>
        SendingKeepsNode(P, net.hub, topic, data, target, air);
        SentNoInclusion(P, net.hub, topic, data, target, air);
        HubIdles(P, net, s, D.Sent(P, net.hub, topic, data, target, air).0);
      case DeviceSends(i, topic, data, target, air) =>
        SendingKeepsNode(P, net.devices[i], topic, data, target, air);
        SentNoInclusion(P, net.devices[i], topic, data, target, air);
        DeviceIdles(P, net, s, i, D.Sent(P, net.devices[i], topic, data, target, air).0);
      case Passes(ms) =>
        OneStep(P, s, Ticks(ms));
        steps := [Ticks(ms)];
    }
  }

  lemma EventIsMirrored(P: Primitives, net: Network, s: System, e: Event) returns (steps: seq<Step>)
    requires Sound(P) && Mirrors(P, net, s) && Possible(P, net, e)
    ensures Legal(P, s, steps) && forall x :: x in steps ==> Matches(e, x)
    ensures Mirrors(P, After(P, net, e), Run(P, s, steps))
  {
    hide Legal, Run, Mirrors, Receivable, HubBecomes, DeviceBecomes, D.Received, Matches;
    match e
    case HubReceives(t, env, air) => steps := HubReception(P, net, s, t, env, air);
    case DeviceReceives(i, t, env, air) => steps := DeviceReception(P, net, s, i, t, env, air);
    case HubSends(_, _, _, _) => steps := OtherEvent(P, net, s, e);
    case DeviceSends(_, _, _, _, _) => steps := OtherEvent(P, net, s, e);
    case Passes(_) => steps := OtherEvent(P, net, s, e);
    case HubSwitches(_) => steps := HubEvent(P, net, s, e);
    case HubOffers(_) => steps := HubEvent(P, net, s, e);
    case HubChecks => steps := HubEvent(P, net, s, e);
    case HubStarts(_, _) => steps := HubEvent(P, net, s, e);
    case DeviceSwitches(_, _) => steps := DeviceEvent(P, net, s, e);
    case DeviceChecks(_, _) => steps := DeviceEvent(P, net, s, e);
    case DeviceStarts(_, _, _) => steps := DeviceEvent(P, net, s, e);
    case DeviceRestores(_, _, _) => steps := DeviceEvent(P, net, s, e);
  }

  // ----- every run -----

  ghost predicate MatchesOne(es: seq<Event>, step: Step) {
    exists e :: e in es && Matches(e, step)
  }

  /**
   Every run of a network of stations, packets, relays, trackers and all, is a run of the system: there are
   legal steps, each for one of its events, that end with the nodes of the stations and with a message
   for every inclusion packet ever put on air.
   */
  lemma {:induction false} EveryRunIsMirrored(P: Primitives, net: Network, s: System, es: seq<Event>)
    returns (steps: seq<Step>)
    requires Sound(P) && Mirrors(P, net, s) && Happens(P, net, es)
    ensures Legal(P, s, steps) && Mirrors(P, AllAfter(P, net, es), Run(P, s, steps))
    ensures forall x :: x in steps ==> MatchesOne(es, x)
    decreases |es|
  {
    hide Mirrors, Possible, After, Matches, Legal, Run;
    NoStep(P, s);
    steps := [];
    if es != [] {
      var now := EventIsMirrored(P, net, s, es[0]);
      var later := EveryRunIsMirrored(P, After(P, net, es[0]), Run(P, s, now), es[1..]);
      RunsCompose(P, s, now, later);
      steps := now + later;
      forall x | x in steps ensures MatchesOne(es, x) {
        if x in now {
          assert Matches(es[0], x);
        } else {
          var e :| e in es[1..] && Matches(e, x);
          assert e in es;
        }
      }
    }
  }

  /** A station of the network is never reset, or its resets commit both their clearing and a new key pair. */
  predicate DoneNoHarm(P: Primitives, e: Event, i: nat) {
    e.DeviceRestores? && e.i == i ==> e.commitOk && Ready(P, map[], e.b)
  }

  lemma MatchedDoNoHarm(P: Primitives, es: seq<Event>, steps: seq<Step>, i: nat)
    requires forall x :: x in steps ==> MatchesOne(es, x)
    ensures (forall e :: e in es ==> DoneNoHarm(P, e, i)) ==> Unharmed(P, steps, i)
    ensures (forall e :: e in es ==> !e.HubStarts?) ==> forall k :: 0 <= k < |steps| ==> !steps[k].HubBoots?
  {
    hide Ready;
    forall k | 0 <= k < |steps|
      ensures (forall e :: e in es ==> DoneNoHarm(P, e, i)) ==> Harmless(P, steps[k], i)
      ensures (forall e :: e in es ==> !e.HubStarts?) ==> !steps[k].HubBoots?
    {
      assert MatchesOne(es, steps[k]);
      var e :| e in es && Matches(e, steps[k]);
      assert DoneNoHarm(P, e, i) ==> Harmless(P, steps[k], i);
    }
  }

  /**
   So what holds of the system holds of the stations: at the end of every run of the network in which the
   hub's key outlives its starts, a device none of whose resets failed to commit, once included, holds
   the hub's network key in RAM, in flash and in its encryption service.
   */
  lemma StationsHoldTheKey(P: Primitives, net: Network, s: System, networkKey: seq<byte>, es: seq<Event>, i: nat)
    requires Sound(P) && Initial(P, s, networkKey) && Mirrors(P, net, s) && Happens(P, net, es)
    requires Holds(s.hub.memory.flash, networkKey) || forall e :: e in es ==> !e.HubStarts?
    requires i < |s.devices| && !s.devices[i].garbled && forall e :: e in es ==> DoneNoHarm(P, e, i)
    ensures i < |AllAfter(P, net, es).devices|
    ensures var n := AllAfter(P, net, es).devices[i].node; n.state == INCLUDED ==> Keyed(n, networkKey)
  {
    hide Initial, Mirrors, Happens, AllAfter, Legal, Run, Holds, Keyed, DoneNoHarm, Unharmed, MatchesOne;
    var steps := EveryRunIsMirrored(P, net, s, es);
    MatchedDoNoHarm(P, es, steps, i);
    UnharmedDeviceHoldsTheKey(P, s, steps, networkKey, i);
    MirroredIndex(P, AllAfter(P, net, es), Run(P, s, steps), i);
  }

  lemma MirroredIndex(P: Primitives, net: Network, s: System, i: nat)
    requires Mirrors(P, net, s) && i < |s.devices|
    ensures i < |net.devices| && net.devices[i].node == s.devices[i].node
  {
    hide Sized, RepresentedIfInclusion;
    assert MirrorsDevice(net.devices[i], s.devices[i]);
  }

  /** Stations that have just come up, on any flash of the right shape, mirror a system with nothing on air. */
  lemma FreshNetworkIsMirrored(P: Primitives, net: Network, s: System)
    requires net.air == {} && s.wires == {} && net.now == s.now && |net.devices| == |s.devices|
    requires net.hub.node == s.hub && IsFresh(P, s.hub, HUB)
    requires forall i :: 0 <= i < |s.devices| ==>
                           net.devices[i].node == s.devices[i].node && IsFresh(P, s.devices[i].node, STANDARD)
    ensures Mirrors(P, net, s)
  {
    hide Sized, Booted, Shaped;
    FreshIsSized(P, s.hub, HUB);
    forall i | 0 <= i < |s.devices| ensures MirrorsDevice(net.devices[i], s.devices[i]) {
      FreshIsSized(P, s.devices[i].node, STANDARD);
    }
  }

  ghost predicate IsFresh(P: Primitives, n: Node, deviceType: MeshDeviceType) {
    exists flash, b :: Shaped(flash) && Made(b) && n == Booted(P, deviceType, flash, b)
  }

  lemma FreshIsSized(P: Primitives, n: Node, deviceType: MeshDeviceType)
    requires IsFresh(P, n, deviceType)
    ensures Sized(n) && n.deviceType == deviceType
  {
    hide Sized, Booted, Shaped;
    var flash, b :| Shaped(flash) && Made(b) && n == Booted(P, deviceType, flash, b);
    BootedIsSized(P, deviceType, flash, b);
  }
}
