/** The exceptions of the join protocol do happen: runs that end in them, and a network they happen in. */
module InclusionLosses {
  import opened Bytes
  import opened Clock
  import opened Definitions
  import opened Packet
  import opened AesCrypto
  import opened DeviceStorage
  import opened EepromLog
  import opened InclusionController
  import opened InclusionSystem
  import opened InclusionNonce
  import opened InclusionSafety
  import opened InclusionTiming
  import opened InclusionJoin

  // ----- a device loses power while it is pending -----

  lemma PendingIsStored(P: Primitives, hub: Node, device: Node, clock: nat)
    requires Sound(P) && Equipped(P, hub) && Equipped(P, device)
    requires device.deviceType == STANDARD && device.state == NOT_INCLUDED && device.protocolState == PROTOCOL_IDLE
    ensures var n := Handled(P, device, INCLUDE_OPEN, PublicKey(P, hub), Env(clock, [], Committed)).node;
      LoadedState(n.memory.flash) == INCLUSION_PENDING && UsablePair(P, n.memory.flash)
  {
  }

  /** Wherever a device can join, it can lose power after the first message it hears, and is stuck from then on. */
  lemma PowerLossCanStick(P: Primitives, s: System, i: nat, key: seq<byte>, networkKey: seq<byte>, b: Birth)
    returns (steps: seq<Step>)
    requires Sound(P) && Safe(P, s, networkKey) && Joinable(P, s, i, key)
    ensures Legal(P, s, steps)
    ensures var r := Run(P, s, steps); |r.devices| == |s.devices| && Stuck(P, r.devices[i].node)
  {
    var hub, device := s.hub, s.devices[i].node;
    var s2 := Opening(P, s, networkKey);
    assert SafeDevice(s.devices[i], networkKey);
    var open := OpenWire(P, hub);
    assert open.topic == INCLUDE_OPEN;
    hide Handled, Heard, OnWire, Next, Enabled, OpenWire, Safe, Legal, Run, Stuck, UsablePair, PublicKey, LoadedState;
    DeviceTakesOpen(P, i, hub, device, Millis(s2.now));
    PendingIsStored(P, hub, device, Millis(s2.now));
    DeviceHearing(P, s2, i, open, Committed);
    NoSteps(P, s);
    AndThen(P, s, [], HubEnters);
    AndThen(P, s, [] + [HubEnters], HubOpens);
    steps := [] + [HubEnters] + [HubOpens];
    var step := DeviceHears(i, open, Committed);
    AndThen(P, s, steps, step);
    steps := steps + [step];
    var r := Run(P, s, steps);
    BootIsPossible(P, r, i, b);
    BootSticksIffPending(P, r.devices[i].node.memory.flash, b);
    AndThen(P, s, steps, DeviceBoots(i, b));
    steps := steps + [DeviceBoots(i, b)];
  }

  lemma BootIsPossible(P: Primitives, s: System, i: nat, b: Birth)
    requires i < |s.devices|
    ensures Enabled(P, s, DeviceBoots(i, b))
    ensures var r := Next(P, s, DeviceBoots(i, b));
      && |r.devices| == |s.devices| && r.devices[i].node == Booted(P, STANDARD, s.devices[i].node.memory.flash, b)
      && r.hub == s.hub
  {
    hide Booted, Ready;
  }

  // ----- a reset fails to commit -----

  /** A reset that fails to commit takes the key of any included device out of its RAM. */
  lemma FailedResetEmptiesRam(P: Primitives, s: System, i: nat, b: Birth)
    requires i < |s.devices|
    ensures Enabled(P, s, DeviceResets(i, false, b))
    ensures var r := Next(P, s, DeviceResets(i, false, b));
      && r.hub == s.hub && r.wires == s.wires && |r.devices| == |s.devices|
      && r.devices[i].node == s.devices[i].node.(memory := s.devices[i].node.memory.(ram := map[]))
  {
    hide Ready;
  }

  /** Becoming included with an emptied RAM commits a flash that says so and holds no key. */
  lemma SuccessWithoutKey(P: Primitives, n: Node, networkKey: seq<byte>, clock: nat)
    requires |networkKey| == KEY_SIZE && n.ring.networkKey == networkKey && n.memory.ram == map[]
    requires n.deviceType == STANDARD && n.state == INCLUSION_PENDING && n.protocolState == WAITING_FOR_SUCCESS
    ensures Heard(P, n, SuccessWire(networkKey)).Some?
    ensures forall payload ::
      var m := Handled(P, n, INCLUDE_SUCCESS, payload, Env(clock, [], Committed)).node;
      && m.state == INCLUDED && m.ring.networkKey == networkKey
      && m.memory.flash == m.memory.ram && LoadedState(m.memory.flash) == INCLUDED
      && NKEY !in m.memory.flash && PRIV_KEY !in m.memory.flash
  {
  }

  /**
   Wherever a device can join, a reset whose commit fails just before the hub's last message leaves it
   included with no network key in its storage, RAM or flash; and after the next boot with no key at all.
   */
  lemma FailedResetCanCostTheKey(P: Primitives, s: System, i: nat, key: seq<byte>, networkKey: seq<byte>,
                                 nonce: seq<byte>, b: Birth) returns (steps: seq<Step>)
    requires Sound(P) && Safe(P, s, networkKey) && |nonce| == NONCE_SIZE && Joinable(P, s, i, key) && Ready(P, map[], b)
    ensures Legal(P, s, steps)
    ensures var r := Run(P, s, steps);
      && |r.devices| == |s.devices| && var n := r.devices[i].node;
      && n.state == INCLUDED && LoadedState(n.memory.flash) == INCLUDED
      && NKEY !in n.memory.ram && NKEY !in n.memory.flash && n.ring.networkKey == networkKey
      && var m := Booted(P, STANDARD, n.memory.flash, b);
      && m.state == INCLUDED && NKEY !in m.memory.ram && m.ring.networkKey == []
  {
    steps := JoinUntilConfirm(P, s, i, key, networkKey, nonce);
    assert |networkKey| == KEY_SIZE;
    var confirm, success := ConfirmWire(P, i, networkKey, nonce), SuccessWire(networkKey);
    assert confirm.topic == INCLUDE_CONFIRM && success.topic == INCLUDE_SUCCESS;
    hide Enabled, Next, Safe, SafeHub, ConfirmWire, SuccessWire, Legal, Run, Handled, Heard, OnWire, Ready, LoadedState;
    var reset := DeviceResets(i, false, b);
    FailedResetEmptiesRam(P, Run(P, s, steps), i, b);
    AndThen(P, s, steps, reset);
    steps := steps + [reset];
    var r := Run(P, s, steps);
    HubTakesConfirm(P, i, r.hub, networkKey, Millis(r.now), nonce, nonce);
    HubHearing(P, r, confirm, nonce);
    AndThen(P, s, steps, HubHears(confirm, nonce));
    steps := steps + [HubHears(confirm, nonce)];
    r := Run(P, s, steps);
    SuccessWithoutKey(P, r.devices[i].node, networkKey, Millis(r.now));
    DeviceHearing(P, r, i, success, Committed);
    AndThen(P, s, steps, DeviceHears(i, success, Committed));
    steps := steps + [DeviceHears(i, success, Committed)];
    BootWithoutKey(P, Run(P, s, steps).devices[i].node.memory.flash, b);
  }

  lemma BootWithoutKey(P: Primitives, flash: Store, b: Birth)
    requires NKEY !in flash && PRIV_KEY !in flash && Ready(P, map[], b) && LoadedState(flash) == INCLUDED
    ensures var m := Booted(P, STANDARD, flash, b);
      m.state == INCLUDED && NKEY !in m.memory.ram && m.ring.networkKey == []
  {
  }

  /** A reset whose new private key is not committed leaves a device included, with no key, if memory says so. */
  lemma UncommittedKeyPairGarbles(P: Primitives, s: System, i: nat, networkKey: seq<byte>)
    requires i < |s.devices| && Safe(P, s, networkKey)
    ensures var b := Birth([], [], INCLUDED, CommitFailed, NoRoom);
      && Enabled(P, s, DeviceResets(i, true, b)) && i < |Next(P, s, DeviceResets(i, true, b)).devices|
      && var m := Next(P, s, DeviceResets(i, true, b)).devices[i];
      && m.garbled && m.node.state == INCLUDED && NKEY !in m.node.memory.ram && NKEY !in m.node.memory.flash
  {
    assert SafeDevice(s.devices[i], networkKey);
  }

  // ----- the hub reboots with a key that never reached its flash -----

  /** Wherever a device can join under such a key, the hub can leave it behind with the old one. */
  lemma RebootCanOrphanDevices(P: Primitives, s: System, i: nat, key: seq<byte>, networkKey: seq<byte>,
                               nonce: seq<byte>)
    returns (steps: seq<Step>)
    requires Sound(P) && Initial(P, s, networkKey) && |nonce| == NONCE_SIZE && Joinable(P, s, i, key)
    requires !Holds(s.hub.memory.flash, networkKey)
    ensures Legal(P, s, steps)
    ensures var r := Run(P, s, steps);
      && |r.devices| == |s.devices| && r.devices[i].node.state == INCLUDED && Keyed(r.devices[i].node, networkKey)
      && r.hub.ring.networkKey != networkKey
  {
    hide Initial, Legal, Run, Next, Booted, Holds, Keyed, LoadedState;
    InitialIsSafe(P, s, networkKey);
    steps := JoinCanComplete(P, s, i, key, networkKey, nonce);
    var b := HubMakesAnotherKey(P, s, networkKey);
    HubReboots(P, Run(P, s, steps), b);
    AndThen(P, s, steps, HubBoots(b));
    steps := steps + [HubBoots(b)];
  }

  lemma HubReboots(P: Primitives, s: System, b: Birth)
    requires |b.networkKey| == KEY_SIZE
    ensures Enabled(P, s, HubBoots(b))
    ensures var r := Next(P, s, HubBoots(b)); r.hub == Booted(P, HUB, s.hub.memory.flash, b) && r.devices == s.devices
  {
    hide Booted;
  }

  /**
   A hub that is reset stores a new network key but keeps the old one in its encryption service until it
   boots: it then hands out a key that it does not use.
   */
  lemma HubResetSplitsKeys(P: Primitives, hub: Node, b: Birth)
    requires hub.deviceType == HUB && |b.networkKey| == KEY_SIZE && b.second != NoRoom
    ensures var n := FactoryReset(P, hub, true, b);
      && Holds(n.memory.ram, b.networkKey) && n.ring.networkKey == hub.ring.networkKey
      && (Holds(n.memory.ram, n.ring.networkKey) <==> hub.ring.networkKey == b.networkKey)
  {
    hide PublicKeyOf;
  }

  // ----- a network all this happens in -----

  /** The least a cipher library can be: every key pair is usable and all of them agree on one secret. */
  function Trivial(): (P: Primitives)
    ensures Sound(P)
  {
    Primitives((key, block) => Zeros(16), (key, iv, position) => 0, privateKey => Some(Zeros(32)),
               (privateKey, publicKey) => Some(Zeros(32)), data => Zeros(32))
  }

  function HubFlash(flashed: bool): Store {
    if flashed then map[PRIV_KEY := Zeros(32), NKEY := Zeros(32)] else map[PRIV_KEY := Zeros(32)]
  }

  /** One hub and one new device, with the hub's network key in flash or, its commit having failed, not. */
  function SmallNetwork(flashed: bool): System {
    var b := Birth(Zeros(32), Zeros(32), NOT_INCLUDED, Committed, CommitFailed);
    System(Booted(Trivial(), HUB, HubFlash(flashed), b),
           [Member(Booted(Trivial(), STANDARD, map[PRIV_KEY := Zeros(32)], b), 0, 0, 0, false, NOTHING)], {}, {}, 0)
  }

  lemma SmallNetworkIsInitial(flashed: bool)
    ensures Initial(Trivial(), SmallNetwork(flashed), Zeros(32))
    ensures Joinable(Trivial(), SmallNetwork(flashed), 0, Zeros(32))
    ensures Holds(SmallNetwork(flashed).hub.memory.flash, Zeros(32)) <==> flashed
  {
    var P, s := Trivial(), SmallNetwork(flashed);
    var b := Birth(Zeros(32), Zeros(32), NOT_INCLUDED, Committed, CommitFailed);
    SmallHub(flashed, b);
    SmallDevice(b);
    hide Booted, Trivial, Ready;
    assert s.hub == Booted(P, HUB, HubFlash(flashed), b);
    assert FreshMember(P, s.devices[0], Zeros(32), s.now);
  }

  lemma SmallHub(flashed: bool, b: Birth)
    requires b == Birth(Zeros(32), Zeros(32), NOT_INCLUDED, Committed, CommitFailed)
    ensures var n := Booted(Trivial(), HUB, HubFlash(flashed), b);
      && Holds(n.memory.ram, Zeros(32)) && (Holds(n.memory.flash, Zeros(32)) <==> flashed)
      && Equipped(Trivial(), n) && n.protocolState == PROTOCOL_IDLE && n.ring.devicePrivateKey == Zeros(32)
  {
  }

  lemma SmallDevice(b: Birth)
    ensures var flash: Store := map[PRIV_KEY := Zeros(32)]; var n := Booted(Trivial(), STANDARD, flash, b);
      && Ready(Trivial(), flash, b) && LoadedState(flash) == NOT_INCLUDED
      && n.state == NOT_INCLUDED && n.protocolState == PROTOCOL_IDLE && Equipped(Trivial(), n)
  {
  }

  /** A legal run from an initial state that ends with a device stuck. */
  lemma DevicesGetStuck() returns (P: Primitives, s: System, networkKey: seq<byte>, steps: seq<Step>)
    ensures Sound(P) && Initial(P, s, networkKey) && Legal(P, s, steps)
    ensures var r := Run(P, s, steps); r.devices != [] && Stuck(P, r.devices[0].node)
  {
    hide Initial, Joinable, Safe, Legal, Run, Stuck, Booted;
    P, s, networkKey := Trivial(), SmallNetwork(true), Zeros(32);
    SmallNetworkIsInitial(true);
    InitialIsSafe(P, s, networkKey);
    steps := PowerLossCanStick(P, s, 0, Zeros(32), networkKey, ANY_BIRTH);
  }

  lemma EmptyFlashIsReady(b: Birth)
    requires b.first == Committed && |b.privateKey| == KEY_SIZE
    ensures Ready(Trivial(), map[], b)
  {
  }

  /** One that ends with an included device that has no network key in its storage. */
  lemma DevicesLoseKeys() returns (P: Primitives, s: System, networkKey: seq<byte>, steps: seq<Step>)
    ensures Sound(P) && Initial(P, s, networkKey) && Legal(P, s, steps)
    ensures var r := Run(P, s, steps);
      && r.devices != [] && r.devices[0].node.state == INCLUDED
      && NKEY !in r.devices[0].node.memory.ram && NKEY !in r.devices[0].node.memory.flash
  {
    hide Initial, Joinable, Safe, Legal, Run, Booted, Ready;
    P, s, networkKey := Trivial(), SmallNetwork(true), Zeros(32);
    SmallNetworkIsInitial(true);
    InitialIsSafe(P, s, networkKey);
    var b := Birth(Zeros(32), Zeros(32), NOT_INCLUDED, Committed, Committed);
    EmptyFlashIsReady(b);
    steps := FailedResetCanCostTheKey(P, s, 0, Zeros(32), networkKey, [0, 0, 0, 0], b);
  }

  /** And one that ends with a device whose key is not the hub's. */
  lemma HubsChangeKeys() returns (P: Primitives, s: System, networkKey: seq<byte>, steps: seq<Step>)
    ensures Sound(P) && Initial(P, s, networkKey) && Legal(P, s, steps)
    ensures var r := Run(P, s, steps);
      && r.devices != [] && r.devices[0].node.state == INCLUDED
      && r.devices[0].node.ring.networkKey == networkKey != r.hub.ring.networkKey
  {
    hide Initial, Joinable, Legal, Run, Booted;
    P, s, networkKey := Trivial(), SmallNetwork(false), Zeros(32);
    SmallNetworkIsInitial(false);
    steps := RebootCanOrphanDevices(P, s, 0, Zeros(32), networkKey, [0, 0, 0, 0]);
  }
}
