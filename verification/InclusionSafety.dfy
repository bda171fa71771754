/** Which network keys the join protocol leaves where, over all runs, and exactly when it does not. */
module InclusionSafety {
  import opened Bytes
  import opened Clock
  import opened Definitions
  import opened Packet
  import opened AesCrypto
  import opened EncryptionService
  import opened MicService
  import opened DeviceStorage
  import opened EepromLog
  import opened InclusionController
  import opened InclusionSystem
  import opened InclusionNonce

  // ----- the invariant, for one network key -----

  predicate Keyed(n: Node, networkKey: seq<byte>) {
    Holds(n.memory.ram, networkKey) && Holds(n.memory.flash, networkKey) && n.ring.networkKey == networkKey
  }

  /** The hub uses and distributes this key. */
  predicate SafeHub(n: Node, networkKey: seq<byte>) {
    HonestHub(n) && Holds(n.memory.ram, networkKey)
  }

  /** A device that is included, not by what memory held, or has taken the key and waits for the hub's last word. */
  predicate Engaged(m: Member) {
    (m.node.state == INCLUDED && !m.garbled) || m.node.protocolState == WAITING_FOR_SUCCESS
  }

  /** What an engaged device has of the key, by what it lost. */
  predicate HoldsRest(n: Node, lost: Lost, networkKey: seq<byte>) {
    match lost
    case NOTHING => Keyed(n, networkKey)
    case RAM => NKEY !in n.memory.ram && Holds(n.memory.flash, networkKey) && n.ring.networkKey == networkKey
    case STORAGE => NKEY !in n.memory.ram && NKEY !in n.memory.flash && n.ring.networkKey == networkKey
    case EVERYTHING => NKEY !in n.memory.ram && NKEY !in n.memory.flash && n.ring.networkKey == []
  }

  /** A stored INCLUDED comes with the network key, unless flash lost it. */
  predicate Backed(flash: Store, lost: Lost, networkKey: seq<byte>) {
    LoadedState(flash) == INCLUDED ==>
      if lost == NOTHING || lost == RAM then Holds(flash, networkKey) else NKEY !in flash
  }

  predicate SafeDevice(m: Member, networkKey: seq<byte>) {
    && m.node.deviceType == STANDARD
    && (Engaged(m) ==> HoldsRest(m.node, m.lost, networkKey))
    && (m.node.protocolState == WAITING_FOR_SUCCESS ==> m.lost == NOTHING || m.lost == RAM)
    && Backed(m.node.memory.flash, m.lost, networkKey)
  }

  ghost predicate SafeWire(P: Primitives, w: Wire, networkKey: seq<byte>) {
    w.topic == INCLUDE_RESPONSE ==>
      && |w.micKey| == KEY_SIZE
      && exists nonce :: |nonce| == NONCE_SIZE && w.payload == Ctr(P, w.micKey, ZeroIv(), networkKey + nonce)
  }

  ghost predicate Safe(P: Primitives, s: System, networkKey: seq<byte>) {
    && |networkKey| == KEY_SIZE && Honest(P, s) && SafeHub(s.hub, networkKey)
    && (forall i :: 0 <= i < |s.devices| ==> SafeDevice(s.devices[i], networkKey))
    && (forall w :: w in s.wires ==> SafeWire(P, w, networkKey))
  }

  // ----- the hub's turns -----

  predicate Distributes(a: Action, networkKey: seq<byte>) {
    a.SendData? && a.topic == INCLUDE_RESPONSE ==>
      |a.payload| == KEY_SIZE + NONCE_SIZE && networkKey <= a.payload
  }

  lemma HubSendsKey(P: Primitives, n: Node, a: Action, networkKey: seq<byte>)
    requires Sound(P) && SafeHub(n, networkKey) && |networkKey| == KEY_SIZE && Distributes(a, networkKey)
    ensures forall w :: w in OnWire(P, n, TheHub, a) ==> SafeWire(P, w, networkKey)
  {
    if a.SendData? && a.topic == INCLUDE_RESPONSE {
      OneKeySealsAndAuthenticates(P, n.ring, INCLUDE_RESPONSE, HUB, n.state);
      assert a.payload == networkKey + a.payload[KEY_SIZE..];
    }
  }

  lemma HubTurnKeepsKey(P: Primitives, n: Node, topic: byte, payload: seq<byte>, env: Env, networkKey: seq<byte>)
    requires SafeHub(n, networkKey) && |networkKey| == KEY_SIZE && |env.random| == NONCE_SIZE
    ensures var t := Handled(P, n, topic, payload, env);
      Distributes(t.action, networkKey) && t.node.memory == n.memory
  {
    if n.memory.ram[NKEY] == networkKey {
      assert networkKey <= networkKey + env.random;
    }
  }

  lemma HubStepIsSafe(P: Primitives, s: System, t: Turn, networkKey: seq<byte>)
    requires Sound(P) && Safe(P, s, networkKey) && Honest(P, HubMoves(P, s, t))
    requires Holds(t.node.memory.ram, networkKey) && Distributes(t.action, networkKey)
    ensures Safe(P, HubMoves(P, s, t), networkKey)
  {
    hide HonestHub, SafeDevice, SafeWire, Distributes, OnWire, HonestWire, Holds;
    assert HonestHub(t.node);
    HubSendsKey(P, t.node, t.action, networkKey);
  }

  // ----- a device's turns -----

  /** Whatever response verifies at a device opens under the same key, and holds the hub's network key. */
  lemma ResponseCarriesKey(P: Primitives, n: Node, w: Wire, networkKey: seq<byte>)
    requires Sound(P) && |networkKey| == KEY_SIZE && n.deviceType == STANDARD
    requires w.topic == INCLUDE_RESPONSE && SafeWire(P, w, networkKey) && Heard(P, n, w).Some?
    ensures var payload := Heard(P, n, w).value; |payload| == KEY_SIZE + NONCE_SIZE && payload[..KEY_SIZE] == networkKey
  {
    var nonce :| |nonce| == NONCE_SIZE && w.payload == Ctr(P, w.micKey, ZeroIv(), networkKey + nonce);
    ResponseOpensWhole(P, n, w, networkKey, nonce);
  }

  /** The state after a message from the hub, with what is then lost. */
  lemma DeviceTurnIsSafe(P: Primitives, m: Member, topic: byte, payload: seq<byte>, env: Env, networkKey: seq<byte>,
                         now: nat)
    requires |networkKey| == KEY_SIZE && SafeDevice(m, networkKey)
    requires topic == INCLUDE_RESPONSE ==> |payload| == KEY_SIZE + NONCE_SIZE && payload[..KEY_SIZE] == networkKey
    ensures var n := Handled(P, m.node, topic, payload, env).node;
      SafeDevice(Heeded(m, n, env.outcome, now), networkKey)
  {
    hide OnOpen, OnResponse, OnSuccess, HoldsRest, Backed, Moved, LostHearing;
    var o := env.outcome;
    if topic == INCLUDE_OPEN {
      OpenIsSafe(P, m, payload, env.clock, o, networkKey, now);
    } else if topic == INCLUDE_RESPONSE {
      ResponseIsSafe(m, payload, env.clock, o, networkKey, now);
    } else if topic == INCLUDE_SUCCESS {
      SuccessIsSafe(m, env.clock, o, networkKey, now);
    } else {
      StayingIsSafe(m, o, networkKey, now);
    }
  }

  function Heeded(m: Member, n: Node, o: WriteOutcome, now: nat): Member {
    Moved(m, n, now).(lost := LostHearing(m, n, o))
  }

  lemma StayingIsSafe(m: Member, o: WriteOutcome, networkKey: seq<byte>, now: nat)
    requires SafeDevice(m, networkKey)
    ensures SafeDevice(Heeded(m, m.node, o, now), networkKey)
  {
  }

  lemma OpenIsSafe(P: Primitives, m: Member, payload: seq<byte>, clock: nat, o: WriteOutcome, networkKey: seq<byte>,
                   now: nat)
    requires SafeDevice(m, networkKey)
    ensures SafeDevice(Heeded(m, OnOpen(P, m.node, payload, clock, o).node, o, now), networkKey)
  {
    hide StoredPublicKey;
  }

  lemma ResponseIsSafe(m: Member, payload: seq<byte>, clock: nat, o: WriteOutcome, networkKey: seq<byte>, now: nat)
    requires |networkKey| == KEY_SIZE && SafeDevice(m, networkKey)
    requires |payload| == KEY_SIZE + NONCE_SIZE && payload[..KEY_SIZE] == networkKey
    ensures SafeDevice(Heeded(m, OnResponse(m.node, payload, clock, o).node, o, now), networkKey)
  {
    hide Confirmation;
  }

  lemma SuccessIsSafe(m: Member, clock: nat, o: WriteOutcome, networkKey: seq<byte>, now: nat)
    requires SafeDevice(m, networkKey)
    ensures SafeDevice(Heeded(m, OnSuccess(m.node, clock, o).node, o, now), networkKey)
  {
  }

  lemma TimeoutIsSafe(m: Member, clock: nat, o: WriteOutcome, networkKey: seq<byte>, now: nat)
    requires SafeDevice(m, networkKey)
    ensures SafeDevice(Moved(m, Checked(m.node, clock, o), now).(lastRun := now), networkKey)
  {
  }

  lemma BootIsSafe(P: Primitives, m: Member, b: Birth, networkKey: seq<byte>, now: nat)
    requires |networkKey| == KEY_SIZE && SafeDevice(m, networkKey)
    ensures SafeDevice(DeviceBooted(P, m, b, now), networkKey)
  {
    hide Booted, Ready, LoadedState;
    BootedNode(P, m.node.memory.flash, b);
  }

  predicate SameKey(m: Store, flash: Store) {
    (NKEY in m <==> NKEY in flash) && (NKEY in flash ==> m[NKEY] == flash[NKEY])
  }

  /** What a device comes up with: its stored state if its key pair is ready, and its network key once included. */
  lemma BootedNode(P: Primitives, flash: Store, b: Birth)
    ensures var n := Booted(P, STANDARD, flash, b);
      && n.deviceType == STANDARD && n.protocolState == PROTOCOL_IDLE
      && (Ready(P, flash, b) ==> n.state == LoadedState(flash)) && LoadedState(n.memory.flash) == LoadedState(flash)
      && SameKey(n.memory.ram, flash) && SameKey(n.memory.flash, flash)
      && n.ring.networkKey == (if n.state == INCLUDED && NKEY in flash then flash[NKEY] else [])
  {
    hide Constructed, LoadedState, PublicKeyOf;
    ConstructedNode(P, flash, b);
  }

  lemma ConstructedNode(P: Primitives, flash: Store, b: Birth)
    ensures var n := Constructed(P, STANDARD, Memory(flash, flash), NO_KEYS, b);
      && n.deviceType == STANDARD && n.protocolState == PROTOCOL_IDLE && n.ring == NO_KEYS
      && (Ready(P, flash, b) ==> n.state == LoadedState(flash)) && LoadedState(n.memory.flash) == LoadedState(flash)
      && SameKey(n.memory.ram, flash) && SameKey(n.memory.flash, flash)
  {
    hide PublicKeyOf;
  }

  lemma ResetIsSafe(P: Primitives, m: Member, commitOk: bool, b: Birth, networkKey: seq<byte>, now: nat)
    requires SafeDevice(m, networkKey)
    ensures SafeDevice(DeviceReset(P, m, commitOk, b, now), networkKey)
  {
  }

  lemma NeverResponds(P: Primitives, n: Node, topic: byte, payload: seq<byte>, env: Env, i: nat, networkKey: seq<byte>)
    requires n.deviceType == STANDARD
    ensures var t := Handled(P, n, topic, payload, env);
      forall w :: w in OnWire(P, t.node, Device(i), t.action) ==> SafeWire(P, w, networkKey)
  {
    hide Crypted, MicKey, SealKey, Ctr;
  }

  lemma DeviceHearsSafely(P: Primitives, s: System, i: nat, w: Wire, o: WriteOutcome, networkKey: seq<byte>)
    requires Sound(P) && Safe(P, s, networkKey) && Enabled(P, s, DeviceHears(i, w, o))
    requires Honest(P, Next(P, s, DeviceHears(i, w, o)))
    ensures Safe(P, Next(P, s, DeviceHears(i, w, o)), networkKey)
  {
    hide Handled, Heard, SafeDevice, SafeHub, SafeWire, OnWire, HonestWire, HonestHub, Accepted, LostHearing;
    var m := s.devices[i];
    var payload := Heard(P, m.node, w);
    if payload.Some? {
      assert SafeWire(P, w, networkKey);
      if w.topic == INCLUDE_RESPONSE {
        ResponseCarriesKey(P, m.node, w, networkKey);
      }
      var env := Env(Millis(s.now), [], o);
      DeviceTurnIsSafe(P, m, w.topic, payload.value, env, networkKey, s.now);
      NeverResponds(P, m.node, w.topic, payload.value, env, i, networkKey);
    }
  }

  // ----- steps and runs -----

  /** The hub's key outlives its reboots. */
  predicate Steady(s: System, step: Step, networkKey: seq<byte>) {
    step.HubBoots? ==> Holds(s.hub.memory.flash, networkKey)
  }

  lemma HubBootKeepsKey(P: Primitives, flash: Store, b: Birth, networkKey: seq<byte>)
    requires Holds(flash, networkKey)
    ensures var n := Booted(P, HUB, flash, b); Holds(n.memory.ram, networkKey) && Holds(n.memory.flash, networkKey)
  {
  }

  lemma HubOwnTurnsKeepMemory(P: Primitives, n: Node, clock: nat, networkKey: seq<byte>)
    requires n.deviceType == HUB
    ensures Entered(n).node.memory == n.memory && Exited(n, clock, NoRoom).node.memory == n.memory
    ensures Checked(n, clock, NoRoom).memory == n.memory && Opened(P, n, clock).node.memory == n.memory
    ensures Distributes(Entered(n).action, networkKey) && Distributes(Exited(n, clock, NoRoom).action, networkKey)
    ensures Distributes(Opened(P, n, clock).action, networkKey)
  {
  }

  lemma HubStepKeepsMemory(P: Primitives, s: System, step: Step, networkKey: seq<byte>)
    requires Sound(P) && Safe(P, s, networkKey) && Enabled(P, s, step) && Steady(s, step, networkKey)
    ensures Holds(Next(P, s, step).hub.memory.ram, networkKey)
    ensures Holds(s.hub.memory.flash, networkKey) ==> Holds(Next(P, s, step).hub.memory.flash, networkKey)
  {
    hide Handled, Heard, Booted, Checked, Entered, Exited, Opened, OnWire, SafeDevice, SafeWire, Honest,
      DeviceBooted, DeviceReset, Moved;
    assert SafeHub(s.hub, networkKey) && s.hub.deviceType == HUB;
    HubOwnTurnsKeepMemory(P, s.hub, Millis(s.now), networkKey);
    match step
    case HubHears(w, random) =>
      if Heard(P, s.hub, w).Some? {
        HubTurnKeepsKey(P, s.hub, w.topic, Heard(P, s.hub, w).value, Env(Millis(s.now), random, NoRoom), networkKey);
      }
    case HubBoots(b) => HubBootKeepsKey(P, s.hub.memory.flash, b, networkKey);
    case _ =>
  }

  lemma HubStepsAreSafe(P: Primitives, s: System, step: Step, networkKey: seq<byte>)
    requires Sound(P) && Safe(P, s, networkKey) && Enabled(P, s, step) && Steady(s, step, networkKey)
    requires step.HubEnters? || step.HubExits? || step.HubOpens? || step.HubHears?
    requires Honest(P, Next(P, s, step))
    ensures Safe(P, Next(P, s, step), networkKey)
  {
    hide Handled, Heard, Entered, Exited, Opened, HubMoves, Distributes, SafeDevice, SafeWire, Honest, Holds;
    assert SafeHub(s.hub, networkKey) && s.hub.deviceType == HUB && Holds(s.hub.memory.ram, networkKey);
    var clock := Millis(s.now);
    HubOwnTurnsKeepMemory(P, s.hub, clock, networkKey);
    match step
    case HubEnters => HubStepIsSafe(P, s, Entered(s.hub), networkKey);
    case HubExits => HubStepIsSafe(P, s, Exited(s.hub, clock, NoRoom), networkKey);
    case HubOpens => HubStepIsSafe(P, s, Opened(P, s.hub, clock), networkKey);
    case HubHears(w, random) =>
      if Heard(P, s.hub, w).Some? {
        var env := Env(clock, random, NoRoom);
        HubTurnKeepsKey(P, s.hub, w.topic, Heard(P, s.hub, w).value, env, networkKey);
        HubStepIsSafe(P, s, Handled(P, s.hub, w.topic, Heard(P, s.hub, w).value, env), networkKey);
      }
  }

  lemma StepIsSafe(P: Primitives, s: System, step: Step, networkKey: seq<byte>)
    requires Sound(P) && Safe(P, s, networkKey) && Enabled(P, s, step) && Steady(s, step, networkKey)
    ensures Safe(P, Next(P, s, step), networkKey)
    ensures Holds(s.hub.memory.flash, networkKey) ==> Holds(Next(P, s, step).hub.memory.flash, networkKey)
  {
    hide SafeWire, SafeDevice, Honest, HonestHub, Handled, Heard, Booted, FactoryReset, Checked, HubMoves, DeviceMoves,
      DeviceBooted, DeviceReset, Moved, Steady;
    StepIsHonest(P, s, step);
    HubStepKeepsMemory(P, s, step, networkKey);
    match step
    case HubEnters => HubStepsAreSafe(P, s, step, networkKey);
    case HubExits => HubStepsAreSafe(P, s, step, networkKey);
    case HubOpens => HubStepsAreSafe(P, s, step, networkKey);
    case HubHears(w, random) => HubStepsAreSafe(P, s, step, networkKey);
    case HubRuns => HonestHasHonestHub(P, Next(P, s, step));
    case HubBoots(b) => HonestHasHonestHub(P, Next(P, s, step));
    case DeviceHears(i, w, o) => DeviceHearsSafely(P, s, i, w, o, networkKey);
    case DeviceRuns(i, o) => TimeoutIsSafe(s.devices[i], Millis(s.now), o, networkKey, s.now);
    case DeviceBoots(i, b) => BootIsSafe(P, s.devices[i], b, networkKey, s.now);
    case DeviceResets(i, commitOk, b) => ResetIsSafe(P, s.devices[i], commitOk, b, networkKey, s.now);
    case Ticks(ms) =>
  }

  lemma HonestHasHonestHub(P: Primitives, s: System)
    requires Honest(P, s)
    ensures HonestHub(s.hub)
  {
  }

  /** The hub boots in the run only from a flash that has the key; it does not lose it later. */
  predicate SteadyRun(s: System, steps: seq<Step>, networkKey: seq<byte>) {
    Holds(s.hub.memory.flash, networkKey) || forall k :: 0 <= k < |steps| ==> !steps[k].HubBoots?
  }

  lemma InitialIsSafe(P: Primitives, s: System, networkKey: seq<byte>)
    requires Sound(P) && Initial(P, s, networkKey)
    ensures Safe(P, s, networkKey)
  {
    hide SafeDevice, Honest, HonestHub;
    InitialIsHonest(P, s, networkKey);
    HonestHasHonestHub(P, s);
    forall i | 0 <= i < |s.devices| ensures SafeDevice(s.devices[i], networkKey) {
      FreshIsSafe(P, s.devices[i], networkKey, s.now);
    }
  }

  lemma FreshIsSafe(P: Primitives, m: Member, networkKey: seq<byte>, now: nat)
    requires FreshMember(P, m, networkKey, now)
    ensures SafeDevice(m, networkKey)
  {
    var flash, b :| m.node == Booted(P, STANDARD, flash, b) && m.garbled == !Ready(P, flash, b)
      && (LoadedState(flash) == INCLUDED ==> Holds(flash, networkKey));
    BootedFits(P, flash, b, networkKey);
  }

  lemma BootedFits(P: Primitives, flash: Store, b: Birth, networkKey: seq<byte>)
    requires LoadedState(flash) == INCLUDED ==> Holds(flash, networkKey)
    ensures var n := Booted(P, STANDARD, flash, b);
      && n.deviceType == STANDARD && n.protocolState == PROTOCOL_IDLE && Backed(n.memory.flash, NOTHING, networkKey)
      && (n.state == INCLUDED && Ready(P, flash, b) ==> Keyed(n, networkKey))
  {
    hide Booted, Ready, LoadedState;
    BootedNode(P, flash, b);
  }

  lemma {:induction false} RunIsSafe(P: Primitives, s: System, steps: seq<Step>, networkKey: seq<byte>)
    requires Sound(P) && Safe(P, s, networkKey) && Legal(P, s, steps) && SteadyRun(s, steps, networkKey)
    ensures Safe(P, Run(P, s, steps), networkKey)
    decreases |steps|
  {
    hide Safe, Next, Enabled, Holds;
    if steps != [] {
      assert Steady(s, steps[0], networkKey);
      StepIsSafe(P, s, steps[0], networkKey);
      assert forall k :: 0 <= k < |steps[1..]| ==> steps[1..][k] == steps[k + 1];
      RunIsSafe(P, Next(P, s, steps[0]), steps[1..], networkKey);
    }
  }

  // ----- what included devices hold -----

  /**
   In every run in which the hub's key outlives its reboots, an included device has the hub's network
   key in RAM, in flash and in its encryption service, each of them exactly if it has not lost it there:
   RAM by a reset whose commit failed, flash by becoming included after such a reset, the rest by
   booting after that. The exception are devices whose state is what uninitialised memory held.
   */
  lemma IncludedDevicesHoldTheKey(P: Primitives, s: System, steps: seq<Step>, networkKey: seq<byte>)
    requires Sound(P) && Initial(P, s, networkKey) && Legal(P, s, steps) && SteadyRun(s, steps, networkKey)
    ensures var r := Run(P, s, steps);
      && Holds(r.hub.memory.ram, networkKey) && r.hub.ring.networkKey == networkKey
      && forall i :: 0 <= i < |r.devices| && r.devices[i].node.state == INCLUDED && !r.devices[i].garbled ==>
        var (n, lost) := (r.devices[i].node, r.devices[i].lost);
        && (Holds(n.memory.ram, networkKey) <==> lost == NOTHING)
        && (Holds(n.memory.flash, networkKey) <==> lost == NOTHING || lost == RAM)
        && (n.ring.networkKey == networkKey <==> lost != EVERYTHING)
  {
    hide Run, Legal, Initial, Honest, SafeWire, SteadyRun;
    InitialIsSafe(P, s, networkKey);
    RunIsSafe(P, s, steps, networkKey);
    var r := Run(P, s, steps);
    assert SafeHub(r.hub, networkKey) && |networkKey| == KEY_SIZE;
    forall i | 0 <= i < |r.devices| ensures SafeDevice(r.devices[i], networkKey) {
    }
  }

  /** The hub has this key at the end of every run. */
  ghost predicate HubKeeps(P: Primitives, s: System, networkKey: seq<byte>) {
    forall steps {:trigger Legal(P, s, steps)} ::
      Legal(P, s, steps) ==> Run(P, s, steps).hub.ring.networkKey == networkKey
  }

  /** The hub keeps its key in every run if and only if the key is in its flash at the start. */
  lemma HubKeepsKeyIffFlashed(P: Primitives, s: System, networkKey: seq<byte>)
    requires Sound(P) && Initial(P, s, networkKey)
    ensures HubKeeps(P, s, networkKey) <==> Holds(s.hub.memory.flash, networkKey)
  {
    hide Initial, Holds, Legal, Run;
    if Holds(s.hub.memory.flash, networkKey) {
      forall steps | Legal(P, s, steps) ensures Run(P, s, steps).hub.ring.networkKey == networkKey {
        IncludedDevicesHoldTheKey(P, s, steps, networkKey);
      }
    }
    if !Holds(s.hub.memory.flash, networkKey) {
      var steps := RebootChangesKey(P, s, networkKey);
      assert Legal(P, s, steps);
    }
  }

  lemma RebootChangesKey(P: Primitives, s: System, networkKey: seq<byte>) returns (steps: seq<Step>)
    requires Initial(P, s, networkKey) && !Holds(s.hub.memory.flash, networkKey)
    ensures Legal(P, s, steps) && Run(P, s, steps).hub.ring.networkKey != networkKey
  {
    hide Booted;
    var b := HubMakesAnotherKey(P, s, networkKey);
    steps := [HubBoots(b)];
    assert steps[1..] == [] && steps[0] == HubBoots(b);
  }

  /** A hub whose key never reached flash comes up with a new one. */
  lemma HubMakesAnotherKey(P: Primitives, s: System, networkKey: seq<byte>) returns (b: Birth)
    requires Initial(P, s, networkKey) && !Holds(s.hub.memory.flash, networkKey)
    ensures |b.networkKey| == KEY_SIZE
    ensures Booted(P, HUB, s.hub.memory.flash, b).ring.networkKey == b.networkKey != networkKey
  {
    hide PublicKeyOf;
    var other := networkKey[0 := networkKey[0] + 1];
    assert other[0] != networkKey[0];
    b := Birth([], other, NOT_INCLUDED, NoRoom, Committed);
    var flash, birth :| s.hub == Booted(P, HUB, flash, birth);
    UnflashedHubHasNoKey(P, flash, birth);
  }

  lemma UnflashedHubHasNoKey(P: Primitives, flash: Store, b: Birth)
    ensures var n := Booted(P, HUB, flash, b);
      NKEY in n.memory.ram && NKEY in n.memory.flash ==> n.memory.flash[NKEY] == n.memory.ram[NKEY]
  {
  }

  // ----- devices that no failed reset has harmed -----

  predicate UsablePair(P: Primitives, m: Store) {
    PRIV_KEY in m && PublicKeyOf(P, m[PRIV_KEY]).Ok?
  }

  /** The device has its key pair, RAM and flash, and has lost nothing. */
  predicate Intact(P: Primitives, m: Member) {
    UsablePair(P, m.node.memory.ram) && UsablePair(P, m.node.memory.flash) && !m.garbled && m.lost == NOTHING
  }

  /** A reset of device `i` commits both its clearing and its new private key. */
  predicate Harmless(P: Primitives, step: Step, i: nat) {
    step.DeviceResets? && step.i == i ==> step.commitOk && Ready(P, map[], step.b)
  }

  predicate Unharmed(P: Primitives, steps: seq<Step>, i: nat) {
    forall k :: 0 <= k < |steps| ==> Harmless(P, steps[k], i)
  }

  /** A device that came up with its keys ready has them. */
  lemma FreshIsIntact(P: Primitives, m: Member, networkKey: seq<byte>, now: nat)
    requires FreshMember(P, m, networkKey, now) && !m.garbled
    ensures Intact(P, m)
  {
    var flash, b :| m.node == Booted(P, STANDARD, flash, b) && m.garbled == !Ready(P, flash, b)
      && (LoadedState(flash) == INCLUDED ==> Holds(flash, networkKey));
    ReadyMeansPair(P, flash, b);
  }

  lemma ReadyMeansPair(P: Primitives, flash: Store, b: Birth)
    requires Ready(P, flash, b)
    ensures var m := Booted(P, STANDARD, flash, b).memory; UsablePair(P, m.ram) && UsablePair(P, m.flash)
  {
  }

  lemma PairMeansReady(P: Primitives, flash: Store, b: Birth)
    requires UsablePair(P, flash)
    ensures Ready(P, flash, b) && Booted(P, STANDARD, flash, b).memory == Memory(flash, flash)
    ensures Booted(P, STANDARD, flash, b).state == LoadedState(flash)
  {
  }

  lemma TurnKeepsPair(P: Primitives, m: Member, topic: byte, payload: seq<byte>, env: Env, now: nat)
    requires Intact(P, m) && m.node.deviceType == STANDARD
    ensures Intact(P, Heeded(m, Handled(P, m.node, topic, payload, env).node, env.outcome, now))
  {
    hide PublicKeyOf, StoredPublicKey, Confirmation;
  }

  lemma TimeoutKeepsPair(P: Primitives, m: Member, clock: nat, o: WriteOutcome, now: nat)
    requires Intact(P, m)
    ensures Intact(P, Moved(m, Checked(m.node, clock, o), now).(lastRun := now))
  {
    hide PublicKeyOf;
  }

  lemma BootKeepsPair(P: Primitives, m: Member, b: Birth, now: nat)
    requires Intact(P, m)
    ensures Intact(P, DeviceBooted(P, m, b, now))
  {
    PairMeansReady(P, m.node.memory.flash, b);
    hide Booted, Ready;
  }

  lemma ResetRenewsPair(P: Primitives, m: Member, b: Birth, now: nat)
    requires Ready(P, map[], b)
    ensures Intact(P, DeviceReset(P, m, true, b, now))
  {
  }

  lemma StepKeepsIntact(P: Primitives, s: System, step: Step, i: nat)
    requires i < |s.devices| && Enabled(P, s, step) && Harmless(P, step, i)
    requires Intact(P, s.devices[i]) && s.devices[i].node.deviceType == STANDARD
    ensures i < |Next(P, s, step).devices|
    ensures Intact(P, Next(P, s, step).devices[i]) && Next(P, s, step).devices[i].node.deviceType == STANDARD
  {
    hide Handled, Heard, Booted, Checked, OnWire, Intact, DeviceBooted, DeviceReset, Moved, LostHearing, Accepted;
    match step
    case DeviceHears(j, w, o) =>
      var m := s.devices[j];
      if j == i && Heard(P, m.node, w).Some? {
        var env := Env(Millis(s.now), [], o);
        TurnKeepsPair(P, m, w.topic, Heard(P, m.node, w).value, env, s.now);
        HandledKeepsType(P, m, w.topic, Heard(P, m.node, w).value, env, s.now);
      }
    case DeviceRuns(j, o) =>
      if j == i {
        TimeoutKeepsPair(P, s.devices[i], Millis(s.now), o, s.now);
        OthersKeepType(P, s.devices[i], Millis(s.now), o, ANY_BIRTH, s.now);
      }
    case DeviceBoots(j, b) =>
      if j == i {
        BootKeepsPair(P, s.devices[i], b, s.now);
        OthersKeepType(P, s.devices[i], Millis(s.now), NoRoom, b, s.now);
      }
    case DeviceResets(j, commitOk, b) =>
      if j == i {
        ResetRenewsPair(P, s.devices[i], b, s.now);
        OthersKeepType(P, s.devices[i], Millis(s.now), NoRoom, b, s.now);
      }
    case _ =>
  }

  lemma HandledKeepsType(P: Primitives, m: Member, topic: byte, payload: seq<byte>, env: Env, now: nat)
    requires m.node.deviceType == STANDARD
    ensures Heeded(m, Handled(P, m.node, topic, payload, env).node, env.outcome, now).node.deviceType == STANDARD
  {
    hide StoredPublicKey, Confirmation;
  }

  lemma OthersKeepType(P: Primitives, m: Member, clock: nat, o: WriteOutcome, b: Birth, now: nat)
    requires m.node.deviceType == STANDARD
    ensures Moved(m, Checked(m.node, clock, o), now).(lastRun := now).node.deviceType == STANDARD
    ensures DeviceBooted(P, m, b, now).node.deviceType == STANDARD
    ensures DeviceReset(P, m, true, b, now).node.deviceType == STANDARD
  {
  }

  /** A key pair once made lasts: in every run that does the device no harm, every boot finds it. */
  lemma {:induction false} KeyPairLasts(P: Primitives, s: System, steps: seq<Step>, i: nat)
    requires i < |s.devices| && Legal(P, s, steps) && Unharmed(P, steps, i)
    requires Intact(P, s.devices[i]) && s.devices[i].node.deviceType == STANDARD
    ensures i < |Run(P, s, steps).devices|
    ensures Intact(P, Run(P, s, steps).devices[i]) && Run(P, s, steps).devices[i].node.deviceType == STANDARD
    decreases |steps|
  {
    hide Next, Enabled, Intact, Harmless;
    if steps != [] {
      StepKeepsIntact(P, s, steps[0], i);
      assert forall k :: 0 <= k < |steps[1..]| ==> steps[1..][k] == steps[k + 1];
      KeyPairLasts(P, Next(P, s, steps[0]), steps[1..], i);
    }
  }

  /** So an unharmed device, once included, holds the hub's network key in all three places. */
  lemma UnharmedDeviceHoldsTheKey(P: Primitives, s: System, steps: seq<Step>, networkKey: seq<byte>, i: nat)
    requires Sound(P) && Initial(P, s, networkKey) && Legal(P, s, steps) && SteadyRun(s, steps, networkKey)
    requires i < |s.devices| && !s.devices[i].garbled && Unharmed(P, steps, i)
    ensures i < |Run(P, s, steps).devices|
    ensures var n := Run(P, s, steps).devices[i].node; n.state == INCLUDED ==> Keyed(n, networkKey)
  {
    hide Run, Legal, SteadyRun, Unharmed;
    FreshIsIntact(P, s.devices[i], networkKey, s.now);
    InitialIsSafe(P, s, networkKey);
    assert SafeDevice(s.devices[i], networkKey);
    KeyPairLasts(P, s, steps, i);
    IncludedDevicesHoldTheKey(P, s, steps, networkKey);
  }

  /** What flash holds before, between and after the commits of a step; a reset commits its clearing on its own. */
  function FlashDuring(P: Primitives, s: System, step: Step, i: nat): set<Store>
    requires Enabled(P, s, step) && i < |s.devices| && i < |Next(P, s, step).devices|
  {
    {s.devices[i].node.memory.flash, Next(P, s, step).devices[i].node.memory.flash}
    + (if step.DeviceResets? && step.i == i then {map[]} else {})
  }

  /**
   Losing power at any point of a run that has done it no harm, between any two commits, a device whose
   flash says INCLUDED finds its key pair and the hub's network key there, and comes up included with that key.
   */
  lemma RebootFindsKey(P: Primitives, s: System, steps: seq<Step>, step: Step, networkKey: seq<byte>, i: nat,
                       flash: Store, b: Birth)
    requires Sound(P) && Initial(P, s, networkKey) && Legal(P, s, steps) && SteadyRun(s, steps, networkKey)
    requires Enabled(P, Run(P, s, steps), step) && Steady(Run(P, s, steps), step, networkKey)
    requires i < |s.devices| && !s.devices[i].garbled && Unharmed(P, steps, i) && Harmless(P, step, i)
    ensures i < |Run(P, s, steps).devices| && i < |Next(P, Run(P, s, steps), step).devices|
    ensures flash in FlashDuring(P, Run(P, s, steps), step, i) && LoadedState(flash) == INCLUDED ==>
      && Ready(P, flash, b) && Holds(flash, networkKey)
      && var n := Booted(P, STANDARD, flash, b); n.state == INCLUDED && Keyed(n, networkKey)
  {
    hide Run, Legal, SteadyRun, Unharmed, Next, Steady, Harmless, Ready, Booted, FreshMember;
    InitialIsSafe(P, s, networkKey);
    FreshIsIntact(P, s.devices[i], networkKey, s.now);
    assert SafeDevice(s.devices[i], networkKey);
    RunIsSafe(P, s, steps, networkKey);
    KeyPairLasts(P, s, steps, i);
    var r := Run(P, s, steps);
    StepIsSafe(P, r, step, networkKey);
    StepKeepsIntact(P, r, step, i);
    IntactFlashIsBacked(P, r.devices[i], networkKey);
    IntactFlashIsBacked(P, Next(P, r, step).devices[i], networkKey);
    if flash in FlashDuring(P, r, step, i) && LoadedState(flash) == INCLUDED {
      PairMeansReady(P, flash, b);
      BootedFits(P, flash, b, networkKey);
    }
  }

  lemma IntactFlashIsBacked(P: Primitives, m: Member, networkKey: seq<byte>)
    requires Intact(P, m) && SafeDevice(m, networkKey)
    ensures UsablePair(P, m.node.memory.flash)
    ensures LoadedState(m.node.memory.flash) == INCLUDED ==> Holds(m.node.memory.flash, networkKey)
  {
  }

  // ----- included devices stay included -----

  /** Device `i` neither boots nor is reset. */
  predicate Undisturbed(steps: seq<Step>, i: nat) {
    forall k :: 0 <= k < |steps| ==>
      !(steps[k].DeviceBoots? && steps[k].i == i) && !(steps[k].DeviceResets? && steps[k].i == i)
  }

  /** Apart from the clock of its protocol state, nothing a device hears and no timeout changes an included device. */
  lemma StepKeepsIncluded(P: Primitives, s: System, step: Step, i: nat)
    requires i < |s.devices| && Enabled(P, s, step) && Undisturbed([step], i)
    requires s.devices[i].node.deviceType == STANDARD && s.devices[i].node.state == INCLUDED
    ensures i < |Next(P, s, step).devices|
    ensures var n, m := s.devices[i].node, Next(P, s, step).devices[i].node;
      m.deviceType == STANDARD && m.state == INCLUDED && m.memory == n.memory && m.ring == n.ring
  {
    assert [step][0] == step;
    hide Handled, Heard, OnWire, Accepted, LostHearing, Booted, FactoryReset, Ready;
    match step
    case DeviceHears(j, w, o) =>
      var n := s.devices[j].node;
      if j == i && Heard(P, n, w).Some? {
        IncludedIgnoresMessages(P, n, w.topic, Heard(P, n, w).value, Env(Millis(s.now), [], o));
      }
    case _ =>
  }

  /**
   An included device stays included, with its storage and its keys as they are, in every run in which it
   neither boots nor is reset, whatever messages are sent to it or to others.
   */
  lemma {:induction false} IncludedStaysIncluded(P: Primitives, s: System, steps: seq<Step>, i: nat)
    requires i < |s.devices| && Legal(P, s, steps) && Undisturbed(steps, i)
    requires s.devices[i].node.deviceType == STANDARD && s.devices[i].node.state == INCLUDED
    ensures i < |Run(P, s, steps).devices|
    ensures var n, m := s.devices[i].node, Run(P, s, steps).devices[i].node;
      m.state == INCLUDED && m.memory == n.memory && m.ring == n.ring
    decreases |steps|
  {
    hide Next, Enabled;
    if steps != [] {
      StepKeepsIncluded(P, s, steps[0], i);
      assert forall k :: 0 <= k < |steps[1..]| ==> steps[1..][k] == steps[k + 1];
      IncludedStaysIncluded(P, Next(P, s, steps[0]), steps[1..], i);
    }
  }
}
