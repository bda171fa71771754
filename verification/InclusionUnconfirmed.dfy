/**
 The hub's last message names no device, nonce or session: when a device becomes included by a message
 that was meant for another one, while the hub still waits for its confirmation.
 */
module InclusionUnconfirmed {
  import opened Bytes
  import opened Clock
  import opened Definitions
  import opened Packet
  import opened AesCrypto
  import opened DeviceStorage
  import opened InclusionController
  import opened InclusionSystem
  import opened InclusionNonce
  import opened InclusionSafety
  import opened InclusionJoin
  import opened InclusionLosses

  /** The hub accepts a confirmation, which is when it sends its last message. */
  predicate TakesConfirmation(P: Primitives, s: System, step: Step)
    requires Enabled(P, s, step)
  {
    && step.HubHears? && step.w.topic == INCLUDE_CONFIRM && s.hub.protocolState == WAITING_FOR_CONFIRMATION
    && Next(P, s, step).hub.protocolState != WAITING_FOR_CONFIRMATION
  }

  /** The hub accepts no confirmation in the run. */
  predicate Unconfirmed(P: Primitives, s: System, steps: seq<Step>)
    requires Legal(P, s, steps)
    decreases |steps|
  {
    steps == [] || (!TakesConfirmation(P, s, steps[0]) && Unconfirmed(P, Next(P, s, steps[0]), steps[1..]))
  }

  /** A last message under this network key is on air. */
  ghost predicate SuccessOnAir(s: System, networkKey: seq<byte>) {
    exists w :: w in s.wires && IsSuccess(w, networkKey)
  }

  predicate IsSuccess(w: Wire, networkKey: seq<byte>) {
    w.topic == INCLUDE_SUCCESS && w.micKey == networkKey
  }

  /** This run and then this message make device `i` included, and the hub accepts no confirmation. */
  ghost predicate Unasked(P: Primitives, s: System, i: nat, networkKey: seq<byte>, steps: seq<Step>, w: Wire,
                          o: WriteOutcome) {
    && Legal(P, s, steps) && SteadyRun(s, steps, networkKey) && Unconfirmed(P, s, steps)
    && var r := Run(P, s, steps);
    && i < |r.devices| && w in r.wires && r.devices[i].node.state != INCLUDED
    && Next(P, r, DeviceHears(i, w, o)).devices[i].node.state == INCLUDED
  }

  /** Device `i` can become included by a message it hears without the hub accepting any confirmation. */
  ghost predicate CanBeIncludedUnasked(P: Primitives, s: System, i: nat, networkKey: seq<byte>) {
    exists steps, w, o :: Unasked(P, s, i, networkKey, steps, w, o)
  }

  // ----- only an accepted confirmation puts a last message on air -----

  predicate SendsSuccess(a: Action) {
    a.SendData? && a.topic == INCLUDE_SUCCESS
  }

  lemma WireHasTopic(P: Primitives, n: Node, origin: Origin, a: Action)
    ensures !SendsSuccess(a) ==> forall w :: w in OnWire(P, n, origin, a) ==> w.topic != INCLUDE_SUCCESS
  {
  }

  lemma HubTurnSuccess(P: Primitives, n: Node, topic: byte, payload: seq<byte>, env: Env)
    requires n.deviceType == HUB
    ensures var t := Handled(P, n, topic, payload, env);
      SendsSuccess(t.action) ==>
        topic == INCLUDE_CONFIRM && n.protocolState == WAITING_FOR_CONFIRMATION
        && t.node.protocolState != WAITING_FOR_CONFIRMATION
  {
  }

  lemma OtherTurnsSuccess(P: Primitives, n: Node, topic: byte, payload: seq<byte>, env: Env)
    ensures n.deviceType == STANDARD ==> !SendsSuccess(Handled(P, n, topic, payload, env).action)
    ensures !SendsSuccess(Opened(P, n, env.clock).action) && !SendsSuccess(Entered(n).action)
    ensures !SendsSuccess(Exited(n, env.clock, env.outcome).action)
  {
  }

  lemma NoNewSuccess(P: Primitives, s: System, step: Step)
    requires Honest(P, s) && Enabled(P, s, step) && !TakesConfirmation(P, s, step)
    ensures forall w :: w in Next(P, s, step).wires && w.topic == INCLUDE_SUCCESS ==> w in s.wires
  {
    assert s.hub.deviceType == HUB by { HonestHasHonestHub(P, s); }
    hide OnWire, Handled, Heard, Opened, Entered, Exited, Booted, FactoryReset, Checked, SendsSuccess, HonestHub,
      HonestWire, Ready, Accepted;
    var clock := Millis(s.now);
    match step
    case HubEnters =>
      OtherTurnsSuccess(P, s.hub, 0, [], Env(clock, [], NoRoom));
      WireHasTopic(P, Entered(s.hub).node, TheHub, Entered(s.hub).action);
    case HubExits =>
      OtherTurnsSuccess(P, s.hub, 0, [], Env(clock, [], NoRoom));
      WireHasTopic(P, Exited(s.hub, clock, NoRoom).node, TheHub, Exited(s.hub, clock, NoRoom).action);
    case HubOpens =>
      OtherTurnsSuccess(P, s.hub, 0, [], Env(clock, [], NoRoom));
      WireHasTopic(P, Opened(P, s.hub, clock).node, TheHub, Opened(P, s.hub, clock).action);
    case HubHears(w, random) =>
      if Heard(P, s.hub, w).Some? {
        var t := Handled(P, s.hub, w.topic, Heard(P, s.hub, w).value, Env(clock, random, NoRoom));
        HubTurnSuccess(P, s.hub, w.topic, Heard(P, s.hub, w).value, Env(clock, random, NoRoom));
        WireHasTopic(P, t.node, TheHub, t.action);
      }
    case DeviceHears(i, w, o) =>
      var n := s.devices[i].node;
      if Heard(P, n, w).Some? {
        var t := Handled(P, n, w.topic, Heard(P, n, w).value, Env(clock, [], o));
        OtherTurnsSuccess(P, n, w.topic, Heard(P, n, w).value, Env(clock, [], o));
        WireHasTopic(P, t.node, Device(i), t.action);
      }
    case _ =>
  }

  lemma {:induction false} NoSuccessUnconfirmed(P: Primitives, s: System, steps: seq<Step>, networkKey: seq<byte>)
    requires Sound(P) && Honest(P, s) && Legal(P, s, steps) && Unconfirmed(P, s, steps)
    requires SuccessOnAir(Run(P, s, steps), networkKey)
    ensures SuccessOnAir(s, networkKey)
    decreases |steps|
  {
    hide Honest, Next, Enabled, TakesConfirmation, IsSuccess;
    if steps != [] {
      var next := Next(P, s, steps[0]);
      StepIsHonest(P, s, steps[0]);
      NoSuccessUnconfirmed(P, next, steps[1..], networkKey);
      var w :| w in next.wires && IsSuccess(w, networkKey);
      assert w.topic == INCLUDE_SUCCESS by { SuccessHasTopic(w, networkKey); }
      NoNewSuccess(P, s, steps[0]);
    }
  }

  lemma SuccessHasTopic(w: Wire, networkKey: seq<byte>)
    requires IsSuccess(w, networkKey)
    ensures w.topic == INCLUDE_SUCCESS
  {
  }

  // ----- which messages include a device -----

  /** A message includes a device exactly if it is a last message under its key and the device waits for one. */
  lemma IncludedByMessageIff(P: Primitives, n: Node, w: Wire, env: Env)
    requires n.deviceType == STANDARD && n.state != INCLUDED
    ensures Heard(P, n, w).Some? && Handled(P, n, w.topic, Heard(P, n, w).value, env).node.state == INCLUDED <==>
            && n.state == INCLUSION_PENDING && n.protocolState == WAITING_FOR_SUCCESS
            && IsSuccess(w, n.ring.networkKey) && n.ring.networkKey != []
  {
    hide StoredPublicKey, Confirmation;
  }

  lemma HearingIncludes(P: Primitives, s: System, i: nat, w: Wire, o: WriteOutcome)
    requires i < |s.devices| && w in s.wires && s.devices[i].node.state != INCLUDED
    ensures Next(P, s, DeviceHears(i, w, o)).devices[i].node.state == INCLUDED <==>
            Heard(P, s.devices[i].node, w).Some? &&
            Handled(P, s.devices[i].node, w.topic, Heard(P, s.devices[i].node, w).value,
                    Env(Millis(s.now), [], o)).node.state == INCLUDED
  {
    hide Heard, Handled, OnWire, Accepted;
  }

  lemma WaitingDeviceHasKey(m: Member, networkKey: seq<byte>)
    requires SafeDevice(m, networkKey) && m.node.protocolState == WAITING_FOR_SUCCESS
    ensures m.node.ring.networkKey == networkKey && m.node.deviceType == STANDARD
  {
  }

  // ----- the exact condition -----

  lemma UnaskedMeansOnAir(P: Primitives, s: System, i: nat, networkKey: seq<byte>, steps: seq<Step>, w: Wire,
                          o: WriteOutcome)
    requires Sound(P) && Safe(P, s, networkKey) && Unasked(P, s, i, networkKey, steps, w, o)
    ensures SuccessOnAir(s, networkKey)
  {
    RunIsSafe(P, s, steps, networkKey);
    var r := Run(P, s, steps);
    assert SafeDevice(r.devices[i], networkKey);
    assert Honest(P, s);
    hide Safe, SafeDevice, Honest, Run, Legal, Unconfirmed, SteadyRun, Next, Heard, Handled;
    assert r.devices[i].node.deviceType == STANDARD by { SafeIsStandard(r.devices[i], networkKey); }
    HearingIncludes(P, r, i, w, o);
    IncludedByMessageIff(P, r.devices[i].node, w, Env(Millis(r.now), [], o));
    WaitingDeviceHasKey(r.devices[i], networkKey);
    NoSuccessUnconfirmed(P, s, steps, networkKey);
  }

  lemma SafeIsStandard(m: Member, networkKey: seq<byte>)
    requires SafeDevice(m, networkKey)
    ensures m.node.deviceType == STANDARD
  {
  }

  /** A run in which the hub hears no confirmation is one in which it accepts none. */
  lemma {:induction false} QuietIsUnconfirmed(P: Primitives, s: System, steps: seq<Step>)
    requires Legal(P, s, steps) && NeitherRebootsNorConfirms(steps)
    ensures Unconfirmed(P, s, steps)
    decreases |steps|
  {
    hide Next, Enabled;
    if steps != [] {
      assert Quiet(steps[0]);
      forall k | 0 <= k < |steps[1..]| ensures Quiet(steps[1..][k]) {
        assert steps[1..][k] == steps[k + 1];
      }
      QuietIsUnconfirmed(P, Next(P, s, steps[0]), steps[1..]);
    }
  }

  /** A last message on air includes any device that can join, before the hub has heard its confirmation. */
  lemma OnAirMeansUnasked(P: Primitives, s: System, i: nat, key: seq<byte>, networkKey: seq<byte>, nonce: seq<byte>,
                          w: Wire) returns (steps: seq<Step>)
    requires Sound(P) && Safe(P, s, networkKey) && Joinable(P, s, i, key) && |nonce| == NONCE_SIZE
    requires w in s.wires && IsSuccess(w, networkKey)
    ensures Unasked(P, s, i, networkKey, steps, w, Committed) && NeitherRebootsNorConfirms(steps)
    ensures var r := Next(P, Run(P, s, steps), DeviceHears(i, w, Committed));
      r.hub.protocolState == WAITING_FOR_CONFIRMATION && r.hub.currentNonce == nonce
  {
    assert |networkKey| == KEY_SIZE;
    hide Safe, SafeHub, Joinable, Legal, Run, Unconfirmed, Next, Heard, Handled, NeitherRebootsNorConfirms;
    steps := JoinUntilConfirm(P, s, i, key, networkKey, nonce);
    QuietIsUnconfirmed(P, s, steps);
    QuietIsSteady(s, steps, networkKey);
    var r := Run(P, s, steps);
    HearingIncludes(P, r, i, w, Committed);
    IncludedByMessageIff(P, r.devices[i].node, w, Env(Millis(r.now), [], Committed));
    DeviceHearing(P, r, i, w, Committed);
  }

  lemma QuietIsSteady(s: System, steps: seq<Step>, networkKey: seq<byte>)
    requires NeitherRebootsNorConfirms(steps)
    ensures SteadyRun(s, steps, networkKey)
  {
    assert forall k :: 0 <= k < |steps| ==> Quiet(steps[k]);
  }

  /**
   Wherever a device can join, it can be included without the hub accepting a confirmation if and only
   if a last message under the network key is on air already, which is so once any device has joined.
   */
  lemma UnaskedIffSuccessOnAir(P: Primitives, s: System, i: nat, key: seq<byte>, networkKey: seq<byte>)
    requires Sound(P) && Safe(P, s, networkKey) && Joinable(P, s, i, key)
    ensures CanBeIncludedUnasked(P, s, i, networkKey) <==> SuccessOnAir(s, networkKey)
  {
    hide Safe, Joinable, IsSuccess, Unasked;
    if CanBeIncludedUnasked(P, s, i, networkKey) {
      var steps, w, o :| Unasked(P, s, i, networkKey, steps, w, o);
      UnaskedMeansOnAir(P, s, i, networkKey, steps, w, o);
    }
    if SuccessOnAir(s, networkKey) {
      var w :| w in s.wires && IsSuccess(w, networkKey);
      var steps := OnAirMeansUnasked(P, s, i, key, networkKey, [0, 0, 0, 0], w);
    }
  }

  // ----- it happens -----

  /** A device that was reset and booted, with the private key it had. */
  lemma FreshAgain(P: Primitives, n: Node, privateKey: seq<byte>, b: Birth)
    requires Sound(P) && n.deviceType == STANDARD && PublicKeyOf(P, privateKey).Ok?
    requires b.privateKey == privateKey && b.first == Committed
    ensures var m := Booted(P, STANDARD, FactoryReset(P, n, true, b).memory.flash, b);
      && m.state == NOT_INCLUDED && m.protocolState == PROTOCOL_IDLE && Equipped(P, m)
      && m.memory.ram[PRIV_KEY] == privateKey
  {
  }

  lemma AgreesAgain(P: Primitives, hub: Node, device: Node, hub': Node, device': Node, key: seq<byte>)
    requires Agree(P, hub, device, key) && SamePair(hub', hub)
    requires Equipped(P, device') && device'.memory.ram[PRIV_KEY] == device.memory.ram[PRIV_KEY]
    ensures Agree(P, hub', device', key)
  {
  }

  lemma ResetIsPossible(P: Primitives, s: System, i: nat, b: Birth)
    requires i < |s.devices|
    ensures Enabled(P, s, DeviceResets(i, true, b))
    ensures var r := Next(P, s, DeviceResets(i, true, b));
      && |r.devices| == |s.devices| && r.devices[i].node == FactoryReset(P, s.devices[i].node, true, b)
      && r.hub == s.hub && r.wires == s.wires
  {
    hide FactoryReset, Ready;
  }

  lemma BootKeepsWires(P: Primitives, s: System, i: nat, b: Birth)
    requires i < |s.devices|
    ensures Next(P, s, DeviceBoots(i, b)).wires == s.wires
  {
    hide Booted, Ready;
  }

  lemma SteadyWithoutBoots(s: System, steps: seq<Step>, networkKey: seq<byte>)
    requires forall k :: 0 <= k < |steps| ==> !steps[k].HubBoots?
    ensures SteadyRun(s, steps, networkKey)
  {
  }

  /** Wherever a device can join it can join, be reset, boot and join again, with the hub's last message on air. */
  lemma CanJoinAgain(P: Primitives, s: System, i: nat, key: seq<byte>, networkKey: seq<byte>, nonce: seq<byte>)
    returns (steps: seq<Step>)
    requires Sound(P) && Safe(P, s, networkKey) && |nonce| == NONCE_SIZE && Joinable(P, s, i, key)
    ensures Legal(P, s, steps)
    ensures var r := Run(P, s, steps);
      Joinable(P, r, i, key) && SuccessWire(networkKey) in r.wires && Safe(P, r, networkKey)
  {
    var hub, device := s.hub, s.devices[i].node;
    var privateKey := device.memory.ram[PRIV_KEY];
    assert PublicKeyOf(P, privateKey).Ok? && Agree(P, hub, device, key);
    assert |networkKey| == KEY_SIZE && SafeDevice(s.devices[i], networkKey);
    var b := Birth(privateKey, [], NOT_INCLUDED, Committed, NoRoom);
    hide Safe, SafeDevice, Legal, Run, Next, Booted, FactoryReset, Agree, Equipped, SamePair, SuccessWire, Keyed,
      Enabled;
    steps := JoinCanComplete(P, s, i, key, networkKey, nonce);
    var joined := Run(P, s, steps);
    assert joined.devices[i].node.deviceType == STANDARD by {
      SteadyWithoutBoots(s, steps, networkKey);
      RunIsSafe(P, s, steps, networkKey);
      SafeSystemIsStandard(P, joined, i, networkKey);
    }
    ResetIsPossible(P, joined, i, b);
    AndThen(P, s, steps, DeviceResets(i, true, b));
    steps := steps + [DeviceResets(i, true, b)];
    var reset := Run(P, s, steps);
    FreshAgain(P, joined.devices[i].node, privateKey, b);
    BootIsPossible(P, reset, i, b);
    BootKeepsWires(P, reset, i, b);
    AndThen(P, s, steps, DeviceBoots(i, b));
    steps := steps + [DeviceBoots(i, b)];
    AgreesAgain(P, hub, device, Run(P, s, steps).hub, Run(P, s, steps).devices[i].node, key);
    SteadyWithoutBoots(s, steps, networkKey);
    RunIsSafe(P, s, steps, networkKey);
  }

  lemma SafeSystemIsStandard(P: Primitives, s: System, i: nat, networkKey: seq<byte>)
    requires Safe(P, s, networkKey) && i < |s.devices|
    ensures s.devices[i].node.deviceType == STANDARD
  {
    SafeIsStandard(s.devices[i], networkKey);
  }

  /** A legal run from an initial state that ends with a device included while the hub waits for its confirmation. */
  lemma DevicesJoinUnconfirmed() returns (P: Primitives, s: System, networkKey: seq<byte>, steps: seq<Step>)
    ensures Sound(P) && Initial(P, s, networkKey) && Legal(P, s, steps)
    ensures var r := Run(P, s, steps);
      && r.devices != [] && r.devices[0].node.state == INCLUDED
      && r.hub.protocolState == WAITING_FOR_CONFIRMATION && r.hub.currentNonce == [7, 7, 7, 7]
  {
    hide Initial, Joinable, Safe, Legal, Run, Booted, Next, Enabled, Unasked, NeitherRebootsNorConfirms;
    P, s, networkKey := Trivial(), SmallNetwork(true), Zeros(32);
    SmallNetworkIsInitial(true);
    InitialIsSafe(P, s, networkKey);
    var before := CanJoinAgain(P, s, 0, Zeros(32), networkKey, [0, 0, 0, 0]);
    var again := Run(P, s, before);
    var w := SuccessWire(networkKey);
    var later := OnAirMeansUnasked(P, again, 0, Zeros(32), networkKey, [7, 7, 7, 7], w);
    UnaskedIsLegal(P, again, 0, networkKey, later, w, Committed);
    AndThen(P, again, later, DeviceHears(0, w, Committed));
    RunsCompose(P, s, before, later + [DeviceHears(0, w, Committed)]);
    steps := before + (later + [DeviceHears(0, w, Committed)]);
  }

  lemma UnaskedIsLegal(P: Primitives, s: System, i: nat, networkKey: seq<byte>, steps: seq<Step>, w: Wire,
                       o: WriteOutcome)
    requires Unasked(P, s, i, networkKey, steps, w, o)
    ensures Legal(P, s, steps) && Enabled(P, Run(P, s, steps), DeviceHears(i, w, o))
    ensures var r := Next(P, Run(P, s, steps), DeviceHears(i, w, o));
      i < |r.devices| && r.devices[i].node.state == INCLUDED
  {
    hide Heard, Handled, OnWire, Accepted, LostHearing;
  }
}
