/** What a confirmation proves to the hub, in every run, whatever keys hub and devices come to hold. */
module InclusionNonce {
  import opened Bytes
  import opened Clock
  import opened Definitions
  import opened Packet
  import opened AesCrypto
  import opened EncryptionService
  import opened MicService
  import opened DeviceStorage
  import opened EepromLog
  import opened InclusionController
  import opened InclusionSystem
  import Utils

  // ----- the invariant -----

  /** The hub uses the network key of its storage, if it has one, and then every session has a nonce. */
  predicate HonestHub(n: Node) {
    && n.deviceType == HUB && n.state == INCLUDED && Keys32(n.ring)
    && (NKEY in n.memory.ram ==> |n.memory.ram[NKEY]| == KEY_SIZE && n.ring.networkKey == n.memory.ram[NKEY])
    && (NKEY in n.memory.flash ==> |n.memory.flash[NKEY]| == KEY_SIZE)
    && (NKEY !in n.memory.ram ==> n.ring.networkKey == [])
    && (n.protocolState == WAITING_FOR_CONFIRMATION && n.ring.networkKey != [] ==> |n.currentNonce| == NONCE_SIZE)
  }

  /** A response is sealed and authenticated with one key and holds a network key and a nonce. */
  ghost predicate HonestResponse(P: Primitives, w: Wire) {
    && |w.micKey| == KEY_SIZE
    && exists networkKey: seq<byte>, nonce: seq<byte> ::
         && |networkKey| == KEY_SIZE && |nonce| == NONCE_SIZE
         && w.payload == Ctr(P, w.micKey, ZeroIv(), networkKey + nonce)
  }

  /** A confirmation is under the key that its sender stored when it accepted the nonce the confirmation is for. */
  ghost predicate HonestConfirm(P: Primitives, w: Wire, accepted: set<Acceptance>) {
    && w.origin.Device? && |w.micKey| == KEY_SIZE
    && exists nonce :: Acceptance(w.origin.index, nonce, w.micKey) in accepted && |nonce| == NONCE_SIZE
         && w.payload == Ctr(P, w.micKey, ZeroIv(), Confirmation(nonce))
  }

  ghost predicate HonestWire(P: Primitives, w: Wire, accepted: set<Acceptance>) {
    && (w.topic == INCLUDE_REQUEST ==> |w.payload| == KEY_SIZE)
    && (w.topic == INCLUDE_RESPONSE ==> HonestResponse(P, w))
    && (w.topic == INCLUDE_CONFIRM ==> HonestConfirm(P, w, accepted))
  }

  ghost predicate Honest(P: Primitives, s: System) {
    && HonestHub(s.hub)
    && (forall i :: 0 <= i < |s.devices| ==> s.devices[i].node.deviceType == STANDARD)
    && (forall w :: w in s.wires ==> HonestWire(P, w, s.accepted))
  }

  // ----- the hub's turns -----

  predicate HubMessage(a: Action) {
    a.SendData? ==>
      && a.topic in {INCLUDE_OPEN, INCLUDE_RESPONSE, INCLUDE_SUCCESS}
      && (a.topic == INCLUDE_RESPONSE ==> |a.payload| == KEY_SIZE + NONCE_SIZE)
  }

  lemma HubSends(P: Primitives, n: Node, a: Action, accepted: set<Acceptance>)
    requires Sound(P) && HonestHub(n) && HubMessage(a)
    ensures forall w :: w in OnWire(P, n, TheHub, a) ==> HonestWire(P, w, accepted)
  {
    if a.SendData? && a.topic == INCLUDE_RESPONSE {
      OneKeySealsAndAuthenticates(P, n.ring, INCLUDE_RESPONSE, HUB, n.state);
      assert a.payload == a.payload[..KEY_SIZE] + a.payload[KEY_SIZE..];
    }
  }

  lemma HubTurn(P: Primitives, n: Node, topic: byte, payload: seq<byte>, env: Env)
    requires HonestHub(n) && |env.random| == NONCE_SIZE && (topic == INCLUDE_REQUEST ==> |payload| == KEY_SIZE)
    ensures var t := Handled(P, n, topic, payload, env); HonestHub(t.node) && HubMessage(t.action)
  {
  }

  lemma HubStepIsHonest(P: Primitives, s: System, t: Turn)
    requires Sound(P) && Honest(P, s) && HonestHub(t.node) && HubMessage(t.action)
    ensures Honest(P, HubMoves(P, s, t))
  {
    hide HonestHub, HonestWire, HubMessage, OnWire;
    HubSends(P, t.node, t.action, s.accepted);
  }

  // ----- a device's turns -----

  /** Whatever response verifies at a device opens under the same key. */
  lemma ResponseOpensWhole(P: Primitives, n: Node, w: Wire, networkKey: seq<byte>, nonce: seq<byte>)
    requires Sound(P) && n.deviceType == STANDARD && w.topic == INCLUDE_RESPONSE && |w.micKey| == KEY_SIZE
    requires w.payload == Ctr(P, w.micKey, ZeroIv(), networkKey + nonce) && Heard(P, n, w).Some?
    ensures Heard(P, n, w).value == networkKey + nonce
  {
    assert OpenKey(P, n.ring, INCLUDE_RESPONSE, STANDARD, n.state) == Some(w.micKey);
    CtrUndoesItself(P, w.micKey, ZeroIv(), networkKey + nonce);
  }

  /** What a device's turn sends: its public key, or the confirmation of what it has just accepted and stored. */
  predicate DeviceMessage(i: nat, n: Node, t: Turn) {
    t.action.SendData? ==>
      && t.action.topic in {INCLUDE_REQUEST, INCLUDE_CONFIRM}
      && (t.action.topic == INCLUDE_REQUEST ==> |t.action.payload| == KEY_SIZE)
      && (t.action.topic == INCLUDE_CONFIRM ==>
            && |t.node.ring.networkKey| == KEY_SIZE && |t.node.currentNonce| == NONCE_SIZE
            && t.action.payload == Confirmation(t.node.currentNonce)
            && Accepted(i, n, t.node) == {Acceptance(i, t.node.currentNonce, t.node.ring.networkKey)})
  }

  lemma DeviceTurn(P: Primitives, i: nat, n: Node, topic: byte, payload: seq<byte>, env: Env)
    requires Sound(P) && n.deviceType == STANDARD
    ensures var t := Handled(P, n, topic, payload, env); t.node.deviceType == STANDARD && DeviceMessage(i, n, t)
  {
    hide Confirmation;
  }

  lemma DeviceSends(P: Primitives, i: nat, n: Node, t: Turn, accepted: set<Acceptance>)
    requires t.node.deviceType == STANDARD && DeviceMessage(i, n, t) && Accepted(i, n, t.node) <= accepted
    ensures forall w :: w in OnWire(P, t.node, Device(i), t.action) ==> HonestWire(P, w, accepted)
  {
    hide Confirmation, Ctr, Accepted;
  }

  lemma WiresStayHonest(P: Primitives, w: Wire, accepted: set<Acceptance>, more: set<Acceptance>)
    requires HonestWire(P, w, accepted)
    ensures HonestWire(P, w, accepted + more)
  {
    hide Ctr, Confirmation;
    if w.topic == INCLUDE_CONFIRM {
      var nonce :| Acceptance(w.origin.index, nonce, w.micKey) in accepted && |nonce| == NONCE_SIZE
        && w.payload == Ctr(P, w.micKey, ZeroIv(), Confirmation(nonce));
      assert Acceptance(w.origin.index, nonce, w.micKey) in accepted + more;
    }
  }

  lemma DeviceStepIsHonest(P: Primitives, s: System, i: nat, t: Turn, o: WriteOutcome)
    requires Honest(P, s) && i < |s.devices| && t.node.deviceType == STANDARD && DeviceMessage(i, s.devices[i].node, t)
    ensures Honest(P, DeviceMoves(P, s, i, t, o))
  {
    hide HonestHub, HonestWire, DeviceMessage, OnWire, Accepted;
    var more := Accepted(i, s.devices[i].node, t.node);
    DeviceSends(P, i, s.devices[i].node, t, s.accepted + more);
    forall w | w in s.wires ensures HonestWire(P, w, s.accepted + more) {
      WiresStayHonest(P, w, s.accepted, more);
    }
  }

  // ----- steps and runs -----

  lemma HubOwnTurns(P: Primitives, n: Node, clock: nat)
    requires HonestHub(n)
    ensures HonestHub(Entered(n).node) && HonestHub(Exited(n, clock, NoRoom).node)
    ensures HonestHub(Checked(n, clock, NoRoom))
    ensures HonestHub(Opened(P, n, clock).node) && HubMessage(Opened(P, n, clock).action)
    ensures Entered(n).action.Return? && Exited(n, clock, NoRoom).action.Return?
  {
  }

  lemma HubBootIsHonest(P: Primitives, flash: Store, b: Birth)
    requires Sound(P) && |b.networkKey| == KEY_SIZE && (NKEY in flash ==> |flash[NKEY]| == KEY_SIZE)
    ensures HonestHub(Booted(P, HUB, flash, b))
  {
  }

  lemma DevicesStayDevices(P: Primitives, n: Node, clock: nat, o: WriteOutcome, commitOk: bool, flash: Store, b: Birth)
    ensures Booted(P, STANDARD, flash, b).deviceType == STANDARD
    ensures Checked(n, clock, o).deviceType == n.deviceType
    ensures FactoryReset(P, n, commitOk, b).deviceType == n.deviceType
  {
  }

  lemma StepIsHonest(P: Primitives, s: System, step: Step)
    requires Sound(P) && Honest(P, s) && Enabled(P, s, step)
    ensures Honest(P, Next(P, s, step))
  {
    hide HonestWire, Handled, Heard, Booted, FactoryReset, Checked, HubMoves, DeviceMoves, DeviceMessage, HubMessage,
      Ready;
    hide Opened, Entered, Exited, Keys32, OnWire, Accepted;
    var clock := Millis(s.now);
    match step
    case HubEnters =>
      HubOwnTurns(P, s.hub, clock);
      ReturnsSendNothing(Entered(s.hub));
      HubStepIsHonest(P, s, Entered(s.hub));
    case HubExits =>
      HubOwnTurns(P, s.hub, clock);
      ReturnsSendNothing(Exited(s.hub, clock, NoRoom));
      HubStepIsHonest(P, s, Exited(s.hub, clock, NoRoom));
    case HubOpens =>
      HubOwnTurns(P, s.hub, clock);
      HubStepIsHonest(P, s, Opened(P, s.hub, clock));
    case HubHears(w, random) =>
      var payload := Heard(P, s.hub, w);
      if payload.Some? {
        var env := Env(clock, random, NoRoom);
        RequestsAreKeys(P, s.hub, w, s.accepted);
        HubTurn(P, s.hub, w.topic, payload.value, env);
        HubStepIsHonest(P, s, Handled(P, s.hub, w.topic, payload.value, env));
      }
    case HubRuns => HubOwnTurns(P, s.hub, clock);
    case HubBoots(b) => HubBootIsHonest(P, s.hub.memory.flash, b);
    case DeviceHears(i, w, o) =>
      var n := s.devices[i].node;
      var payload := Heard(P, n, w);
      if payload.Some? {
        var env := Env(clock, [], o);
        DeviceTurn(P, i, n, w.topic, payload.value, env);
        DeviceStepIsHonest(P, s, i, Handled(P, n, w.topic, payload.value, env), o);
      }
    case DeviceRuns(i, o) => DevicesStayDevices(P, s.devices[i].node, clock, o, true, map[], ANY_BIRTH);
    case DeviceBoots(i, b) =>
      DevicesStayDevices(P, s.devices[i].node, clock, NoRoom, true, s.devices[i].node.memory.flash, b);
    case DeviceResets(i, commitOk, b) => DevicesStayDevices(P, s.devices[i].node, clock, NoRoom, commitOk, map[], b);
    case Ticks(ms) =>
  }

  const ANY_BIRTH := Birth([], [], NOT_INCLUDED, NoRoom, NoRoom)

  lemma ReturnsSendNothing(t: Turn)
    requires t.action.Return?
    ensures HubMessage(t.action)
  {
  }

  /** A request is in the clear, so the hub hears the public key that was sent. */
  lemma RequestsAreKeys(P: Primitives, n: Node, w: Wire, accepted: set<Acceptance>)
    requires HonestWire(P, w, accepted) && Heard(P, n, w).Some?
    ensures w.topic == INCLUDE_REQUEST ==> |Heard(P, n, w).value| == KEY_SIZE
  {
  }

  lemma InitialIsHonest(P: Primitives, s: System, networkKey: seq<byte>)
    requires Sound(P) && Initial(P, s, networkKey)
    ensures Honest(P, s)
  {
    var flash, b :| s.hub == Booted(P, HUB, flash, b);
    InitialHubIsHonest(P, flash, b, networkKey);
    forall i | 0 <= i < |s.devices| ensures s.devices[i].node.deviceType == STANDARD {
      assert FreshMember(P, s.devices[i], networkKey, s.now);
    }
  }

  lemma InitialHubIsHonest(P: Primitives, flash: Store, b: Birth, networkKey: seq<byte>)
    requires Sound(P) && |networkKey| == KEY_SIZE && Holds(Booted(P, HUB, flash, b).memory.ram, networkKey)
    ensures HonestHub(Booted(P, HUB, flash, b))
  {
  }

  lemma {:induction false} RunIsHonest(P: Primitives, s: System, steps: seq<Step>)
    requires Sound(P) && Honest(P, s) && Legal(P, s, steps)
    ensures Honest(P, Run(P, s, steps))
    decreases |steps|
  {
    hide Honest, Next, Enabled;
    if steps != [] {
      StepIsHonest(P, s, steps[0]);
      RunIsHonest(P, Next(P, s, steps[0]), steps[1..]);
    }
  }

  // ----- the theorem -----

  /**
   The hub leaves WAITING_FOR_CONFIRMATION on a confirmation only if its sender took a response with
   the hub's very nonce, having the hub's network key in flash when it did, for all 2^32 nonces.
   */
  lemma ConfirmationMeansAcceptance(P: Primitives, s: System, steps: seq<Step>, networkKey: seq<byte>,
                                    w: Wire, random: seq<byte>)
    requires Sound(P) && Initial(P, s, networkKey) && Legal(P, s, steps)
    requires w.topic == INCLUDE_CONFIRM && Enabled(P, Run(P, s, steps), HubHears(w, random))
    requires Run(P, s, steps).hub.protocolState == WAITING_FOR_CONFIRMATION
    ensures var r := Run(P, s, steps);
      Next(P, r, HubHears(w, random)).hub.protocolState != WAITING_FOR_CONFIRMATION ==>
        && NKEY in r.hub.memory.ram && w.origin.Device?
        && Acceptance(w.origin.index, r.hub.currentNonce, r.hub.memory.ram[NKEY]) in r.accepted
  {
    hide Run, Legal, Initial, Handled, Heard, HonestConfirm, OnWire;
    InitialIsHonest(P, s, networkKey);
    RunIsHonest(P, s, steps);
    var r := Run(P, s, steps);
    assert HonestWire(P, w, r.accepted);
    if Heard(P, r.hub, w).Some? {
      ConfirmNamesNonce(P, r.hub, w, r.accepted, Env(Millis(r.now), random, NoRoom));
    }
  }

  lemma ConfirmNamesNonce(P: Primitives, hub: Node, w: Wire, accepted: set<Acceptance>, env: Env)
    requires HonestHub(hub) && hub.protocolState == WAITING_FOR_CONFIRMATION
    requires w.topic == INCLUDE_CONFIRM && HonestConfirm(P, w, accepted) && Heard(P, hub, w).Some?
    ensures w.origin.Device?
    ensures Handled(P, hub, w.topic, Heard(P, hub, w).value, env).node.protocolState != WAITING_FOR_CONFIRMATION ==>
      && NKEY in hub.memory.ram
      && Acceptance(w.origin.index, hub.currentNonce, hub.memory.ram[NKEY]) in accepted
  {
    hide Ctr;
    var nonce :| Acceptance(w.origin.index, nonce, w.micKey) in accepted && |nonce| == NONCE_SIZE
      && w.payload == Ctr(P, w.micKey, ZeroIv(), Confirmation(nonce));
    CtrUndoesItself(P, w.micKey, ZeroIv(), Confirmation(nonce));
    assert w.micKey == hub.ring.networkKey && Heard(P, hub, w).value == Confirmation(nonce);
    Utils.ConfirmationNamesNonce(hub.currentNonce, nonce);
  }

  /** An acceptance is recorded by exactly one kind of step: the device stores the key and takes up the nonce. */
  lemma AcceptanceIsARealStep(P: Primitives, s: System, step: Step, a: Acceptance)
    requires Enabled(P, s, step) && a !in s.accepted && a in Next(P, s, step).accepted
    ensures step.DeviceHears? && step.w.topic == INCLUDE_RESPONSE && a.device == step.i
    ensures var n, m := s.devices[a.device].node, Next(P, s, step).devices[a.device].node;
      && n.state == INCLUSION_PENDING && n.protocolState == WAITING_FOR_RESPONSE
      && m.protocolState == WAITING_FOR_SUCCESS && Holds(m.memory.flash, a.storedKey) && m.currentNonce == a.nonce
      && Heard(P, n, step.w).Some? && a.storedKey + a.nonce <= Heard(P, n, step.w).value
  {
    hide OnWire, Heard, Booted, FactoryReset, SendPublicKey, Confirmation;
  }
}
