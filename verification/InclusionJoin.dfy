/** The protocol does its job: when nothing is lost, a device that wants in gets in, whatever the nonce. */
module InclusionJoin {
  import opened Bytes
  import opened Clock
  import opened Definitions
  import opened Packet
  import opened AesCrypto
  import opened EncryptionService
  import opened DeviceStorage
  import opened InclusionController
  import opened InclusionSystem
  import opened InclusionSafety
  import Utils

  /** The node's key pair is stored and loaded. */
  predicate Equipped(P: Primitives, n: Node) {
    && PRIV_KEY in n.memory.ram && n.ring.devicePrivateKey == n.memory.ram[PRIV_KEY]
    && PublicKeyOf(P, n.memory.ram[PRIV_KEY]).Ok?
  }

  function PublicKey(P: Primitives, n: Node): seq<byte>
    requires Equipped(P, n)
  {
    PublicKeyOf(P, n.memory.ram[PRIV_KEY]).value
  }

  /** The key hub and device agree on without ever sending it. */
  predicate Agree(P: Primitives, hub: Node, device: Node, key: seq<byte>) {
    && Equipped(P, hub) && Equipped(P, device)
    && AgreedKey(P, hub.ring.devicePrivateKey, PublicKey(P, device)) == Some(key)
  }

  /** The node's storage and its own key are as before. */
  predicate SamePair(n: Node, before: Node) {
    n.memory == before.memory && n.ring.devicePrivateKey == before.ring.devicePrivateKey
  }

  lemma AgreementCommutes(P: Primitives, hub: Node, device: Node, key: seq<byte>)
    requires Sound(P) && Agree(P, hub, device, key)
    ensures |key| == 32 && AgreedKey(P, device.ring.devicePrivateKey, PublicKey(P, hub)) == Some(key)
    ensures |PublicKey(P, hub)| == 32 && |PublicKey(P, device)| == 32
  {
  }

  // ----- the five messages -----

  function OpenWire(P: Primitives, hub: Node): Wire
    requires Equipped(P, hub)
  {
    Wire(TheHub, INCLUDE_OPEN, PublicKey(P, hub), [])
  }

  function RequestWire(P: Primitives, i: nat, device: Node): Wire
    requires Equipped(P, device)
  {
    Wire(Device(i), INCLUDE_REQUEST, PublicKey(P, device), [])
  }

  function ResponseWire(P: Primitives, key: seq<byte>, networkKey: seq<byte>, nonce: seq<byte>): Wire {
    Wire(TheHub, INCLUDE_RESPONSE, Ctr(P, key, ZeroIv(), networkKey + nonce), key)
  }

  function ConfirmWire(P: Primitives, i: nat, networkKey: seq<byte>, nonce: seq<byte>): Wire {
    Wire(Device(i), INCLUDE_CONFIRM, Ctr(P, networkKey, ZeroIv(), Confirmation(nonce)), networkKey)
  }

  function SuccessWire(networkKey: seq<byte>): Wire {
    Wire(TheHub, INCLUDE_SUCCESS, [], networkKey)
  }

  lemma HubOpensUp(P: Primitives, hub: Node, clock: nat, networkKey: seq<byte>)
    requires SafeHub(hub, networkKey) && hub.protocolState == PROTOCOL_IDLE && Equipped(P, hub) && Sound(P)
    ensures var t := Opened(P, Entered(hub).node, clock);
      && t.node == hub.(inclusionModeEnabled := true, protocolState := WAITING_FOR_REQUEST, stateStartTime := clock)
      && OpenWire(P, hub) in OnWire(P, t.node, TheHub, t.action)
  {
  }

  lemma DeviceTakesOpen(P: Primitives, i: nat, hub: Node, device: Node, clock: nat)
    requires Sound(P) && Equipped(P, hub) && Equipped(P, device)
    requires device.deviceType == STANDARD && device.state == NOT_INCLUDED && device.protocolState == PROTOCOL_IDLE
    ensures Heard(P, device, OpenWire(P, hub)) == Some(PublicKey(P, hub))
    ensures var t := Handled(P, device, INCLUDE_OPEN, PublicKey(P, hub), Env(clock, [], Committed));
      && t.node.deviceType == STANDARD && t.node.state == INCLUSION_PENDING
        && t.node.protocolState == WAITING_FOR_RESPONSE
      && t.node.ring == device.ring.(hubPublicKey := PublicKey(P, hub))
      && RequestWire(P, i, device) in OnWire(P, t.node, Device(i), t.action)
  {
  }

  lemma HubTakesRequest(P: Primitives, i: nat, hub: Node, device: Node, key: seq<byte>, networkKey: seq<byte>,
                        clock: nat, nonce: seq<byte>)
    requires Sound(P) && Agree(P, hub, device, key) && SafeHub(hub, networkKey) && |networkKey| == KEY_SIZE
    requires hub.inclusionModeEnabled && hub.protocolState == WAITING_FOR_REQUEST && |nonce| == NONCE_SIZE
    ensures Heard(P, hub, RequestWire(P, i, device)) == Some(PublicKey(P, device))
    ensures var t := Handled(P, hub, INCLUDE_REQUEST, PublicKey(P, device), Env(clock, nonce, NoRoom));
      && SafeHub(t.node, networkKey) && t.node.protocolState == WAITING_FOR_CONFIRMATION && t.node.currentNonce == nonce
      && SamePair(t.node, hub)
      && ResponseWire(P, key, networkKey, nonce) in OnWire(P, t.node, TheHub, t.action)
  {
    AgreementCommutes(P, hub, device, key);
  }

  lemma DeviceTakesResponse(P: Primitives, i: nat, device: Node, hubPublicKey: seq<byte>, key: seq<byte>,
                            networkKey: seq<byte>, clock: nat, nonce: seq<byte>)
    requires Sound(P) && |networkKey| == KEY_SIZE && |nonce| == NONCE_SIZE && |key| == KEY_SIZE
    requires |hubPublicKey| == KEY_SIZE && device.ring.hubPublicKey == hubPublicKey
    requires AgreedKey(P, device.ring.devicePrivateKey, hubPublicKey) == Some(key)
    requires device.deviceType == STANDARD && device.state == INCLUSION_PENDING
      && device.protocolState == WAITING_FOR_RESPONSE
    ensures Heard(P, device, ResponseWire(P, key, networkKey, nonce)) == Some(networkKey + nonce)
    ensures var t := Handled(P, device, INCLUDE_RESPONSE, networkKey + nonce, Env(clock, [], Committed));
      && t.node.deviceType == STANDARD && t.node.state == INCLUSION_PENDING
        && t.node.protocolState == WAITING_FOR_SUCCESS
      && Keyed(t.node, networkKey) && t.node.currentNonce == nonce
      && ConfirmWire(P, i, networkKey, nonce) in OnWire(P, t.node, Device(i), t.action)
  {
    CtrUndoesItself(P, key, ZeroIv(), networkKey + nonce);
    assert (networkKey + nonce)[..KEY_SIZE] == networkKey
      && (networkKey + nonce)[KEY_SIZE..KEY_SIZE + NONCE_SIZE] == nonce;
    hide Ctr, Confirmation;
  }

  lemma HubTakesConfirm(P: Primitives, i: nat, hub: Node, networkKey: seq<byte>, clock: nat, nonce: seq<byte>,
      any: seq<byte>)
    requires SafeHub(hub, networkKey) && |networkKey| == KEY_SIZE && |nonce| == NONCE_SIZE
    requires hub.protocolState == WAITING_FOR_CONFIRMATION && hub.currentNonce == nonce
    ensures Heard(P, hub, ConfirmWire(P, i, networkKey, nonce)) == Some(Confirmation(nonce))
    ensures var t := Handled(P, hub, INCLUDE_CONFIRM, Confirmation(nonce), Env(clock, any, NoRoom));
      && t.node.protocolState == PROTOCOL_IDLE && SamePair(t.node, hub)
      && SuccessWire(networkKey) in OnWire(P, t.node, TheHub, t.action)
  {
    CtrUndoesItself(P, networkKey, ZeroIv(), Confirmation(nonce));
    Utils.ConfirmationNamesNonce(nonce, nonce);
    hide Confirmation, Utils.NumberOf;
    assert Ctr(P, networkKey, ZeroIv(), []) == [];
  }

  lemma DeviceTakesSuccess(P: Primitives, device: Node, networkKey: seq<byte>, clock: nat)
    requires |networkKey| == KEY_SIZE && Keyed(device, networkKey)
    requires device.deviceType == STANDARD && device.state == INCLUSION_PENDING
      && device.protocolState == WAITING_FOR_SUCCESS
    ensures Heard(P, device, SuccessWire(networkKey)).Some?
    ensures forall payload ::
      var t := Handled(P, device, INCLUDE_SUCCESS, payload, Env(clock, [], Committed));
      t.node.state == INCLUDED && t.node.protocolState == PROTOCOL_IDLE && Keyed(t.node, networkKey)
      && LoadedState(t.node.memory.flash) == INCLUDED
  {
  }

  // ----- the run -----

  /** A run goes on by any step that is possible at its end. */
  lemma {:induction false} AndThen(P: Primitives, s: System, steps: seq<Step>, step: Step)
    requires Legal(P, s, steps) && Enabled(P, Run(P, s, steps), step)
    ensures Legal(P, s, steps + [step]) && Run(P, s, steps + [step]) == Next(P, Run(P, s, steps), step)
    decreases |steps|
  {
    hide Enabled, Next;
    if steps == [] {
      assert [] + [step] == [step] && [step][1..] == [];
    } else {
      AndThen(P, Next(P, s, steps[0]), steps[1..], step);
      assert (steps + [step])[1..] == steps[1..] + [step] && (steps + [step])[0] == steps[0];
    }
  }

  /** And by any other run from there. */
  lemma {:induction false} RunsCompose(P: Primitives, s: System, a: seq<Step>, b: seq<Step>)
    requires Legal(P, s, a) && Legal(P, Run(P, s, a), b)
    ensures Legal(P, s, a + b) && Run(P, s, a + b) == Run(P, Run(P, s, a), b)
    decreases |a|
  {
    hide Enabled, Next;
    if a == [] {
      assert a + b == b;
    } else {
      assert (a + b)[1..] == a[1..] + b && (a + b)[0] == a[0];
      RunsCompose(P, Next(P, s, a[0]), a[1..], b);
    }
  }

  /** What one hub step and one device step change. */
  lemma HubHearing(P: Primitives, s: System, w: Wire, random: seq<byte>)
    requires w in s.wires && |random| == NONCE_SIZE && Heard(P, s.hub, w).Some?
    ensures var t := Handled(P, s.hub, w.topic, Heard(P, s.hub, w).value, Env(Millis(s.now), random, NoRoom));
      var r := Next(P, s, HubHears(w, random));
      && Enabled(P, s, HubHears(w, random)) && r.hub == t.node && r.devices == s.devices
      && s.wires <= r.wires && OnWire(P, t.node, TheHub, t.action) <= r.wires && r.accepted == s.accepted
  {
    hide Handled, Heard, OnWire;
  }

  lemma DeviceHearing(P: Primitives, s: System, i: nat, w: Wire, o: WriteOutcome)
    requires i < |s.devices| && w in s.wires && Heard(P, s.devices[i].node, w).Some?
    ensures var n := s.devices[i].node;
      var t := Handled(P, n, w.topic, Heard(P, n, w).value, Env(Millis(s.now), [], o));
      var r := Next(P, s, DeviceHears(i, w, o));
      && Enabled(P, s, DeviceHears(i, w, o)) && r.hub == s.hub && |r.devices| == |s.devices|
        && r.devices[i].node == t.node
      && s.wires <= r.wires && OnWire(P, t.node, Device(i), t.action) <= r.wires
      && s.accepted <= r.accepted && Accepted(i, n, t.node) <= r.accepted
  {
    hide Handled, Heard, OnWire, Accepted;
  }

  lemma Opening(P: Primitives, s: System, networkKey: seq<byte>) returns (r: System)
    requires SafeHub(s.hub, networkKey) && s.hub.protocolState == PROTOCOL_IDLE && Equipped(P, s.hub) && Sound(P)
    ensures Enabled(P, s, HubEnters) && Enabled(P, Next(P, s, HubEnters), HubOpens)
    ensures r == Next(P, Next(P, s, HubEnters), HubOpens) && r.devices == s.devices && r.now == s.now
    ensures r.hub == s.hub.(inclusionModeEnabled := true, protocolState := WAITING_FOR_REQUEST,
      stateStartTime := Millis(s.now))
    ensures OpenWire(P, s.hub) in r.wires && s.wires <= r.wires
  {
    HubOpensUp(P, s.hub, Millis(s.now), networkKey);
    hide Opened, OnWire, Millis, OpenWire, SafeHub;
    r := Next(P, Next(P, s, HubEnters), HubOpens);
  }

  /** Request and response: from the open message on air to the confirmation on air. */
  lemma Exchange(P: Primitives, s: System, i: nat, hub: Node, key: seq<byte>, networkKey: seq<byte>, nonce: seq<byte>)
    returns (s1: System, s2: System, s3: System)
    requires Sound(P) && |networkKey| == KEY_SIZE && |nonce| == NONCE_SIZE && i < |s.devices|
    requires SafeHub(s.hub, networkKey) && Agree(P, hub, s.devices[i].node, key)
      && Agree(P, s.hub, s.devices[i].node, key)
    requires s.hub.inclusionModeEnabled && s.hub.protocolState == WAITING_FOR_REQUEST && OpenWire(P, hub) in s.wires
    requires var n := s.devices[i].node;
      n.deviceType == STANDARD && n.state == NOT_INCLUDED && n.protocolState == PROTOCOL_IDLE
    ensures Enabled(P, s, DeviceHears(i, OpenWire(P, hub), Committed))
      && s1 == Next(P, s, DeviceHears(i, OpenWire(P, hub), Committed))
    ensures var request := RequestWire(P, i, s.devices[i].node);
      Enabled(P, s1, HubHears(request, nonce)) && s2 == Next(P, s1, HubHears(request, nonce))
    ensures var step := DeviceHears(i, ResponseWire(P, key, networkKey, nonce), Committed);
      Enabled(P, s2, step) && s3 == Next(P, s2, step)
    ensures |s3.devices| == |s.devices| && SafeHub(s3.hub, networkKey) && SamePair(s3.hub, s.hub)
    ensures s3.hub.protocolState == WAITING_FOR_CONFIRMATION && s3.hub.currentNonce == nonce
    ensures var n := s3.devices[i].node;
      n.deviceType == STANDARD && n.state == INCLUSION_PENDING && n.protocolState == WAITING_FOR_SUCCESS
        && Keyed(n, networkKey)
    ensures ConfirmWire(P, i, networkKey, nonce) in s3.wires && Acceptance(i, nonce, networkKey) in s3.accepted
    ensures s.wires <= s3.wires
  {
    var device := s.devices[i].node;
    AgreementCommutes(P, hub, device, key);
    var open, request, response := OpenWire(P, hub), RequestWire(P, i, device), ResponseWire(P, key, networkKey, nonce);
    assert open.topic == INCLUDE_OPEN && request.topic == INCLUDE_REQUEST && response.topic == INCLUDE_RESPONSE;
    hide Handled, Heard, OnWire, Next, Enabled, OpenWire, RequestWire, ResponseWire, ConfirmWire, SafeHub, PublicKey,
      AgreedKey;
    DeviceTakesOpen(P, i, hub, device, Millis(s.now));
    DeviceHearing(P, s, i, open, Committed);
    s1 := Next(P, s, DeviceHears(i, open, Committed));
    HubTakesRequest(P, i, s1.hub, device, key, networkKey, Millis(s1.now), nonce);
    HubHearing(P, s1, request, nonce);
    s2 := Next(P, s1, HubHears(request, nonce));
    DeviceTakesResponse(P, i, s2.devices[i].node, PublicKey(P, hub), key, networkKey, Millis(s2.now), nonce);
    DeviceHearing(P, s2, i, response, Committed);
    s3 := Next(P, s2, DeviceHears(i, response, Committed));
  }

  lemma Closing(P: Primitives, s: System, i: nat, networkKey: seq<byte>, nonce: seq<byte>) returns (s1: System,
      s2: System)
    requires |networkKey| == KEY_SIZE && |nonce| == NONCE_SIZE && i < |s.devices| && SafeHub(s.hub, networkKey)
    requires s.hub.protocolState == WAITING_FOR_CONFIRMATION && s.hub.currentNonce == nonce
    requires ConfirmWire(P, i, networkKey, nonce) in s.wires
    requires var n := s.devices[i].node;
      n.deviceType == STANDARD && n.state == INCLUSION_PENDING && n.protocolState == WAITING_FOR_SUCCESS
        && Keyed(n, networkKey)
    ensures var step := HubHears(ConfirmWire(P, i, networkKey, nonce), nonce);
      Enabled(P, s, step) && s1 == Next(P, s, step)
    ensures var step := DeviceHears(i, SuccessWire(networkKey), Committed);
      Enabled(P, s1, step) && s2 == Next(P, s1, step)
    ensures s2.hub.protocolState == PROTOCOL_IDLE && |s2.devices| == |s.devices| && s.accepted <= s2.accepted
    ensures SamePair(s2.hub, s.hub) && SuccessWire(networkKey) in s2.wires
    ensures s2.devices[i].node.state == INCLUDED && Keyed(s2.devices[i].node, networkKey)
    ensures LoadedState(s2.devices[i].node.memory.flash) == INCLUDED
  {
    var confirm, success := ConfirmWire(P, i, networkKey, nonce), SuccessWire(networkKey);
    assert confirm.topic == INCLUDE_CONFIRM && success.topic == INCLUDE_SUCCESS;
    hide Handled, Heard, OnWire, Next, Enabled, ConfirmWire, SuccessWire, SafeHub, Keyed;
    HubTakesConfirm(P, i, s.hub, networkKey, Millis(s.now), nonce, nonce);
    HubHearing(P, s, confirm, nonce);
    s1 := Next(P, s, HubHears(confirm, nonce));
    DeviceTakesSuccess(P, s1.devices[i].node, networkKey, Millis(s1.now));
    DeviceHearing(P, s1, i, success, Committed);
    s2 := Next(P, s1, DeviceHears(i, success, Committed));
  }

  /** A pair that can join: the hub idle, the device free, and a key they agree on. */
  predicate Joinable(P: Primitives, s: System, i: nat, key: seq<byte>) {
    && i < |s.devices| && s.hub.protocolState == PROTOCOL_IDLE && Agree(P, s.hub, s.devices[i].node, key)
    && s.devices[i].node.state == NOT_INCLUDED && s.devices[i].node.protocolState == PROTOCOL_IDLE
  }

  /** The hub neither boots nor hears a confirmation. */
  predicate NeitherRebootsNorConfirms(steps: seq<Step>) {
    forall k :: 0 <= k < |steps| ==> Quiet(steps[k])
  }

  predicate Quiet(step: Step) {
    !step.HubBoots? && (step.HubHears? ==> step.w.topic != INCLUDE_CONFIRM)
  }

  lemma QuietlyThen(P: Primitives, s: System, steps: seq<Step>, step: Step)
    requires Legal(P, s, steps) && Enabled(P, Run(P, s, steps), step) && NeitherRebootsNorConfirms(steps) && Quiet(step)
    ensures Legal(P, s, steps + [step]) && Run(P, s, steps + [step]) == Next(P, Run(P, s, steps), step)
    ensures NeitherRebootsNorConfirms(steps + [step])
  {
    hide Legal, Run, Enabled, Next;
    AndThen(P, s, steps, step);
  }

  /** The first five steps: the device has stored the key, the hub waits for the confirmation on air. */
  lemma JoinUntilConfirm(P: Primitives, s: System, i: nat, key: seq<byte>, networkKey: seq<byte>, nonce: seq<byte>)
    returns (steps: seq<Step>)
    requires Sound(P) && Safe(P, s, networkKey) && |nonce| == NONCE_SIZE && Joinable(P, s, i, key)
    ensures Legal(P, s, steps) && NeitherRebootsNorConfirms(steps)
    ensures var r := Run(P, s, steps);
      && |r.devices| == |s.devices| && SafeHub(r.hub, networkKey) && SamePair(r.hub, s.hub) && s.wires <= r.wires
      && r.hub.protocolState == WAITING_FOR_CONFIRMATION && r.hub.currentNonce == nonce
      && ConfirmWire(P, i, networkKey, nonce) in r.wires && Acceptance(i, nonce, networkKey) in r.accepted
      && var n := r.devices[i].node;
      && n.deviceType == STANDARD && n.state == INCLUSION_PENDING && n.protocolState == WAITING_FOR_SUCCESS
      && Keyed(n, networkKey)
  {
    var hub, device := s.hub, s.devices[i].node;
    var s2 := Opening(P, s, networkKey);
    assert SafeHub(s2.hub, networkKey) && SafeDevice(s.devices[i], networkKey);
    var s3, s4, s5 := Exchange(P, s2, i, hub, key, networkKey, nonce);
    var open, request, response := OpenWire(P, hub), RequestWire(P, i, device), ResponseWire(P, key, networkKey, nonce);
    assert request.topic == INCLUDE_REQUEST;
    hide Enabled, Next, Safe, SafeHub, Keyed, OpenWire, RequestWire, ResponseWire, ConfirmWire, Legal, Run,
      NeitherRebootsNorConfirms;
    NoSteps(P, s);
    QuietlyThen(P, s, [], HubEnters);
    QuietlyThen(P, s, [] + [HubEnters], HubOpens);
    steps := [] + [HubEnters] + [HubOpens];
    var step := DeviceHears(i, open, Committed);
    QuietlyThen(P, s, steps, step);
    steps := steps + [step];
    step := HubHears(request, nonce);
    QuietlyThen(P, s, steps, step);
    steps := steps + [step];
    step := DeviceHears(i, response, Committed);
    QuietlyThen(P, s, steps, step);
    steps := steps + [step];
  }

  lemma NoSteps(P: Primitives, s: System)
    ensures Legal(P, s, []) && Run(P, s, []) == s && NeitherRebootsNorConfirms([])
  {
  }

  /**
   From every safe state with an idle hub, any device that is not included and not busy can be
   included in seven steps, whatever nonce comes up, provided the key agreement works for the pair.
   */
  lemma JoinCanComplete(P: Primitives, s: System, i: nat, key: seq<byte>, networkKey: seq<byte>, nonce: seq<byte>)
    returns (steps: seq<Step>)
    requires Sound(P) && Safe(P, s, networkKey) && |nonce| == NONCE_SIZE && Joinable(P, s, i, key)
    ensures Legal(P, s, steps) && forall k :: 0 <= k < |steps| ==> !steps[k].HubBoots?
    ensures var r := Run(P, s, steps);
      && r.hub.protocolState == PROTOCOL_IDLE && |r.devices| == |s.devices| && SamePair(r.hub, s.hub)
      && SuccessWire(networkKey) in r.wires
      && r.devices[i].node.state == INCLUDED && Keyed(r.devices[i].node, networkKey)
      && LoadedState(r.devices[i].node.memory.flash) == INCLUDED
      && Acceptance(i, nonce, networkKey) in r.accepted
  {
    steps := JoinUntilConfirm(P, s, i, key, networkKey, nonce);
    assert |networkKey| == KEY_SIZE;
    hide Enabled, Next, Safe, SafeHub, Keyed, ConfirmWire, SuccessWire, Legal, Run;
    var s6, s7 := Closing(P, Run(P, s, steps), i, networkKey, nonce);
    var step := HubHears(ConfirmWire(P, i, networkKey, nonce), nonce);
    AndThen(P, s, steps, step);
    steps := steps + [step];
    step := DeviceHears(i, SuccessWire(networkKey), Committed);
    AndThen(P, s, steps, step);
    steps := steps + [step];
  }
}
