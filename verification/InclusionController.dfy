/**
 The five-message join protocol at one node: the handlers, the timeout and the start-up, first as
 functions of what the node knows, then as the object that runs them.
 */
module InclusionController {
  import opened Bytes
  import opened Clock
  import opened Errors
  import opened Definitions
  import opened Packet
  import opened AesCrypto
  import opened EncryptionService
  import opened DeviceStorage
  import opened EepromLog
  import Utils

  const BASE_TIMEOUT_MS := 60000
  const NONCE_SIZE := 4

  datatype InclusionProtocolState =
    | PROTOCOL_IDLE
    | WAITING_FOR_REQUEST         // hub: INCLUDE_OPEN sent
    | WAITING_FOR_RESPONSE        // device: INCLUDE_REQUEST sent
    | WAITING_FOR_CONFIRMATION    // hub: INCLUDE_RESPONSE sent
    | WAITING_FOR_SUCCESS         // device: INCLUDE_CONFIRM sent

  // ----- the specification: one node and its steps -----

  /** All a node knows of its inclusion, in RAM, in flash and in its encryption service. */
  datatype Node = Node(
    deviceType: MeshDeviceType, state: DeviceInclusionState, inclusionModeEnabled: bool,
    protocolState: InclusionProtocolState, stateStartTime: nat,
    currentNonce: seq<byte>, tempHubPublicKey: seq<byte>,
    memory: Memory, ring: KeyRing)

  /** What a handler ends with: a return code, or the message its last act hands to `sendData`. */
  datatype Action = Return(rc: int) | SendData(topic: byte, payload: seq<byte>)

  datatype Turn = Turn(node: Node, action: Action)

  /** The clock reading, the random bytes for a nonce, and how the one write of a step goes. */
  datatype Env = Env(clock: nat, random: seq<byte>, outcome: WriteOutcome)

  function Write(n: Node, key: Key, data: seq<byte>, o: WriteOutcome): Node {
    n.(memory := Stored(n.memory, key, data, o))
  }

  /** Entering a state starts its clock; staying in it does not restart it. */
  function Transition(n: Node, to: InclusionProtocolState, clock: nat): Node {
    if n.protocolState == to then n else n.(protocolState := to, stateStartTime := clock)
  }

  /** The node's public key, derived from the stored private key. */
  function StoredPublicKey(P: Primitives, n: Node): Result<seq<byte>> {
    if PRIV_KEY !in n.memory.ram then Err(RM_E_STORAGE_KEY_NOT_FOUND)
    else PublicKeyOf(P, n.memory.ram[PRIV_KEY])
  }

  function SendPublicKey(P: Primitives, n: Node, topic: byte): Turn {
    var publicKey := StoredPublicKey(P, n);
    Turn(n, if publicKey.Ok? then SendData(topic, publicKey.value) else Return(publicKey.rc))
  }

  // hub

  function Opened(P: Primitives, n: Node, clock: nat): Turn {
    if !n.inclusionModeEnabled then Turn(n, Return(RM_E_INVALID_STATE))
    else SendPublicKey(P, Transition(n, WAITING_FOR_REQUEST, clock), INCLUDE_OPEN)
  }

  function Responded(n: Node, payload: seq<byte>, nonce: seq<byte>): Turn {
    if NKEY !in n.memory.ram then Turn(n, Return(RM_E_STORAGE_KEY_NOT_FOUND))
    else if |payload| != KEY_SIZE then Turn(n, Return(RM_E_INVALID_LENGTH))
    else
      var networkKey := n.memory.ram[NKEY];
      Turn(n.(ring := n.ring.(tempDevicePublicKey := payload, networkKey := networkKey), currentNonce := nonce),
           SendData(INCLUDE_RESPONSE, networkKey + nonce))
  }

  function OnRequest(n: Node, payload: seq<byte>, clock: nat, nonce: seq<byte>): Turn {
    if n.inclusionModeEnabled && n.protocolState == WAITING_FOR_REQUEST
    then Responded(Transition(n, WAITING_FOR_CONFIRMATION, clock), payload, nonce)
    else Turn(n, Return(RM_E_INVALID_STATE))
  }

  function OnConfirm(n: Node, payload: seq<byte>, clock: nat): Turn {
    if n.protocolState != WAITING_FOR_CONFIRMATION then Turn(n, Return(RM_E_INVALID_STATE))
    else if Utils.NumberOf(payload) != Utils.Next(Utils.NumberOf(n.currentNonce)) then
      Turn(n, Return(RM_E_INVALID_PARAM))
    else Turn(Transition(n, PROTOCOL_IDLE, clock), SendData(INCLUDE_SUCCESS, []))
  }

  // standard device

  function OnOpen(P: Primitives, n: Node, payload: seq<byte>, clock: nat, o: WriteOutcome): Turn {
    if n.state != NOT_INCLUDED || n.protocolState != PROTOCOL_IDLE then Turn(n, Return(RM_E_NONE))
    else if |payload| != KEY_SIZE then Turn(n, Return(RM_E_INVALID_LENGTH))
    else
      var m := n.(tempHubPublicKey := payload, ring := n.ring.(hubPublicKey := payload), state := INCLUSION_PENDING);
      SendPublicKey(P, Transition(Write(m, STATE_KEY, [INCLUSION_PENDING.Code()], o), WAITING_FOR_RESPONSE, clock),
                    INCLUDE_REQUEST)
  }

  function Confirmation(nonce: seq<byte>): seq<byte> {
    BigEndian(Utils.Next(Utils.NumberOf(nonce)))
  }

  function OnResponse(n: Node, payload: seq<byte>, clock: nat, o: WriteOutcome): Turn {
    if n.state != INCLUSION_PENDING || n.protocolState != WAITING_FOR_RESPONSE then Turn(n, Return(RM_E_NONE))
    else if |payload| < KEY_SIZE + NONCE_SIZE then Turn(n, Return(RM_E_INVALID_LENGTH))
    else
      var networkKey, nonce := payload[..KEY_SIZE], payload[KEY_SIZE..KEY_SIZE + NONCE_SIZE];
      var m := Write(n.(currentNonce := nonce), NKEY, networkKey, o);
      if o != Committed then Turn(m, Return(OutcomeCode(o)))
      else Turn(Transition(m.(ring := m.ring.(networkKey := networkKey)), WAITING_FOR_SUCCESS, clock),
                SendData(INCLUDE_CONFIRM, Confirmation(nonce)))
  }

  function WithStoredNetworkKey(n: Node): Node {
    if NKEY in n.memory.ram then n.(ring := n.ring.(networkKey := n.memory.ram[NKEY])) else n
  }

  function OnSuccess(n: Node, clock: nat, o: WriteOutcome): Turn {
    if n.state != INCLUSION_PENDING || n.protocolState != WAITING_FOR_SUCCESS then Turn(n, Return(RM_E_NONE))
    else
      var m := Write(n.(state := INCLUDED), STATE_KEY, [INCLUDED.Code()], o);
      Turn(WithStoredNetworkKey(Transition(m, PROTOCOL_IDLE, clock)), Return(RM_E_NONE))
  }

  function Handled(P: Primitives, n: Node, topic: byte, payload: seq<byte>, env: Env): Turn {
    if n.deviceType == HUB then
      if topic == INCLUDE_REQUEST then OnRequest(n, payload, env.clock, env.random)
      else if topic == INCLUDE_CONFIRM then OnConfirm(n, payload, env.clock)
      else Turn(n, Return(RM_E_NONE))
    else
      if topic == INCLUDE_OPEN then OnOpen(P, n, payload, env.clock, env.outcome)
      else if topic == INCLUDE_RESPONSE then OnResponse(n, payload, env.clock, env.outcome)
      else if topic == INCLUDE_SUCCESS then OnSuccess(n, env.clock, env.outcome)
      else Turn(n, Return(RM_E_NONE))
  }

  /** The bytes a message makes a device write: a state, or for a response a network key. */
  function WriteSize(topic: byte): nat {
    if topic == INCLUDE_RESPONSE then |NKEY| + KEY_SIZE else |STATE_KEY| + 1
  }

  // timeout and inclusion mode

  predicate TimedOut(n: Node, clock: nat) {
    n.protocolState != PROTOCOL_IDLE && Elapsed(clock, n.stateStartTime) > BASE_TIMEOUT_MS
  }

  function Reset(n: Node, clock: nat, o: WriteOutcome): Node {
    var m := Transition(n, PROTOCOL_IDLE, clock);
    if m.deviceType == STANDARD && m.state == INCLUSION_PENDING
    then Write(m.(state := NOT_INCLUDED), STATE_KEY, [NOT_INCLUDED.Code()], o) else m
  }

  function Checked(n: Node, clock: nat, o: WriteOutcome): Node {
    if TimedOut(n, clock) then Reset(n.(inclusionModeEnabled := false), clock, o) else n
  }

  /** The room after a timeout check. */
  function RoomChecked(free: int, n: Node, clock: nat, o: WriteOutcome): int {
    if TimedOut(n, clock) && n.deviceType == STANDARD && n.state == INCLUSION_PENDING
    then RoomLeft(free, n.memory.ram, STATE_KEY, [NOT_INCLUDED.Code()], o) else free
  }

  function Entered(n: Node): Turn {
    if n.deviceType != HUB then Turn(n, Return(RM_E_INVALID_DEVICE_TYPE))
    else Turn(n.(inclusionModeEnabled := true), Return(RM_E_NONE))
  }

  function Exited(n: Node, clock: nat, o: WriteOutcome): Turn {
    if n.deviceType != HUB then Turn(n, Return(RM_E_INVALID_DEVICE_TYPE))
    else Turn(Reset(n.(inclusionModeEnabled := false), clock, o), Return(RM_E_NONE))
  }

  // what each of these does, in the node's fields

  /** An included device takes no notice of any inclusion message. */
  lemma IncludedIgnoresMessages(P: Primitives, n: Node, topic: byte, payload: seq<byte>, env: Env)
    requires n.deviceType == STANDARD && n.state == INCLUDED
    ensures Handled(P, n, topic, payload, env) == Turn(n, Return(RM_E_NONE))
  {
  }

  /** Each role has its messages, and ignores all others. */
  lemma OthersAreIgnored(P: Primitives, n: Node, topic: byte, payload: seq<byte>, env: Env)
    requires if n.deviceType == HUB then topic != 0x06 && topic != 0x09
             else topic != 0x08 && topic != 0x07 && topic != 0x0A
    ensures Handled(P, n, topic, payload, env) == Turn(n, Return(RM_E_NONE))
  {
  }

  /** INCLUDE_OPEN starts a join exactly at a free idle device, with a public key of 32 bytes. */
  lemma OpenStartsJoinIff(P: Primitives, n: Node, payload: seq<byte>, env: Env)
    requires n.deviceType == STANDARD
    ensures var t := Handled(P, n, 0x08, payload, env);
      if n.state == NOT_INCLUDED && n.protocolState == PROTOCOL_IDLE && |payload| == 32 then
        && t.node == n.(state := INCLUSION_PENDING, protocolState := WAITING_FOR_RESPONSE, stateStartTime := env.clock,
                        tempHubPublicKey := payload, ring := n.ring.(hubPublicKey := payload),
                        memory := Stored(n.memory, STATE_KEY, [2], env.outcome))
        && (if PRIV_KEY in t.node.memory.ram && PublicKeyOf(P, t.node.memory.ram[PRIV_KEY]).Ok?
            then t.action == SendData(0x06, PublicKeyOf(P, t.node.memory.ram[PRIV_KEY]).value) else t.action.Return?)
      else
        t == Turn(n, Return(if n.state == NOT_INCLUDED && n.protocolState == PROTOCOL_IDLE then RM_E_INVALID_LENGTH
                            else RM_E_NONE))
  {
  }

  /** A response is taken exactly by a device waiting for it; it confirms only if the key is committed. */
  lemma ResponseIsTakenIff(P: Primitives, n: Node, payload: seq<byte>, env: Env)
    requires n.deviceType == STANDARD
    ensures var t := Handled(P, n, 0x07, payload, env);
      if n.state == INCLUSION_PENDING && n.protocolState == WAITING_FOR_RESPONSE && |payload| >= 36 then
        var m := n.(currentNonce := payload[32..36], memory := Stored(n.memory, NKEY, payload[..32], env.outcome));
        if env.outcome == Committed then
          && t.node == m.(protocolState := WAITING_FOR_SUCCESS, stateStartTime := env.clock,
                          ring := n.ring.(networkKey := payload[..32]))
          && t.action == SendData(0x09, BigEndian(Utils.NumberOf(payload[32..36]) + 1))
        else t == Turn(m, Return(OutcomeCode(env.outcome)))
      else
        t == Turn(n, Return(if n.state == INCLUSION_PENDING && n.protocolState == WAITING_FOR_RESPONSE
                            then RM_E_INVALID_LENGTH else RM_E_NONE))
  {
  }

  /** The last message includes exactly a device waiting for it, which then uses the key it has stored. */
  lemma SuccessIncludesIff(P: Primitives, n: Node, payload: seq<byte>, env: Env)
    requires n.deviceType == STANDARD
    ensures var t := Handled(P, n, 0x0A, payload, env);
      if n.state == INCLUSION_PENDING && n.protocolState == WAITING_FOR_SUCCESS then
        t == Turn(n.(state := INCLUDED, protocolState := PROTOCOL_IDLE, stateStartTime := env.clock,
                     memory := Stored(n.memory, STATE_KEY, [3], env.outcome),
                     ring := if NKEY in n.memory.ram then n.ring.(networkKey := n.memory.ram[NKEY]) else n.ring),
                  Return(RM_E_NONE))
      else t == Turn(n, Return(RM_E_NONE))
  {
  }

  /** A request is answered exactly by a hub in inclusion mode waiting for one, with its stored key and a new nonce. */
  lemma RequestIsAnsweredIff(P: Primitives, n: Node, payload: seq<byte>, env: Env)
    requires n.deviceType == HUB
    ensures var t := Handled(P, n, 0x06, payload, env);
      if n.inclusionModeEnabled && n.protocolState == WAITING_FOR_REQUEST then
        var m := n.(protocolState := WAITING_FOR_CONFIRMATION, stateStartTime := env.clock);
        if NKEY in n.memory.ram && |payload| == 32 then
          && t.node == m.(currentNonce := env.random,
                          ring := n.ring.(tempDevicePublicKey := payload, networkKey := n.memory.ram[NKEY]))
          && t.action == SendData(0x07, n.memory.ram[NKEY] + env.random)
        else t == Turn(m, Return(if NKEY in n.memory.ram then RM_E_INVALID_LENGTH else RM_E_STORAGE_KEY_NOT_FOUND))
      else t == Turn(n, Return(RM_E_INVALID_STATE))
  {
  }

  /** A confirmation ends the session exactly at a hub waiting for it, if it names the nonce plus one. */
  lemma ConfirmEndsSessionIff(P: Primitives, n: Node, payload: seq<byte>, env: Env)
    requires n.deviceType == HUB
    ensures var t := Handled(P, n, 0x09, payload, env);
      if n.protocolState == WAITING_FOR_CONFIRMATION
         && Utils.NumberOf(payload) == Utils.NumberOf(n.currentNonce) + 1
      then t == Turn(n.(protocolState := PROTOCOL_IDLE, stateStartTime := env.clock), SendData(0x0A, []))
      else t == Turn(n, Return(if n.protocolState == WAITING_FOR_CONFIRMATION then RM_E_INVALID_PARAM
                               else RM_E_INVALID_STATE))
  {
  }

  /** After 60 seconds in a state, by the wrapping clock, and not before, a node gives up. */
  lemma GivesUpIff(n: Node, clock: nat, o: WriteOutcome)
    ensures if n.protocolState == PROTOCOL_IDLE || Elapsed(clock, n.stateStartTime) <= 60000
            then Checked(n, clock, o) == n
            else
              var m := n.(inclusionModeEnabled := false, protocolState := PROTOCOL_IDLE, stateStartTime := clock);
              Checked(n, clock, o) ==
              if n.deviceType == STANDARD && n.state == INCLUSION_PENDING
              then m.(state := NOT_INCLUDED, memory := Stored(n.memory, STATE_KEY, [1], o)) else m
  {
  }

  /** Inclusion mode is on after entering and off after leaving, which ends the session; only a hub can do either. */
  lemma ModeIsSwitched(n: Node, clock: nat, o: WriteOutcome)
    ensures n.deviceType != HUB ==>
      Entered(n) == Exited(n, clock, o) == Turn(n, Return(RM_E_INVALID_DEVICE_TYPE))
    ensures n.deviceType == HUB ==>
      && Entered(n) == Turn(n.(inclusionModeEnabled := true), Return(RM_E_NONE))
      && Exited(n, clock, o) ==
         Turn(n.(inclusionModeEnabled := false, protocolState := PROTOCOL_IDLE,
                 stateStartTime := if n.protocolState == PROTOCOL_IDLE then n.stateStartTime else clock),
              Return(RM_E_NONE))
  {
  }

  /** The hub calls for requests exactly in inclusion mode, with its own public key. */
  lemma HubOpensIff(P: Primitives, n: Node, clock: nat)
    ensures var t := Opened(P, n, clock);
      if n.inclusionModeEnabled then
        && t.node == n.(protocolState := WAITING_FOR_REQUEST,
                        stateStartTime := if n.protocolState == WAITING_FOR_REQUEST then n.stateStartTime else clock)
        && (if PRIV_KEY in n.memory.ram && PublicKeyOf(P, n.memory.ram[PRIV_KEY]).Ok?
            then t.action == SendData(0x08, PublicKeyOf(P, n.memory.ram[PRIV_KEY]).value) else t.action.Return?)
      else t == Turn(n, Return(RM_E_INVALID_STATE))
  {
  }

  // start-up

  /** What the constructor finds outside itself: fresh keys, indeterminate memory, and how its two writes go. */
  datatype Birth = Birth(privateKey: seq<byte>, networkKey: seq<byte>, garbage: DeviceInclusionState,
                         first: WriteOutcome, second: WriteOutcome)

  /** The memory once the private key is there, and the code of making it be there. */
  function KeysReady(P: Primitives, memory: Memory, b: Birth): (Memory, int) {
    if PRIV_KEY in memory.ram then
      (memory, var k := PublicKeyOf(P, memory.ram[PRIV_KEY]); if k.Ok? then RM_E_NONE else k.rc)
    else if PublicKeyOf(P, b.privateKey).Err? then (memory, RM_E_CRYPTO_SETUP)
    else (Stored(memory, PRIV_KEY, b.privateKey, b.first), OutcomeCode(b.first))
  }

  /** A hub is included; a device whose keys failed is left with whatever state its memory held. */
  function Constructed(P: Primitives, deviceType: MeshDeviceType, memory: Memory, ring: KeyRing, b: Birth): Node {
    var (m, rc) := KeysReady(P, memory, b);
    var m' := if deviceType == HUB && NKEY !in m.ram then Stored(m, NKEY, b.networkKey, b.second) else m;
    Node(deviceType, if deviceType == HUB then INCLUDED else if rc == RM_E_NONE then LoadedState(m.ram) else b.garbage,
         false, PROTOCOL_IDLE, 0, [], [], m', ring)
  }

  /** Whatever memory held, a device comes up in its stored state: true exactly if its key pair is ready. */
  lemma StateIsLoadedIffKeysAreReady(P: Primitives, memory: Memory, ring: KeyRing, b: Birth)
    ensures (forall g :: Constructed(P, STANDARD, memory, ring, b.(garbage := g)).state
                         == LoadedState(KeysReady(P, memory, b).0.ram))
            <==> KeysReady(P, memory, b).1 == RM_E_NONE
  {
    var (m, rc) := KeysReady(P, memory, b);
    var other := if LoadedState(m.ram) == INCLUDED then NOT_INCLUDED else INCLUDED;
    forall g ensures KeysReady(P, memory, b.(garbage := g)) == (m, rc) {
    }
    assert rc != RM_E_NONE ==> Constructed(P, STANDARD, memory, ring, b.(garbage := other)).state == other;
  }

  /**
   A failing input: on an empty storage whose first commit fails, a device is included if memory
   happens to say so.
   */
  lemma FailedKeyCommitLeavesGarbage(P: Primitives, ring: KeyRing, privateKey: seq<byte>, networkKey: seq<byte>,
                                     garbage: DeviceInclusionState, second: WriteOutcome)
    ensures var b := Birth(privateKey, networkKey, garbage, CommitFailed, second);
      && KeysReady(P, Memory(map[], map[]), b).1 != RM_E_NONE
      && Constructed(P, STANDARD, Memory(map[], map[]), ring, b).state == garbage
  {
  }

  /** The room once the private key is there. */
  function RoomWithKeys(P: Primitives, free: int, memory: Memory, b: Birth): int {
    if PRIV_KEY in memory.ram || PublicKeyOf(P, b.privateKey).Err? then free
    else RoomLeft(free, memory.ram, PRIV_KEY, b.privateKey, b.first)
  }

  /** How the constructor's two writes go, by the room there is and whether their commits work. */
  function BirthOf(P: Primitives, free: int, memory: Memory, privateKey: seq<byte>, networkKey: seq<byte>,
                   garbage: DeviceInclusionState, first: bool, second: bool): Birth {
    var b := Birth(privateKey, networkKey, garbage, OutcomeOf(free, |PRIV_KEY| + KEY_SIZE, first), NoRoom);
    b.(second := OutcomeOf(RoomWithKeys(P, free, memory, b), |NKEY| + KEY_SIZE, second))
  }

  /** The private key needs 40 bytes where there is none, the network key of a hub as many of what is left. */
  lemma BirthIs(P: Primitives, free: int, memory: Memory, privateKey: seq<byte>, networkKey: seq<byte>,
                garbage: DeviceInclusionState, first: bool, second: bool)
    requires |privateKey| == KEY_SIZE
    ensures var b := BirthOf(P, free, memory, privateKey, networkKey, garbage, first, second);
      var made := PRIV_KEY !in memory.ram && PublicKeyOf(P, privateKey).Ok? && free >= 40;
      && b.privateKey == privateKey && b.networkKey == networkKey && b.garbage == garbage
      && b.first == (if free < 40 then NoRoom else if first then Committed else CommitFailed)
      && b.second == (if free - (if made then 40 else 0) < 40 then NoRoom
                      else if second then Committed else CommitFailed)
  {
  }

  /** What the first write leaves does not depend on the second. */
  lemma FirstWriteOnly(P: Primitives, free: int, memory: Memory, b: Birth)
    ensures forall o :: RoomWithKeys(P, free, memory, b.(second := o)) == RoomWithKeys(P, free, memory, b)
    ensures forall o :: KeysReady(P, memory, b.(second := o)) == KeysReady(P, memory, b)
  {
  }

  /** `Device::initialize` after the controller is made: the device keys, and the network key of an included node. */
  function Configured(P: Primitives, n: Node): Node {
    var m := WithDeviceKeys(P, n);
    if m.state == INCLUDED || m.deviceType == HUB then WithStoredNetworkKey(m) else m
  }

  function WithDeviceKeys(P: Primitives, n: Node): Node {
    var publicKey := StoredPublicKey(P, n);
    if publicKey.Err? || |publicKey.value| != KEY_SIZE then n
    else n.(ring := n.ring.(devicePrivateKey := n.memory.ram[PRIV_KEY], devicePublicKey := publicKey.value))
  }

  /** What a start leaves: an idle node, its storage as it was but for the keys that were missing. */
  lemma StartLeaves(P: Primitives, deviceType: MeshDeviceType, memory: Memory, ring: KeyRing, b: Birth)
    ensures var n := Constructed(P, deviceType, memory, ring, b);
      && n.deviceType == deviceType && !n.inclusionModeEnabled && n.protocolState == PROTOCOL_IDLE && n.ring == ring
      && (deviceType == HUB ==> n.state == INCLUDED)
      && (forall key :: key != PRIV_KEY && (key != NKEY || deviceType != HUB || NKEY in memory.ram) ==>
            && (key in n.memory.ram <==> key in memory.ram)
            && (key in memory.ram ==> n.memory.ram[key] == memory.ram[key]))
      && (PRIV_KEY in memory.ram ==> PRIV_KEY in n.memory.ram && n.memory.ram[PRIV_KEY] == memory.ram[PRIV_KEY])
      && (PRIV_KEY !in memory.ram && PublicKeyOf(P, b.privateKey).Ok? && b.first != NoRoom ==>
            PRIV_KEY in n.memory.ram && n.memory.ram[PRIV_KEY] == b.privateKey)
      && (deviceType == HUB && NKEY !in memory.ram && b.second != NoRoom ==>
            NKEY in n.memory.ram && n.memory.ram[NKEY] == b.networkKey)
  {
  }

  /** `initialize` loads a usable key pair, and the network key exactly for a hub or an included device. */
  lemma ConfigureLoads(P: Primitives, n: Node)
    ensures var m, ram := Configured(P, n), n.memory.ram;
      && m == n.(ring := m.ring)
      && m.ring == n.ring.(networkKey := m.ring.networkKey, devicePrivateKey := m.ring.devicePrivateKey,
                           devicePublicKey := m.ring.devicePublicKey)
      && m.ring.networkKey == (if (n.state == INCLUDED || n.deviceType == HUB) && NKEY in ram then ram[NKEY]
                               else n.ring.networkKey)
      && (PRIV_KEY in ram && PublicKeyOf(P, ram[PRIV_KEY]).Ok? && |PublicKeyOf(P, ram[PRIV_KEY]).value| == 32 ==>
            m.ring.devicePrivateKey == ram[PRIV_KEY]
            && m.ring.devicePublicKey == PublicKeyOf(P, ram[PRIV_KEY]).value)
  {
  }

  /** Who may send what: everything for a hub or an included device, else the inclusion topics but INCLUDE_SUCCESS. */
  predicate CanSend(n: Node, topic: byte) {
    || n.deviceType == HUB
    || topic in {INCLUDE_REQUEST, INCLUDE_RESPONSE, INCLUDE_OPEN, INCLUDE_CONFIRM}
    || n.state == INCLUDED
  }

  lemma CanSendIff(n: Node, topic: byte)
    ensures CanSend(n, topic) <==>
            n.deviceType == HUB || n.state == INCLUDED || 0x06 <= topic <= 0x09
  {
  }

  lemma StateKeepsNetworkKey(m: Memory, state: DeviceInclusionState, o: WriteOutcome)
    ensures var ram := Stored(m, STATE_KEY, [state.Code()], o).ram;
      (NKEY in ram <==> NKEY in m.ram) && (NKEY in ram ==> ram[NKEY] == m.ram[NKEY])
  {
  }

  // ----- the code -----

  /** `Device::updateSecurityParams`: the encryption service and the shared AES instance get the key. */
  method UpdateSecurityParams(encryptionService: EncryptionService, key: seq<byte>)
    modifies encryptionService, encryptionService.aesCrypto
    ensures encryptionService.Ring() == old(encryptionService.Ring()).(networkKey := key)
    ensures encryptionService.aesCrypto.key == LoadedKey(old(encryptionService.aesCrypto.key), key)
    ensures |key| == AES_KEY_SIZE ==> encryptionService.aesCrypto.iv == ZeroIv()
  {
    encryptionService.SetNetworkKey(key);
    var rc := encryptionService.aesCrypto.SetParams(key, ZeroIv());
  }

  class InclusionController {
    const P: Primitives
    const deviceType: MeshDeviceType
    const storage: DeviceStorage
    const keyManager: KeyManager
    const encryptionService: EncryptionService
    var state: DeviceInclusionState
    var inclusionModeEnabled: bool
    var protocolState: InclusionProtocolState
    var stateStartTime: nat
    var currentNonce: seq<byte>
    var tempHubPublicKey: seq<byte>

    ghost predicate Valid()
      reads storage.storage, storage.storage.buf, encryptionService
    {
      && storage.Valid() && keyManager.storage == storage && keyManager.P == P
      && encryptionService.Valid() && encryptionService.P == P
    }

    ghost function View(): Node
      reads this, storage.storage, encryptionService
    {
      Node(deviceType, state, inclusionModeEnabled, protocolState, stateStartTime, currentNonce, tempHubPublicKey,
           storage.Mem(), encryptionService.Ring())
    }

    /**
     Existing keys are loaded, missing ones made. The arguments are what the surroundings supply:
     fresh keys, indeterminate memory, and how the EEPROM takes the two possible writes.
     */
    constructor (deviceType: MeshDeviceType, storage: DeviceStorage, encryptionService: EncryptionService,
                 privateKey: seq<byte>, networkKey: seq<byte>, garbage: DeviceInclusionState,
                 first: Eeprom, second: Eeprom)
      requires storage.Valid() && encryptionService.Valid()
      requires |privateKey| == KEY_SIZE && |networkKey| == KEY_SIZE
      modifies storage.storage, storage.storage.buf
      ensures Valid() && this.storage == storage && this.encryptionService == encryptionService
        && this.deviceType == deviceType && P == encryptionService.P
      ensures View() == Constructed(P, deviceType, old(storage.Mem()), encryptionService.Ring(),
                                    BirthOf(P, old(storage.Free()), old(storage.Mem()), privateKey, networkKey, garbage,
                                            first.commitOk, second.commitOk))
    {
      P := encryptionService.P;
      this.deviceType, this.storage, this.encryptionService := deviceType, storage, encryptionService;
      keyManager := new KeyManager(encryptionService.P, storage);
      state, inclusionModeEnabled, protocolState, stateStartTime := garbage, false, PROTOCOL_IDLE, 0;
      currentNonce, tempHubPublicKey := [], [];
      new;
      hide Constructed, BirthOf;
      LoadOrMake(privateKey, networkKey, first, second);
    }

    method LoadOrMake(privateKey: seq<byte>, networkKey: seq<byte>, first: Eeprom, second: Eeprom)
      requires Valid() && |privateKey| == KEY_SIZE && |networkKey| == KEY_SIZE
      requires protocolState == PROTOCOL_IDLE && stateStartTime == 0 && !inclusionModeEnabled
      requires currentNonce == [] && tempHubPublicKey == []
      modifies `state, storage.storage, storage.storage.buf
      ensures Valid()
      ensures View() == Constructed(P, deviceType, old(storage.Mem()), encryptionService.Ring(),
                                    BirthOf(P, old(storage.Free()), old(storage.Mem()), privateKey, networkKey,
                                            old(state), first.commitOk, second.commitOk))
    {
      hide Stored, PublicKeyOf, LoadedState, KeysReady, OutcomeOf, RoomWithKeys, EncryptionService.Valid,
        DeviceStorage.Valid;
      ghost var b := BirthOf(P, storage.Free(), storage.Mem(), privateKey, networkKey, state, first.commitOk,
                             second.commitOk);
      var rc, o1 := InitializeKeys(privateKey, first);
      assert storage.Free() == RoomWithKeys(P, old(storage.Free()), old(storage.Mem()), b) by {
        FirstWriteOnly(P, old(storage.Free()), old(storage.Mem()), b);
      }
      if deviceType == HUB {
        ghost var o2;
        rc, o2 := keyManager.InitializeForHub(networkKey, second);
      }
      if deviceType == HUB {
        state := INCLUDED;
      } else {
        if rc == RM_E_NONE {
          var loadRc, loadedState := storage.LoadState();
          state := if loadRc == RM_E_NONE then loadedState else NOT_INCLUDED;
        }
      }
    }

    method InitializeKeys(privateKey: seq<byte>, eeprom: Eeprom) returns (rc: int, ghost o: WriteOutcome)
      requires Valid() && |privateKey| == KEY_SIZE
      modifies storage.storage, storage.storage.buf
      ensures Valid() && o == OutcomeOf(old(storage.Free()), |PRIV_KEY| + KEY_SIZE, eeprom.commitOk)
      ensures forall b: Birth :: b.privateKey == privateKey && b.first == o ==>
        (storage.Mem(), rc) == KeysReady(P, old(storage.Mem()), b)
        && storage.Free() == RoomWithKeys(P, old(storage.Free()), old(storage.Mem()), b)
    {
      hide Stored, PublicKeyOf;
      o := OutcomeOf(storage.Free(), |PRIV_KEY| + KEY_SIZE, eeprom.commitOk);
      var stored;
      rc, stored := storage.LoadKey(PRIV_KEY);
      if rc == RM_E_STORAGE_KEY_NOT_FOUND {
        var publicKey;
        rc, publicKey := keyManager.DerivePublicKey(privateKey);
        if rc != RM_E_NONE {
          return RM_E_CRYPTO_SETUP, o;
        }
        rc, o := keyManager.Persist(PRIV_KEY, privateKey, eeprom);
      } else {
        var publicKey;
        rc, publicKey := keyManager.DerivePublicKey(stored);
      }
    }

    method GetPublicKey() returns (rc: int, publicKey: seq<byte>)
      requires Valid()
      ensures var r := StoredPublicKey(P, View());
        if r.Ok? then rc == RM_E_NONE && publicKey == r.value else rc == r.rc && rc != RM_E_NONE
    {
      var privateKey;
      rc, privateKey := storage.LoadKey(PRIV_KEY);
      if rc != RM_E_NONE {
        return rc, [];
      }
      rc, publicKey := keyManager.DerivePublicKey(privateKey);
    }

    method CanSendMessage(topic: byte) returns (allowed: bool)
      ensures allowed == CanSend(View(), topic)
    {
      if deviceType == HUB {
        return true;
      }
      if topic == INCLUDE_REQUEST || topic == INCLUDE_RESPONSE || topic == INCLUDE_OPEN || topic == INCLUDE_CONFIRM {
        return true;
      }
      return state == INCLUDED;
    }

    // ----- inclusion mode and timeout -----

    method TransitionToState(newState: InclusionProtocolState, now: nat)
      modifies `protocolState, `stateStartTime
      ensures View() == Transition(old(View()), newState, Millis(now))
    {
      if protocolState != newState {
        protocolState := newState;
        stateStartTime := Millis(now);
      }
    }

    method ResetProtocolState(now: nat, eeprom: Eeprom) returns (ghost o: WriteOutcome)
      requires Valid()
      modifies this, storage.storage, storage.storage.buf
      ensures Valid() && View() == Reset(old(View()), Millis(now), o)
      ensures o == OutcomeOf(old(storage.Free()), |STATE_KEY| + 1, eeprom.commitOk)
      ensures storage.Free() == if old(deviceType == STANDARD && state == INCLUSION_PENDING)
        then RoomLeft(old(storage.Free()), old(storage.Mem()).ram, STATE_KEY, [NOT_INCLUDED.Code()], o)
        else old(storage.Free())
    {
      hide Stored;
      o := OutcomeOf(storage.Free(), |STATE_KEY| + 1, eeprom.commitOk);
      TransitionToState(PROTOCOL_IDLE, now);
      if deviceType == STANDARD && state == INCLUSION_PENDING {
        state := NOT_INCLUDED;
        var rc;
        rc, o := storage.PersistState(state, eeprom);
      }
    }

    method EnterInclusionMode() returns (rc: int)
      modifies `inclusionModeEnabled
      ensures Turn(View(), Return(rc)) == Entered(old(View()))
    {
      if deviceType != HUB {
        return RM_E_INVALID_DEVICE_TYPE;
      }
      inclusionModeEnabled := true;
      return RM_E_NONE;
    }

    method ExitInclusionMode(now: nat, eeprom: Eeprom) returns (rc: int, ghost o: WriteOutcome)
      requires Valid()
      modifies this, storage.storage, storage.storage.buf
      ensures Valid() && Turn(View(), Return(rc)) == Exited(old(View()), Millis(now), o)
      ensures o == OutcomeOf(old(storage.Free()), |STATE_KEY| + 1, eeprom.commitOk)
    {
      hide Reset;
      o := OutcomeOf(storage.Free(), |STATE_KEY| + 1, eeprom.commitOk);
      if deviceType != HUB {
        return RM_E_INVALID_DEVICE_TYPE, o;
      }
      inclusionModeEnabled := false;
      o := ResetProtocolState(now, eeprom);
      rc := RM_E_NONE;
    }

    method CheckProtocolTimeouts(now: nat, eeprom: Eeprom) returns (ghost o: WriteOutcome)
      requires Valid()
      modifies this, storage.storage, storage.storage.buf
      ensures Valid() && View() == Checked(old(View()), Millis(now), o)
      ensures o == OutcomeOf(old(storage.Free()), |STATE_KEY| + 1, eeprom.commitOk)
      ensures storage.Free() == RoomChecked(old(storage.Free()), old(View()), Millis(now), o)
    {
      hide Reset, RoomLeft;
      o := OutcomeOf(storage.Free(), |STATE_KEY| + 1, eeprom.commitOk);
      if protocolState == PROTOCOL_IDLE {
        return;
      }
      var elapsed := Elapsed(Millis(now), stateStartTime);
      if elapsed > BASE_TIMEOUT_MS {
        inclusionModeEnabled := false;
        o := ResetProtocolState(now, eeprom);
      }
    }

    // ----- messages: each method ends with what it hands to `sendData` -----

    method SendOwnPublicKey(topic: byte) returns (action: Action)
      requires Valid()
      ensures Turn(View(), action) == SendPublicKey(P, View(), topic)
    {
      hide StoredPublicKey;
      var rc, publicKey := GetPublicKey();
      if rc != RM_E_NONE {
        return Return(rc);
      }
      return SendData(topic, publicKey);
    }

    method SendInclusionOpen(now: nat) returns (action: Action)
      requires Valid()
      modifies `protocolState, `stateStartTime
      ensures Valid() && Turn(View(), action) == Opened(P, old(View()), Millis(now))
    {
      hide Transition, SendPublicKey;
      if !inclusionModeEnabled {
        return Return(RM_E_INVALID_STATE);
      }
      TransitionToState(WAITING_FOR_REQUEST, now);
      action := SendOwnPublicKey(INCLUDE_OPEN);
    }

    method GenerateNonce(random: seq<byte>) returns (nonce: seq<byte>)
      requires |random| == NONCE_SIZE
      ensures nonce == random
    {
      nonce := [0, 0, 0, 0];
      var i := 0;
      while i < NONCE_SIZE
        invariant 0 <= i <= NONCE_SIZE && |nonce| == NONCE_SIZE
        invariant nonce[..i] == random[..i]
      {
        nonce := nonce[i := random[i]];
        i := i + 1;
      }
    }

    method SendInclusionResponse(payload: seq<byte>, random: seq<byte>) returns (action: Action)
      requires Valid() && |random| == NONCE_SIZE
      modifies `currentNonce, encryptionService
      ensures Valid() && Turn(View(), action) == Responded(old(View()), payload, random)
    {
      var rc, networkKey := storage.LoadKey(NKEY);
      if rc != RM_E_NONE {
        return Return(rc);
      }
      if |payload| != KEY_SIZE {
        return Return(RM_E_INVALID_LENGTH);
      }
      encryptionService.SetTempDevicePublicKey(payload);
      encryptionService.SetNetworkKey(networkKey);
      currentNonce := GenerateNonce(random);
      return SendData(INCLUDE_RESPONSE, networkKey + currentNonce);
    }

    method HandleRequest(payload: seq<byte>, now: nat, random: seq<byte>) returns (action: Action)
      requires Valid() && |random| == NONCE_SIZE
      modifies this, encryptionService
      ensures Valid() && Turn(View(), action) == OnRequest(old(View()), payload, Millis(now), random)
    {
      hide Responded, Transition;
      if inclusionModeEnabled && protocolState == WAITING_FOR_REQUEST {
        TransitionToState(WAITING_FOR_CONFIRMATION, now);
        action := SendInclusionResponse(payload, random);
      } else {
        action := Return(RM_E_INVALID_STATE);
      }
    }

    method HandleConfirm(payload: seq<byte>, now: nat) returns (action: Action)
      requires Valid()
      modifies this
      ensures Valid() && Turn(View(), action) == OnConfirm(old(View()), payload, Millis(now))
    {
      hide Transition;
      if protocolState == WAITING_FOR_CONFIRMATION {
        var originalNonceValue := Utils.BytesToNumber(currentNonce);
        var receivedNonceValue := Utils.BytesToNumber(payload);
        if receivedNonceValue != Utils.Next(originalNonceValue) {
          return Return(RM_E_INVALID_PARAM);
        }
        TransitionToState(PROTOCOL_IDLE, now);
        return SendData(INCLUDE_SUCCESS, []);
      }
      return Return(RM_E_INVALID_STATE);
    }

    method HandleOpen(payload: seq<byte>, now: nat, eeprom: Eeprom) returns (action: Action, ghost o: WriteOutcome)
      requires Valid()
      modifies this, storage.storage, storage.storage.buf, encryptionService
      ensures Valid() && Turn(View(), action) == OnOpen(P, old(View()), payload, Millis(now), o)
      ensures o == OutcomeOf(old(storage.Free()), |STATE_KEY| + 1, eeprom.commitOk)
    {
      hide Transition, SendPublicKey, Stored;
      o := OutcomeOf(storage.Free(), |STATE_KEY| + 1, eeprom.commitOk);
      if state != NOT_INCLUDED || protocolState != PROTOCOL_IDLE {
        return Return(RM_E_NONE), o;
      }
      if |payload| != KEY_SIZE {
        return Return(RM_E_INVALID_LENGTH), o;
      }
      tempHubPublicKey := payload;
      encryptionService.SetHubPublicKey(tempHubPublicKey);
      state := INCLUSION_PENDING;
      var rc;
      rc, o := storage.PersistState(state, eeprom);
      TransitionToState(WAITING_FOR_RESPONSE, now);
      if tempHubPublicKey == [] {
        return Return(RM_E_INVALID_STATE), o;
      }
      action := SendOwnPublicKey(INCLUDE_REQUEST);
    }

    method SendInclusionConfirm() returns (action: Action)
      ensures action == SendData(INCLUDE_CONFIRM, Confirmation(currentNonce))
    {
      var nonceValue := Utils.BytesToNumber(currentNonce);
      nonceValue := Utils.Next(nonceValue);
      var incrementedNonce := Utils.NumberToBytes(nonceValue);
      return SendData(INCLUDE_CONFIRM, incrementedNonce);
    }

    method HandleResponse(payload: seq<byte>, now: nat, eeprom: Eeprom) returns (action: Action, ghost o: WriteOutcome)
      requires Valid()
      modifies this, storage.storage, storage.storage.buf, encryptionService
      ensures Valid() && Turn(View(), action) == OnResponse(old(View()), payload, Millis(now), o)
      ensures o == OutcomeOf(old(storage.Free()), |NKEY| + KEY_SIZE, eeprom.commitOk)
    {
      hide Transition, Stored, Confirmation;
      o := OutcomeOf(storage.Free(), |NKEY| + KEY_SIZE, eeprom.commitOk);
      if state != INCLUSION_PENDING || protocolState != WAITING_FOR_RESPONSE {
        return Return(RM_E_NONE), o;
      }
      if |payload| < KEY_SIZE + NONCE_SIZE {
        return Return(RM_E_INVALID_LENGTH), o;
      }
      var networkKey := payload[..KEY_SIZE];
      currentNonce := payload[KEY_SIZE..KEY_SIZE + NONCE_SIZE];
      var rc;
      rc, o := keyManager.SetNetworkKey(networkKey, eeprom);
      if rc != RM_E_NONE {
        return Return(rc), o;
      }
      encryptionService.SetNetworkKey(networkKey);
      TransitionToState(WAITING_FOR_SUCCESS, now);
      action := SendInclusionConfirm();
    }

    method ApplyStoredNetworkKey() returns (rc: int)
      requires Valid()
      modifies encryptionService, encryptionService.aesCrypto
      ensures Valid() && View() == WithStoredNetworkKey(old(View()))
      ensures rc == if NKEY in old(storage.Mem()).ram then RM_E_NONE else RM_E_STORAGE_KEY_NOT_FOUND
      ensures NKEY in old(storage.Mem()).ram ==>
        encryptionService.aesCrypto.key == old(storage.Mem()).ram[NKEY] && encryptionService.aesCrypto.iv == ZeroIv()
    {
      var networkKey;
      rc, networkKey := storage.LoadKey(NKEY);
      if rc == RM_E_NONE {
        UpdateSecurityParams(encryptionService, networkKey);
      }
    }

    method HandleSuccess(now: nat, eeprom: Eeprom) returns (action: Action, ghost o: WriteOutcome)
      requires Valid()
      modifies this, storage.storage, storage.storage.buf, encryptionService, encryptionService.aesCrypto
      ensures Valid() && Turn(View(), action) == OnSuccess(old(View()), Millis(now), o)
      ensures o == OutcomeOf(old(storage.Free()), |STATE_KEY| + 1, eeprom.commitOk)
      ensures (old(state == INCLUSION_PENDING && protocolState == WAITING_FOR_SUCCESS)
               && NKEY in old(storage.Mem()).ram) ==>
        encryptionService.aesCrypto.key == old(storage.Mem()).ram[NKEY] && encryptionService.aesCrypto.iv == ZeroIv()
    {
      hide Transition, Stored, WithStoredNetworkKey;
      o := OutcomeOf(storage.Free(), |STATE_KEY| + 1, eeprom.commitOk);
      action := Return(RM_E_NONE);
      if state == INCLUSION_PENDING && protocolState == WAITING_FOR_SUCCESS {
        state := INCLUDED;
        var rc;
        StateKeepsNetworkKey(storage.Mem(), state, o);
        rc, o := storage.PersistState(state, eeprom);
        TransitionToState(PROTOCOL_IDLE, now);
        rc := ApplyStoredNetworkKey();
      }
    }

    method HandleInclusionMessage(topic: byte, payload: seq<byte>, now: nat, random: seq<byte>, eeprom: Eeprom)
      returns (action: Action, ghost o: WriteOutcome)
      requires Valid() && |random| == NONCE_SIZE
      modifies this, storage.storage, storage.storage.buf, encryptionService, encryptionService.aesCrypto
      ensures Valid()
      ensures Turn(View(), action) == Handled(P, old(View()), topic, payload, Env(Millis(now), random, o))
      ensures o == OutcomeOf(old(storage.Free()), WriteSize(topic), eeprom.commitOk)
    {
      hide OnRequest, OnConfirm, OnOpen, OnResponse, OnSuccess;
      o := OutcomeOf(storage.Free(), WriteSize(topic), eeprom.commitOk);
      action := Return(RM_E_NONE);
      if deviceType == HUB {
        match topic {
          case INCLUDE_REQUEST => action := HandleRequest(payload, now, random);
          case INCLUDE_CONFIRM => action := HandleConfirm(payload, now);
          case _ =>
        }
      } else {
        match topic {
          case INCLUDE_OPEN => action, o := HandleOpen(payload, now, eeprom);
          case INCLUDE_RESPONSE => action, o := HandleResponse(payload, now, eeprom);
          case INCLUDE_SUCCESS => action, o := HandleSuccess(now, eeprom);
          case _ =>
        }
      }
    }

    method LoadAndApplyNetworkKey() returns (rc: int)
      requires Valid()
      modifies encryptionService, encryptionService.aesCrypto
      ensures Valid()
      ensures View() ==
              if deviceType == HUB || state == INCLUDED then WithStoredNetworkKey(old(View())) else old(View())
      ensures rc == if deviceType != HUB && state != INCLUDED then RM_E_INVALID_STATE
                    else if NKEY in old(storage.Mem()).ram then RM_E_NONE else RM_E_STORAGE_KEY_NOT_FOUND
      ensures (deviceType == HUB || state == INCLUDED) && NKEY in old(storage.Mem()).ram ==>
        encryptionService.aesCrypto.key == old(storage.Mem()).ram[NKEY] && encryptionService.aesCrypto.iv == ZeroIv()
    {
      if deviceType != HUB && state != INCLUDED {
        return RM_E_INVALID_STATE;
      }
      rc := ApplyStoredNetworkKey();
    }

    /** The part of `Device::initialize` that follows the constructor. */
    method Configure()
      requires Valid()
      modifies encryptionService, encryptionService.aesCrypto
      ensures Valid() && View() == Configured(P, old(View()))
    {
      hide WithStoredNetworkKey, WithDeviceKeys, DeviceStorage.Valid;
      ApplyStoredDeviceKeys();
      if state == INCLUDED || deviceType == HUB {
        var rc := LoadAndApplyNetworkKey();
      }
    }

    method ApplyStoredDeviceKeys()
      requires Valid()
      modifies encryptionService
      ensures Valid() && View() == WithDeviceKeys(P, old(View()))
    {
      var rc, privateKey := storage.LoadKey(PRIV_KEY);
      if rc == RM_E_NONE {
        var publicKey;
        rc, publicKey := keyManager.DerivePublicKey(privateKey);
        if rc == RM_E_NONE {
          encryptionService.SetDeviceKeys(privateKey, publicKey);
        }
      }
    }
  }
}
