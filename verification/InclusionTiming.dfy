/** How a joining device's two state machines stay together, how long it can stay pending, and how it can get stuck. */
module InclusionTiming {
  import opened Bytes
  import opened Clock
  import opened Definitions
  import opened AesCrypto
  import opened DeviceStorage
  import opened EepromLog
  import opened InclusionController
  import opened InclusionSystem
  import opened InclusionSafety
  import opened EncryptionService

  // ----- coupling -----

  /** A device is pending exactly while it waits for the hub. */
  predicate Coupled(n: Node) {
    n.state == INCLUSION_PENDING <==> n.protocolState in {WAITING_FOR_RESPONSE, WAITING_FOR_SUCCESS}
  }

  predicate DeviceProtocol(n: Node) {
    n.deviceType == STANDARD && n.protocolState in {PROTOCOL_IDLE, WAITING_FOR_RESPONSE, WAITING_FOR_SUCCESS}
  }

  /** Pending with an idle protocol: nothing the device hears, and no timeout, applies to it. */
  predicate Hung(n: Node) {
    n.state == INCLUSION_PENDING && n.protocolState == PROTOCOL_IDLE
  }

  /** And with a flash that will bring it up like this again. */
  predicate Stuck(P: Primitives, n: Node) {
    Hung(n) && LoadedState(n.memory.flash) == INCLUSION_PENDING && UsablePair(P, n.memory.flash)
  }

  /** What a device can be: coupled, or hung. */
  predicate DeviceFits(n: Node) {
    DeviceProtocol(n) && (Coupled(n) || Hung(n))
  }

  /** A hub that waits for a message is in inclusion mode. */
  predicate HubCoupled(n: Node) {
    n.deviceType == HUB && (n.protocolState != PROTOCOL_IDLE ==> n.inclusionModeEnabled)
  }

  lemma DeviceTurnKeepsCoupling(P: Primitives, n: Node, topic: byte, payload: seq<byte>, env: Env)
    requires DeviceFits(n)
    ensures var m := Handled(P, n, topic, payload, env).node;
      DeviceFits(m) && (Coupled(m) <==> Coupled(n)) && (Hung(n) ==> m == n)
  {
  }

  lemma TimeoutKeepsCoupling(n: Node, clock: nat, o: WriteOutcome)
    requires DeviceFits(n)
    ensures var m := Checked(n, clock, o); DeviceFits(m) && (Coupled(m) <==> Coupled(n)) && (Hung(n) ==> m == n)
  {
  }

  /** A new controller starts idle, so it is coupled exactly if it does not come up pending. */
  lemma StartCouplesUnlessPending(P: Primitives, memory: Memory, ring: KeyRing, b: Birth)
    ensures var n := Constructed(P, STANDARD, memory, ring, b);
      && DeviceFits(n) && DeviceFits(Configured(P, n))
      && n.protocolState == Configured(P, n).protocolState == PROTOCOL_IDLE
      && Configured(P, n).state == n.state
      && (Coupled(n) <==> n.state != INCLUSION_PENDING) && (Coupled(Configured(P, n)) <==> n.state != INCLUSION_PENDING)
  {
  }

  /** And with its key pair in flash it comes up in the state stored there: pending means stuck. */
  lemma BootSticksIffPending(P: Primitives, flash: Store, b: Birth)
    requires UsablePair(P, flash)
    ensures var n := Booted(P, STANDARD, flash, b);
      && DeviceFits(n) && (Coupled(n) <==> LoadedState(flash) != INCLUSION_PENDING)
      && (Stuck(P, n) <==> LoadedState(flash) == INCLUSION_PENDING)
  {
    PairMeansReady(P, flash, b);
    StartCouplesUnlessPending(P, Memory(flash, flash), NO_KEYS, b);
    hide UsablePair, Constructed, Configured;
  }

  /** A change of state whose write is committed is in flash, under the state's own code. */
  lemma CommittedStateIsStored(P: Primitives, n: Node, topic: byte, payload: seq<byte>, env: Env)
    requires DeviceFits(n) && env.outcome == Committed
    ensures var m := Handled(P, n, topic, payload, env).node;
      m.state != n.state ==> LoadedState(m.memory.ram) == m.state && LoadedState(m.memory.flash) == m.state
    ensures var m := Checked(n, env.clock, env.outcome);
      m.state != n.state ==> LoadedState(m.memory.ram) == m.state && LoadedState(m.memory.flash) == m.state
  {
  }

  // ----- over runs -----

  /** The step gives device `i` a new controller: a boot, or a reset that commits. */
  predicate Starts(step: Step, i: nat) {
    (step.DeviceBoots? && step.i == i) || (step.DeviceResets? && step.i == i && step.commitOk)
  }

  /** The state in which device `i` last started in the run, if it did. */
  function LastStart(P: Primitives, s: System, steps: seq<Step>, i: nat): Option<DeviceInclusionState>
    requires Legal(P, s, steps)
    decreases |steps|
  {
    if steps == [] then None
    else
      var later := LastStart(P, Next(P, s, steps[0]), steps[1..], i);
      if later.Some? then later
      else if Starts(steps[0], i) then Some(Next(P, s, steps[0]).devices[i].node.state) else None
  }

  /** One step at device `i`: a start couples it or not, every other step leaves it coupled or hung as it was. */
  lemma StepKeepsCoupling(P: Primitives, s: System, step: Step, i: nat)
    requires i < |s.devices| && Enabled(P, s, step) && DeviceFits(s.devices[i].node)
    ensures i < |Next(P, s, step).devices|
    ensures var n, m := s.devices[i].node, Next(P, s, step).devices[i].node;
      && DeviceFits(m)
      && (if Starts(step, i) then Coupled(m) <==> m.state != INCLUSION_PENDING else Coupled(m) <==> Coupled(n))
      && (!Starts(step, i) && Hung(n) ==> Hung(m) && m.memory.flash == n.memory.flash)
  {
    hide Handled, Heard, Constructed, Configured, Checked, OnWire, Coupled, Hung, DeviceFits, Ready, LostHearing;
    match step
    case DeviceHears(j, w, o) =>
      var n := s.devices[j].node;
      if j == i && Heard(P, n, w).Some? {
        DeviceTurnKeepsCoupling(P, n, w.topic, Heard(P, n, w).value, Env(Millis(s.now), [], o));
      }
    case DeviceRuns(j, o) =>
      if j == i {
        TimeoutKeepsCoupling(s.devices[i].node, Millis(s.now), o);
      }
    case DeviceBoots(j, b) =>
      if j == i {
        var flash := s.devices[i].node.memory.flash;
        StartCouplesUnlessPending(P, Memory(flash, flash), NO_KEYS, b);
      }
    case DeviceResets(j, commitOk, b) =>
      if j == i {
        ResetCouples(P, s.devices[i].node, commitOk, b);
      }
    case _ =>
  }

  lemma ResetCouples(P: Primitives, n: Node, commitOk: bool, b: Birth)
    requires DeviceFits(n)
    ensures var m := FactoryReset(P, n, commitOk, b);
      && DeviceFits(m)
      && (if commitOk then m.protocolState == PROTOCOL_IDLE && (Coupled(m) <==> m.state != INCLUSION_PENDING)
          else m.state == n.state && m.protocolState == n.protocolState && (Coupled(m) <==> Coupled(n))
               && (Hung(n) ==> Hung(m) && m.memory.flash == n.memory.flash))
  {
    if commitOk {
      StartCouplesUnlessPending(P, Memory(map[], map[]), n.ring, b);
      hide Constructed;
    }
  }

  /**
   In every run a device is pending exactly while it waits for the hub, if and only if it did not come
   up pending when it last booted or was reset; otherwise it is pending with nothing to wait for.
   */
  lemma {:induction false} CoupledIffLastStartWas(P: Primitives, s: System, steps: seq<Step>, i: nat)
    requires i < |s.devices| && Legal(P, s, steps) && DeviceFits(s.devices[i].node)
    ensures i < |Run(P, s, steps).devices| && DeviceFits(Run(P, s, steps).devices[i].node)
    ensures Coupled(Run(P, s, steps).devices[i].node) <==>
              match LastStart(P, s, steps, i)
              case Some(state) => state != INCLUSION_PENDING
              case None => Coupled(s.devices[i].node)
    decreases |steps|
  {
    hide Next, Enabled, Coupled, DeviceFits, Hung, Starts;
    if steps != [] {
      StepKeepsCoupling(P, s, steps[0], i);
      CoupledIffLastStartWas(P, Next(P, s, steps[0]), steps[1..], i);
    }
  }

  /** The states devices start runs in fit. */
  lemma FreshFits(P: Primitives, m: Member, networkKey: seq<byte>, now: nat)
    requires FreshMember(P, m, networkKey, now)
    ensures DeviceFits(m.node) && m.node.protocolState == PROTOCOL_IDLE
    ensures Coupled(m.node) <==> m.node.state != INCLUSION_PENDING
  {
    var flash, b :| m.node == Booted(P, STANDARD, flash, b) && m.garbled == !Ready(P, flash, b)
      && (LoadedState(flash) == INCLUDED ==> Holds(flash, networkKey));
    StartCouplesUnlessPending(P, Memory(flash, flash), NO_KEYS, b);
  }

  /** No reset of device `i` in the run commits. */
  predicate NeverReset(steps: seq<Step>, i: nat) {
    forall k :: 0 <= k < |steps| && steps[k].DeviceResets? && steps[k].i == i ==> !steps[k].commitOk
  }

  lemma StuckStaysStuck(P: Primitives, s: System, step: Step, i: nat)
    requires i < |s.devices| && Enabled(P, s, step) && DeviceFits(s.devices[i].node) && Stuck(P, s.devices[i].node)
    requires step.DeviceResets? && step.i == i ==> !step.commitOk
    ensures i < |Next(P, s, step).devices|
    ensures DeviceFits(Next(P, s, step).devices[i].node) && Stuck(P, Next(P, s, step).devices[i].node)
  {
    hide Next, Enabled, DeviceFits, Hung, UsablePair, LoadedState, Coupled;
    StepKeepsCoupling(P, s, step, i);
    if Starts(step, i) {
      BootSticksIffPending(P, s.devices[i].node.memory.flash, step.b);
      BootOfDevice(P, s, step, i);
    }
  }

  lemma BootOfDevice(P: Primitives, s: System, step: Step, i: nat)
    requires Enabled(P, s, step) && step.DeviceBoots? && step.i == i
    ensures Next(P, s, step).devices[i].node == Booted(P, STANDARD, s.devices[i].node.memory.flash, step.b)
  {
    hide Booted, Ready;
  }

  /** A device that booted while pending stays so in every run, through every further boot, until a reset commits. */
  lemma {:induction false} StuckForever(P: Primitives, s: System, steps: seq<Step>, i: nat)
    requires i < |s.devices| && Legal(P, s, steps) && NeverReset(steps, i)
    requires DeviceFits(s.devices[i].node) && Stuck(P, s.devices[i].node)
    ensures i < |Run(P, s, steps).devices| && Stuck(P, Run(P, s, steps).devices[i].node)
    decreases |steps|
  {
    hide Next, Enabled, Stuck, DeviceFits;
    if steps != [] {
      StuckStaysStuck(P, s, steps[0], i);
      assert forall k :: 0 <= k < |steps[1..]| ==> steps[1..][k] == steps[k + 1];
      StuckForever(P, Next(P, s, steps[0]), steps[1..], i);
    }
  }

  lemma HubStepKeepsCoupling(P: Primitives, s: System, step: Step)
    requires Enabled(P, s, step) && HubCoupled(s.hub)
    ensures HubCoupled(Next(P, s, step).hub)
  {
    hide OnWire, Heard;
  }

  lemma {:induction false} HubStaysCoupled(P: Primitives, s: System, steps: seq<Step>)
    requires Legal(P, s, steps) && HubCoupled(s.hub)
    ensures HubCoupled(Run(P, s, steps).hub)
    decreases |steps|
  {
    hide Next, Enabled, HubCoupled;
    if steps != [] {
      HubStepKeepsCoupling(P, s, steps[0]);
      HubStaysCoupled(P, Next(P, s, steps[0]), steps[1..]);
    }
  }

  /** In every run the hub waits for a message in inclusion mode only. */
  lemma HubIsCoupled(P: Primitives, s: System, steps: seq<Step>, networkKey: seq<byte>)
    requires Initial(P, s, networkKey) && Legal(P, s, steps)
    ensures HubCoupled(Run(P, s, steps).hub)
  {
    var flash, b :| s.hub == Booted(P, HUB, flash, b);
    HubStaysCoupled(P, s, steps);
  }

  // ----- how long -----

  /** Device `i` never starts pending. */
  predicate Clean(P: Primitives, s: System, steps: seq<Step>, i: nat)
    requires Legal(P, s, steps)
    decreases |steps|
  {
    steps == [] ||
    (&& i < |Next(P, s, steps[0]).devices|
     && (Starts(steps[0], i) ==> Next(P, s, steps[0]).devices[i].node.state != INCLUSION_PENDING)
     && Clean(P, Next(P, s, steps[0]), steps[1..], i))
  }

  /** Time passes only so far that device `i` runs at least every `period` milliseconds. */
  predicate Prompt(P: Primitives, s: System, steps: seq<Step>, i: nat, period: nat)
    requires Legal(P, s, steps)
    decreases |steps|
  {
    steps == [] ||
    (&& i < |s.devices|
     && (steps[0].Ticks? ==> s.now + steps[0].ms <= s.devices[i].lastRun + period)
     && Prompt(P, Next(P, s, steps[0]), steps[1..], i, period))
  }

  /** A waiting device entered its state at most a timeout and a period ago, and the one before no longer earlier. */
  predicate Timely(m: Member, now: nat, period: nat) {
    && DeviceFits(m.node) && Coupled(m.node)
    && m.lastRun <= now <= m.lastRun + period && m.since <= now
    && (m.node.protocolState != PROTOCOL_IDLE ==>
          m.node.stateStartTime == Millis(m.since) && m.lastRun <= m.since + BASE_TIMEOUT_MS)
    && (m.node.protocolState == WAITING_FOR_RESPONSE ==> m.pendingSince == m.since)
    && (m.node.protocolState == WAITING_FOR_SUCCESS ==>
      m.pendingSince <= m.since <= m.pendingSince + BASE_TIMEOUT_MS + period)
  }

  lemma DeviceTurnIsTimely(P: Primitives, m: Member, topic: byte, payload: seq<byte>, env: Env, now: nat, period: nat)
    requires Timely(m, now, period) && env.clock == Millis(now)
    ensures Timely(Moved(m, Handled(P, m.node, topic, payload, env).node, now), now, period)
  {
    DeviceTurnKeepsCoupling(P, m.node, topic, payload, env);
    hide SendPublicKey, Stored, Confirmation, WithStoredNetworkKey, Millis, PublicKeyOf, StoredPublicKey;
  }

  /** The wrapping clock shows the real time in the state, so a run past the timeout ends it. */
  lemma RunIsTimely(m: Member, o: WriteOutcome, now: nat, period: nat)
    requires Timely(m, now, period) && period + BASE_TIMEOUT_MS < CLOCK
    ensures Timely(Moved(m, Checked(m.node, Millis(now), o), now).(lastRun := now), now, period)
  {
    TimeoutKeepsCoupling(m.node, Millis(now), o);
    if m.node.protocolState != PROTOCOL_IDLE {
      ElapsedIsReal(m.since, now);
    }
  }

  lemma StepIsTimely(P: Primitives, s: System, step: Step, i: nat, period: nat)
    requires i < |s.devices| && Enabled(P, s, step) && Timely(s.devices[i], s.now, period)
      && period + BASE_TIMEOUT_MS < CLOCK
    requires step.Ticks? ==> s.now + step.ms <= s.devices[i].lastRun + period
    requires Starts(step, i) && i < |Next(P, s, step).devices| ==>
               Next(P, s, step).devices[i].node.state != INCLUSION_PENDING
    ensures i < |Next(P, s, step).devices| && Timely(Next(P, s, step).devices[i], Next(P, s, step).now, period)
  {
    hide Handled, Heard, Constructed, Configured, Checked, OnWire, Ready, LostHearing, FactoryReset;
    match step
    case DeviceHears(j, w, o) =>
      var n := s.devices[j].node;
      if j == i && Heard(P, n, w).Some? {
        DeviceTurnIsTimely(P, s.devices[i], w.topic, Heard(P, n, w).value, Env(Millis(s.now), [], o), s.now, period);
      }
    case DeviceRuns(j, o) =>
      if j == i {
        RunIsTimely(s.devices[i], o, s.now, period);
      }
    case DeviceBoots(j, b) =>
      if j == i {
        var flash := s.devices[i].node.memory.flash;
        StartCouplesUnlessPending(P, Memory(flash, flash), NO_KEYS, b);
      }
    case DeviceResets(j, commitOk, b) =>
      if j == i {
        ResetCouples(P, s.devices[i].node, commitOk, b);
        ResetIsTimely(P, s.devices[i], commitOk, b, s.now, period);
      }
    case _ =>
  }

  lemma ResetIsTimely(P: Primitives, m: Member, commitOk: bool, b: Birth, now: nat, period: nat)
    requires Timely(m, now, period)
    requires commitOk ==> FactoryReset(P, m.node, commitOk, b).state != INCLUSION_PENDING
    ensures Timely(DeviceReset(P, m, commitOk, b, now), now, period)
  {
    ResetCouples(P, m.node, commitOk, b);
    hide Constructed, Ready;
  }

  lemma {:induction false} RunStaysTimely(P: Primitives, s: System, steps: seq<Step>, i: nat, period: nat)
    requires i < |s.devices| && Legal(P, s, steps) && Clean(P, s, steps, i) && Prompt(P, s, steps, i, period)
    requires Timely(s.devices[i], s.now, period) && period + BASE_TIMEOUT_MS < CLOCK
    ensures i < |Run(P, s, steps).devices| && Timely(Run(P, s, steps).devices[i], Run(P, s, steps).now, period)
    decreases |steps|
  {
    hide Next, Enabled, Timely;
    if steps != [] {
      StepIsTimely(P, s, steps[0], i, period);
      RunStaysTimely(P, Next(P, s, steps[0]), steps[1..], i, period);
    }
  }

  /**
   If run() is called at least every `period` ms, with period + 60000 below 2^32, a device that never
   starts pending is never pending longer than 2 * (60000 + period) ms, clock wrap or not.
   */
  lemma PendingIsBounded(P: Primitives, s: System, steps: seq<Step>, networkKey: seq<byte>, i: nat, period: nat)
    requires Initial(P, s, networkKey) && i < |s.devices| && s.devices[i].node.state != INCLUSION_PENDING
    requires Legal(P, s, steps) && Clean(P, s, steps, i) && Prompt(P, s, steps, i, period)
    requires period + 60000 < 0x1_0000_0000
    ensures i < |Run(P, s, steps).devices|
    ensures var r := Run(P, s, steps);
      r.devices[i].node.state == INCLUSION_PENDING ==>
        r.now - r.devices[i].pendingSince <= 2 * (60000 + period)
  {
    FreshIsTimely(P, s.devices[i], networkKey, s.now, period);
    RunStaysTimely(P, s, steps, i, period);
  }

  lemma FreshIsTimely(P: Primitives, m: Member, networkKey: seq<byte>, now: nat, period: nat)
    requires FreshMember(P, m, networkKey, now) && m.node.state != INCLUSION_PENDING
    ensures Timely(m, now, period)
  {
    FreshFits(P, m, networkKey, now);
    hide Booted, Ready;
  }
}
