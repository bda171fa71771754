/** The steps of the inclusion system are what the device does with the packets it receives. */
module InclusionOnAir {
  import opened Bytes
  import opened Errors
  import opened Definitions
  import opened Packet
  import opened AesCrypto
  import opened EncryptionService
  import opened MicService
  import opened InclusionController
  import opened PacketRouter
  import D = Device
  import System = InclusionSystem
  import Crc32
  import Tracker = PacketTracker

  /**
   A device that has not met the packet hands its controller exactly the payload `Heard` gives, and
   rejects it where it has no MIC key. What is left to the idealised MIC is that another key's
   MIC does not happen to fit.
   */
  lemma ReceivingIsHearing(P: Primitives, st: D.Station, q: Packet, w: System.Wire, env: Env, air: D.Air)
    requires Keys32(st.node.ring) && Sound(P)
    requires q.topic in {INCLUDE_OPEN, INCLUDE_REQUEST, INCLUDE_RESPONSE, INCLUDE_CONFIRM, INCLUDE_SUCCESS}
      && System.Carries(P, q, w) && !Seen(st.link.recency, q)
    ensures var payload := System.Heard(P, st.node, w);
      payload.Some? ==>
        D.Received(P, st, q, env, air).0.node == Handled(P, st.node, w.topic, payload.value, env).node
    ensures RequiresMic(q.topic) && MicKey(P, st.node.ring, q.topic, st.node.deviceType, st.node.state) == [] ==>
      D.Judged(P, D.Who(st), st.link.recency, q) == D.Forged
  {
    var s := D.Who(st);
    D.Keys32IsReady(P, s, q.topic);
    assert D.IsInclusionMessage(q.topic);
    hide Seen, MicKey, OpenKey, HeaderBytes, ExtractMic, HasMic, Crc32.PacketCrc, Handled, Keys32,
      D.IsInclusionMessage, D.IsApplicationMessage;
    if System.Heard(P, st.node, w).Some? {
      assert D.MicHolds(P, s, q);
      assert D.Stripped(q) == q.(packetData := w.payload) by { StrippedIsPayload(q); }
      assert D.Judged(P, s, st.link.recency, q) == D.Genuine(q.(packetData := w.payload));
      ActingKeepsNode(P, st, q, w.payload, env, air);
    }
  }

  lemma StrippedIsPayload(q: Packet)
    ensures D.Stripped(q) == q.(packetData := DataWithoutMic(q))
  {
  }

  lemma ActingKeepsNode(P: Primitives, st: D.Station, q: Packet, payload: seq<byte>, env: Env, air: D.Air)
    requires D.IsInclusionMessage(q.topic)
    requires D.Judged(P, D.Who(st), st.link.recency, q) == D.Genuine(q.(packetData := payload))
    ensures D.Received(P, st, q, env, air).0.node ==
            Handled(P, st.node, q.topic,
                    Crypted(P, OpenKey(P, st.node.ring, q.topic, st.node.deviceType, st.node.state), [], payload),
                      env).node
  {
    hide D.Judged, Crypted, OpenKey, Handled, Routed, CanSend, D.Originated, Tracker.FindIn, D.IsInclusionMessage;
  }

  /**
   The last act of a handler puts on air exactly what `OnWire` says: no packet where there is no
   message, and otherwise one packet that carries it.
   */
  lemma ActingIsOnWire(P: Primitives, st: D.Station, t: Turn, origin: System.Origin, air: D.Air) returns (q: Packet)
    requires Sound(P) && Keys32(t.node.ring) && air.radioRc == RM_E_NONE
    requires t.action.SendData? && t.action.topic == INCLUDE_RESPONSE ==> t.node.deviceType == HUB
    ensures var after, wires := D.Acted(P, st, t, air).0.link.air, System.OnWire(P, t.node, origin, t.action);
      && after == (if wires == {} then st.link.air else st.link.air + [ToBytes(q)])
      && forall w :: w in wires ==> System.Carries(P, q, w)
  {
    hide D.Acted, D.RoutedAt, D.Originated, System.OnWire, System.Carries, CanSend, Transmission, Keys32, ToBytes;
    q := EMPTY;
    ActedIsRouted(P, st, t, air);
    var a := t.action;
    if a.Return? || !CanSend(t.node, a.topic) || |a.payload| > MAX_DATA_LENGTH {
      NothingOnWire(P, t.node, origin, a);
    } else {
      var p := D.Originated(st.id, t.node.deviceType, BROADCAST_ADDR, air.packetId, a.topic, st.counter + 1, a.payload);
      var next := st.(node := t.node, counter := st.counter + 1, outgoing := p);
      OriginatedFields(P, st, t, air);
      System.WireIsTransmission(P, t.node, origin, D.Who(next), air.route, p);
      RoutedOnAir(P, next, p, air);
      if Transmission(P, D.Who(next), air.route, p).OnAir? {
        q := Transmission(P, D.Who(next), air.route, p).packet;
      }
    }
  }

  lemma ActedIsRouted(P: Primitives, st: D.Station, t: Turn, air: D.Air)
    ensures var a, after := t.action, D.Acted(P, st, t, air).0.link;
      if a.Return? || !CanSend(t.node, a.topic) || |a.payload| > MAX_DATA_LENGTH then after == st.link
      else
        var p := D.Originated(st.id, t.node.deviceType, BROADCAST_ADDR, air.packetId, a.topic, st.counter + 1,
          a.payload);
        after == D.RoutedAt(P, st.(node := t.node, counter := st.counter + 1, outgoing := p), p, air).0.link
  {
    hide D.RoutedAt, D.Originated, CanSend;
  }

  lemma NothingOnWire(P: Primitives, n: Node, origin: System.Origin, a: Action)
    requires a.Return? || !CanSend(n, a.topic) || |a.payload| > MAX_DATA_LENGTH
    ensures System.OnWire(P, n, origin, a) == {}
  {
  }

  lemma OriginatedFields(P: Primitives, st: D.Station, t: Turn, air: D.Air)
    requires t.action.SendData?
    ensures var p := D.Originated(st.id, t.node.deviceType, BROADCAST_ADDR, air.packetId, t.action.topic,
      st.counter + 1, t.action.payload);
      p.topic == t.action.topic && p.packetData == t.action.payload && p.hopCount == 0
  {
  }

  lemma RoutedOnAir(P: Primitives, st: D.Station, p: Packet, air: D.Air)
    requires air.radioRc == RM_E_NONE
    ensures var out := Transmission(P, D.Who(st), air.route, p);
      D.RoutedAt(P, st, p, air).0.link.air == if out.OnAir? then st.link.air + [ToBytes(out.packet)] else st.link.air
  {
    hide Transmission, ToBytes, Tracker.AddTo;
  }
}
