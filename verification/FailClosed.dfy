/**
 What a router transmits of the packet it is handed: the payload encrypted and authenticated under one
 key, or nothing. Whether that is ciphertext depends on what it was handed; see Sealing.
 */
module FailClosed {
  import opened Bytes
  import opened Errors
  import opened Definitions
  import opened Packet
  import opened AesCrypto
  import opened EncryptionService
  import opened MicService
  import opened PacketRouter
  import AesCmac
  import Crc32

  /** The topics whose payload and MIC share one key: all with a MIC, responses when the hub sends them. */
  predicate Guarded(s: Sender, topic: byte) {
    RequiresMic(topic) && (topic == INCLUDE_RESPONSE ==> s.deviceType == HUB)
  }

  function KeyFor(P: Primitives, s: Sender, topic: byte): Option<seq<byte>> {
    SealKey(P, s.ring, topic, s.deviceType, s.state)
  }

  /** The packet as it is before its MIC: one more hop, its payload through `encrypt`, its CRC over the result. */
  function Frame(P: Primitives, s: Sender, route: Option<Id>, p: Packet): Packet {
    Summed(Sealed(P, s.ring, s.loadedKey, s.deviceType, s.state, Forwarded(p, s.id, route)))
  }

  lemma FrameIsSealed(P: Primitives, s: Sender, route: Option<Id>, p: Packet)
    requires Sound(P) && Keys32(s.ring) && (p.topic == INCLUDE_RESPONSE ==> s.deviceType == HUB)
    ensures var r := Frame(P, s, route, p);
      && r.packetData == Crypted(P, KeyFor(P, s, p.topic), [], p.packetData) && |r.packetData| == |p.packetData|
      && r == Forwarded(p, s.id, route).(packetData := r.packetData, packetCrc := r.packetCrc)
  {
    hide Forwarded, Sealed, Crypted, SealKey;
    ForwardedKeeps(p, s.id, route);
    SealedPayload(P, s, Forwarded(p, s.id, route));
  }

  lemma SealedPayload(P: Primitives, s: Sender, f: Packet)
    requires Sound(P) && Keys32(s.ring) && (f.topic == INCLUDE_RESPONSE ==> s.deviceType == HUB)
    ensures var q := Sealed(P, s.ring, s.loadedKey, s.deviceType, s.state, f);
      && q == f.(packetData := q.packetData) && |q.packetData| == |f.packetData|
      && q.packetData == Crypted(P, KeyFor(P, s, f.topic), [], f.packetData)
  {
    if Guarded(s, f.topic) {
      OneKeySealsAndAuthenticates(P, s.ring, f.topic, s.deviceType, s.state);
      hide SealKey, MicKey;
    }
  }

  lemma FrameCrc(P: Primitives, s: Sender, route: Option<Id>, p: Packet)
    ensures var r := Frame(P, s, route, p); r.packetCrc == Crc32.PacketCrc(p.fcounter, r.packetData)
  {
    hide Crc32.PacketCrc, Crypted, SealKey;
  }

  lemma ForwardedKeeps(p: Packet, us: Id, route: Option<Id>)
    ensures var q := Forwarded(p, us, route);
      q == p.(lastHopId := us, hopCount := p.hopCount + 1, reserved := [0, 0, 0], nextHopId := q.nextHopId)
  {
  }

  /** The MIC is over the header and payload that are sent, under the key of the topic. */
  lemma MicCovers(P: Primitives, s: Sender, r: Packet)
    requires Sound(P) && Keys32(s.ring) && Guarded(s, r.topic) && |r.packetData| <= MAX_DATA_LENGTH
    ensures var out := Authenticated(P, s.ring, s.deviceType, s.state, r);
      var key := KeyFor(P, s, r.topic);
      && (out.OnAir? <==> key.Some?) && (out.Refused? ==> out.rc == RM_E_AUTH_FAILED)
      && (out.OnAir? ==>
            && HasMic(out.packet) && DataWithoutMic(out.packet) == r.packetData
            && out.packet == r.(packetData := out.packet.packetData)
            && ExtractMic(out.packet) == AesCmac.Mic(P.blockCipher, key.value, HeaderBytes(out.packet) + r.packetData))
  {
    OneKeySealsAndAuthenticates(P, s.ring, r.topic, s.deviceType, s.state);
    hide SealKey, MicKey, HeaderBytes, AesCmac.Mic, ExtractMic, DataWithoutMic, HasMic;
    var mic := PacketMic(P, s.ring, HeaderBytes(r), r.packetData, r.topic, s.deviceType, s.state);
    if mic != [] {
      MicComesOff(r, mic);
    }
  }

  /**
   Fail-closed sending. With keys of 32 bytes, a packet of a guarded topic goes out if and only if
   there is a key for it, and then with the payload it had encrypted once more and a MIC over exactly
   the header and payload on air; without one it is refused.
   */
  lemma SendingFailsClosed(P: Primitives, s: Sender, route: Option<Id>, p: Packet)
    requires Sound(P) && Keys32(s.ring) && Guarded(s, p.topic) && |p.packetData| <= MAX_DATA_LENGTH
    ensures var out := Transmission(P, s, route, p);
      var key := KeyFor(P, s, p.topic);
      && (out.OnAir? <==> p.hopCount < MAX_HOPS && key.Some?)
      && (out.Refused? ==> out.rc == if p.hopCount < MAX_HOPS then RM_E_AUTH_FAILED else RM_E_MAX_HOPS)
      && (out.OnAir? ==>
            var sealed := Ctr(P, key.value, ZeroIv(), p.packetData);
            && |key.value| == 32 && HasMic(out.packet) && DataWithoutMic(out.packet) == sealed
            && ExtractMic(out.packet) == AesCmac.Mic(P.blockCipher, key.value, HeaderBytes(out.packet) + sealed)
            && out.packet == Frame(P, s, route, p).(packetData := out.packet.packetData))
  {
    FrameIsSealed(P, s, route, p);
    ForwardedKeeps(p, s.id, route);
    var r := Frame(P, s, route, p);
    assert p.hopCount < MAX_HOPS ==> Transmission(P, s, route, p) == Authenticated(P, s.ring, s.deviceType, s.state, r);
    OneKeySealsAndAuthenticates(P, s.ring, p.topic, s.deviceType, s.state);
    hide Frame, Forwarded, Authenticated, SealKey, MicKey, HeaderBytes, AesCmac.Mic, ExtractMic, DataWithoutMic,
      HasMic, Ctr;
    MicCovers(P, s, r);
  }

  /** So without a key nothing is sent and nothing tracked, whatever the payload. */
  lemma NoKeyNoTrace(P: Primitives, s: Sender, route: Option<Id>, p: Packet, radioRc: int, l: Link)
    requires Sound(P) && Keys32(s.ring) && Guarded(s, p.topic) && KeyFor(P, s, p.topic).None?
    ensures Routed(P, s, route, p, radioRc, l).0 == l && Routed(P, s, route, p, radioRc, l).1 != RM_E_NONE
  {
    FrameIsSealed(P, s, route, p);
    ForwardedKeeps(p, s.id, route);
    OneKeySealsAndAuthenticates(P, s.ring, p.topic, s.deviceType, s.state);
    hide Forwarded, Sealed, Summed, SealKey, MicKey, HeaderBytes;
  }

  /** Beyond 217 bytes `appendMIC` drops the MIC without an error: the packet goes out encrypted but unauthenticated. */
  lemma OversizeLosesItsMic(P: Primitives, s: Sender, route: Option<Id>, p: Packet)
    requires Sound(P) && Keys32(s.ring) && Guarded(s, p.topic) && |p.packetData| > MAX_DATA_LENGTH
    requires p.hopCount < MAX_HOPS && KeyFor(P, s, p.topic).Some?
    ensures Transmission(P, s, route, p) == OnAir(Frame(P, s, route, p))
    ensures Frame(P, s, route, p).packetData == Ctr(P, KeyFor(P, s, p.topic).value, ZeroIv(), p.packetData)
  {
    FrameIsSealed(P, s, route, p);
    ForwardedKeeps(p, s.id, route);
    OneKeySealsAndAuthenticates(P, s.ring, p.topic, s.deviceType, s.state);
    var r := Frame(P, s, route, p);
    assert Transmission(P, s, route, p) == Authenticated(P, s.ring, s.deviceType, s.state, r);
    hide Frame, Forwarded, SealKey, MicKey, HeaderBytes, Ctr;
  }
}
