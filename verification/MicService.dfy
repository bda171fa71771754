/** Which key authenticates which topic, and why sending fails closed. */
module MicService {
  import opened Bytes
  import opened Definitions
  import opened Packet
  import opened AesCrypto
  import opened EncryptionService
  import AesCmac

  /** The ECIES MAC key, or nothing. */
  function EciesMacKey(P: Primitives, ring: KeyRing, topic: byte, deviceType: MeshDeviceType): seq<byte> {
    if topic != INCLUDE_REQUEST && topic != INCLUDE_RESPONSE then []
    else
      var publicKey := if topic == INCLUDE_RESPONSE
        && deviceType == HUB then ring.tempDevicePublicKey else ring.hubPublicKey;
      var key := AgreedKey(P, ring.devicePrivateKey, publicKey);
      if key.None? then [] else key.value
  }

  function MicKey(P: Primitives, ring: KeyRing, topic: byte, deviceType: MeshDeviceType,
      state: DeviceInclusionState): seq<byte> {
    if !RequiresMic(topic) then []
    else if topic == INCLUDE_RESPONSE then EciesMacKey(P, ring, topic, deviceType)
    else if topic == INCLUDE_CONFIRM || topic == INCLUDE_SUCCESS then ring.networkKey
    else if state == INCLUDED || deviceType == HUB then ring.networkKey
    else []
  }

  /** Which key authenticates which topic. */
  lemma MicKeysByTopic(P: Primitives, ring: KeyRing, topic: byte, deviceType: MeshDeviceType,
                       state: DeviceInclusionState)
    ensures var key, own := MicKey(P, ring, topic, deviceType, state), ring.devicePrivateKey;
      var peer := if deviceType == HUB then ring.tempDevicePublicKey else ring.hubPublicKey;
      && (topic == 0x08 || topic == 0x06 ==> key == [])
      && (topic == 0x07 ==>
            key == if |own| == 32 && |peer| == 32 && P.sharedSecret(own, peer).Some?
                   then P.sha256(P.sharedSecret(own, peer).value) else [])
      && (topic < 0x06 || topic > 0x08 ==>
            key == if topic == 0x09 || topic == 0x0A || state == INCLUDED || deviceType == HUB then ring.networkKey
                   else [])
  {
  }

  /** The MIC of a packet; without a key, or under a key CMAC does not support, there is none. */
  function PacketMic(P: Primitives, ring: KeyRing, header: seq<byte>, payload: seq<byte>, topic: byte,
                     deviceType: MeshDeviceType, state: DeviceInclusionState): (mic: seq<byte>)
    ensures |mic| in {0, MIC_SIZE}
  {
    AesCmac.Mic(P.blockCipher, MicKey(P, ring, topic, deviceType, state), header + payload)
  }

  predicate Verified(P: Primitives, ring: KeyRing, header: seq<byte>, payload: seq<byte>, receivedMic: seq<byte>,
                     topic: byte, deviceType: MeshDeviceType, state: DeviceInclusionState) {
    RequiresMic(topic) ==>
      |receivedMic| == MIC_SIZE && receivedMic == PacketMic(P, ring, header, payload, topic, deviceType, state)
  }

  class MicService {
    const encryptionService: EncryptionService

    constructor (encryptionService: EncryptionService)
      ensures this.encryptionService == encryptionService
    {
      this.encryptionService := encryptionService;
    }

    method ComputePacketMIC(header: seq<byte>, encryptedPayload: seq<byte>, topic: byte,
                            deviceType: MeshDeviceType, state: DeviceInclusionState) returns (mic: seq<byte>)
      requires |MicKey(encryptionService.P, encryptionService.Ring(), topic, deviceType, state)| != 24
      ensures mic == PacketMic(encryptionService.P, encryptionService.Ring(), header, encryptedPayload, topic,
        deviceType, state)
    {
      if !RequiresMic(topic) {
        return [];
      }
      var micKey := MicKey(encryptionService.P, encryptionService.Ring(), topic, deviceType, state);
      if micKey == [] {
        return [];
      }
      mic := AesCmac.ComputeMIC(encryptionService.P.blockCipher, micKey, header + encryptedPayload);
      if |mic| != 4 {
        return [];
      }
    }

    method VerifyPacketMIC(header: seq<byte>, encryptedPayload: seq<byte>, receivedMic: seq<byte>, topic: byte,
                           deviceType: MeshDeviceType, state: DeviceInclusionState) returns (valid: bool)
      requires |MicKey(encryptionService.P, encryptionService.Ring(), topic, deviceType, state)| != 24
      ensures valid == Verified(encryptionService.P, encryptionService.Ring(), header, encryptedPayload, receivedMic,
                                topic, deviceType, state)
    {
      if !RequiresMic(topic) {
        return true;
      }
      if |receivedMic| != 4 {
        return false;
      }
      var micKey := MicKey(encryptionService.P, encryptionService.Ring(), topic, deviceType, state);
      if micKey == [] {
        return false;
      }
      valid := AesCmac.VerifyMIC(encryptionService.P.blockCipher, micKey, header + encryptedPayload, receivedMic);
    }
  }

  /**
   With keys of 32 bytes, for hub responses and for every topic under the network key, payload and
   MIC share one key: where `encrypt` falls back to clear text there is no MIC key either.
   */
  lemma OneKeySealsAndAuthenticates(P: Primitives, ring: KeyRing, topic: byte, deviceType: MeshDeviceType,
                                    state: DeviceInclusionState)
    requires Sound(P) && Keys32(ring) && RequiresMic(topic) && (topic == INCLUDE_RESPONSE ==> deviceType == HUB)
    ensures var seal := SealKey(P, ring, topic, deviceType, state);
      MicKey(P, ring, topic, deviceType, state) == (if seal.None? then [] else seal.value)
      && (seal.Some? ==> |seal.value| == 32)
  {
  }

  /** So a packet gets a MIC exactly when its payload was put through AES, not left as it was for want of a key. */
  lemma MicIffEncrypted(P: Primitives, ring: KeyRing, header: seq<byte>, payload: seq<byte>, topic: byte,
                        deviceType: MeshDeviceType, state: DeviceInclusionState)
    requires Sound(P) && Keys32(ring) && RequiresMic(topic) && (topic == INCLUDE_RESPONSE ==> deviceType == HUB)
    ensures PacketMic(P, ring, header, payload, topic, deviceType, state) != [] <==>
            SealKey(P, ring, topic, deviceType, state).Some?
  {
    OneKeySealsAndAuthenticates(P, ring, topic, deviceType, state);
  }
}
