/** Which key seals which topic: the encryption service, its key ring and its fallbacks to clear text. */
module EncryptionService {
  import opened Bytes
  import opened Definitions
  import opened Packet
  import opened AesCrypto

  /** The keys the service holds; an empty one is not set. */
  datatype KeyRing = KeyRing(
    networkKey: seq<byte>, devicePrivateKey: seq<byte>, devicePublicKey: seq<byte>,
    hubPublicKey: seq<byte>, tempDevicePublicKey: seq<byte>)

  const NO_KEYS := KeyRing([], [], [], [], [])

  datatype Method = NONE | DIRECT_ECC | AES

  function DetermineCryptoMethod(topic: byte, deviceType: MeshDeviceType, state: DeviceInclusionState): Method {
    if topic == INCLUDE_OPEN || topic == INCLUDE_REQUEST then NONE
    else if topic == INCLUDE_RESPONSE then DIRECT_ECC
    else if topic == INCLUDE_CONFIRM || topic == INCLUDE_SUCCESS then AES
    else if state == INCLUDED || deviceType == HUB then AES
    else NONE
  }

  function EncryptionKey(ring: KeyRing, m: Method, topic: byte): seq<byte> {
    match m
    case DIRECT_ECC =>
      if topic == INCLUDE_REQUEST then ring.hubPublicKey
      else if topic == INCLUDE_RESPONSE then ring.tempDevicePublicKey else []
    case AES => ring.networkKey
    case NONE => []
  }

  function DecryptionKey(ring: KeyRing, m: Method, topic: byte, deviceType: MeshDeviceType): seq<byte> {
    match m
    case DIRECT_ECC =>
      if topic == INCLUDE_REQUEST && deviceType == HUB then ring.devicePrivateKey
      else if topic == INCLUDE_RESPONSE && deviceType == STANDARD then ring.devicePrivateKey else []
    case AES => ring.networkKey
    case NONE => []
  }

  /** SHA-256 of the shared secret of `privateKey` and `publicKey`, if both can be used. */
  function AgreedKey(P: Primitives, privateKey: seq<byte>, publicKey: seq<byte>): Option<seq<byte>> {
    if |publicKey| != 32 || |privateKey| != 32 || P.sharedSecret(privateKey, publicKey).None? then None
    else Some(P.sha256(P.sharedSecret(privateKey, publicKey).value))
  }

  /** The sender whose key `decryptDirectECC` takes. */
  function SenderPublicKey(ring: KeyRing): seq<byte> {
    if ring.hubPublicKey != [] then ring.hubPublicKey else ring.tempDevicePublicKey
  }

  /** The key `encrypt` runs AES under, or None where it returns the data as it is. */
  function SealKey(P: Primitives, ring: KeyRing, topic: byte, deviceType: MeshDeviceType, state: DeviceInclusionState)
    : Option<seq<byte>>
  {
    var m := DetermineCryptoMethod(topic, deviceType, state);
    var key := EncryptionKey(ring, m, topic);
    if m == NONE || key == [] then None
    else if m == DIRECT_ECC then AgreedKey(P, ring.devicePrivateKey, key)
    else Some(key)
  }

  /** The key `decrypt` runs AES under, or None where it returns the data as it is. */
  function OpenKey(P: Primitives, ring: KeyRing, topic: byte, deviceType: MeshDeviceType, state: DeviceInclusionState)
    : Option<seq<byte>>
  {
    var m := DetermineCryptoMethod(topic, deviceType, state);
    var key := DecryptionKey(ring, m, topic, deviceType);
    if m == NONE || key == [] then None
    else if m == DIRECT_ECC then AgreedKey(P, key, SenderPublicKey(ring))
    else Some(key)
  }

  /** The AES instance keeps its old key when the new one has the wrong size. */
  function LoadedKey(loaded: seq<byte>, key: seq<byte>): seq<byte> {
    if |key| == AES_KEY_SIZE then key else loaded
  }

  function Crypted(P: Primitives, key: Option<seq<byte>>, loaded: seq<byte>, data: seq<byte>): seq<byte> {
    if key.None? then data else Ctr(P, LoadedKey(loaded, key.value), ZeroIv(), data)
  }

  /**
   Which key a topic is sealed and opened with: none for the two that carry public keys, the hash of a
   shared secret for the response, the network key for the last two and, for hubs and included devices,
   for all others.
   */
  lemma KeysByTopic(P: Primitives, ring: KeyRing, topic: byte, deviceType: MeshDeviceType, state: DeviceInclusionState)
    ensures var seal, open := SealKey(P, ring, topic, deviceType, state), OpenKey(P, ring, topic, deviceType, state);
      var own, temp := ring.devicePrivateKey, ring.tempDevicePublicKey;
      var sender := if ring.hubPublicKey != [] then ring.hubPublicKey else temp;
      && (topic == 0x08 || topic == 0x06 ==> seal == None && open == None)
      && (topic == 0x07 ==>
            && seal == (if |own| == 32 && |temp| == 32 && P.sharedSecret(own, temp).Some?
                        then Some(P.sha256(P.sharedSecret(own, temp).value)) else None)
            && open == (if deviceType == STANDARD && |own| == 32 && |sender| == 32 && P.sharedSecret(own, sender).Some?
                        then Some(P.sha256(P.sharedSecret(own, sender).value)) else None))
      && (topic < 0x06 || topic > 0x08 ==>
            && seal == open
            && seal == (if ring.networkKey != []
                           && (topic == 0x09 || topic == 0x0A || state == INCLUDED || deviceType == HUB)
                        then Some(ring.networkKey) else None))
  {
  }

  /** Every key that is set has the 32 bytes it should have. */
  predicate Keys32(ring: KeyRing) {
    && |ring.networkKey| in {0, 32} && |ring.devicePrivateKey| in {0, 32}
    && |ring.hubPublicKey| in {0, 32} && |ring.tempDevicePublicKey| in {0, 32}
  }

  class EncryptionService {
    const P: Primitives
    const aesCrypto: AesCrypto
    var networkKey: seq<byte>
    var devicePrivateKey: seq<byte>
    var devicePublicKey: seq<byte>
    var hubPublicKey: seq<byte>
    var tempDevicePublicKey: seq<byte>

    function Ring(): KeyRing
      reads this
    {
      KeyRing(networkKey, devicePrivateKey, devicePublicKey, hubPublicKey, tempDevicePublicKey)
    }

    ghost predicate Valid()
      reads this
    {
      aesCrypto.P == P && Sound(P)
    }

    /** Running AES under `key` is defined: the key can be loaded or one was loaded before. */
    ghost predicate Usable(key: Option<seq<byte>>)
      reads this, aesCrypto
    {
      key.Some? ==> |key.value| == AES_KEY_SIZE || (|aesCrypto.key| == AES_KEY_SIZE && aesCrypto.iv == ZeroIv())
    }

    constructor (P: Primitives, aes: AesCrypto)
      requires aes.P == P && Sound(P)
      ensures Valid() && Ring() == NO_KEYS && aesCrypto == aes && this.P == P
    {
      this.P, aesCrypto := P, aes;
      networkKey, devicePrivateKey, devicePublicKey, hubPublicKey, tempDevicePublicKey := [], [], [], [], [];
    }

    method SetNetworkKey(key: seq<byte>)
      modifies this
      ensures Ring() == old(Ring()).(networkKey := key)
    {
      networkKey := key;
    }

    method SetDeviceKeys(privateKey: seq<byte>, publicKey: seq<byte>)
      modifies this
      ensures Ring() == if |privateKey| == 32 && |publicKey| == 32
                        then old(Ring()).(devicePrivateKey := privateKey, devicePublicKey := publicKey) else old(Ring())
    {
      if |privateKey| != 32 {
        return;
      }
      if |publicKey| != 32 {
        return;
      }
      devicePrivateKey := privateKey;
      devicePublicKey := publicKey;
    }

    method SetHubPublicKey(key: seq<byte>)
      modifies this
      ensures Ring() == if |key| == 32 then old(Ring()).(hubPublicKey := key) else old(Ring())
    {
      if |key| != 32 {
        return;
      }
      hubPublicKey := key;
    }

    method SetTempDevicePublicKey(key: seq<byte>)
      modifies this
      ensures Ring() == if |key| == 32 then old(Ring()).(tempDevicePublicKey := key) else old(Ring())
    {
      if |key| != 32 {
        return;
      }
      tempDevicePublicKey := key;
    }

    /** `encryptAES` and `decryptAES`: load the key, run CTR from a zero IV. */
    method CryptAES(data: seq<byte>, key: seq<byte>) returns (result: seq<byte>)
      requires Valid() && Usable(Some(key))
      modifies aesCrypto
      ensures result == Crypted(P, Some(key), old(aesCrypto.key), data)
      ensures aesCrypto.key == LoadedKey(old(aesCrypto.key), key)
      ensures |aesCrypto.key| == AES_KEY_SIZE && aesCrypto.iv == ZeroIv()
    {
      var rc := aesCrypto.SetParams(key, ZeroIv());
      result := aesCrypto.Crypt(data);
    }

    method EncryptDirectECC(data: seq<byte>, publicKey: seq<byte>) returns (result: seq<byte>)
      requires Valid()
      modifies aesCrypto
      ensures result == Crypted(P, AgreedKey(P, devicePrivateKey, publicKey), old(aesCrypto.key), data)
      ensures result ==
              if |publicKey| == 32 && |devicePrivateKey| == 32 && P.sharedSecret(devicePrivateKey, publicKey).Some?
              then Ctr(P, P.sha256(P.sharedSecret(devicePrivateKey, publicKey).value), ZeroIv(), data) else data
    {
      if |publicKey| != 32 {
        return data;
      }
      if |devicePrivateKey| != 32 {
        return data;
      }
      var sharedSecret := P.sharedSecret(devicePrivateKey, publicKey);
      if sharedSecret.None? {
        return data;
      }
      var encryptedData := CryptAES(data, P.sha256(sharedSecret.value));
      if encryptedData == [] {
        return data;
      }
      return encryptedData;
    }

    method DecryptDirectECC(data: seq<byte>, privateKey: seq<byte>) returns (result: seq<byte>)
      requires Valid()
      modifies aesCrypto
      ensures result == Crypted(P, AgreedKey(P, privateKey, SenderPublicKey(Ring())), old(aesCrypto.key), data)
      ensures var sender := if hubPublicKey != [] then hubPublicKey else tempDevicePublicKey;
        result == if |sender| == 32 && |privateKey| == 32 && P.sharedSecret(privateKey, sender).Some?
                  then Ctr(P, P.sha256(P.sharedSecret(privateKey, sender).value), ZeroIv(), data) else data
    {
      if data == [] {
        return data;
      }
      if |privateKey| != 32 {
        return data;
      }
      var senderPublicKey: seq<byte>;
      if hubPublicKey != [] {
        senderPublicKey := hubPublicKey;
      } else if tempDevicePublicKey != [] {
        senderPublicKey := tempDevicePublicKey;
      } else {
        return data;
      }
      if |senderPublicKey| != 32 {
        return data;
      }
      var sharedSecret := P.sharedSecret(privateKey, senderPublicKey);
      if sharedSecret.None? {
        return data;
      }
      result := CryptAES(data, P.sha256(sharedSecret.value));
    }

    method Encrypt(data: seq<byte>, topic: byte, deviceType: MeshDeviceType, state: DeviceInclusionState)
      returns (result: seq<byte>)
      requires Valid() && Usable(SealKey(P, Ring(), topic, deviceType, state))
      modifies aesCrypto
      ensures result == Crypted(P, SealKey(P, Ring(), topic, deviceType, state), old(aesCrypto.key), data)
    {
      var m := DetermineCryptoMethod(topic, deviceType, state);
      if m == NONE {
        return data;
      }
      var key := EncryptionKey(Ring(), m, topic);
      if key == [] {
        return data;
      }
      if m == DIRECT_ECC {
        result := EncryptDirectECC(data, key);
      } else {
        result := CryptAES(data, key);
      }
    }

    method Decrypt(data: seq<byte>, topic: byte, deviceType: MeshDeviceType, state: DeviceInclusionState)
      returns (result: seq<byte>)
      requires Valid() && Usable(OpenKey(P, Ring(), topic, deviceType, state))
      modifies aesCrypto
      ensures result == Crypted(P, OpenKey(P, Ring(), topic, deviceType, state), old(aesCrypto.key), data)
    {
      if data == [] {
        return data;
      }
      var m := DetermineCryptoMethod(topic, deviceType, state);
      if m == NONE {
        return data;
      }
      var key := DecryptionKey(Ring(), m, topic, deviceType);
      if key == [] {
        return data;
      }
      if m == DIRECT_ECC {
        result := DecryptDirectECC(data, key);
      } else {
        result := CryptAES(data, key);
      }
    }
  }

  /** What was sealed opens again: for topics under the network key, with the same key at both ends. */
  lemma NetworkKeyOpens(P: Primitives, a: KeyRing, b: KeyRing, topic: byte,
                        ta: MeshDeviceType, sa: DeviceInclusionState, tb: MeshDeviceType, sb: DeviceInclusionState,
                        loadedA: seq<byte>, loadedB: seq<byte>, data: seq<byte>)
    requires DetermineCryptoMethod(topic, ta, sa) == AES && DetermineCryptoMethod(topic, tb, sb) == AES
    requires a.networkKey == b.networkKey && |a.networkKey| == 32
    ensures var c := Crypted(P, SealKey(P, a, topic, ta, sa), loadedA, data);
      |c| == |data| && Crypted(P, OpenKey(P, b, topic, tb, sb), loadedB, c) == data
  {
    CtrUndoesItself(P, a.networkKey, ZeroIv(), data);
  }

  /** The hub's response opens at the device whose public key the hub took, and only key material agrees. */
  lemma ResponseOpens(P: Primitives, hub: KeyRing, dev: KeyRing, hubState: DeviceInclusionState,
                      devState: DeviceInclusionState, loadedA: seq<byte>, loadedB: seq<byte>, data: seq<byte>)
    requires Sound(P) && |hub.devicePrivateKey| == 32 && |dev.devicePrivateKey| == 32
    requires P.publicKey(hub.devicePrivateKey) == Some(dev.hubPublicKey)
    requires P.publicKey(dev.devicePrivateKey) == Some(hub.tempDevicePublicKey)
    ensures var seal := SealKey(P, hub, INCLUDE_RESPONSE, HUB, hubState);
      && seal == OpenKey(P, dev, INCLUDE_RESPONSE, STANDARD, devState)
      && Crypted(P, seal, loadedB, Crypted(P, seal, loadedA, data)) == data
  {
    var seal := SealKey(P, hub, INCLUDE_RESPONSE, HUB, hubState);
    if seal.Some? {
      CtrUndoesItself(P, seal.value, ZeroIv(), data);
    }
  }
}
