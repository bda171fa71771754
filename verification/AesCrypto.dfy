/** The cipher libraries as parameters, and the chunked CTR loops over them. */
module AesCrypto {
  import opened Bytes
  import opened Errors
  import AesCmac

  const AES_KEY_SIZE := 32
  const AES_IV_SIZE := 16
  const AES_BLOCK_SIZE := 16

  /** The libraries the code calls: nothing is assumed of them but what `Sound` says. */
  datatype Primitives = Primitives(
    blockCipher: AesCmac.Cipher,                                   // AES-128 and AES-256 on one block
    keystream: (seq<byte>, seq<byte>, nat) -> byte,                // AES-256-CTR: key, IV, position
    publicKey: seq<byte> -> Option<seq<byte>>,                     // Curve25519::eval(private, base point)
    sharedSecret: (seq<byte>, seq<byte>) -> Option<seq<byte>>,     // Curve25519::eval(private, public)
    sha256: seq<byte> -> seq<byte>)

  /** Key sizes of the libraries, and the two ends of a key agreement getting the same secret. */
  ghost predicate Sound(P: Primitives) {
    && (forall a :: |P.sha256(a)| == 32)
    && (forall a {:trigger P.publicKey(a)} :: P.publicKey(a).Some? ==> |P.publicKey(a).value| == 32)
    && (forall a, b {:trigger P.publicKey(a), P.publicKey(b)} :: P.publicKey(a).Some? && P.publicKey(b).Some? ==>
          P.sharedSecret(a, P.publicKey(b).value) == P.sharedSecret(b, P.publicKey(a).value))
  }

  // ----- CTR -----

  function XorByte(a: byte, b: byte): byte {
    a ^ b
  }

  lemma XorUndoesItself(a: byte, k: byte)
    ensures XorByte(XorByte(a, k), k) == a
  {
  }

  /** CTR mode: the data masked with the keystream. Encryption and decryption are the same. */
  function Ctr(P: Primitives, key: seq<byte>, iv: seq<byte>, data: seq<byte>): (r: seq<byte>)
    ensures |r| == |data|
    ensures forall i :: 0 <= i < |data| ==> r[i] == XorByte(data[i], P.keystream(key, iv, i))
  {
    seq(|data|, i requires 0 <= i < |data| => XorByte(data[i], P.keystream(key, iv, i)))
  }

  /** Each byte is masked with the byte of the keystream at its position, under an IV of sixteen zeros in this code. */
  lemma CtrMasks(P: Primitives, key: seq<byte>, iv: seq<byte>, data: seq<byte>, i: nat)
    requires i < |data|
    ensures Ctr(P, key, iv, data)[i] == data[i] ^ P.keystream(key, iv, i)
    ensures ZeroIv() == [0, 0, 0, 0, 0, 0, 0, 0, 0, 0, 0, 0, 0, 0, 0, 0]
  {
  }

  lemma CtrUndoesItself(P: Primitives, key: seq<byte>, iv: seq<byte>, data: seq<byte>)
    ensures Ctr(P, key, iv, Ctr(P, key, iv, data)) == data
  {
    var c := Ctr(P, key, iv, data);
    forall i | 0 <= i < |data| ensures Ctr(P, key, iv, c)[i] == data[i] {
      XorUndoesItself(data[i], P.keystream(key, iv, i));
    }
  }

  /** The library's CTR object: it carries its keystream position from call to call. */
  class CtrCipher {
    const P: Primitives
    const key: seq<byte>
    const iv: seq<byte>
    var position: nat

    constructor (P: Primitives, key: seq<byte>, iv: seq<byte>)
      ensures this.P == P && this.key == key && this.iv == iv && position == 0
    {
      this.P, this.key, this.iv, position := P, key, iv, 0;
    }

    method Encrypt(input: seq<byte>) returns (output: seq<byte>)
      modifies this
      ensures position == old(position) + |input| && |output| == |input|
      ensures forall i :: 0 <= i < |input| ==> output[i] == XorByte(input[i], P.keystream(key, iv, old(position) + i))
    {
      ghost var start := position;
      output := [];
      var i := 0;
      while i < |input|
        invariant 0 <= i <= |input| && position == start + i && |output| == i
        invariant forall k :: 0 <= k < i ==> output[k] == XorByte(input[k], P.keystream(key, iv, start + k))
      {
        output := output + [XorByte(input[i], P.keystream(key, iv, position))];
        position := position + 1;
        i := i + 1;
      }
    }
  }

  function ZeroIv(): seq<byte> {
    Zeros(AES_IV_SIZE)
  }

  class AesCrypto {
    const P: Primitives
    var key: seq<byte>
    var iv: seq<byte>

    constructor (P: Primitives)
      ensures this.P == P && key == [] && iv == []
    {
      this.P, key, iv := P, [], [];
    }

    /** Parameters of the wrong size leave the old ones in place. */
    method SetParams(newKey: seq<byte>, newIv: seq<byte>) returns (rc: int)
      modifies this
      ensures rc == if |newKey| == AES_KEY_SIZE && |newIv| == AES_IV_SIZE then RM_E_NONE else RM_E_INVALID_PARAM
      ensures if rc == RM_E_NONE then key == newKey && iv == newIv else key == old(key) && iv == old(iv)
    {
      if |newKey| != AES_KEY_SIZE {
        return RM_E_INVALID_PARAM;
      }
      if |newIv| != AES_IV_SIZE {
        return RM_E_INVALID_PARAM;
      }
      key, iv := newKey, newIv;
      return RM_E_NONE;
    }

    /** `encrypt` and `decrypt` are this same loop. */
    method Crypt(data: seq<byte>) returns (result: seq<byte>)
      requires |key| == AES_KEY_SIZE && |iv| == AES_IV_SIZE
      ensures result == Ctr(P, key, iv, data)
    {
      var ctr := new CtrCipher(P, key, iv);
      result := [];
      var posn := 0;
      while posn < |data|
        invariant 0 <= posn && |result| == ctr.position == (if posn < |data| then posn else |data|)
        invariant fresh(ctr)
        invariant forall k :: 0 <= k < |result| ==> result[k] == XorByte(data[k], P.keystream(key, iv, k))
      {
        var len := |data| - posn;
        if len > AES_BLOCK_SIZE {
          len := AES_BLOCK_SIZE;
        }
        var chunk := ctr.Encrypt(data[posn..posn + len]);
        result := result + chunk;
        posn := posn + AES_BLOCK_SIZE;
      }
    }
  }
}
