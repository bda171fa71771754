/**
 AES-CMAC over an uninterpreted block cipher: the code's loops, the MAC of RFC 4493 section 2.4
 (for 32-byte keys the same construction is section 6 of NIST SP 800-38B), and what ties them.
 */
module AesCmac {
  import opened Bytes

  const BLOCK_SIZE := 16
  const MIC_SIZE := 4

  type Block = b: seq<byte> | |b| == 16 witness [0, 0, 0, 0, 0, 0, 0, 0, 0, 0, 0, 0, 0, 0, 0, 0]

  /** The block cipher: a key and a block give a block. */
  type Cipher = (seq<byte>, Block) -> Block

  // ----- the specification -----

  /** The coefficient of x^i when a block is read as a polynomial over GF(2), most significant bit first. */
  function Coefficient(b: Block, i: nat): bool
    requires i < 128
  {
    Bit(b[15 - i / 8], i % 8)
  }

  predicate Bit(b: byte, j: nat)
    requires j < 8
  {
    b & Mask(j) != 0
  }

  function Mask(j: nat): byte
    requires j < 8
  {
    if j == 0 then 0x01 else if j == 1 then 0x02 else if j == 2 then 0x04 else if j == 3 then 0x08
    else if j == 4 then 0x10 else if j == 5 then 0x20 else if j == 6 then 0x40 else 0x80
  }

  /** The terms of x^128 + x^7 + x^2 + x + 1 below x^128. */
  predicate InPolynomial(i: nat) {
    i == 0 || i == 1 || i == 2 || i == 7
  }

  /** Multiplication by x modulo x^128 + x^7 + x^2 + x + 1. */
  ghost predicate IsDouble(b: Block, d: Block) {
    forall i {:trigger Coefficient(d, i)} :: 0 <= i < 128 ==>
      Coefficient(d, i) == ((i > 0 && Coefficient(b, i - 1)) != (Coefficient(b, 127) && InPolynomial(i)))
  }

  function XorByte(a: byte, b: byte): byte {
    a ^ b
  }

  function Xor(a: seq<byte>, b: seq<byte>): (r: seq<byte>)
    requires |a| == |b|
    ensures |r| == |a|
  {
    seq(|a|, i requires 0 <= i < |a| => XorByte(a[i], b[i]))
  }

  /** A byte shifted left by one bit, with the top bit of the next byte moving in. */
  function ShiftedByte(b: byte, next: byte): byte {
    (b << 1) | (if next & 0x80 != 0 then 1 else 0)
  }

  /** A block shifted left by one bit. */
  function Shifted(b: Block): Block {
    seq(16, i requires 0 <= i < 16 => ShiftedByte(b[i], if i < 15 then b[i + 1] else 0))
  }

  function Double(b: Block): Block {
    var s := Shifted(b);
    if Bit(b[0], 7) then s[15 := XorByte(s[15], 0x87)] else s
  }

  function K1(E: Cipher, key: seq<byte>): Block {
    Double(E(key, Zeros(16)))
  }

  function K2(E: Cipher, key: seq<byte>): Block {
    Double(K1(E, key))
  }

  function Padded(m: seq<byte>): Block
    requires |m| < 16
  {
    m + [0x80] + Zeros(15 - |m|)
  }

  /** The last block of RFC 4493: M_n xor K1 if it is complete, padding(M_n) xor K2 if not. */
  function LastBlock(E: Cipher, key: seq<byte>, m: seq<byte>): Block
    requires |m| <= 16
  {
    if |m| == 16 then Xor(m, K1(E, key)) else Xor(Padded(m), K2(E, key))
  }

  /** The chaining of RFC 4493 from the value `x` on over the rest `m` of the message. */
  function Chain(E: Cipher, key: seq<byte>, x: Block, m: seq<byte>): Block
    decreases |m|
  {
    if |m| <= 16 then E(key, Xor(x, LastBlock(E, key, m)))
    else Chain(E, key, E(key, Xor(x, m[..16])), m[16..])
  }

  /** AES-CMAC(K, M) as RFC 4493 section 2.4 defines it, for every message. */
  function Rfc4493(E: Cipher, key: seq<byte>, m: seq<byte>): Block {
    Chain(E, key, Zeros(16), m)
  }

  // ----- the code -----

  predicate SupportedKey(key: seq<byte>) {
    |key| == 16 || |key| == 32
  }

  method XorVectors(a: seq<byte>, b: seq<byte>) returns (result: seq<byte>)
    ensures result == if |a| == |b| then Xor(a, b) else []
  {
    if |a| != |b| {
      return [];
    }
    result := [];
    var i := 0;
    while i < |a|
      invariant 0 <= i <= |a| && result == Xor(a, b)[..i]
    {
      result := result + [XorByte(a[i], b[i])];
      i := i + 1;
    }
  }

  method LeftShift(input: Block) returns (result: Block)
    ensures result == Shifted(input)
  {
    var r: seq<byte> := [];
    var i := 0;
    while i < |input|
      invariant 0 <= i <= 16 && r == Shifted(input)[..i]
    {
      var v := input[i] << 1;
      if i + 1 < |input| && input[i + 1] & 0x80 != 0 {
        v := v | 1;
      }
      assert v == ShiftedByte(input[i], if i < 15 then input[i + 1] else 0);
      assert Shifted(input)[..i + 1] == Shifted(input)[..i] + [Shifted(input)[i]];
      r := r + [v];
      i := i + 1;
    }
    result := r;
  }

  method PadData(data: seq<byte>) returns (padded: Block)
    requires |data| < BLOCK_SIZE
    ensures padded == Padded(data)
  {
    var p := data + [0x80];
    while |p| < BLOCK_SIZE
      invariant |data| + 1 <= |p| <= 16 && p == data + [0x80] + Zeros(|p| - |data| - 1)
    {
      p := p + [0];
    }
    padded := p;
  }

  lemma TopBit(b: byte)
    ensures Bit(b, 7) <==> b & 0x80 != 0
  {
  }

  /** The shift and conditional reduction that `generateSubkeys` does twice. */
  method DoubleBlock(block: Block) returns (k: Block)
    ensures k == Double(block)
  {
    hide Shifted, XorByte, Bit;
    TopBit(block[0]);
    k := LeftShift(block);
    if block[0] & 0x80 != 0 {
      k := k[BLOCK_SIZE - 1 := XorByte(k[BLOCK_SIZE - 1], 0x87)];
    }
  }

  method GenerateSubkeys(E: Cipher, key: seq<byte>) returns (k1: Block, k2: Block)
    requires SupportedKey(key)
    ensures k1 == K1(E, key) && k2 == K2(E, key)
  {
    hide Double;
    var L := E(key, Zeros(16));
    k1 := DoubleBlock(L);
    k2 := DoubleBlock(k1);
  }

  /** The message in blocks of 16, the last one possibly shorter. */
  function Blocks(m: seq<byte>): (bs: seq<seq<byte>>)
    decreases |m|
  {
    if |m| == 0 then [] else if |m| <= 16 then [m] else [m[..16]] + Blocks(m[16..])
  }

  method SplitBlocks(data: seq<byte>) returns (blocks: seq<seq<byte>>)
    ensures blocks == Blocks(data)
  {
    blocks := [];
    var i := 0;
    assert data[0..] == data;
    while i < |data|
      invariant 0 <= i
      invariant blocks + Blocks(if i <= |data| then data[i..] else []) == Blocks(data)
      decreases |data| - i
    {
      var remaining := |data| - i;
      var blockSize := if remaining < BLOCK_SIZE then remaining else BLOCK_SIZE;
      blocks := blocks + [data[i..i + blockSize]];
      if remaining > BLOCK_SIZE {
        assert data[i..][..16] == data[i..i + 16] && data[i..][16..] == data[i + 16..];
      } else {
        assert data[i..i + blockSize] == data[i..];
      }
      i := i + BLOCK_SIZE;
    }
  }

  lemma NoBlocks()
    ensures Blocks([]) == []
  {
  }

  lemma BlocksSplit(m: seq<byte>)
    requires m != []
    ensures Blocks(m) == if |m| <= 16 then [m] else [m[..16]] + Blocks(m[16..])
  {
  }

  lemma SliceOfTail(m: seq<byte>, at: nat, i: nat, j: nat)
    requires at <= |m| && i <= j <= |m| - at
    ensures m[at..][i..j] == m[at + i..at + j]
  {
  }

  lemma {:induction false} BlockAt(m: seq<byte>, i: nat)
    requires i < |Blocks(m)|
    ensures 16 * i < |m| && (i + 1 < |Blocks(m)| <==> 16 * (i + 1) < |m|)
    ensures Blocks(m)[i] == if 16 * (i + 1) < |m| then m[16 * i..16 * (i + 1)] else m[16 * i..]
    decreases i
  {
    hide Blocks;
    NoBlocks();
    BlocksSplit(m);
    var rest := if |m| <= 16 then [] else m[16..];
    if i == 0 {
      if rest != [] {
        BlocksSplit(rest);
      }
    } else {
      BlockAt(rest, i - 1);
      var from, to := 16 * (i - 1), 16 * i;
      assert from + 16 == to && to + 16 == 16 * (i + 1);
      SliceOfTail(m, 16, from, if to < |rest| then to else |rest|);
    }
  }

  lemma ChainOneBlock(E: Cipher, key: seq<byte>, y: Block, data: seq<byte>, i: nat)
    requires i + 1 < |Blocks(data)|
    ensures var block := Blocks(data)[i];
      && |block| == 16 && 16 * (i + 1) < |data|
      && Chain(E, key, y, data[16 * i..]) == Chain(E, key, E(key, Xor(y, block)), data[16 * (i + 1)..])
  {
    BlockAt(data, i);
    hide Blocks;
    assert data[16 * i..][..16] == data[16 * i..16 * (i + 1)];
    assert data[16 * i..][16..] == data[16 * (i + 1)..];
  }

  lemma ChainLastBlock(E: Cipher, key: seq<byte>, y: Block, data: seq<byte>)
    requires data != []
    ensures var n := |Blocks(data)|;
      && n > 0 && 16 * (n - 1) < |data|
      && var last := Blocks(data)[n - 1];
      && |last| <= 16
      && Chain(E, key, y, data[16 * (n - 1)..]) == E(key, Xor(y, LastBlock(E, key, last)))
  {
    BlockAt(data, |Blocks(data)| - 1);
  }

  /** What the code computes: the RFC's MAC, except that an empty message is masked with K1. */
  function Computed(E: Cipher, key: seq<byte>, m: seq<byte>): Block {
    if m == [] then E(key, Xor(Zeros(16), Xor(Padded([]), K1(E, key)))) else Rfc4493(E, key, m)
  }

  /** The chaining loop over all blocks but the last. */
  method ChainAllButLast(E: Cipher, key: seq<byte>, ghost data: seq<byte>, blocks: seq<seq<byte>>) returns (y: Block)
    requires blocks == if data == [] then [Padded([])] else Blocks(data)
    ensures blocks != []
    ensures data == [] ==> y == Zeros(16)
    ensures var last := blocks[|blocks| - 1];
      data != [] ==> |last| <= 16 && Rfc4493(E, key, data) == E(key, Xor(y, LastBlock(E, key, last)))
  {
    y := Zeros(BLOCK_SIZE);
    if data != [] {
      BlockAt(data, 0);
      assert data[16 * 0..] == data;
    }
    hide Chain, Blocks;
    var i := 0;
    while i < |blocks| - 1
      invariant 0 <= i <= |blocks| - 1
      invariant data == [] ==> y == Zeros(16)
      invariant data != [] ==> 16 * i < |data| && Chain(E, key, y, data[16 * i..]) == Rfc4493(E, key, data)
    {
      ChainOneBlock(E, key, y, data, i);
      var x := XorVectors(y, blocks[i]);
      y := E(key, x);
      i := i + 1;
    }
    if data != [] {
      ChainLastBlock(E, key, y, data);
    }
  }

  method ComputeCMAC(E: Cipher, key: seq<byte>, data: seq<byte>) returns (mac: seq<byte>)
    requires |key| != 24
    ensures mac == if SupportedKey(key) then Computed(E, key, data) else []
    ensures SupportedKey(key) && data != [] ==> mac == Rfc4493(E, key, data)
  {
    if |key| != 16 && |key| != 24 && |key| != 32 {
      return [];
    }
    var k1, k2 := GenerateSubkeys(E, key);
    var blocks := SplitBlocks(data);
    if blocks == [] {
      var block: seq<byte> := seq(BLOCK_SIZE, _ => 0x80);
      var j := 1;
      while j < BLOCK_SIZE
        invariant 1 <= j <= 16 && |block| == 16 && block[0] == 0x80
        invariant forall k :: 1 <= k < j ==> block[k] == 0
      {
        block := block[j := 0];
        j := j + 1;
      }
      assert block == Padded([]);
      blocks := [block];
    } else {
      BlockAt(data, 0);
    }
    var y := ChainAllButLast(E, key, data, blocks);
    var lastBlock := blocks[|blocks| - 1];
    if |lastBlock| == BLOCK_SIZE {
      lastBlock := XorVectors(lastBlock, k1);
    } else {
      lastBlock := PadData(lastBlock);
      lastBlock := XorVectors(lastBlock, k2);
    }
    var x := XorVectors(y, lastBlock);
    mac := E(key, x);
  }

  /** The truncated MAC, or nothing without a usable key. */
  function Mic(E: Cipher, key: seq<byte>, data: seq<byte>): (mic: seq<byte>)
    ensures |mic| == if SupportedKey(key) then MIC_SIZE else 0
  {
    if SupportedKey(key) then Computed(E, key, data)[..MIC_SIZE] else []
  }

  /** There is a MIC under keys of 16 and of 32 bytes, and under no others: the first four bytes of the MAC. */
  lemma MicIs(E: Cipher, key: seq<byte>, data: seq<byte>)
    ensures |key| != 16 && |key| != 32 ==> Mic(E, key, data) == []
    ensures data != [] && (|key| == 16 || |key| == 32) ==> Mic(E, key, data) == Rfc4493(E, key, data)[..4]
  {
    if data != [] && SupportedKey(key) {
      NonEmptyIsRfc4493(E, key, data);
    }
  }

  method ComputeMIC(E: Cipher, key: seq<byte>, data: seq<byte>) returns (mic: seq<byte>)
    requires |key| != 24
    ensures mic == Mic(E, key, data)
  {
    var fullCmac := ComputeCMAC(E, key, data);
    if |fullCmac| < MIC_SIZE {
      return [];
    }
    mic := fullCmac[..MIC_SIZE];
  }

  method VerifyMIC(E: Cipher, key: seq<byte>, data: seq<byte>, receivedMic: seq<byte>) returns (valid: bool)
    requires |key| != 24
    ensures valid <==> SupportedKey(key) && receivedMic == Mic(E, key, data)
  {
    hide Mic;
    if |receivedMic| != MIC_SIZE {
      return false;
    }
    var computedMic := ComputeMIC(E, key, data);
    if |computedMic| != MIC_SIZE {
      return false;
    }
    valid := true;
    var i := 0;
    while i < MIC_SIZE
      invariant 0 <= i <= MIC_SIZE
      invariant valid <==> forall k :: 0 <= k < i ==> computedMic[k] == receivedMic[k]
    {
      valid := valid && computedMic[i] == receivedMic[i];
      i := i + 1;
    }
    assert valid <==> computedMic == receivedMic;
  }

  // ----- the subkeys are doublings in GF(2^128) -----

  lemma ShiftedBit(b: byte, next: byte, j: nat)
    requires j < 8
    ensures Bit(ShiftedByte(b, next), j) == if j == 0 then Bit(next, 7) else Bit(b, j - 1)
  {
  }

  lemma ReducedBit(b: byte, j: nat)
    requires j < 8
    ensures Bit(XorByte(b, 0x87), j) == (Bit(b, j) != InPolynomial(j))
  {
  }

  lemma NoBit(j: nat)
    requires j < 8
    ensures !Bit(0, j)
  {
  }

  lemma ShiftedCoefficient(b: Block, i: nat)
    requires i < 128
    ensures Coefficient(Shifted(b), i) == (i > 0 && Coefficient(b, i - 1))
  {
    var q, j := 15 - i / 8, i % 8;
    var next: byte := if q < 15 then b[q + 1] else 0;
    assert Shifted(b)[q] == ShiftedByte(b[q], next);
    ShiftedBit(b[q], next, j);
    NoBit(7);
    hide Bit, ShiftedByte, Shifted;
    if j > 0 {
      assert (i - 1) / 8 == i / 8 && (i - 1) % 8 == j - 1;
    } else if i > 0 {
      assert (i - 1) / 8 == i / 8 - 1 && (i - 1) % 8 == 7;
    }
  }

  lemma DoubledCoefficient(b: Block, i: nat)
    requires i < 128
    ensures Coefficient(Double(b), i) ==
            ((i > 0 && Coefficient(b, i - 1)) != (Coefficient(b, 127) && InPolynomial(i)))
  {
    hide Bit, XorByte, Shifted;
    ShiftedCoefficient(b, i);
    ReducedBit(Shifted(b)[15], i % 8);
  }

  lemma DoublingIsMultiplicationByX(b: Block)
    ensures IsDouble(b, Double(b))
  {
    forall i {:trigger Coefficient(Double(b), i)} | 0 <= i < 128
      ensures Coefficient(Double(b), i) ==
              ((i > 0 && Coefficient(b, i - 1)) != (Coefficient(b, 127) && InPolynomial(i)))
    {
      DoubledCoefficient(b, i);
    }
  }

  /** Section 2.3 of RFC 4493: K1 = x * AES(0), K2 = x * K1. */
  lemma SubkeysAreDoublings(E: Cipher, key: seq<byte>)
    ensures IsDouble(E(key, Zeros(16)), K1(E, key)) && IsDouble(K1(E, key), K2(E, key))
  {
    DoublingIsMultiplicationByX(E(key, Zeros(16)));
    DoublingIsMultiplicationByX(K1(E, key));
  }

  // ----- padding and the empty message -----

  lemma PaddingIsInjective(m: seq<byte>, n: seq<byte>)
    requires |m| < 16 && |n| < 16 && m != n
    ensures Padded(m) != Padded(n)
  {
    if |m| < |n| {
      assert Padded(m)[|n|] == 0 && Padded(n)[|n|] == 0x80;
    } else if |n| < |m| {
      assert Padded(m)[|m|] == 0x80 && Padded(n)[|m|] == 0;
    } else {
      var i :| 0 <= i < |m| && m[i] != n[i];
      assert Padded(m)[i] == m[i] && Padded(n)[i] == n[i];
    }
  }

  /** For every non-empty message and every supported key the code computes the RFC's MAC. */
  lemma NonEmptyIsRfc4493(E: Cipher, key: seq<byte>, m: seq<byte>)
    requires m != []
    ensures Mic(E, key, m) == if SupportedKey(key) then Rfc4493(E, key, m)[..4] else []
  {
  }

  lemma CoefficientAt(b: Block, q: nat, j: nat)
    requires q < 16 && j < 8
    ensures Coefficient(b, 8 * (15 - q) + j) == Bit(b[q], j)
  {
    assert (8 * (15 - q) + j) / 8 == 15 - q && (8 * (15 - q) + j) % 8 == j;
  }

  lemma ZeroByte(v: byte)
    requires !Bit(v, 0) && !Bit(v, 1) && !Bit(v, 2) && !Bit(v, 3)
    requires !Bit(v, 4) && !Bit(v, 5) && !Bit(v, 6) && !Bit(v, 7)
    ensures v == 0
  {
  }

  lemma ZeroCoefficients(b: Block)
    requires forall i :: 0 <= i < 128 ==> !Coefficient(b, i)
    ensures b == Zeros(16)
  {
    hide Coefficient, Bit;
    forall q | 0 <= q < 16 ensures b[q] == 0 {
      CoefficientAt(b, q, 0); CoefficientAt(b, q, 1); CoefficientAt(b, q, 2); CoefficientAt(b, q, 3);
      CoefficientAt(b, q, 4); CoefficientAt(b, q, 5); CoefficientAt(b, q, 6); CoefficientAt(b, q, 7);
      ZeroByte(b[q]);
    }
  }

  /** Doubling is injective at zero: only the zero block doubles to zero. */
  lemma OnlyZeroDoublesToZero(b: Block)
    ensures Double(b) == Zeros(16) <==> b == Zeros(16)
  {
    var d := Double(b);
    DoublingIsMultiplicationByX(b);
    if d == Zeros(16) {
      forall i | 0 <= i < 128 ensures !Coefficient(d, i) {
      }
      assert !Coefficient(d, 0);
      forall i | 0 <= i < 128 ensures !Coefficient(b, i) {
        if i < 127 {
          assert !Coefficient(d, i + 1);
        }
      }
      ZeroCoefficients(b);
    }
  }

  /** No block but zero is its own double. */
  lemma OnlyZeroIsItsDouble(b: Block)
    ensures Double(b) == b <==> b == Zeros(16)
  {
    OnlyZeroDoublesToZero(b);
    if Double(b) == b {
      DoublingIsMultiplicationByX(b);
      Settle(b, 127);
      forall i | 0 <= i < 128 ensures !Coefficient(b, i) {
        Settle(b, i);
      }
      ZeroCoefficients(b);
    }
  }

  lemma {:induction false} Settle(b: Block, i: nat)
    requires IsDouble(b, b) && i < 128
    ensures Coefficient(b, i) == (Coefficient(b, 127) && i in {0, 2, 3, 4, 5, 6})
  {
    hide Coefficient;
    assert Coefficient(b, i) == Coefficient(b, i);
    if i > 0 {
      Settle(b, i - 1);
    }
  }

  /**
   For the empty message the code and the RFC agree exactly when the cipher maps the zero block
   to the zero block under the key: only then are the two subkeys equal.
   */
  lemma EmptyIsRfc4493Iff(E: Cipher, key: seq<byte>)
    requires forall a: Block, b: Block :: E(key, a) == E(key, b) ==> a == b
    ensures Computed(E, key, []) == Rfc4493(E, key, []) <==> E(key, Zeros(16)) == Zeros(16)
  {
    var p, k1, k2 := Padded([]), K1(E, key), K2(E, key);
    var a, b := Xor(Zeros(16), Xor(p, k1)), Xor(Zeros(16), Xor(p, k2));
    assert a == b <==> k1 == k2 by {
      if a == b {
        forall i | 0 <= i < 16 ensures k1[i] == k2[i] {
          assert a[i] == XorByte(0, XorByte(p[i], k1[i])) && b[i] == XorByte(0, XorByte(p[i], k2[i]));
        }
      }
    }
    OnlyZeroIsItsDouble(k1);
    OnlyZeroDoublesToZero(E(key, Zeros(16)));
  }

  // ----- short messages, written out -----

  lemma PaddingIsOneThenZeros(m: seq<byte>)
    requires |m| < 16
    ensures var p := Padded(m); |p| == 16 && p[..|m|] == m && p[|m|] == 0x80 && forall i :: |m| < i < 16 ==> p[i] == 0
  {
  }

  lemma XorIs(a: seq<byte>, b: seq<byte>, i: nat)
    requires |a| == |b| && i < |a|
    ensures Xor(a, b)[i] == a[i] ^ b[i]
  {
  }

  lemma XorWithZeros(b: Block)
    ensures Xor(Zeros(16), b) == b
  {
    forall i | 0 <= i < 16 ensures XorByte(0, b[i]) == b[i] {
    }
  }

  /** One block, complete or not: the RFC's algorithm with every step spelled out. */
  lemma OneBlockMessage(E: Cipher, key: seq<byte>, m: seq<byte>)
    requires |m| <= 16
    ensures Rfc4493(E, key, m) ==
            if |m| == 16 then E(key, Xor(m, Double(E(key, Zeros(16)))))
            else E(key, Xor(Padded(m), Double(Double(E(key, Zeros(16))))))
  {
    hide Double, Xor, Padded, Zeros;
    XorWithZeros(LastBlock(E, key, m));
  }

  /** And one block more: the chaining. */
  lemma OneMoreBlock(E: Cipher, key: seq<byte>, m: seq<byte>, rest: seq<byte>)
    requires |m| == 16 && 0 < |rest| <= 16
    ensures Rfc4493(E, key, m + rest) ==
            E(key, Xor(E(key, m), if |rest| == 16 then Xor(rest, Double(E(key, Zeros(16))))
                                  else Xor(Padded(rest), Double(Double(E(key, Zeros(16)))))))
  {
    hide Double, Xor, Padded, Zeros;
    assert (m + rest)[..16] == m && (m + rest)[16..] == rest;
    XorWithZeros(m);
    assert Chain(E, key, Zeros(16), m + rest) == Chain(E, key, E(key, m), rest);
  }
}
