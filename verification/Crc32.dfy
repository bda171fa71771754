/**
 The packet CRC: the class as the code has it, bit loops and all, and the error-detection
 guarantee that makes it worth computing.
 */
module Crc32 {
  import opened Bytes

  const POLYNOMIAL: u32 := 0xEDB88320
  const INITIAL: u32 := 0xFFFF_FFFF

  // ----- the specification -----

  function Xor(x: u32, y: u32): u32 {
    x ^ y
  }

  function Half(c: u32): u32 {
    c >> 1
  }

  predicate Odd(c: u32) {
    c & 1 != 0
  }

  /** One turn of the bit loop of `update`. */
  function Shift(c: u32): u32 {
    if Odd(c) then Xor(Half(c), POLYNOMIAL) else Half(c)
  }

  function Shifts(c: u32, n: nat): u32
    decreases n
  {
    if n == 0 then c else Shifts(Shift(c), n - 1)
  }

  /** Bit order reversed by swapping nibbles, bit pairs and bits. */
  function ReflectedByte(b: byte): byte {
    var x: byte := (b >> 4) | (b << 4);
    var y: byte := ((x & 0xCC) >> 2) | ((x & 0x33) << 2);
    ((y & 0xAA) >> 1) | ((y & 0x55) << 1)
  }

  function Reflected(w: u32): u32 {
    var v: u32 := (w >> 16) | (w << 16);
    var x: u32 := ((v & 0xFF00_FF00) >> 8) | ((v & 0x00FF_00FF) << 8);
    var y: u32 := ((x & 0xF0F0_F0F0) >> 4) | ((x & 0x0F0F_0F0F) << 4);
    var z: u32 := ((y & 0xCCCC_CCCC) >> 2) | ((y & 0x3333_3333) << 2);
    ((z & 0xAAAA_AAAA) >> 1) | ((z & 0x5555_5555) << 1)
  }

  function Masked(c: u32, b: byte): u32 {
    Xor(c, ReflectedByte(b) as bv32)
  }

  function ByteStep(c: u32, b: byte): u32 {
    Shifts(Masked(c, b), 8)
  }

  function Stream(c: u32, s: seq<byte>): u32
    decreases |s|
  {
    if s == [] then c else Stream(ByteStep(c, s[0]), s[1..])
  }

  function Finish(c: u32): u32 {
    Xor(Reflected(c), 0xFFFF_FFFF)
  }

  function LowByte(x: u32): byte {
    (x & 0xFF) as bv8
  }

  /** A frame counter as `update(uint32_t)` feeds it: least significant byte first. */
  function LittleEndian(x: u32): (s: seq<byte>)
    ensures |s| == 4
  {
    [LowByte(x), LowByte(x >> 8), LowByte(x >> 16), LowByte(x >> 24)]
  }

  /** What router and device compute: the CRC over frame counter and payload. */
  function PacketCrc(fcounter: u32, payload: seq<byte>): u32 {
    Finish(Stream(INITIAL, LittleEndian(fcounter) + payload))
  }

  // ----- the reflection loops -----

  /** What the loop of `reflectByte` has after `i` turns: the top `i` bits of the reflection. */
  function ReflectedBits8(b: byte, i: byte): byte
    requires i <= 8
  {
    ReflectedByte(b) & !((0xFF as bv8) >> i)
  }

  function ReflectedBits32(w: u32, i: u32): u32
    requires i <= 32
  {
    TopBits(Reflected(w), i)
  }

  lemma NextBit8(b: byte, i: byte)
    requires i < 8
    ensures ReflectedBits8(b, 0) == 0 && ReflectedBits8(b, 8) == ReflectedByte(b)
    ensures ReflectedBits8(b, i + 1) ==
            if b & ((1 as bv8) << i) != 0 then ReflectedBits8(b, i) | ((1 as bv8) << (7 - i)) else ReflectedBits8(b, i)
  {
  }

  /** `1 << i`. */
  function Bit(i: u32): u32
    requires i < 32
  {
    (1 as bv32) << i
  }

  function And(r: u32, m: u32): u32 {
    r & m
  }

  function Or(r: u32, m: u32): u32 {
    r | m
  }

  function TopBits(r: u32, i: u32): u32
    requires i <= 32
  {
    r & !((0xFFFF_FFFF as bv32) >> i)
  }

  lemma ReflectedBit32(w: u32, i: u32)
    requires i < 32
    ensures (And(w, Bit(i)) != 0) == (And(Reflected(w), Bit(31 - i)) != 0)
  {
  }

  lemma OneMoreTopBit(r: u32, i: u32)
    requires i < 32
    ensures TopBits(r, i + 1) == Or(TopBits(r, i), And(r, Bit(31 - i)))
  {
  }

  lemma SingleBit(r: u32, i: u32)
    requires i < 32
    ensures And(r, Bit(i)) == 0 || And(r, Bit(i)) == Bit(i)
  {
  }

  lemma OrNothing(r: u32)
    ensures Or(r, 0) == r
  {
  }

  lemma NextBit32(w: u32, i: u32)
    requires i < 32
    ensures ReflectedBits32(w, i + 1) ==
            if And(w, Bit(i)) != 0 then Or(ReflectedBits32(w, i), Bit(31 - i)) else ReflectedBits32(w, i)
  {
    hide Reflected, TopBits, Bit, And, Or;
    ReflectedBit32(w, i);
    OneMoreTopBit(Reflected(w), i);
    SingleBit(Reflected(w), 31 - i);
    OrNothing(TopBits(Reflected(w), i));
  }

  lemma AllBits32(w: u32)
    ensures ReflectedBits32(w, 0) == 0 && ReflectedBits32(w, 32) == Reflected(w)
  {
  }

  /** Reflections undo themselves, so they are bijections. */
  lemma ReflectionsAreInvolutions(b: byte, w: u32)
    ensures ReflectedByte(ReflectedByte(b)) == b && Reflected(Reflected(w)) == w
  {
  }

  lemma ShiftIsBitStep(c: u32)
    ensures Shift(c) == if c & 1 != 0 then (c >> 1) ^ POLYNOMIAL else c >> 1
  {
  }

  // ----- the code -----

  method ReflectByte(b: byte) returns (reflection: byte)
    ensures reflection == ReflectedByte(b)
  {
    hide ReflectedBits8, ReflectedByte;
    NextBit8(b, 0);
    reflection := 0;
    var i: byte := 0;
    while i < 8
      invariant i <= 8 && reflection == ReflectedBits8(b, i)
      decreases 8 - i
    {
      NextBit8(b, i);
      if b & ((1 as bv8) << i) != 0 {
        reflection := reflection | ((1 as bv8) << (7 - i));
      }
      i := i + 1;
    }
  }

  method Reflect(data: u32) returns (reflection: u32)
    ensures reflection == Reflected(data)
  {
    hide ReflectedBits32, Reflected, Bit, And, Or;
    AllBits32(data);
    reflection := 0;
    var i: u32 := 0;
    while i < 32
      invariant i <= 32 && reflection == ReflectedBits32(data, i)
      decreases 32 - i
    {
      var bit := Bit(i);
      if And(data, bit) != 0 {
        reflection := Or(reflection, Bit(31 - i));
      }
      NextBit32(data, i);
      i := i + 1;
    }
  }

  class CRC32 {
    var crc: u32

    constructor ()
      ensures crc == INITIAL
    {
      crc := 0xFFFF_FFFF;
    }

    method Reset()
      modifies this
      ensures crc == INITIAL
    {
      crc := 0xFFFF_FFFF;
    }

    method UpdateByte(value: byte)
      modifies this
      ensures crc == ByteStep(old(crc), value)
    {
      hide ReflectedByte;
      var reflected := ReflectByte(value);
      crc := crc ^ (reflected as bv32);
      ghost var masked := crc;
      assert masked == Masked(old(crc), value);
      hide Shift, Masked;
      var i := 0;
      while i < 8
        invariant 0 <= i <= 8
        invariant Shifts(crc, 8 - i) == Shifts(masked, 8)
      {
        ShiftIsBitStep(crc);
        if crc & 1 != 0 {
          crc := (crc >> 1) ^ POLYNOMIAL;
        } else {
          crc := crc >> 1;
        }
        i := i + 1;
      }
    }

    method Update16(value: bv16)
      modifies this
      ensures crc == ByteStep(ByteStep(old(crc), (value & 0xFF) as bv8), ((value >> 8) & 0xFF) as bv8)
    {
      UpdateByte((value & 0xFF) as bv8);
      UpdateByte(((value >> 8) & 0xFF) as bv8);
    }

    method Update32(value: u32)
      modifies this
      ensures crc == Stream(old(crc), LittleEndian(value))
    {
      hide ByteStep;
      ghost var c := crc;
      Update16((value & 0xFFFF) as bv16);
      Update16(((value >> 16) & 0xFFFF) as bv16);
      Halves(value);
      FourBytes(c, LittleEndian(value));
    }

    method UpdateBytes(data: seq<byte>)
      modifies this
      ensures crc == Stream(old(crc), data)
    {
      hide ByteStep;
      var i := 0;
      assert data[0..] == data;
      while i < |data|
        invariant 0 <= i <= |data|
        invariant Stream(crc, data[i..]) == Stream(old(crc), data)
      {
        assert data[i..][1..] == data[i + 1..];
        UpdateByte(data[i]);
        i := i + 1;
      }
    }

    method Finalize() returns (r: u32)
      ensures r == Finish(crc)
    {
      hide Reflected;
      var reflected := Reflect(crc);
      r := reflected ^ 0xFFFF_FFFF;
    }
  }

  lemma Halves(x: u32)
    ensures ((x & 0xFFFF) as bv16 & 0xFF) as bv8 == LowByte(x)
    ensures (((x & 0xFFFF) as bv16 >> 8) & 0xFF) as bv8 == LowByte(x >> 8)
    ensures (((x >> 16) & 0xFFFF) as bv16 & 0xFF) as bv8 == LowByte(x >> 16)
    ensures ((((x >> 16) & 0xFFFF) as bv16 >> 8) & 0xFF) as bv8 == LowByte(x >> 24)
  {
  }

  lemma FourBytes(c: u32, s: seq<byte>)
    requires |s| == 4
    ensures Stream(c, s) == ByteStep(ByteStep(ByteStep(ByteStep(c, s[0]), s[1]), s[2]), s[3])
  {
    hide ByteStep;
    var a := s[1..];
    var b := a[1..];
    var d := b[1..];
    assert a[0] == s[1] && b[0] == s[2] && d[0] == s[3] && d[1..] == [];
    var c1 := ByteStep(c, s[0]);
    var c2 := ByteStep(c1, s[1]);
    var c3 := ByteStep(c2, s[2]);
    assert Stream(c, s) == Stream(c1, a) == Stream(c2, b) == Stream(c3, d) == Stream(ByteStep(c3, s[3]), d[1..]);
  }

  // ----- shifting is linear and injective -----

  function Unshift(d: u32): u32 {
    if d & 0x8000_0000 != 0 then ((d ^ POLYNOMIAL) << 1) | 1 else d << 1
  }

  lemma UnshiftUndoesShift(c: u32)
    ensures Unshift(Shift(c)) == c
  {
  }

  lemma HalfOfXor(x: u32, y: u32)
    ensures Half(Xor(x, y)) == Xor(Half(x), Half(y)) && (Odd(Xor(x, y)) <==> Odd(x) != Odd(y))
  {
  }

  lemma XorAssociates(x: u32, y: u32, p: u32)
    ensures Xor(Xor(x, y), p) == Xor(x, Xor(y, p))
  {
  }

  lemma XorCommutes(x: u32, y: u32)
    ensures Xor(x, y) == Xor(y, x)
  {
  }

  lemma XorCancels(x: u32, y: u32)
    ensures Xor(x, Xor(x, y)) == y
  {
  }

  /** A term added on both sides drops out, a term added on one side stays. */
  lemma XorTwice(x: u32, y: u32, p: u32)
    ensures Xor(Xor(x, p), Xor(y, p)) == Xor(x, y)
    ensures Xor(Xor(x, p), y) == Xor(Xor(x, y), p)
  {
    hide Xor;
    XorAssociates(x, p, y);
    XorCommutes(p, y);
    XorAssociates(x, y, p);
    XorAssociates(x, p, Xor(y, p));
    XorCommutes(y, p);
    XorCancels(p, y);
  }

  lemma ShiftIsLinear(x: u32, y: u32)
    ensures Shift(Xor(x, y)) == Xor(Shift(x), Shift(y))
  {
    HalfOfXor(x, y);
    hide Xor, Half, Odd;
    XorTwice(Half(x), Half(y), POLYNOMIAL);
    XorAssociates(Half(x), Half(y), POLYNOMIAL);
  }

  lemma {:induction false} ShiftsAreInjective(x: u32, y: u32, n: nat)
    requires Shifts(x, n) == Shifts(y, n)
    ensures x == y
    decreases n
  {
    if n > 0 {
      hide Shift, Unshift;
      ShiftsAreInjective(Shift(x), Shift(y), n - 1);
      UnshiftUndoesShift(x);
      UnshiftUndoesShift(y);
    }
  }

  lemma {:induction false} ShiftsAreLinear(x: u32, y: u32, n: nat)
    ensures Shifts(Xor(x, y), n) == Xor(Shifts(x, n), Shifts(y, n))
    decreases n
  {
    if n > 0 {
      hide Shift, Xor;
      ShiftIsLinear(x, y);
      ShiftsAreLinear(Shift(x), Shift(y), n - 1);
    }
  }

  lemma {:induction false} ShiftsCompose(x: u32, m: nat, n: nat)
    ensures Shifts(Shifts(x, m), n) == Shifts(x, m + n)
    decreases m
  {
    if m > 0 {
      hide Shift;
      ShiftsCompose(Shift(x), m - 1, n);
    }
  }

  /** A word whose low byte is zero is just moved down by eight shifts. */
  lemma ShiftsMoveDown(x: u32)
    requires x & 0xFF == 0
    ensures Shifts(x, 8) == x >> 8
  {
    var x1, x2, x3, x4 := Shift(x), Shift(Shift(x)), Shift(Shift(Shift(x))), Shift(Shift(Shift(Shift(x))));
    var x5 := Shift(x4);
    var x6 := Shift(x5);
    var x7 := Shift(x6);
    assert Shift(x7) == x >> 8;
    assert Shifts(x4, 4) == Shifts(x5, 3) == Shifts(x6, 2) == Shifts(x7, 1) == Shift(x7);
    assert Shifts(x, 8) == Shifts(x1, 7) == Shifts(x2, 6) == Shifts(x3, 5) == Shifts(x4, 4);
  }

  // ----- four bytes are absorbed as one word -----

  /** The reflected bytes of a window as one word, first byte lowest. */
  function Word(s: seq<byte>): u32
    requires |s| == 4
  {
    Xor(Xor(Xor(Lifted(s[0], 0), Lifted(s[1], 8)), Lifted(s[2], 16)), Lifted(s[3], 24))
  }

  function Lifted(b: byte, bits: nat): u32
    requires bits <= 24
  {
    At(ReflectedByte(b), bits)
  }

  function At(b: byte, bits: nat): u32
    requires bits <= 24
  {
    var r := b as bv32;
    if bits == 0 then r else if bits == 8 then r << 8 else if bits == 16 then r << 16 else r << 24
  }

  lemma LiftedByEight(b: byte, bits: nat)
    requires bits == 8 || bits == 16 || bits == 24
    ensures Lifted(b, bits) & 0xFF == 0
    ensures Lifted(b, bits) >> 8 == Lifted(b, bits - 8)
  {
    hide ReflectedByte;
  }

  lemma LiftedMovesByEight(b: byte, bits: nat)
    requires bits == 8 || bits == 16 || bits == 24
    ensures Shifts(Lifted(b, bits), 8) == Lifted(b, bits - 8)
  {
    hide Lifted, Shifts;
    LiftedByEight(b, bits);
    ShiftsMoveDown(Lifted(b, bits));
  }

  lemma {:induction false} LiftedMovesDown(b: byte, bits: nat)
    requires bits == 8 || bits == 16 || bits == 24
    ensures Shifts(Lifted(b, bits), bits) == Lifted(b, 0)
    decreases bits
  {
    hide Lifted, Shifts;
    LiftedMovesByEight(b, bits);
    if bits > 8 {
      LiftedMovesDown(b, bits - 8);
      ShiftsCompose(Lifted(b, bits), 8, bits - 8);
    }
  }

  lemma MaskedIsLifted(c: u32, b: byte)
    ensures Masked(c, b) == Xor(c, Lifted(b, 0))
  {
    hide ReflectedByte;
  }

  /** Absorbing a byte after `n` shifts is absorbing it now, `n` bits higher. */
  lemma AbsorbLater(x: u32, b: byte, n: nat)
    requires n == 8 || n == 16 || n == 24
    ensures ByteStep(Shifts(x, n), b) == Shifts(Xor(x, Lifted(b, n)), n + 8)
  {
    hide Lifted, Shift, Masked, Xor;
    LiftedMovesDown(b, n);
    MaskedIsLifted(Shifts(x, n), b);
    ShiftsAreLinear(x, Lifted(b, n), n);
    ShiftsCompose(Xor(x, Lifted(b, n)), n, 8);
  }

  lemma FourBytesAreOneWord(c: u32, s: seq<byte>)
    requires |s| == 4
    ensures Stream(c, s) == Shifts(Xor(c, Word(s)), 32)
  {
    hide Lifted, Shift, Shifts, Masked, Stream, Xor, Word;
    var x0 := Xor(c, Lifted(s[0], 0));
    var x1 := Xor(x0, Lifted(s[1], 8));
    var x2 := Xor(x1, Lifted(s[2], 16));
    assert ByteStep(c, s[0]) == Shifts(x0, 8) by { MaskedIsLifted(c, s[0]); }
    hide ByteStep;
    FourBytes(c, s);
    AbsorbLater(x0, s[1], 8);
    AbsorbLater(x1, s[2], 16);
    AbsorbLater(x2, s[3], 24);
    WordRegroups(c, s);
  }

  lemma WordRegroups(c: u32, s: seq<byte>)
    requires |s| == 4
    ensures Xor(Xor(Xor(Xor(c, Lifted(s[0], 0)), Lifted(s[1], 8)), Lifted(s[2], 16)), Lifted(s[3], 24)) ==
            Xor(c, Word(s))
  {
    hide Lifted, Xor;
    XorRegroups(c, Lifted(s[0], 0), Lifted(s[1], 8), Lifted(s[2], 16), Lifted(s[3], 24));
  }

  lemma XorRegroups(c: u32, w: u32, x: u32, y: u32, z: u32)
    ensures Xor(Xor(Xor(Xor(c, w), x), y), z) == Xor(c, Xor(Xor(Xor(w, x), y), z))
  {
    hide Xor;
    XorAssociates(c, w, x);
    XorAssociates(c, Xor(w, x), y);
    XorAssociates(c, Xor(Xor(w, x), y), z);
  }

  /** Byte `i` of a word, lowest first. */
  function WordByte(w: u32, i: nat): byte
    requires i < 4
  {
    LowByte(if i == 0 then w else if i == 1 then w >> 8 else if i == 2 then w >> 16 else w >> 24)
  }

  lemma BytesOfWord(a: byte, b: byte, c: byte, d: byte)
    ensures var w := Xor(Xor(Xor(At(a, 0), At(b, 8)), At(c, 16)), At(d, 24));
      WordByte(w, 0) == a && WordByte(w, 1) == b && WordByte(w, 2) == c && WordByte(w, 3) == d
  {
  }

  lemma WordHasBytes(s: seq<byte>)
    requires |s| == 4
    ensures forall i :: 0 <= i < 4 ==> WordByte(Word(s), i) == ReflectedByte(s[i])
  {
    hide ReflectedByte, WordByte, Xor, At;
    BytesOfWord(ReflectedByte(s[0]), ReflectedByte(s[1]), ReflectedByte(s[2]), ReflectedByte(s[3]));
  }

  lemma WordIsInjective(s: seq<byte>, t: seq<byte>)
    requires |s| == |t| == 4 && Word(s) == Word(t)
    ensures s == t
  {
    WordHasBytes(s);
    WordHasBytes(t);
    hide ReflectedByte, Word, WordByte;
    forall i | 0 <= i < 4 ensures s[i] == t[i] {
      ReflectionsAreInvolutions(s[i], 0);
      ReflectionsAreInvolutions(t[i], 0);
    }
  }

  // ----- error detection -----

  lemma {:induction false} StreamSplits(c: u32, s: seq<byte>, t: seq<byte>)
    ensures Stream(c, s + t) == Stream(Stream(c, s), t)
    decreases |s|
  {
    hide ByteStep;
    if s == [] {
      assert s + t == t;
    } else {
      assert (s + t)[1..] == s[1..] + t;
      StreamSplits(ByteStep(c, s[0]), s[1..], t);
    }
  }

  lemma {:induction false} StreamIsInjective(c: u32, d: u32, s: seq<byte>)
    requires Stream(c, s) == Stream(d, s)
    ensures c == d
    decreases |s|
  {
    if s != [] {
      StreamIsInjective(ByteStep(c, s[0]), ByteStep(d, s[0]), s[1..]);
      ShiftsAreInjective(Masked(c, s[0]), Masked(d, s[0]), 8);
      hide ReflectedByte, Shifts, Stream;
    }
  }

  /** Two streams of equal length that differ only within four consecutive bytes end in different states. */
  lemma WindowIsDetected(c: u32, s: seq<byte>, t: seq<byte>, k: nat)
    requires |s| == |t| && k + 4 <= |s| && s != t
    requires s[..k] == t[..k] && s[k + 4..] == t[k + 4..]
    ensures Stream(c, s) != Stream(c, t)
  {
    hide Stream, Word, Shifts, Xor;
    var (u, v) := (s[k..k + 4], t[k..k + 4]);
    assert s == s[..k] + u + s[k + 4..] && t == t[..k] + v + t[k + 4..];
    var d := Stream(c, s[..k]);
    StreamSplits(c, s[..k] + u, s[k + 4..]);
    StreamSplits(c, s[..k], u);
    StreamSplits(c, t[..k] + v, t[k + 4..]);
    StreamSplits(c, t[..k], v);
    FourBytesAreOneWord(d, u);
    FourBytesAreOneWord(d, v);
    if Stream(c, s) == Stream(c, t) {
      StreamIsInjective(Stream(d, u), Stream(d, v), s[k + 4..]);
      ShiftsAreInjective(Xor(d, Word(u)), Xor(d, Word(v)), 32);
      XorCancels(d, Word(u));
      XorCancels(d, Word(v));
      WordIsInjective(u, v);
    }
  }

  lemma FinishIsInjective(c: u32, d: u32)
    requires Finish(c) == Finish(d)
    ensures c == d
  {
    ReflectionsAreInvolutions(0, c);
    ReflectionsAreInvolutions(0, d);
    hide Reflected;
  }

  /**
   The CRC of a packet detects every corruption of frame counter and payload confined to four
   consecutive bytes of the stream it is computed over.
   */
  lemma CrcDetectsBurst(f: u32, p: seq<byte>, g: u32, q: seq<byte>, k: nat)
    requires |p| == |q| && k <= |p| && LittleEndian(f) + p != LittleEndian(g) + q
    requires var (s, t) := (LittleEndian(f) + p, LittleEndian(g) + q); s[..k] == t[..k] && s[k + 4..] == t[k + 4..]
    ensures PacketCrc(f, p) != PacketCrc(g, q)
  {
    hide Stream, LittleEndian, Finish;
    var (s, t) := (LittleEndian(f) + p, LittleEndian(g) + q);
    WindowIsDetected(INITIAL, s, t, k);
    if PacketCrc(f, p) == PacketCrc(g, q) {
      FinishIsInjective(Stream(INITIAL, s), Stream(INITIAL, t));
    }
  }

  // ----- every checksum occurs -----

  lemma DoublesHalve(e: u32)
    requires e & 0x8000_0000 == 0
    ensures Half(e << 1) == e && !Odd(e << 1)
    ensures Half((e << 1) | 1) == e && Odd((e << 1) | 1)
  {
  }

  lemma TopBitCancels(d: u32)
    requires d & 0x8000_0000 != 0
    ensures (d ^ POLYNOMIAL) & 0x8000_0000 == 0 && Xor(d ^ POLYNOMIAL, POLYNOMIAL) == d
  {
  }

  lemma ShiftUndoesUnshift(d: u32)
    ensures Shift(Unshift(d)) == d
  {
    hide Half, Odd, Xor;
    if d & 0x8000_0000 != 0 {
      TopBitCancels(d);
      DoublesHalve(d ^ POLYNOMIAL);
    } else {
      DoublesHalve(d);
    }
  }

  function Unshifts(d: u32, n: nat): u32
    decreases n
  {
    if n == 0 then d else Unshift(Unshifts(d, n - 1))
  }

  lemma {:induction false} ShiftsUndoUnshifts(d: u32, n: nat)
    ensures Shifts(Unshifts(d, n), n) == d
    decreases n
  {
    if n > 0 {
      hide Shift, Unshift;
      ShiftUndoesUnshift(Unshifts(d, n - 1));
      ShiftsUndoUnshifts(d, n - 1);
    }
  }

  lemma WordOfItsBytes(w: u32)
    ensures Xor(Xor(Xor(At(WordByte(w, 0), 0), At(WordByte(w, 1), 8)), At(WordByte(w, 2), 16)), At(WordByte(w, 3), 24))
            == w
  {
  }

  lemma EveryWordHasAWindow(w: u32) returns (s: seq<byte>)
    ensures |s| == 4 && Word(s) == w
  {
    hide ReflectedByte, WordByte, Xor, At;
    s := [ReflectedByte(WordByte(w, 0)), ReflectedByte(WordByte(w, 1)), ReflectedByte(WordByte(w, 2)),
          ReflectedByte(WordByte(w, 3))];
    WordOfItsBytes(w);
    ReflectionsAreInvolutions(WordByte(w, 0), 0);
    ReflectionsAreInvolutions(WordByte(w, 1), 0);
    ReflectionsAreInvolutions(WordByte(w, 2), 0);
    ReflectionsAreInvolutions(WordByte(w, 3), 0);
  }

  lemma EveryFinishIsReached(r: u32) returns (c: u32)
    ensures Finish(c) == r
  {
    c := Reflected(Xor(r, 0xFFFF_FFFF));
    ReflectionsAreInvolutions(0, Xor(r, 0xFFFF_FFFF));
    hide Reflected, Xor;
    XorCommutes(r, 0xFFFF_FFFF);
    XorCancels(0xFFFF_FFFF, r);
    XorCommutes(0xFFFF_FFFF, Xor(0xFFFF_FFFF, r));
  }

  /**
   For every frame counter, every beginning of a payload and every checksum, 0 included, exactly one
   ending of four bytes gives the packet that checksum.
   */
  lemma EveryCrcOccurs(f: u32, beginning: seq<byte>, r: u32) returns (ending: seq<byte>)
    ensures |ending| == 4 && PacketCrc(f, beginning + ending) == r
    ensures forall other :: |other| == 4 && PacketCrc(f, beginning + other) == r ==> other == ending
  {
    hide LittleEndian, Word, Shifts, Xor, Stream, Finish;
    var c := EveryFinishIsReached(r);
    var d := Stream(INITIAL, LittleEndian(f) + beginning);
    ending := EveryWordHasAWindow(Xor(d, Unshifts(c, 32)));
    XorCancels(d, Unshifts(c, 32));
    FourBytesAreOneWord(d, ending);
    ShiftsUndoUnshifts(c, 32);
    StreamSplits(INITIAL, LittleEndian(f) + beginning, ending);
    assert LittleEndian(f) + beginning + ending == LittleEndian(f) + (beginning + ending);
    forall other | |other| == 4 && PacketCrc(f, beginning + other) == r ensures other == ending {
      if other != ending {
        EndingsDiffer(f, beginning, other, ending);
      }
    }
  }

  lemma EndingsDiffer(f: u32, beginning: seq<byte>, x: seq<byte>, y: seq<byte>)
    requires |x| == |y| == 4 && x != y
    ensures PacketCrc(f, beginning + x) != PacketCrc(f, beginning + y)
  {
    hide PacketCrc;
    var k := |beginning| + 4;
    var (s, t) := (LittleEndian(f) + (beginning + x), LittleEndian(f) + (beginning + y));
    assert s[k..] == x && t[k..] == y;
    assert s[..k] == LittleEndian(f) + beginning == t[..k];
    CrcDetectsBurst(f, beginning + x, f, beginning + y, k);
  }

  // ----- a check value -----

  /** The polynomial of CRC-32, x^32 + x^26 + x^23 + .. + x + 1, lowest power in the highest bit. */
  lemma PolynomialIsCrc32()
    ensures POLYNOMIAL ==
            (1 << 5) | (1 << 8) | (1 << 9) | (1 << 15) | (1 << 19) | (1 << 20) | (1 << 21) | (1 << 23) | (1 << 24)
            | (1 << 26) | (1 << 27) | (1 << 29) | (1 << 30) | (1 << 31)
  {
  }


  lemma CheckShifts1()
    ensures Shifts(0xDF3F_BF7F, 8) == 0xC065_5312
  {
    assert Shift(0xDF3F_BF7F) == 0x8227_5C9F;
    assert Shift(0x8227_5C9F) == 0xACAB_2D6F;
    assert Shift(0xACAB_2D6F) == 0xBBED_1597;
    assert Shift(0xBBED_1597) == 0xB04E_09EB;
    assert Shift(0xB04E_09EB) == 0xB59F_87D5;
    assert Shift(0xB59F_87D5) == 0xB777_40CA;
    assert Shift(0xB777_40CA) == 0x5BBB_A065;
    assert Shift(0x5BBB_A065) == 0xC065_5312;
    hide Shift;
    assert Shifts(0xDF3F_BF7F, 8) == Shifts(0x8227_5C9F, 7);
    assert Shifts(0x8227_5C9F, 7) == Shifts(0xACAB_2D6F, 6);
    assert Shifts(0xACAB_2D6F, 6) == Shifts(0xBBED_1597, 5);
    assert Shifts(0xBBED_1597, 5) == Shifts(0xB04E_09EB, 4);
    assert Shifts(0xB04E_09EB, 4) == Shifts(0xB59F_87D5, 3);
    assert Shifts(0xB59F_87D5, 3) == Shifts(0xB777_40CA, 2);
    assert Shifts(0xB777_40CA, 2) == Shifts(0x5BBB_A065, 1);
    assert Shifts(0x5BBB_A065, 1) == Shifts(0xC065_5312, 0);
  }

  lemma CheckShifts2()
    ensures Shifts(0xC065_5312, 8) == 0xF379_141B
  {
    assert Shift(0xC065_5312) == 0x6032_A989;
    assert Shift(0x6032_A989) == 0xDDA1_D7E4;
    assert Shift(0xDDA1_D7E4) == 0x6ED0_EBF2;
    assert Shift(0x6ED0_EBF2) == 0x3768_75F9;
    assert Shift(0x3768_75F9) == 0xF60C_B9DC;
    assert Shift(0xF60C_B9DC) == 0x7B06_5CEE;
    assert Shift(0x7B06_5CEE) == 0x3D83_2E77;
    assert Shift(0x3D83_2E77) == 0xF379_141B;
    hide Shift;
    assert Shifts(0xC065_5312, 8) == Shifts(0x6032_A989, 7);
    assert Shifts(0x6032_A989, 7) == Shifts(0xDDA1_D7E4, 6);
    assert Shifts(0xDDA1_D7E4, 6) == Shifts(0x6ED0_EBF2, 5);
    assert Shifts(0x6ED0_EBF2, 5) == Shifts(0x3768_75F9, 4);
    assert Shifts(0x3768_75F9, 4) == Shifts(0xF60C_B9DC, 3);
    assert Shifts(0xF60C_B9DC, 3) == Shifts(0x7B06_5CEE, 2);
    assert Shifts(0x7B06_5CEE, 2) == Shifts(0x3D83_2E77, 1);
    assert Shifts(0x3D83_2E77, 1) == Shifts(0xF379_141B, 0);
  }

  lemma CheckShifts3()
    ensures Shifts(0xF379_141B, 8) == 0x8A96_B0F8
  {
    assert Shift(0xF379_141B) == 0x9404_092D;
    assert Shift(0x9404_092D) == 0xA7BA_87B6;
    assert Shift(0xA7BA_87B6) == 0x53DD_43DB;
    assert Shift(0x53DD_43DB) == 0xC456_22CD;
    assert Shift(0xC456_22CD) == 0x8F93_9246;
    assert Shift(0x8F93_9246) == 0x47C9_C923;
    assert Shift(0x47C9_C923) == 0xCE5C_67B1;
    assert Shift(0xCE5C_67B1) == 0x8A96_B0F8;
    hide Shift;
    assert Shifts(0xF379_141B, 8) == Shifts(0x9404_092D, 7);
    assert Shifts(0x9404_092D, 7) == Shifts(0xA7BA_87B6, 6);
    assert Shifts(0xA7BA_87B6, 6) == Shifts(0x53DD_43DB, 5);
    assert Shifts(0x53DD_43DB, 5) == Shifts(0xC456_22CD, 4);
    assert Shifts(0xC456_22CD, 4) == Shifts(0x8F93_9246, 3);
    assert Shifts(0x8F93_9246, 3) == Shifts(0x47C9_C923, 2);
    assert Shifts(0x47C9_C923, 2) == Shifts(0xCE5C_67B1, 1);
    assert Shifts(0xCE5C_67B1, 1) == Shifts(0x8A96_B0F8, 0);
  }

  lemma CheckShifts4()
    ensures Shifts(0x8A96_B0F8, 8) == 0xB3EC_EC9E
  {
    assert Shift(0x8A96_B0F8) == 0x454B_587C;
    assert Shift(0x454B_587C) == 0x22A5_AC3E;
    assert Shift(0x22A5_AC3E) == 0x1152_D61F;
    assert Shift(0x1152_D61F) == 0xE511_E82F;
    assert Shift(0xE511_E82F) == 0x9F30_7737;
    assert Shift(0x9F30_7737) == 0xA220_B8BB;
    assert Shift(0xA220_B8BB) == 0xBCA8_DF7D;
    assert Shift(0xBCA8_DF7D) == 0xB3EC_EC9E;
    hide Shift;
    assert Shifts(0x8A96_B0F8, 8) == Shifts(0x454B_587C, 7);
    assert Shifts(0x454B_587C, 7) == Shifts(0x22A5_AC3E, 6);
    assert Shifts(0x22A5_AC3E, 6) == Shifts(0x1152_D61F, 5);
    assert Shifts(0x1152_D61F, 5) == Shifts(0xE511_E82F, 4);
    assert Shifts(0xE511_E82F, 4) == Shifts(0x9F30_7737, 3);
    assert Shifts(0x9F30_7737, 3) == Shifts(0xA220_B8BB, 2);
    assert Shifts(0xA220_B8BB, 2) == Shifts(0xBCA8_DF7D, 1);
    assert Shifts(0xBCA8_DF7D, 1) == Shifts(0xB3EC_EC9E, 0);
  }

  /** The CRC of frame counter 0x04030201 with no payload: the bytes 1, 2, 3, 4. */
  lemma CheckValue()
    ensures PacketCrc(0x0403_0201, []) == 0x86C8_C832
  {
    var s: seq<byte> := [1, 2, 3, 4];
    assert LittleEndian(0x0403_0201) + [] == s;
    assert Word(s) == 0x20C0_4080 by { CheckWord(); }
    assert Finish(0xB3EC_EC9E) == 0x86C8_C832;
    hide Stream, Word, Shifts, Finish;
    FourBytesAreOneWord(INITIAL, s);
    assert Xor(INITIAL, 0x20C0_4080) == 0xDF3F_BF7F;
    CheckShifts1();
    CheckShifts2();
    CheckShifts3();
    CheckShifts4();
    ShiftsCompose(0xDF3F_BF7F, 8, 24);
    ShiftsCompose(0xC065_5312, 8, 16);
    ShiftsCompose(0xF379_141B, 8, 8);
  }

  lemma CheckWord()
    ensures Word([1, 2, 3, 4]) == 0x20C0_4080
  {
  }
}
