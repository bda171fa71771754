/** Bytes, 32-bit words and their encodings, and the few byte-string helpers every layer shares. */
module Bytes {

  type byte = bv8
  type u32 = bv32

  /** Device and message identifiers are four bytes. */
  type Id = s: seq<byte> | |s| == 4 witness [0, 0, 0, 0]

  datatype Option<+T> = None | Some(value: T)

  // ----- single bytes and natural numbers -----
  //
  // Both directions count instead of converting, so that proofs about lengths never meet a
  // bit-vector conversion; ValueIsConversion says that they are the usual conversions.

  function Value(b: byte): (n: nat)
    decreases b
  {
    if b == 0 then 0 else Value(b - 1) + 1
  }

  function CountFrom(b: byte, n: nat): byte
    decreases n
  {
    if n == 0 then b else CountFrom(b + 1, n - 1)
  }

  function ByteOf(n: nat): byte {
    CountFrom(0, n)
  }

  lemma {:induction false} ValueIsConversion(b: byte)
    ensures Value(b) == b as nat
    decreases b
  {
    if b != 0 {
      ValueIsConversion(b - 1);
      assert (b - 1) as nat == b as nat - 1;
    }
  }

  lemma ValueInRange(b: byte)
    ensures Value(b) < 256
  {
    ValueIsConversion(b);
  }

  lemma {:induction false} ValueOfCount(b: byte, n: nat)
    requires Value(b) + n < 256
    ensures Value(CountFrom(b, n)) == Value(b) + n
    decreases n
  {
    if n > 0 {
      assert b != 255 by { ValueIsConversion(255); }
      assert b + 1 != 0 && (b + 1) - 1 == b;
      ValueOfCount(b + 1, n - 1);
    }
  }

  /** A uint16_t field as it lies in memory on the little-endian targets. */
  function EncodeLength(n: nat): (s: seq<byte>)
    requires n < 0x1_0000
    ensures |s| == 2 && DecodeLength(s) == n
  {
    ValueOfCount(0, n % 256);
    ValueOfCount(0, n / 256);
    [ByteOf(n % 256), ByteOf(n / 256)]
  }

  function DecodeLength(s: seq<byte>): (n: nat)
    requires |s| == 2
    ensures n < 0x1_0000
  {
    ValueInRange(s[0]);
    ValueInRange(s[1]);
    Value(s[0]) + 256 * Value(s[1])
  }

  // ----- 32-bit words, most significant byte first -----

  function BigEndian(x: u32): (s: seq<byte>)
    ensures |s| == 4 && FromBigEndian(s) == x
  {
    [((x >> 24) & 0xFF) as bv8, ((x >> 16) & 0xFF) as bv8, ((x >> 8) & 0xFF) as bv8, (x & 0xFF) as bv8]
  }

  function FromBigEndian(s: seq<byte>): u32
    requires |s| == 4
  {
    ((s[0] as bv32) << 24) | ((s[1] as bv32) << 16) | ((s[2] as bv32) << 8) | (s[3] as bv32)
  }

  /** The two word encodings are inverse to each other, so both are bijections. */
  lemma BigEndianOfFrom(s: seq<byte>)
    requires |s| == 4
    ensures BigEndian(FromBigEndian(s)) == s
  {
    var t := BigEndian(FromBigEndian(s));
    assert t[0] == s[0];
    assert t[1] == s[1];
    assert t[2] == s[2];
    assert t[3] == s[3];
  }

  /** Which byte is which: the highest first. */
  lemma HighestByteFirst(a: byte, b: byte, c: byte, d: byte)
    ensures BigEndian(0x0102_0304) == [1, 2, 3, 4] && FromBigEndian([1, 2, 3, 4]) == 0x0102_0304
    ensures FromBigEndian([a, b, c, d]) & 0xFF == d as u32 && FromBigEndian([a, b, c, d]) >> 24 == a as u32
  {
  }

  // ----- byte strings -----

  /** `b` with the bytes from `at` on replaced by `s`. */
  function Spliced(b: seq<byte>, at: nat, s: seq<byte>): (r: seq<byte>)
    requires at + |s| <= |b|
    ensures |r| == |b|
    ensures forall k :: 0 <= k < |b| ==> r[k] == if at <= k < at + |s| then s[k - at] else b[k]
  {
    b[..at] + s + b[at + |s|..]
  }

  function Zeros(n: nat): (s: seq<byte>)
    ensures |s| == n
  {
    seq(n, _ => 0)
  }

  lemma SliceOfSlice<T>(s: seq<T>, at: nat, n: nat, i: nat, j: nat)
    requires i <= j <= n && at + n <= |s|
    ensures s[at..at + n][i..j] == s[at + i..at + j]
  {
    var (l, r) := (s[at..at + n][i..j], s[at + i..at + j]);
    assert |l| == |r| && forall k :: 0 <= k < |l| ==> l[k] == r[k];
  }

  lemma ConcatSlices<T>(s: seq<T>, i: nat, j: nat, k: nat)
    requires i <= j <= k <= |s|
    ensures s[i..j] + s[j..k] == s[i..k]
  {
  }

  lemma SpliceOver(b: seq<byte>, at: nat, s: seq<byte>, t: seq<byte>)
    requires |s| <= |t| && at + |t| <= |b|
    ensures Spliced(Spliced(b, at, s), at, t) == Spliced(b, at, t)
  {
    hide Spliced;
    assert forall k :: 0 <= k < |b| ==> Spliced(Spliced(b, at, s), at, t)[k] == Spliced(b, at, t)[k];
  }

  lemma SplicesCommute(b: seq<byte>, i: nat, s: seq<byte>, j: nat, t: seq<byte>)
    requires i + |s| <= j && j + |t| <= |b|
    ensures Spliced(Spliced(b, i, s), j, t) == Spliced(Spliced(b, j, t), i, s)
  {
    hide Spliced;
    assert forall k :: 0 <= k < |b| ==> Spliced(Spliced(b, i, s), j, t)[k] == Spliced(Spliced(b, j, t), i, s)[k];
  }

  lemma AdjacentSplices(b: seq<byte>, at: nat, s: seq<byte>, t: seq<byte>)
    requires at + |s| + |t| <= |b|
    ensures Spliced(Spliced(b, at, s), at + |s|, t) == Spliced(b, at, s + t)
  {
    hide Spliced;
    assert forall k :: 0 <= k < |b| ==> Spliced(Spliced(b, at, s), at + |s|, t)[k] == Spliced(b, at, s + t)[k];
  }

  lemma SpliceSame(b: seq<byte>, at: nat, n: nat)
    requires at + n <= |b|
    ensures Spliced(b, at, b[at..at + n]) == b
  {
    hide Spliced;
    assert forall k :: 0 <= k < |b| ==> Spliced(b, at, b[at..at + n])[k] == b[k];
  }

  lemma SpliceElsewhere(b: seq<byte>, at: nat, s: seq<byte>, i: nat, j: nat)
    requires at + |s| <= |b| && i <= j <= |b| && (j <= at || at + |s| <= i)
    ensures Spliced(b, at, s)[i..j] == b[i..j]
  {
    hide Spliced;
    var c := Spliced(b, at, s);
    assert forall k :: i <= k < j ==> c[k] == b[k];
  }
}
