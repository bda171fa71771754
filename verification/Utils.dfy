/** Numbers as byte vectors: how nonces and counters travel and are stored. */
module Utils {
  import opened Bytes

  function Append(number: u32, b: byte): u32 {
    (number << 8) | (b as bv32)
  }

  function Fold(s: seq<byte>): u32 {
    if s == [] then 0 else Append(Fold(s[..|s| - 1]), s[|s| - 1])
  }

  function Limit(n: nat): nat {
    if n < 4 then n else 4
  }

  /** The number in the first four bytes, or in all of them if there are fewer. */
  function NumberOf(bytes: seq<byte>): u32 {
    Fold(bytes[..Limit(|bytes|)])
  }

  /** Byte `i` of four, the most significant first. */
  function ByteAt(number: u32, i: nat): byte
    requires i < 4
  {
    if i == 0 then ((number >> 24) & 0xFF) as bv8
    else if i == 1 then ((number >> 16) & 0xFF) as bv8
    else if i == 2 then ((number >> 8) & 0xFF) as bv8
    else (number & 0xFF) as bv8
  }

  method NumberToBytes(number: u32) returns (bytes: seq<byte>)
    ensures bytes == BigEndian(number)
  {
    bytes := [0, 0, 0, 0];
    var i := 0;
    while i < 4
      invariant 0 <= i <= 4 && |bytes| == 4
      invariant forall k :: 0 <= k < i ==> bytes[k] == ByteAt(number, k)
    {
      hide ByteAt;
      bytes := bytes[i := ByteAt(number, i)];
      i := i + 1;
    }
    assert bytes == [ByteAt(number, 0), ByteAt(number, 1), ByteAt(number, 2), ByteAt(number, 3)];
  }

  method BytesToNumber(bytes: seq<byte>) returns (number: u32)
    ensures number == NumberOf(bytes)
  {
    number := 0;
    var limit := if |bytes| < 4 then |bytes| else 4;
    var i := 0;
    while i < limit
      invariant 0 <= i <= limit == Limit(|bytes|)
      invariant number == Fold(bytes[..i])
    {
      assert bytes[..i + 1][..i] == bytes[..i];
      hide Append;
      number := Append(number, bytes[i]);
      i := i + 1;
    }
  }

  /** On four bytes the accumulating loop reads a big-endian word. */
  lemma NumberOfWord(s: seq<byte>)
    requires |s| == 4
    ensures NumberOf(s) == FromBigEndian(s)
  {
    assert s[..4] == s && s[..3][..2] == s[..2] && s[..2][..1] == s[..1] && s[..1][..0] == [];
    assert Fold(s[..1]) == Append(0, s[0]);
    assert Fold(s[..2]) == Append(Append(0, s[0]), s[1]);
    assert Fold(s[..3]) == Append(Append(Append(0, s[0]), s[1]), s[2]);
    AppendFour(s[0], s[1], s[2], s[3]);
  }

  lemma AppendFour(a: byte, b: byte, c: byte, d: byte)
    ensures Append(Append(Append(Append(0, a), b), c), d) == FromBigEndian([a, b, c, d])
  {
  }

  /** The two conversions undo each other on words, so every one of the 2^32 values has one encoding. */
  lemma NumberRoundTrip(x: u32, s: seq<byte>)
    requires |s| == 4
    ensures NumberOf(BigEndian(x)) == x
    ensures BigEndian(NumberOf(s)) == s
  {
    NumberOfWord(BigEndian(x));
    NumberOfWord(s);
    BigEndianOfFrom(s);
  }

  /** `++` on the unsigned 32-bit nonce: 0xFFFFFFFF goes to 0. */
  function Next(x: u32): u32 {
    x + 1
  }

  /** A confirmation names one nonce only, whatever its value. */
  lemma ConfirmationNamesNonce(mine: seq<byte>, theirs: seq<byte>)
    requires |mine| == 4 && |theirs| == 4
    ensures NumberOf(BigEndian(Next(NumberOf(theirs)))) == Next(NumberOf(mine)) <==> theirs == mine
  {
    NumberRoundTrip(Next(NumberOf(theirs)), mine);
    NumberRoundTrip(0, theirs);
    NextIsInjective(NumberOf(mine), NumberOf(theirs));
  }

  lemma NextIsInjective(x: u32, y: u32)
    ensures Next(x) == Next(y) <==> x == y
  {
  }
}
