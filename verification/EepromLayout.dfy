/**
 The byte layout of the EEPROM key/value store: an 8-byte storage header, then one slot per
 entry ever appended, live or dead, packed without gaps.

 sizeof(EntryHeader) is 6: two lengths, the flags and one byte of padding the compiler adds.
 */
module EepromLayout {
  import opened Bytes

  const STORAGE_HEADER := 8
  const ENTRY_HEADER := 6
  const ENTRY_VALID_FLAG: byte := 1

  /** One entry as it lies in the EEPROM; a removed entry keeps its bytes and its place. */
  datatype Slot = Slot(key: seq<byte>, data: seq<byte>, live: bool, padding: byte)

  predicate ValidSlot(s: Slot) {
    0 < |s.key| < 256 && 0 < |s.data| < 0x1_0000
  }

  function SlotSize(s: Slot): nat {
    ENTRY_HEADER + |s.key| + |s.data|
  }

  function EntryHeaderBytes(s: Slot): (h: seq<byte>)
    requires ValidSlot(s)
    ensures |h| == ENTRY_HEADER
  {
    EncodeLength(|s.key|) + EncodeLength(|s.data|) + [if s.live then ENTRY_VALID_FLAG else 0, s.padding]
  }

  function SlotBytes(s: Slot): (b: seq<byte>)
    requires ValidSlot(s)
    ensures |b| == SlotSize(s)
  {
    EntryHeaderBytes(s) + s.key + s.data
  }

  /** Magic "RMST", version 1, and the entry count, all little-endian. */
  function StorageHeaderBytes(numEntries: nat): (h: seq<byte>)
    requires numEntries < 0x1_0000
    ensures |h| == STORAGE_HEADER
  {
    [0x54, 0x53, 0x4D, 0x52, 1, 0] + EncodeLength(numEntries)
  }

  // ----- fields of a raw entry header -----

  function KeyLength(h: seq<byte>): nat
    requires |h| == ENTRY_HEADER
  {
    DecodeLength(h[0..2])
  }

  function DataLength(h: seq<byte>): nat
    requires |h| == ENTRY_HEADER
  {
    DecodeLength(h[2..4])
  }

  predicate IsLive(h: seq<byte>)
    requires |h| == ENTRY_HEADER
  {
    h[4] & ENTRY_VALID_FLAG != 0
  }

  /** The header without its valid flag. */
  function Invalidated(h: seq<byte>): (r: seq<byte>)
    requires |h| == ENTRY_HEADER
    ensures |r| == ENTRY_HEADER
  {
    h[4 := h[4] & !ENTRY_VALID_FLAG]
  }

  lemma HeaderFields(s: Slot)
    requires ValidSlot(s)
    ensures var h := EntryHeaderBytes(s);
      && KeyLength(h) == |s.key| && DataLength(h) == |s.data| && IsLive(h) == s.live
      && Invalidated(h) == EntryHeaderBytes(s.(live := false))
  {
    var h := EntryHeaderBytes(s);
    assert h[0..2] == EncodeLength(|s.key|);
    assert h[2..4] == EncodeLength(|s.data|);
  }

  // ----- where the slots lie -----

  function Offset(slots: seq<Slot>, i: nat): (at: nat)
    requires i <= |slots|
    ensures at >= STORAGE_HEADER
  {
    if i == 0 then STORAGE_HEADER else Offset(slots, i - 1) + SlotSize(slots[i - 1])
  }

  function End(slots: seq<Slot>): nat {
    Offset(slots, |slots|)
  }

  predicate SlotAt(b: seq<byte>, at: nat, s: Slot) {
    && ValidSlot(s)
    && at + SlotSize(s) <= |b|
    && b[at..at + SlotSize(s)] == SlotBytes(s)
  }

  /** `b` is the image of the log `slots`; the bytes after the last slot are free. */
  ghost predicate Laid(b: seq<byte>, slots: seq<Slot>) {
    && |slots| < 0x1_0000
    && End(slots) <= |b|
    && b[..STORAGE_HEADER] == StorageHeaderBytes(|slots|)
    && SlotsLaid(b, slots)
  }

  predicate Placed(b: seq<byte>, slots: seq<Slot>, i: nat)
    requires i < |slots|
  {
    SlotAt(b, Offset(slots, i), slots[i])
  }

  ghost predicate SlotsLaid(b: seq<byte>, slots: seq<Slot>) {
    forall i: nat :: i < |slots| ==> Placed(b, slots, i)
  }

  lemma {:induction false} OffsetsIncrease(slots: seq<Slot>, i: nat, j: nat)
    requires i <= j <= |slots|
    ensures Offset(slots, i) + (ENTRY_HEADER * (j - i)) <= Offset(slots, j)
    ensures i < j ==> Offset(slots, i) + SlotSize(slots[i]) <= Offset(slots, j)
  {
    if i < j {
      OffsetsIncrease(slots, i, j - 1);
    }
  }

  /** Offsets depend only on the sizes of the slots before. */
  lemma {:induction false} OffsetsAgree(s: seq<Slot>, t: seq<Slot>, i: nat)
    requires i <= |s| && i <= |t|
    requires forall k :: 0 <= k < i ==> SlotSize(s[k]) == SlotSize(t[k])
    ensures Offset(s, i) == Offset(t, i)
  {
    if i > 0 {
      OffsetsAgree(s, t, i - 1);
    }
  }

  /** The header fields the code reads at a slot's address, and the slot's key and data. */
  lemma ReadSlot(b: seq<byte>, at: nat, s: Slot)
    requires SlotAt(b, at, s)
    ensures var h := b[at..at + ENTRY_HEADER];
      && h == EntryHeaderBytes(s)
      && KeyLength(h) == |s.key| && DataLength(h) == |s.data| && IsLive(h) == s.live
    ensures b[at + ENTRY_HEADER..at + ENTRY_HEADER + |s.key|] == s.key
    ensures b[at + ENTRY_HEADER + |s.key|..at + SlotSize(s)] == s.data
  {
    hide KeyLength, DataLength, IsLive, Invalidated, EntryHeaderBytes;
    HeaderFields(s);
    SliceOfSlice(b, at, SlotSize(s), 0, ENTRY_HEADER);
    SliceOfSlice(b, at, SlotSize(s), ENTRY_HEADER, ENTRY_HEADER + |s.key|);
    SliceOfSlice(b, at, SlotSize(s), ENTRY_HEADER + |s.key|, SlotSize(s));
    assert SlotBytes(s)[..ENTRY_HEADER] == EntryHeaderBytes(s);
    assert SlotBytes(s)[ENTRY_HEADER..ENTRY_HEADER + |s.key|] == s.key;
    assert SlotBytes(s)[ENTRY_HEADER + |s.key|..] == s.data;
  }

  /** A write that touches none of a slot's bytes leaves the slot where it is. */
  lemma SpliceKeepsSlot(b: seq<byte>, at: nat, w: seq<byte>, p: nat, s: Slot)
    requires SlotAt(b, p, s) && at + |w| <= |b|
    requires at + |w| <= p || p + SlotSize(s) <= at
    ensures SlotAt(Spliced(b, at, w), p, s)
  {
    var c := Spliced(b, at, w);
    assert forall k :: p <= k < p + SlotSize(s) ==> c[k] == b[k];
    assert c[p..p + SlotSize(s)] == b[p..p + SlotSize(s)];
  }

  lemma SplicePlacesSlot(b: seq<byte>, at: nat, s: Slot)
    requires ValidSlot(s) && at + SlotSize(s) <= |b|
    ensures SlotAt(Spliced(b, at, SlotBytes(s)), at, s)
  {
  }

  lemma SlotStands(b: seq<byte>, slots: seq<Slot>, i: nat)
    requires Laid(b, slots) && i < |slots|
    ensures SlotAt(b, Offset(slots, i), slots[i])
    ensures Offset(slots, i + 1) == Offset(slots, i) + SlotSize(slots[i]) <= End(slots) <= |b|
  {
    hide SlotAt, StorageHeaderBytes;
    assert Placed(b, slots, i);
    OffsetsIncrease(slots, i + 1, |slots|);
  }

  /** Everything the scanning loops learn from the header at the i-th slot's address. */
  lemma ScanSlot(b: seq<byte>, slots: seq<Slot>, i: nat)
    requires Laid(b, slots) && i < |slots|
    ensures var at, s := Offset(slots, i), slots[i];
      && Offset(slots, i + 1) == at + SlotSize(s) <= End(slots) <= |b|
      && SlotAt(b, at, s)
      && var h := b[at..at + ENTRY_HEADER];
      && KeyLength(h) == |s.key| && DataLength(h) == |s.data| && IsLive(h) == s.live
      && b[at + ENTRY_HEADER..at + ENTRY_HEADER + |s.key|] == s.key
      && b[at + ENTRY_HEADER + |s.key|..at + SlotSize(s)] == s.data
  {
    hide KeyLength, DataLength, IsLive, SlotBytes, EntryHeaderBytes, Laid, Offset, SlotAt;
    SlotStands(b, slots, i);
    ReadSlot(b, Offset(slots, i), slots[i]);
  }

  /** Slots take at least 8 bytes each, so the 16-bit entry count of a small store cannot wrap. */
  lemma {:induction false} CountFits(b: seq<byte>, slots: seq<Slot>, n: nat)
    requires Laid(b, slots) && n <= |slots|
    ensures STORAGE_HEADER + 8 * n <= Offset(slots, n)
  {
    if n > 0 {
      CountFits(b, slots, n - 1);
      assert Placed(b, slots, n - 1);
    }
  }

  lemma OneSlotPerPlace(b: seq<byte>, at: nat, s: Slot, t: Slot)
    requires SlotAt(b, at, s) && SlotAt(b, at, t)
    ensures s == t
  {
    ReadSlot(b, at, s);
    ReadSlot(b, at, t);
    var h := b[at..at + ENTRY_HEADER];
    assert h[5] == s.padding && h[5] == t.padding;
  }

  lemma OneCountPerHeader(m: nat, n: nat)
    requires m < 0x1_0000 && n < 0x1_0000 && StorageHeaderBytes(m) == StorageHeaderBytes(n)
    ensures m == n
  {
    assert StorageHeaderBytes(m)[6..] == EncodeLength(m);
    assert StorageHeaderBytes(n)[6..] == EncodeLength(n);
  }

  /**
   The image determines the log: no byte string is the image of two different logs, so the
   log, and with it the stored map, can be read back from the EEPROM alone.
   */
  lemma {:induction false} ImageDeterminesLog(b: seq<byte>, s: seq<Slot>, t: seq<Slot>)
    requires Laid(b, s) && Laid(b, t)
    ensures s == t
  {
    OneCountPerHeader(|s|, |t|);
    SamePrefix(b, s, t, |s|);
  }

  lemma {:induction false} SamePrefix(b: seq<byte>, s: seq<Slot>, t: seq<Slot>, n: nat)
    requires SlotsLaid(b, s) && SlotsLaid(b, t) && n <= |s| == |t|
    ensures Offset(s, n) == Offset(t, n) && forall k :: 0 <= k < n ==> s[k] == t[k]
  {
    if n > 0 {
      SamePrefix(b, s, t, n - 1);
      assert Placed(b, s, n - 1) && Placed(b, t, n - 1);
      OneSlotPerPlace(b, Offset(s, n - 1), s[n - 1], t[n - 1]);
    }
  }

  // ----- the layout, byte by byte -----

  lemma StorageHeaderLayout(n: nat)
    requires n < 0x1_0000
    ensures StorageHeaderBytes(n) == [0x54, 0x53, 0x4D, 0x52, 0x01, 0x00, ByteOf(n % 256), ByteOf(n / 256)]
  {
    ByteCounts(n);
  }

  lemma EntryLayout(s: Slot)
    requires ValidSlot(s)
    ensures SlotBytes(s) ==
            [ByteOf(|s.key| % 256), ByteOf(|s.key| / 256), ByteOf(|s.data| % 256), ByteOf(|s.data| / 256),
             if s.live then 0x01 else 0x00, s.padding] + s.key + s.data
  {
    ByteCounts(|s.key|);
    ByteCounts(|s.data|);
  }

  lemma ByteCounts(n: nat)
    requires n < 0x1_0000
    ensures EncodeLength(n) == [ByteOf(n % 256), ByteOf(n / 256)]
  {
  }
}
