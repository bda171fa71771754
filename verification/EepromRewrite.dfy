/**
 What a raw image reads as, and exactly which in-place rewrites are safe: a live entry that is
 not the last one survives a rewrite for sure only if its value keeps its length.
 */
module EepromRewrite {
  import opened Bytes
  import opened Errors
  import opened EepromLayout
  import opened EepromLog
  import opened EepromStorage

  // ----- reading an image without knowing its log -----

  /** The search loop of `read` over raw bytes; anything that leaves the image reads as nothing. */
  function RawScan(b: seq<byte>, at: nat, n: nat, key: Key): Option<seq<byte>>
    decreases n
  {
    if n == 0 || at + ENTRY_HEADER > |b| then None
    else
      var h := b[at..at + ENTRY_HEADER];
      var dataAt := at + ENTRY_HEADER + KeyLength(h);
      var next := dataAt + DataLength(h);
      if next > |b| then None
      else if b[at + ENTRY_HEADER..dataAt] == key && IsLive(h) then Some(b[dataAt..next])
      else RawScan(b, next, n - 1, key)
  }

  function RawRead(b: seq<byte>, key: Key): Option<seq<byte>>
    requires STORAGE_HEADER <= |b|
  {
    RawScan(b, STORAGE_HEADER, DecodeLength(b[6..8]), key)
  }

  function Get(m: Store, key: Key): Option<seq<byte>> {
    if key in m then Some(m[key]) else None
  }

  /** One step of the raw scan over a slot. */
  lemma RawScanSlot(b: seq<byte>, at: nat, n: nat, s: Slot, key: Key)
    requires SlotAt(b, at, s) && n > 0
    ensures RawScan(b, at, n, key) ==
            if Matches(s, key) then Some(s.data) else RawScan(b, at + SlotSize(s), n - 1, key)
  {
    ReadSlot(b, at, s);
  }

  lemma RawScanEnds(b: seq<byte>, at: nat, key: Key)
    ensures RawScan(b, at, 0, key) == None
  {
  }

  lemma {:induction false} RawScanFinds(b: seq<byte>, slots: seq<Slot>, i: nat, key: Key)
    requires Laid(b, slots) && i <= |slots|
    ensures var f := Find(slots, key, i);
      RawScan(b, Offset(slots, i), |slots| - i, key) == if f == |slots| then None else Some(slots[f].data)
    decreases |slots| - i
  {
    hide Laid, RawScan, SlotAt, SlotBytes, Offset, SlotSize, Matches;
    if i < |slots| {
      SlotStands(b, slots, i);
      RawScanSlot(b, Offset(slots, i), |slots| - i, slots[i], key);
      RawScanFinds(b, slots, i + 1, key);
    } else {
      RawScanEnds(b, Offset(slots, i), key);
    }
  }

  lemma RawReadStarts(b: seq<byte>, n: nat, key: Key)
    requires STORAGE_HEADER <= |b| && n < 0x1_0000 && b[..STORAGE_HEADER] == StorageHeaderBytes(n)
    ensures RawRead(b, key) == RawScan(b, STORAGE_HEADER, n, key)
  {
    CountOfHeader(n);
    assert b[..STORAGE_HEADER][6..8] == b[6..8];
  }

  /** Reading the bytes is looking the key up in the map of the log. */
  lemma RawReadIsLookup(b: seq<byte>, slots: seq<Slot>, key: Key)
    requires Laid(b, slots) && Distinct(slots)
    ensures RawRead(b, key) == Get(Contents(slots), key)
  {
    RawReadStarts(b, |slots|, key);
    RawScanFinds(b, slots, 0, key);
    LookupReadsMap(slots, key);
  }

  // ----- which rewrites are safe -----

  /** A successful rewrite of a live entry before the last one. */
  ghost predicate MiddleRewrite(b: seq<byte>, slots: seq<Slot>, key: Key, data: seq<byte>) {
    && Laid(b, slots) && Distinct(slots)
    && Find(slots, key, 0) < |slots| - 1
    && |b| <= EEPROM_STORAGE_MAX_SIZE && WriteCode(|b|, slots, key, data) == RM_E_NONE
    && Writable(b, slots, key, data)
  }

  /** Every rewrite in the middle from a value of `dx` bytes to one of `dz` bytes changes that key alone. */
  ghost predicate LengthsSafe(dx: nat, dz: nat) {
    forall b: seq<byte>, slots: seq<Slot>, key: Key, data: seq<byte>, padding: byte, other: Key ::
      MiddleRewrite(b, slots, key, data) && |slots[Find(slots, key, 0)].data| == dx && |data| == dz ==>
      RawRead(WrittenImage(b, slots, key, data, padding), other) == Get(Contents(slots)[key := data], other)
  }

  /** For all lengths a store can hold twice: in the middle of the log, exactly equal lengths are safe. */
  lemma SafeIffSameLength(dx: nat, dz: nat)
    requires 0 < dx && 0 < dz && dx + dz <= 994
    ensures LengthsSafe(dx, dz) <==> dx == dz
  {
    if dx == dz {
      forall b: seq<byte>, slots: seq<Slot>, key: Key, data: seq<byte>, padding: byte, other: Key
        | MiddleRewrite(b, slots, key, data) && |slots[Find(slots, key, 0)].data| == dx && |data| == dz
        ensures RawRead(WrittenImage(b, slots, key, data, padding), other) == Get(Contents(slots)[key := data], other)
      {
        WrittenImageIsLaid(b, slots, key, data, padding);
        WriteChangesOneKey(slots, key, data, padding);
        RawReadIsLookup(WrittenImage(b, slots, key, data, padding), WriteLog(slots, key, data, padding), other);
      }
    } else {
      var b, slots := Image(dx, dz), Pair(dx);
      PairIsLaid(dx, dz);
      SecondKeyLost(dx, dz);
      assert Contents(slots) == map[[1] := Zeros(dx), [2] := [7]] by { PairContents(dx); }
      assert MiddleRewrite(b, slots, [1], Zeros(dz));
      assert RawRead(WrittenImage(b, slots, [1], Zeros(dz), 0), [2]) != Get(Contents(slots)[[1] := Zeros(dz)], [2]);
    }
  }

  // ----- a store that loses its second key -----

  function First(dx: nat): Slot {
    Slot([1], Zeros(dx), true, 0)
  }

  function Second(): Slot {
    Slot([2], [7], true, 0)
  }

  function Pair(dx: nat): seq<Slot> {
    [First(dx), Second()]
  }

  /** Two entries and cleared bytes with just enough room to rewrite the first one. */
  function Image(dx: nat, dz: nat): (b: seq<byte>)
    requires 0 < dx && 0 < dz && dx + dz <= 994
    ensures |b| == 30 + dx + dz
  {
    StorageHeaderBytes(2) + SlotBytes(First(dx)) + SlotBytes(Second()) + seq(7 + dz, _ => 0xFF)
  }

  lemma PairContents(dx: nat)
    ensures Distinct(Pair(dx)) && Contents(Pair(dx)) == map[[1] := Zeros(dx), [2] := [7]]
    ensures Find(Pair(dx), [1], 0) == 0
  {
    assert Pair(dx)[..1] == [First(dx)];
    assert [First(dx)][..0] == [];
    assert Contents([First(dx)]) == map[[1] := Zeros(dx)];
  }

  lemma PairIsLaid(dx: nat, dz: nat)
    requires 0 < dx && 0 < dz && dx + dz <= 994
    ensures Laid(Image(dx, dz), Pair(dx))
    ensures MiddleRewrite(Image(dx, dz), Pair(dx), [1], Zeros(dz))
  {
    var b, slots := Image(dx, dz), Pair(dx);
    PairContents(dx);
    assert Offset(slots, 1) == 15 + dx;
    assert End(slots) == 23 + dx;
    assert b[..STORAGE_HEADER] == StorageHeaderBytes(2);
    assert b[8..15 + dx] == SlotBytes(First(dx));
    assert b[15 + dx..23 + dx] == SlotBytes(Second());
    forall i: nat | i < |slots| ensures Placed(b, slots, i) {
    }
  }

  lemma SecondBytes()
    ensures SlotBytes(Second()) == [1, 0, 1, 0, 1, 0, 2, 7]
  {
    assert EncodeLength(1) == [1, 0] by {
      assert CountFrom(0, 1) == CountFrom(1, 0) == 1;
    }
  }

  /** The byte of the image at `k`, from the first value on. */
  lemma ImageByte(dx: nat, dz: nat, k: nat)
    requires 0 < dx && 0 < dz && dx + dz <= 994 && 15 <= k < 30 + dx + dz
    ensures Image(dx, dz)[k] ==
            if k < 15 + dx then 0 else if k < 23 + dx then [1, 0, 1, 0, 1, 0, 2, 7][k - 15 - dx] else 0xFF
  {
    SecondBytes();
  }

  /** The two bytes read as the second entry's key length, `dz - dx` bytes off their place. */
  lemma ShiftedKeyLength(dx: nat, dz: nat)
    requires 0 < dx && 0 < dz && dx + dz <= 994 && dx != dz
    ensures var e := 15 + dz; var b := Image(dx, dz);
      DecodeLength(b[e..e + 2]) != 1 || (dz == dx + 2 && b[e + 4] == 2) || (dz == dx + 4 && b[e + 6] == 0xFF)
  {
    var e := 15 + dz;
    ImageByte(dx, dz, e);
    ImageByte(dx, dz, e + 1);
    if dz == dx + 2 { ImageByte(dx, dz, e + 4); }
    if dz == dx + 4 { ImageByte(dx, dz, e + 6); }
    ValueIsConversion(0);
    ValueIsConversion(1);
    ValueIsConversion(2);
    ValueIsConversion(7);
    ValueIsConversion(0xFF);
  }

  lemma SecondKeyLost(dx: nat, dz: nat)
    requires 0 < dx && 0 < dz && dx + dz <= 994 && dx != dz
    ensures Writable(Image(dx, dz), Pair(dx), [1], Zeros(dz))
    ensures RawRead(WrittenImage(Image(dx, dz), Pair(dx), [1], Zeros(dz), 0), [2]) == None
  {
    hide RawScan, RawRead, Spliced, SlotBytes, Image;
    PairIsLaid(dx, dz);
    PairContents(dx);
    var b, s, e := Image(dx, dz), NewSlot([1], Zeros(dz), 0), 15 + dz;
    assert Offset(Pair(dx), 0) == 8;
    ShiftedKeyLength(dx, dz);
    var c := Spliced(b, 8, SlotBytes(s));
    SplicePlacesSlot(b, 8, s);
    SpliceElsewhere(b, 8, SlotBytes(s), 0, 8);
    SpliceElsewhere(b, 8, SlotBytes(s), e, e + 2);
    RawScanSlot(c, 8, 2, s, [2]);
    NoMatch(c, e, dx, dz);
    RawReadStarts(c, 2, [2]);
    assert c == WrittenImage(b, Pair(dx), [1], Zeros(dz), 0);
  }

  lemma NoMatch(c: seq<byte>, e: nat, dx: nat, dz: nat)
    requires e + ENTRY_HEADER < |c|
    requires DecodeLength(c[e..e + 2]) != 1 || c[e + 4] == 2 || c[e + 6] == 0xFF
    ensures RawScan(c, e, 1, [2]) == None
  {
    var h := c[e..e + ENTRY_HEADER];
    assert h[0..2] == c[e..e + 2];
    assert h[4] == c[e + 4];
    assert (2 as bv8) & ENTRY_VALID_FLAG == 0;
    var dataAt := e + ENTRY_HEADER + KeyLength(h);
    if dataAt <= |c| && c[e + ENTRY_HEADER..dataAt] == [2] {
      assert |c[e + ENTRY_HEADER..dataAt]| == KeyLength(h);
      assert c[e + ENTRY_HEADER..dataAt][0] == c[e + ENTRY_HEADER];
    }
  }
}
