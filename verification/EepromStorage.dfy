/**
 The EEPROM key/value store as it runs: byte loops over one buffer, and a committed image that
 survives a loss of power. Every method is proved against the log functions of EepromLog.
 */
module EepromStorage {
  import opened Bytes
  import opened Errors
  import opened EepromLayout
  import opened EepromLog

  const EEPROM_STORAGE_MAX_SIZE := 1024

  // ----- what the writes do to an image -----

  lemma ImageAfterUpdate(b: seq<byte>, slots: seq<Slot>, i: nat, s: Slot)
    requires Laid(b, slots) && i < |slots| && ValidSlot(s)
    requires SlotSize(s) == SlotSize(slots[i]) || i == |slots| - 1
    requires Offset(slots, i) + SlotSize(s) <= |b|
    ensures Laid(Spliced(b, Offset(slots, i), SlotBytes(s)), slots[i := s])
  {
    var at, t := Offset(slots, i), slots[i := s];
    var c := Spliced(b, at, SlotBytes(s));
    OffsetsAgree(slots, t, i);
    assert c[..STORAGE_HEADER] == b[..STORAGE_HEADER];
    forall k: nat | k < |t| ensures Placed(c, t, k) && Offset(t, k) + SlotSize(t[k]) <= |b| {
      assert Placed(b, slots, k);
      if k <= i {
        OffsetsAgree(slots, t, k);
        OffsetsIncrease(slots, k, i);
      } else {
        OffsetsAgree(slots, t, k);
        OffsetsIncrease(slots, i, k);
      }
      if k == i {
        SplicePlacesSlot(b, at, s);
      } else {
        SpliceKeepsSlot(b, at, SlotBytes(s), Offset(slots, k), slots[k]);
      }
    }
    assert End(t) == Offset(t, |t| - 1) + SlotSize(t[|t| - 1]);
  }

  lemma ImageAfterAppend(b: seq<byte>, slots: seq<Slot>, s: Slot)
    requires Laid(b, slots) && ValidSlot(s) && |slots| + 1 < 0x1_0000
    requires End(slots) + SlotSize(s) <= |b|
    ensures Laid(Spliced(Spliced(b, End(slots), SlotBytes(s)), 0, StorageHeaderBytes(|slots| + 1)), slots + [s])
  {
    var t := slots + [s];
    var c := Spliced(b, End(slots), SlotBytes(s));
    OffsetsAgree(slots, t, |slots|);
    assert End(t) == End(slots) + SlotSize(s);
    hide SlotsLaid, SlotBytes, Spliced, Offset;
    SlotBehindKept(b, c, slots, s);
    RecountedImage(c, t);
  }

  /** Slots that are in place are an image once the header counts them. */
  lemma RecountedImage(c: seq<byte>, slots: seq<Slot>)
    requires SlotsLaid(c, slots) && End(slots) <= |c| && |slots| < 0x1_0000
    ensures Laid(Spliced(c, 0, StorageHeaderBytes(|slots|)), slots)
  {
    hide SlotAt, StorageHeaderBytes;
    var d := Spliced(c, 0, StorageHeaderBytes(|slots|));
    assert d[..STORAGE_HEADER] == StorageHeaderBytes(|slots|);
    hide Spliced;
    forall k: nat | k < |slots| ensures Placed(d, slots, k) {
      assert Placed(c, slots, k);
      SpliceKeepsSlot(c, 0, StorageHeaderBytes(|slots|), Offset(slots, k), slots[k]);
    }
  }

  lemma EmptyImage(b: seq<byte>)
    requires STORAGE_HEADER <= |b| && b[..STORAGE_HEADER] == StorageHeaderBytes(0)
    ensures Laid(b, [])
  {
  }

  /** Invalidating an entry and counting it out is undone by writing over it and counting it in. */
  lemma RewriteLeavesNoTrace(b: seq<byte>, at: nat, dead: seq<byte>, entry: seq<byte>, n: nat)
    requires STORAGE_HEADER <= at && |dead| <= |entry| && at + |entry| <= |b| && 0 < n < 0x1_0000
    requires b[..STORAGE_HEADER] == StorageHeaderBytes(n)
    ensures var c := Spliced(Spliced(b, at, dead), 0, StorageHeaderBytes(n - 1));
      Spliced(Spliced(c, at, entry), 0, StorageHeaderBytes(n)) == Spliced(b, at, entry)
  {
    var h, h' := StorageHeaderBytes(n), StorageHeaderBytes(n - 1);
    var c := Spliced(b, at, dead);
    SplicesCommute(c, 0, h', at, entry);
    SpliceOver(b, at, dead, entry);
    SpliceOver(Spliced(b, at, entry), 0, h', h);
    SplicesCommute(b, 0, h, at, entry);
    SpliceSame(b, 0, STORAGE_HEADER);
  }

  // ----- writing -----

  /** The space check of `write`: the new entry fits wherever it goes. */
  predicate Writable(b: seq<byte>, slots: seq<Slot>, key: Key, data: seq<byte>) {
    && ValidSlot(NewSlot(key, data, 0))
    && |slots| + 1 < 0x1_0000
    && Offset(slots, Find(slots, key, 0)) + ENTRY_HEADER + |key| + |data| <= |b|
    && STORAGE_HEADER <= |b|
  }

  /** The image a write leaves, whether or not the log is still readable afterwards. */
  function WrittenImage(b: seq<byte>, slots: seq<Slot>, key: Key, data: seq<byte>, padding: byte): (c: seq<byte>)
    requires Writable(b, slots, key, data)
    ensures |c| == |b|
  {
    var i := Find(slots, key, 0);
    var c := Spliced(b, Offset(slots, i), SlotBytes(NewSlot(key, data, padding)));
    if i == |slots| then Spliced(c, 0, StorageHeaderBytes(|slots| + 1)) else c
  }

  /** The image between the search loop of a write and the writing of the new entry. */
  ghost predicate Released(b: seq<byte>, c: seq<byte>, slots: seq<Slot>, key: Key, dead: seq<byte>) {
    var i := Find(slots, key, 0);
    if i == |slots| then c == b
    else
      && |dead| == ENTRY_HEADER && Offset(slots, i) + ENTRY_HEADER <= |b| && |slots| < 0x1_0000
      && c == Spliced(Spliced(b, Offset(slots, i), dead), 0, StorageHeaderBytes(|slots| - 1))
  }

  lemma ReleasedHeader(c: seq<byte>, at: nat, s: seq<byte>, n: nat)
    requires STORAGE_HEADER <= at && at + |s| <= |c| && n < 0x1_0000
    requires c[..STORAGE_HEADER] == StorageHeaderBytes(n)
    ensures Spliced(c, at, s)[..STORAGE_HEADER] == StorageHeaderBytes(n)
  {
  }

  lemma ReleasedCount(b: seq<byte>, c: seq<byte>, slots: seq<Slot>, key: Key, dead: seq<byte>)
    requires Laid(b, slots) && Released(b, c, slots, key, dead) && |c| == |b|
    ensures c[..STORAGE_HEADER] == StorageHeaderBytes(if Find(slots, key, 0) < |slots| then |slots| - 1 else |slots|)
  {
  }

  lemma SpaceSuffices(b: seq<byte>, slots: seq<Slot>, key: Key, data: seq<byte>)
    requires Laid(b, slots) && |b| <= EEPROM_STORAGE_MAX_SIZE
    requires WriteCode(|b|, slots, key, data) == RM_E_NONE
    ensures Writable(b, slots, key, data)
  {
    CountFits(b, slots, |slots|);
    OffsetsIncrease(slots, Find(slots, key, 0), |slots|);
  }

  lemma WriteDone(b: seq<byte>, c: seq<byte>, slots: seq<Slot>, key: Key, data: seq<byte>, padding: byte,
      dead: seq<byte>)
    requires Laid(b, slots) && Writable(b, slots, key, data) && Released(b, c, slots, key, dead) && |c| == |b|
    ensures var i := Find(slots, key, 0);
      var d := Spliced(c, Offset(slots, i), SlotBytes(NewSlot(key, data, padding)));
      Spliced(d, 0, StorageHeaderBytes(if i < |slots| then |slots| else |slots| + 1)) ==
      WrittenImage(b, slots, key, data, padding)
  {
    var i := Find(slots, key, 0);
    if i < |slots| {
      RewriteLeavesNoTrace(b, Offset(slots, i), dead, SlotBytes(NewSlot(key, data, padding)), |slots|);
    }
  }

  lemma WrittenImageIsLaid(b: seq<byte>, slots: seq<Slot>, key: Key, data: seq<byte>, padding: byte)
    requires Laid(b, slots) && Distinct(slots) && Writable(b, slots, key, data) && Rewritable(slots, key, data)
    ensures Laid(WrittenImage(b, slots, key, data, padding), WriteLog(slots, key, data, padding))
    ensures Distinct(WriteLog(slots, key, data, padding))
  {
    var i := Find(slots, key, 0);
    WriteChangesOneKey(slots, key, data, padding);
    if i == |slots| {
      ImageAfterAppend(b, slots, NewSlot(key, data, padding));
    } else {
      ImageAfterUpdate(b, slots, i, NewSlot(key, data, padding));
    }
  }

  lemma CountOfHeader(n: nat)
    requires n < 0x1_0000
    ensures DecodeLength(StorageHeaderBytes(n)[6..8]) == n
    ensures forall m :: 0 <= m < 0x1_0000 ==> StorageHeaderBytes(n)[..6] + EncodeLength(m) == StorageHeaderBytes(m)
  {
    assert StorageHeaderBytes(n)[6..8] == EncodeLength(n);
  }

  // ----- defragmentation -----

  /** The image `c` after the first `i` slots of the image `b` of `slots` were compacted. */
  ghost predicate Compacting(b: seq<byte>, c: seq<byte>, slots: seq<Slot>, i: nat, writeAddr: nat, validEntries: nat) {
    && i <= |slots| && Laid(b, slots) && |c| == |b|
    && c[..STORAGE_HEADER] == b[..STORAGE_HEADER]
    && var kept := LiveSlots(slots[..i]);
    && validEntries == |kept| && writeAddr == End(kept) <= Offset(slots, i)
    && SlotsLaid(c, kept)
    && (forall k: nat :: i <= k < |slots| ==> Placed(c, slots, k))
    && (validEntries == i ==> c == b && writeAddr == Offset(slots, i))
  }

  lemma ScanCompacting(b: seq<byte>, c: seq<byte>, slots: seq<Slot>, i: nat, writeAddr: nat, validEntries: nat)
    requires Compacting(b, c, slots, i, writeAddr, validEntries) && i < |slots|
    ensures var at, s := Offset(slots, i), slots[i];
      && at + SlotSize(s) == Offset(slots, i + 1) <= |c|
      && writeAddr <= at
      && var h := c[at..at + ENTRY_HEADER];
      && KeyLength(h) == |s.key| && DataLength(h) == |s.data| && IsLive(h) == s.live
      && Moved(c, at, at, SlotSize(s)) == c
  {
    assert Placed(c, slots, i);
    ReadSlot(c, Offset(slots, i), slots[i]);
  }

  lemma MovedSlot(c: seq<byte>, at: nat, writeAddr: nat, s: Slot)
    requires SlotAt(c, at, s) && writeAddr <= at
    ensures ValidSlot(s) && at + SlotSize(s) <= |c|
    ensures var d := Moved(c, at, writeAddr, SlotSize(s));
      && (if at == writeAddr then d == c else d == Spliced(c, writeAddr, SlotBytes(s)))
      && (STORAGE_HEADER <= writeAddr ==> d[..STORAGE_HEADER] == c[..STORAGE_HEADER])
  {
  }

  lemma CompactionStarts(b: seq<byte>, slots: seq<Slot>)
    requires Laid(b, slots)
    ensures Compacting(b, b, slots, 0, STORAGE_HEADER, 0) && Offset(slots, 0) == STORAGE_HEADER
  {
    assert slots[..0] == [];
  }

  predicate HeaderSays(h: seq<byte>, s: Slot) {
    |h| == ENTRY_HEADER && KeyLength(h) == |s.key| && DataLength(h) == |s.data| && IsLive(h) == s.live
  }

  /** One turn of the loop: what the header says, and the image after the live case and the dead case. */
  lemma CompactionStep(b: seq<byte>, c: seq<byte>, slots: seq<Slot>, i: nat, writeAddr: nat, validEntries: nat)
    requires Compacting(b, c, slots, i, writeAddr, validEntries) && i < |slots|
    ensures var at, s, n := Offset(slots, i), slots[i], SlotSize(slots[i]);
      && at + n == Offset(slots, i + 1) <= |c| && writeAddr <= at
      && HeaderSays(c[at..at + ENTRY_HEADER], s)
      && (at == writeAddr ==> Moved(c, at, writeAddr, n) == c)
      && if s.live then Compacting(b, Moved(c, at, writeAddr, n), slots, i + 1, writeAddr + n, validEntries + 1)
         else Compacting(b, c, slots, i + 1, writeAddr, validEntries)
  {
    hide Compacting, KeyLength, DataLength, IsLive, Moved;
    ScanCompacting(b, c, slots, i, writeAddr, validEntries);
    if slots[i].live {
      KeptSlot(b, c, slots, i, writeAddr, validEntries);
    } else {
      SkippedSlot(b, c, slots, i, writeAddr, validEntries);
    }
  }

  lemma SkippedSlot(b: seq<byte>, c: seq<byte>, slots: seq<Slot>, i: nat, writeAddr: nat, validEntries: nat)
    requires Compacting(b, c, slots, i, writeAddr, validEntries) && i < |slots| && !slots[i].live
    ensures Compacting(b, c, slots, i + 1, writeAddr, validEntries)
  {
    var kept := LiveSlots(slots[..i]);
    assert slots[..i + 1][..i] == slots[..i];
    assert kept + [] == kept;
  }

  /** `c` after the `n` bytes at `at` were moved down to `writeAddr`. */
  function Moved(c: seq<byte>, at: nat, writeAddr: nat, n: nat): (d: seq<byte>)
    requires writeAddr <= at && at + n <= |c|
    ensures |d| == |c|
  {
    if at == writeAddr then c else Spliced(c, writeAddr, c[at..at + n])
  }

  /** The byte a downward copy reads next is still the original one. */
  lemma SpliceOneMore(b: seq<byte>, readAddr: nat, writeAddr: nat, j: nat)
    requires writeAddr < readAddr && readAddr + j < |b|
    ensures var c := Spliced(b, writeAddr, b[readAddr..readAddr + j]);
      && c[readAddr + j] == b[readAddr + j]
      && c[writeAddr + j := b[readAddr + j]] == Spliced(b, writeAddr, b[readAddr..readAddr + j + 1])
  {
  }

  lemma MoveInTwoParts(b: seq<byte>, readAddr: nat, writeAddr: nat, n: nat)
    requires writeAddr < readAddr && readAddr + ENTRY_HEADER + n <= |b|
    ensures var c := Spliced(b, writeAddr, b[readAddr..readAddr + ENTRY_HEADER]);
      var src := readAddr + ENTRY_HEADER;
      Spliced(c, writeAddr + ENTRY_HEADER, c[src..src + n]) == Moved(b, readAddr, writeAddr, ENTRY_HEADER + n)
  {
    var c := Spliced(b, writeAddr, b[readAddr..readAddr + ENTRY_HEADER]);
    var src := readAddr + ENTRY_HEADER;
    hide Spliced;
    SpliceElsewhere(b, writeAddr, b[readAddr..src], src, src + n);
    ConcatSlices(b, readAddr, src, src + n);
    AdjacentSplices(b, writeAddr, b[readAddr..src], b[src..src + n]);
  }

  lemma KeptSlot(b: seq<byte>, c: seq<byte>, slots: seq<Slot>, i: nat, writeAddr: nat, validEntries: nat)
    requires Compacting(b, c, slots, i, writeAddr, validEntries) && i < |slots| && slots[i].live
    ensures var at, n := Offset(slots, i), SlotSize(slots[i]);
      && writeAddr + n <= at + n <= |c|
      && Compacting(b, Moved(c, at, writeAddr, n), slots, i + 1, writeAddr + n, validEntries + 1)
  {
    hide SlotAt, SlotBytes, Spliced, ValidSlot, Moved, Laid, SlotSize;
    var at, s := Offset(slots, i), slots[i];
    assert Placed(c, slots, i);
    MovedSlot(c, at, writeAddr, s);
    var kept := LiveSlots(slots[..i]);
    KeptAppend(slots, i);
    var d := Moved(c, at, writeAddr, SlotSize(s));
    SlotBehindKept(c, d, kept, s);
    SlotsAheadStay(c, d, slots, i, writeAddr);
    hide LiveSlots, Placed, SlotsLaid;
  }

  lemma KeptAppend(slots: seq<Slot>, i: nat)
    requires i < |slots| && slots[i].live
    ensures var kept := LiveSlots(slots[..i]);
      LiveSlots(slots[..i + 1]) == kept + [slots[i]] && End(kept + [slots[i]]) == End(kept) + SlotSize(slots[i])
  {
    var kept := LiveSlots(slots[..i]);
    assert slots[..i + 1][..i] == slots[..i];
    OffsetsAgree(kept, kept + [slots[i]], |kept|);
  }

  lemma SlotBehindKept(c: seq<byte>, d: seq<byte>, kept: seq<Slot>, s: Slot)
    requires SlotsLaid(c, kept) && ValidSlot(s) && End(kept) + SlotSize(s) <= |c|
    requires d == Spliced(c, End(kept), SlotBytes(s)) || (d == c && SlotAt(c, End(kept), s))
    ensures SlotsLaid(d, kept + [s])
  {
    var kept' := kept + [s];
    forall k: nat | k < |kept'| ensures Placed(d, kept', k) {
      OffsetsAgree(kept, kept', k);
      if k < |kept| {
        assert Placed(c, kept, k);
        OffsetsIncrease(kept, k, |kept|);
        SpliceKeepsSlot(c, End(kept), SlotBytes(s), Offset(kept, k), kept[k]);
      } else {
        SplicePlacesSlot(c, End(kept), s);
      }
    }
  }

  lemma SlotsAheadStay(c: seq<byte>, d: seq<byte>, slots: seq<Slot>, i: nat, writeAddr: nat)
    requires i < |slots| && ValidSlot(slots[i]) && writeAddr <= Offset(slots, i)
    requires writeAddr + SlotSize(slots[i]) <= |c|
    requires forall k: nat :: i <= k < |slots| ==> Placed(c, slots, k)
    requires d == c || d == Spliced(c, writeAddr, SlotBytes(slots[i]))
    ensures forall k: nat :: i + 1 <= k < |slots| ==> Placed(d, slots, k)
  {
    hide SlotBytes, Spliced, SlotAt;
    forall k: nat | i + 1 <= k < |slots| ensures Placed(d, slots, k) {
      assert Placed(c, slots, k);
      OffsetsIncrease(slots, i + 1, k);
      SpliceKeepsSlot(c, writeAddr, SlotBytes(slots[i]), Offset(slots, k), slots[k]);
    }
  }

  lemma CompactionDone(b: seq<byte>, c: seq<byte>, slots: seq<Slot>, writeAddr: nat, validEntries: nat)
    requires Compacting(b, c, slots, |slots|, writeAddr, validEntries) && Distinct(slots)
    ensures validEntries < 0x1_0000 && STORAGE_HEADER <= |c| && c[..STORAGE_HEADER] == StorageHeaderBytes(|slots|)
    ensures var d := Spliced(c, 0, StorageHeaderBytes(validEntries));
      && Laid(d, LiveSlots(slots)) && Distinct(LiveSlots(slots))
      && (DeadBytes(slots) == 0 ==> d == b)
  {
    assert slots[..|slots|] == slots;
    assert DeadBytes(slots) == 0 ==> c == b by { NothingToCompact(slots); }
    hide SlotsLaid, LiveSlots, DeadBytes, Spliced, StorageHeaderBytes;
    CompactionKeepsMap(slots);
    RecountedImage(c, LiveSlots(slots));
    NothingToCompact(slots);
    SpliceSame(b, 0, STORAGE_HEADER);
  }

  class EEPROMStorage {
    const buf: array<byte>          // the EEPROM as the library buffers it in RAM
    var committed: seq<byte>        // what survives a loss of power
    var initialized: bool
    ghost var Slots: seq<Slot>
    ghost var CommittedSlots: seq<Slot>

    ghost predicate Valid()
      reads this, buf
    {
      && STORAGE_HEADER <= buf.Length <= EEPROM_STORAGE_MAX_SIZE
      && |committed| == buf.Length
      && Laid(buf[..], Slots) && Distinct(Slots)
      && Laid(committed, CommittedSlots) && Distinct(CommittedSlots)
    }

    ghost function Map(): Store
      reads this
    {
      Contents(Slots)
    }

    /** The bytes a new entry can take up. */
    ghost function Free(): int
      reads this`Slots
    {
      Room(buf.Length, Slots)
    }

    ghost function CommittedMap(): Store
      reads this
    {
      Contents(CommittedSlots)
    }

    /** An initialised store of `size` bytes, cleared and committed. */
    constructor (size: nat)
      requires STORAGE_HEADER <= size <= EEPROM_STORAGE_MAX_SIZE
      ensures Valid() && fresh(buf) && initialized && buf.Length == size
      ensures Map() == map[] && CommittedMap() == map[]
    {
      buf := new byte[size];
      committed := [];
      initialized := true;
      CommittedSlots := [];
      new;
      Erase();
      committed := buf[..];
    }

    // ----- byte access -----

    method ReadBytes(at: nat, n: nat) returns (s: seq<byte>)
      requires at + n <= buf.Length
      ensures s == buf[at..at + n]
    {
      s := [];
      var j := 0;
      while j < n
        invariant 0 <= j <= n && s == buf[at..at + j]
      {
        s := s + [buf[at + j]];
        j := j + 1;
      }
    }

    method WriteBytes(at: nat, s: seq<byte>)
      requires at + |s| <= buf.Length
      modifies buf
      ensures buf[..] == Spliced(old(buf[..]), at, s)
    {
      var j := 0;
      while j < |s|
        invariant 0 <= j <= |s|
        invariant forall k :: 0 <= k < buf.Length ==> buf[k] == if at <= k < at + j then s[k - at] else old(buf[k])
      {
        buf[at + j] := s[j];
        j := j + 1;
      }
    }

    method ReadEntryHeader(at: nat, ghost i: nat) returns (h: seq<byte>)
      requires Valid() && i < |Slots| && at == Offset(Slots, i)
      ensures |h| == ENTRY_HEADER
      ensures KeyLength(h) == |Slots[i].key| && DataLength(h) == |Slots[i].data| && IsLive(h) == Slots[i].live
      ensures at + SlotSize(Slots[i]) == Offset(Slots, i + 1) <= End(Slots) <= buf.Length
      ensures h == buf[at..at + ENTRY_HEADER]
      ensures buf[at + ENTRY_HEADER..at + ENTRY_HEADER + |Slots[i].key|] == Slots[i].key
      ensures buf[at + ENTRY_HEADER + |Slots[i].key|..at + SlotSize(Slots[i])] == Slots[i].data
    {
      hide KeyLength, DataLength, IsLive, SlotAt, Laid;
      ScanSlot(buf[..], Slots, i);
      h := ReadBytes(at, ENTRY_HEADER);
    }

    method ReadNumEntries() returns (n: nat)
      requires Valid()
      ensures n == |Slots|
    {
      var header := ReadBytes(0, STORAGE_HEADER);
      CountOfHeader(|Slots|);
      n := DecodeLength(header[6..8]);
    }

    /** writeStorageHeader after the entry count of the header just read was changed. */
    method WriteNumEntries(n: nat)
      requires STORAGE_HEADER <= buf.Length && n < 0x1_0000
      requires exists m :: 0 <= m < 0x1_0000 && buf[..STORAGE_HEADER] == StorageHeaderBytes(m)
      modifies buf
      ensures buf[..] == Spliced(old(buf[..]), 0, StorageHeaderBytes(n))
    {
      var header := ReadBytes(0, STORAGE_HEADER);
      ghost var m :| 0 <= m < 0x1_0000 && buf[..STORAGE_HEADER] == StorageHeaderBytes(m);
      CountOfHeader(m);
      WriteBytes(0, header[..6] + EncodeLength(n));
    }

    // ----- queries -----

    method GetAvailable() returns (space: nat)
      requires Valid() && initialized
      ensures space == Available(buf.Length, Slots)
    {
      var numEntries := ReadNumEntries();
      var usedSpace, addr := STORAGE_HEADER, STORAGE_HEADER;
      var i := 0;
      while i < numEntries
        invariant 0 <= i <= numEntries
        invariant usedSpace == addr == Offset(Slots, i)
      {
        var h := ReadEntryHeader(addr, i);
        usedSpace := usedSpace + ENTRY_HEADER + KeyLength(h) + DataLength(h);
        addr := addr + ENTRY_HEADER + KeyLength(h) + DataLength(h);
        i := i + 1;
      }
      space := buf.Length - usedSpace;
    }

    /** The search loop shared by `exists`, `remove` and `write`: a live entry for `key`, or the end of the log. */
    method Locate(key: Key) returns (found: bool, addr: nat, h: seq<byte>, ghost i: nat)
      requires Valid()
      ensures i == Find(Slots, key, 0) && addr == Offset(Slots, i) && (found <==> i < |Slots|)
      ensures found ==> addr + ENTRY_HEADER <= buf.Length && h == buf[addr..addr + ENTRY_HEADER]
    {
      hide KeyLength, DataLength, IsLive, Laid, Distinct;
      var numEntries := ReadNumEntries();
      addr, h := STORAGE_HEADER, [];
      var n := 0;
      i := 0;
      while n < numEntries
        invariant 0 <= n <= numEntries && i == n && addr == Offset(Slots, n)
        invariant Find(Slots, key, 0) == Find(Slots, key, n)
      {
        h := ReadEntryHeader(addr, n);
        if IsLive(h) {
          var storedKey := ReadBytes(addr + ENTRY_HEADER, KeyLength(h));
          if storedKey == key {
            return true, addr, h, n;
          }
        }
        addr := addr + ENTRY_HEADER + KeyLength(h) + DataLength(h);
        n := n + 1;
        i := n;
      }
      found := false;
    }

    method Exists(key: Key) returns (found: bool)
      requires Valid()
      ensures found <==> initialized && key != [] && key in Map()
    {
      if !initialized || key == [] {
        return false;
      }
      LookupReadsMap(Slots, key);
      var hit, addr, h, i := Locate(key);
      found := hit;
    }

    /** The search loop of `read`, which compares the key before it looks at the flag. */
    method ReadEntry(key: Key) returns (found: bool, data: seq<byte>)
      requires Valid()
      ensures found <==> Find(Slots, key, 0) < |Slots|
      ensures found ==> data == Slots[Find(Slots, key, 0)].data
    {
      hide KeyLength, DataLength, IsLive, Laid, Distinct;
      var numEntries := ReadNumEntries();
      var addr := STORAGE_HEADER;
      var i := 0;
      while i < numEntries
        invariant 0 <= i <= numEntries && addr == Offset(Slots, i)
        invariant Find(Slots, key, 0) == Find(Slots, key, i)
      {
        var h := ReadEntryHeader(addr, i);
        addr := addr + ENTRY_HEADER;
        var storedKey := ReadBytes(addr, KeyLength(h));
        if storedKey == key && IsLive(h) {
          addr := addr + KeyLength(h);
          data := ReadBytes(addr, DataLength(h));
          return true, data;
        }
        addr := addr + KeyLength(h) + DataLength(h);
        i := i + 1;
      }
      return false, [];
    }

    method Read(key: Key) returns (rc: int, data: seq<byte>)
      requires Valid()
      ensures rc == if !initialized then RM_E_STORAGE_NOT_INIT
                    else if key == [] then RM_E_INVALID_PARAM
                    else if key in Map() then RM_E_NONE else RM_E_STORAGE_KEY_NOT_FOUND
      ensures rc == RM_E_NONE ==> data == Map()[key]
    {
      if !initialized {
        return RM_E_STORAGE_NOT_INIT, [];
      }
      if key == [] {
        return RM_E_INVALID_PARAM, [];
      }
      LookupReadsMap(Slots, key);
      var found, value := ReadEntry(key);
      return if found then RM_E_NONE else RM_E_STORAGE_KEY_NOT_FOUND, value;
    }

    // ----- updates -----

    /** Writes a live entry's header back without its valid flag. */
    method InvalidateEntry(addr: nat, h: seq<byte>, ghost key: Key, ghost i: nat)
      requires Valid() && |h| == ENTRY_HEADER && i < |Slots| && i == Find(Slots, key, 0)
      requires addr == Offset(Slots, i) && addr + ENTRY_HEADER <= buf.Length
      requires h == buf[addr..addr + ENTRY_HEADER]
      modifies `Slots, buf
      ensures Valid() && Slots == RemoveLog(old(Slots), key)
    {
      hide Laid, Find, RemoveLog, Offset, Invalidated, Distinct;
      RemovedImage(buf[..], Slots, key, i);
      WriteBytes(addr, Invalidated(h));
      Slots := RemoveLog(Slots, key);
    }

    method Remove(key: Key) returns (rc: int)
      requires Valid()
      modifies this`Slots, buf
      ensures Valid()
      ensures rc == if !initialized then RM_E_STORAGE_NOT_INIT else RemoveCode(old(Slots), key)
      ensures Slots == if rc == RM_E_NONE then RemoveLog(old(Slots), key) else old(Slots)
      ensures rc != RM_E_NONE ==> buf[..] == old(buf[..])
    {
      if !initialized {
        return RM_E_STORAGE_NOT_INIT;
      }
      if key == [] {
        return RM_E_INVALID_PARAM;
      }
      var found, addr, h, i := Locate(key);
      if !found {
        return RM_E_STORAGE_KEY_NOT_FOUND;
      }
      InvalidateEntry(addr, h, key, i);
      return RM_E_NONE;
    }

    /** Entry header, key and data, one after the other. */
    method WriteEntry(writeAddr: nat, key: Key, data: seq<byte>, padding: byte)
      requires ValidSlot(NewSlot(key, data, padding))
      requires writeAddr + SlotSize(NewSlot(key, data, padding)) <= buf.Length
      modifies buf
      ensures buf[..] == Spliced(old(buf[..]), writeAddr, SlotBytes(NewSlot(key, data, padding)))
    {
      ghost var b := buf[..];
      var newEntry := EncodeLength(|key|) + EncodeLength(|data|) + [ENTRY_VALID_FLAG, padding];
      WriteBytes(writeAddr, newEntry);
      WriteBytes(writeAddr + ENTRY_HEADER, key);
      WriteBytes(writeAddr + ENTRY_HEADER + |key|, data);
      AdjacentSplices(b, writeAddr, newEntry, key);
      AdjacentSplices(b, writeAddr, newEntry + key, data);
    }

    /** The first half of `write`: finds the place, and invalidates and counts out a live entry there. */
    method ReleaseOldEntry(key: Key) returns (writeAddr: nat, numEntries: nat, ghost dead: seq<byte>)
      requires Valid() && initialized
      modifies buf
      ensures Released(old(buf[..]), buf[..], Slots, key, dead)
      ensures writeAddr == Offset(Slots, Find(Slots, key, 0))
      ensures numEntries == if Find(Slots, key, 0) < |Slots| then |Slots| - 1 else |Slots|
    {
      hide Offset, Find, Invalidated, SlotsLaid, Distinct, StorageHeaderBytes, Spliced;
      numEntries := ReadNumEntries();
      var found, addr, h, i := Locate(key);
      dead := [];
      if found {
        dead := Invalidated(h);
        ReleasedHeader(buf[..], addr, dead, numEntries);
        WriteBytes(addr, Invalidated(h));
        numEntries := numEntries - 1;
        WriteNumEntries(numEntries);
      }
      writeAddr := addr;
    }

    /** The rest of `write` once the parameters and the space are checked. */
    method PutEntry(key: Key, data: seq<byte>, padding: byte)
      requires Valid() && initialized && Writable(buf[..], Slots, key, data)
      modifies buf
      ensures buf[..] == WrittenImage(old(buf[..]), Slots, key, data, padding)
    {
      hide Offset, Find, SlotsLaid, Distinct, StorageHeaderBytes, Spliced, SlotBytes, Released;
      ghost var b := buf[..];
      var writeAddr, numEntries, dead := ReleaseOldEntry(key);
      ghost var c, entry := buf[..], SlotBytes(NewSlot(key, data, padding));
      ReleasedCount(b, c, Slots, key, dead);
      ReleasedHeader(c, writeAddr, entry, numEntries);
      WriteDone(b, c, Slots, key, data, padding, dead);
      WriteEntry(writeAddr, key, data, padding);
      ghost var d := buf[..];
      assert d == Spliced(c, writeAddr, entry);
      WriteNumEntries(numEntries + 1);
      assert buf[..] == Spliced(d, 0, StorageHeaderBytes(numEntries + 1));
    }

    /**
     A successful write puts the new entry over the live entry for `key`, or behind the log.
     Only a Rewritable write is sure to leave a readable log.
     */
    method Write(key: Key, data: seq<byte>, padding: byte) returns (rc: int)
      requires Valid()
      modifies `Slots, buf
      ensures rc == if !initialized then RM_E_STORAGE_NOT_INIT else WriteCode(buf.Length, old(Slots), key, data)
      ensures initialized && 0 < |key| <= 255 && 0 < |data| ==>
        rc == if 6 + |key| + |data| <= buf.Length - 8 - SlotBytesTotal(old(Slots)) then RM_E_NONE
              else RM_E_STORAGE_NOT_ENOUGH_SPACE
      ensures rc != RM_E_NONE ==> Valid() && Slots == old(Slots) && buf[..] == old(buf[..])
      ensures rc == RM_E_NONE ==> Writable(old(buf[..]), old(Slots), key, data)
      ensures rc == RM_E_NONE ==> buf[..] == WrittenImage(old(buf[..]), old(Slots), key, data, padding)
      ensures rc == RM_E_NONE && Rewritable(old(Slots), key, data) ==>
        Valid() && Slots == WriteLog(old(Slots), key, data, padding)
    {
      AcceptedIffRoom(buf.Length, Slots, key, data);
      if !initialized {
        return RM_E_STORAGE_NOT_INIT;
      }
      if key == [] || data == [] {
        return RM_E_INVALID_PARAM;
      }
      if |key| > 255 {
        return RM_E_INVALID_LENGTH;
      }
      var space := GetAvailable();
      if space < |key| + |data| + ENTRY_HEADER {
        return RM_E_STORAGE_NOT_ENOUGH_SPACE;
      }
      ghost var b := buf[..];
      SpaceSuffices(b, Slots, key, data);
      PutEntry(key, data, padding);
      if Rewritable(Slots, key, data) {
        WrittenImageIsLaid(b, Slots, key, data, padding);
        Slots := WriteLog(Slots, key, data, padding);
      }
      return RM_E_NONE;
    }

    /** Copies bytes towards lower addresses; source and destination may overlap. */
    method MoveBytes(readAddr: nat, writeAddr: nat, n: nat)
      requires writeAddr < readAddr && readAddr + n <= buf.Length
      modifies buf
      ensures buf[..] == Spliced(old(buf[..]), writeAddr, old(buf[readAddr..readAddr + n]))
    {
      ghost var b := buf[..];
      var j := 0;
      while j < n
        invariant 0 <= j <= n
        invariant buf[..] == Spliced(b, writeAddr, b[readAddr..readAddr + j])
      {
        SpliceOneMore(b, readAddr, writeAddr, j);
        buf[writeAddr + j] := buf[readAddr + j];
        j := j + 1;
      }
    }

    method MoveEntry(readAddr: nat, writeAddr: nat, h: seq<byte>)
      requires |h| == ENTRY_HEADER && writeAddr < readAddr
      requires readAddr + ENTRY_HEADER + KeyLength(h) + DataLength(h) <= buf.Length
      requires h == buf[readAddr..readAddr + ENTRY_HEADER]
      modifies buf
      ensures buf[..] == Moved(old(buf[..]), readAddr, writeAddr, ENTRY_HEADER + KeyLength(h) + DataLength(h))
    {
      hide Spliced, Moved, KeyLength, DataLength;
      ghost var b := buf[..];
      var totalSize := KeyLength(h) + DataLength(h);
      MoveInTwoParts(b, readAddr, writeAddr, totalSize);
      assert h == b[readAddr..readAddr + ENTRY_HEADER];
      WriteBytes(writeAddr, h);
      MoveBytes(readAddr + ENTRY_HEADER, writeAddr + ENTRY_HEADER, totalSize);
    }

    /** One turn of the loop of `defragment`, on the i-th slot of the image `b` of `slots`. */
    method CompactEntry(ghost b: seq<byte>, ghost slots: seq<Slot>, ghost i: nat,
                        readAddr: nat, writeAddr: nat, validEntries: nat)
      returns (nextRead: nat, nextWrite: nat, count: nat)
      requires Compacting(b, buf[..], slots, i, writeAddr, validEntries)
      requires i < |slots| && readAddr == Offset(slots, i)
      modifies buf
      ensures Compacting(b, buf[..], slots, i + 1, nextWrite, count)
      ensures nextRead == Offset(slots, i + 1)
    {
      hide Compacting, KeyLength, DataLength, IsLive, Offset, Moved;
      ghost var c := buf[..];
      CompactionStep(b, c, slots, i, writeAddr, validEntries);
      var h := ReadBytes(readAddr, ENTRY_HEADER);
      assert h == c[readAddr..readAddr + ENTRY_HEADER];
      var n := ENTRY_HEADER + KeyLength(h) + DataLength(h);
      nextRead, nextWrite, count := readAddr + n, writeAddr, validEntries;
      if IsLive(h) {
        if readAddr != writeAddr {
          MoveEntry(readAddr, writeAddr, h);
        }
        assert buf[..] == Moved(c, readAddr, writeAddr, n);
        nextWrite := writeAddr + n;
        count := validEntries + 1;
      }
    }

    /**
     Compaction in one pass: the write position never passes the read position, so copying
     each live slot downwards byte by byte never overwrites a byte still to be read.
     */
    method Defragment() returns (rc: int)
      requires Valid()
      modifies `Slots, buf
      ensures Valid()
      ensures rc == if initialized then RM_E_NONE else RM_E_STORAGE_NOT_INIT
      ensures Slots == if initialized then LiveSlots(old(Slots)) else old(Slots)
      ensures !initialized || DeadBytes(old(Slots)) == 0 ==> buf[..] == old(buf[..])
    {
      if !initialized {
        return RM_E_STORAGE_NOT_INIT;
      }
      ghost var b := buf[..];
      CompactionStarts(b, Slots);
      var numEntries := ReadNumEntries();
      var readAddr: nat, writeAddr: nat, validEntries: nat := STORAGE_HEADER, STORAGE_HEADER, 0;
      var i := 0;
      while i < numEntries
        invariant 0 <= i <= numEntries == |Slots| && Slots == old(Slots)
        invariant readAddr == Offset(Slots, i)
        invariant Compacting(b, buf[..], Slots, i, writeAddr, validEntries)
      {
        readAddr, writeAddr, validEntries := CompactEntry(b, Slots, i, readAddr, writeAddr, validEntries);
        i := i + 1;
      }
      CompactionDone(b, buf[..], Slots, writeAddr, validEntries);
      WriteNumEntries(validEntries);
      Slots := LiveSlots(Slots);
      return RM_E_NONE;
    }

    method Commit(commitOk: bool) returns (rc: int)
      modifies `committed, `CommittedSlots
      ensures rc == if !initialized then RM_E_STORAGE_NOT_INIT
                    else if commitOk then RM_E_NONE else RM_E_STORAGE_WRITE_FAILED
      ensures if rc == RM_E_NONE then committed == buf[..] && CommittedSlots == Slots
              else committed == old(committed) && CommittedSlots == old(CommittedSlots)
    {
      if !initialized {
        return RM_E_STORAGE_NOT_INIT;
      }
      if !commitOk {
        return RM_E_STORAGE_WRITE_FAILED;
      }
      committed := buf[..];
      CommittedSlots := Slots;
      return RM_E_NONE;
    }

    /** A value is either in RAM and committed, in RAM only (the commit failed), or nowhere. */
    method WriteAndCommit(key: Key, data: seq<byte>, padding: byte, commitOk: bool) returns (rc: int)
      requires Valid()
      modifies `Slots, `committed, `CommittedSlots, buf
      ensures var code := WriteCode(buf.Length, old(Slots), key, data);
        rc == if !initialized then RM_E_STORAGE_NOT_INIT
              else if code != RM_E_NONE then code
              else if commitOk then RM_E_NONE else RM_E_STORAGE_WRITE_FAILED
      ensures WriteCode(buf.Length, old(Slots), key, data) != RM_E_NONE || Rewritable(old(Slots), key, data) ==>
        Valid() && Slots == if rc == RM_E_NONE || rc == RM_E_STORAGE_WRITE_FAILED
                            then WriteLog(old(Slots), key, data, padding) else old(Slots)
      ensures CommittedSlots == if rc == RM_E_NONE then Slots else old(CommittedSlots)
    {
      rc := Write(key, data, padding);
      if rc == RM_E_NONE {
        rc := Commit(commitOk);
      }
    }

    /** Loss of power and the next `begin()`, which finds the committed image's header in order. */
    method PowerCycle()
      requires Valid()
      modifies `Slots, `initialized, buf
      ensures Valid() && initialized && buf[..] == committed && Slots == CommittedSlots
    {
      forall k | 0 <= k < buf.Length {
        buf[k] := committed[k];
      }
      assert buf[..] == committed;
      initialized := true;
      Slots := CommittedSlots;
    }

    method Erase()
      requires STORAGE_HEADER <= buf.Length
      modifies `Slots, buf
      ensures Laid(buf[..], Slots) && Slots == []
    {
      var i := 0;
      while i < buf.Length
        modifies buf
        invariant 0 <= i <= buf.Length
      {
        buf[i] := 0xFF;
        i := i + 1;
      }
      WriteBytes(0, StorageHeaderBytes(0));
      assert buf[..STORAGE_HEADER] == StorageHeaderBytes(0);
      Slots := [];
      EmptyImage(buf[..]);
    }

    method Clear(commitOk: bool) returns (rc: int)
      requires Valid()
      modifies `Slots, `committed, `CommittedSlots, buf
      ensures Valid()
      ensures rc == if !initialized then RM_E_STORAGE_NOT_INIT
                    else if commitOk then RM_E_NONE else RM_E_STORAGE_WRITE_FAILED
      ensures Slots == if initialized then [] else old(Slots)
      ensures CommittedSlots == if rc == RM_E_NONE then [] else old(CommittedSlots)
      ensures rc != RM_E_NONE ==> committed == old(committed)
      ensures !initialized ==> buf[..] == old(buf[..])
    {
      if !initialized {
        return RM_E_STORAGE_NOT_INIT;
      }
      Erase();
      rc := Commit(commitOk);
    }
  }

  /** Clearing the valid flag in a header is writing the dead slot over the live one. */
  lemma KilledImage(b: seq<byte>, slots: seq<Slot>, i: nat)
    requires Laid(b, slots) && i < |slots|
    ensures var at := Offset(slots, i);
      && at + ENTRY_HEADER <= |b|
      && var h := b[at..at + ENTRY_HEADER];
      && Laid(Spliced(b, at, Invalidated(h)), slots[i := slots[i].(live := false)])
  {
    hide Laid, SlotBytes, Spliced, EntryHeaderBytes, Offset, Invalidated;
    var at, s := Offset(slots, i), slots[i];
    var dead := s.(live := false);
    ScanSlot(b, slots, i);
    ReadSlot(b, at, s);
    HeaderFields(s);
    ImageAfterUpdate(b, slots, i, dead);
    SpliceSlotOverItself(b, at, s, dead);
  }

  lemma RemovedImage(b: seq<byte>, slots: seq<Slot>, key: Key, i: nat)
    requires Laid(b, slots) && Distinct(slots) && i < |slots| && i == Find(slots, key, 0)
    ensures var at := Offset(slots, i);
      && at + ENTRY_HEADER <= |b|
      && var h := b[at..at + ENTRY_HEADER];
      && Laid(Spliced(b, at, Invalidated(h)), RemoveLog(slots, key))
    ensures Distinct(RemoveLog(slots, key))
  {
    KilledImage(b, slots, i);
    RemoveDropsOneKey(slots, key);
  }

  lemma SpliceSlotOverItself(b: seq<byte>, at: nat, s: Slot, dead: Slot)
    requires SlotAt(b, at, s) && dead == s.(live := false)
    ensures Spliced(b, at, SlotBytes(dead)) == Spliced(b, at, EntryHeaderBytes(dead))
  {
    hide Spliced, EntryHeaderBytes;
    var header, tail := EntryHeaderBytes(dead), s.key + s.data;
    var from, to := at + ENTRY_HEADER, at + SlotSize(s);
    assert SlotBytes(dead) == header + tail;
    assert b[at..to] == EntryHeaderBytes(s) + tail && b[from..to] == b[at..to][ENTRY_HEADER..] == tail;
    AdjacentSplices(b, at, header, tail);
    SpliceElsewhere(b, at, header, from, to);
    SpliceSame(Spliced(b, at, header), from, to - from);
  }
}
