/**
 The key/value store as a log of slots, and the finite map the log stands for. Every operation
 of the store is a function on logs here; EepromStorage proves its byte loops against them.
 */
module EepromLog {
  import opened Bytes
  import opened Errors
  import opened EepromLayout

  type Key = seq<byte>
  type Store = map<seq<byte>, seq<byte>>

  predicate Matches(s: Slot, key: Key) {
    s.live && s.key == key
  }

  /** The first live slot for `key` at or after `from`, or |slots| if there is none. */
  function Find(slots: seq<Slot>, key: Key, from: nat): (i: nat)
    requires from <= |slots|
    ensures from <= i <= |slots|
    ensures i < |slots| ==> Matches(slots[i], key)
    ensures forall k :: from <= k < i ==> !Matches(slots[k], key)
    decreases |slots| - from
  {
    if from == |slots| then from
    else if Matches(slots[from], key) then from
    else Find(slots, key, from + 1)
  }

  /** No key is live twice. */
  ghost predicate Distinct(slots: seq<Slot>) {
    forall i, j :: 0 <= i < j < |slots| && slots[i].live && slots[j].live ==> slots[i].key != slots[j].key
  }

  /** The map a log stands for. */
  function Contents(slots: seq<Slot>): Store {
    if slots == [] then map[]
    else
      var m := Contents(slots[..|slots| - 1]);
      var s := slots[|slots| - 1];
      if s.live then m[s.key := s.data] else m
  }

  // ----- the operations on logs -----

  function Available(size: nat, slots: seq<Slot>): int {
    size - End(slots)
  }

  function NewSlot(key: Key, data: seq<byte>, padding: byte): Slot {
    Slot(key, data, true, padding)
  }

  function WriteCode(size: nat, slots: seq<Slot>, key: Key, data: seq<byte>): int {
    if key == [] || data == [] then RM_E_INVALID_PARAM
    else if |key| > 255 then RM_E_INVALID_LENGTH
    else if Available(size, slots) < |key| + |data| + ENTRY_HEADER then RM_E_STORAGE_NOT_ENOUGH_SPACE
    else RM_E_NONE
  }

  /** A live key is rewritten in place; anything else is appended. */
  function WriteLog(slots: seq<Slot>, key: Key, data: seq<byte>, padding: byte): seq<Slot> {
    var i := Find(slots, key, 0);
    if i == |slots| then slots + [NewSlot(key, data, padding)] else slots[i := NewSlot(key, data, padding)]
  }

  /**
   The writes the layout can take: new keys, and live keys whose value keeps its length or
   whose entry is the last one.
   */
  predicate Rewritable(slots: seq<Slot>, key: Key, data: seq<byte>) {
    var i := Find(slots, key, 0);
    i < |slots| ==> |data| == |slots[i].data| || i == |slots| - 1
  }

  function RemoveCode(slots: seq<Slot>, key: Key): int {
    if key == [] then RM_E_INVALID_PARAM
    else if Find(slots, key, 0) == |slots| then RM_E_STORAGE_KEY_NOT_FOUND
    else RM_E_NONE
  }

  function RemoveLog(slots: seq<Slot>, key: Key): seq<Slot> {
    var i := Find(slots, key, 0);
    if i == |slots| then slots else slots[i := slots[i].(live := false)]
  }

  /** What defragmentation keeps: the live slots, in order. */
  function LiveSlots(slots: seq<Slot>): (r: seq<Slot>)
    ensures |r| <= |slots|
  {
    if slots == [] then []
    else
      var s := slots[|slots| - 1];
      LiveSlots(slots[..|slots| - 1]) + if s.live then [s] else []
  }

  function DeadBytes(slots: seq<Slot>): nat {
    if slots == [] then 0
    else
      var s := slots[|slots| - 1];
      DeadBytes(slots[..|slots| - 1]) + if s.live then 0 else SlotSize(s)
  }

  function SlotBytesTotal(slots: seq<Slot>): nat {
    if slots == [] then 0 else SlotBytesTotal(slots[..|slots| - 1]) + SlotSize(slots[|slots| - 1])
  }

  // ----- lookups read the map -----

  lemma {:induction false} LookupReadsMap(slots: seq<Slot>, key: Key)
    requires Distinct(slots)
    ensures key in Contents(slots) <==> Find(slots, key, 0) < |slots|
    ensures Find(slots, key, 0) < |slots| ==> Contents(slots)[key] == slots[Find(slots, key, 0)].data
  {
    if slots != [] {
      var n := |slots| - 1;
      var front := slots[..n];
      LookupReadsMap(front, key);
      FindInFront(slots, key, 0);
    }
  }

  lemma {:induction false} FindInFront(slots: seq<Slot>, key: Key, from: nat)
    requires slots != [] && from <= |slots| - 1
    ensures var front := slots[..|slots| - 1];
      Find(slots, key, from) == if Find(front, key, from) < |front| then Find(front, key, from)
                                else if Matches(slots[|front|], key) then |front| else |slots|
    decreases |slots| - from
  {
    if from < |slots| - 1 && !Matches(slots[from], key) {
      FindInFront(slots, key, from + 1);
    }
  }

  // ----- writes and removals change exactly one key -----

  lemma {:induction false} UpdateChangesOneKey(slots: seq<Slot>, i: nat, s: Slot)
    requires Distinct(slots) && i < |slots| && slots[i].live && s.key == slots[i].key
    ensures Distinct(slots[i := s])
    ensures Contents(slots[i := s]) ==
            if s.live then Contents(slots)[s.key := s.data] else Contents(slots) - {s.key}
    decreases |slots|
  {
    var n := |slots| - 1;
    var front := slots[..n];
    if i < n {
      UpdateChangesOneKey(front, i, s);
      assert slots[i := s][..n] == front[i := s];
    } else {
      assert slots[i := s][..n] == front;
      LookupReadsMap(front, s.key);
    }
  }

  lemma WriteChangesOneKey(slots: seq<Slot>, key: Key, data: seq<byte>, padding: byte)
    requires Distinct(slots)
    ensures Distinct(WriteLog(slots, key, data, padding))
    ensures Contents(WriteLog(slots, key, data, padding)) == Contents(slots)[key := data]
  {
    var i := Find(slots, key, 0);
    if i == |slots| {
      assert (slots + [NewSlot(key, data, padding)])[..|slots|] == slots;
    } else {
      UpdateChangesOneKey(slots, i, NewSlot(key, data, padding));
    }
  }

  lemma RemoveDropsOneKey(slots: seq<Slot>, key: Key)
    requires Distinct(slots)
    ensures Distinct(RemoveLog(slots, key))
    ensures Contents(RemoveLog(slots, key)) == Contents(slots) - {key}
  {
    var i := Find(slots, key, 0);
    LookupReadsMap(slots, key);
    if i < |slots| {
      UpdateChangesOneKey(slots, i, slots[i].(live := false));
    }
  }

  // ----- defragmentation -----

  lemma {:induction false} CompactionKeepsLiveSlots(slots: seq<Slot>)
    ensures forall s :: s in LiveSlots(slots) <==> s in slots && s.live
  {
    if slots != [] {
      CompactionKeepsLiveSlots(slots[..|slots| - 1]);
      assert slots == slots[..|slots| - 1] + [slots[|slots| - 1]];
    }
  }

  /** Every kept slot is one of the log's live slots. */
  lemma {:induction false} KeptIndex(slots: seq<Slot>, k: nat) returns (j: nat)
    requires k < |LiveSlots(slots)|
    ensures j < |slots| && slots[j].live && LiveSlots(slots)[k] == slots[j]
  {
    var n := |slots| - 1;
    if k < |LiveSlots(slots[..n])| {
      j := KeptIndex(slots[..n], k);
    } else {
      j := n;
    }
  }

  lemma {:induction false} CompactionKeepsMap(slots: seq<Slot>)
    requires Distinct(slots)
    ensures Contents(LiveSlots(slots)) == Contents(slots)
    ensures Distinct(LiveSlots(slots))
  {
    hide Contents, LiveSlots, Distinct;
    if slots == [] {
      NothingIsKept();
    } else {
      var front, s := slots[..|slots| - 1], slots[|slots| - 1];
      assert slots == front + [s];
      DistinctFront(front, s);
      CompactionKeepsMap(front);
      ContentsOfAppend(front, s);
      ContentsOfAppend(LiveSlots(front), s);
      KeptOfAppend(front, s);
      KeptStaysDistinct(front, s);
    }
  }

  lemma NothingIsKept()
    ensures LiveSlots([]) == [] && Distinct([])
  {
  }

  lemma DistinctFront(front: seq<Slot>, s: Slot)
    requires Distinct(front + [s])
    ensures Distinct(front)
    ensures s.live ==> forall k :: 0 <= k < |front| && front[k].live ==> front[k].key != s.key
  {
    var slots := front + [s];
    assert forall k :: 0 <= k < |front| ==> slots[k] == front[k];
    assert slots[|front|] == s;
  }

  lemma ContentsOfAppend(front: seq<Slot>, s: Slot)
    ensures Contents(front + [s]) == if s.live then Contents(front)[s.key := s.data] else Contents(front)
  {
    assert (front + [s])[..|front|] == front;
  }

  lemma KeptOfAppend(front: seq<Slot>, s: Slot)
    ensures LiveSlots(front + [s]) == if s.live then LiveSlots(front) + [s] else LiveSlots(front)
  {
    assert (front + [s])[..|front|] == front;
    assert LiveSlots(front) + [] == LiveSlots(front);
  }

  lemma KeptStaysDistinct(front: seq<Slot>, s: Slot)
    requires Distinct(LiveSlots(front)) && Distinct(front + [s])
    ensures s.live ==> Distinct(LiveSlots(front) + [s])
  {
    hide LiveSlots;
    var kept := LiveSlots(front);
    DistinctFront(front, s);
    if s.live {
      forall k | 0 <= k < |kept| ensures kept[k].key != s.key {
        var j := KeptIndex(front, k);
      }
    }
  }

  lemma {:induction false} CompactionFreesDeadBytes(slots: seq<Slot>)
    ensures SlotBytesTotal(LiveSlots(slots)) + DeadBytes(slots) == SlotBytesTotal(slots)
  {
    if slots != [] {
      var front, s := slots[..|slots| - 1], slots[|slots| - 1];
      CompactionFreesDeadBytes(front);
      var kept := LiveSlots(front);
      assert (kept + [s])[..|kept|] == kept;
      assert kept + [] == kept;
    }
  }

  lemma {:induction false} CompactionIsIdempotent(slots: seq<Slot>)
    ensures LiveSlots(LiveSlots(slots)) == LiveSlots(slots)
  {
    if slots != [] {
      var front, s := slots[..|slots| - 1], slots[|slots| - 1];
      CompactionIsIdempotent(front);
      var kept := LiveSlots(front);
      assert (kept + [s])[..|kept|] == kept;
      assert kept + [] == kept;
    }
  }

  /** Compaction of a log without dead slots is the identity. */
  lemma {:induction false} NothingToCompact(slots: seq<Slot>)
    ensures |LiveSlots(slots)| == |slots| ==> LiveSlots(slots) == slots
    ensures DeadBytes(slots) == 0 <==> LiveSlots(slots) == slots
  {
    if slots != [] {
      var n := |slots| - 1;
      NothingToCompact(slots[..n]);
      assert slots == slots[..n] + [slots[n]];
    }
  }

  /** Offsets are the storage header plus the sizes of all slots before, dead ones included. */
  lemma {:induction false} OffsetIsTotal(slots: seq<Slot>, n: nat)
    requires n <= |slots|
    ensures Offset(slots, n) == STORAGE_HEADER + SlotBytesTotal(slots[..n])
  {
    if n > 0 {
      OffsetIsTotal(slots, n - 1);
      assert slots[..n][..n - 1] == slots[..n - 1];
    }
  }

  /** available() is the configured size less the storage header and every slot, live or dead. */
  lemma SpaceIsConserved(size: nat, slots: seq<Slot>)
    ensures Available(size, slots) == size - STORAGE_HEADER - SlotBytesTotal(slots)
  {
    OffsetIsTotal(slots, |slots|);
    assert slots[..|slots|] == slots;
  }

  /** The room a new entry can take up: what no slot, live or dead, uses of the bytes behind the storage header. */
  function Room(size: nat, slots: seq<Slot>): int {
    size - STORAGE_HEADER - SlotBytesTotal(slots)
  }

  /** The space check in full: a well-formed write is accepted if and only if there is room for its entry. */
  lemma AcceptedIffRoom(size: nat, slots: seq<Slot>, key: Key, data: seq<byte>)
    ensures WriteCode(size, slots, key, data) == RM_E_NONE <==>
            0 < |key| <= 255 && 0 < |data| && 6 + |key| + |data| <= size - 8 - SlotBytesTotal(slots)
    ensures 0 < |key| <= 255 && 0 < |data| && 6 + |key| + |data| > size - 8 - SlotBytesTotal(slots) ==>
              WriteCode(size, slots, key, data) == RM_E_STORAGE_NOT_ENOUGH_SPACE
  {
    SpaceIsConserved(size, slots);
  }

  /** What each operation does to the free space. */
  lemma SpaceAfterWrite(size: nat, slots: seq<Slot>, key: Key, data: seq<byte>, padding: byte)
    ensures var i := Find(slots, key, 0);
      Available(size, WriteLog(slots, key, data, padding)) - Available(size, slots) ==
      if i == |slots| then -(ENTRY_HEADER + |key| + |data|) else |slots[i].data| - |data|
  {
    var i := Find(slots, key, 0);
    if i == |slots| {
      OffsetsAgree(slots, slots + [NewSlot(key, data, padding)], |slots|);
    } else {
      EndAfterUpdate(slots, i, NewSlot(key, data, padding), |slots|);
    }
  }

  lemma {:induction false} EndAfterUpdate(slots: seq<Slot>, i: nat, s: Slot, n: nat)
    requires i < n <= |slots|
    ensures Offset(slots[i := s], n) == Offset(slots, n) + SlotSize(s) - SlotSize(slots[i])
  {
    if i == n - 1 {
      OffsetsAgree(slots, slots[i := s], i);
    } else {
      EndAfterUpdate(slots, i, s, n - 1);
    }
  }

  lemma SpaceAfterRemove(size: nat, slots: seq<Slot>, key: Key)
    ensures Available(size, RemoveLog(slots, key)) == Available(size, slots)
  {
    OffsetsAgree(slots, RemoveLog(slots, key), |slots|);
  }

  lemma SpaceAfterDefragment(size: nat, slots: seq<Slot>)
    ensures Available(size, LiveSlots(slots)) == Available(size, slots) + DeadBytes(slots)
  {
    CompactionFreesDeadBytes(slots);
    SpaceIsConserved(size, slots);
    SpaceIsConserved(size, LiveSlots(slots));
  }

  // ----- what each operation does to the room and to the dead bytes -----

  function DeadSize(s: Slot): nat {
    if s.live then 0 else SlotSize(s)
  }

  lemma {:induction false} DeadAfterUpdate(slots: seq<Slot>, i: nat, s: Slot)
    requires i < |slots|
    ensures DeadBytes(slots[i := s]) == DeadBytes(slots) - DeadSize(slots[i]) + DeadSize(s)
    decreases |slots|
  {
    var n := |slots| - 1;
    if i < n {
      DeadAfterUpdate(slots[..n], i, s);
      assert slots[i := s][..n] == slots[..n][i := s];
    } else {
      assert slots[i := s][..n] == slots[..n];
    }
  }

  lemma RoomAfterWrite(size: nat, slots: seq<Slot>, key: Key, data: seq<byte>, padding: byte)
    requires Distinct(slots)
    ensures var m, next := Contents(slots), WriteLog(slots, key, data, padding);
      && Room(size, next) == Room(size, slots) - (if key in m then |data| - |m[key]| else 6 + |key| + |data|)
      && DeadBytes(next) == DeadBytes(slots)
  {
    var i := Find(slots, key, 0);
    LookupReadsMap(slots, key);
    SpaceAfterWrite(size, slots, key, data, padding);
    SpaceIsConserved(size, slots);
    SpaceIsConserved(size, WriteLog(slots, key, data, padding));
    if i < |slots| {
      DeadAfterUpdate(slots, i, NewSlot(key, data, padding));
    } else {
      assert (slots + [NewSlot(key, data, padding)])[..|slots|] == slots;
    }
    hide Contents, SlotBytesTotal, Available, Distinct;
  }

  lemma RoomAfterRemove(size: nat, slots: seq<Slot>, key: Key)
    requires Distinct(slots) && key in Contents(slots)
    ensures Room(size, RemoveLog(slots, key)) == Room(size, slots)
    ensures DeadBytes(RemoveLog(slots, key)) == DeadBytes(slots) + 6 + |key| + |Contents(slots)[key]|
  {
    var i := Find(slots, key, 0);
    LookupReadsMap(slots, key);
    SpaceAfterRemove(size, slots, key);
    SpaceIsConserved(size, slots);
    SpaceIsConserved(size, RemoveLog(slots, key));
    DeadAfterUpdate(slots, i, slots[i].(live := false));
    hide Contents, SlotBytesTotal, Available, Distinct, DeadBytes;
  }

  lemma RoomAfterDefragment(size: nat, slots: seq<Slot>)
    ensures Room(size, LiveSlots(slots)) == Room(size, slots) + DeadBytes(slots)
    ensures DeadBytes(LiveSlots(slots)) == 0
  {
    SpaceAfterDefragment(size, slots);
    SpaceIsConserved(size, slots);
    SpaceIsConserved(size, LiveSlots(slots));
    CompactionIsIdempotent(slots);
    NothingToCompact(LiveSlots(slots));
  }
}
