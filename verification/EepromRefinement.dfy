/**
 Whole runs of the key/value store, failing commits and losses of power included, against two
 finite maps: what is in RAM and what would survive.
 */
module EepromRefinement {
  import opened Bytes
  import opened Errors
  import opened EepromLayout
  import opened EepromLog
  import opened EepromStorage

  // ----- operations -----

  datatype Op =
    | Write(key: Key, data: seq<byte>, padding: byte)
    | WriteAndCommit(key: Key, data: seq<byte>, padding: byte, commitOk: bool)
    | Remove(key: Key)
    | Clear(commitOk: bool)
    | Defragment
    | Commit(commitOk: bool)
    | PowerCycle
    | Read(key: Key)
    | Exists(key: Key)

  datatype Reply = Code(rc: int) | Data(data: seq<byte>) | Flag(found: bool)

  /** The logs in RAM and in flash. */
  datatype Logs = Logs(ram: seq<Slot>, flash: seq<Slot>)

  predicate Writes(op: Op) {
    op.Write? || op.WriteAndCommit?
  }

  function Committed(l: Logs, commitOk: bool): Logs {
    if commitOk then l.(flash := l.ram) else l
  }

  function CommitCode(commitOk: bool): int {
    if commitOk then RM_E_NONE else RM_E_STORAGE_WRITE_FAILED
  }

  /** The logs after an operation of an initialised store, as the methods of EEPROMStorage leave them. */
  function LogStep(size: nat, l: Logs, op: Op): Logs {
    match op
    case Write(key, data, padding) =>
      if WriteCode(size, l.ram, key, data) == RM_E_NONE then l.(ram := WriteLog(l.ram, key, data, padding)) else l
    case WriteAndCommit(key, data, padding, commitOk) =>
      if WriteCode(size, l.ram, key, data) == RM_E_NONE
      then Committed(l.(ram := WriteLog(l.ram, key, data, padding)), commitOk) else l
    case Remove(key) => if RemoveCode(l.ram, key) == RM_E_NONE then l.(ram := RemoveLog(l.ram, key)) else l
    case Clear(commitOk) => Committed(l.(ram := []), commitOk)
    case Defragment => l.(ram := LiveSlots(l.ram))
    case Commit(commitOk) => Committed(l, commitOk)
    case PowerCycle => l.(ram := l.flash)
    case Read(_) => l
    case Exists(_) => l
  }

  /** What the caller gets back. */
  function LogReply(size: nat, slots: seq<Slot>, op: Op): Reply {
    match op
    case Write(key, data, _) => Code(WriteCode(size, slots, key, data))
    case WriteAndCommit(key, data, _, commitOk) =>
      Code(if WriteCode(size, slots, key, data) == RM_E_NONE then CommitCode(commitOk)
           else WriteCode(size, slots, key, data))
    case Remove(key) => Code(RemoveCode(slots, key))
    case Clear(commitOk) => Code(CommitCode(commitOk))
    case Defragment => Code(RM_E_NONE)
    case Commit(commitOk) => Code(CommitCode(commitOk))
    case PowerCycle => Code(RM_E_NONE)
    case Read(key) =>
      if key == [] then Code(RM_E_INVALID_PARAM)
      else
        var i := Find(slots, key, 0);
        if i == |slots| then Code(RM_E_STORAGE_KEY_NOT_FOUND) else Data(slots[i].data)
    case Exists(key) => Flag(key != [] && Find(slots, key, 0) < |slots|)
  }

  // ----- the specification: two plain finite maps -----

  /** A map, the bytes a new entry can still take up, and those that removed entries keep until compaction. */
  datatype Side = Side(contents: Store, room: int, dead: nat)

  datatype Maps = Maps(ram: Side, flash: Side)

  function SideOf(size: nat, slots: seq<Slot>): Side {
    Side(Contents(slots), Room(size, slots), DeadBytes(slots))
  }

  function Represented(size: nat, l: Logs): Maps {
    Maps(SideOf(size, l.ram), SideOf(size, l.flash))
  }

  function EmptySide(size: nat): Side {
    Side(map[], size - 8, 0)
  }

  /** A new key costs its entry, another value for a key the difference in length. */
  function Put(m: Side, key: Key, data: seq<byte>): Side {
    m.(contents := m.contents[key := data],
       room := m.room - if key in m.contents then |data| - |m.contents[key]| else 6 + |key| + |data|)
  }

  /** A write is refused for its arguments or because there is no room, and for nothing else. */
  predicate AnswersWrite(m: Side, key: Key, data: seq<byte>, reply: Reply, accepted: Reply) {
    reply == if key == [] || data == [] then Code(RM_E_INVALID_PARAM)
             else if |key| > 255 then Code(RM_E_INVALID_LENGTH)
             else if m.room < 6 + |key| + |data| then Code(RM_E_STORAGE_NOT_ENOUGH_SPACE)
             else accepted
  }

  /** What the maps answer: one answer to every operation. */
  predicate Answers(m: Side, op: Op, reply: Reply) {
    match op
    case Write(key, data, _) => AnswersWrite(m, key, data, reply, Code(RM_E_NONE))
    case WriteAndCommit(key, data, _, commitOk) => AnswersWrite(m, key, data, reply, Code(CommitCode(commitOk)))
    case Remove(key) =>
      reply == Code(if key == [] then RM_E_INVALID_PARAM
                    else if key in m.contents then RM_E_NONE else RM_E_STORAGE_KEY_NOT_FOUND)
    case Clear(commitOk) => reply == Code(CommitCode(commitOk))
    case Defragment => reply == Code(RM_E_NONE)
    case Commit(commitOk) => reply == Code(CommitCode(commitOk))
    case PowerCycle => reply == Code(RM_E_NONE)
    case Read(key) =>
      reply == if key == [] then Code(RM_E_INVALID_PARAM)
               else if key in m.contents then Data(m.contents[key]) else Code(RM_E_STORAGE_KEY_NOT_FOUND)
    case Exists(key) => reply == Flag(key != [] && key in m.contents)
  }

  /**
   A successful write or removal changes one key in RAM, clear empties RAM, compaction gains the bytes of
   what was removed; a successful commit makes flash what RAM is, a loss of power RAM what flash is.
   Nothing else changes anything.
   */
  function MapNext(size: nat, m: Maps, op: Op, reply: Reply): Maps {
    match op
    case Write(key, data, _) => if reply == Code(RM_E_NONE) then m.(ram := Put(m.ram, key, data)) else m
    case WriteAndCommit(key, data, _, _) =>
      if reply == Code(RM_E_NONE) then Maps(Put(m.ram, key, data), Put(m.ram, key, data))
      else if reply == Code(RM_E_STORAGE_WRITE_FAILED) then m.(ram := Put(m.ram, key, data)) else m
    case Remove(key) =>
      if reply == Code(RM_E_NONE) && key in m.ram.contents
      then m.(ram := m.ram.(contents := m.ram.contents - {key},
                            dead := m.ram.dead + 6 + |key| + |m.ram.contents[key]|)) else m
    case Clear(_) =>
      if reply == Code(RM_E_NONE) then Maps(EmptySide(size), EmptySide(size)) else m.(ram := EmptySide(size))
    case Defragment => m.(ram := m.ram.(room := m.ram.room + m.ram.dead, dead := 0))
    case Commit(_) => if reply == Code(RM_E_NONE) then m.(flash := m.ram) else m
    case PowerCycle => m.(ram := m.flash)
    case _ => m
  }

  /** A run of the maps with these answers ends in `final`. */
  predicate MapRun(size: nat, m: Maps, ops: seq<Op>, replies: seq<Reply>, final: Maps)
    requires |ops| == |replies|
    decreases |ops|
  {
    if ops == [] then m == final
    else Answers(m.ram, ops[0], replies[0])
         && MapRun(size, MapNext(size, m, ops[0], replies[0]), ops[1..], replies[1..], final)
  }

  // ----- runs of the store -----

  function LogRun(size: nat, l: Logs, ops: seq<Op>): Logs
    decreases |ops|
  {
    if ops == [] then l else LogRun(size, LogStep(size, l, ops[0]), ops[1..])
  }

  function Replies(size: nat, l: Logs, ops: seq<Op>): (r: seq<Reply>)
    ensures |r| == |ops|
    decreases |ops|
  {
    if ops == [] then [] else [LogReply(size, l.ram, ops[0])] + Replies(size, LogStep(size, l, ops[0]), ops[1..])
  }

  ghost predicate Sane(l: Logs) {
    Distinct(l.ram) && Distinct(l.flash)
  }

  lemma StepRefinesMaps(size: nat, l: Logs, op: Op)
    requires Sane(l)
    ensures Sane(LogStep(size, l, op))
    ensures Answers(SideOf(size, l.ram), op, LogReply(size, l.ram, op))
    ensures Represented(size, LogStep(size, l, op)) ==
            MapNext(size, Represented(size, l), op, LogReply(size, l.ram, op))
  {
    hide Find, Contents, Distinct, LiveSlots, WriteLog, RemoveLog, Available, WriteCode, SlotBytesTotal, DeadBytes;
    EmptyLog();
    match op
    case Write(key, data, padding) => WritingRefines(size, l.ram, key, data, padding);
    case WriteAndCommit(key, data, padding, _) => WritingRefines(size, l.ram, key, data, padding);
    case Remove(key) =>
      RemoveDropsOneKey(l.ram, key);
      LookupReadsMap(l.ram, key);
      if key in Contents(l.ram) {
        RoomAfterRemove(size, l.ram, key);
      }
    case Defragment =>
      CompactionKeepsMap(l.ram);
      RoomAfterDefragment(size, l.ram);
    case Read(key) => LookupReadsMap(l.ram, key);
    case Exists(key) => LookupReadsMap(l.ram, key);
    case _ =>
  }

  lemma WritingRefines(size: nat, slots: seq<Slot>, key: Key, data: seq<byte>, padding: byte)
    requires Distinct(slots)
    ensures var next := WriteLog(slots, key, data, padding);
      Distinct(next) && SideOf(size, next) == Put(SideOf(size, slots), key, data)
    ensures var code := WriteCode(size, slots, key, data);
      && AnswersWrite(SideOf(size, slots), key, data, Code(code), Code(RM_E_NONE))
      && code != RM_E_STORAGE_WRITE_FAILED
  {
    hide Contents, Distinct, WriteLog, Available, SlotBytesTotal, DeadBytes, Find;
    WriteChangesOneKey(slots, key, data, padding);
    RoomAfterWrite(size, slots, key, data, padding);
    AcceptedIffRoom(size, slots, key, data);
  }

  lemma EmptyLog()
    ensures Distinct([]) && Contents([]) == map[] && Offset([], 0) == STORAGE_HEADER
    ensures SlotBytesTotal([]) == 0 && DeadBytes([]) == 0
  {
  }

  /** Every run of the store is a run of the two maps that gives the caller the same answers. */
  lemma {:induction false} RunRefinesMaps(size: nat, l: Logs, ops: seq<Op>)
    requires Sane(l)
    ensures MapRun(size, Represented(size, l), ops, Replies(size, l, ops), Represented(size, LogRun(size, l, ops)))
    decreases |ops|
  {
    hide Answers, MapNext, LogStep, LogReply, Represented, Sane;
    if ops != [] {
      StepRefinesMaps(size, l, ops[0]);
      assert Answers(Represented(size, l).ram, ops[0], LogReply(size, l.ram, ops[0])) by { RamIsRepresented(size, l); }
      RunRefinesMaps(size, LogStep(size, l, ops[0]), ops[1..]);
    }
  }

  lemma RamIsRepresented(size: nat, l: Logs)
    ensures Represented(size, l).ram == SideOf(size, l.ram)
  {
  }

  predicate Fit(size: nat, l: Logs) {
    End(l.ram) <= size && End(l.flash) <= size
  }

  /** The logs of every run fit the store: free space never goes negative. */
  lemma {:induction false} RunStaysInBounds(size: nat, l: Logs, ops: seq<Op>)
    requires Fit(size, l) && STORAGE_HEADER <= size
    ensures Fit(size, LogRun(size, l, ops))
    decreases |ops|
  {
    hide Find, Offset, LiveSlots, RemoveLog, WriteLog, LogRun;
    if ops == [] {
      assert LogRun(size, l, []) == l by { RunOfNothing(size, l); }
    } else {
      EmptyLog();
      match ops[0] {
        case Write(key, data, padding) => SpaceAfterWrite(size, l.ram, key, data, padding);
        case WriteAndCommit(key, data, padding, _) => SpaceAfterWrite(size, l.ram, key, data, padding);
        case Remove(key) => SpaceAfterRemove(size, l.ram, key);
        case Defragment => SpaceAfterDefragment(size, l.ram);
        case _ =>
      }
      RunStaysInBounds(size, LogStep(size, l, ops[0]), ops[1..]);
      RunOfSome(size, l, ops);
    }
  }

  lemma RunOfNothing(size: nat, l: Logs)
    ensures LogRun(size, l, []) == l
  {
  }

  lemma RunOfSome(size: nat, l: Logs, ops: seq<Op>)
    requires ops != []
    ensures LogRun(size, l, ops) == LogRun(size, LogStep(size, l, ops[0]), ops[1..])
  {
  }

  /** A write that is not refused is one the layout can take. */
  predicate Takeable(size: nat, slots: seq<Slot>, op: Op) {
    Writes(op) && WriteCode(size, slots, op.key, op.data) == RM_E_NONE ==> Rewritable(slots, op.key, op.data)
  }

  /** Every successful write of the run keeps its value's length or hits the last entry. */
  predicate WritesRewritable(size: nat, l: Logs, ops: seq<Op>)
    decreases |ops|
  {
    ops == [] || (Takeable(size, l.ram, ops[0]) && WritesRewritable(size, LogStep(size, l, ops[0]), ops[1..]))
  }

  lemma UnfoldRun(size: nat, l: Logs, ops: seq<Op>, i: nat)
    requires i < |ops|
    ensures var op, next := ops[i], LogStep(size, l, ops[i]);
      && LogRun(size, l, ops[i..]) == LogRun(size, next, ops[i + 1..])
      && Replies(size, l, ops[i..]) == [LogReply(size, l.ram, op)] + Replies(size, next, ops[i + 1..])
      && (WritesRewritable(size, l, ops[i..]) ==>
            Takeable(size, l.ram, op) && WritesRewritable(size, next, ops[i + 1..]))
  {
    hide LogStep, LogReply, Takeable;
    assert ops[i..][1..] == ops[i + 1..];
  }

  ghost function LogsOf(store: EEPROMStorage): Logs
    reads store
  {
    Logs(store.Slots, store.CommittedSlots)
  }

  /** The two maps a store stands for, with their room. */
  ghost function MapsOf(store: EEPROMStorage): Maps
    reads store
  {
    Represented(store.buf.Length, LogsOf(store))
  }

  method CallWrite(store: EEPROMStorage, op: Op) returns (reply: Reply)
    requires store.Valid() && store.initialized && Writes(op)
    requires Takeable(store.buf.Length, store.Slots, op)
    modifies store, store.buf
    ensures store.Valid() && store.initialized
    ensures reply == LogReply(store.buf.Length, old(store.Slots), op)
    ensures LogsOf(store) == LogStep(store.buf.Length, old(LogsOf(store)), op)
  {
    hide EEPROMStorage.Valid, WriteLog, Rewritable, Available, Find, Contents;
    var rc;
    if op.Write? {
      rc := store.Write(op.key, op.data, op.padding);
    } else {
      rc := store.WriteAndCommit(op.key, op.data, op.padding, op.commitOk);
    }
    reply := Code(rc);
  }

  method CallChange(store: EEPROMStorage, op: Op) returns (reply: Reply)
    requires store.Valid() && store.initialized && (op.Remove? || op.Clear? || op.Defragment?)
    modifies store, store.buf
    ensures store.Valid() && store.initialized
    ensures reply == LogReply(store.buf.Length, old(store.Slots), op)
    ensures LogsOf(store) == LogStep(store.buf.Length, old(LogsOf(store)), op)
  {
    hide EEPROMStorage.Valid, RemoveLog, LiveSlots, RemoveCode;
    var rc;
    match op {
      case Remove(key) => rc := store.Remove(key);
      case Clear(commitOk) => rc := store.Clear(commitOk);
      case Defragment => rc := store.Defragment();
    }
    reply := Code(rc);
  }

  method CallCommit(store: EEPROMStorage, op: Op) returns (reply: Reply)
    requires store.Valid() && store.initialized && (op.Commit? || op.PowerCycle?)
    modifies store, store.buf
    ensures store.Valid() && store.initialized
    ensures reply == LogReply(store.buf.Length, old(store.Slots), op)
    ensures LogsOf(store) == LogStep(store.buf.Length, old(LogsOf(store)), op)
  {
    hide Laid, Distinct, Contents;
    var rc := RM_E_NONE;
    if op.Commit? {
      rc := store.Commit(op.commitOk);
    } else {
      store.PowerCycle();
    }
    reply := Code(rc);
  }

  method CallRead(store: EEPROMStorage, op: Op) returns (reply: Reply)
    requires store.Valid() && store.initialized && (op.Read? || op.Exists?)
    ensures reply == LogReply(store.buf.Length, store.Slots, op)
    ensures LogsOf(store) == LogStep(store.buf.Length, LogsOf(store), op)
  {
    hide Contents, Find;
    LookupReadsMap(store.Slots, op.key);
    if op.Read? {
      var rc, data := store.Read(op.key);
      reply := if rc == RM_E_NONE then Data(data) else Code(rc);
    } else {
      var found := store.Exists(op.key);
      reply := Flag(found);
    }
  }

  /** One call on the store itself, or its loss of power. */
  method Call(store: EEPROMStorage, op: Op) returns (reply: Reply)
    requires store.Valid() && store.initialized
    requires Takeable(store.buf.Length, store.Slots, op)
    modifies store, store.buf
    ensures store.Valid() && store.initialized
    ensures reply == LogReply(store.buf.Length, old(store.Slots), op)
    ensures LogsOf(store) == LogStep(store.buf.Length, old(LogsOf(store)), op)
  {
    hide EEPROMStorage.Valid, LogStep, LogReply, LogsOf, Takeable;
    match op {
      case Write(_, _, _) => reply := CallWrite(store, op);
      case WriteAndCommit(_, _, _, _) => reply := CallWrite(store, op);
      case Read(_) => reply := CallRead(store, op);
      case Exists(_) => reply := CallRead(store, op);
      case Commit(_) => reply := CallCommit(store, op);
      case PowerCycle => reply := CallCommit(store, op);
      case _ => reply := CallChange(store, op);
    }
  }

  /**
   Any sequence of calls on an initialised store, commits that fail and losses of power included,
   is, bytes and all, a run of two finite maps with the same answers, as long as no successful
   write gives a live key a value of another length while its entry is not the last one.
   */
  method Run(store: EEPROMStorage, ops: seq<Op>) returns (replies: seq<Reply>)
    requires store.Valid() && store.initialized
    requires WritesRewritable(store.buf.Length, LogsOf(store), ops)
    modifies store, store.buf
    ensures store.Valid() && |replies| == |ops|
    ensures MapRun(store.buf.Length, old(MapsOf(store)), ops, replies, MapsOf(store))
  {
    hide MapRun, Contents, LogRun, Replies, WritesRewritable, LogStep, LogReply, Takeable, Distinct;
    ghost var size, start := store.buf.Length, LogsOf(store);
    RunRefinesMaps(size, start, ops);
    replies := [];
    var i := 0;
    assert ops[0..] == ops;
    while i < |ops|
      invariant 0 <= i <= |ops| && store.Valid() && store.initialized && size == store.buf.Length
      invariant WritesRewritable(size, LogsOf(store), ops[i..])
      invariant replies + Replies(size, LogsOf(store), ops[i..]) == Replies(size, start, ops)
      invariant LogRun(size, LogsOf(store), ops[i..]) == LogRun(size, start, ops)
    {
      UnfoldRun(size, LogsOf(store), ops, i);
      var reply := Call(store, ops[i]);
      replies := replies + [reply];
      i := i + 1;
    }
    RunOfNothing(size, LogsOf(store));
    assert ops[i..] == [] && replies == Replies(size, start, ops);
  }
}
