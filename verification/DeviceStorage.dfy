/** What a node keeps over a loss of power: its state, counter and keys, each of one fixed width. */
module DeviceStorage {
  import opened Bytes
  import opened Errors
  import opened Definitions
  import opened AesCrypto
  import opened EepromLayout
  import opened EepromLog
  import opened EepromStorage
  import Utils

  const STATE_KEY: Key := [0x69, 0x73]   // "is", inclusion state
  const CTR_KEY: Key := [0x6D, 0x63]     // "mc", message counter
  const NKEY: Key := [0x6E, 0x6B]        // "nk", network key
  const PRIV_KEY: Key := [0x70, 0x6B]    // "pk", device private key
  const HUB_KEY: Key := [0x68, 0x6B]     // "hk", hub public key
  const KEY_SIZE := 32

  // ----- the specification: two maps, RAM and flash -----

  datatype Memory = Memory(ram: Store, flash: Store)

  /** How a write that is committed at once can go. */
  datatype WriteOutcome = NoRoom | CommitFailed | Committed

  function Stored(m: Memory, key: Key, data: seq<byte>, o: WriteOutcome): Memory {
    match o
    case NoRoom => m
    case CommitFailed => m.(ram := m.ram[key := data])
    case Committed => Memory(m.ram[key := data], m.ram[key := data])
  }

  function OutcomeCode(o: WriteOutcome): int {
    match o
    case NoRoom => RM_E_STORAGE_NOT_ENOUGH_SPACE
    case CommitFailed => RM_E_STORAGE_WRITE_FAILED
    case Committed => RM_E_NONE
  }

  /** How a write of a key and a value of this many bytes together goes: it needs six more for its header. */
  function OutcomeOf(free: int, bytes: nat, commitOk: bool): WriteOutcome {
    if free < 6 + bytes then NoRoom else if commitOk then Committed else CommitFailed
  }

  /** The room after a write: a new key costs its entry, a key already there nothing at equal length. */
  function RoomLeft(free: int, m: Store, key: Key, data: seq<byte>, o: WriteOutcome): int {
    if o == NoRoom then free
    else free - if key in m then |data| - |m[key]| else 6 + |key| + |data|
  }

  /** A write fails only for want of room; it reaches flash exactly if its commit works, and RAM in any case. */
  lemma WriteGoes(m: Memory, free: int, key: Key, data: seq<byte>, commitOk: bool)
    ensures var o := OutcomeOf(free, |key| + |data|, commitOk);
      var after, written := Stored(m, key, data, o), m.ram[key := data];
      && (free < 6 + |key| + |data| ==> o == NoRoom && after == m && RoomLeft(free, m.ram, key, data, o) == free)
      && (free >= 6 + |key| + |data| ==>
            && after == Memory(written, if commitOk then written else m.flash)
            && OutcomeCode(o) == (if commitOk then 0 else -505)
            && RoomLeft(free, m.ram, key, data, o) ==
               free - if key in m.ram then |data| - |m.ram[key]| else 6 + |key| + |data|)
  {
  }

  predicate IsState(data: seq<byte>) {
    |data| == 1 && (data[0] == NOT_INCLUDED.Code() || data[0] == INCLUSION_PENDING.Code() || data[0] == INCLUDED.Code())
  }

  function StateOf(b: byte): DeviceInclusionState {
    if b == INCLUDED.Code() then INCLUDED else if b == INCLUSION_PENDING.Code() then INCLUSION_PENDING else NOT_INCLUDED
  }

  /** Without a stored state a node is not included. */
  function LoadedState(ram: Store): DeviceInclusionState {
    if STATE_KEY in ram && ram[STATE_KEY] != [] then StateOf(ram[STATE_KEY][0]) else NOT_INCLUDED
  }

  /** Every value of a node has the width of its key. */
  predicate Fits(key: Key, data: seq<byte>) {
    && (key == STATE_KEY ==> IsState(data))
    && (key == CTR_KEY ==> |data| == 4)
    && (key == NKEY || key == PRIV_KEY || key == HUB_KEY ==> |data| == KEY_SIZE)
  }

  predicate Shaped(m: Store) {
    forall key :: key in m ==> Fits(key, m[key])
  }

  predicate Owned(key: Key) {
    key == STATE_KEY || key == CTR_KEY || key == NKEY || key == PRIV_KEY || key == HUB_KEY
  }

  lemma StoredStaysShaped(m: Memory, key: Key, data: seq<byte>, o: WriteOutcome)
    requires Shaped(m.ram) && Shaped(m.flash) && Fits(key, data)
    ensures Shaped(Stored(m, key, data, o).ram) && Shaped(Stored(m, key, data, o).flash)
  {
  }

  /** Fixed widths are what the byte layout needs: none of these keys is ever rewritten at another length. */
  lemma FixedWidthIsRewritable(slots: seq<Slot>, key: Key, data: seq<byte>)
    requires Distinct(slots) && Shaped(Contents(slots)) && Owned(key) && Fits(key, data)
    ensures Rewritable(slots, key, data)
  {
    LookupReadsMap(slots, key);
  }

  lemma StateRoundTrip(s: DeviceInclusionState)
    ensures IsState([s.Code()]) && StateOf(s.Code()) == s
  {
  }

  // ----- the code -----

  /** What the EEPROM library does to a write: the byte it pads with and whether the commit works. */
  datatype Eeprom = Eeprom(padding: byte, commitOk: bool)

  lemma FittingWriteCode(size: nat, slots: seq<Slot>, key: Key, data: seq<byte>)
    requires Owned(key) && Fits(key, data)
    ensures WriteCode(size, slots, key, data) ==
            if Room(size, slots) < 6 + |key| + |data| then RM_E_STORAGE_NOT_ENOUGH_SPACE else RM_E_NONE
  {
    AcceptedIffRoom(size, slots, key, data);
    hide Available, SlotBytesTotal;
  }

  class DeviceStorage {
    const storage: EEPROMStorage

    ghost predicate Valid()
      reads storage, storage.buf
    {
      storage.Valid() && storage.initialized && Shaped(storage.Map()) && Shaped(storage.CommittedMap())
    }

    ghost function Free(): int
      reads storage
    {
      storage.Free()
    }

    ghost function Mem(): Memory
      reads storage
    {
      Memory(storage.Map(), storage.CommittedMap())
    }

    constructor (storage: EEPROMStorage)
      requires storage.Valid() && storage.initialized && Shaped(storage.Map()) && Shaped(storage.CommittedMap())
      ensures Valid() && this.storage == storage
    {
      this.storage := storage;
    }

    method WriteAndCommit(key: Key, data: seq<byte>, eeprom: Eeprom) returns (rc: int, ghost o: WriteOutcome)
      requires Valid() && Owned(key) && Fits(key, data)
      modifies storage, storage.buf
      ensures o == NoRoom <==> old(Free()) < 6 + |key| + |data|
      ensures o == Committed <==> old(Free()) >= 6 + |key| + |data| && eeprom.commitOk
      ensures Valid() && rc == OutcomeCode(o) && Mem() == Stored(old(Mem()), key, data, o)
      ensures Free() == RoomLeft(old(Free()), old(Mem()).ram, key, data, o)
    {
      hide WriteLog, Contents, Rewritable, Shaped, Fits, Laid, Distinct, WriteCode, SlotBytesTotal;
      ghost var slots := storage.Slots;
      FixedWidthIsRewritable(slots, key, data);
      WriteChangesOneKey(slots, key, data, eeprom.padding);
      FittingWriteCode(storage.buf.Length, slots, key, data);
      RoomAfterWrite(storage.buf.Length, slots, key, data, eeprom.padding);
      ghost var m := Mem();
      rc := storage.WriteAndCommit(key, data, eeprom.padding, eeprom.commitOk);
      o := if rc == RM_E_NONE then Committed else if rc == RM_E_STORAGE_WRITE_FAILED then CommitFailed else NoRoom;
      StoredStaysShaped(m, key, data, o);
    }

    method PersistState(state: DeviceInclusionState, eeprom: Eeprom) returns (rc: int, ghost o: WriteOutcome)
      requires Valid()
      modifies storage, storage.buf
      ensures o == OutcomeOf(old(Free()), |STATE_KEY| + 1, eeprom.commitOk)
      ensures Valid() && rc == OutcomeCode(o) && Mem() == Stored(old(Mem()), STATE_KEY, [state.Code()], o)
      ensures Free() == RoomLeft(old(Free()), old(Mem()).ram, STATE_KEY, [state.Code()], o)
    {
      StateRoundTrip(state);
      var stateData := [state.Code()];
      rc, o := WriteAndCommit(STATE_KEY, stateData, eeprom);
    }

    method LoadState() returns (rc: int, state: DeviceInclusionState)
      requires Valid()
      ensures rc == RM_E_NONE && state == LoadedState(storage.Map())
    {
      state := NOT_INCLUDED;
      var stateData;
      rc, stateData := storage.Read(STATE_KEY);
      if rc == RM_E_NONE && |stateData| > 0 {
        state := StateOf(stateData[0]);
      } else if rc == RM_E_STORAGE_KEY_NOT_FOUND {
        state := NOT_INCLUDED;
        rc := RM_E_NONE;
      }
    }

    method PersistMessageCounter(counter: u32, eeprom: Eeprom) returns (rc: int, ghost o: WriteOutcome)
      requires Valid()
      modifies storage, storage.buf
      ensures o == OutcomeOf(old(Free()), |CTR_KEY| + 4, eeprom.commitOk)
      ensures Valid() && rc == OutcomeCode(o) && Mem() == Stored(old(Mem()), CTR_KEY, BigEndian(counter), o)
      ensures Free() == RoomLeft(old(Free()), old(Mem()).ram, CTR_KEY, BigEndian(counter), o)
    {
      var bytes := Utils.NumberToBytes(counter);
      rc, o := WriteAndCommit(CTR_KEY, bytes, eeprom);
    }

    /** The stored counter comes back as the number it was. */
    method LoadMessageCounter(counter: u32) returns (rc: int, loaded: u32)
      requires Valid()
      ensures rc == if CTR_KEY in storage.Map() then RM_E_NONE else RM_E_STORAGE_KEY_NOT_FOUND
      ensures if rc == RM_E_NONE then BigEndian(loaded) == storage.Map()[CTR_KEY] else loaded == counter
    {
      loaded := counter;
      var counterData;
      rc, counterData := storage.Read(CTR_KEY);
      if rc == RM_E_NONE && |counterData| == 4 {
        loaded := Utils.BytesToNumber(counterData);
        Utils.NumberRoundTrip(0, counterData);
      }
    }

    method PersistKey(key: Key, data: seq<byte>, eeprom: Eeprom) returns (rc: int, ghost o: WriteOutcome)
      requires Valid() && key in {NKEY, PRIV_KEY, HUB_KEY} && |data| == KEY_SIZE
      modifies storage, storage.buf
      ensures o == OutcomeOf(old(Free()), |key| + KEY_SIZE, eeprom.commitOk)
      ensures Valid() && rc == OutcomeCode(o) && Mem() == Stored(old(Mem()), key, data, o)
      ensures Free() == RoomLeft(old(Free()), old(Mem()).ram, key, data, o)
    {
      rc, o := WriteAndCommit(key, data, eeprom);
    }

    method LoadKey(key: Key) returns (rc: int, data: seq<byte>)
      requires Valid() && key in {NKEY, PRIV_KEY, HUB_KEY}
      ensures rc == if key in storage.Map() then RM_E_NONE else RM_E_STORAGE_KEY_NOT_FOUND
      ensures rc == RM_E_NONE ==> data == storage.Map()[key] && |data| == KEY_SIZE
    {
      rc, data := storage.Read(key);
    }
  }

  // ----- keys -----

  /** A value, or the code it could not be had for. */
  datatype Result<T> = Ok(value: T) | Err(rc: int)

  /** The public key of a private key, as the library computes it. */
  function PublicKeyOf(P: Primitives, privateKey: seq<byte>): Result<seq<byte>> {
    if |privateKey| != KEY_SIZE then Err(RM_E_INVALID_PARAM)
    else if P.publicKey(privateKey).None? then Err(RM_E_CRYPTO_SETUP)
    else Ok(P.publicKey(privateKey).value)
  }

  lemma PublicKeyIs(P: Primitives, privateKey: seq<byte>)
    ensures PublicKeyOf(P, privateKey) ==
            if |privateKey| != 32 then Err(-2)
            else if P.publicKey(privateKey).Some? then Ok(P.publicKey(privateKey).value) else Err(-401)
  {
  }

  class KeyManager {
    const P: Primitives
    const storage: DeviceStorage

    constructor (P: Primitives, storage: DeviceStorage)
      ensures this.P == P && this.storage == storage
    {
      this.P, this.storage := P, storage;
    }

    method DerivePublicKey(privateKey: seq<byte>) returns (rc: int, publicKey: seq<byte>)
      ensures var r := PublicKeyOf(P, privateKey);
        if r.Ok? then rc == RM_E_NONE && publicKey == r.value else rc == r.rc && rc != RM_E_NONE
    {
      if |privateKey| != 32 {
        return RM_E_INVALID_PARAM, [];
      }
      var result := P.publicKey(privateKey);
      if result.None? {
        return RM_E_CRYPTO_SETUP, [];
      }
      return RM_E_NONE, result.value;
    }

    /** Only a key of 32 bytes gets as far as the storage. */
    method Persist(key: Key, data: seq<byte>, eeprom: Eeprom) returns (rc: int, ghost o: WriteOutcome)
      requires storage.Valid() && key in {NKEY, PRIV_KEY, HUB_KEY}
      modifies storage.storage, storage.storage.buf
      ensures storage.Valid() && o == OutcomeOf(old(storage.Free()), |key| + KEY_SIZE, eeprom.commitOk)
      ensures if |data| != KEY_SIZE then rc == RM_E_INVALID_PARAM && storage.Mem() == old(storage.Mem())
              else rc == OutcomeCode(o) && storage.Mem() == Stored(old(storage.Mem()), key, data, o)
      ensures storage.Free() == if |data| != KEY_SIZE then old(storage.Free())
                                else RoomLeft(old(storage.Free()), old(storage.Mem()).ram, key, data, o)
    {
      o := OutcomeOf(storage.Free(), |key| + KEY_SIZE, eeprom.commitOk);
      if |data| != KEY_SIZE {
        return RM_E_INVALID_PARAM, o;
      }
      rc, o := storage.PersistKey(key, data, eeprom);
    }

    method SetNetworkKey(networkKey: seq<byte>, eeprom: Eeprom) returns (rc: int, ghost o: WriteOutcome)
      requires storage.Valid()
      modifies storage.storage, storage.storage.buf
      ensures storage.Valid() && o == OutcomeOf(old(storage.Free()), |NKEY| + KEY_SIZE, eeprom.commitOk)
      ensures if |networkKey| != KEY_SIZE then rc == RM_E_INVALID_PARAM && storage.Mem() == old(storage.Mem())
              else rc == OutcomeCode(o) && storage.Mem() == Stored(old(storage.Mem()), NKEY, networkKey, o)
      ensures storage.Free() == if |networkKey| != KEY_SIZE then old(storage.Free())
                                else RoomLeft(old(storage.Free()), old(storage.Mem()).ram, NKEY, networkKey, o)
    {
      o := OutcomeOf(storage.Free(), |NKEY| + KEY_SIZE, eeprom.commitOk);
      if |networkKey| != KEY_SIZE {
        return RM_E_INVALID_PARAM, o;
      }
      rc, o := Persist(NKEY, networkKey, eeprom);
      if rc != RM_E_NONE {
        return;
      }
      return RM_E_NONE, o;
    }

    method HasNetworkKey() returns (has: bool)
      requires storage.Valid()
      ensures has <==> NKEY in storage.Mem().ram
    {
      var rc, networkKey := storage.LoadKey(NKEY);
      has := rc == RM_E_NONE && |networkKey| == KEY_SIZE;
    }

    /** `random` is what the random source gives; a key already there is kept. */
    method InitializeForHub(random: seq<byte>, eeprom: Eeprom) returns (rc: int, ghost o: WriteOutcome)
      requires storage.Valid() && |random| == KEY_SIZE
      modifies storage.storage, storage.storage.buf
      ensures storage.Valid() && o == OutcomeOf(old(storage.Free()), |NKEY| + KEY_SIZE, eeprom.commitOk)
      ensures if NKEY in old(storage.Mem()).ram then rc == RM_E_NONE && storage.Mem() == old(storage.Mem())
              else rc == OutcomeCode(o) && storage.Mem() == Stored(old(storage.Mem()), NKEY, random, o)
    {
      o := OutcomeOf(storage.Free(), |NKEY| + KEY_SIZE, eeprom.commitOk);
      var has := HasNetworkKey();
      if has {
        return RM_E_NONE, o;
      }
      rc, o := SetNetworkKey(random, eeprom);
    }
  }

  /** A stored state is read by its code, anything else as not included; the keys have five different names. */
  lemma StoredCodes(ram: Store)
    ensures STATE_KEY !in ram ==> LoadedState(ram) == NOT_INCLUDED
    ensures STATE_KEY in ram && |ram[STATE_KEY]| > 0 ==>
      LoadedState(ram) == if ram[STATE_KEY][0] == 3 then INCLUDED
                          else if ram[STATE_KEY][0] == 2 then INCLUSION_PENDING else NOT_INCLUDED
    ensures STATE_KEY == ['i' as byte, 's' as byte] && CTR_KEY == ['m' as byte, 'c' as byte]
    ensures NKEY == ['n' as byte, 'k' as byte] && PRIV_KEY == ['p' as byte, 'k' as byte]
    ensures HUB_KEY == ['h' as byte, 'k' as byte]
  {
  }
}
