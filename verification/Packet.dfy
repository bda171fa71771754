/** The packet: its fields, its 35-byte header and the buffer that goes on air. */
module Packet {
  import opened Bytes

  const RM_PROTOCOL_VERSION: byte := 4
  const HEADER_LENGTH := 35
  const MIC_SIZE := 4
  const PACKET_LENGTH := 256
  const MAX_DATA_LENGTH := PACKET_LENGTH - HEADER_LENGTH - MIC_SIZE

  const UNUSED: byte := 0x00
  const INCLUDE_REQUEST: byte := 0x06
  const INCLUDE_RESPONSE: byte := 0x07
  const INCLUDE_OPEN: byte := 0x08
  const INCLUDE_CONFIRM: byte := 0x09
  const INCLUDE_SUCCESS: byte := 0x0A
  const MAX_RESERVED: byte := 0x0F

  const BROADCAST_ADDR: Id := [0xFF, 0xFF, 0xFF, 0xFF]
  const NO_ID: Id := [0, 0, 0, 0]

  type Reserved = s: seq<byte> | |s| == 3 witness [0, 0, 0]

  datatype Packet = Packet(
    protocolVersion: byte, sourceDevId: Id, destDevId: Id, packetId: Id, topic: byte, deviceType: byte,
    hopCount: byte, packetCrc: u32, fcounter: u32, lastHopId: Id, nextHopId: Id, reserved: Reserved,
    packetData: seq<byte>)

  /** A packet nobody has filled in yet. */
  const EMPTY := Packet(RM_PROTOCOL_VERSION, NO_ID, NO_ID, NO_ID, UNUSED, 1, 0, 0, 0, NO_ID, NO_ID, [0, 0, 0], [])

  // ----- serialisation -----

  function HeaderBytes(p: Packet): (h: seq<byte>)
    ensures |h| == HEADER_LENGTH
  {
    [p.protocolVersion] + p.sourceDevId + p.destDevId + p.packetId + [p.topic, p.deviceType, p.hopCount]
    + BigEndian(p.packetCrc) + BigEndian(p.fcounter) + p.lastHopId + p.nextHopId + p.reserved
  }

  function ToBytes(p: Packet): seq<byte> {
    HeaderBytes(p) + p.packetData
  }

  /** Sequential parsing; a buffer shorter than the header is read out of bounds by the code. */
  function Parse(b: seq<byte>): Packet
    requires |b| >= HEADER_LENGTH
  {
    Packet(b[0], b[1..5], b[5..9], b[9..13], b[13], b[14], b[15], FromBigEndian(b[16..20]), FromBigEndian(b[20..24]),
           b[24..28], b[28..32], b[32..35], b[35..])
  }

  /** Where each field lies in the header. */
  lemma HeaderLayout(p: Packet)
    ensures var b := ToBytes(p);
      && |b| == 35 + |p.packetData| && b[0] == p.protocolVersion && b[1..5] == p.sourceDevId
      && b[5..9] == p.destDevId && b[9..13] == p.packetId && b[13] == p.topic && b[14] == p.deviceType
      && b[15] == p.hopCount && b[16..20] == BigEndian(p.packetCrc) && b[20..24] == BigEndian(p.fcounter)
      && b[24..28] == p.lastHopId && b[28..32] == p.nextHopId && b[32..35] == p.reserved && b[35..] == p.packetData
  {
    hide BigEndian;
  }

  lemma ParseOfToBytes(p: Packet)
    ensures Parse(ToBytes(p)) == p
  {
    hide FromBigEndian, BigEndian;
    var b := ToBytes(p);
    assert b[1..5] == p.sourceDevId && b[5..9] == p.destDevId && b[9..13] == p.packetId;
    assert b[16..20] == BigEndian(p.packetCrc) && b[20..24] == BigEndian(p.fcounter);
    assert b[24..28] == p.lastHopId && b[28..32] == p.nextHopId && b[32..35] == p.reserved;
    assert b[35..] == p.packetData;
  }

  lemma ToBytesOfParse(b: seq<byte>)
    requires |b| >= HEADER_LENGTH
    ensures ToBytes(Parse(b)) == b
  {
    BigEndianOfFrom(b[16..20]);
    BigEndianOfFrom(b[20..24]);
    hide FromBigEndian, BigEndian;
    Prefixes(b);
    assert ToBytes(Parse(b)) == b[..35] + b[35..];
  }

  lemma Prefixes(b: seq<byte>)
    requires |b| >= HEADER_LENGTH
    ensures [b[0]] + b[1..5] + b[5..9] + b[9..13] + [b[13], b[14],
      b[15]] + b[16..20] + b[20..24] + b[24..28] + b[28..32]
            + b[32..35] == b[..35]
    ensures b[..35] + b[35..] == b
  {
    assert [b[0]] == b[..1] && [b[13], b[14], b[15]] == b[13..16];
    Prefix(b, 1, 5);
    Prefix(b, 5, 9);
    Prefix(b, 9, 13);
    Prefix(b, 13, 16);
    Prefix(b, 16, 20);
    Prefix(b, 20, 24);
    Prefix(b, 24, 28);
    Prefix(b, 28, 32);
    Prefix(b, 32, 35);
  }

  lemma Prefix(b: seq<byte>, i: nat, j: nat)
    requires i <= j <= |b|
    ensures b[..i] + b[i..j] == b[..j]
  {
  }

  // ----- the MIC at the end of the payload -----

  predicate RequiresMic(topic: byte) {
    topic != INCLUDE_OPEN && topic != INCLUDE_REQUEST
  }

  predicate HasMic(p: Packet) {
    RequiresMic(p.topic) && |p.packetData| >= MIC_SIZE
  }

  function ExtractMic(p: Packet): seq<byte> {
    if HasMic(p) then p.packetData[|p.packetData| - MIC_SIZE..] else []
  }

  function DataWithoutMic(p: Packet): seq<byte> {
    if HasMic(p) then p.packetData[..|p.packetData| - MIC_SIZE] else p.packetData
  }

  /** A MIC of the wrong size, or one that would not fit, is dropped without an error. */
  function WithMic(p: Packet, mic: seq<byte>): Packet {
    if |mic| != MIC_SIZE || |p.packetData| > MAX_DATA_LENGTH then p
    else p.(packetData := p.packetData + mic)
  }

  /** The MIC is the last four bytes of a payload that has so many, on every topic but two. */
  lemma MicIsLastFour(p: Packet)
    ensures HasMic(p) <==> p.topic != 0x08 && p.topic != 0x06 && |p.packetData| >= 4
    ensures HasMic(p) ==>
      DataWithoutMic(p) + ExtractMic(p) == p.packetData && |ExtractMic(p)| == 4
    ensures !HasMic(p) ==> DataWithoutMic(p) == p.packetData && ExtractMic(p) == []
  {
  }

  /** What was appended is what comes off, and the header does not change. */
  lemma MicComesOff(p: Packet, mic: seq<byte>)
    requires |mic| == MIC_SIZE && |p.packetData| <= MAX_DATA_LENGTH && RequiresMic(p.topic)
    ensures var q := WithMic(p, mic);
      HasMic(q) && ExtractMic(q) == mic && DataWithoutMic(q) == p.packetData && HeaderBytes(q) == HeaderBytes(p)
  {
    hide HeaderBytes;
    var q := WithMic(p, mic);
    assert q.packetData[|p.packetData|..] == mic && q.packetData[..|p.packetData|] == p.packetData;
    SameHeader(p, q);
  }

  lemma SameHeader(p: Packet, q: Packet)
    requires q == p.(packetData := q.packetData)
    ensures HeaderBytes(q) == HeaderBytes(p)
  {
  }

  // ----- the code's packet object -----

  class RadioMeshPacket {
    var protocolVersion: byte
    var sourceDevId: Id
    var destDevId: Id
    var packetId: Id
    var topic: byte
    var deviceType: byte
    var hopCount: byte
    var packetCrc: u32
    var fcounter: u32
    var lastHopId: Id
    var nextHopId: Id
    var reserved: Reserved
    var packetData: seq<byte>

    function Fields(): (p: Packet)
      reads this
      ensures p.topic == topic && p.packetId == packetId && p.hopCount == hopCount && p.packetCrc == packetCrc
      ensures p.packetData == packetData
    {
      Packet(protocolVersion, sourceDevId, destDevId, packetId, topic, deviceType, hopCount, packetCrc, fcounter,
             lastHopId, nextHopId, reserved, packetData)
    }

    constructor ()
      ensures Fields() == EMPTY
    {
      protocolVersion := RM_PROTOCOL_VERSION;
      sourceDevId, destDevId, packetId, lastHopId, nextHopId := NO_ID, NO_ID, NO_ID, NO_ID, NO_ID;
      reserved := [0, 0, 0];
      topic, deviceType, hopCount := UNUSED, 1, 0;
      packetCrc, fcounter := 0, 0;
      packetData := [];
    }

    method Reset()
      modifies this
      ensures Fields() == EMPTY
    {
      hide Fields;
      ResetIds();
      protocolVersion := RM_PROTOCOL_VERSION;
      reserved := [0, 0, 0];
      topic, deviceType, hopCount := UNUSED, 1, 0;
      packetCrc, fcounter := 0, 0;
      packetData := [];
      FieldsAreEmpty();
    }

    method ResetIds()
      modifies `sourceDevId, `destDevId, `packetId, `lastHopId, `nextHopId
      ensures sourceDevId == destDevId == packetId == lastHopId == nextHopId == NO_ID
    {
      sourceDevId := NO_ID;
      destDevId := NO_ID;
      packetId := NO_ID;
      lastHopId := NO_ID;
      nextHopId := NO_ID;
    }

    lemma FieldsAreEmpty()
      requires protocolVersion == RM_PROTOCOL_VERSION && reserved == [0, 0, 0]
      requires sourceDevId == destDevId == packetId == lastHopId == nextHopId == NO_ID
      requires topic == UNUSED && deviceType == 1 && hopCount == 0 && packetCrc == fcounter == 0 && packetData == []
      ensures Fields() == EMPTY
    {
    }

    constructor FromBuffer(buffer: seq<byte>)
      requires |buffer| >= HEADER_LENGTH
      ensures Fields() == Parse(buffer)
    {
      protocolVersion := buffer[0];
      sourceDevId, destDevId, packetId := buffer[1..5], buffer[5..9], buffer[9..13];
      topic, deviceType, hopCount := buffer[13], buffer[14], buffer[15];
      packetCrc := FromBigEndian(buffer[16..20]);
      fcounter := FromBigEndian(buffer[20..24]);
      lastHopId, nextHopId, reserved := buffer[24..28], buffer[28..32], buffer[32..35];
      packetData := buffer[35..];
    }

    /** The implicit copy a call by value makes. */
    constructor CopyOf(p: RadioMeshPacket)
      ensures Fields() == p.Fields()
    {
      protocolVersion, sourceDevId, destDevId, packetId := p.protocolVersion, p.sourceDevId, p.destDevId, p.packetId;
      topic, deviceType, hopCount := p.topic, p.deviceType, p.hopCount;
      packetCrc, fcounter := p.packetCrc, p.fcounter;
      lastHopId, nextHopId, reserved, packetData := p.lastHopId, p.nextHopId, p.reserved, p.packetData;
    }

    method AppendMIC(mic: seq<byte>)
      modifies this`packetData
      ensures Fields() == WithMic(old(Fields()), mic)
    {
      if |mic| != MIC_SIZE {
        return;
      }
      if |packetData| + MIC_SIZE > MAX_DATA_LENGTH + MIC_SIZE {
        return;
      }
      packetData := packetData + mic;
    }
  }
}
