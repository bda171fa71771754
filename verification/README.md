# RadioMesh in Dafny

RadioMesh is a LoRa mesh stack. This project models the parts of it that keep state or carry
meaning from node to node, and proves what they promise:

* **the EEPROM key/value store**, byte for byte, down to the overlapping in-place compaction, refined
  to two finite maps with a count of their room, RAM and flash, over runs with failing commits and losses of
  power (`EepromLayout`, `EepromLog`, `EepromStorage`, `EepromRefinement`, `EepromRewrite`);
* **the arithmetic kernels**: AES-CMAC over any block cipher against RFC 4493, CRC32 bit by bit, AES-CTR
  in chunks over any keystream (`AesCmac`, `Crc32`, `AesCrypto`);
* **the bounded tables**: the LRU packet tracker with its list and its map of iterators, and the ten-slot
  routing table with hysteresis (`PacketTracker`, `RoutingTable`);
* **the packet path of a node**: format, key selection, MIC, router and device, as objects
  (`Packet`, `EncryptionService`, `MicService`, `PacketRouter`, `Device`);
* **what follows for a mesh of such nodes**: fail-closed sending, multi-hop transparency, exactly which
  payloads are ciphertext on air, duplicate suppression, the end of every flood (`FailClosed`, `Mesh`,
  `Sealing`, `Duplicates`, `Flood`);
* **the join protocol**: storage, keys and controller of a node (`Utils`, `DeviceStorage`,
  `InclusionController`), then one hub and any number of devices over a medium that loses, duplicates,
  delays and reorders (`InclusionSystem`, `InclusionNonce`, `InclusionSafety`, `InclusionTiming`,
  `InclusionJoin`), the runs that end badly (`InclusionLosses`, `InclusionUnconfirmed`), and the proof that
  every run of a network of stations is a run of that system (`InclusionOnAir`, `InclusionNetwork`).

`dafny verify dfyconfig.toml` checks all of it.

## How it is built

Code that changes things step by step is a class whose methods are proved against functions on values:
`EEPROMStorage` against its log of slots, `PacketTracker` against a recency list, `InclusionController`
against the handlers on a `Node`, `RadioMeshDevice` against `Received` and `Sent` on a `Station`. The
theorems are about those functions, for all inputs and all runs, so they hold of the objects.

The join protocol is a step relation (`InclusionSystem.Step`): the hub enters, leaves, opens, hears, runs,
boots; a device hears, runs, boots, is reset; time passes. No boot and no device's reset is excluded: keys
may fail to be made, a device's reset may fail to commit, and a hub may start with a key that never reached
its flash. Whatever was ever sent may be heard by anyone, at any time, any number of times, or never. Every
write to the EEPROM can find no room, stay in RAM because the commit fails, or be committed; RAM and flash
are two maps. `InclusionNetwork` shows that every run of stations, with their packets, relays and trackers, is a
run of that system, so what is proved of the system holds of the stations.

What the code gets from outside is a parameter: the ciphers (`Primitives`: a block cipher, a keystream,
Curve25519 and SHA-256, with key sizes and commuting shared secrets as the only assumptions, `Sound`), random
bytes, clock readings, the radio's answer, the padding byte the compiler leaves in an entry header, the
outcome of a commit, and the contents of uninitialised memory. A clock reading is the real time modulo 2^32.

A handler of the controller ends by calling `sendData` of its device. Here it returns the message it would
pass (`Action`), and `RadioMeshDevice.Act` passes it on; nothing happens in between.

## Where the code does not do what one might expect

The model follows the code. Where a condition decides, it is proved exactly; the lemma is named, and with it
the one that shows the failure happens.

* Overwriting a live entry that is not the last one is safe for all stores if and only if the length stays
  the same; otherwise a neighbouring key can be lost (`EepromRewrite.SafeIffSameLength`). The keys a node
  stores have fixed widths, so they never run into it (`DeviceStorage.FixedWidthIsRewritable`).
* The layout comment of the store counts 5 bytes per entry header; the code uses `sizeof`, which is 6.
* For the empty message `computeCMAC` takes the K1 branch and differs from RFC 4493 unless the cipher maps
  the zero block to itself (`AesCmac.EmptyIsRfc4493Iff`). No caller passes an empty message.
* A packet whose CRC is 0 is taken as already seen by every node that does not track its id, so it is never
  accepted (`Mesh.AcceptedIffCrcIsNotZero`). For every frame counter and key there are such payloads, of every
  length from 4 bytes up (`Mesh.SomePayloadHasCrcZero`, `Mesh.SomePayloadIsNeverDelivered`).
* A relay decrypts application payloads before it hands a packet to its router, and no others, while the router
  encrypts whatever it is handed; AES-CTR under one key and IV undoes itself. So of the reserved topics that are
  no inclusion messages (0x00 to 0x05, 0x0B to 0x0F) every second transmission carries the payload in the clear,
  under a MIC that verifies (`Sealing.RelayedReservedIsClear`). After n transmissions the payload on air is
  encrypted once if the topic is an application's or n is odd, and as it was sent if not
  (`Sealing.PayloadThroughEveryChain`); it stays ciphertext in every chain if and only if the topic is an
  application's, or the cipher does not change the payload (`Sealing.SealedIffApplicationMessage`).
* A relay puts a packet on air again if and only if its tracker no longer holds the id with the packet's CRC
  (`Duplicates.RelaysIff`). It forgets one by putting another packet with the same id on air, or by
  adding an id while the packet's entry is the last of a full tracker (`Duplicates.ForgetsIff`). Ids do repeat: the
  generator is seeded from eight bits before each id is drawn.
* The radio's reading is narrowed to eight bits on its way to the routing table, which keeps it exactly if it
  fits: -140 becomes +116 (`RoutingTable.NarrowedIsReadingIffItFits`).
* `appendMIC` drops the MIC of an oversized payload without an error (`FailClosed.OversizeLosesItsMic`);
  `sendData` refuses such payloads first.
* The route lookup ignores the active flag, so an expired route comes back only through a better one
  (`RoutingTable.ExpiredRouteReturnsIffBetter`).
* A device that loses power while its flash says pending comes up pending with an idle protocol and stays so
  until a reset commits: it ignores every message and no timeout applies. Whether a device is coupled to its
  protocol depends on the state it last started in and on nothing else (`InclusionTiming.CoupledIffLastStartWas`,
  `InclusionTiming.StuckForever`; it happens: `InclusionLosses.DevicesGetStuck`).
* A controller that cannot make its key pair leaves a device's inclusion state uninitialised, and only then
  (`InclusionController.StateIsLoadedIffKeysAreReady`; it happens:
  `InclusionController.FailedKeyCommitLeavesGarbage`, `InclusionLosses.UncommittedKeyPairGarbles`).
* A reset whose commit fails leaves the storage cleared in RAM and the device in its state. A device that is
  included, or becomes so on the hub's last message, then lacks its network key in RAM; the latter commits the
  loss, so flash lacks the key too and the next boot finds none. What an included device holds is exactly what it
  has not lost so (`InclusionSafety.IncludedDevicesHoldTheKey`; it happens: `InclusionLosses.DevicesLoseKeys`).
* A hub whose network key never reached its flash makes another one at its next boot and leaves the devices
  included so far with the old one; it keeps its key in all runs if and only if flash has it
  (`InclusionSafety.HubKeepsKeyIffFlashed`; it happens: `InclusionLosses.HubsChangeKeys`). A hub that is reset
  hands out its new key but goes on using the old one until it boots (`InclusionLosses.HubResetSplitsKeys`).
* The hub's last message names no device, nonce or session. A device that can join can become included by one
  that was meant for another, while the hub still waits for its confirmation, if and only if such a message under
  the network key is on air already (`InclusionUnconfirmed.UnaskedIffSuccessOnAir`; it happens:
  `InclusionUnconfirmed.DevicesJoinUnconfirmed`).

## Model

| member | source | states |
|---|---|---|
| EepromRefinement.Run | src/hardware/src/storage/eeprom/EEPROMStorage.cpp:74-550 | Any sequence of write, write-and-commit, remove, clear, defragment, commit, read and exists calls and losses of power on an initialised store object, byte buffers and all, commits failing at will, gives the answers of a run of two finite maps with a count of their room, RAM and flash, each of which has one answer to every call, when each write that is not refused and finds its key live keeps the length or hits the last entry; a write is refused for want of room exactly if there is none |
| EepromRefinement.Call | src/hardware/src/storage/eeprom/EEPROMStorage.cpp:74-550 | One call on the store object, or its loss of power, is one step of the logs in RAM and flash, with the log's answer |
| EepromRefinement.RunRefinesMaps | src/hardware/src/storage/eeprom/EEPROMStorage.cpp:74-550 | Every run of the logs is a run of the maps: a well-formed write is accepted exactly if its entry fits the room, and then changes one key and costs its entry or the difference in length; a removal drops one key and its bytes come back with compaction; a successful commit makes flash what RAM is, a loss of power RAM what flash is; reads and exists return the map's contents |
| EepromRefinement.StepRefinesMaps | src/hardware/src/storage/eeprom/EEPROMStorage.cpp:74-550 | Each single operation, with its error codes, refines the maps and keeps live keys distinct |
| EepromRefinement.RunStaysInBounds | src/hardware/src/storage/eeprom/EEPROMStorage.cpp:486-513 | In every run of the logs free space never goes negative and no slot lies outside the configured size |
| EepromRewrite.SafeIffSameLength | src/hardware/src/storage/eeprom/EEPROMStorage.cpp:181-208 | Overwriting a live entry that is not the last changes that key alone, for all stores and contents, if and only if the new value has the old one's length; for every pair of lengths two entries of one store can have |
| EepromRewrite.SecondKeyLost | src/hardware/src/storage/eeprom/EEPROMStorage.cpp:181-208 | For every pair of unequal lengths a concrete store loses a neighbouring key to such an overwrite |
| EepromRewrite.RawReadIsLookup | src/hardware/src/storage/eeprom/EEPROMStorage.cpp:297-350 | Reading the raw bytes of a laid-out image is looking the key up in its map |
| EepromLayout.ImageDeterminesLog | src/hardware/src/storage/eeprom/EEPROMStorage.cpp:25-63 | Two logs with the same byte image are the same log: the layout can be read back |
| EepromLog.WriteChangesOneKey | src/hardware/src/storage/eeprom/EEPROMStorage.cpp:181-227 | A write sets exactly its key in the represented map, and live keys stay distinct |
| EepromLog.RemoveDropsOneKey | src/hardware/src/storage/eeprom/EEPROMStorage.cpp:352-403 | A removal drops exactly its key |
| EepromLog.LookupReadsMap | src/hardware/src/storage/eeprom/EEPROMStorage.cpp:244-350 | The first live entry for a key is the map's value of the key, and there is none if the map has none |
| EepromLog.CompactionKeepsMap | src/hardware/src/storage/eeprom/EEPROMStorage.cpp:405-469 | Compaction leaves the represented map unchanged |
| EepromLog.CompactionKeepsLiveSlots | src/hardware/src/storage/eeprom/EEPROMStorage.cpp:405-469 | Compaction keeps the live entries and only those |
| EepromLog.CompactionIsIdempotent | src/hardware/src/storage/eeprom/EEPROMStorage.cpp:405-469 | Compacting twice is compacting once |
| EepromLog.SpaceAfterDefragment | src/hardware/src/storage/eeprom/EEPROMStorage.cpp:405-469 | Compaction raises the free space by exactly the bytes of the dead entries |
| EepromLog.SpaceIsConserved | src/hardware/src/storage/eeprom/EEPROMStorage.cpp:486-513 | Free space is the size less 8 less, over all slots live and dead, 6 plus key and data length |
| EepromLog.AcceptedIffRoom | src/hardware/src/storage/eeprom/EEPROMStorage.cpp:123-161 | A write is accepted if and only if key and data are well-formed and the entry fits that space |
| EepromLog.RoomAfterWrite | src/hardware/src/storage/eeprom/EEPROMStorage.cpp:123-227 | A new key costs 6 bytes more than key and data, another value for a key the difference in length, and no entry dies |
| EepromLog.RoomAfterRemove | src/hardware/src/storage/eeprom/EEPROMStorage.cpp:352-403 | A removal frees nothing, but its entry's bytes are then dead |
| EepromLog.RoomAfterDefragment | src/hardware/src/storage/eeprom/EEPROMStorage.cpp:405-469 | Compaction turns exactly the dead bytes into room |
| EepromLayout.StorageHeaderLayout | src/hardware/src/storage/eeprom/EEPROMStorage.cpp:25-45 | The storage header byte by byte: RMST, version 1 and the entry count, low bytes first |
| EepromLayout.EntryLayout | src/hardware/src/storage/eeprom/EEPROMStorage.cpp:45-63 | An entry byte by byte: both lengths low byte first, the flag, a padding byte, key and data |
| EepromLog.SpaceAfterWrite | src/hardware/src/storage/eeprom/EEPROMStorage.cpp:123-227 | An append costs exactly the new slot; an overwrite costs the difference in length, which is nothing at equal length |
| EepromLog.SpaceAfterRemove | src/hardware/src/storage/eeprom/EEPROMStorage.cpp:352-403 | A removal leaves the free space unchanged |
| EepromStorage.EEPROMStorage.constructor | src/hardware/src/storage/eeprom/EEPROMStorage.cpp:471-484 | A cleared, committed store of the given size, representing the empty map in RAM and in flash |
| EepromStorage.EEPROMStorage.Write | src/hardware/src/storage/eeprom/EEPROMStorage.cpp:123-227 | A well-formed write on an initialised store is accepted if and only if 6 bytes, key and data fit what size less 8 leaves over all slots; in every case the code and the resulting bytes; when the layout can take the write, the log after it, and on failure not a byte changed |
| EepromStorage.EEPROMStorage.WriteAndCommit | src/hardware/src/storage/eeprom/EEPROMStorage.cpp:229-242 | The value is in RAM and flash, in RAM only if the commit failed, or nowhere, with the code that tells which |
| EepromStorage.EEPROMStorage.Exists | src/hardware/src/storage/eeprom/EEPROMStorage.cpp:244-295 | True exactly for a non-empty key of the represented map of an initialised store |
| EepromStorage.EEPROMStorage.Read | src/hardware/src/storage/eeprom/EEPROMStorage.cpp:297-350 | The map's value of the key, or the code for an uninitialised store, an empty key or an absent one |
| EepromStorage.EEPROMStorage.Remove | src/hardware/src/storage/eeprom/EEPROMStorage.cpp:352-403 | The log without the key, or not a byte changed and the code why |
| EepromStorage.EEPROMStorage.Defragment | src/hardware/src/storage/eeprom/EEPROMStorage.cpp:405-469 | After the overlapping in-place copy the buffer is laid out as exactly the live entries in their order, and nothing moves if nothing is dead |
| EepromStorage.EEPROMStorage.MoveBytes | src/hardware/src/storage/eeprom/EEPROMStorage.cpp:440-445 | The forward byte copy to a lower address moves the bytes even where source and target overlap |
| EepromStorage.EEPROMStorage.CompactEntry | src/hardware/src/storage/eeprom/EEPROMStorage.cpp:425-451 | One turn of the compaction loop keeps the part already compacted, the part still to read, and both addresses in step |
| EepromStorage.EEPROMStorage.Clear | src/hardware/src/storage/eeprom/EEPROMStorage.cpp:471-484 | The empty log, in flash too if the commit works |
| EepromStorage.EEPROMStorage.GetAvailable | src/hardware/src/storage/eeprom/EEPROMStorage.cpp:486-513 | The space computed over all slots, live and dead |
| EepromStorage.EEPROMStorage.Commit | src/hardware/src/storage/eeprom/EEPROMStorage.cpp:539-550 | Flash becomes the buffer, or stays what it was |
| EepromStorage.EEPROMStorage.PowerCycle | src/hardware/src/storage/eeprom/EEPROMStorage.cpp:74-109 | After loss of power and `begin` the store is what was committed last |
| AesCmac.ComputeCMAC | src/core/protocol/src/crypto/cmac/AesCmac.cpp:11-59 | For every non-empty message and every key of 16 or 32 bytes, the MAC of section 2.4 of RFC 4493; for other key sizes nothing |
| AesCmac.NonEmptyIsRfc4493 | src/core/protocol/src/crypto/cmac/AesCmac.cpp:61-72 | The truncated MAC of a non-empty message is that of the RFC, over any block cipher |
| AesCmac.EmptyIsRfc4493Iff | src/core/protocol/src/crypto/cmac/AesCmac.cpp:31-37 | For the empty message, where the code takes the K1 branch, code and RFC agree if and only if the cipher maps the zero block to itself under the key |
| AesCmac.SubkeysAreDoublings | src/core/protocol/src/crypto/cmac/AesCmac.cpp:98-119 | The subkeys are x and x^2 times the cipher's image of zero in GF(2^128), coefficient by coefficient, as section 2.3 of RFC 4493 has it |
| AesCmac.PaddingIsInjective | src/core/protocol/src/crypto/cmac/AesCmac.cpp:150-163 | Different incomplete blocks pad to different blocks |
| AesCmac.MicIs | src/core/protocol/src/crypto/cmac/AesCmac.cpp:61-72 | The MIC is the first four bytes of the RFC's MAC under keys of 16 and 32 bytes, and nothing under other sizes |
| AesCmac.OneBlockMessage | src/core/protocol/src/crypto/cmac/AesCmac.cpp:11-59 | The MAC of a message of one block, complete or not, with every step written out |
| AesCmac.OneMoreBlock | src/core/protocol/src/crypto/cmac/AesCmac.cpp:11-59 | And of one block more |
| AesCmac.GenerateSubkeys | src/core/protocol/src/crypto/cmac/AesCmac.cpp:98-119 | The subkeys of the specification, whichever way the top bits fall |
| AesCmac.LeftShift | src/core/protocol/src/crypto/cmac/AesCmac.cpp:121-133 | Every bit moves up one place across the byte boundaries |
| AesCmac.XorVectors | src/core/protocol/src/crypto/cmac/AesCmac.cpp:135-148 | Bytewise exclusive or of equal lengths, nothing for unequal ones |
| AesCmac.PadData | src/core/protocol/src/crypto/cmac/AesCmac.cpp:150-163 | The message, 0x80, and zeros to the block size |
| AesCmac.ComputeMIC | src/core/protocol/src/crypto/cmac/AesCmac.cpp:61-72 | The first four bytes of the MAC, or nothing without a usable key |
| AesCmac.VerifyMIC | src/core/protocol/src/crypto/cmac/AesCmac.cpp:74-96 | True exactly if the received bytes are the computed MIC, by a comparison that looks at every byte |
| Crc32.CrcDetectsBurst | src/common/utils/RadioMeshCrc32.h:15-87 | Two unequal streams of equal length that differ inside four consecutive bytes only have different checksums |
| Crc32.EveryCrcOccurs | src/common/utils/RadioMeshCrc32.h:15-87 | For every frame counter, every beginning of a payload and every checksum, exactly one ending of four bytes gives the packet that checksum |
| Crc32.CheckValue | src/common/utils/RadioMeshCrc32.h:15-87 | The checksum of frame counter 0x04030201 without payload, computed step by step |
| Crc32.PolynomialIsCrc32 | src/common/utils/RadioMeshCrc32.h:15-31 | The polynomial is that of CRC-32, reflected, power by power |
| Crc32.WindowIsDetected | src/common/utils/RadioMeshCrc32.h:21-53 | The register after such streams differs, from every starting state |
| Crc32.ShiftsAreInjective | src/common/utils/RadioMeshCrc32.h:25-31 | Every number of shift steps is injective on the 32-bit states |
| Crc32.ReflectionsAreInvolutions | src/common/utils/RadioMeshCrc32.h:66-87 | Both reflections undo themselves, so both are bijections |
| Crc32.StreamSplits | src/common/utils/RadioMeshCrc32.h:41-53 | Summing two stretches one after the other is summing their concatenation |
| Crc32.CRC32.UpdateBytes | src/common/utils/RadioMeshCrc32.h:48-53 | The register after the stretch of bytes |
| Crc32.CRC32.Update32 | src/common/utils/RadioMeshCrc32.h:41-45 | The register after the word's four bytes, least significant first |
| Crc32.CRC32.Finalize | src/common/utils/RadioMeshCrc32.h:56-59 | The reflected and inverted register |
| Crc32.Reflect | src/common/utils/RadioMeshCrc32.h:78-87 | The loop over all 32 bits reverses their order |
| PacketTracker.EntrySurvives | src/core/protocol/inc/routing/PacketTracker.h:26-135 | An entry with no explicit removal or clear survives every sequence of operations that touches fewer than capacity distinct other keys since its last use, and keeps its value unless added again |
| PacketTracker.OneMoreKeyEvicts | src/core/protocol/inc/routing/PacketTracker.h:70-83 | The bound is tight: one further key evicts an entry that has become the last of a full list |
| PacketTracker.UseBringsToFront | src/core/protocol/inc/routing/PacketTracker.h:26-31 | An addition or a successful lookup puts the entry first, from where the bound counts |
| PacketTracker.StepKeepsBound | src/core/protocol/inc/routing/PacketTracker.h:70-105 | Every operation keeps the keys distinct and the size within capacity |
| PacketTracker.RemoveDropsOne | src/core/protocol/inc/routing/PacketTracker.h:90-96 | A removal drops one key and keeps the order of the others |
| PacketTracker.PacketTracker.AddEntry | src/core/protocol/inc/routing/PacketTracker.h:70-83 | List and iterator map stay linked and stand for the recency list with the entry first, the last one evicted if full |
| PacketTracker.PacketTracker.FindOrDefault | src/core/protocol/inc/routing/PacketTracker.h:126-135 | The value or the default, and a hit counts as a use |
| PacketTracker.PacketTracker.RemoveEntry | src/core/protocol/inc/routing/PacketTracker.h:90-96 | The list without the key, and its size |
| PacketTracker.PacketTracker.KeyExists | src/core/protocol/inc/routing/PacketTracker.h:113-116 | True exactly for keys of the recency list, without counting as a use |
| PacketTracker.PacketTracker.ClearMap | src/core/protocol/inc/routing/PacketTracker.h:101-105 | The empty list |
| PacketTracker.PacketTracker.constructor | src/core/protocol/inc/routing/PacketTracker.h:39-52 | The empty tracker of the given capacity |
| RoutingTable.RoutingTable.UpdateRoute | src/core/protocol/src/routing/RoutingTable.cpp:22-57 | The slots after a reception, its reading an eight-bit one: untouched near the hop limit, replaced in place only by a better route, or put in an empty slot or the victim; every active slot is a reception heard |
| RoutingTable.RoutingTable.FindNextHop | src/core/protocol/src/routing/RoutingTable.cpp:59-74 | The hop of the active route if it is young; then a packet from that destination came through that hop less than five minutes ago, for every age below 2^32 ms; an old one is switched off |
| RoutingTable.RoutingTable.FindEmptySlot | src/core/protocol/src/routing/RoutingTable.cpp:86-104 | The first inactive slot, else the slot seen longest ago |
| RoutingTable.RoutingTable.Find | src/core/protocol/src/routing/RoutingTable.cpp:76-84 | The first slot for the destination, active or not |
| RoutingTable.RoutingTable.constructor | src/core/protocol/src/routing/RoutingTable.cpp:15-20 | Only the active flags are initialised, whatever memory held |
| RoutingTable.ActiveRoutesAreFound | src/core/protocol/src/routing/RoutingTable.cpp:76-84 | Active routes have distinct destinations and looking one up finds it, whatever the initial slots held |
| RoutingTable.FullTableEvictsOldest | src/core/protocol/src/routing/RoutingTable.cpp:86-104 | Before the clock wraps, a full table gives up a slot with the smallest lastSeen |
| RoutingTable.ExpiredRouteReturnsIffBetter | src/core/protocol/src/routing/RoutingTable.cpp:37-43 | A reception revives an expired route if and only if it is better than the expired entry, because the lookup ignores the active flag |
| RoutingTable.LearnedRouteIsUsed | src/core/protocol/src/routing/RoutingTable.cpp:22-74 | The hop a new source was heard through is the one a lookup within five minutes gives, whatever else is heard and looked up, while the source keeps its slot and nothing better of it is heard |
| RoutingTable.FarSourceIsIgnored | src/core/protocol/src/routing/RoutingTable.cpp:22-27 | A reception from hop six on changes nothing |
| RoutingTable.OldRouteIsNotUsed | src/core/protocol/src/routing/RoutingTable.cpp:59-74 | A lookup gives a hop exactly if the first slot for the destination is active and younger than 300000 ms by the wrapping clock |
| RoutingTable.RetiredIs | src/core/protocol/src/routing/RoutingTable.cpp:59-74 | The lookup that finds a route five minutes old switches it off, and changes nothing else |
| RoutingTable.VictimIs | src/core/protocol/src/routing/RoutingTable.cpp:86-104 | The slot given up: the first free one, or the first of those seen longest ago |
| RoutingTable.BetterIff | src/core/protocol/src/routing/RoutingTable.cpp:106-120 | A route is better exactly with a signal more than 12 stronger, or at most 6 weaker and fewer hops |
| RoutingTable.ReplacementHasReason | src/core/protocol/src/routing/RoutingTable.cpp:106-120 | A replacement is either by signal or by hops, and never both |
| RoutingTable.FlappingIsBounded | src/core/protocol/src/routing/RoutingTable.cpp:22-120 | In every run of receptions and lookups that leaves a destination its slot, a route that leaves a quality and returns to it has R >= 1 replacements by signal and H by hops with 6H >= 13R, and at least four in all |
| RoutingTable.CyclesAreLong | src/core/protocol/src/routing/RoutingTable.cpp:106-120 | The same of the qualities alone, steps that change nothing included |
| RoutingTable.NarrowedIsReadingIffItFits | src/framework/device/src/Device.cpp:360-361 | The reading that reaches the table is the radio's if and only if it fits eight bits; -140 becomes +116 |
| RoutingTable.CycleOfFour | src/core/protocol/src/routing/RoutingTable.cpp:22-120 | Four replacements suffice in a full ten-slot table, whatever its other slots hold, so that bound is exact |
| Packet.ParseOfToBytes | src/core/protocol/inc/packet/Packet.h:114-182 | Parsing what was serialised gives the packet back |
| Packet.ToBytesOfParse | src/core/protocol/inc/packet/Packet.h:114-182 | Serialising what was parsed gives every buffer of at least 35 bytes back |
| Packet.MicComesOff | src/core/protocol/inc/packet/Packet.h:255-303 | An appended MIC comes off again, leaving payload and header as they were, for payloads of at most 217 bytes |
| Packet.HeaderLayout | src/core/protocol/inc/packet/Packet.h:146-182 | Where each field lies in the 35 bytes of the header |
| Packet.MicIsLastFour | src/core/protocol/inc/packet/Packet.h:255-288 | The MIC is the last four bytes of a payload that has so many, on every topic but two |
| Packet.RadioMeshPacket.FromBuffer | src/core/protocol/inc/packet/Packet.h:114-144 | The object holds the parsed fields |
| Packet.RadioMeshPacket.AppendMIC | src/core/protocol/inc/packet/Packet.h:290-303 | The payload grows by the MIC, or silently stays as it is when the MIC has the wrong size or does not fit |
| Packet.RadioMeshPacket.Reset | src/core/protocol/inc/packet/Packet.h:187-203 | Every field is as in an empty packet |
| AesCrypto.CtrMasks | src/core/protocol/src/crypto/aes/AesCrypto.cpp:39-87 | Each byte is masked with the keystream's byte at its position |
| AesCrypto.CtrUndoesItself | src/core/protocol/src/crypto/aes/AesCrypto.cpp:39-87 | Encrypting twice under one key and IV is the identity, over any keystream |
| AesCrypto.AesCrypto.Crypt | src/core/protocol/src/crypto/aes/AesCrypto.cpp:39-62 | The loop over 16-byte chunks is CTR over the whole data, a last partial chunk included |
| AesCrypto.AesCrypto.SetParams | src/core/protocol/src/crypto/aes/AesCrypto.cpp:17-32 | Key and IV of the right sizes are taken; otherwise the old ones stay and the code says so |
| EncryptionService.EncryptionService.Encrypt | src/core/protocol/src/crypto/EncryptionService.cpp:11-51 | The data under the key the topic, role and state select, or the data itself where there is none |
| EncryptionService.EncryptionService.Decrypt | src/core/protocol/src/crypto/EncryptionService.cpp:53-90 | The same for the receiving side, whose keys are selected differently |
| EncryptionService.EncryptionService.EncryptDirectECC | src/core/protocol/src/crypto/EncryptionService.cpp:246-290 | The data under the hash of the shared secret, or in the clear where any input is missing |
| EncryptionService.EncryptionService.DecryptDirectECC | src/core/protocol/src/crypto/EncryptionService.cpp:292-347 | The same under the sender key found, the hub's before the temporary device's |
| EncryptionService.EncryptionService.SetHubPublicKey | src/core/protocol/src/crypto/EncryptionService.cpp:117-126 | Only a key of 32 bytes is taken |
| EncryptionService.KeysByTopic | src/core/protocol/src/crypto/EncryptionService.cpp:139-244 | Which key every topic is sealed and opened with, by role and state |
| EncryptionService.NetworkKeyOpens | src/core/protocol/src/crypto/EncryptionService.cpp:11-90 | What one node seals under the network key another one with that key opens, lengths unchanged |
| EncryptionService.ResponseOpens | src/core/protocol/src/crypto/EncryptionService.cpp:246-347 | Hub and device agree on the response key from each other's public keys, so the response opens at the device |
| MicService.MicKeysByTopic | src/core/protocol/src/crypto/MicService.cpp:131-223 | Which key authenticates every topic, by role and state |
| MicService.OneKeySealsAndAuthenticates | src/core/protocol/src/crypto/MicService.cpp:131-223 | With keys of 32 bytes, hub responses and all topics under the network key use one key for payload and MIC, and have neither or both |
| MicService.MicIffEncrypted | src/core/protocol/src/crypto/MicService.cpp:13-44 | With keys of 32 bytes there is a MIC if and only if encrypt puts the payload it is handed through AES and does not leave it as it is; whether the result is ciphertext is another matter, see Sealing |
| MicService.MicService.ComputePacketMIC | src/core/protocol/src/crypto/MicService.cpp:13-44 | The MIC of header and payload under the topic's key, or nothing |
| MicService.MicService.VerifyPacketMIC | src/core/protocol/src/crypto/MicService.cpp:46-84 | True exactly if no MIC is required or the received one is the MIC of header and payload under the topic's key |
| PacketRouter.PacketRouter.RoutePacket | src/core/protocol/src/routing/PacketRouter.cpp:10-53 | What goes on air and into the tracker for a packet: exactly the specified transmission and its CRC, or nothing and the code why; the route is the one the table gives |
| PacketRouter.PacketRouter.PreparePacket | src/core/protocol/src/routing/PacketRouter.cpp:22-45 | The copy after all header, cipher, CRC and MIC steps is the specified transmission |
| PacketRouter.PacketRouter.ForwardPacket | src/core/protocol/src/routing/PacketRouter.cpp:26-31 | One more hop through this device, towards the looked-up route, reserved bytes cleared |
| PacketRouter.PacketRouter.RouteToNextHop | src/core/protocol/src/routing/PacketRouter.cpp:71-86 | The next hop is the table's for a packet for one station, zero if there is none, untouched for a broadcast |
| PacketRouter.PacketRouter.CalculatePacketCrc | src/core/protocol/src/routing/PacketRouter.cpp:103-120 | The CRC covers the frame counter, low byte first, and the payload as it then is |
| PacketRouter.PacketRouter.ComputeAndAppendMIC | src/core/protocol/src/routing/PacketRouter.cpp:138-164 | The MIC over the header that will be sent, appended, or a refusal where none can be computed |
| PacketRouter.PacketRouter.TrackPacket | src/core/protocol/src/routing/PacketRouter.cpp:132-136 | The id is tracked with the CRC that was sent |
| PacketRouter.PacketRouter.IsPacketFoundInTracker | src/core/protocol/src/routing/PacketRouter.cpp:166-179 | True for an id tracked with this CRC, and for an untracked id whose CRC is 0 |
| PacketRouter.PacketRouter.SendPacket | src/core/protocol/src/routing/PacketRouter.cpp:122-130 | The serialised packet is on air exactly if the radio took it |
| PacketRouter.PacketRouter.constructor | src/core/protocol/inc/routing/PacketRouter.h:65-97 | A router with an empty tracker of 50 entries and nothing on air |
| PacketRouter.TransmissionHeader | src/core/protocol/src/routing/PacketRouter.cpp:22-36 | What goes on air of a packet has one hop more, this station as last hop, and as next hop the one the table gave, zero if it gave none, or for a broadcast the one it had; nothing goes beyond seven hops |
| PacketRouter.RoutedIsTracked | src/core/protocol/src/routing/PacketRouter.cpp:38-52 | A packet the radio takes is on air and tracked with its CRC, whatever its topic and target, and any other leaves no trace |
| FailClosed.SendingFailsClosed | src/core/protocol/src/routing/PacketRouter.cpp:31-52 | For hub responses and every topic under the network key, a packet goes on air if and only if its hop count allows and there is a key, and then with the payload the router was handed encrypted once more, and a MIC under that key over exactly the header and payload on air |
| FailClosed.NoKeyNoTrace | src/core/protocol/src/routing/PacketRouter.cpp:38-52 | Without a key nothing is sent and nothing tracked |
| FailClosed.OversizeLosesItsMic | src/core/protocol/inc/packet/Packet.h:290-303 | Beyond 217 bytes the packet goes out encrypted but without its MIC, the one way past the rule above; sendData refuses such payloads first |
| DeviceStorage.FixedWidthIsRewritable | src/framework/device/inc/DeviceStorage.h:27-90 | Every key of a node has one width, so none of its writes is one the byte layout cannot take |
| DeviceStorage.WriteGoes | src/framework/device/inc/DeviceStorage.h:27-90 | A write fails only for want of room; otherwise the value is in RAM, and in flash exactly if the commit works |
| DeviceStorage.StoredCodes | src/framework/device/inc/DeviceStorage.h:33-44 | A stored code 3 is read as included, 2 as pending, anything else as not included; the five key names |
| DeviceStorage.DeviceStorage.WriteAndCommit | src/framework/device/inc/DeviceStorage.h:27-90 | No room exactly if the free bytes are fewer than 6 plus key and data; otherwise committed exactly if the commit works, and RAM and flash maps, code and room after it accordingly |
| DeviceStorage.DeviceStorage.PersistState | src/framework/device/inc/DeviceStorage.h:27-31 | The state's code is stored as one byte |
| DeviceStorage.DeviceStorage.LoadState | src/framework/device/inc/DeviceStorage.h:33-44 | The stored state, or NOT_INCLUDED where none is stored |
| DeviceStorage.DeviceStorage.PersistMessageCounter | src/framework/device/inc/DeviceStorage.h:46-49 | The counter is stored as four bytes, most significant first |
| DeviceStorage.DeviceStorage.LoadMessageCounter | src/framework/device/inc/DeviceStorage.h:51-59 | The number whose encoding is stored, or the caller's value untouched |
| DeviceStorage.DeviceStorage.PersistKey | src/framework/device/inc/DeviceStorage.h:62-85 | The key is stored under its name |
| DeviceStorage.DeviceStorage.LoadKey | src/framework/device/inc/DeviceStorage.h:67-90 | The stored key, which has 32 bytes, or the code that there is none |
| DeviceStorage.KeyManager.SetNetworkKey | src/framework/device/src/KeyManager.cpp:90-103 | A key of 32 bytes is stored and committed, any other refused with nothing changed |
| DeviceStorage.KeyManager.Persist | src/framework/device/src/KeyManager.cpp:172-204 | The same for all three kinds of key |
| DeviceStorage.KeyManager.InitializeForHub | src/framework/device/src/KeyManager.cpp:221-244 | A key already there is kept; otherwise a new one is stored |
| DeviceStorage.KeyManager.HasNetworkKey | src/framework/device/src/KeyManager.cpp:246-251 | True exactly if a network key is stored |
| DeviceStorage.KeyManager.DerivePublicKey | src/framework/device/src/KeyManager.cpp:57-72 | The public key, or the code for a wrong size or a failed derivation |
| Utils.NumberToBytes | src/common/utils/Utils.h:118-126 | The loop writes the number's bytes, most significant first |
| Utils.BytesToNumber | src/common/utils/Utils.h:133-142 | The loop reads the first four bytes, or all if fewer, as one number |
| Utils.NumberRoundTrip | src/common/utils/Utils.h:118-142 | Both conversions undo each other, for all 2^32 values |
| Utils.ConfirmationNamesNonce | src/framework/device/src/InclusionController.cpp:382-396 | An incremented nonce confirms one nonce only, wrap from 0xFFFFFFFF to 0 included |
| InclusionController.StateIsLoadedIffKeysAreReady | src/framework/device/src/InclusionController.cpp:6-59 | A device comes up in its stored state whatever memory held, if and only if its private key is there or could be committed and its public key derived |
| InclusionController.FailedKeyCommitLeavesGarbage | src/framework/device/src/InclusionController.cpp:6-97 | On an empty storage whose first commit fails, the device comes up in whatever state memory held |
| InclusionController.IncludedIgnoresMessages | src/framework/device/src/InclusionController.cpp:415-529 | An included device takes no notice of any inclusion message |
| InclusionController.OpenStartsJoinIff | src/framework/device/src/InclusionController.cpp:415-449 | INCLUDE_OPEN starts a join exactly at a free idle device with a 32-byte key, and what that changes |
| InclusionController.ResponseIsTakenIff | src/framework/device/src/InclusionController.cpp:451-498 | A response is taken exactly by a device waiting for it, and confirmed only if the key is committed |
| InclusionController.SuccessIncludesIff | src/framework/device/src/InclusionController.cpp:501-529 | The last message includes exactly a device waiting for it |
| InclusionController.RequestIsAnsweredIff | src/framework/device/src/InclusionController.cpp:255-318 | A request is answered exactly by a hub in inclusion mode waiting for one, with its stored key and a new nonce |
| InclusionController.ConfirmEndsSessionIff | src/framework/device/src/InclusionController.cpp:380-408 | A confirmation ends the session exactly at a hub waiting for it, if it names the nonce plus one |
| InclusionController.OthersAreIgnored | src/framework/device/src/InclusionController.cpp:357-540 | All other messages are ignored |
| InclusionController.GivesUpIff | src/framework/device/src/InclusionController.cpp:554-596 | A node gives up exactly after more than 60000 ms in a state by the wrapping clock |
| InclusionController.ModeIsSwitched | src/framework/device/src/InclusionController.cpp:179-202 | Inclusion mode is on after entering and off after leaving, which ends the session; only a hub can do either |
| InclusionController.HubOpensIff | src/framework/device/src/InclusionController.cpp:204-224 | The hub calls for requests exactly in inclusion mode |
| InclusionController.StartLeaves | src/framework/device/src/InclusionController.cpp:6-97 | A start leaves an idle node and its storage as it was but for keys that were missing |
| InclusionController.BirthIs | src/framework/device/src/InclusionController.cpp:6-97 | How the start's two writes go, by the room and the commits |
| InclusionController.ConfigureLoads | src/framework/device/src/Device.cpp:544-560 | The network key is loaded exactly for a hub or an included device that has one stored |
| InclusionController.InclusionController.constructor | src/framework/device/src/InclusionController.cpp:6-59 | The node as its flash and its surroundings make it: keys loaded or made, their writes going as the room and the commits decide, a hub included with a network key, a device in its stored state |
| InclusionController.InclusionController.InitializeKeys | src/framework/device/src/InclusionController.cpp:61-97 | The private key is there and its public key derivable, or the code why not |
| InclusionController.InclusionController.HandleInclusionMessage | src/framework/device/src/InclusionController.cpp:357-540 | For every message, state and role, the whole new node, memory and keys included, and the message or code it ends with, as the step function says |
| InclusionController.InclusionController.HandleOpen | src/framework/device/src/InclusionController.cpp:415-449 | A device that is not included and idle takes the hub's key, becomes pending, stores that as far as room and commit allow, and asks to join; any other changes nothing |
| InclusionController.InclusionController.HandleResponse | src/framework/device/src/InclusionController.cpp:451-498 | A waiting device stores the network key and confirms the nonce plus one, and goes on only if the key is committed |
| InclusionController.InclusionController.HandleSuccess | src/framework/device/src/InclusionController.cpp:501-529 | A device waiting for it becomes included, stores that, and applies the stored key |
| InclusionController.InclusionController.HandleRequest | src/framework/device/src/InclusionController.cpp:366-378 | A hub that waits for a request moves on and responds; any other refuses |
| InclusionController.InclusionController.HandleConfirm | src/framework/device/src/InclusionController.cpp:380-408 | A hub that waits for it accepts exactly the nonce plus one and ends the session |
| InclusionController.InclusionController.SendInclusionResponse | src/framework/device/src/InclusionController.cpp:255-318 | The response carries the stored network key and a fresh nonce, sealed for the key in the request |
| InclusionController.InclusionController.SendInclusionConfirm | src/framework/device/src/InclusionController.cpp:320-343 | The confirmation is the encoding of the nonce plus one |
| InclusionController.InclusionController.SendInclusionOpen | src/framework/device/src/InclusionController.cpp:204-224 | In inclusion mode the hub starts waiting and broadcasts its public key |
| InclusionController.InclusionController.TransitionToState | src/framework/device/src/InclusionController.cpp:542-552 | The state's clock starts on entry only |
| InclusionController.InclusionController.CheckProtocolTimeouts | src/framework/device/src/InclusionController.cpp:554-596 | Nothing before 60000 ms by the wrapping clock; after that inclusion mode off, protocol idle, a pending device not included and that stored |
| InclusionController.InclusionController.ResetProtocolState | src/framework/device/src/InclusionController.cpp:576-588 | The protocol is idle and a pending device is not included, in storage too if the write goes through |
| InclusionController.InclusionController.EnterInclusionMode | src/framework/device/src/InclusionController.cpp:179-189 | Only a hub can enter |
| InclusionController.InclusionController.ExitInclusionMode | src/framework/device/src/InclusionController.cpp:191-202 | Only a hub can leave, which resets its protocol |
| InclusionController.InclusionController.CanSendMessage | src/framework/device/src/InclusionController.cpp:158-172 | A hub may send anything, an included device too, another device four of the five inclusion topics |
| InclusionController.InclusionController.LoadAndApplyNetworkKey | src/framework/device/src/InclusionController.cpp:616-645 | A hub or an included device loads the stored key into its encryption service and its AES instance; the code that there is none, or that it is neither |
| InclusionController.InclusionController.Configure | src/framework/device/src/Device.cpp:544-560 | At start-up the device keys and, for a hub or an included device, the network key are loaded |
| InclusionController.InclusionController.GenerateNonce | src/framework/device/inc/InclusionController.h:186-194 | The nonce is the four random bytes drawn |
| InclusionSafety.IncludedDevicesHoldTheKey | src/framework/device/src/InclusionController.cpp:357-540 | In every reachable state of a hub and any number of devices over a medium that loses, duplicates, delays and reorders, with boots, resets and failing writes and commits, as long as the hub boots from a flash that has its key: an included device whose state is not garbage holds the hub's network key in RAM, in flash and in its encryption service, each exactly if it has not lost it there to a reset that failed to commit |
| InclusionSafety.UnharmedDeviceHoldsTheKey | src/framework/device/src/InclusionController.cpp:357-540 | A device none of whose resets failed to commit, once included, holds the hub's network key in all three places |
| InclusionSafety.IncludedStaysIncluded | src/framework/device/src/InclusionController.cpp:415-596 | In every run in which it neither boots nor is reset an included device stays included, its storage and keys unchanged, whatever is sent and however late it checks its timeouts |
| InclusionSafety.RebootFindsKey | src/framework/device/src/InclusionController.cpp:616-645 | Losing power anywhere in a run that has not harmed it, between any two commits, a device whose flash says INCLUDED finds its key pair and the network key there and comes up included with that key |
| InclusionSafety.KeyPairLasts | src/framework/device/src/InclusionController.cpp:61-97 | A key pair once stored is there in RAM and flash at the end of every run without a failed reset, so every boot finds it |
| InclusionSafety.HubKeepsKeyIffFlashed | src/framework/device/src/KeyManager.cpp:221-244 | A hub has the same network key at the end of every run, if and only if its flash has it at the start |
| InclusionNonce.ConfirmationMeansAcceptance | src/framework/device/src/InclusionController.cpp:380-408 | In every run the hub leaves WAITING_FOR_CONFIRMATION on a confirmation only if its sender had taken a response with the hub's current nonce, with the hub's current network key then in its flash |
| InclusionNonce.AcceptanceIsARealStep | src/framework/device/src/InclusionController.cpp:451-498 | What counts as acceptance is a device storing the key and taking up the nonce of a response it could verify |
| InclusionSafety.ResponseCarriesKey | src/core/protocol/src/crypto/MicService.cpp:167-223 | A response that verifies at a device was sealed with the same key and holds the hub's network key |
| InclusionSafety.RunIsSafe | src/framework/device/src/InclusionController.cpp:357-596 | The invariant behind these holds at the end of every run in which the hub's key outlives its boots, from every state in which it holds |
| InclusionTiming.CoupledIffLastStartWas | src/framework/device/src/InclusionController.cpp:415-596 | At the end of every run a device is pending exactly while it waits for the hub, if and only if it did not come up pending at its last boot or reset; otherwise it is hung |
| InclusionTiming.StuckForever | src/framework/device/src/InclusionController.cpp:40-56 | A device that booted while pending stays pending with an idle protocol in every run, through every further boot, until a reset commits |
| InclusionTiming.BootSticksIffPending | src/framework/device/src/InclusionController.cpp:40-56 | The exact condition at a boot that finds its key pair: stuck if the stored state is pending, coupled if not |
| InclusionTiming.StartCouplesUnlessPending | src/framework/device/src/InclusionController.cpp:6-59 | Every new controller, of a boot or a reset, is coupled exactly if it does not come up pending |
| InclusionTiming.HubIsCoupled | src/framework/device/src/InclusionController.cpp:179-224 | In every run a hub whose protocol is not idle is in inclusion mode |
| InclusionTiming.PendingIsBounded | src/framework/device/src/InclusionController.cpp:542-596 | If run() comes at least every P ms, P + 60000 below 2^32, a device that never starts pending is never pending longer than 2 * (60000 + P) ms, across clock wraps |
| InclusionTiming.CommittedStateIsStored | src/framework/device/inc/DeviceStorage.h:27-31 | Every change of state whose write is committed is in flash |
| InclusionLosses.DevicesGetStuck | src/framework/device/src/InclusionController.cpp:40-56 | A legal run from an initial state that ends with a device stuck |
| InclusionLosses.PowerLossCanStick | src/framework/device/src/InclusionController.cpp:415-449 | Wherever a device can join, losing power after the hub's first message makes it stuck |
| InclusionLosses.DevicesLoseKeys | src/framework/device/src/Device.cpp:574-579 | A legal run from an initial state that ends with an included device whose storage holds no network key, RAM or flash |
| InclusionLosses.FailedResetCanCostTheKey | src/framework/device/src/Device.cpp:574-579 | Wherever a device can join, a reset that fails to commit before the hub's last message leaves it included with no network key in RAM or flash, and none at all after the next boot |
| InclusionLosses.UncommittedKeyPairGarbles | src/framework/device/src/InclusionController.cpp:6-59 | A reset whose new private key is not committed leaves any device included, with no network key, if memory says so |
| InclusionLosses.HubsChangeKeys | src/framework/device/src/KeyManager.cpp:221-244 | A legal run from an initial state that ends with an included device whose network key is not the hub's |
| InclusionLosses.HubResetSplitsKeys | src/framework/device/src/Device.cpp:565-591 | A hub that is reset stores its new network key and keeps the old one in its encryption service, so it uses the key it hands out if and only if the two are equal |
| InclusionLosses.RebootCanOrphanDevices | src/framework/device/src/KeyManager.cpp:221-244 | Wherever a device can join a hub whose key never reached its flash, the hub's next boot can leave it behind with the old key |
| InclusionUnconfirmed.UnaskedIffSuccessOnAir | src/framework/device/src/InclusionController.cpp:501-529 | Wherever a device can join, a run in which the hub accepts no confirmation can make it included if and only if a last message under the network key is on air already |
| InclusionUnconfirmed.OnAirMeansUnasked | src/framework/device/src/InclusionController.cpp:501-529 | And then it can become included right after it took the key, with the hub still waiting for its confirmation of that nonce |
| InclusionUnconfirmed.IncludedByMessageIff | src/framework/device/src/InclusionController.cpp:501-529 | A message includes a device if and only if it is a last message under the device's network key and the device waits for one |
| InclusionUnconfirmed.DevicesJoinUnconfirmed | src/framework/device/src/InclusionController.cpp:501-529 | A legal run from an initial state that ends with a device included while the hub waits for its confirmation |
| InclusionJoin.JoinCanComplete | src/framework/device/src/InclusionController.cpp:204-540 | From every safe state with an idle hub, a free device whose key agreement with the hub works is included in seven steps, whatever nonce comes up, in flash as well |
| InclusionSystem.WireIsTransmission | src/core/protocol/src/routing/PacketRouter.cpp:10-53 | The messages of the system are the router's packets: one exists exactly when the other does, with that payload, CRC and MIC |
| InclusionOnAir.ReceivingIsHearing | src/framework/device/src/Device.cpp:338-391 | What the system lets a node hear is what the device's checks and decryption hand to its controller |
| InclusionOnAir.ActingIsOnWire | src/framework/device/src/Device.cpp:260-300 | What the system puts on air for a handler's last act is the one packet, or none, that sendData puts there |
| InclusionNetwork.EveryRunIsMirrored | src/framework/device/src/Device.cpp:260-476 | Every run of a hub and any number of devices that send, receive, relay, drop, check their timeouts, start and are reset is a legal run of the system, step for event, ending with the same nodes and a message for every inclusion packet ever on air, if every MIC that verifies was made with the receiver's key |
| InclusionNetwork.StationsHoldTheKey | src/framework/device/src/Device.cpp:260-476 | So in every run of such stations in which the hub's key outlives its starts, an included device none of whose resets failed holds the hub's network key in RAM, flash and encryption service |
| InclusionNetwork.FreshNetworkIsMirrored | src/framework/device/src/Device.cpp:517-563 | Stations that have just started, with nothing on air, stand for a system from which such runs start |
| Clock.ElapsedIsReal | src/framework/device/src/InclusionController.cpp:554-562 | Unsigned subtraction of two clock readings is the real time between them when that is below 2^32 ms, wrap or not |
| Device.RadioMeshDevice.constructor | src/framework/device/src/Device.cpp:517-540 | A device with its controller made from storage and nothing sent or delivered |
| Device.RadioMeshDevice.Configure | src/framework/device/src/Device.cpp:544-563 | The rest of initialize: the keys go from storage into the encryption service |
| Device.RadioMeshDevice.SendData | src/framework/device/src/Device.cpp:260-300 | The whole device after a send: refused for an unincluded device or an oversized payload, else one frame counter up and the new packet routed towards the table's next hop |
| Device.RadioMeshDevice.HandleReceivedData | src/framework/device/src/Device.cpp:324-426 | The whole device after one received buffer, for every packet and state: checks in their order, the routing table with the reception taken up, application, inclusion handler with its reply, or relay; its write goes as room and commit decide |
| Device.RadioMeshDevice.Judge | src/framework/device/src/Device.cpp:341-356 | The verdict of tracker, CRC and MIC in that order, with only the tracker's recency changed |
| Device.RadioMeshDevice.IsReceivedDataCrcValid | src/framework/device/src/Device.cpp:302-322 | True exactly if the CRC of frame counter and payload without MIC is the one in the header |
| Device.RadioMeshDevice.VerifyAndStripReceivedPacketMIC | src/framework/device/src/Device.cpp:621-665 | True exactly if no MIC is needed or there is one that verifies, which then is gone from the payload |
| Device.RadioMeshDevice.Run | src/framework/device/src/Device.cpp:438-476 | The whole device after a turn: the timeout before the radio, then the received buffer, if any; an error of that goes to the application and ends the turn; only without one a set transmit flag is reported, with the packet filled in last and the radio's error |
| Device.RadioMeshDevice.CanSendMessage | src/framework/device/src/Device.cpp:20-23 | What the controller allows |
| Device.RadioMeshDevice.FactoryReset | src/framework/device/src/Device.cpp:565-591 | Storage cleared, counter zero and a controller made anew, or a storage cleared in RAM only if the commit failed |
| Device.RadioMeshDevice.EnableInclusionMode | src/framework/device/src/Device.cpp:503-510 | The controller enters or leaves inclusion mode |
| Device.RadioMeshDevice.SendInclusionOpen | src/framework/device/src/Device.cpp:478-481 | The controller's open message is sent like any other |
| Device.RadioMeshDevice.EnableRelay | src/framework/device/src/Device.cpp:428-431 | Only the relay flag changes |
| Mesh.PayloadSurvivesTheMesh | src/framework/device/src/Device.cpp:324-426 | Every application payload of at most 217 bytes sent by a member reaches any member that has not met it, over the bytes on air, through any chain of at most six relays, as sent: payload, topic, source, destination, packet id and frame counter, with the number of transmissions as hop count; a packet whose CRC is 0 excepted |
| Mesh.AcceptedIffCrcIsNotZero | src/core/protocol/src/routing/PacketRouter.cpp:166-179 | A member that has not met a packet accepts its copies if and only if their CRC is not 0 |
| Mesh.SomePayloadHasCrcZero | src/core/protocol/src/routing/PacketRouter.cpp:103-120 | For every packet, key and length from 4 up, some payload of that length gives the packet CRC 0 |
| Mesh.SomePayloadIsNeverDelivered | src/core/protocol/src/routing/PacketRouter.cpp:166-179 | Every member can send a payload of any length from 4 to 217 that no member not tracking its id ever delivers |
| Mesh.UnknownIsSeenIffCrcIsZero | src/core/protocol/src/routing/PacketRouter.cpp:166-179 | An untracked packet is taken as seen if and only if its CRC is 0 |
| Mesh.JourneyCarriesCopy | src/core/protocol/src/routing/PacketRouter.cpp:10-53 | Through any chain of relays every buffer on air is a copy of the packet: same id, same CRC, one hop more each, MIC over the header as sent |
| Mesh.SeventhCopyStops | src/core/protocol/src/routing/PacketRouter.cpp:55-63 | A relay that hears the seventh transmission tells its application and sends no eighth |
| Mesh.TransmissionIsCopy | src/core/protocol/src/routing/PacketRouter.cpp:10-53 | A member's transmission of a packet, its own or one it decrypted, is a copy with one hop more |
| Mesh.CopyIsGenuine | src/framework/device/src/Device.cpp:341-398 | A copy passes every check of a member and opens to the original payload |
| Mesh.BurstIsCaught | src/framework/device/src/Device.cpp:302-322 | Damage confined to four consecutive bytes of what the CRC covers never passes as genuine |
| Mesh.SentTowardsRoute | src/core/protocol/src/routing/PacketRouter.cpp:71-86 | A packet for one station goes out towards the hop the lookup gave, or towards none |
| Mesh.HeardThroughIsNextHop | src/framework/device/src/Device.cpp:359-364 | What is sent to a station heard for the first time goes out towards the neighbour it was heard through, for five minutes, while the table keeps that route |
| Device.OthersDoNotRelay | src/framework/device/src/Device.cpp:405-424 | A hub, a device with its relay off and the station a packet is for put nothing on air for a packet that is no inclusion message |
| Device.RejectedPackets | src/framework/device/src/Device.cpp:341-356 | A packet seen, corrupted or forged is dropped with its code and leaves no trace but the use of its tracker entry |
| Device.AcceptedPackets | src/framework/device/src/Device.cpp:366-404 | Any other is told to the application once, opened if its topic is an inclusion or an application one |
| Device.AcceptedInclusionIsHandled | src/framework/device/src/Device.cpp:366-391 | An inclusion message that passes the checks is handled once, its answer broadcast, and goes no further |
| Device.SendingIs | src/framework/device/src/Device.cpp:260-300 | What sendData refuses, and the packet it fills in and counts |
| Sealing.RelayedReservedIsClear | src/framework/device/src/Device.cpp:393-417 | A member sends a packet of a reserved topic that is no inclusion message: its own transmission is encrypted, and any member that relays and has not seen it puts the payload on air in the clear, under a MIC that verifies |
| Sealing.PayloadThroughEveryChain | src/framework/device/src/Device.cpp:260-426 | For every topic but the inclusion ones, every member, payload and chain of members, whatever their trackers, routes and radios do: the buffer after n transmissions carries the payload encrypted once if the topic is an application's or n is odd, and the payload itself otherwise, with a MIC over it |
| Sealing.JourneyIsTransmitted | src/core/protocol/src/routing/PacketRouter.cpp:10-53 | What comes out of any chain of members is the packet after one more transmission for each of them, header, CRC, payload and MIC |
| Sealing.SealedIffApplicationMessage | src/framework/device/src/Device.cpp:393-398 | Every transmission of every chain carries the payload encrypted if and only if the topic is an application's or the cipher does not change the payload |
| Sealing.DeliveredAsSentIff | src/framework/device/src/Device.cpp:393-404 | A member's application gets the payload as sent if and only if the topic is an application's, the number of transmissions even, or the cipher does not change the payload |
| Sealing.CopiesAreTransmissions | src/core/protocol/src/routing/PacketRouter.cpp:10-53 | For application topics these transmissions are exactly the copies of the mesh results |
| Duplicates.TransmittedOnce | src/core/protocol/src/routing/PacketRouter.cpp:132-179 | A member that has put an application packet on air, sending it or relaying it, never does so again through any sequence of packets heard and sent, of whatever ids and however many, as long as its tracker holds the id |
| Duplicates.TransmittedOnceAmongFew | src/core/protocol/src/routing/PacketRouter.cpp:132-179 | And so through any sequence in which fewer than fifty other ids are put on air or found in the tracker, however many are only heard |
| Duplicates.NeverTwice | src/framework/device/src/Device.cpp:341-345 | While the tracker holds an id with the CRC of its copies, the station puts no packet with it on air, copies heard included, and keeps that CRC |
| Duplicates.HeldWhileFewAreUsed | src/core/protocol/inc/routing/PacketTracker.h:26-135 | Fewer than fifty other ids found or put on air leave the id held |
| Duplicates.PuttingIsTracked | src/core/protocol/src/routing/PacketRouter.cpp:132-136 | The event that puts a packet on air puts exactly one copy there and its id into the tracker, first and with the CRC of every copy |
| Duplicates.EventEffect | src/framework/device/src/Device.cpp:260-426 | Every packet heard or sent is at most one lookup and at most one buffer on air and tracked: the station's own packet, or the one it heard and had not seen |
| Duplicates.RelaysIff | src/core/protocol/src/routing/PacketRouter.cpp:166-179 | A member that hears a copy, for the first time or not, puts it on air if and only if it is a standard device with its relay on, the packet is for another station and has made fewer than seven hops, the radio takes it, and its tracker does not hold the id with the packet's CRC, a CRC of 0 excepted; ids need not be unique |
| Duplicates.ForgetsIff | src/core/protocol/inc/routing/PacketTracker.h:70-105 | An event makes a station forget a packet if and only if it puts another packet of the same id on air, or one of an untracked id while the packet's entry is the last of a full tracker |
| PacketTracker.AddKeepsOthers | src/core/protocol/inc/routing/PacketTracker.h:70-83 | Adding a key keeps the value of every other one but the last of a full list |
| PacketTracker.AddKeepsValues | src/core/protocol/inc/routing/PacketTracker.h:70-83 | Adding one key never changes the value of another and never brings one in |
| PacketTracker.FindKeepsValues | src/core/protocol/inc/routing/PacketTracker.h:126-135 | A lookup changes the presence and the value of no key |
| Flood.FloodDiesOut | src/core/protocol/src/routing/PacketRouter.cpp:10-69 | However trackers forget and the air loses and reorders, a flood of any topic but the inclusion ones has no more arrivals and transmissions than the weight it starts with, and every packet in it has made one to seven hops |
| Flood.OneSendIsBounded | src/framework/device/src/Device.cpp:260-300 | One sendData in a network of N stations causes at most N * (N+1)^6 arrivals and one transmission more |
| Flood.ArrivalIsLighter | src/framework/device/src/Device.cpp:324-426 | Each arrival strictly lowers the sum of (N+1)^(7-hop) over the deliveries in flight |
| Flood.AnswersOnce | src/framework/device/src/Device.cpp:393-426 | A station answers a packet that is no inclusion message with at most one transmission, of the same topic and one hop further, never beyond seven |

## Left out

- The radio driver, interrupts, WiFi, display, portal, admin panel, builder, sketches and logging: hardware or user interface.
- The AES block, the CTR library, Curve25519, SHA-256 and the random sources are not in the repository; they are parameters.
- Attackers and secrecy: packets are honest, the medium is not reliable. In the join protocol a MIC that verifies is taken to have been made with the receiver's key (`InclusionNetwork.Unforged`); everything else about MICs is computed.
- Torn commits: a commit takes effect whole or not at all. The return code of `begin` is not modelled, nor stores smaller than their 8-byte header.
- Device.RadioMeshDevice.HandleReceivedData: not for a received buffer shorter than the 35-byte header, because the parsing constructor (`Packet.h:114-144`) copies the header's fields without a check and so reads outside the vector; that has no defined result to state.
- Device.RadioMeshDevice.Run: not for such a buffer, as HandleReceivedData; the radio's `startReceive` after a transmission is left out.
- AesCmac.ComputeCMAC: not for a key of 24 bytes, because the size check lets it pass but no cipher is loaded for it, and `generateSubkeys` then reads the first element of an empty vector (`AesCmac.cpp:98-119`, `165-194`); that has no defined result to state. Every other size is covered, with the empty result where the check refuses it.
- AesCmac.ComputeMIC: not for a key of 24 bytes, as ComputeCMAC.
- AesCmac.VerifyMIC: not for a key of 24 bytes, as ComputeCMAC.
- MicService.MicService.ComputePacketMIC: not where the selected key has 24 bytes, as ComputeCMAC; no key a node makes or receives has.
- MicService.MicService.VerifyPacketMIC: not where the selected key has 24 bytes, as ComputeCMAC.
- EncryptionService.EncryptionService.Encrypt: not for a network key of another size than 32 while the AES instance holds no key, because `setParams` then refuses the key and `AesCrypto::encrypt` reads 32 bytes of an empty vector (`AesCrypto.cpp:39-48`); that has no defined result to state. With an old key in the instance it is covered.
- EncryptionService.EncryptionService.Decrypt: not for such a key, as Encrypt.
- PacketRouter.PacketRouter.RoutePacket: not for such a key, as Encrypt, nor for a MIC key of 24 bytes, as ComputeCMAC.
- PacketRouter.PacketRouter.PreparePacket: the same as RoutePacket.
- PacketRouter.PacketRouter.ComputeAndAppendMIC: not for a MIC key of 24 bytes, as ComputeCMAC.
- A router used before `initialize` gives it its services, a device without an application callback, and `setDeviceType`.
- In the join protocol: hub resets during a run. After one the hub hands out a key that it does not use until it boots (`InclusionLosses.HubResetSplitsKeys`). A hub that starts with no network key at all, its write having found no room, responds to nobody.
- InclusionSafety.RebootFindsKey: for devices that no reset has harmed; what a harmed one comes up with depends on what it lost, as `InclusionSafety.IncludedDevicesHoldTheKey` tells.
- InclusionLosses: the runs are for a cipher library in which everything agrees; the lemmas they come from hold for every library and every network in which the device can join.
- Applications that send inclusion topics themselves, and keys of other lengths than 32 passed to `updateSecurityParams`, which leave an old key in the AES instance.
- `encryptNetworkKey`, `decryptNetworkKey`, `handleNetworkKey` and `handleHubKey`, which no protocol step calls; the deterministic generator behind `generateKeyPair`, whose key is a parameter.
- Reserved topics in the transparency and duplicate results, because what arrives is not always what was sent; exactly when it is, `Sealing.DeliveredAsSentIff` says. The sealing and flood results cover them.
- Duplicates.TransmittedOnce: for runs in which ids do not collide; without that assumption `Duplicates.RelaysIff` and `Duplicates.ForgetsIff` are exact. The generator behind the ids is a parameter.
- One reading of the clock serves each call of `updateRoute`, `findNextHop` and each controller step.
- Distance in time between a timeout check and the packet handled in the same turn of `run`: both use one reading.
- EepromRewrite.SafeIffSameLength: the condition is on the two lengths; for some contents an unequal overwrite happens to do no damage.
- The search loops of `write`, `exists` and `remove` are one method, `Locate`; `read` has its own.
