# Crowd-lighting firmware: a verified model

This project models the host-independent logic of the crowd-lighting firmware and proves what it is
for. `dafny verify dfyconfig.toml` checks all of it.

- `PairRegister.dfy`: the director's register of paired lights, an array with in-place eviction that
  behaves as a FIFO queue, and its two sorted views.
- `Fips180.dfy`, `Sha256.dfy`, `Hmac.dfy`: one-shot hashing on machine words with a hand-built tail,
  against FIPS 180-4 and RFC 2104 written on bit strings.
- `PixMob.dfy`: the infrared encoder with its decoder, its run-length bounds and the reference tool.
- `Tlv.dfy`, `Frame.dfy`, `NumonceLru.dfy`, `ConfigChannel.dfy`, `ConfigApply.dfy`,
  `ConfigSession.dfy`: the authenticated configuration channel, from bytes to settings and back.
- `LumeMode.dfy`, `LumeWire.dfy`, `RelayNetwork.dfy`, `RelayLine.dfy`: the light node's receive
  protocol, the same from the bytes on air, and networks of such nodes.
- `Buttons.dfy`, `PairingWindow.dfy`, `ActiveWash.dfy`: the timed state machines and the wash table.
- `Bytes.dfy`, `Counting.dfy`: shared byte codecs and counting.

Each stateful source file has a pure step function and a class whose methods, on the same fields and
with the same loops, are proved to compute it. The results over whole runs are lemmas about the step
functions. Callbacks and main-loop ticks are atomic steps. Clock readings, driver answers and link
states are parameters. Sends, key deliveries and fired bindings are returned as sequences.

Where the code and its own comments disagree, the model follows the code:

- The register holds 20 entries (`src/ble/pair_register.h:83`); a comment in the same file says 50.
- Pairing a known light again overwrites its snapshot fields; only its queue place and configured
  stamp survive (`src/ble/pair_register.cpp:51`).
- A listing into a short buffer sorts the first slots, not the newest entries
  (`src/ble/pair_register.cpp:133-135`); `ShortListIff` says when the two agree.
- A rejected number leaves the replay table's slots alone but advances its clock
  (`src/transport/espnow/numonce_lru.cpp:12`); the header says the state is unchanged.
- A code over more than 320 bytes is 32 zero bytes, and verification accepts exactly that
  (`src/crypto/hmac_sha256.cpp:149-156`); the comment says it then fails. Signed frames are at most
  250 bytes.
- Display broadcasts are refused by the source lock (`src/transport/espnow/tofu_lock.cpp:29-31`);
  the header still describes an exception for them.
- The group handed to a relay binding is shortened to a byte, although a comment calls the narrowing
  safe (`src/modes/lume_mode.cpp:488-491`); `Narrowing` says when it is.
- The countdown shown while pairing does not pause with the timeout
  (`src/ble/ble_service.cpp:584-590`).
- A malformed bag has already applied its leading entries when it is reported
  (`src/ble/config_rx.cpp:119-123`); `SettingsAreFold` counts them.

## Model

| member | source | states |
|---|---|---|
| PairRegister.RegisterIsFifo | src/ble/pair_register.cpp:31-176 | over every run of adds, removes, marks and snapshots the register stays well formed, and while the counter has not saturated it is a 20-place FIFO queue keyed by uid: a new uid on a full register drops the earliest-inserted entry, a known uid keeps its place, remove deletes that uid alone |
| PairRegister.ShortRunsStayBelow | src/ble/pair_register.cpp:31-39 | each operation draws at most one sequence number, so a run shorter than the numbers left cannot saturate |
| PairRegister.SaturatedEviction | src/ble/pair_register.cpp:31-38 | on a full saturated register the eviction after next drops the entry just added if and only if the stamps of slots 1 to 19 are all saturated |
| PairRegister.FifoIff | src/ble/pair_register.cpp:31-86 | over every run, saturated or not, the register follows the FIFO queue at every point if and only if at each of its evictions some stamp is below saturation or slot 0 holds the earliest-inserted entry |
| PairRegister.EvictionRule | src/ble/pair_register.cpp:60-79 | the entry an eviction drops is the earliest-inserted one if and only if some stamp is below saturation or slot 0 holds that entry |
| PairRegister.FifoFailsSaturated | src/ble/pair_register.cpp:31-38 | a saturated register whose slot 0 was filled last drops the entry paired last, so FIFO fails there |
| PairRegister.StepKeepsWellFormed | src/ble/pair_register.cpp:41-176 | every operation keeps unique uids, at most 20 entries, and stamps bounded by the counter |
| PairRegister.LoadAfterSave | src/ble/pair_register.cpp:242-268 | loading what was saved is the identity, counter included |
| PairRegister.LoadFromBytes | src/ble/pair_register.cpp:242-256 | a blob is taken up exactly when its header says version 2 and at most 20 entries and that many records follow, a zero counter counting as 1; anything else gives an empty register starting at 1 |
| PairRegister.ListIsDescendingPermutation | src/ble/pair_register.cpp:133-147 | the listing is sorted by descending stamp and is a permutation of the entries |
| PairRegister.RankPlaces | src/ble/pair_register.cpp:111-147 | the entry found by rank counting is the one insertion sort puts at that position, ties included |
| PairRegister.ListingOrder | src/ble/pair_register.cpp:111-147 | of two entries the more recent is listed first, and of two equally recent ones the one in the lower slot |
| PairRegister.RankOnto | src/ble/pair_register.cpp:111-131 | every position below the count is some slot's rank, so the lookup is never empty there |
| PairRegister.ShortListIff | src/ble/pair_register.cpp:133-135 | with room for only n entries the listing is the n newest, in order, if and only if the first n slots are at least as recent as all later ones |
| PairRegister.PairRegister.constructor | src/ble/pair_register.cpp:27-29 | a register starts as what was saved, and a further power cycle would bring back the same |
| PairRegister.PairRegister.ClearInMemory | src/ble/pair_register.cpp:178-182 | empties the array and resets the counter to 1 |
| PairRegister.PairRegister.Load | src/ble/pair_register.cpp:242-256 | version, count and counter checks; a rejected blob leaves the empty register |
| PairRegister.PairRegister.Save | src/ble/pair_register.cpp:258-268 | the blob written is the serialisation of the state |
| PairRegister.PairRegister.NextSequence | src/ble/pair_register.cpp:31-39 | hands out the counter and bumps it up to its saturation value |
| PairRegister.PairRegister.Add | src/ble/pair_register.cpp:41-86 | in-place update, append or eviction on the array is the specified step, and the store holds the result |
| PairRegister.PairRegister.Remove | src/ble/pair_register.cpp:88-102 | finds the entry, compacts the array over it and saves: the specified step, after which the store again holds what the register does |
| PairRegister.PairRegister.MarkConfigured | src/ble/pair_register.cpp:149-158 | stamps only the named entry |
| PairRegister.PairRegister.UpdateSnapshot | src/ble/pair_register.cpp:160-176 | overwrites only the named entry's snapshot and configured stamp |
| PairRegister.PairRegister.NthSorted | src/ble/pair_register.cpp:111-131 | rank counting returns element k of the sorted listing, nothing exactly when k is out of range |
| PairRegister.PairRegister.ListSortedByCapturedAt | src/ble/pair_register.cpp:133-147 | the caller's buffer ends as the insertion sort of the copied slots, the rest of it untouched |
| Sha256.DigestIsFips | src/crypto/hmac_sha256.cpp:84-120 | the byte-level digest, as bits, is the digest of FIPS 180-4 written on bit strings alone: rotations that move bits, choice and majority bit by bit, round constants from cube roots and initial words from square roots of primes; for every message below 2^64 bits |
| Sha256.PaddingAgrees | src/crypto/hmac_sha256.cpp:97-109 | byte padding is the bit padding of section 5.1.1 |
| Sha256.HashesAgree | src/crypto/hmac_sha256.cpp:55-80 | folding the byte blocks is folding the bit blocks |
| Fips180.PrimesAreFirst | src/crypto/hmac_sha256.cpp:18-19 | the t-th number of the prime list is prime and none is missing before it |
| Sha256.InitialIsRoots | src/crypto/hmac_sha256.cpp:85-88 | the initial words are the first 32 bits of the fractional parts of the square roots of the first eight primes |
| Sha256.ConstantIsRoot | src/crypto/hmac_sha256.cpp:18-37 | round constant t is the first 32 bits of the fractional part of the cube root of the t-th prime |
| Sha256.RotrAt | src/crypto/hmac_sha256.cpp:39-41 | bit i of a word rotated by n is bit (i + n) mod 32 of the word |
| Sha256.MajAt | src/crypto/hmac_sha256.cpp:46-48 | a bit is set if and only if at least two of the three have it |
| Sha256.ChAt | src/crypto/hmac_sha256.cpp:43-45 | each bit of x chooses the bit of y or that of z |
| Sha256.SigmasAt | src/crypto/hmac_sha256.cpp:49-52 | each bit of each sigma is the parity of three named bits of its argument |
| Sha256.ScheduleLifts | src/crypto/hmac_sha256.cpp:57-66 | each scheduled machine word is the word of section 6.2.2, step 1, on bit strings |
| Sha256.RoundLifts | src/crypto/hmac_sha256.cpp:71-76 | one round on machine words is the round of section 6.2.2, step 3, on bit strings |
| Sha256.CompressLifts | src/crypto/hmac_sha256.cpp:55-80 | compressing machine words is the compression of section 6.2.2 on bit strings |
| Sha256.Schedule | src/crypto/hmac_sha256.cpp:57-66 | the schedule loops fill W as the recurrence of section 6.2.2 defines it |
| Sha256.RunRounds | src/crypto/hmac_sha256.cpp:68-76 | the 64-round loop is the round recurrence |
| Sha256.CompressBlock | src/crypto/hmac_sha256.cpp:55-80 | one block updates the hash state in place as the compression function does |
| Sha256.BuildTail | src/crypto/hmac_sha256.cpp:97-109 | the one- or two-block tail is the end of the padded message |
| Sha256.CompressTail | src/crypto/hmac_sha256.cpp:111-112 | one or two further blocks are folded in |
| Sha256.Sha256 | src/crypto/hmac_sha256.cpp:84-120 | whole blocks read in place and then the tail give the digest |
| Sha256.WriteOut | src/crypto/hmac_sha256.cpp:114-119 | the state is written out big-endian |
| Hmac.FullIsRfc2104 | src/crypto/hmac_sha256.cpp:125-169 | the code is HMAC-SHA256 of section 2 of RFC 2104, written on bit strings with its two pad bytes, for messages of at most 320 bytes and 32 zero bytes beyond |
| Hmac.PaddedBits | src/crypto/hmac_sha256.cpp:128-135 | the padded key is, bit by bit, the key extended with zeros to 64 bytes, exclusive-or 00110110 or 01011100 repeated |
| Hmac.HmacSha256Full | src/crypto/hmac_sha256.cpp:125-169 | the pads, the concatenation and the two hashes compute that code in the output buffer |
| Hmac.SignT8 | src/crypto/hmac_sha256.cpp:173-179 | the first eight bytes of the code |
| Hmac.VerifyT8 | src/crypto/hmac_sha256.cpp:181-194 | the accumulating comparison accepts exactly the code that signing would produce |
| Hmac.AccumulatorStep | src/crypto/hmac_sha256.cpp:191-193 | one difference, once folded in, is never lost |
| PixMob.DecodeInvertsTrain | include/pixmob_protocol.h:49-84 | from the train of any frame alone, a receiver that checks start byte, code bytes and checksum at 694 us a pulse accepts and recovers every raw 6-bit field |
| PixMob.ChecksumCatches | include/pixmob_protocol.h:51-56 | so that receiver rejects a frame with one field byte altered by four or more |
| PixMob.ChecksumOnAir | include/pixmob_protocol.h:51-56 | the second byte on air decodes to a quarter of what the bytes behind it add up to, in six bits |
| PixMob.TrainIsInjective | include/pixmob_protocol.h:49-84 | two frames give the same train if and only if their masked payloads are equal |
| PixMob.TrainTellsCommand | include/pixmob_protocol.h:98-227 | from the train of any command the checking receiver accepts and reads back its quantised arguments |
| PixMob.CommandsAreDistinct | include/pixmob_protocol.h:98-227 | two commands of any kind give the same train if and only if they agree after quantisation |
| PixMob.TrainShape | include/pixmob_protocol.h:58-84 | a train starts and ends with a mark, has an odd number of alternating runs, marks of at most 2 pulses, spaces of at most 4, and sums to 694 us a bit |
| PixMob.CodesAreGentle | include/pixmob_protocol.h:37-46 | what the code table guarantees of runs inside and across codes |
| PixMob.DecodeInvertsCode | include/pixmob_protocol.h:37-46 | the code table is injective: its inverse is given and proved |
| PixMob.PayloadIsUnderstood | include/pixmob_protocol.h:98-227 | the fields of each frame determine the command's quantised arguments |
| PixMob.MapBuffer | include/pixmob_protocol.h:51-56 | the buffer is mapped in place and its checksum byte set |
| PixMob.FillBits | include/pixmob_protocol.h:58-71 | the bits are the LSB-first stream without its leading zeros |
| PixMob.TrimTail | include/pixmob_protocol.h:72 | trailing zeros are dropped |
| PixMob.ScanRun | include/pixmob_protocol.h:78-79 | the end of the run that starts at a bit |
| PixMob.EncodeRuns | include/pixmob_protocol.h:75-83 | the output is the run-length coding, cut to the capacity |
| PixMob.EncodeBufferToUs | include/pixmob_protocol.h:49-84 | with any capacity the output is exactly a prefix of the reference train, and all of it when there is room |
| PixMob.TrainIsShort | include/pixmob_protocol.h:49-84 | no frame's train has more than 65 runs |
| PixMob.RoomIsEnough | include/pixmob_protocol.h:49-84 | so a buffer of 65 entries takes the whole train of any frame, and what is written decodes to its fields |
| PixMob.Build | include/pixmob_protocol.h:98-227 | each command builder emits the train of its frame, and with 65 entries of room what is emitted passes the receiver's check and decodes to the command's quantised arguments |
| PixMob.ReferenceEncode | tools/pixmob_parity_gen.py:49-88 | the unbounded reference tool computes that same train |
| Tlv.DecodeInvertsBag | src/ble/property_bag_tlv.cpp:27-152 | decoding an encoded bag, whatever follows it in the buffer, delivers exactly its entries |
| Tlv.DecodeIsCanonical | src/ble/property_bag_tlv.cpp:115-152 | a clean decode of arbitrary bytes consumed exactly the canonical serialisation of what it delivered, inside the buffer; a failed one delivered a canonical prefix and stopped at an entry that overruns |
| Tlv.DecodeOfTruncated | src/ble/property_bag_tlv.cpp:115-152 | a strict prefix of an encoding is malformed after delivering exactly the wholly contained entries |
| Tlv.TypesOnWire | src/ble/property_bag_tlv.h:36-43 | the bytes of the six value types; other bytes are passed through |
| Tlv.EntryFromBytes | src/ble/property_bag_tlv.cpp:120-147 | arbitrary bytes are read as an entry exactly when key length, key, type, value length and value all lie inside the buffer and the key is not empty; the entry is then those bytes |
| Tlv.TlvEncoder.constructor | src/ble/property_bag_tlv.cpp:16-25 | reserves the count byte and holds the empty bag |
| Tlv.TlvEncoder.WriteEntry | src/ble/property_bag_tlv.cpp:27-60 | succeeds exactly when key, count and room allow, and then the buffer holds the canonical bag with the entry appended; otherwise nothing changes |
| Tlv.TlvEncoder.AddU8 | src/ble/property_bag_tlv.cpp:62-65 | appends a one-byte entry or leaves the bag |
| Tlv.TlvEncoder.AddU16 | src/ble/property_bag_tlv.cpp:67-73 | appends a little-endian two-byte entry or leaves the bag |
| Tlv.TlvEncoder.AddUtf8 | src/ble/property_bag_tlv.cpp:106-109 | appends a text entry or leaves the bag |
| Tlv.DecodePropertyBag | src/ble/property_bag_tlv.cpp:115-152 | the walk hands the callback exactly the decoded entries, in order, until it refuses one, with the error code that tells why it stopped |
| Frame.HeaderRoundTrip | src/transport/espnow/frame.cpp:60-70 | a written header is read back, with its payload, from any longer buffer |
| Frame.HeaderIsCanonical | src/transport/espnow/frame.cpp:353-380 | a buffer that decodes starts with the bytes its header is written as, and has a known type |
| Frame.HeaderFromBytes | src/transport/espnow/frame.cpp:72-98 | arbitrary bytes are a header exactly when they start with NN and version 4, name one of the fourteen types in use and hold their payload; each failure names the first check that fails, and fields are read from their places |
| Frame.HopRewrite | src/transport/espnow/frame.cpp:382-385 | rewriting the hop byte changes the decoded hop count and nothing else, failures included |
| Frame.SetHopCount | src/transport/espnow/frame.cpp:382-385 | changes one byte, and none of a fragment |
| Frame.PulseRoundTrip | src/transport/espnow/frame.cpp:131-149 | a written pulse is read back |
| Frame.PulseIsCanonical | src/transport/espnow/frame.cpp:422-445 | a decoded pulse payload is what the encoder would write |
| Frame.ConfigWriteRoundTrip | src/transport/espnow/frame.cpp:317-335 | a written config write is read back: address, number, bag and code |
| Frame.ConfigWriteIsCanonical | src/transport/espnow/frame.cpp:683-712 | a decoded config write is what the encoder would write |
| Frame.ConfigWriteFromBytes | src/transport/espnow/frame.cpp:683-712 | the exact conditions on payload bytes, and which bytes are address, number, bag and code |
| Frame.EncodeConfigWrite | src/transport/espnow/frame.cpp:317-335 | writes header and payload in place with the bag clamped to 220 bytes, or nothing if they do not fit, and nothing behind them |
| NumonceLru.StepRefines | src/transport/espnow/numonce_lru.cpp:9-45 | one call on the slot table is one step of a most-recently-used list: same answer, same contents |
| NumonceLru.TableIsMru | src/transport/espnow/numonce_lru.cpp:9-45 | after any calls the sixteen slots hold exactly that list, in the order of their access stamps |
| NumonceLru.AdmittedIff | src/transport/espnow/numonce_lru.cpp:9-45 | after any calls a number is admitted if and only if it is not zero and its sender is new, or it exceeds the last one admitted from the sender, or sixteen other senders were admitted since |
| NumonceLru.NumbersIncrease | src/transport/espnow/numonce_lru.cpp:9-45 | while at most sixteen senders are ever admitted the numbers admitted from each strictly increase |
| NumonceLru.NumonceLru.constructor | src/transport/espnow/numonce_lru.h:35-60 | all slots start empty |
| NumonceLru.NumonceLru.CheckAndUpdate | src/transport/espnow/numonce_lru.cpp:9-45 | the search, the comparison and the slot update are the specified step |
| NumonceLru.NumonceLru.PickTarget | src/transport/espnow/numonce_lru.cpp:26-38 | the first free slot, else the least recently accessed one |
| ConfigChannel.FrameIsSigned | src/ble/config_tx.cpp:50-57 | the trailing eight bytes are the truncated RFC 2104 code of everything before them |
| ConfigChannel.BuildSignedConfigWrite | src/ble/config_tx.cpp:19-58 | writes the signed frame into the buffer, or returns 0 and writes nothing when the bag or the buffer does not fit |
| ConfigChannel.SplitNumonce | src/ble/config_tx.cpp:32-34 | the counter's eight bytes, low byte first |
| ConfigChannel.CarriedOfSigned | src/ble/config_rx.cpp:47-67 | a signed frame is recognised as carrying what was put in, with a genuine code |
| ConfigChannel.SignedIsAccepted | src/ble/config_rx.cpp:24-136 | a signed frame with any encoder bag, received under the same address and secret, is accepted if and only if the guard admits its number; then the number and the entry count come back and every entry is delivered |
| ConfigChannel.OnlyAfterChecks | src/ble/config_rx.cpp:24-136 | for arbitrary bytes, settings move and a frame is accepted only after target, replay and code checks all pass |
| ConfigChannel.CarriedFromBytes | src/ble/config_rx.cpp:47-67 | which bytes are a config write, and which of them are its source, address, number, bag and code |
| ConfigChannel.AnswerFromBytes | src/ble/config_rx.cpp:24-136 | which answer arbitrary bytes get, from the bytes: the first failing check in the order form, address, replay, signature, bag |
| ConfigChannel.DeliveringIsAuthentic | src/ble/config_rx.cpp:63-102 | a frame that delivers is addressed to the device and fresh for the guard, and its payload's code field is the truncated RFC 2104 code of all but the frame's last eight bytes |
| ConfigChannel.SettingsAreFold | src/ble/config_rx.cpp:24-136 | over any run of arbitrary frames the settings are the fold of the entries of the frames that passed every check, and of nothing else |
| ConfigChannel.RunGuards | src/ble/config_rx.cpp:71-78 | the guard moves exactly with the frames addressed to the device, whether or not their code is genuine |
| ConfigChannel.DeliveredOnce | src/ble/config_rx.cpp:71-102 | while at most sixteen senders pass the guard the numbers of delivering frames strictly increase for each sender, so no frame delivers twice |
| ConfigChannel.CountingCounts | src/ble/config_rx.cpp:108-118 | the walk counter is the number of entries the callback saw, saturating at 255 |
| ConfigChannel.ReadU64 | src/ble/config_rx.cpp:16-20 | the byte loop reads the little-endian 64-bit number |
| ConfigChannel.ProcessConfigWrite | src/ble/config_rx.cpp:24-136 | the receive path computes the specified result, guard state and settings |
| ConfigApply.LastWriterWins | src/ble/config_apply.cpp:12-95 | each setting of the device's role ends as its last well-typed in-range occurrence or its old value; the range flag is raised if and only if some recognised entry was refused |
| ConfigApply.ForeignIsIgnored | src/ble/config_apply.cpp:14-94 | an entry whose key, as cut to the 32-byte buffer, equals none of the keys its role owns changes nothing |
| ConfigApply.DistinctKeysCommute | src/ble/config_apply.cpp:12-95 | entries for different settings commute |
| ConfigApply.RangeIsKept | src/modes/persistence.cpp:785-940 | no entry can bring a stored setting out of its range |
| ConfigApply.NameStores | src/ble/config_apply.cpp:83-91 | a name is stored up to its first NUL, at most twenty bytes |
| ConfigApply.ChainStores | src/ble/config_apply.cpp:59-67 | what each two-byte chain length stores: 29 for none, at most 288 |
| ConfigApply.LumeByteStores | src/ble/config_apply.cpp:40-81 | what each byte under each of the light node's one-byte keys stores |
| ConfigApply.DirectorByteStores | src/ble/config_apply.cpp:26-39 | what each byte under each of the director's numeric keys stores: itself in range, and out of range the nearest bound or, for the source id, nothing |
| ConfigApply.RecogniseSpelled | src/ble/config_apply.cpp:14-18 | each known key, once copied to the 32-byte buffer, is recognised as itself and no other |
| ConfigApply.ApplyConfigEntry | src/ble/config_apply.cpp:12-95 | the chain of comparisons and saves is the specified fold step |
| ConfigApply.Persistence.SaveByte | src/modes/persistence.cpp:793-940 | each one-byte save stores the value brought into range, in its own field only; a source id out of range stores nothing |
| ConfigApply.Persistence.SaveStripChainSize | src/modes/persistence.cpp:886-890 | zero becomes the default and larger values the maximum |
| ConfigApply.Persistence.SaveFriendlyName | src/modes/persistence.cpp:828-836 | keeps what precedes the first NUL, at most twenty bytes |
| ConfigApply.EntriesFit | src/ble/ble_service.cpp:204-242 | either role's bag is at most 125 bytes, so no 240-byte buffer overflows or drops an entry |
| ConfigApply.SerialiseConfigBag | src/ble/ble_service.cpp:204-242 | the bytes served are the canonical bag of each setting of the role in turn that still fits; from 125 bytes on that is all of them, and decoding and applying them restores the settings on any device of the role |
| ConfigApply.TakenBag | src/ble/ble_service.cpp:204-242 | what is taken fits the buffer, and everything is taken if and only if the whole bag fits |
| ConfigApply.ReadBack | src/modes/config_mode.cpp:1933-1965 | populating the editor from the served bytes recovers the record |
| ConfigApply.ServedRestores | src/ble/ble_service.cpp:204-242 | applying the decoded bytes that a device of either role served, on any other settings, puts back every setting the role keeps, refuses nothing and touches nothing else |
| ConfigApply.UneditedCycle | src/modes/config_mode.cpp:2201-2212 | the unedited record is written as the same bag, and applying it leaves every setting and raises nothing |
| ConfigApply.WriteRecord | src/modes/config_mode.cpp:2201-2212 | the editor's buffer ends as the canonical bag of what fits of its record, which is all of it from 125 bytes on |
| ConfigApply.LumeCurrent.PopulateCurrent | src/modes/config_mode.cpp:1933-1965 | one entry updates the record as specified |
| ConfigSession.SettingsOverRuns | src/modes/lume_mode.cpp:750-782 | over any run of arbitrary frames each setting is the last valid value carried by a frame that passed every check, or its old value |
| ConfigSession.AcksOverRuns | src/modes/lume_mode.cpp:750-764 | any frame of a run is acknowledged exactly when it passes every check with a well-formed bag; the answer carries its number and the count of its entries, with status 0x82 if and only if one of its own entries was refused |
| ConfigSession.RunsKeepRange | src/modes/lume_mode.cpp:750-782 | no run of frames can bring a setting out of range |
| ConfigSession.UneditedOverTheAir | src/modes/lume_mode.cpp:755-764 | an unedited write in a signed frame is accepted exactly when fresh, reports every key with status 0, and changes no setting |
| LumeMode.RingRuns | src/modes/lume_mode.cpp:431-446 | within a session the ring is exactly the last sixteen marked pairs, which are distinct |
| LumeMode.DuplicateIff | src/modes/lume_mode.cpp:431-446 | after any run a pair counts as a duplicate if and only if fewer than sixteen further pairs were marked since it was |
| LumeMode.DuplicateIsInert | src/modes/lume_mode.cpp:841-859 | a duplicate refreshes liveness and otherwise fires, queues and relays nothing; an unsequenced frame never is one |
| LumeMode.FanOutsPartition | src/modes/lume_mode.cpp:461-533 | inline and deferred fan-out of a pulse reach disjoint sets whose union is the bindings passing the class and group filter, each once |
| LumeMode.Narrowing | src/modes/lume_mode.cpp:488-491 | the shortened group equals the one on the wire for local bindings, and for any binding if and only if it fits a byte |
| LumeMode.BindingGets | src/modes/lume_mode.cpp:461-533 | over any run callback-safe bindings get every admitted unique pulse that passes their filter, once and in order, and the others get the drained ones |
| LumeMode.DrainsAreLatest | src/modes/lume_mode.cpp:218-221 | drained pulses are a subsequence in receipt order; the latest is still queued or was the last drained |
| LumeMode.RelaysAreLatest | src/modes/lume_mode.cpp:889-903 | relay copies are sent at most once, in order, and only copies overtaken before a tick are lost |
| LumeWire.WrittenPulse | src/transport/espnow/frame.cpp:131-149 | which bytes of a written pulse frame hold what |
| LumeWire.TickFromQueues | src/modes/lume_mode.cpp:218-253 | exactly what a tick fires and sends |
| LumeWire.RecvFromBytes | src/modes/lume_mode.cpp:718-917 | after any run, exactly what any frame fires, queues, relays and marks, from its bytes |
| LumeWire.PulseGetsThrough | src/modes/lume_mode.cpp:718-917 | after any run, a pulse with hops in budget from a director the node listens to, whose pair is not among the last sixteen marked, fires exactly at the callback-safe outputs for its class and group, exactly at the other such outputs at the next tick unless a pulse follows, and is relayed one hop on exactly when the node repeats and hops are left |
| LumeMode.FallbackRuns | src/modes/lume_mode.cpp:258-291 | over any run faded implies active implies no-signal implies something was received, and the fallback events are a prefix of a word in (start fade? recovery)* |
| LumeMode.HeardRuns | src/modes/lume_mode.cpp:809-815 | over any run the stored time is that of the last admitted frame |
| LumeMode.FallbackTiming | src/modes/lume_mode.cpp:281-291 | over any run the wash starts only more than 10 s after the run's last admitted frame and fades only more than 40 s after it, and once the signal is lost a tick that late leaves it started, or faded |
| LumeMode.NoSignalIff | src/modes/lume_mode.cpp:261-275 | over any run the signal counts as lost if and only if some tick since the last admitted frame came more than 3 s after it |
| LumeMode.TuneTiming | src/modes/lume_mode.cpp:293-320 | over any run a tick retunes if and only if the node is unpinned, nothing was ever admitted or the signal is lost and the last admitted frame more than 10 s back, and 2 s passed since the last retune or loss of signal; it then drops the source lock |
| LumeMode.ScanOrder | src/modes/lume_mode.cpp:293-320 | over any run an unpinned node listens on 11, 1, 6, 11 and so on, one step for each retune; a pinned one never moves |
| LumeMode.RefusedIsInert | src/modes/lume_mode.cpp:724-809 | leaving out of any run the frames that are undecodable, management, over-hopped or refused by the lock changes neither its state nor anything it did, and every frame that stays is admitted |
| LumeMode.LockRuns | src/transport/espnow/tofu_lock.cpp:11-78 | over any run a held lock names the source and time of the last admitted frame |
| LumeWire.LockNames | src/transport/espnow/tofu_lock.cpp:33-55 | a held lock is the source and time of the last frame heard, by its bytes |
| LumeWire.LivenessRuns | src/modes/lume_mode.cpp:810-838 | over any run: the count of frames heard, the source, type and time of the last one, when the signal was last found, whether a repaint is owed for finding it again, and the count of relays sent |
| LumeWire.LockDropsIff | src/transport/espnow/tofu_lock.cpp:57-72 | over any run a lock lasts exactly until a retune or a tick ten or more seconds after the last frame heard, but for the tick that finds the signal lost |
| LumeMode.SourceChangeNeedsSilence | src/transport/espnow/tofu_lock.cpp:11-72 | the source of consecutive admitted frames changes only across a tick that found ten seconds of silence |
| LumeMode.TofuLock.TryAdmit | src/transport/espnow/tofu_lock.cpp:11-55 | the admission rule with its in-place lock update |
| LumeMode.TofuLock.CheckExpiry | src/transport/espnow/tofu_lock.cpp:57-72 | expiry, reported once, on its edge |
| LumeMode.RelayedOnce | src/modes/lume_mode.cpp:841-903 | a node that hears at most sixteen pairs of source and sequence number, all sequenced, relays each at most once over any run |
| LumeMode.ReentryIsFresh | src/modes/lume_mode.cpp:55-93 | over any run a session entered again does exactly what a first one does: nothing queued, seen, locked or timed before is carried over |
| LumeMode.LumeMode.constructor | src/modes/lume_mode.cpp:55-93 | a first session starts empty, on channel 11 when unpinned |
| LumeMode.LumeMode.EnterSession | src/modes/lume_mode.cpp:55-93 | entering again starts over in place, keeping the repaint flag and the relay count |
| LumeMode.LumeMode.SeenRecently | src/modes/lume_mode.cpp:431-440 | the ring scan |
| LumeMode.LumeMode.MarkSeen | src/modes/lume_mode.cpp:442-446 | one in-place write at the head, which moves on |
| LumeMode.LumeMode.FanOutPulse | src/modes/lume_mode.cpp:461-533 | the dispatch loop fires exactly the specified bindings in order |
| LumeMode.LumeMode.QueueRelay | src/modes/lume_mode.cpp:889-903 | the relay buffer holds the frame with the hop count raised by one |
| LumeMode.LumeMode.OnRecv | src/modes/lume_mode.cpp:718-917 | the radio callback on the fields is the specified step |
| LumeMode.LumeMode.LoopTick | src/modes/lume_mode.cpp:190-329 | the main-loop tick on the fields is the specified step |
| RelayNetwork.PairsRelayedOnce | src/modes/lume_mode.cpp:841-903 | whatever is lost, delayed or reordered, while at most sixteen pairs of source and sequence number are injected, all sequenced, a network of N nodes relays each pair at most N times, and nothing else |
| RelayLine.LineReachesFour | src/modes/lume_mode.cpp:889-903 | a frame with its whole hop budget, injected at the head of a line of repeating nodes, is heard by exactly the first four and relayed by exactly the first three, with hop counts 1, 2 and 3 |
| RelayNetwork.NodeRuns | src/modes/lume_mode.cpp:889-903 | in a network run every node is in the state of its own protocol run over what reached it |
| RelayNetwork.RelaysAreBounded | src/modes/lume_mode.cpp:889-903 | without that bound on pairs, and for sequence number 0 too, frames injected at hop 0 cause at most N (1 + (N - 1) N) relays each |
| RelayNetwork.FloodingTerminates | src/modes/lume_mode.cpp:783-792 | arrivals and relays together are bounded by what was injected, whatever the nodes do |
| RelayNetwork.RunPays | src/modes/lume_mode.cpp:236-240 | the potential argument behind both: every arrival and relay is paid out of the injected budget |
| RelayNetwork.RelaysPreserve | src/modes/lume_mode.cpp:894-900 | every relayed frame is an injected one with only the hop byte raised, to at most 3: same source, sequence number, type and payload |
| RelayNetwork.TickSends | src/modes/lume_mode.cpp:236-253 | a tick sends exactly the pending relay and clears it |
| RelayNetwork.RecvQueues | src/modes/lume_mode.cpp:892-903 | a received frame leaves pending the old relay or a copy one hop on |
| Buttons.TraceIsLawful | src/hal_atomlite/buttons_atomlite.cpp:31-87 | over any run in positive non-decreasing time holds fire at or after the threshold, clicks before it, no click follows a hold in its press, and a hold is a double-tap hold exactly in a second tap: after a click under 400 ms earlier that was not itself a second tap |
| Buttons.RunsAreWords | src/hal_atomlite/buttons_atomlite.cpp:31-87 | the events are a prefix of a word in (Pressed (LongPressed or DoubleTapHeld)? Released Clicked?)* |
| Buttons.NextPollEmits | src/hal_atomlite/buttons_atomlite.cpp:37-78 | what the next poll emits, from the trace alone: a release clicks if and only if its press was short and unheld, a hold fires once as soon as its threshold is reached |
| Buttons.ButtonsAtomLite.PollPin | src/hal_atomlite/buttons_atomlite.cpp:31-87 | one poll on the five fields is the specified step |
| PairingWindow.OriginIsTracked | src/ble/ble_service.cpp:462-505 | while the window is open its origin is the begin time plus all completed connected time the ticks observed, modulo 2^32 |
| PairingWindow.TimeoutIff | src/ble/ble_service.cpp:496-503 | a tick aborts only with no client connected and disconnected time at the granted seconds, and within 2^32 ms always then |
| PairingWindow.TerminalIsFinal | src/ble/ble_service.cpp:543-550 | Committed, Sleeping and Aborted are left only through end |
| PairingWindow.EndCloses | src/ble/ble_service.cpp:507-541 | an end closes the window whatever it was, and nothing but a begin reopens it |
| PairingWindow.BeginIsFresh | src/ble/ble_service.cpp:366-473 | a window begun while none is up is the same whatever came before: open for the seconds granted, with no client; one that is up is left alone |
| PairingWindow.FirstDecisionStands | src/ble/ble_service.cpp:475-554 | over every session in real time the window is open until the first deciding step and then what that made it: committed, sleeping or aborted by bytes 1, 2 and 3, aborted by a tick without a link once the disconnected time reaches 180 s, 5 s or the seconds asked for |
| PairingWindow.RemainingMeans | src/ble/ble_service.cpp:584-590 | the countdown counts a connection still going on, although the timeout does not |
| PairingWindow.CountdownRunsWhileConnected | src/ble/ble_service.cpp:584-590 | a run in which the countdown reaches zero while the window stays open |
| PairingWindow.BleService.BeginWindow | src/ble/ble_service.cpp:366-473 | opens the window with the granted seconds, unless it is open or advertising fails |
| PairingWindow.BleService.OnClientConnected | src/ble/ble_service.cpp:556-562 | notes the connection and its time |
| PairingWindow.BleService.OnClientDisconnected | src/ble/ble_service.cpp:564-578 | moves the origin forward by the connected time while open |
| PairingWindow.BleService.TickWindow | src/ble/ble_service.cpp:475-505 | observes the link, then times out |
| PairingWindow.BleService.OnPairingControlWrite | src/ble/ble_service.cpp:543-554 | the three actions, only while open |
| PairingWindow.BleService.EndWindow | src/ble/ble_service.cpp:507-541 | closes the window and forgets the client |
| ActiveWash.TableIsMap | src/dal/dal.cpp:490-530 | over any run the table holds at most one entry a target and is the map to the latest un-ended wash without the evicted ones; each stamp is the target's last successful broadcast |
| ActiveWash.NoneEvicted | src/dal/dal.cpp:501-524 | nothing is evicted while at most eight targets are ever live at once, and the table is then the whole map |
| ActiveWash.EvictionIffCrowded | src/dal/dal.cpp:501-524 | over any run some target is evicted at some point if and only if more than eight targets are live at some point |
| ActiveWash.VictimIsOldest | src/dal/dal.cpp:506-518 | a victim exists if and only if a new target meets a full table, and is the target broadcast longest ago, of several the one in the lowest slot |
| ActiveWash.RecordLookup | src/dal/dal.cpp:503-524 | recording sets one entry, drops the victim's, and touches no other |
| ActiveWash.RefreshIsPaced | src/dal/dal.cpp:649-666 | after any run a refresh re-sends only the latest un-ended wash, ten seconds or more after the target's last successful broadcast |
| ActiveWash.ResentIff | src/dal/dal.cpp:657-664 | a refresh re-sends exactly the live targets that are due |
| ActiveWash.ResentOnce | src/dal/dal.cpp:657-664 | and each at most once |
| ActiveWash.WashTable.FindActiveWashSlot | src/dal/dal.cpp:490-499 | the slot of a target, or -1 |
| ActiveWash.WashTable.RecordActiveWash | src/dal/dal.cpp:503-524 | the search and the slot write are the specified update |
| ActiveWash.WashTable.FreeOrOldest | src/dal/dal.cpp:506-518 | one pass finds the first free slot or the oldest one |
| ActiveWash.WashTable.ClearActiveWash | src/dal/dal.cpp:526-530 | frees the target's slot, if it has one |
| ActiveWash.WashTable.RefreshActiveWashes | src/dal/dal.cpp:649-666 | the loop re-sends the due slots and restamps those the driver accepted |

## Left out

- Interleavings inside one handler: the radio callback and the main-loop tick are atomic, so torn copies of the relay buffer do not occur in the model.
- Wrap of the 32-bit clock except where the code subtracts: saturating ages and ordered stamps are compared as plain numbers, and frame and relay counters are unbounded.
- NumonceLru.NumonceLru.CheckAndUpdate: the 32-bit access clock is unbounded in the model, because it would need 2^32 calls to wrap.
- Buttons.TraceIsLawful: assumes time is positive and does not go back, because the code uses 0 for "no click" and does not handle the wrap of its stamps. A detector without a callback does nothing.
- PairRegister.LoadAfterSave: the byte layout of one record is not modelled; the blob holds the version, count and counter bytes and the records as values. The native store stands for the non-volatile one.
- PixMob.EncodeBufferToUs: buffers of 2 to 10 bytes, the most whose bits fit the code's 80-bit array; every frame has 6 or 9.
- ConfigChannel.BuildSignedConfigWrite: a null bag pointer with a non-zero length, which sends zero bytes, is not modelled.
- ConfigApply.Persistence.SaveByte: the native stores are modelled; first-boot random draws of group and source id are not.
- ConfigSession.AcksOverRuns: the acknowledgement's content is modelled, its transmission and the confirmation flash are not.
- LumeMode.LumeMode.EnterSession: the stored settings and the bindings acquired are a parameter; drawing and driver set-up are not modelled.
- LumeMode.LumeMode.OnRecv: the wash, text and bitmap fan-outs, the director clock offset, signal quality and logging are not modelled; none of them feeds back into the state that is.
- LumeMode.LumeMode.LoopTick: the census heartbeat, drawing, binding animation and the Bluetooth and pairing-burst early returns are not modelled, and the radio is taken to be present.
- ActiveWash.WashTable.RecordActiveWash: the parsing of target strings and the infrared and LED-strip loopbacks are not modelled; class and group are passed in.
- The acknowledgement ring and its waiting loop: a smaller ring of the same kind as the duplicate ring.
- The spectrum subscriber table: one compaction loop of the same kind as the register's.
- The other frame types of the codec: same layout rules as the two modelled.
- Drawing, menus, the director, test and DMX modes, drivers, radio and GATT plumbing: input and output.
- Floating-point colour and audio code, and random effects.
- Timing and cryptographic strength of the code comparison: only what it computes is proved.
