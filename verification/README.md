# SVDC, modelled and proved

The SVDC (Sampled Value Data Concentrator) receives IEC 61850-9-2 sampled values, turns every received frame into
a time-stamped tick record, and lets northbound readers drain those records. This project models the parts of it whose
correctness is not obvious from one function body, and proves what they promise. `dafny verify dfyconfig.toml` checks
all of it.

## How the model is laid out

| file | models |
|---|---|
| Options, Bytes, Gf2, Crc32 | optional values; fixed-width integers; polynomials over GF(2); the CRC-32 accumulator and its loop |
| TickRecord | a tick record, the CRC over its live samples, what tampering it catches |
| SvFrame, SvEncoder, SvDecoder, SvGrammar, SvRoundTrip | the sampled-value frame as a BER tree and its recursive serializer; the in-place encoder; the position-tracking decoder; exactly what it accepts and rejects; their laws |
| Ingress, TickBuffer | the rejecting ring and the aligner; the drop-oldest buffer and the subscriptions that drain it |
| DataPlane, Pipeline, EndToEnd | all interleavings of pushes, pops and reads; the receiver and aligner threads on top; with a historian as one of the readers, wire to file |
| Synthetic | the console's synthetic loop, where the daemon runs its historian |
| AuditLog | the audit ring, its append-only file, crashes, torn lines and restarts |
| Calendar, IsoText | the civil date and time of a Unix time, and its printed form |
| Histogram | the log-scale latency histogram and its percentiles |
| OpcUa | the OPC UA node list and the publisher's updates |
| Lists, Text, Historian, Pcap | ends of lists and reversal; numerals and cutting text; the CSV historian; the libpcap stream |

Objects that update their fields are classes whose methods are proved against specification functions; the laws are
proved about those functions. Threads share state only through locked bodies, so each locked body is one step of a
state machine, and the theorems hold for every sequence of steps. Between two locked bodies a thread holds what it took
"in hand", which is part of the state. Histories that the program does not keep (everything pushed, everything
received and what became of it, what a subscription was given) are recorded in the states only to state the theorems.

## What the proofs show about the program

- The CRC catches every change within four consecutive bytes, so any other value, or any other quality, origin and
  reserved fields, of one live sample. It does not catch every change of one sample: for each live sample there is a
  different eight-byte sample that still verifies (`Ticks.SomeTamperPasses`).
- The 320-byte frame buffer is documented for identifiers of up to 96 characters; it holds all up to 191.
- The decoder drops the VLAN tag's control information, ignores the three container lengths and does not require an
  integer to be minimal; the aligner keeps the low byte of the quality word. The model does the same, and the round
  trip is stated for the fields that survive.
- A reader's cursor only goes up. The console's tamper injection pushes a record whose id lies 10^9 ahead
  (crates/svdc-console/src/dataplane/mod.rs:417); by `DataPlane.OnlyAboveCursor` a subscription that drains it is never
  given another tick until the ids have caught up.
- Audit lines can reach the file out of order, but never twice, because the daemon configures persistence right after
  it boots (crates/svdc-bin/src/main.rs:353-366, `Audit.DaemonNumbersStayDistinct`). Configuring an existing file while
  a record is in flight can duplicate a number; `Audit.ConfigureSafeIff` says exactly when.
- After a death in the middle of an audit record every later start is refused, until someone repairs the file
  (`Audit.FragmentIsTheEnd`). A death that lost only the newline is accepted once more, but the next record runs into
  the torn one; both are lost and then every start is refused (`Audit.TornLineIsTheEnd`).
  `Audit.DaemonFileReadableIff` says exactly when the file still replays, `Audit.PersistedStaysIff` which records stay
  in it.
- The synthetic loop restarted on a buffer that still holds an earlier run's ticks writes those a second time, and
  skips its own new ticks until their ids pass the highest of the old ones (`Synthetic.RestartRepeatsAndSkips`);
  `Synthetic.NothingSkippedIff` says exactly when it skips none.
- OPC UA node ids are distinct for distinct svIDs without dots, but "A.ChannelRegistry" beside "A" gives one id twice
  (`OpcUa.DottedNameDuplicates`); `OpcUa.NoDuplicateIds` says exactly when.
- A sample's origin replaces every status that is not bad, where the comment speaks of good ones only
  (crates/svdc-opcua/src/quality.rs:89-115): a questionable, interpolated sample without failure or overflow, and no
  other, loses its uncertain status to another one (`OpcUa.OriginReplacesUncertainIff`).
- A CSV file that a crash left without its last newline swallows the next run's first row (`Historian.RowsStandAlone`).
- The OPC UA publisher writes below `Substations.Demo` whatever the configured substation is called, so its updates
  reach the nodes only under that name (`OpcUa.OnlyDemoIsAddressed`). A channel's `tick_id` is documented as UInt64
  (crates/svdc-opcua/src/address_space.rs:109), but is written as the low 32 bits, signed, so it shows the tick id
  only below 2^31 (`OpcUa.TickIdShownIff`) and jumps to -2^31 there (`OpcUa.TickIdWraps`); the MU's `last_tick_id`
  always shows it.
- A capture keeps 32 bits of the seconds, so time stamps from 2^32 seconds on do not survive (`Pcap.CaptureIsExact`).

## Model

| member | source | states |
|---|---|---|
| `Gf2.RunIsLongDiv` | crates/svdc-core/src/integrity.rs:31-45 | The shift register behind the update loop, run over a message, holds the remainder of long division of the augmented message by the generator |
| `Gf2.RemainderIsLongDiv` | crates/svdc-core/src/integrity.rs:31-45 | Long division yields the polynomial remainder over GF(2), and no other 32 coefficients satisfy its definition by an existing quotient |
| `Gf2.DivisionExists` | crates/svdc-core/src/integrity.rs:31-45 | Every polynomial has a quotient whose product with the generator differs from it by what long division leaves, so the remainder exists |
| `Gf2.SilentIffMultiple` | crates/svdc-core/src/integrity.rs:31-45 | A difference of two messages leaves the register unchanged exactly when it is a multiple of the generator |
| `Gf2.BurstChangesRegister` | crates/svdc-core/src/integrity.rs:31-45 | Two messages that differ only in at most 32 consecutive bits end in different registers, whatever surrounds the difference |
| `Crc.Crc32.Update` | crates/svdc-core/src/integrity.rs:31-45 | The nested byte and bit loops take the state to the one obtained by feeding the bytes' bits, least significant first |
| `Crc.FeedIsRun` | crates/svdc-core/src/integrity.rs:31-45 | The reflected register, shifted right bit by bit, is the mirror image of the division register at every point |
| `Crc.MessageBitAt` | crates/svdc-core/src/integrity.rs:31-45 | The message fed is its bytes in order, each least significant bit first |
| `Crc.CrcIsRemainder` | crates/svdc-core/src/integrity.rs:31-66 | For every byte string: r is the remainder of the augmented message (its first 32 bits complemented) modulo the CRC-32 generator of section 3.2.9 of IEEE 802.3 if and only if r is the complemented, mirrored CRC |
| `Crc.SplitUpdates` | crates/svdc-core/src/integrity.rs:31-66 | Feeding two parts one after the other gives the state of feeding them joined |
| `Crc.ComputeCrc32Ieee` | crates/svdc-core/src/integrity.rs:62-66 | The one-shot helper gives the CRC that CrcIsRemainder characterises |
| `Crc.BurstDetected` | crates/svdc-core/src/integrity.rs:31-66 | Any change confined to four consecutive bytes changes the CRC |
| `Crc.UndetectedIffMultiple` | crates/svdc-core/src/integrity.rs:31-66 | Two strings of one length have the same CRC if and only if their difference is a multiple of the generator |
| `Bytes.BigEndianWords` | crates/ssiec-sv-publisher/src/lib.rs:90-110 | The words on the wire have their values most significant octet first |
| `Bytes.LittleEndianWords` | crates/svdc-core/src/lib.rs:182-190 | The words that are hashed, and those of a capture, have their values least significant octet first |
| `Bytes.SignedWord` | crates/ssiec-sv-publisher/src/lib.rs:90-110 | A signed word and its bit pattern are congruent modulo 2^32 |
| `Ticks.PayloadLayout` | crates/svdc-core/src/lib.rs:182-190 | Each live sample is hashed as eight bytes: value, quality, origin and reserved, numbers least significant byte first |
| `Ticks.BeyondLiveIsNotCovered` | crates/svdc-core/src/lib.rs:165-190 | Overwriting a slot at or past the channel count does not change the verdict |
| `Ticks.TickRecord.ComputeCrc` | crates/svdc-core/src/lib.rs:182-190 | The loop that updates the accumulator field by field over the live samples computes the CRC of their payload bytes |
| `Ticks.TickRecord.StampCrc` | crates/svdc-core/src/lib.rs:194-196 | Stamping stores that CRC and changes nothing else |
| `Ticks.TickRecord.Verify` | crates/svdc-core/src/lib.rs:202-213 | Verifying says intact, or reports the id, the stored and the recomputed CRC |
| `Ticks.TamperDetected` | crates/svdc-core/src/lib.rs:182-213 | After stamping, any change of the live payload within four consecutive bytes is reported, with the record's id, its stored CRC and a different recomputed one |
| `Ticks.ValueTamperDetected` | crates/svdc-core/src/lib.rs:165-213 | Any other value in one of the 64 samples of a stamped record is reported if and only if the slot's number is below the channel count |
| `Ticks.TailTamperDetected` | crates/svdc-core/src/lib.rs:165-213 | The same for any other quality, origin or reserved field |
| `Ticks.TamperPassesIffMultiple` | crates/svdc-core/src/lib.rs:182-213 | Exactly which overwrites of the payload pass verification: those that differ by a multiple of the generator |
| `Ticks.SomeTamperPasses` | crates/svdc-core/src/lib.rs:182-213 | Every live sample of every stamped record can be replaced by a different one that still verifies, so the four-byte bound cannot be raised to a whole sample |
| `SvFrame.UnpackPack` | crates/ssiec-sv-publisher/src/lib.rs:90-110 | Unpacking the packed samples gives back every signed value and quality word |
| `SvFrame.PackUnpack` | crates/ssiec-sv-publisher/src/lib.rs:90-110 | Packing what was unpacked gives back the 64 bytes |
| `SvFrame.IntU16Contents` | crates/ssiec-sv-publisher/src/lib.rs:276-294 | The rate is encoded as contents of its value that are minimal in the sense of section 8.3.2 of ITU-T X.690 |
| `SvFrame.IntU16Unique` | crates/ssiec-sv-publisher/src/lib.rs:276-294 | No other minimal contents have that value |
| `SvEncoder.Cursor.Write` | crates/ssiec-sv-publisher/src/lib.rs:214-224 | A write succeeds exactly when it fits and then appends its octets; otherwise nothing changes and the error says how much was needed and available |
| `SvEncoder.Cursor.PatchLength16` | crates/ssiec-sv-publisher/src/lib.rs:246-256 | Patching replaces the two reserved octets by the number written since, and fails exactly above 65535 |
| `SvEncoder.EncodeFrame` | crates/ssiec-sv-publisher/src/lib.rs:298-378 | Success exactly when nothing is in the way; then the buffer holds the serialized frame followed by its old contents, and the returned size is exact; otherwise the error of the first obstacle: what the first write that does not fit needed and what there is, or the first length above 65535 |
| `SvEncoder.PatchedIsFrame` | crates/ssiec-sv-publisher/src/lib.rs:237-256 | Writing all fields with zero lengths and patching the four lengths from the inside out gives what a recursive serializer of the same BER tree writes |
| `SvEncoder.LengthFields` | crates/ssiec-sv-publisher/src/lib.rs:237-378 | In an encoded frame each container length counts the bytes to the end of the frame, and the 9-2 Length the frame without its 14 or 18 bytes of L2 header |
| `SvEncoder.L2HeaderOctets` | crates/ssiec-sv-publisher/src/lib.rs:305-315 | The L2 header octet by octet: addresses, for a tagged frame 0x8100 and a control word with 3 bits of priority, one of drop eligibility and 12 of VLAN id, then 0x88BA |
| `SvEncoder.HeadOctets` | crates/ssiec-sv-publisher/src/lib.rs:317-340 | The octets between the L2 header and the fields: APPID, two reserved words, the tags of savPdu, noASDU = 1, list and ASDU |
| `SvEncoder.FieldsOctets` | crates/ssiec-sv-publisher/src/lib.rs:342-362 | The six fields tag by tag, with their lengths and big-endian numbers |
| `SvEncoder.PackedChannel` | crates/ssiec-sv-publisher/src/lib.rs:90-96 | Channel i is at octet 8i of the payload: the signed value, then the quality word, both big-endian |
| `SvEncoder.SucceedsIffFits` | crates/ssiec-sv-publisher/src/lib.rs:214-224 | Encoding succeeds if and only if the exact size fits the buffer and the part after the L2 header is below 65536 |
| `SvEncoder.IdentifiersFit` | crates/ssiec-sv-publisher/src/lib.rs:380-398 | Identifiers up to 191 octets always fit the 320-byte buffer; at 192 a tagged frame with a large rate does not |
| `SvDecoder.DecodeInt` | crates/ssiec-sv-publisher/src/lib.rs:551-558 | The shifting loop reads the big-endian value modulo 2^32 |
| `SvDecoder.DecodeFrame` | crates/ssiec-sv-publisher/src/lib.rs:564-592 | The reader that advances through the buffer returns what position-by-position reading of it gives, errors included |
| `SvDecoder.DecodeL2StrippedFrame` | crates/ssiec-sv-publisher/src/lib.rs:595-689 | Likewise for a buffer that starts at the APPID |
| `SvGrammar.AcceptsExactly` | crates/ssiec-sv-publisher/src/lib.rs:494-689 | A buffer decodes to f if and only if it starts with f's addresses, an optional 802.1Q tag and the SV EtherType, and then holds the 9-2 header and the ten elements, with lengths in any of the three forms, whose values are f's fields |
| `SvGrammar.StrippedAcceptsExactly` | crates/ssiec-sv-publisher/src/lib.rs:595-689 | The same from the APPID on, with zero addresses |
| `SvGrammar.RejectsExactly` | crates/ssiec-sv-publisher/src/lib.rs:494-689 | A buffer is rejected with error e if and only if e is the fault of its L2 header or of the first element that is not as it must be: wrong tag found and expected, unsupported length octet, wrong size, or cut short |
| `SvGrammar.StrippedRejectsExactly` | crates/ssiec-sv-publisher/src/lib.rs:595-689 | The same from the APPID on |
| `SvRoundTrip.RoundTrip` | crates/ssiec-sv-publisher/src/lib.rs:298-689 | Whenever encoding succeeds, decoding the frame returns the same addresses, APPID, svID, counters, rate, values and quality words, one ASDU and the right length, tagged or not |
| `SvRoundTrip.StrippedRoundTrip` | crates/ssiec-sv-publisher/src/lib.rs:595-689 | The frame without its L2 header decodes to the same fields with zero addresses |
| `SvRoundTrip.StrictPrefixIsTruncated` | crates/ssiec-sv-publisher/src/lib.rs:494-549 | Every strict prefix of an encoded frame decodes to Truncated |
| `SvRoundTrip.ExtensionKeepsResult` | crates/ssiec-sv-publisher/src/lib.rs:494-689 | Bytes appended to any buffer change neither a decoded frame nor an error other than Truncated |
| `SvRoundTrip.StrippedAgrees` | crates/ssiec-sv-publisher/src/lib.rs:564-689 | For any buffer with an SV EtherType, decoding it without its L2 header gives the same success with zero addresses, or the same error |
| `Ingress.IngressRing.Push` | crates/svdc-ingress/src/ring.rs:45-53 | The frame is handed back, and nothing changes, if and only if the ring holds as many frames as its capacity; otherwise it joins at the back |
| `Ingress.IngressRing.Pop` | crates/svdc-ingress/src/ring.rs:55-60 | The oldest frame leaves, the others keep their order |
| `Ingress.Aligner.ProcessFrame` | crates/svdc-aligner/src/lib.rs:77-108 | The in-place filling of one record yields exactly one tick with the next id |
| `Ingress.AlignedTickCarriesFrame` | crates/svdc-aligner/src/lib.rs:77-108 | That tick has the frame's time stamp, is complete and verifies; the eight channels of the first ASDU have their values, the low bytes of their quality words and origin 1, every other slot is zero, and a frame without an ASDU has no live channel |
| `Buffers.TickBuffer.Push` | crates/svdc-aligner/src/buffer.rs:47-61 | A full buffer first loses its oldest tick and says so |
| `Buffers.TickBuffer.Recent` | crates/svdc-aligner/src/buffer.rs:70-73 | The loop gives min(n, length) ticks, the i-th being the i-th newest |
| `Buffers.TickBuffer.VerifyAll` | crates/svdc-aligner/src/buffer.rs:102-110 | The sweep collects the violation of every record that fails, oldest first |
| `Buffers.SweepFindsEveryViolation` | crates/svdc-aligner/src/buffer.rs:102-110 | The sweep is silent if and only if every buffered record verifies, and misses no violation |
| `Buffers.ViolationsInOrder` | crates/svdc-aligner/src/buffer.rs:102-110 | The violations are in buffer order, oldest first |
| `Buffers.ViolationOfOne` | crates/svdc-aligner/src/buffer.rs:107-109 | A single record contributes its own violation, or nothing when it verifies |
| `Buffers.SortIsStable` | crates/svdc-subscribe/src/lib.rs:96-111 | The sort by tick id that the model uses is a stable sort of its input |
| `Buffers.StableSortUnique` | crates/svdc-subscribe/src/lib.rs:96-111 | Any two stable sorts by tick id agree, so the algorithm behind the library's sort does not matter |
| `Buffers.Subscription.ReadSince` | crates/svdc-subscribe/src/lib.rs:96-111 | Snapshot, filter and sort give the specified batch, and the cursor moves to its last id |
| `Buffers.BatchContents` | crates/svdc-subscribe/src/lib.rs:96-111 | For any ids in the buffer: a batch is sorted and holds exactly the buffered ticks after the cursor |
| `Buffers.ReadSinceIsSuffix` | crates/svdc-subscribe/src/lib.rs:96-111 | With increasing ids a batch is the buffer's suffix after the cursor, oldest first |
| `DataPlane.ReadsNeverRepeat` | crates/svdc-subscribe/src/lib.rs:96-111 | In every run with any ids, pops and other readers: a cursor never goes back, batches stay as given, and ids of later batches exceed those of earlier ones |
| `DataPlane.OnlyAboveCursor` | crates/svdc-subscribe/src/lib.rs:96-111 | In every run, once a cursor has reached an id no tick with that id or a lower one is ever given again |
| `DataPlane.SubscriptionsIndependent` | crates/svdc-subscribe/src/lib.rs:150-156 | Leaving out every step of all other subscriptions changes neither the buffer nor what one subscription is given |
| `DataPlane.RunKeepsAccount` | crates/svdc-subscribe/src/lib.rs:96-111 | As long as pushed ids increase, in every run each subscription was given, in push order, exactly the ticks before its position that did not leave the buffer unread |
| `DataPlane.DeliveredLostOrDue` | crates/svdc-aligner/src/buffer.rs:47-73 | Every tick pushed since a subscription's start is given, lost or still buffered and due, and only one of these |
| `DataPlane.PacedReadsLoseNothing` | crates/svdc-subscribe/src/lib.rs:96-111 | Without pops and with at most capacity pushes between reads, a subscription loses nothing and is given the push history between its due points, without a gap |
| `DataPlane.FirstToLastRead` | crates/svdc-subscribe/src/lib.rs:96-111 | From a first read to a last one paced in between, the concatenation of all reads is the push history from the oldest tick held at the first read |
| `Pipeline.ReceiverTurn` | crates/svdc-bin/src/main.rs:493-518 | One turn of the receiver thread does to the ring what the steps Receive and Offer do |
| `Pipeline.AlignerTurn` | crates/svdc-bin/src/main.rs:530-547 | One turn of the aligner thread does to ring, buffer and next id what the steps Align and Publish do |
| `Pipeline.RunKeepsSound` | crates/svdc-bin/src/main.rs:476-551 | Every interleaving of receiver, aligner and readers keeps: bounded ring and buffer, undecodable exactly when decoding fails, the ring holding the accepted frames not yet aligned in order, the pushes being their ticks |
| `Pipeline.StartIsSound` | crates/svdc-bin/src/main.rs:476-488 | The invariant holds of the empty pipeline that the daemon starts with, so every run from there keeps it |
| `Pipeline.Conservation` | crates/svdc-bin/src/main.rs:476-551 | Received datagrams = undecodable + rejected + in hand + queued + aligned, and aligned = pushed + in the aligner's hand, at every moment |
| `Pipeline.RejectedIffFull` | crates/svdc-ingress/src/ring.rs:45-53 | A frame that the receiver holds is rejected if and only if the ring is full; otherwise it joins at the back |
| `Pipeline.PushedTickCarriesFrame` | crates/svdc-bin/src/main.rs:522-551 | The k-th pushed tick has id k, is the tick of the k-th accepted frame, and verifies |
| `Pipeline.PublishedFrame` | crates/svdc-ingress/src/decoder.rs:82-96 | A published datagram becomes a frame with its receive time and one sample with the svID, counters, rate and channels of its ASDU, field for field |
| `Pipeline.WireToTick` | crates/svdc-bin/src/main.rs:493-551 | In every run the k-th pushed tick carries the time, the eight values and the low quality bytes of the k-th accepted datagram, live, complete and verifying |
| `Pipeline.RunProjects` | crates/svdc-bin/src/main.rs:476-551 | Seen from the buffer, a run of the threads is a run of pushes and reads, so every data-plane result applies |
| `Pipeline.PacedReaderGetsEveryFrame` | crates/svdc-bin/src/main.rs:476-551 | A reader that keeps pace is given the tick of every accepted frame from where it was due, in order |
| `EndToEnd.HistorianTurn` | crates/svdc-historian/src/lib.rs:154-161 | One call of tick does to the historian what the data plane's read does to its subscription |
| `EndToEnd.OtherStepsMirror` | crates/svdc-bin/src/main.rs:476-551 | No other step of the threads or of other readers touches what the historian was given |
| `EndToEnd.AlignedStatusIsQuality` | crates/svdc-opcua/src/quality.rs:72-115 | The origin of an aligned sample leaves its OPC UA status to its quality, so a good live sample shows as good |
| `EndToEnd.PacedHistorianWritesEveryFrame` | crates/svdc-historian/src/lib.rs:154-161 | The file of a historian object that keeps pace: a header and one row per accepted frame, in order and without a gap, each reading back as its frame's tick |
| `Synthetic.RunPipeline` | crates/svdc-console/src/dataplane/mod.rs:499-560 | The loop over the aligner, the buffer, a new subscription and the historian: whatever an earlier run left in the buffer, the historian is given exactly the specified ticks, and the buffer ends with the newest of all |
| `Synthetic.EmptyBufferLosesNothing` | crates/svdc-console/src/dataplane/mod.rs:538-549 | On an empty buffer the historian is given every tick, once and in order, whatever the capacity |
| `Synthetic.LoopFileHoldsFrames` | crates/svdc-console/src/dataplane/mod.rs:499-560 | So the new file of such a run reads back as every frame's tick |
| `Synthetic.OneMoreDelivered` | crates/svdc-console/src/dataplane/mod.rs:538-549 | Each later turn writes its own tick if and only if its id is above all ids that the first turn found in the buffer |
| `Synthetic.NothingSkippedIff` | crates/svdc-console/src/dataplane/mod.rs:499-560 | No later tick is skipped if and only if the first push leaves no tick of an earlier run in the buffer but ones with the id 0 |
| `Synthetic.RestartRepeatsAndSkips` | crates/svdc-console/src/dataplane/mod.rs:381-414 | Stopped after m ticks and started again on the same buffer, the loop writes the ticks still buffered a second time and never the new ones with the ids 1 to m - 1 |
| `Audit.AuditLog.ReplayFromFile` | crates/svdc-console/src/audit/mod.rs:258-284 | Replay loads the newest records and continues after the highest number; the first bad line is reported by number and nothing changes |
| `Audit.AuditLog.ConfigurePersistence` | crates/svdc-console/src/audit/mod.rs:234-256 | A missing file is created and leaves ring and numbering alone; an existing one is replayed or refused |
| `Audit.AuditLog.Assign` | crates/svdc-console/src/audit/mod.rs:303-317 | The first half of a record call takes the next number and trims the ring to the last capacity records |
| `Audit.AuditLog.PersistLine` | crates/svdc-console/src/audit/mod.rs:327-350 | The second half appends one line, or nothing when the write fails or no file is configured |
| `Audit.AuditLog.Recent` | crates/svdc-console/src/audit/mod.rs:354-360 | The newest n records of the ring, newest first |
| `Audit.NumbersStayDistinct` | crates/svdc-console/src/audit/mod.rs:258-350 | In every interleaving of assign and append steps, with crashes, torn lines and restarts, no sequence number stands in two lines of the file, as long as each configure is safe |
| `Audit.ConfigureSafeIff` | crates/svdc-console/src/audit/mod.rs:234-284 | The safety condition is exact, in every state that a safe run can reach, with the file's last line terminated or not: configuring is safe (no in-flight number above all of the file's, or in a line that the next write leaves alone) if and only if no run beyond it writes a number twice |
| `Audit.UnsafeConfigureCanClash` | crates/svdc-console/src/audit/mod.rs:234-256 | After an unsafe configure some run, with no further configure, writes a number twice |
| `Audit.StartIsSafe` | crates/svdc-bin/src/main.rs:353-366 | Configuring right after a boot, as the daemon does, is always safe |
| `Audit.DaemonNumbersStayDistinct` | crates/svdc-bin/src/main.rs:353-366 | From a missing file on, in every run of the daemon with concurrent recorders, deaths and torn writes, no sequence number is in the file twice |
| `Audit.ReadableIff` | crates/svdc-console/src/audit/mod.rs:258-350 | In any interleaving with deaths and restarts: the file still replays if and only if it did before and no step wrote part of a record or wrote into an unfinished line |
| `Audit.DaemonFileReadableIff` | crates/svdc-bin/src/main.rs:353-366 | The same for the daemon's runs, where only writing a line and dying can spoil the file |
| `Audit.WholeDeathsKeepReadable` | crates/svdc-bin/src/main.rs:353-366 | As long as no death tears a write, the file replays at every later start |
| `Audit.LinesStay` | crates/svdc-console/src/audit/mod.rs:327-350 | No run ever changes a line other than an unterminated last one |
| `Audit.DaemonLinesStay` | crates/svdc-console/src/audit/mod.rs:327-350 | The same for the daemon's runs |
| `Audit.PersistedStaysIff` | crates/svdc-console/src/audit/mod.rs:327-350 | A written record stands at its line in the file for ever, through any deaths and restarts, if and only if it was not written into an unfinished line |
| `Audit.UnterminatedStaysIff` | crates/svdc-console/src/audit/mod.rs:327-350 | A record that lost its newline stays exactly until something is written after it; then its line does not parse, for ever |
| `Audit.RefusedForever` | crates/svdc-bin/src/main.rs:353-366 | Once the daemon is down with a file that does not replay, no run of it ever changes anything |
| `Audit.FragmentIsTheEnd` | crates/svdc-bin/src/main.rs:353-366 | After a death in the middle of a record every later start is refused |
| `Audit.TornIsUnfinished` | crates/svdc-console/src/audit/mod.rs:327-350 | A death that loses a record's newline leaves a file that replays but ends in an unfinished line |
| `Audit.TornIsReplayed` | crates/svdc-console/src/audit/mod.rs:258-284 | The next run of the daemon still replays that record |
| `Audit.TornLineIsTheEnd` | crates/svdc-bin/src/main.rs:353-366 | But that run's first own record runs into it: both are lost, and every start after that is refused |
| `Audit.BootTurn` | crates/svdc-console/src/audit/mod.rs:214-223 | A new log object is in the state the step Boot leads to |
| `Audit.ConfigureTurn` | crates/svdc-console/src/audit/mod.rs:234-284 | Configuring the object does to it and its file what the step Configure does; it is refused exactly when the step ends the process |
| `Audit.AssignTurn` | crates/svdc-console/src/audit/mod.rs:303-317 | The first half of a record call does what the step Assign does, and its record is then in flight |
| `Audit.PersistTurn` | crates/svdc-console/src/audit/mod.rs:327-350 | The second half does what the step Append does, or nothing when the write fails |
| `Audit.ReplayContinues` | crates/svdc-console/src/audit/mod.rs:258-284 | After a replay the next number exceeds every number in the file and the ring is its end; a file with a bad line is refused and kept |
| `Audit.SequentialHistory` | crates/svdc-console/src/audit/mod.rs:234-350 | For one caller, any number of records and restarts with any capacities: the file holds the events numbered 1..k in order, the ring the last min(capacity, k) |
| `Audit.FirstBootInStep` | crates/svdc-console/src/audit/mod.rs:214-256 | A first boot on a missing file starts that history |
| `Audit.RecentReadsFileBackwards` | crates/svdc-console/src/audit/mod.rs:354-360 | Then recent(n) is the file read backwards, min(n, capacity, k) lines of it |
| `Calendar.YearOfEraIsYear` | crates/svdc-console/src/sse/emitter.rs:226-232 | The correction terms of the year-of-era formula undo the leap days exactly, for every day of an era |
| `Calendar.CivilIsStepping` | crates/svdc-console/src/sse/emitter.rs:223-242 | For every day from 1970 on, the closed form is the date reached by stepping one Gregorian day at a time |
| `Calendar.StampRecombines` | crates/svdc-console/src/sse/emitter.rs:223-242 | For every input the fields are valid and recombine to it: whole days stepped plus the time of day |
| `Calendar.StampIncreases` | crates/svdc-console/src/sse/emitter.rs:223-242 | Later inputs give later stamps |
| `IsoText.PrintedStampsSort` | crates/svdc-console/src/sse/emitter.rs:241-242 | Exactly when printed stamps sort as text in the order of time: when the earlier year is at most the number made of as many first digits of the later year |
| `IsoText.FourDigitYearsSort` | crates/svdc-console/src/sse/emitter.rs:241-242 | So they always do through the year 9999 |
| `IsoText.PrintedStampReadsBack` | crates/svdc-console/src/sse/emitter.rs:234-242 | Every printed stamp has its separators in their places and reads back as the year, month, day, hour, minute, second and milliseconds of the input |
| `IsoText.Year10000SortsFirst` | crates/svdc-console/src/sse/emitter.rs:241-242 | And the first day of the year 10000 sorts before 1970-01-01 |
| `Histograms.Histogram.Record` | crates/svdc-console/src/templates/charts.rs:45-60 | Ignored samples change nothing; any other raises the count of its clamped bucket by one |
| `Histograms.Histogram.PercentileNs` | crates/svdc-console/src/templates/charts.rs:76-105 | The accumulating loop finds the first bucket that reaches the rank; the answers for an empty bucket and after the last one are never given |
| `Histograms.RankBucket` | crates/svdc-console/src/templates/charts.rs:76-105 | The bucket where the cumulated count reaches a rank is the bucket of the value at that rank |
| `Histograms.PercentileAccurate` | crates/svdc-console/src/templates/charts.rs:45-105 | For a non-empty histogram every percentile is answered from the bucket of the true nearest-rank sample (the least rank, from one on, that is at least pN, in any ascending order), and is off by at most one bucket width when that sample is in range |
| `Histograms.PercentileInterpolates` | crates/svdc-console/src/templates/charts.rs:81-102 | The answer itself for p > 0: when the nearest-rank sample is the j-th of the c samples in its bucket, the middle of the j-th of c equal parts of the bucket |
| `Histograms.PercentileZero` | crates/svdc-console/src/templates/charts.rs:81-102 | For p = 0 the answer is the lower end of the smallest sample's bucket |
| `Histograms.SingleSampleMidpoint` | crates/svdc-console/src/templates/charts.rs:92-96 | A single sample is answered with the middle of its bucket, whatever p > 0 |
| `Histograms.BucketHoldsValue` | crates/svdc-console/src/templates/charts.rs:45-73 | The buckets tile the range: a value in it lies in its own half-open bucket, one below it counts in the first, one at or above its end in the last |
| `Histograms.PercentileMonotone` | crates/svdc-console/src/templates/charts.rs:76-105 | A higher p never gives a lower value |
| `OpcUa.BuildNodes` | crates/svdc-opcua/src/address_space.rs:124-211 | The nested loops list the tree: root, substation, and per MU its registry, channels with their leaves, and status |
| `OpcUa.BuildUpdates` | crates/svdc-opcua/src/server.rs:341-427 | The publisher's nested loops write the five values of each channel, the two measured ones with the sample's status, and the three of each MU |
| `OpcUa.SeverityOfSample` | crates/svdc-opcua/src/quality.rs:72-115 | The status of a sample is bad, uncertain or good exactly by its failure, validity and overflow bits and its origin, and the origin never lowers its severity |
| `OpcUa.StatusCodes` | crates/svdc-opcua/src/quality.rs:72-87 | The exact status codes and what decides between them: failure, then invalid, then overflow, then questionable |
| `OpcUa.OriginCodes` | crates/svdc-opcua/src/quality.rs:101-115 | The exact codes that origins 2 and 3 set on a status that is not bad; any other origin keeps it |
| `OpcUa.OriginReplacesIff` | crates/svdc-opcua/src/quality.rs:89-115 | Exactly which statuses the origin changes: the good and the uncertain ones, unless they are already what it sets |
| `OpcUa.OriginReplacesUncertainIff` | crates/svdc-opcua/src/quality.rs:89-115 | The promise that only a good status is replaced fails for exactly the questionable, interpolated samples without failure or overflow |
| `OpcUa.QuestionableInterpolated` | crates/svdc-opcua/src/quality.rs:89-115 | Quality 3 with origin 2 is such a sample: the last usable value becomes an interpolated one |
| `OpcUa.ChannelShows` | crates/svdc-opcua/src/server.rs:354-404 | Each update of a channel goes to its own variable: the raw and calibrated values with the sample's status, the quality, the time, and the low 32 bits of the tick id as a signed number |
| `OpcUa.ChannelShowsItsSample` | crates/svdc-opcua/src/server.rs:350-404 | Over all updates: the five of channel idx of any MU are at a known place, and carry the raw value, calibrated value, status and quality of sample idx of the snapshot, or of a zero sample with origin 1 when there are not that many |
| `OpcUa.StatusCarries` | crates/svdc-opcua/src/server.rs:406-424 | The three updates of each MU's status are at a known place and carry the snapshot's tick id, time and channel count |
| `OpcUa.TickIdShown` | crates/svdc-opcua/src/server.rs:395-412 | The MU's variable always shows the tick id, a channel's, documented as UInt64, if and only if the tick id is below 2^31 |
| `OpcUa.TickIdWraps` | crates/svdc-opcua/src/server.rs:402 | At tick id 2^31 a channel's variable shows -2^31 |
| `OpcUa.TickIdsShowAlikeIff` | crates/svdc-opcua/src/server.rs:402 | Two tick ids look the same in a channel's variable if and only if they are congruent modulo 2^32 |
| `OpcUa.TickIdShownIff` | crates/svdc-opcua/src/server.rs:341-427 | Over all updates to the tree: every last_tick_id shows the tick id, and every tick_id does if and only if the tick id is below 2^31 or no MU has a channel |
| `OpcUa.StatusShows` | crates/svdc-opcua/src/server.rs:406-424 | Each status update goes to its own variable and shows what that variable's kind stands for |
| `OpcUa.UpdatesAddressVariables` | crates/svdc-opcua/src/server.rs:341-427 | For substation Demo and any MUs, the updates address exactly the variable nodes in the same order, each with what its kind is given of the channel that it belongs to, so with a value of the registered type |
| `OpcUa.OnlyDemoIsAddressed` | crates/svdc-opcua/src/server.rs:351-353 | The updates meet the nodes if and only if the substation is Demo or there is no MU |
| `OpcUa.ParentBeforeChild` | crates/svdc-opcua/src/address_space.rs:120-211 | Every node comes after its parent, and there are 2 + sum(6 + 6 channels) nodes |
| `OpcUa.NodePlaces` | crates/svdc-opcua/src/address_space.rs:124-211 | Where every node of the tree stands: root and substation, then for each MU its container, its registry folder, six nodes for each channel in order, and four for its status |
| `OpcUa.ChannelNodesAre` | crates/svdc-opcua/src/address_space.rs:162-186 | A channel's six nodes, with their ids, browse names, kinds and parents |
| `OpcUa.StatusNodesAre` | crates/svdc-opcua/src/address_space.rs:188-208 | A status's four nodes, likewise |
| `OpcUa.ChannelNameIs` | crates/svdc-opcua/src/address_space.rs:162-164 | A channel's browse name is Ch, its number in decimal with at least two digits, an underscore and its own name |
| `OpcUa.NoDuplicateIds` | crates/svdc-opcua/src/address_space.rs:124-211 | When channel names have no dots: no node id occurs twice if and only if no svID is another MU's svID or that svID followed by the path of a node below that MU |
| `OpcUa.DistinctIffPathsApart` | crates/svdc-opcua/src/address_space.rs:124-211 | With any channel names: no node id occurs twice if and only if no two MUs have equally named nodes, themselves included |
| `OpcUa.NoContinuationNoDuplicates` | crates/svdc-opcua/src/address_space.rs:124-211 | With any channel names: no node id occurs twice when no svID equals another or continues it after a dot |
| `OpcUa.SameNameDuplicates` | crates/svdc-opcua/src/address_space.rs:144-150 | With any channel names: a MU called like another one, or like a node below it, always gives a duplicate id |
| `OpcUa.DottedNameDuplicates` | crates/svdc-opcua/src/address_space.rs:144-160 | Distinct svIDs with dots can collide: A and A.ChannelRegistry do |
| `Historian.HistorianFile.Tick` | crates/svdc-historian/src/lib.rs:154-161 | A tick appends one row per delivered record in delivery order and counts them; the file is always its base plus the rows of everything delivered |
| `Historian.WriteCsvRow` | crates/svdc-historian/src/lib.rs:190-200 | The writing loop appends the record's columns joined by commas and a newline |
| `Historian.WriteCsvHeader` | crates/svdc-historian/src/lib.rs:182-188 | The header loop appends the 4 + 3 * 64 column names |
| `Historian.HeaderColumn` | crates/svdc-historian/src/lib.rs:182-188 | The header's 196 columns: four names for the record, and for each slot i the value, quality and origin columns numbered i |
| `Historian.RowColumn` | crates/svdc-historian/src/lib.rs:190-200 | A row's columns: id, time and channel count in decimal, the flags as 0x and four capital hexadecimal digits, and each slot's signed value, quality and origin |
| `Historian.RowReadsBack` | crates/svdc-historian/src/lib.rs:182-200 | Every row has exactly the header's columns and reads back as the record's id, time, channel count, flags and all (value, quality, origin) triples |
| `Historian.FileReadsBack` | crates/svdc-historian/src/lib.rs:154-200 | A file the historian created reads back as its header and every delivered record in order |
| `Historian.LinesAppended` | crates/svdc-historian/src/lib.rs:124-161 | Rows appended to any text: the first runs into what follows its last newline, the others are lines of their own |
| `Historian.RowsStandAlone` | crates/svdc-historian/src/lib.rs:124-161 | The rows appended to a file left by an earlier run are its further lines, with no second header, if and only if that file was empty or ended with a newline |
| `Historian.AppendedRowsReadBack` | crates/svdc-historian/src/lib.rs:124-161 | Whatever an earlier run left, every further row reads back as its record, and so does the first if that run ended its last line |
| `Pcap.PcapWriter.WriteFrame` | crates/ssiec-sv-publisher/src/pcap_writer.rs:58-71 | Each write appends one record header, built by slice copies, and the frame |
| `Pcap.GlobalHeaderOctets` | crates/ssiec-sv-publisher/src/pcap_writer.rs:36-48 | The file header octet by octet |
| `Pcap.RecordHeaderOctets` | crates/ssiec-sv-publisher/src/pcap_writer.rs:58-67 | A record's header: seconds, microseconds, and the length twice, least significant octet first |
| `Pcap.CaptureReadsBack` | crates/ssiec-sv-publisher/src/pcap_writer.rs:33-71 | Walking a capture by its length fields finds every record, frame for frame, if and only if every frame is shorter than 2^32 bytes |
| `Pcap.CaptureIsExact` | crates/ssiec-sv-publisher/src/pcap_writer.rs:33-71 | The capture gives back exactly what was written if and only if every time stamp is before 2^32 seconds and every frame shorter than 2^32 bytes |
| `Pcap.StreamReadsBack` | crates/ssiec-sv-publisher/tests/stream_roundtrip.rs:36-72 | Encoding, capturing, walking and decoding a stream of ASDUs gives every ASDU back in order |

## Left out

- Sockets, threads, sleeping, file opening and flushing, clocks: datagrams, receive times and event times are inputs, a file is a sequence of lines or a text, a locked body is one step.
- SvDecoder.DecodeFrame: the svID stays the octets received; the replacement of malformed UTF-8 by a library is not part of this model.
- SvDecoder.DecodeL2StrippedFrame: likewise.
- Audit.AuditLog.PersistLine: a failed write leaves the file alone at that moment; what a buffering writer may still hold reaches the file, if at all, as a later append of the record that stayed in flight.
- Audit.AuditLog.ConfigurePersistence: one step, where the program reads the file without a lock, then takes the ring's lock and then the writer's, so a record call between those three moments is not modelled.
- Histograms.Histogram.Record: exact logarithms, so a sample near a bucket edge may land one bucket away in the program, which rounds.
- Histograms.Histogram.PercentileNs: exact reals, where the program rounds.
- OpcUa.BuildUpdates: source and server time stamps of a value, the namespace and the library's default status are left out.
- Write failures of the historian and the pcap writer.
- The web console, its templates, SSE and JSON, command line, SCD and ICD loading, northbound wiring and the calibration, binning and interpolation placeholders.
- JSON itself: an audit line is blank, one record, or does not parse, and a line that continues an unterminated record does not parse.
- The u64 width of tick ids, sequence numbers and nanosecond times: they do not wrap in the model.
- Calibrated values and audit gains are reals.
- The library's sort is modelled by an insertion sort; `Buffers.StableSortUnique` says why that loses nothing.
- Tick record metadata (id, time, flags, channel count) is not covered by the CRC, so nothing is proved about changing it, except that the channel count selects the live samples.
- The OPC UA server library.
- The aligner's `reset`, frame counters and the list of observed MUs; subscriptions' channel filter, which the code stores and does not use.
- Pipeline restarts: the pipeline theorems are about one aligner from its first tick. The data-plane theorems that need no increasing ids hold across restarts too.
- Pipeline.Other: no other thread pushes, so the console's tamper push into the same buffer (crates/svdc-console/src/dataplane/mod.rs:417-430) is outside the pipeline theorems; the data-plane theorems allow any pushes.
- Synthetic.RunPipeline: no tamper push, reset or pop by another thread during the loop, a historian that opens, and frames given from outside, where the program computes them from sines and the clock.
- OpcUa.NoDuplicateIds: for channel names with dots the exact condition is `OpcUa.DistinctIffPathsApart`, over the names of all nodes; the shorter condition on svIDs alone is then sufficient only (`OpcUa.NoContinuationNoDuplicates`).
- mus_list.rs repeats the calendar arithmetic with a space instead of the `T` and without the `Z`; it is not modelled a second time.
