# Verified model of the tracker firmware's stateful core

The firmware keeps messages in a ring of flash blocks, runs a LoRaWAN session protocol across losses of
power, encrypts and frames payloads with its own AES, talks to a u-blox receiver byte by byte, and
decides when to take a GPS fix. This project models those components in Dafny 4.11 and proves what they
promise. Code that works in place is modelled in place: classes with the source's fields, arrays and
loops, each method proved against a specification, and lemmas about the specification beside it.

| component | modules |
|---|---|
| flash message log, its read-out and the receiving decoder | `FlashRecord`, `FlashLog`, `FlashScan`, `FlashWindow`, `FlashReadout`, `ReadoutDecoder` |
| LoRaWAN session protocol and its thread | `CrcIeee`, `LorawanSession`, `LorawanThread` |
| AES-128, AES-CMAC, LoRaWAN 1.0 frames | `GaloisField`, `SBox`, `Fips197`, `Aes`, `Rfc4493`, `Encrypt`, `LorawanFrame`, `KnownAnswers`, `KnownFrame` |
| u-blox UBX byte receiver | `UbxReceiver`, `UbxTraffic`, `UbxWait`, `UbxFormat`, `UbxNoise`, `UbxDriver` |
| satellite send buffer | `SatelliteBuffer` |
| GPS motion window and retry machine | `GpsMotion`, `GpsRetry` |

## Main results

* **Flash log.** However stores, flushes and wrap-arounds follow each other, scanning the live blocks and
  then the buffer yields a suffix of all records ever stored, in order, cut at a block boundary
  (`FlashScan.ScanIsSuffixOfStored`). Programming flash ANDs bits; writes only ever hit erased bytes, so
  nothing is lost. The message counter means what `FlashScan.CounterMeaning` says: it drifts after the
  first wrap, because the code deducts the block after the erased one.
* **Read-out.** A window counted from the newest message is delivered exactly
  (`FlashReadout.Readout.ReadMessagesFromHead`, `FlashReadout.AnswerIsWindow`), with no record of another
  port; asked for more than the message counter holds, it delivers as many as it was told to skip
  (`FlashReadout.TooManyAsked`). Payloads conserve records
  (`FlashReadout.Readout.SentIsDelivered`), and the decoder recovers a payload's records if and only if
  the last of them has data (`ReadoutDecoder.DecodeUndoesPacking`): the loop bound of the decoder drops a
  last record of length 0. So what was sent decodes to the delivered records exactly if no payload ends
  in such a record (`FlashReadout.Readout.SentIsDecoded`). A stored message is found again exactly if its
  second byte counts its data and its port is known, neither of which the log checks
  (`FlashScan.FramingIsExact`).
* **LoRaWAN session.** Over every interleaving of handlers, callbacks, settings changes and losses of
  power: a restored session is resumed exactly when its join matches the configuration
  (`LorawanSession.ResumesIffMatching`), every send follows a check that found no change pending and a
  session with the desired configuration (`LorawanSession.SendsMatch`), and a latched change survives
  until a join with a later configuration has been started (`LorawanSession.LatchedChangeSurvives`).
  AppKeys are compared by their CRC-32: a key changed within four consecutive bytes is always seen
  (`LorawanSession.ChangeIsSeen`), one changed in five need not be (`LorawanSession.UnseenChange`).
  If the modem refuses the first call of the reset callback this can fail:
  `LorawanSession.FailedResetSendsMismatched` gives a run. `LorawanSession.RefusedResetHarmsIff` says
  exactly when: some continuation of the refusal sends a frame in a session of another configuration if
  and only if nothing is pending at the refusal and the session was joined with another configuration.
  With a join on record that is what the skipped comparison would have found
  (`LorawanSession.MismatchIsObservable`). The thread's handlers keep all of this applicable:
  what they have done is always a run, and an admissible one unless a reset is refused. Each handler's
  result follows from the answers of the modem and the storage: a frame is handed over, a join started, a
  session left or resumed exactly if they consent (`LorawanThread.Lorawan.HandleMessage`,
  `LorawanThread.Lorawan.OnModemReset`).
* **Cryptography.** The in-place AES refines FIPS 197 section 5.1 with the key schedule of section 5.2
  computed on the way, and is a bijection for each key; the S-box table is the affine transform of the
  field inverse. The MIC is AES-CMAC (RFC 4493 sections 2.3 and 2.4), encryption is an involution whose
  key stream never repeats under one key (`Encrypt.KeyStreamIsFresh`), each of the two session keys is used
  for its own ports only, and parsing undoes building, options or not. A known frame comes out byte for
  byte (`KnownFrame.KnownFrame`), as does example 2 of RFC 4493 section 4 (`KnownAnswers.FullBlock`). The
  room check of `lorawan_tools_build` is an unsigned subtraction that wraps for targets below 13 bytes;
  `LorawanFrame.AcceptsIffFits` states exactly when it is right. Its 8-bit length wraps for payloads of
  247 to 255 bytes, which it accepts: the frame built is right exactly up to 246 bytes
  (`LorawanFrame.Build`).
* **UBX receiver.** Fed an exchange between any foreign traffic, split into polls in any way, the wait
  ends with the expected status and the response is in packetCfg (`UbxWait.ExchangeIsAnswered`,
  `UbxDriver.Receiver.WaitForAckResponse`), and at the end of the exchange the receiver is ready for the
  next; corrupted responses are never marked valid. On any bytes whatever, a byte is stored outside an
  array exactly if it is the third or a later payload byte of an acknowledgement that packetBuf collects
  (`UbxNoise.FaultIff`, `UbxNoise.FaultOfRun`); the checksum is the plain and the weighted sum of the bytes
  (`UbxFormat.FletcherIsSums`), and data is never reported as overwritten
  (`UbxNoise.NeverOverwritten`). The branch that would report it tests that class and ID still match,
  where its comment (app/src/gps_ublox/gps_ublox.cpp:1707-1714) speaks of their no longer matching; as the
  two flags of packetCfg are always set together, an earlier branch takes its place either way.
* **GPS.** The motion window is the true one if and only if the newest stale event also looks stale to
  the 32-bit clock (`GpsMotion.WindowIsTrueIff`), which gaps of less than about 49 days guarantee. At most
  hot_fix_retry + cold_fix_retry + 2 attempts fail in a row (`GpsRetry.FailuresAreBounded`), first the hot
  ones and then the cold ones (`GpsRetry.HotThenCold`).

## Assumptions

* The flash device and its non-volatile variables work without faults, there are at least two blocks, a
  block holds at least 256 bytes, and blocks fill the flash. A stored message has a length byte that
  counts its data, at most 250 bytes and a port up to 32.
* Other flash commands and the sender's thread do not run during a read-out. What the sender's thread
  answers is a parameter.
* The configuration is set before the LoRaWAN start command. The modem takes over its parameters when a
  join is started, and calls the joined callback in the same run of its engine in which the join is
  accepted; before that callback the old stored session is gone or the new one is stored. The checksum of
  the joined-configuration record detects damage.
* Time is read once per motion event. A satellite message that is not refused for its size has a length
  byte that counts its data.
* packetCfg is the packet the caller waits with, and its starting spot is 0, as everywhere in the driver.

## Model

| member | source | states |
|---|---|---|
| FlashRecord.Recorded | app/src/flash/flash_interface.c:1018-1042 | a message, its port and the time form a record whose bytes are port, message, timestamp |
| FlashRecord.TimeRoundTrip | scripts/ttn_decoder.js:328-331 | the four timestamp bytes, least significant first, give back the 32-bit time |
| FlashRecord.TimeBytesAscend | app/src/flash/flash_interface.c:1032-1042 | the least significant byte of the time is written first |
| FlashRecord.EncodeAllConcat | app/src/flash/flash_interface.c:956-1050 | records written one after the other are the concatenation of their bytes |
| FlashRecord.RecordAt | app/src/flash/flash_interface.c:309-332 | where the k-th record starts its port, id, length and all its bytes are found, and the next one follows |
| FlashRecord.FilterConcat | app/src/flash/flash_interface.c:309-332 | selecting a port commutes with concatenation, port 0 selecting everything |
| FlashRecord.FilterIsExact | app/src/flash/flash_interface.c:309-332 | a port selects the records that carry it, each as often as it occurs, and port 0 all of them |
| FlashRecord.FilterCount | app/src/flash/flash_interface.c:286-332 | so many are selected as there are places with a record of the port |
| FlashLog.RingAdvanced | app/src/flash/flash_interface.c:803-876 | opening a block keeps the relation between start offset, block offset and the number of blocks used |
| FlashLog.LiveBlocksAdvanced | app/src/flash/flash_interface.c:828-884 | erasing the next block leaves every other live block's records in place and the new block empty |
| FlashLog.LiveBlocksExtended | app/src/flash/flash_interface.c:897-935 | programming records behind the last one extends the current block and no other |
| FlashLog.OldestAfterAdvance | app/src/flash/flash_interface.c:852-876 | the block whose messages are deducted is the one after the erased block |
| FlashLog.ProgrammedErased | app/src/flash/flash_interface.c:141-186 | ANDing data into an erased byte stores the data |
| FlashLog.ProgramClears | app/src/flash/flash_interface.c:141-186 | programming only clears bits, and stores the data if and only if all its bits were still set |
| FlashLog.ExtendedAccount | app/src/flash/flash_interface.c:925-935 | writing the buffer moves its count to the flash counter without changing what is deducted |
| FlashLog.AdvancedAccount | app/src/flash/flash_interface.c:859-876 | opening a block deducts exactly the new oldest block, and the guard N <= count never fails |
| FlashLog.Log.constructor | app/src/flash/flash_interface.c:1838-1875 | a cleared log is valid and holds nothing |
| FlashLog.Log.Erase | app/src/flash/flash_interface.c:94-139 | every byte of one block becomes 0xFF and no other byte changes |
| FlashLog.Log.Program | app/src/flash/flash_interface.c:141-186 | every byte becomes the AND of what was there and what is written; no other byte changes |
| FlashLog.Log.ReadHead | app/src/flash/flash_interface.c:296-312 | at a record the scan sees its port and length, behind the last one an invalid port |
| FlashLog.Log.GetNrMsgInBlock | app/src/flash/flash_interface.c:286-332 | the scan counts exactly the places of the block with a record of the port, all for port 0 |
| FlashLog.Log.MoveStart | app/src/flash/flash_interface.c:846-876 | the start offset follows the ring and the counter loses the new oldest block |
| FlashLog.Log.GoToNextBlock | app/src/flash/flash_interface.c:828-884 | the history gains an empty block, the ring and the room left in the block stay consistent |
| FlashLog.Log.ProgramBuffer | app/src/flash/flash_interface.c:897-925 | the buffered records are added to the current block, nothing lost to bits already cleared |
| FlashLog.Log.WriteBufferToFlash | app/src/flash/flash_interface.c:897-940 | the buffer's records end up in the current block or, if they do not fit, in the next; the buffer is empty |
| FlashLog.Log.AddByteToBuffer | app/src/flash/flash_interface.c:948-966 | one more byte of the record is in the buffer; a full buffer is full of whole records and is written out |
| FlashLog.Log.MakeRoom | app/src/flash/flash_interface.c:985-1005 | afterwards the message fits buffer and block, and nothing stored has changed |
| FlashLog.Log.Append | app/src/flash/flash_interface.c:1007-1052 | the record is appended to what is stored |
| FlashLog.Log.StoreMessage | app/src/flash/flash_interface.c:976-1052 | the log of all records grows by exactly this one, and opens a block exactly when it does not fit |
| FlashLog.Log.Flush | app/src/flash/flash_interface.c:897-940 | emptying the buffer changes nothing that is stored |
| FlashLog.Log.Advance | app/src/flash/flash_interface.c:828-884 | opening a block changes nothing that is stored |
| FlashLog.Log.Clear | app/src/flash/flash_interface.c:1838-1875 | nothing is stored any more and the counters are zero |
| FlashScan.FramingIsExact | app/src/flash/flash_interface.c:976-1052 | a message stored between its port and the time is read back as its record if and only if the port is at most 32 and its second byte counts its data |
| FlashScan.RecordAtByteOfEncode | app/src/flash/flash_interface.c:309-332 | reading where a record was encoded gives back that record |
| FlashScan.ParseScannable | app/src/flash/flash_interface.c:286-332 | a scan of a block finds exactly the records written to it |
| FlashScan.ScanFromBack | app/src/flash/flash_interface.c:772-815 | scanning from a live block round to the current one finds the live blocks' records in order |
| FlashScan.StartIsOldest | app/src/flash/flash_interface.c:803-884 | the ring invariant: the start offset is 0 or follows the current block, is the oldest live block, and offset plus room is the block's end |
| FlashScan.ScanIsSuffixOfStored | app/src/flash/flash_interface.c:803-1052 | scanning the log yields exactly a suffix of all stored records, cut at a block boundary |
| FlashScan.CounterMeaning | app/src/flash/flash_interface.c:859-935 | the counters equal the records stored until the first wrap, afterwards the live records plus first block minus oldest block |
| FlashScan.WritesHitErasedBytes | app/src/flash/flash_interface.c:897-1042 | the buffer fits the room left, lies in one block, and everything behind the write offset is still 0xFF |
| FlashWindow.SegmentsAreWindow | app/src/flash/flash_interface.c:1257-1330 | the parts taken from the blocks, put in order, are the window of the flat log |
| FlashWindow.FlattenFilterEach | app/src/flash/flash_interface.c:1229-1231 | selecting a port block by block selects it in the flat log |
| FlashWindow.WindowLength | app/src/flash/flash_interface.c:1257-1338 | a window delivers as many messages as it spans |
| FlashReadout.PayloadsAreRecords | app/src/flash/flash_interface.c:344-445 | the payloads handed over are, joined, the encoded records, none lost or repeated |
| FlashReadout.AtPosition | app/src/flash/flash_interface.c:772-794 | walking back stays on live blocks and reaches the start offset exactly at the oldest |
| FlashReadout.Readout.SendPayload | app/src/flash/flash_interface.c:344-409 | the payload is handed over, emptied, and the limit becomes the answer's |
| FlashReadout.Readout.CheckPayloadSend | app/src/flash/flash_interface.c:424-445 | the payload is sent exactly if the next message would exceed the limit; then it fits or the payload is empty |
| FlashReadout.Readout.CopyMessage | app/src/flash/flash_interface.c:551-580 | head, data and timestamp are appended to the payload |
| FlashReadout.Readout.PackMessages | app/src/flash/flash_interface.c:461-592 | messages start to end of the port are delivered in order, each once |
| FlashReadout.Readout.ReadBlockMessages | app/src/flash/flash_interface.c:461-609 | the same, with what is left in the payload sent at the end |
| FlashReadout.Readout.GetBlockPrevOffset | app/src/flash/flash_interface.c:772-794 | one live block back, or an error exactly at the oldest |
| FlashReadout.Readout.FindFirstBlock | app/src/flash/flash_interface.c:1226-1261 | finds the block and the spot that lie `start` messages before the newest, or fails exactly if there are not that many |
| FlashReadout.Readout.DeliverBlocks | app/src/flash/flash_interface.c:1269-1335 | delivers the window newest block first, ends at the oldest, and tells how many are missing |
| FlashReadout.Readout.ReadMessagesFromHead | app/src/flash/flash_interface.c:1173-1338 | the answer to start and count for every argument, with both first held against the counter |
| FlashReadout.AnswerIsWindow | app/src/flash/flash_interface.c:1173-1338 | within the counter the answer is positions max(0, T-start-n) to T-start-1 of the port's live log, each once and no record of another port, and min(n, T-start) is returned |
| FlashReadout.TooManyAsked | app/src/flash/flash_interface.c:1219-1221 | asked for more than the counter holds, as many records are delivered as were to be skipped |
| FlashReadout.TooManySkipped | app/src/flash/flash_interface.c:1212-1218 | skipping more than the counter holds is skipping what it holds |
| FlashReadout.Readout.SentIsDelivered | app/src/flash/flash_interface.c:424-592 | every payload keeps to the limit in force, over Bluetooth to what its service takes, or holds one record, and together they encode the delivered records |
| FlashReadout.Readout.SentIsDecoded | scripts/ttn_decoder.js:309-344 | each payload sent decodes to its records but a last one without data; all delivered records are decoded, in order, if and only if no payload ends in one |
| ReadoutDecoder.Decode | scripts/ttn_decoder.js:309-344 | the decoder's loop, with JavaScript's reads past the end |
| ReadoutDecoder.DecodeUndoesPacking | scripts/ttn_decoder.js:309-344 | decoding recovers port, time and decoded message of every record of a payload but a last one without data, leaving port 29 undecoded; all of them if and only if the last has data |
| ReadoutDecoder.EmptyMessageIsLost | scripts/ttn_decoder.js:320-320 | a payload of one record without data decodes to nothing |
| LorawanSession.StepKeeps | app/src/lorawan/lorawan.c:348-390 | every step, settings change and loss of power keeps the invariant of record, session, pending change and attempt |
| LorawanSession.RunKeeps | app/src/lorawan/lorawan.c:548-1143 | the invariant holds after every run |
| LorawanSession.StoredRecordMatches | app/src/lorawan/lorawan.c:297-390 | an intact record on storage always belongs to the stored session, whenever the power goes |
| LorawanSession.ResumesIffMatching | app/src/lorawan/lorawan.c:1048-1093 | a restored session is kept if and only if its join is on record and matches region, JoinEUI and AppKey checksum now configured |
| LorawanSession.ChangeIsSeen | app/src/lorawan/lorawan.c:1056-1064 | a changed region or JoinEUI, or an AppKey changed within four consecutive bytes, makes another activation |
| LorawanSession.ChangedByteIsSeen | app/src/lorawan/lorawan.c:1056-1064 | in particular one changed byte of the AppKey |
| LorawanSession.UnseenChange | app/src/lorawan/lorawan.c:1056-1064 | two AppKeys that differ in five bytes and give the same activation |
| CrcIeee.CheckValue | app/src/lorawan/lorawan.c:369-371 | crc32_ieee is the CRC-32 whose check value is 0xCBF43926 |
| CrcIeee.BurstDetected | app/src/lorawan/lorawan.c:369-371 | strings that differ within four consecutive bytes have different checksums |
| CrcIeee.CollisionExists | app/src/lorawan/lorawan.c:369-371 | strings that differ in five can have the same one |
| LorawanSession.SendsMatch | app/src/lorawan/lorawan.c:584-612 | send_frame is reached only when joined, after a check without pending change at which the session had the desired configuration |
| LorawanSession.LatchedChangeSurvives | app/src/lorawan/lorawan.c:348-390 | a latched change stays pending, or is given back, until a join with a configuration taken after it has been started |
| LorawanSession.SettledMatches | app/src/lorawan/lorawan.c:1277-1306 | between events with nothing pending, any join or session has the desired configuration and no change is unserved |
| LorawanSession.RefusedResetHarmsIff | app/src/lorawan/lorawan.c:1031-1036 | after a refused first call of the reset callback some continuation sends in a session of another configuration if and only if nothing was pending and the session was joined with another configuration |
| LorawanSession.MismatchIsObservable | app/src/lorawan/lorawan.c:1048-1064 | with a joined configuration on record, the session has the desired configuration if and only if the record equals it |
| LorawanSession.FailedResetSendsMismatched | app/src/lorawan/lorawan.c:1027-1036 | a run in which it does: a frame is sent in a session with another configuration |
| LorawanSession.ResumeHappens | app/src/lorawan/lorawan.c:1066-1072 | a run in which a session survives a loss of power, is resumed, and is used for sending |
| LorawanThread.NewestTwice | app/src/lorawan/lorawan.c:397-421 | dropping the oldest twice keeps what dropping once at the end would keep |
| LorawanThread.Queue.PutDroppingOldest | app/src/lorawan/lorawan.c:397-421 | the queue holds the newest messages that fit, the new one last |
| LorawanThread.Lorawan.SetConfiguration | app/src/lorawan/lorawan.c:1277-1306 | the configuration is replaced, and a change after the first setting is latched |
| LorawanThread.Lorawan.DropRecord | app/src/lorawan/lorawan.c:353-359 | takes the protocol's step that deletes the record exactly if the storage consents, or stops |
| LorawanThread.Lorawan.ConfigureModem | app/src/lorawan/lorawan.c:361-376 | takes the protocol's step that configures the modem and clears the pending change exactly if the modem consents, or stops with it intact |
| LorawanThread.Lorawan.JoinNetwork | app/src/lorawan/lorawan.c:378-389 | takes the protocol's step that starts the join exactly if the modem consents, or gives the pending change back |
| LorawanThread.Lorawan.StartJoin | app/src/lorawan/lorawan.c:348-390 | a join is started exactly if storage and modem consent three times; it has the configuration of the moment and later changes are pending, otherwise a pending change still is |
| LorawanThread.Lorawan.Rejoin | app/src/lorawan/lorawan.c:583-602 | with a change pending the network is left if need be and a new join started, exactly if each consents; otherwise the change stays pending |
| LorawanThread.Lorawan.SendFrame | app/src/lorawan/lorawan.c:429-478 | the frame is handed over exactly if the duty cycle and the payload limit allow it |
| LorawanThread.Lorawan.HandleMessage | app/src/lorawan/lorawan.c:566-633 | running, enabled, joined and with nothing pending the frame is sent exactly if the modem accepts it, in a session with the desired configuration; with a change pending, or not joined, a join is started exactly if storage and modem consent; every other frame is kept among the four newest unless the module is disabled |
| LorawanThread.Lorawan.Initialize | app/src/lorawan/lorawan.c:979-998 | reads the record back before the modem takes up its session, which it does exactly if it consents, then waits for the reset callback |
| LorawanThread.Lorawan.CompareConfigurations | app/src/lorawan/lorawan.c:1048-1064 | the field-by-field comparison is equality of activations |
| LorawanThread.Lorawan.OnModemReset | app/src/lorawan/lorawan.c:1027-1094 | resumes exactly on a match and requeues the waiting messages; else marks the change and leaves, and starts a join without a session or a record, each exactly if the modem and the storage consent |
| LorawanThread.Lorawan.OnNetworkJoined | app/src/lorawan/lorawan.c:1099-1114 | the attempt becomes the joined configuration and the waiting messages are queued again |
| LorawanThread.Lorawan.CompleteJoin | app/src/lorawan/lorawan.c:1099-1114 | the session is stored and the record written exactly if the storage consents |
| LorawanThread.Lorawan.RescheduleMessages | app/src/lorawan/lorawan.c:481-490 | waiting messages move to the event queue in order, the newest kept |
| LorawanThread.Lorawan.OnJoinFail | app/src/lorawan/lorawan.c:1122-1138 | failures are counted; the third ends the attempt and leaves the network if the modem consents, fewer change nothing |
| LorawanThread.Lorawan.HandleLeave | app/src/lorawan/lorawan.c:638-649 | leaving on command is a step of the protocol; the session goes exactly if the modem consents, the attempt always |
| LorawanThread.Lorawan.HandleReset | app/src/lorawan/lorawan.c:654-666 | resetting on command likewise, and then starts over |
| LorawanThread.Lorawan.HandleStart | app/src/lorawan/lorawan.c:650-653 | the start command leads to initialization |
| LorawanThread.Lorawan.HandleSuspend | app/src/lorawan/lorawan.c:804-821 | a running engine is suspended and disabled if the modem consents, any other is disabled |
| LorawanThread.Lorawan.HandleResume | app/src/lorawan/lorawan.c:822-843 | a suspended engine runs again if the modem consents, a running one is enabled |
| LorawanThread.Lorawan.HandleRadioAccess | app/src/lorawan/lorawan.c:667-704 | an enabled module is suspended and resumed around a scan; it runs afterwards exactly if the modem resumes, or ran and was not suspended |
| LorawanThread.Lorawan.FieldsAreSafe | app/src/lorawan/lorawan.c:297-390 | what every admissible run keeps holds of the thread's own fields after any handlers |
| GaloisField.MulLinear | lib/lorawan_tools/AES-128_V10.c:236-254 | multiplication in GF(2^8) by the MixColumns coefficients is linear |
| SBox.SubByteIsAffineOfInverse | lib/lorawan_tools/AES-128_V10.c:43-75 | every table entry is the affine transform of the field inverse (FIPS 197 section 5.1.1) |
| SBox.SubByteRoundTrip | lib/lorawan_tools/AES-128_V10.c:180-193 | the inverse table undoes the table, both ways |
| Fips197.RoundKeyStep | lib/lorawan_tools/AES-128_V10.c:264-311 | the round key made from its predecessor alone is words 4r to 4r+3 of KeyExpansion (section 5.2) |
| Fips197.MixColumnRoundTrip | lib/lorawan_tools/AES-128_V10.c:236-254 | InvMixColumns undoes MixColumns, both ways (sections 5.1.3 and 5.3.3) |
| Fips197.CipherBijective | lib/lorawan_tools/AES-128_V10.c:84-254 | for each key the inverse cipher undoes the cipher and the other way round |
| KnownAnswers.FullBlock | lib/lorawan_tools/AES-128_V10.c:84-311 | the cipher, its key schedule and the CMAC of a full block as in example 2 of RFC 4493 section 4 |
| Aes.MixColumnByShifts | lib/lorawan_tools/AES-128_V10.c:240-253 | the shift-and-xor column step is the matrix of section 5.1.3 |
| Aes.Engine.AddRoundKey | lib/lorawan_tools/AES-128_V10.c:160-170 | the state is XORed with the round key |
| Aes.Engine.SubBytes | lib/lorawan_tools/AES-128_V10.c:107-118 | every byte goes through the table |
| Aes.Engine.ShiftRows | lib/lorawan_tools/AES-128_V10.c:200-226 | the rows are rotated as in section 5.1.2 |
| Aes.Engine.MixColumns | lib/lorawan_tools/AES-128_V10.c:236-254 | the columns are mixed as in section 5.1.3 |
| Aes.Engine.RoundConstant | lib/lorawan_tools/AES-128_V10.c:290-300 | the loop computes x^(round-1) in GF(2^8) |
| Aes.Engine.CalculateRoundKey | lib/lorawan_tools/AES-128_V10.c:264-311 | the key in place becomes the next round key |
| Aes.Engine.Encrypt | lib/lorawan_tools/AES-128_V10.c:84-151 | the data becomes the Cipher of section 5.1, also if key and data are the same array; the key is unchanged otherwise |
| Rfc4493.ShiftedBytesIsShift | lib/lorawan_tools/Encrypt_V20.c:394-424 | shifting the bytes with their carries shifts the 128-bit number |
| Rfc4493.DoubledByBytes | lib/lorawan_tools/Encrypt_V20.c:342-392 | shift and conditional constant on bytes is doubling in GF(2^128) (section 2.3) |
| Encrypt.EncryptedTwice | lib/lorawan_tools/Encrypt_V20.c:56-131 | encrypting twice gives the payload back, for every length |
| Encrypt.KeysAreApart | lib/lorawan_tools/Encrypt_V20.c:106-110 | application data does not depend on the network key, nor port 0 on the application key |
| Encrypt.KeyStreamIsFresh | lib/lorawan_tools/Encrypt_V20.c:78-110 | under one key two blocks of key stream are equal only for the same direction, address, counter and position |
| Encrypt.HeaderFields | lib/lorawan_tools/Encrypt_V20.c:86-103 | the direction is 0 or 1, and the counter has its least significant byte first, four bytes only when wide |
| Encrypt.AuthInfo.SessionHolds | lib/lorawan_tools/Encrypt_V20.c:106-110 | each key and the address of the session is the array of that name |
| Encrypt.ShiftLeft | lib/lorawan_tools/Encrypt_V20.c:394-424 | the array is shifted left by one bit |
| Encrypt.Xor | lib/lorawan_tools/Encrypt_V20.c:426-433 | the first array is XORed with the second |
| Encrypt.GenerateKeys | lib/lorawan_tools/Encrypt_V20.c:342-392 | K1 and K2 are the subkeys of section 2.3 |
| Encrypt.MaskedLastBlock | lib/lorawan_tools/Encrypt_V20.c:198-232 | full and padded last block are masked with K1 and K2 (section 2.4) |
| Encrypt.CalculateAesCmac | lib/lorawan_tools/Encrypt_V20.c:133-243 | the first four bytes of the CMAC of header and data for every 8-bit length; for length 0 it covers sixteen bytes of data all the same |
| Encrypt.CalculateMic | lib/lorawan_tools/Encrypt_V20.c:258-340 | at minor version 1.0 the MIC of section 4.4 of LoRaWAN 1.0 |
| Encrypt.EncryptPayload | lib/lorawan_tools/Encrypt_V20.c:56-131 | the payload is XORed with the key stream of section 4.3.3 |
| LorawanFrame.ParseUndoesBuild | lib/lorawan_tools/lorawan_tools.c:46-173 | parsing a built frame gives the payload, the port and the counter modulo 2^16, for both counter widths |
| LorawanFrame.OptionsAreSkipped | lib/lorawan_tools/lorawan_tools.c:113-160 | a frame with up to fifteen bytes of options, any other control bits and any MIC still parses to its payload |
| LorawanFrame.BodyWithoutNetworkKey | lib/lorawan_tools/lorawan_tools.c:46-98 | on a port other than 0 nothing before the MIC depends on the network key |
| LorawanFrame.MessageType | lib/lorawan_tools/lorawan_tools.c:53-59 | the header byte is the message type of LoRaWAN 1.0 section 4.2.1 |
| LorawanFrame.KindOfType | lib/lorawan_tools/lorawan_tools.c:118-131 | a header with only its type set is data, the even types going up and the odd ones down; the last type and every other header is handed over raw |
| KnownFrame.KnownFrame | lib/lorawan_tools/lorawan_tools.c:46-98 | keys, address, counter and payload of a known uplink give its seventeen bytes |
| LorawanFrame.AcceptsIffFits | lib/lorawan_tools/lorawan_tools.c:180-184 | the room check is right exactly for targets of at least 13 bytes; below, the subtraction wraps and all is accepted |
| LorawanFrame.Build | lib/lorawan_tools/lorawan_tools.c:175-195 | an accepted payload of 8-bit length is framed correctly if and only if it has at most 246 bytes; otherwise the error is returned and nothing changed |
| LorawanFrame.BuildLorawan | lib/lorawan_tools/lorawan_tools.c:46-98 | header, encrypted payload and MIC in the target for up to 246 bytes; beyond, what is left of the body when the 8-bit length wraps |
| LorawanFrame.Parse | lib/lorawan_tools/lorawan_tools.c:100-173 | every kind of frame, every error and what is left in the out-parameters |
| UbxNoise.FaultIff | app/src/gps_ublox/gps_ublox.cpp:1206-1232 | on any byte, a store outside a payload array happens exactly for a payload byte beyond the second of an acknowledgement in packetBuf |
| UbxNoise.FaultOfRun | app/src/gps_ublox/gps_ublox.cpp:749-923 | on any bytes, exactly if one of them was such a byte |
| UbxTraffic.SteadyRun | app/src/gps_ublox/gps_ublox.cpp:1023-1050 | whatever comes in, no RTCM length of 1 is left over and responses are still recorded from their start |
| UbxTraffic.UnrequestedFrame | app/src/gps_ublox/gps_ublox.cpp:801-830 | a frame nobody asked for, of any length, leaves packetCfg and packetAck alone; one of over 250 bytes is given up early, and only an acknowledgement of over two bytes is stored outside an array |
| UbxTraffic.ResponseFrame | app/src/gps_ublox/gps_ublox.cpp:1073-1241 | the response is collected in packetCfg, valid exactly if its checksum bytes are right |
| UbxTraffic.AckFrame | app/src/gps_ublox/gps_ublox.cpp:863-905 | the acknowledgement ends up in packetAck with the flag its kind and checksum deserve |
| UbxTraffic.SumStep | app/src/gps_ublox/gps_ublox.cpp:1079-1081 | the rolling checksum takes up class, ID, length and payload and nothing else |
| UbxWait.RtcmPasses | app/src/gps_ublox/gps_ublox.cpp:1023-1050 | an RTCM frame, of ten bits of length and six bytes around it, is left exactly at its end, whatever length an earlier frame left over |
| UbxWait.ForeignTraffic | app/src/gps_ublox/gps_ublox.cpp:749-923 | text, RTCM and unrequested frames, broken off anywhere, leave no trace |
| UbxWait.ExchangeIsJudged | app/src/gps_ublox/gps_ublox.cpp:1657-1824 | after any number of bytes there is no verdict before the acknowledgement is complete and the expected one from then on; at the end the receiver is idle |
| UbxWait.WaitedIsRun | app/src/gps_ublox/gps_ublox.cpp:1672-1824 | the wait processes a part of what comes in, in order, and stops early only at a verdict |
| UbxNoise.VerdictOfFlags | app/src/gps_ublox/gps_ublox.cpp:1677-1798 | after any bytes the two match flags decide the verdict: data received means right class, ID and checksum, and no other combination of the seven branches is open |
| UbxNoise.NeverOverwritten | app/src/gps_ublox/gps_ublox.cpp:1657-1824 | on any bytes in any polls the wait never reports overwritten data, reports data only if packetCfg is valid and matches, and times out only after all of them |
| UbxWait.ExchangeIsAnswered | app/src/gps_ublox/gps_ublox.cpp:1657-1824 | the same for the wait as a whole, however the bytes are split into polls, and for a wait that ends early |
| UbxWait.ChangedByteDetected | app/src/gps_ublox/gps_ublox.cpp:1569-1573 | one changed byte changes the checksum |
| UbxWait.SwapDetected | app/src/gps_ublox/gps_ublox.cpp:1569-1573 | two swapped unequal neighbours change the checksum |
| UbxWait.CorruptedResponseIsRejected | app/src/gps_ublox/gps_ublox.cpp:1096-1195 | a response so corrupted is marked NOT_VALID |
| UbxWait.IntactResponseIsAccepted | app/src/gps_ublox/gps_ublox.cpp:1097-1120 | a response as it was sent is marked VALID and its payload kept |
| UbxFormat.FletcherIsSums | app/src/gps_ublox/gps_ublox.cpp:1569-1573 | the two bytes are the sum of the bytes and the sum weighted by the distance to the end, modulo 256 |
| UbxFormat.SentenceStarts | app/src/gps_ublox/gps_ublox.cpp:752-776 | between sentences exactly 0xB5 starts a UBX frame, 0xD3 an RTCM frame and a dollar sign text, and nothing else changes |
| UbxFormat.KnownAnswers | app/src/gps_ublox/gps_ublox.cpp:1677-1798 | the acknowledgement and the refusal of CFG-RATE as they stand on the wire end the wait as sent and as refused |
| UbxFormat.KnownExchange | app/src/gps_ublox/gps_ublox.cpp:1657-1824 | an empty RTCM frame, the CFG-RATE response and its acknowledgement, byte for byte, are received as data |
| UbxDriver.UbxPacket.Judge | app/src/gps_ublox/gps_ublox.cpp:1102-1195 | sets the two flags as the receiver's function says |
| UbxDriver.UbxPacket.File | app/src/gps_ublox/gps_ublox.cpp:1073-1241 | files a byte in place as the receiver's function says |
| UbxDriver.UbxPacket.CalcChecksum | app/src/gps_ublox/gps_ublox.cpp:1544-1565 | the packet's checksum bytes become those of the frame that will be sent |
| UbxDriver.Receiver.Process | app/src/gps_ublox/gps_ublox.cpp:749-923 | the packets change in place as the receiver's function says, and a byte is stored outside an array exactly if it overruns packetBuf |
| UbxDriver.Receiver.Poll | app/src/gps_ublox/gps_ublox.cpp:734-745 | all bytes of a poll are processed in order |
| UbxDriver.Receiver.WaitForAckResponse | app/src/gps_ublox/gps_ublox.cpp:1657-1824 | on an exchange: the expected status, the data in packetCfg, no store outside an array, and a receiver ready for the next exchange; on anything, how much was processed and no overwritten data |
| UbxDriver.Receiver.SendSerialCommand | app/src/gps_ublox/gps_ublox.cpp:1489-1509 | the bytes written are the packet's frame |
| UbxDriver.Receiver.SendCommand | app/src/gps_ublox/gps_ublox.cpp:1369-1386 | the frame written is intact, so that a receiver of the protocol accepts it |
| SatelliteBuffer.FramedIsRecord | app/src/satellite/satellite.c:1377-1389 | a framed message is, byte for byte, the record the flash log would keep |
| SatelliteBuffer.FramedLength | app/src/satellite/satellite.c:1092-1107 | a framed message that fits is an entry whose length the eviction finds, if and only if its second byte counts its data |
| SatelliteBuffer.LongestFittingIsExact | app/src/satellite/satellite.c:1352-1375 | the suffix kept is the longest that fits: one fits exactly if it starts no earlier |
| SatelliteBuffer.LongestAppended | app/src/satellite/satellite.c:1352-1393 | dropping just enough of the oldest and appending keeps the longest suffix |
| SatelliteBuffer.SatBuffer.RemoveFirst | app/src/satellite/satellite.c:1092-1107 | exactly the oldest message is gone |
| SatelliteBuffer.SatBuffer.MakeRoom | app/src/satellite/satellite.c:1360-1375 | at most 48 messages are dropped, no more than needed, and the emergency clear is not reached |
| SatelliteBuffer.SatBuffer.AddMessage | app/src/satellite/satellite.c:1352-1393 | the buffer encodes the longest suffix of the messages added that fits in 340 bytes; impossible sizes are refused |
| SatelliteBuffer.SatBuffer.AddStatusMessage | app/src/satellite/satellite.c:1285-1302 | an empty buffer then holds the framed status message |
| SatelliteBuffer.SatBuffer.Send | app/src/satellite/satellite.c:800-808 | what is sent is the buffer's messages, and only success empties it |
| GpsMotion.LooksRight | app/src/gps_ublox/gps.c:1078-1081 | a fresh event always looks fresh to the 32-bit clock, a stale one looks stale while its age has not wrapped |
| GpsMotion.WindowIsTrueIff | app/src/gps_ublox/gps.c:1073-1085 | the code's window is the true one if and only if the newest stale event looks stale |
| GpsMotion.FreshCount | app/src/gps_ublox/gps.c:1073-1085 | the true window has as many events as there are places with one less than interval + 1 seconds ago |
| GpsMotion.CloseEventsSuffice | app/src/gps_ublox/gps.c:1073-1085 | it is whenever consecutive events are less than 2^32 ms minus the interval apart |
| GpsMotion.OldEventLooksNew | app/src/gps_ublox/gps.c:1078-1081 | an event 2^32 ms old is counted as new |
| GpsMotion.FreshOfWindow | app/src/gps_ublox/gps.c:1087-1093 | what was dropped as stale never belongs to a later window |
| GpsMotion.Motion.CountEvents | app/src/gps_ublox/gps.c:1073-1085 | the loop counts the events from the newest back to the first that looks stale |
| GpsMotion.Motion.Slide | app/src/gps_ublox/gps.c:1058-1093 | the array then starts with exactly those, in order |
| GpsMotion.Motion.HandleEvent | app/src/gps_ublox/gps.c:1058-1106 | the index stays in the array; a fix is requested and the array cleared exactly if the count reaches the threshold |
| GpsMotion.Motion.HandledIsTrueWindow | app/src/gps_ublox/gps.c:1058-1106 | with close enough events the array is exactly the events since the last clearing at most the interval old, and a fix is requested exactly when they are as many as the threshold |
| GpsRetry.FailureCounts | app/src/gps_ublox/gps.c:713-906 | a failure brings the limit nearer, by exactly one unless a cold fix expires; the limit is reached at zero |
| GpsRetry.FailureDescends | app/src/gps_ublox/gps.c:713-906 | a failure gives up the cold fix, or uses up a hot retry, or a cold one |
| GpsRetry.SuccessRestores | app/src/gps_ublox/gps.c:896-904 | any success restores all attempts |
| GpsRetry.FailuresAreBounded | app/src/gps_ublox/gps.c:713-958 | at most hot_fix_retry + cold_fix_retry + 2 failures in a row; without expiry the gate closes after exactly those left |
| GpsRetry.HotThenCold | app/src/gps_ublox/gps.c:713-906 | without expiry exactly hot_fix_retry + 1 failed hot fixes give up the cold fix, and cold_fix_retry + 1 failed cold ones end the attempts |
| GpsRetry.ExpiredIsCold | app/src/gps_ublox/gps.c:748-757 | with an expired cold fix the attempt is a cold one |
| GpsRetry.HitIff | app/src/gps_ublox/gps.c:765-786 | the acquisition hits exactly if some turn has new data and none before it too few satellites |
| GpsRetry.Retry.ResetFixState | app/src/gps_ublox/gps.c:635-646 | the context starts over |
| GpsRetry.Retry.AcquireCold | app/src/gps_ublox/gps.c:765-786 | the loop hits exactly if data comes before it is given up, and then resets both counters |
| GpsRetry.Retry.AcquireHot | app/src/gps_ublox/gps.c:849-872 | the loop hits exactly if data comes before it is given up, and then resets the hot counter |
| GpsRetry.Retry.GetFix | app/src/gps_ublox/gps.c:713-906 | an attempt changes flags and counters as the machine says; a disabled receiver is an error |
| GpsRetry.Retry.SendInterval | app/src/gps_ublox/gps.c:947-958 | no attempt is due once the retries are exhausted |

## Left out

- Flash device faults, the non-volatile copies of the log's offsets and their recovery after a reboot, and the flash status message.
- FlashLog.Log.Erase: errors of the device and the timeout of its mutex are left out.
- FlashLog.Log.Program: errors of the device and the timeout of its mutex are left out.
- FlashLog.Log.WriteBufferToFlash: a failed write, after which the source throws the buffer away, is left out with the device's faults.
- FlashLog.Log.MakeRoom: the returns after a failed write are left out with the device's faults.
- FlashLog.Log.Append: is stated for messages of at most 250 bytes whose length byte counts their data and ports up to 32; the code checks neither, and FlashScan.FramingIsExact says what becomes of the others.
- FlashLog.Log.StoreMessage: is stated for the same messages as FlashLog.Log.Append.
- The busy checks on the sender's queues before and during a read-out, timeouts of the sender's answer, and the batched "read continue" command, whose start and count arithmetic repeats or skips messages.
- FlashReadout.Readout.SendPayload: an error of handing over the payload is left out; the source then stops the read-out.
- FlashReadout.Readout.CheckPayloadSend: the error of the send is left out in the same way.
- FlashReadout.Readout.PackMessages: breaking off for a busy queue or a failed read is left out.
- FlashReadout.Readout.ReadBlockMessages: breaking off for a busy queue or a failed read is left out.
- FlashReadout.Readout.DeliverBlocks: stopping at a busy queue is left out.
- FlashReadout.Readout.ReadMessagesFromHead: the returns for a busy queue before and during the read-out are left out.
- prv_read_all_messages and prv_read_block, which deliver whole blocks by the same steps.
- The LoRaWAN 1.1 branch of Calculate_MIC, which the frame builder never uses.
- The Semtech modem, the LR11xx drivers, LP0, GNSS and WiFi scans beyond their effect on the thread's state, S-band and VHF transmissions, ADR profiles, and the waiting for a finished transmission.
- LorawanThread.Lorawan.HandleMessage: duty cycle and payload limits of send_frame are two answers of the modem; a frame that does not fit counts as lost.
- Events put into the queues by other threads while a handler runs.
- NMEA sentences beyond their start character, satellite lists, the evaluation of received packets, waitForNoACKResponse, and the I2C transport.
- The 16-bit counters of the UBX receiver, which are unbounded numbers here; a frame ends before they could wrap.
- UbxTraffic.ResponseFrame: is stated for responses of at most 250 bytes; a longer one is given up before its checksum, as UbxTraffic.UnrequestedFrame says of other frames.
- UbxDriver.Receiver.SendCommand: the wait that follows is UbxDriver.Receiver.WaitForAckResponse, and the I2C path is left out.
- Satellite modem sessions; only whether one succeeds matters here.
- SatelliteBuffer.SatBuffer.AddMessage: is stated for messages whose length byte counts their data, since only those are entries from which the oldest can be taken off again (SatelliteBuffer.FramedLength); the code does not check it.
- SatelliteBuffer.SatBuffer.Send: the modem session is one answer, success or not.
- GpsMotion.Motion.HandleEvent: the uptime is read once per event, where the source reads it again for every comparison.
- GpsRetry.Retry.GetFix: active tracking, the back-off and the time to fix are left out.
- GpsRetry.Retry.SendInterval: the intervals, skipped attempts and back-off that decide whether an attempt is due are one parameter.
- Active tracking, time to fix, and the power and battery-backup pins of the GPS.
