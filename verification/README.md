# The CD deck driver, modelled and proved

The driver turns the raw bit stream of an automotive CD deck into 2048-byte data sectors. A DMA interrupt writes blocks of
captured samples into a ring of 2097152 samples; a reader seeks the deck, waits until the ring holds enough, copies raw
bytes into a chunk buffer, searches them for sector syncs, descrambles and decodes in place, and compacts the user data to
the front of the same buffer. This project models that code in Dafny and proves what it is for.

## Layers

| module | what it holds |
|---|---|
| `Words`, `Layout`, `MsfTime` | machine words, sector layout and read planning, BCD and minute/second/frame arithmetic |
| `KmpSearch` | the failure table and the search, against trying every index |
| `SingleBuffer` | the circular buffer: as a value, and as the driver's object with its methods |
| `Capture` | the ring with its status words as a transition system: interrupt, consume, seek, enable, disable, force stop, ... |
| `FlowControl`, `RingQueue`, `Overruns`, `Shock` | when the capture may run, the ring as an unbounded queue, the runs that break it, shock rollback |
| `Unread` | how much of what a read stores are samples not read before, and that nothing else of it is to be relied upon |
| `Trails`, `Worlds` | the record the driver keeps of its run of `Capture`, what kinds of steps keep it calm, and how it keeps to what the outside world does |
| `SectorMachine` | the goto loop of `CD_DescrambleSector` as a transition system over `TRY_READ` and `SEARCH_LBN` visits |
| `Branches` | each branch of that machine in the driver's own numbers, and how each code it ends with comes about |
| `InOrder`, `Provenance`, `Lockstep`, `RetryBound` | theorems over every run of that machine, for arbitrary inputs |
| `Completeness`, `OnePass`, `ReadAhead` | theorems for well-formed streams: one pass suffices; serving calls from the ring agrees with seeking |
| `Retries` | passes that fail, the calls that recover from them, and those that do not |
| `Waits` | what ends a wait for samples, look by look, and how the attempts of a read follow each other |
| `Evidence` | what the driver feeds that machine with: peeks of the ring and answers of the world, visit by visit |
| `SentBytes` | a call of the driver on whatever the deck sends: what it delivers was captured |
| `Outcomes` | what the code that a call of the driver ends with says of it |
| `DiscCalls`, `ManyCalls` | a call of the driver, and any number of calls, when a disc plays |
| `Mishaps` | runs in which the caller receives what the deck has not sent for it, or what the decoder could not repair |
| `Driver` | the driver as one object whose methods change the chunk buffer, the ring and the status words in place, proved to take exactly the steps of `SectorMachine` and `Capture` |

Everything outside the driver (captured blocks, shocks, the disc unmounted and mounted, the deck's answers, memory
exhaustion, the decoder) is an arbitrary function of time, `CdDriver.world`; the decoder of a moment is an arbitrary function
of the sector it is given. The descrambler is an arbitrary function on 2352-byte sectors. Interrupts come in wherever the
driver looks at anything that time can change (`CdDriver.Observe`). The driver keeps a record of its run of `Capture`, and
every method proves that record faithful (`Worlds.Faithful`): what the world has done up to now, moment after moment, nothing
left out but the blocks that came with capture off, and nothing made up, with the driver's own steps in between.

The loops of `CD_CopyReadData` are one step here; `RingQueue.CopyIsUndisturbed` proves that interrupts between any two of
their words change nothing, as long as the ring is guarded and no more is copied than is there. A short read, behind
`CD_BUF_FULL`, copies more than is there; see "Left out".

## Main results

* **In-order delivery, from the ring to the caller** (`InOrder.InOrderDelivery`, `Provenance.CallIsAccountedFor`,
  `Evidence.CallHandsOut`, `Driver.CdDriver.DescrambleSector`, `Driver.CdDriver.ReadSector`). Whatever the deck sends and
  whatever the machine does about it, slot i of a successful call is the user data of what the decoder made, at a known time
  of the call, of a sector that begins with a sync and whose descrambled header (bytes 12 to 14, in BCD) names frame
  start + i: bytes 16 to 2063 if byte 15 says mode 1, else bytes 24 to 2071 (`Layout.Extracted`); no later read, jump or copy
  disturbs it (`InOrder.DeliveriesStay`). Every input of the run is accounted for: what a read stored is the peek of the
  ring in a known state of the recorded run, fill levels and force stop are those of such states, and the decoder is asked at
  ever later times (`Evidence.Told`). From byte 304 on a delivered sector comes out the same whatever the ring held besides
  its unread samples and the buffer before the read, and is those samples at its place, if and only if it ended inside them:
  `at - base + 2352 <= min(size read, 4 * samples available at the read)` (`Unread.DeterminedExactly`,
  `Evidence.ExactlyUnread`). So it always does when no read is short and the cursor stays inside what was read, and then the
  sector is, from byte 304 on, the stream captured since the last seek, as far behind the reader as the sector lies behind
  the beginning of its read (`SentBytes.DeliversWhatWasSent`). Every word of the ring is one of a captured block, or 0 since
  the driver was initialised (`Worlds.MemoryWasCaptured`).
* **Completeness** (`OnePass.SeekToleranceSuffices`, `DiscCalls.CallDelivers`). For up to 187 sectors, or 200, of a well-formed
  stream, if the lead before the first sync, up to five sectors of another place that the deck sends first, and the frames
  ahead of the request take no more than twelve sectors' room, one read delivers every sector as it is on the disc, and
  nothing beyond what was read is inspected. So a call of the driver, begun calm with a disc in, on captured blocks that form
  such a stream, succeeds with every slot as on the disc, whatever else is captured meanwhile
  (`Driver.CdDriver.DescrambleSector`, `Driver.CdDriver.ReadSector`). That its read is answered in full follows from what the
  world does: the deck takes the seek, and nothing but blocks comes within the wait, and enough of them
  (`Worlds.SeekAnswered`, `Evidence.Answerable`, `Driver.CdDriver.ReadData`).
* **Any number of calls** (`ManyCalls.EveryCallDelivers`). One call of the driver after another, some sought and some served
  from the ring, on an obliging disc: each succeeds after a single read with every slot as on the disc, and leaves the ring a
  calm queue with no stale report, and the reader at the first sample of the sector behind the last one delivered.
* **Recovery** (`Retries.Recovers`, `Retries.FreshCallRecovers`). A call survives two passes that come in elsewhere on the
  disc, one without a sync and one with a sector the decoder cannot repair, or fewer, in any order and with sectors delivered
  in between or none: a pass over a stream of the disc's sectors then ends it in success, after one read more than there were
  failures, with every slot as on the disc. A second pass without a sync ends it with KMP_ERROR (`Retries.SecondSilence`),
  and the fourth in a row elsewhere with FRAME_OVER or FRAME_UNDER (`Retries.FourthMiss`).
* **Waits and answers** (`Waits.EndsOnce`, `Waits.ShockEndsWait`, `Waits.ForceEndsWait`, `Outcomes.EveryCodeIsExplained`). What
  ends a wait, and after how many looks, is settled by what the world does: enough in the ring, a shock or a force stop on
  record at a look that tests for it, or the last round. A read is a row of attempts that have timed out but for the last,
  each seek of them sent to the place six frames before the next frame wanted, and the last decides what is answered
  (`Evidence.ReadBy`, `Driver.CdDriver.ReadData`). So the code of every call is explained by its last input: DECK_ERROR
  exactly when the deck has refused the last seek, and each other code for its own reason. A call under force stop ends
  before it touches anything, and no other does (`Driver.CdDriver.Prepare`, `Driver.CdDriver.DescrambleSector`).
* **The read-ahead ring agrees with seeking** (`ReadAhead.RingServesEveryCall`, `ReadAhead.NoSeekAgreesWithSeek`,
  `DiscCalls.RingCallDelivers`). After any number of calls on an aligned stream the reader stands at the first sample of the
  sector behind the last one delivered; `CD_Research_Frame` then lands on the first sample of the requested sector; and a
  request served from the ring ends in success with the same bytes as the same request served by a seek.
* **Termination** (`RetryBound.FewReads`, `RetryBound.EveryRunEnds`). A call on n >= 1 sectors reads the deck at most 3n + 4
  times, every read after the first begins with `CD_BUF_STOP` and seeks, and the search between reads ends.
* **The ring is a queue** (`RingQueue.RingIsFifo`, `RingQueue.MountedRingIsFifo`), over every interleaving of interrupt and
  reader, and a peek gives its front exactly (`Capture.PeekIsExact`).
* **Flow control** (`FlowControl.FlowControl`, `FlowControl.QuietSeeksAreGuarded`). When capture is never on without room for
  another block, and the runs in which it is; see the findings below.
* **Lockstep** (`Lockstep.RunInStep`). Four times the samples taken in a pass is the displacement of the source cursor, less at
  most three bytes for each sync found at an unaligned offset. So the driver, begun calm, takes no more from the ring than
  is there as long as its cursor stays in what was read (`Evidence.CallStaysCalm`, `Driver.CdDriver.DescrambleSector`).
* **KMP** (`KmpSearch.KmpPatternSearch`, `KmpSearch.BuildTable`). Exact, within 2 * src_len and 2 * pattern_len - 2 iterations.

## Where a property fails, or holds only so far

* *Flow control, behind a stale report.* `CD_Set_StartBuffing` (cdif_drv.c:437-441) gives up a ring reported full without
  switching capture off. The report can be stale: `CD_Do_StopBuffering` switches capture on (line 515) and clears the status
  only when its wait ends by its guard (line 557). Then the next seek empties the ring with capture on, and if the deck fills
  it before the seek is answered, line 515 switches capture on over a full ring, and one block later 2097152 unread samples
  look like none (`Overruns.StaleFullLosesTheRing`).
* *Flow control, across an eject.* `CD_SetDevForceStop` (cdif_api.c:779-792) leaves data mode when a disc is unmounted, but
  nothing switches the capture off, and a call that meets the force stop (line 536) leaves it on. The ring then fills
  unchecked; the mounting puts data mode back over a full ring (`Overruns.EjectLosesTheRing`).
* *Flow control, exactly.* The guard holds throughout a run if and only if there is room for more than a block whenever capture
  is switched on in data mode, whenever a disc is mounted with capture on, and behind a reader that has overtaken the writer
  (`FlowControl.FlowControl`); so it does whenever every seek begins with capture off, the disc stays and the reader takes
  only what is there (`FlowControl.QuietSeeksAreGuarded`).
* *Stale memory.* The loop never tests its cursor against what was there to be read. A wait that times out with
  `CD_BUF_FULL` reported counts as a success (lines 470-473, 541-544), and `CD_ReadData` then copies and reports a full-size
  read whatever is there. With equal pointers `CD_CopyReadData` stores nothing (line 612), and a sector left in the buffer
  by an earlier call is delivered as if the deck had sent it (`Mishaps.StaleMemoryIsDelivered`). With a block there it copies
  past the write pointer (lines 575-582), and words left in the ring from before the seek are delivered as part of a sector:
  the same seek and the same captured block end in two different payloads (`Mishaps.StaleRingIsDelivered`). A delivered
  sector is unread samples, and nothing else, if and only if it ended inside those there were at its read
  (`Evidence.ExactlyUnread`); the loop could test that if `CD_ReadData` returned the smaller of what it wants and what it has
  waited for.
* *Unrepaired sectors.* The first decode that fails in a call is retried by reading again; every later one is delivered as if
  it had succeeded (`Provenance.FailuresAfterTheFirstGoOut`): after two failed decodes a call ends in success with a sector
  the decoder has rejected twice (`Mishaps.UnrepairedIsDelivered`). A call hands out nothing but what the decoder has passed
  if and only if no more than one of its decodes has failed (`Provenance.AllRepairedExactly`).
* *Reading pointer.* `SingleBufferUpdateReadPointer` is addition modulo the length if and only if the sum is at most two
  lengths (`SingleBuffer.ReadPointerIsModular`).
* *Write gap.* An accepted write keeps the four-sample gap unless the reader stands in samples 1 to 3 with the writer not
  behind it, and from there the write of all that is left closes it (`SingleBuffer.GapIsKeptExactly`). A reader that moves
  by multiples of four never comes there (`SingleBuffer.Conservation`); one read of a single sample is enough
  (`SingleBuffer.UnalignedReadClosesTheGap`).
* *MSF.* The BCD round trip is exact if and only if the frame is below 720000, the binary one if and only if below 1152000.
* *Seek tolerance.* `CD_ReadData` allows for it in full exactly up to 187 sectors (and at 200); from 188 to 193 it does not even
  cover the six frames a seek on the spot sends ahead (`Layout.ToleranceIsRead`).
* *Shock.* A rollback that drops anything leaves the 2048-sample grid that the interrupt handler's end-of-ring test relies on
  (`Shock.ShockLeavesTheGrid`); it is therefore not one of the events of `Capture`.
* *Comments and code.* `CD_DescrambleSector` is documented to return the read size but returns 2048 for any count, so
  `CD_ReadSector` hands only the first sector to its caller (`Driver.CdDriver.ReadSector`). The comment at
  cd_filesystem.h:89 says -5 for the seek position 6; the model follows the code. `CD_KmpPatternSearch` is documented to
  return null when nothing is found; it returns -1, and 0 for a match at the start.

## Model

| member | source | states |
|---|---|---|
| MsfTime.Hex2Bcd | cdif_api.c:89-101 | the subtraction loop yields the two-digit BCD byte, truncated to eight bits |
| MsfTime.Bcd2Hex | cdif_api.c:117-129 | the subtraction loop yields ten times the high digit plus the low one |
| MsfTime.BcdByteRoundTrip | cdif_api.c:89-129 | decoding undoes encoding if and only if the number is below 160 |
| MsfTime.UnpackPack | cd_filesystem.h:112-122 | the word view of a minute/second/frame/mode record loses nothing |
| MsfTime.BcdMsf2Frame | cdif_api.c:146-153 | the method computes the frame number of the three decoded bytes |
| MsfTime.Frame2Msf | cdif_api.c:194-209 | the method, truncations included, packs the BCD forms of the split frame number |
| MsfTime.Frame2Hex | cdif_api.c:226-239 | the same without BCD |
| MsfTime.SplitIsExact | cdif_api.c:194-239 | below 1152000 the three bytes are the quotients and remainders; above, the minute has wrapped |
| MsfTime.SplitSums | cdif_api.c:226-239 | below 1152000 the seconds are under 60, the frames under 75, and the weighted sum is the frame number |
| MsfTime.HexMsfRoundTrip | cdif_api.c:170-239 | the binary round trip is the identity if and only if the frame is below 1152000 |
| MsfTime.BcdMsfRoundTrip | cdif_api.c:146-209 | the BCD round trip is the identity if and only if the frame is below 720000 |
| MsfTime.BcdMsfOrder | cdif_api.c:194-209 | packed BCD addresses are strictly increasing in the frame number |
| MsfTime.HeaderFrame | cdif_drv.c:888-896 | the shift loop and the conversion give 4500 minutes + 75 seconds + frames of the decoded bytes |
| Layout.ByteToSectorIsCeiling | cdif_api.c:62-73 | the count is the least number of sectors that holds so many bytes |
| Layout.ToleranceIsRead | cdif_drv.c:653-674 | when the read planned covers the request and the tolerance, and when not even the request |
| Layout.ReadFitsChunk | cdif_drv.c:816-822 | for up to 200 sectors what any pass reads fits in the chunk buffer behind what is delivered |
| Layout.HeaderIsAddress | cdif_drv.c:886-896 | the header names 4500 minutes, 75 seconds and frames of the BCD digits in bytes 12, 13 and 14 |
| Layout.UserDataIsExtracted | cdif_drv.c:887-935 | byte k of what is delivered is byte 16 + k of the decoded sector if byte 15 is 1, else byte 24 + k |
| KmpSearch.Find | cdif_api.c:571-586 | reference: the least index of an occurrence, -1 exactly if there is none |
| KmpSearch.BuildTable | cdif_api.c:603-624 | every entry is the length of the longest proper border; at most 2 * pattern_len - 2 iterations |
| KmpSearch.BorderSucc | cdif_api.c:609-614 | a border one byte longer is a border extended by a matching byte |
| KmpSearch.FellBack | cdif_api.c:615-618 | falling back on the table keeps the longest border that can still be extended |
| KmpSearch.Matched | cdif_api.c:631-644 | a matching byte extends the matched prefix or completes an occurrence |
| KmpSearch.Shifted | cdif_api.c:645-648 | falling back on the table skips no occurrence |
| KmpSearch.KmpPatternSearch | cdif_api.c:588-663 | returns what trying every index returns, in at most 2 * src_len iterations; -1 without memory |
| SingleBuffer.ReadPointerIsModular | SingleBuffer.c:219-248 | advancing is addition modulo the length if and only if the sum is at most two lengths |
| SingleBuffer.AvailableAndSpace | SingleBuffer.c:82-134 | data and space add up to the length less four |
| SingleBuffer.ReadDropsFront | SingleBuffer.c:219-248 | reading what is there drops exactly that from the front of the queue |
| SingleBuffer.WriteAdds | SingleBuffer.c:168-210 | an accepted write adds its rounded length and keeps the gap of a reader that is not in samples 1 to 3 with the writer not behind it |
| SingleBuffer.GapIsKeptExactly | SingleBuffer.c:168-210 | every write that is accepted keeps the gap if and only if the reader is not there |
| SingleBuffer.AcceptedExactly | SingleBuffer.c:176-190 | a write is accepted exactly when it ends inside the memory and, unless the reader is there, fits into the room there is |
| SingleBuffer.WriteAppends | SingleBuffer.c:168-210 | what an accepted write appends to the queue are the samples behind the write pointer |
| SingleBuffer.Conservation | SingleBuffer.c:82-248 | over any run of writes and of reads of what is there the buffer holds what was accepted less what was taken, and with four-aligned reads keeps its gap |
| SingleBuffer.UnalignedReadClosesTheGap | SingleBuffer.c:176-187 | after a read of one sample a full write is accepted that closes the gap |
| SingleBuffer.SingleBufferState.constructor | SingleBuffer.c:32-41 | no memory, no length, pointers 0 |
| SingleBuffer.SingleBufferState.Set | SingleBuffer.c:49-74 | takes memory and length and empties the buffer, or refuses a length not divisible by four and changes nothing |
| SingleBuffer.SingleBufferState.DataAvailable | SingleBuffer.c:82-105 | the number of buffered samples |
| SingleBuffer.SingleBufferState.SpaceAvailable | SingleBuffer.c:113-134 | the length less four less what is buffered |
| SingleBuffer.SingleBufferState.IsEmpty | SingleBuffer.c:141-159 | 1 exactly if the queue is empty |
| SingleBuffer.SingleBufferState.UpdateWritePointer | SingleBuffer.c:168-210 | the whole state after an accepted or refused write |
| SingleBuffer.SingleBufferState.UpdateReadPointer | SingleBuffer.c:219-248 | the whole state after a read, every correction included |
| Capture.StepKeepsPlaced | cdif_drv.c:196-229 | every step keeps the pointers in range and the write pointer on the grid of blocks |
| Capture.PeekIsExact | cdif_drv.c:563-621 | a peek of no more than is buffered is the front of the queue, straight or wrapped |
| FlowControl.StepKeepsGuard | cdif_drv.c:231-239 | a step keeps "capture on in data mode implies room for another block" exactly if what a caller would have to test before it holds |
| FlowControl.FlowControl | cdif_drv.c:231-239 | over any run that guard holds throughout if and only if every step passes that test: room whenever capture is switched on, a disc mounted, or the reader overtakes the writer |
| FlowControl.SeeksStayEmpty | cdif_drv.c:497-515 | between the reset of a quiet seek and its switching on, the ring stays empty and capture off |
| FlowControl.QuietSeeksAreGuarded | cdif_drv.c:231-515 | with the disc left in place, every seek begun with capture off and the reader taking only what is there, the guard holds in every state |
| RingQueue.StoredAppends | cdif_drv.c:217-229 | a block stored with room to spare is appended to the queue and crosses no end |
| RingQueue.StepRefines | cdif_drv.c:196-239 | every step of the ring is the step of the unbounded queue |
| RingQueue.RingIsFifo | cdif_drv.c:176-240 | over every interleaving in which interrupts find room and the reader takes only what is there the ring is the unbounded queue |
| RingQueue.DataCdRingIsFifo | cdif_drv.c:176-240 | in data mode with quiet seeks that is every run |
| RingQueue.MountedRingIsFifo | cdif_drv.c:176-240 | so it is in every quiet run from the driver's initialisation and the mounting of a disc on |
| RingQueue.CopyIsUndisturbed | cdif_drv.c:563-615 | copied word by word with interrupts in between, no more than is buffered is the front of the queue as it was when the copy began |
| RingQueue.UnreadSampleInPlace | cdif_drv.c:217-229 | unread sample k of the stream lies at index k modulo the length |
| Overruns.Filling | cdif_drv.c:231-239 | 1023 blocks fill an emptied ring, and in data mode the last of them switches the capture off |
| Overruns.StaleFullLosesTheRing | cdif_drv.c:435-515 | a concrete run in which a stale report loses a full ring |
| Overruns.EjectLosesTheRing | cdif_api.c:779-792 | a concrete run, every seek with capture off, in which unmounting and mounting lose a full ring |
| Shock.ShockDropsNewest | cdif_api.c:722-740 | a shock drops exactly the newest 5880 samples if more are buffered, and nothing otherwise |
| Shock.ShockLeavesTheGrid | cdif_api.c:722-740 | and then some later block crosses the end of the memory |
| Shock.ShockProcess | cdif_api.c:722-740 | the method changes the write pointer as that says |
| SectorMachine.StepKeepsShape | cdif_drv.c:814-1027 | the source cursor is never before the destination cursor, which stands behind the sectors delivered |
| Branches.ReadAnswers | cdif_drv.c:816-827 | a read with data begins a pass, with both counters set back if it has sought; one without ends the call with its answer |
| Branches.ForceStopped | cdif_drv.c:877-882 | at a sync with force stop set the call ends with that code |
| Branches.FrameBeyond | cdif_drv.c:943-969 | for a frame beyond the request: FRAME_OVER with no try left; behind more than five headers back to the deck with CD_BUF_STOP, a try less exactly if the pass was sought; else 2048 bytes on |
| Branches.FrameBefore | cdif_drv.c:971-1020 | for a frame before it: FRAME_UNDER with no try left; 2048 bytes on when before the place sought; a jump when the ring holds enough; else as for a frame beyond |
| Branches.FrameMatches | cdif_drv.c:904-942 | for the frame asked for: its user data in its slot, the tries restored, CD_BUF_STOP if the decoder has failed; or back to the deck at the first failure |
| Branches.NothingThere | cdif_drv.c:848-869 | without a sync in reach: 2048 bytes on, twice a pass; then back to the deck, once a call; then KMP_ERROR |
| Branches.SearchEnds | cdif_drv.c:844-1030 | the search ends a call with one of five codes, each for its reason alone |
| Branches.ResearchExactly | cdif_drv.c:741-770 | how many samples are dropped, when the next read is made to seek and when neither, by how far the request lies ahead |
| InOrder.CompactionIsSafe | cdif_drv.c:925-938 | a delivery fills its slot and leaves every other slot and every byte behind the sector alone |
| InOrder.RawIsGenuine | cdif_drv.c:886-904 | from byte 304 on the sector at a found sync is as the buffer had it when the pass began to search |
| InOrder.StepSound | cdif_drv.c:814-1027 | every branch keeps all deliveries genuine and in place |
| InOrder.RunSound | cdif_drv.c:814-1027 | so does every run |
| InOrder.InOrderDelivery | cdif_drv.c:786-1030 | a successful call has every requested frame in its slot |
| InOrder.DeliveriesStay | cdif_drv.c:814-1027 | nothing later disturbs a delivered slot |
| Provenance.StepRemembers | cdif_drv.c:814-1027 | every step keeps each delivery traced to the read whose bytes it lay among and the look that found and decoded it |
| Provenance.CallIsAccountedFor | cdif_drv.c:786-1030 | so every sector of a successful call is in its slot, of the frame asked for, and traced to its read and its look |
| Provenance.InsideIsWithinRead | cdif_drv.c:814-1027 | while the cursor stays inside what was read every delivered sector ended inside what its read stored |
| Provenance.WithinReadIsStored | cdif_drv.c:822-935 | and is then, from byte 304 on, what that read stored, in its place |
| Provenance.FailuresAfterTheFirstGoOut | cdif_drv.c:910-935 | the first failed decode of a call is retried, every later one is delivered |
| Provenance.AllRepairedExactly | cdif_drv.c:910-935 | every sector handed out has passed the decoder if and only if no more than one decode of the call has failed |
| Mishaps.StaleMemoryIsDelivered | cdif_drv.c:541-725 | a read that stores nothing and reports success makes a call deliver a sector of an earlier one |
| Mishaps.StaleRingIsDelivered | cdif_drv.c:541-725 | the same seek and the same captured block, read short behind CD_BUF_FULL, end in two payloads that differ by what the ring held before |
| Mishaps.UnrepairedIsDelivered | cdif_drv.c:910-935 | a call whose two decodes both fail ends in success with that sector in its slot |
| Unread.PeekBeginsWithQueue | cdif_drv.c:563-621 | a peek, however long, begins with the unread samples |
| Unread.DeterminedExactly | cdif_drv.c:563-621 | of what a read leaves in the buffer a stretch is the same over every ring with these unread samples and every earlier buffer if and only if it ends inside them |
| Lockstep.StepInStep | cdif_drv.c:851-1015 | every branch moves the ring's read pointer with the cursor |
| Lockstep.RunInStep | cdif_drv.c:814-1027 | exact on aligned offsets, at most three bytes behind per sync otherwise |
| Lockstep.ConsumesOnlyWhatWasRead | cdif_drv.c:814-1027 | inside what was read, no more samples are taken than the read found |
| RetryBound.ReadThrifty | cdif_drv.c:814-827 | a read uses up one of the passes allowed |
| RetryBound.SearchSpends | cdif_drv.c:844-1020 | a visit to the search moves on by 2048 bytes or more, or uses up one of the retries and stops the ring |
| RetryBound.StepThrifty | cdif_drv.c:814-1027 | every step lowers the rank: passes allowed, then bytes left |
| RetryBound.FewReads | cdif_drv.c:805-1009 | at most 3n + 4 reads, every one after the first with CD_BUF_STOP and a seek |
| RetryBound.EveryRunEnds | cdif_drv.c:814-1030 | every run ends |
| Completeness.NextIsFound | cdif_drv.c:846-877 | the sync of the next sector is found where it is |
| Completeness.NothingIsFound | cdif_drv.c:846-854 | and none before it |
| Completeness.ShortSkip | cdif_drv.c:982-988 | a short step lands 304 bytes before the next sector |
| Completeness.FarSkip | cdif_drv.c:991-996 | a jump lands 16 bytes before the requested sector |
| Completeness.MatchProgress | cdif_drv.c:904-941 | the requested sector fills its slot with what the disc holds and the machine stands before the next |
| Completeness.SkipProgress | cdif_drv.c:971-1020 | an earlier sector is passed over without a re-seek |
| OnePass.FacingProgress | cdif_drv.c:844-1027 | a visit passes by a sector of another place, skips an earlier frame, delivers the one asked for or searches on, and never re-seeks |
| OnePass.OnePassSuffices | cdif_drv.c:844-1027 | from any state before the disc's sectors, up to five of another place first, the call ends within its pass |
| OnePass.PassDelivers | cdif_drv.c:814-1030 | a pass over a well-formed stream delivers everything and inspects nothing beyond its read |
| OnePass.SeekToleranceSuffices | cdif_drv.c:656-1030 | for up to 187 sectors, or 200, twelve sectors of tolerance are enough for a single read, and every slot is the user data on the disc |
| Completeness.FilledIsPrinted | cdif_drv.c:925-935 | every slot is the 2048 bytes the standard calls user data of what the decoder makes of its sector on the disc |
| Retries.SilentPass | cdif_drv.c:848-869 | a pass without a sync in three stretches goes back to the deck once, and then ends the call |
| Retries.MisplacedPass | cdif_drv.c:943-1020 | a pass over six headers that are of no use goes back to the deck, a try less exactly if it was sought, with nothing lost |
| Retries.RejectedPass | cdif_drv.c:910-922 | the first failed decode goes back to the deck with everything delivered before it in place |
| Retries.Recovers | cdif_drv.c:814-1030 | after failed passes within the budgets a well-formed pass ends the call in success, one read more than failures |
| Retries.FreshCallRecovers | cdif_drv.c:805-1030 | a fresh call's budgets are for one pass without a sync, two elsewhere and one failed decode |
| Retries.SecondSilence | cdif_drv.c:858-868 | the second pass without a sync ends the call with KMP_ERROR |
| Retries.FourthMiss | cdif_drv.c:943-979 | behind three sought passes elsewhere the next other frame ends the call with FRAME_OVER or FRAME_UNDER, after four reads |
| ReadAhead.PeekReadsStream | cdif_drv.c:563-621 | what a read copies is the captured stream from the read position on |
| ReadAhead.SeekLeavesReaderBehindLast | cdif_drv.c:937-940 | after a seek and a successful call the reader stands behind the last sector |
| ReadAhead.ResearchLands | cdif_drv.c:741-770 | the reader lands on the first sample of the request with a sector still there, or the next read seeks |
| ReadAhead.CallFromRing | cdif_drv.c:741-1030 | a call served without a seek delivers what is on the disc and leaves the reader behind its last sector |
| ReadAhead.RingServesEveryCall | cdif_drv.c:741-1030 | so does any number of them in a row, and the reader ends up behind the last sector of the last |
| ReadAhead.NoSeekAgreesWithSeek | cdif_drv.c:786-1030 | a request served from the ring and the same request served by a seek both succeed, with the same bytes |
| Worlds.BlocksWereCaptured | cdif_drv.c:176-240 | every block in a faithful record is one that was captured earlier |
| Worlds.MemoryWasCaptured | cdif_drv.c:176-240 | every word of the ring is one of a block captured earlier, or 0 since the beginning |
| Worlds.FlowsOn | cdif_drv.c:176-240 | while nothing but blocks comes, the capture takes them all in or fills the ring |
| Waits.EndsOnce | cdif_drv.c:456-554 | how a wait ends, and after how many looks, is determined by what the world does |
| Waits.ShockEndsWait | cdif_drv.c:458-461 | a shock on record with too little there ends it at once |
| Waits.ForceEndsWait | cdif_drv.c:463-466 | force stop on record within a wait, no mounting following, ends it by the next look |
| Waits.FedEndsWait | cdif_drv.c:456-482 | a wait during which nothing but enough blocks comes ends with enough |
| Trails.SearchingIsQuiet | cdif_drv.c:851-1015 | a search that takes no more than was there when it began never overtakes the writer, keeps the ring calm and leaves at least the difference |
| Evidence.TracedCame | cdif_drv.c:822-935 | a delivery's bytes stood in the buffer after a read of the ring in a known state of the run, its output is the decoder's at a known time |
| Evidence.ExactlyUnread | cdif_drv.c:575-935 | from byte 304 on a delivered sector is unread samples of the ring, and depends on nothing else, if and only if it ended inside those there were at its read |
| Evidence.CallHandsOut | cdif_drv.c:786-1030 | so for every slot of a successful call on honest inputs |
| SentBytes.DeliversWhatWasSent | cdif_drv.c:786-1030 | with full reads and the cursor inside what was read, every sector of a successful call is, from byte 304 on, bytes of the stream captured since the last seek, at the reader's place in it |
| Evidence.CallStaysCalm | cdif_drv.c:786-1030 | a call begun calm, with full reads and the cursor inside what was read, takes only what is there and seeks with capture off |
| Outcomes.EveryCodeIsExplained | cdif_drv.c:824-1030 | the code of a call is that of its last read, DECK_ERROR exactly for a refused seek, a shock or force stop still on record; or that of its last look, for its reason |
| DiscCalls.VisitsAreNice | cdif_drv.c:844-1027 | the ring holds what the machine relies on at every visit of a pass over a disc's sectors |
| DiscCalls.CallDelivers | cdif_drv.c:786-1030 | a call on captured blocks that are a stream of a disc's sectors fills every slot as on the disc with one read, and leaves the reader behind the last sector |
| DiscCalls.RingCallDelivers | cdif_drv.c:741-1030 | so does a call served from what an earlier one has left in the ring; no force stop, stale report or CD_BUF_STOP stands in the way of the next |
| ManyCalls.EveryCallDelivers | cdif_drv.c:741-1030 | so does any number of calls in a row, sought or served from the ring, and the reader ends up behind the last sector of the last |
| ManyCalls.MountedStands | cdif_drv.c:314-332 | the driver with a disc just mounted is where such a row of calls can begin |
| Driver.CdDriver.constructor | cdif_drv.c:314-332 | an empty ring of 2097152 samples, all zeros, capture off, no problem reported, an empty record |
| Driver.CdDriver.AdmaHandler | cdif_drv.c:176-240 | the interrupt takes the ring and the status words through one step of Capture, exactly when the block ends inside the memory |
| Driver.CdDriver.Observe | cdif_drv.c:242-270 | exactly what happens while the driver looks elsewhere goes on record, in order, and nothing is taken from the ring |
| Driver.CdDriver.SetDevForceStop | cdif_api.c:779-792 | the flag and the mode change together |
| Driver.CdDriver.Await | cdif_drv.c:456-554 | the record grows by looks only, and the first look at which enough is there, a shock reported or force stop set ends the wait so, or its last round |
| Driver.CdDriver.SetStartBuffing | cdif_drv.c:421-443 | exactly when reading on from the ring is given up, and that capture then stays on only behind a stale report |
| Driver.CdDriver.DoStartBuffering | cdif_drv.c:445-487 | which code means what: enough in the ring, CD_BUF_FULL after the whole wait, a shock, a force stop, or a timeout that empties the ring and stops the capture |
| Driver.CdDriver.Seek | cdif_drv.c:497-515 | the ring is emptied and the deck sent to the address given; its answer decides whether capture is switched on; all of it on record |
| Driver.CdDriver.DoStopBuffering | cdif_drv.c:489-560 | which code means what: the deck's refusal, enough in the ring, CD_BUF_FULL after the whole wait, a shock, a force stop, a timeout that stops the capture |
| Driver.CdDriver.CopyReadData | cdif_drv.c:563-621 | the bytes stored are those of the peek, in all three layouts; the pointers stay |
| Driver.CdDriver.PlanRead | cdif_drv.c:653-674 | the samples wanted |
| Driver.CdDriver.Acquire | cdif_drv.c:696-735 | attempts follow each other while they time out, each but the first with a seek to the same address; the last one's answer |
| Driver.CdDriver.ReadData | cdif_drv.c:642-738 | how the first attempt sets out; result and bytes stored, or the code of the last attempt; that a read is short only behind CD_BUF_FULL and after the longest wait; that it is answered in full when the deck answers and sends enough in time, or enough is there |
| Driver.CdDriver.CopyUserData | cdif_drv.c:925-935 | the overlapping forward copy stores the 2048 bytes that were there before it began, from byte 16 on for mode 1 and from byte 24 on for any other |
| Driver.CdDriver.Deliver | cdif_drv.c:925-942 | the in-place delivery is that of SectorMachine |
| Driver.CdDriver.Match | cdif_drv.c:904-942 | decode, retry or deliver as SectorMachine does |
| Driver.CdDriver.Mismatch | cdif_drv.c:943-1020 | skip, jump, re-seek or give up as SectorMachine does |
| Driver.CdDriver.Inspect | cdif_drv.c:884-1020 | descramble, read the header and branch as SectorMachine does |
| Driver.CdDriver.NoSync | cdif_drv.c:848-869 | without a sync, move on, re-seek or give up as SectorMachine does |
| Driver.CdDriver.SearchLbn | cdif_drv.c:844-1020 | a visit to SEARCH_LBN is a step of SectorMachine on honest inputs, and takes from the ring what the cursor moves by |
| Driver.CdDriver.TryRead | cdif_drv.c:814-827 | a visit to TRY_READ is a step of SectorMachine fed with the front of the ring as the read has left it, or with the code of its last attempt; every seek goes to six frames before the next one wanted |
| Driver.CdDriver.ResearchFrame | cdif_drv.c:741-770 | what is dropped from the ring, when the next read is made to seek, and when neither |
| Driver.CdDriver.Prepare | cdif_drv.c:800-811 | the call is stopped if and only if force stop is set, and then nothing is touched; otherwise what CD_Research_Frame makes of the ring |
| Driver.CdDriver.DescrambleSector | cdif_drv.c:786-1030 | it ends at once if and only if force stop is set; else it is a whole run of SectorMachine on honest inputs, within 3n + 4 reads, its code explained and the driver left as the machine is; every slot of a success is accounted for; begun calm, with full reads and the cursor inside them, it stays calm and every delivered sector is of the captured stream; on a disc's stream it delivers the disc |
| Driver.CdDriver.ReadSector | cdif_drv.c:1081-1109 | the result is that of the call, failed or not; the caller receives the first requested sector, accounted for and of the captured stream as in the call, and of several no other; on a disc's stream it is the disc's |

## Left out

- Hardware setup, registers, GPIO, ioctl and the choice of the DMA half: only the capture-enable bit and the block copied remain.
- Netlink, proc and block-layer plumbing (knetlink.c, cdif_proc.c, cdrom.c, cdrom_drv.c): seek answers, mounting and unmounting, and requests are arbitrary inputs.
- hidden_mmc.c: not in the Makefile's object list; only easy facts about a fixed layout.
- The insides of the descrambler and the C3 decoder: in a library that is not part of this model; an arbitrary sector function and arbitrary outcomes.
- CD_ReadData's retry on a silent deck is unbounded in the code: `CdDriver.patience`, an arbitrary number, bounds the retries of the model, and a call that needs more ends as `Waiting`.
- The search has no end check: a cursor that would leave the chunk buffer, and a copy that would leave the ring's memory, end the model as `Lost`. Theorems about arbitrary data speak of calls that do not; for well-formed streams it is proved that none does.
- SingleBuffer.SingleBufferState.constructor: the null memory pointer of an initialised buffer is an empty array.
- Driver.CdDriver.AdmaHandler: with a ring of length 0 the code also clears the DMA addresses; only the pointer's reset is modelled. A block that would cross the end of the memory, which only a shock can bring about, is written past it by the code; the model reports that it does not fit and changes nothing.
- SingleBuffer.SingleBufferState.UpdateReadPointer: one step, as is Driver.CdDriver.Take. The code adds first and corrects after (SingleBuffer.c:224-242), so an interrupt in between sees a read pointer beyond the length, and from it a wrong free space by which it may stop the capture early or late.
- Driver.CdDriver.CopyReadData: one step. RingQueue.CopyIsUndisturbed justifies that for a guarded ring and no more words than are there; a short read, behind CD_BUF_FULL, also copies words past the write pointer, which interrupts may overwrite while it does, so of those the code may store a mixture the model does not have.
- CD_ShockProcess is not an event of the capture system, because nothing in the driver calls it and it breaks the handler's grid; it has its own theorems.
- The two stores that empty the ring (lines 474-475 and 497-498) are one step. An interrupt between them needs capture on: a quiet seek excludes it, and at the timeout, where capture is switched off next, it leaves the ring as it would right after both.
- CD_ReleaseDevForceStop: nothing calls it. The force-stop flag changes only with the mode.
- CD_BUF_REBUF: no code sets it. A shock is reported by the world only, since no code here sets it either.
- Sleeps, error printing, dump options, the trivial getters and setters, and CD_SetDiffValue, which has no effect because CD_GetDiffValue is the constant -6.
- CD_DescrambleSector for the search of CD-DA (audio) data: in audio mode the interrupt never stops the capture, and the ring is no queue.
