# RNode Linux: a verified model

RNode Linux is a daemon between a host (KISS frames over TCP) and an SX126x LoRa radio. This project
models, in Dafny, how it queues, contends for the channel, fragments, transmits, reassembles and
accounts for airtime, and proves what these parts promise, one by one and composed.

`dafny verify dfyconfig.toml` checks everything.

## How it is built

Each stateful part of the source exists twice: as a class whose methods do what the C code does, in
place (`Kiss.Decoder`, `Kiss.Encoder`, `Receiver.Reassembler`, `Modem.Transmitter`, `Fifo.Queue`,
`Contention.Worker`, `Airtime.Ring`, `NoiseFloor.Monitor`, `Sha256.Compute`), and as functions on plain
values. Every method states that it computes its function. `Daemon.Rnode` puts the transmit side together
and refines, method by method, the step machine `System`: each atomic section of the TCP thread, the
queue worker and the radio-interrupt thread is one event. An event carries what the state does not
determine (clock readings, random numbers, RSSI verdicts, computed airtimes), and an event that cannot
occur in a state changes nothing, so every list of events is a run and every interleaving is a list of
events. Fields called history (`air`, `sent`, `trace`, `log`, `heard`, ...) only record.

The laws about runs are in separate modules:

- `KissLaws`: round trip and resynchronisation from any decoder state, and exactly when the way TCP
  cuts the byte stream cannot be noticed.
- `ReassemblyLaws`: what reassembly delivers on arbitrary frame sequences, as a function of the sequence.
- `ModemLaws`, `Ordering`: packets leave in order, nothing is lost or duplicated, and a restart never
  puts a stale tail on air.
- `Headers`: which event sent each frame on air, with which header byte, and when the radio transmits.
- `EndToEnd`, `Draining`: host bytes in, air, host bytes out; and no reachable state is a dead end.
- `AirtimeLaws`, `DutyCycle`, `OnAir`: the airtime ring against the event log, the duty-cycle bound, and
  what it means for the frames on air.
- `Deferral`: when the duty-cycle lock defers a packet, and which contention band is in force.
- `ListenBeforeTalk`, `Backoff`, `Progress`: what preceded every attempt to send, which random number it
  waited for, and how long it can take.
- `Carrier`, `Reception`: which radio event decides whether sending is enabled, what restarts DIFS, what a
  reception does to the timers, how long it inhibits sending.
- `FlushMode`, `FlushRun`, `Watchdog`: when flush mode is on and what it sends, when the worker restarts the
  radio.
- `Scripts`, `Origins`: runs written out, from which the failing cases are reached, and which event made an
  observation.
- `NoiseFloor`, `RadioParams`, `Sha256`, `Sha256Vector`: calibration, on-air times, the device hash.

`Headers`, `Backoff`, `Carrier`, `Deferral` and `FlushRun` name events by their place in the list of events.
What they say about an event is read off the event and the state it meets, not off the functions that
the step machine is made of.

No lemma leaves its proof to automatic induction; each is marked accordingly.

## Where the code differs from what one would assume

- src/queue.c:41-44 says that DIFS restarts whenever the medium goes busy. It restarts exactly when a
  polling iteration sees interference or goes on to send (`Reception.DifsRestarts`). A reception leaves all
  timers running and its time counts as waiting (`Reception.ReceptionCounts`); a packet can go out directly
  behind a reception that filled the whole DIFS (`Reception.DifsInsideReception`).
- Flush mode is meant to empty the queue once (src/queue.c:106), but an empty queue does not imply that it
  is off. In a configuration that flushes, it is on over an empty queue exactly when the latest attempt was
  a normal one and no preamble has come since (`FlushMode.FlushOverEmptyQueue`); the next packet then goes out without listening
  (`FlushMode.SecondSentUnheard`).
- kiss_decode drops the rest of a chunk when its buffer fills up, so the result can depend on how TCP cut
  the stream: exactly when a FEND follows 1024 or more data bytes of one frame
  (`KissLaws.ChunkingInvariant`, `KissLaws.LongFrameShows`). It also keeps a pending escape across FEND, which
  alters the next frame exactly when that starts with TFEND or TFESC (`KissLaws.RoundTrip`).
- The comment at src/rnode.c:866-868 says 500 bytes; two frames carry 508.
- The ring sum is never below the airtime of the last 479 bins, and it is that airtime exactly when every
  burst from before them has been cleared by a later call in the bin before one of its slot
  (`AirtimeLaws.RingRefinesLog`). Calls at most one bin apart always clear (`AirtimeLaws.CloseCallsAreExact`);
  a longer gap is harmless unless it jumps over that bin (`AirtimeLaws.OneGap`).
- A ring bin is a uint16_t and wraps at 65536 ms, exactly when that much is left in one slot
  (`AirtimeLaws.OverflowIsTooMuch`). The duty-cycle bounds, and what compares the ring with the log, are for
  runs in which none has wrapped (`overflowed` in their contracts).
- Contention band 1 has sixteen slots until it is first left and fifteen ever after
  (`AirtimeLaws.BandInForce`).
- The last contention band is meant to start at 85 % airtime (src/csma.c:22) and starts at 78 %
  (`AirtimeLaws.BandThresholds`).
- rnode_to_air computes airtimes without the header byte. Recorded and on-air symbols agree exactly when the
  byte fits into the payload's last code word group (`RadioParams.RecordedAtMostOnAir`); one byte at SF 7 is
  recorded as 13 ms and takes 18 (`RadioParams.OneByteIsShort`).
- A recalibration of the noise floor is over at once when its own sample is the ring's last entry
  (`NoiseFloor.RecalibrationStep`).
- queue_push leaves the new item's `next` uninitialised; the list invariant shows that it is never used
  (`Fifo.Queue.Push`).

## Model

| member | source | states |
|---|---|---|
| `Kiss.Decoder.FeedByte` | src/kiss.c:27-60 | one loop iteration in place, including unescaping and the overflow reset, is the decoder's byte function; indices stay in the buffer |
| `Kiss.Decoder.DecodeChunk` | src/kiss.c:26-62 | a whole call hands over exactly the frames of the chunk function and leaves its state, stopping at an overflow |
| `Kiss.Encoder.EncodeFrame` | src/kiss.c:64-88 | the bytes sent are FEND, the escaped payload, FEND; no write outside the buffer when the encoding fits it |
| `KissLaws.EscapedHasNoFend` | src/kiss.c:73-78 | an encoded body never contains the frame delimiter |
| `KissLaws.WireFormat` | src/kiss.c:64-88 | the bytes on the wire: 0xC0 around the body; 0xC0 and 0xDB in it travel as 0xDB 0xDC and 0xDB 0xDD, every other byte as itself |
| `KissLaws.EscapedLength` | src/kiss.c:70-82 | escaping at most doubles the length |
| `KissLaws.DecodeKeepsValid` | src/kiss.c:49-58 | an unsynchronised decoder holds nothing, and delivered frames have 1 to 1023 bytes, on every byte sequence |
| `KissLaws.DecodeConcat` | src/kiss.c:26-62 | a chunk that does not overflow composes with what follows; one that does hides all that follows in the same call |
| `KissLaws.ChunkingHidden` | src/kiss.c:26-62 | any two partitions of a stream agree on frames and final state when no FEND is dropped by an overflow |
| `KissLaws.ChunkingInvariant` | src/kiss.c:52-58 | chunking is unnoticeable at every point of the stream if and only if no FEND comes behind a point at which a synchronised stream has had 1024 data bytes since its last FEND |
| `KissLaws.OverflowIsFill` | src/kiss.c:49-58 | the buffer overflows exactly when, counted in the stream alone, the data bytes since the last FEND reach 1024 |
| `KissLaws.LongFrameShows` | src/kiss.c:52-58 | from any decoder state, FEND, 1024 or more unescaped data bytes and FEND can be cut so that the decoder notices |
| `KissLaws.RoundTrip` | src/kiss.c:26-88 | from any decoder state and for any chunking, encoded frames come out behind the waiting partial frame, unaltered if and only if no escape is pending or the first frame does not start with TFEND or TFESC |
| `KissLaws.EncodeAllInjective` | src/kiss.c:64-88 | a stream of encodings determines its frames |
| `Receiver.Reassembler.FromAir` | src/rnode.c:855-934 | reassembly in place equals the receive function and sends the KISS encoding of what it delivers; seq unset means an empty buffer, otherwise seq is at most 15 and the buffer holds at most 254 bytes |
| `Receiver.Reassembler.RxDone` | src/rnode.c:1005-1018 | a received frame produces two signal reports, the RSSI with its offset added modulo 256, and then the reassembled payload, if any |
| `Receiver.ReportsAre` | src/rnode.c:838-848 | the reports are 0x23 with the RSSI and 0x24 with the SNR, in this order, before 0x00 with the payload |
| `Receiver.EncodingFits` | src/rnode.c:924-929 | a 508-byte payload becomes a 509-byte frame and at most 1020 encoded bytes, within the 1024-byte buffer |
| `ReassemblyLaws.ReceiveAllKeepsValid` | src/rnode.c:850-934 | on any frames the waiting part stays within 254 bytes and deliveries within 508 |
| `ReassemblyLaws.ReassemblyMeetsSpec` | src/rnode.c:880-933 | from any state, on any frames: exactly the unsplit frames, and frames j-1 and j joined whenever an even number of split frames of one nibble ends at j, are delivered, in order |
| `ReassemblyLaws.RoundTrip` | src/rnode.c:966-986 | the fragments of a payload deliver it once and leave nothing behind if and only if it is unsplit or no part with its nibble is waiting; otherwise one wrong concatenation comes out and the second fragment waits |
| `Modem.Transmitter.Write` | sx126x/sx126x.c:290-302 | with at most 255 bytes the uint8 FIFO pointer equals the frame length and the FIFO holds the frame |
| `Modem.Transmitter.SendPacket` | src/rnode.c:951-992 | rnode_to_air puts exactly the first fragment on air, saves exactly the rest and switches to TX |
| `Modem.Transmitter.OnTxDone` | src/rnode.c:994-1003 | an unsent tail goes on air and is cleared, otherwise the radio goes to receive |
| `Modem.Transmitter.Restart` | src/rnode.c:642-655 | a restart changes the radio state only; the saved tail stays |
| `ModemLaws.ToAirInv` | src/rnode.c:966-986 | sending keeps: the air log is what the packets' histories account for, and a tail that can be sent is the last packet's missing fragment |
| `ModemLaws.TxDoneInv` | src/rnode.c:994-1003 | sending the tail keeps the same invariant and completes the last packet |
| `ModemLaws.NothingLost` | src/rnode.c:936-1003 | without an aborted transmission, the air log plus the owed tail is the concatenation of all complete fragment lists |
| `ModemLaws.Origin` | src/rnode.c:936-1003 | every air frame is a definite fragment of a definite packet, directly behind that packet's previous fragment |
| `Headers.FrameOnAir` | src/rnode.c:966-1000 | in every run, restarts included: each frame on air was sent by a definite worker iteration for the head of its queue, the second one directly behind the first; its header byte is the high nibble of that iteration's random number, with bit 0 set exactly when the payload has more than 254 bytes |
| `Headers.GivenIsOnAir` | src/rnode.c:966-986 | and every packet given to the modem has its first frame on air, right behind what was there |
| `Headers.TransmittingIsInProgress` | src/rnode.c:994-1003 | in every run the radio transmits exactly while a packet is in progress: given to the modem, no restart since, and fewer TX_DONEs than it has frames |
| `Fifo.Queue.Push` | src/queue.c:193-217 | appends to the heap list; the new item's uninitialised next pointer is irrelevant; depth counts modulo 65536 |
| `Fifo.Queue.Peek` | src/queue.c:55-60 | the head is null exactly for the empty queue and otherwise carries its first packet |
| `Fifo.Queue.Pop` | src/queue.c:72-84 | unlinks exactly the head |
| `Ordering.TransmitSystem` | src/queue.c:52-94 | for every interleaving: pushed packets are those sent followed by those queued, with the head in flight counted once, and without an aborted transmission the air log is made of complete fragment lists plus at most one first fragment whose tail is owed while the radio is in TX |
| `Ordering.RestartSafe` | src/queue.c:167-170 | with watchdog or host restarts at any step: a second fragment on air directly follows the first fragment of the same packet, every frame has 1 to 255 bytes, and each restart during a transmission costs at most one packet its tail |
| `EndToEnd.HostRun` | src/rnode.c:780-782 | in every run the queue has been given exactly the CMD_DATA payloads, of any length, of the bytes decoded so far |
| `EndToEnd.AirCarriesPushed` | src/rnode.c:855-1003 | once drained, the air log reassembles to exactly the pushed packets |
| `EndToEnd.EndToEnd` | src/rnode.c:780-1003 | for any frames, any TCP chunking on both sides, any interleaving, any tags, and any other frames that the receiving daemon sends in between: the CMD_DATA part decoded by the receiving host equals that of the sending host |
| `EndToEnd.PayloadsEndToEnd` | src/rnode.c:780-782 | the same for CMD_DATA frames: exactly the payloads, in order |
| `Draining.CanDrain` | src/queue.c:96-174 | whatever the duty-cycle limits, no reachable state without aborted transmissions and overlong payloads is a dead end: some continuation empties host, queue and modem; a lock is lifted by an hour of refreshes |
| `Draining.SomeRunDelivers` | src/queue.c:96-174 | for every configuration and every list of payloads a complete run exists |
| `Contention.Worker.Poll` | src/queue.c:113-152 | one normal-mode poll in place is the listen function |
| `Contention.Worker.MediumState` | src/queue.c:220-249 | the radio events switch transmission, carrier, flush mode and deadline as the event function says |
| `Carrier.EnabledUnlessBlocked` | src/queue.c:220-249 | in every run sending is enabled without a carrier or disabled with one, and disabled exactly when some preamble or valid header has been followed by no radio event of any cause, no TX_DONE and no worker iteration at or behind its deadline with the radio not in TX |
| `ListenBeforeTalk.AutomatonInvariant` | src/queue.c:96-174 | in every reachable state: carrier exactly when transmission is disabled; timers idle when the queue is empty or flushing; DIFS start before window start before now; progress only towards a window that was drawn and is at most 59 slots |
| `ListenBeforeTalk.ListenedBeforeTalk` | src/queue.c:120-146 | before every normal-mode attempt: an unbroken block of free polls lasting a DIFS, and gaps between free polls behind a DIFS that sum to the window drawn; where no preamble or header event occurred, every iteration polled |
| `ListenBeforeTalk.WaitsInFull` | src/queue.c:120-136 | when no poll of the cycle was busy, DIFS plus the whole window lie between its first free poll and the attempt |
| `Backoff.WindowOfAttempt` | src/queue.c:115-118 | in every run the window of a normal attempt is the random number of the cycle's first poll, folded into the band then in force, times the slot |
| `Backoff.BacksOff` | src/queue.c:115-141 | the cycle has been credited with that many slots behind a DIFS, and when no poll of it was busy, a DIFS and that many slots lie between its first poll and the attempt |
| `ListenBeforeTalk.FlushFollowsListening` | src/queue.c:105-111 | every flush-mode attempt follows a normal-mode one with no preamble in between |
| `Reception.DifsRestarts` | src/queue.c:113-152 | in every state of a run whose DIFS timer runs: an event restarts it exactly when it is a polling iteration that sees interference or goes on to send, which it does exactly when DIFS and window have passed; no other event changes any listen-before-talk timer |
| `Reception.InhibitionWindow` | src/queue.c:154-160 | in every run: behind a preamble or header event, whatever the host, the worker and restarts do, nothing polls, attempts or goes on air until the timeout, and the next iteration with the radio not in TX re-enables sending exactly at or behind it |
| `Reception.ReceptionCounts` | src/queue.c:230-247 | in every run a whole reception, with arbitrary worker iterations in between, leaves the running timers as they were, and the next iteration sends exactly when DIFS and window have passed if the reception counts as waiting |
| `Reception.DifsInsideReception` | src/queue.c:41-44 | for every configuration a run from the start in which a reception fills the whole DIFS and the next iteration sends |
| `FlushMode.FlushOverEmptyQueue` | src/queue.c:105-146 | in every run, flush mode is on over an empty queue exactly when the configuration flushes, the latest attempt was a normal one and no preamble has come since |
| `FlushMode.SecondSentUnheard` | src/queue.c:142-145 | for every flushing configuration a run from the start ends with an empty queue and flush mode on, and a second packet, however much later, is then sent without a poll |
| `FlushRun.FlushModeLasts` | src/queue.c:105-111 | in every run flush mode ends exactly with a preamble, with the flush-mode packet that empties the queue, or with an attempt at an airtime limit; until then no iteration polls and every packet attempted is sent |
| `FlushRun.WholeQueueGoesOut` | src/queue.c:105-111 | from every reachable flush-mode state with a free worker, one iteration per queued packet sends the whole queue in order, with no poll in between, and flush mode is off when the queue is empty and not before |
| `Watchdog.Patience` | src/queue.c:167-170 | in every run, the worker restarts a transmitting radio exactly when more than twice the latest packet's airtime has passed since send_packet read the clock behind rnode_to_air |
| `Progress.HeadIsSent` | src/queue.c:112-153 | on a free medium with ticks at most d ms apart, the head of the queue goes on air no later than the deadline |
| `Progress.DeadlineBounded` | src/queue.c:112-153 | the deadline is at most a DIFS, 59 slots and three tick gaps away |
| `Progress.ProgressIsKept` | src/queue.c:115-133 | until the next normal attempt the window drawn stays and the progress never decreases, whatever events occur |
| `Airtime.SlotIsBin` | src/csma.c:128-130 | the slot index is the absolute 7.5 s bin modulo 480 |
| `Airtime.Ring.AddAirtime` | src/csma.c:169-179 | in place: adds modulo 65536 to the current slot and clears the next |
| `Airtime.Ring.UpdateAirtime` | src/csma.c:132-167 | in place: clears the next slot, stores the two-bin and the whole-ring sum and the band |
| `AirtimeLaws.RingRefinesLog` | src/csma.c:128-179 | in every run in which no bin wraps, the ring sum is at least the logged airtime of the last 479 bins, with the next slot empty, and equal to it exactly when each burst from before these bins was followed by a call that cleared its slot |
| `AirtimeLaws.CloseCallsAreExact` | src/csma.c:146-153 | calls at most one bin apart leave nothing over: the ring is exact |
| `AirtimeLaws.OneGap` | src/csma.c:146-153 | for one burst and one later update, the exact gaps that over-count |
| `AirtimeLaws.BinsAreKeptModulo` | src/csma.c:169-179 | in every run, wrap-around included, a slot holds what the calls since its last clearing have added, modulo 65536 |
| `AirtimeLaws.OverflowIsTooMuch` | src/csma.c:177 | a bin has wrapped exactly when some slot was once left 65536 ms or more |
| `AirtimeLaws.UpdateStores` | src/csma.c:146-155 | the stored sums are at least the true 479-bin and two-bin windows |
| `AirtimeLaws.AdmittedBounds` | src/rnode.c:622-638 | if every burst found its window below the cap, no window at any time reaches the cap plus one burst |
| `AirtimeLaws.BandThresholds` | src/csma.c:103-126 | the band is 1, 2, 3 or 4 by whole percent of short-term airtime, with steps behind 7, 38 and 77; a new band b has slots 15b - 15 to 15b - 1 |
| `AirtimeLaws.BandInForce` | src/csma.c:56-126 | in every run the band is that of the stored two-bin airtime; band 1 has a sixteenth slot until it is first left |
| `AirtimeLaws.EveryWindowDrawn` | src/csma.c:181-183 | every slot count of the band is drawn for some random number |
| `AirtimeLaws.WindowInBand` | src/csma.c:181-183 | the window is a whole number of slots within the band |
| `DutyCycle.LongTermBound` | src/rnode.c:633-635 | in every run with a long-term limit in which no bin wraps, any 479 bins hold less than the limit's share of an hour plus one packet recorded in them |
| `DutyCycle.ShortTermBound` | src/rnode.c:630-632 | the same for any two bins, 15 s and the short-term limit |
| `Deferral.DeferredAtLimit` | src/rnode.c:622-638 | in every run an attempt is put off exactly when, at the latest update, the two bins or the whole ring had reached a limit; with calls at most one bin apart and no bin wrapped, exactly when the airtime logged in the last two or 479 bins had |
| `Deferral.BandOfRun` | src/csma.c:93-126 | in every run the worker finds the band of the two-bin airtime at the latest update |
| `OnAir.LongTermOnAir` | src/rnode.c:968-988 | when packets are recorded as rnode_to_air computes, the frames of any 479 bins take less than the limit's share of an hour plus one packet plus one code word group for each frame |
| `Daemon.Rnode.OnHostByte` | src/tcp.c:137-140 | decoding one byte and pushing its frame refines one step of the machine |
| `Daemon.Rnode.CheckAirtimeLock` | src/rnode.c:622-638 | the lock is the cross-multiplied comparison of the stored sums with the limits |
| `Daemon.Rnode.OnTick` | src/queue.c:100-173 | one worker iteration, with its three modes and the watchdog, refines one step |
| `Daemon.Rnode.OnPop` | src/queue.c:72-93 | the second half of send_packet and its callers' flush test refine one step |
| `Daemon.Rnode.OnTxDoneIrq` | sx126x/sx126x.c:540-551 | TX_DONE runs the medium callback and then rnode_tx_done |
| `Daemon.Rnode.OnMedium` | sx126x/sx126x.c:491-528 | each receive-side interrupt cause refines one step |
| `NoiseFloor.Monitor.UpdateCurrentRssi` | src/csma.c:196-239 | the sampling code in place is the sample function |
| `NoiseFloor.CalibratedFloor` | src/csma.c:221-239 | in every run a calibrated floor is the truncated mean of the 128 entries and lies between any bounds of them |
| `NoiseFloor.SeriesRecalibrates` | src/csma.c:207-219 | an unbroken suspicious series recalibrates exactly at its first reading 2500 ms or more after it began |
| `NoiseFloor.RecalibrationStep` | src/csma.c:212-229 | the reading that triggers a recalibration is stored, and ends it at once when it fills the ring |
| `NoiseFloor.CalibrationEnds` | src/csma.c:223-229 | calibration takes exactly the carrier-free readings up to the end of the ring |
| `NoiseFloor.RingRefinesList` | src/csma.c:196-239 | in every run the ring refines the plain list of readings learned: which readings are learned, when it is calibrated, the floor as the mean of the latest 128 rounded toward zero, and the interference verdict on the latest reading |
| `RadioParams.MatchesDataSheet` | sx126x/sx126x.c:1241-1250 | the symbol count equals section 6.1.4 of the SX1261/2 data sheet for SF 7 to 12; the missing cut-off at zero is not needed |
| `RadioParams.DataMsMonotone` | sx126x/sx126x.c:1250-1252 | data time grows with the length |
| `RadioParams.InhibitCoversFrame` | src/rnode.c:657-662 | in every run of a radio started under one modulation, nothing polls or attempts during the preamble behind a preamble event, nor during the data part of a frame of up to 255 bytes behind a valid header, unless a radio event ends the reception |
| `RadioParams.RecordedAtMostOnAir` | src/rnode.c:968-988 | the recorded airtime never exceeds that of the frames sent; a frame is short by one code word group or nothing, and by nothing exactly when the header byte fits into its last group |
| `RadioParams.OneMoreByte` | sx126x/sx126x.c:1241-1250 | one more byte costs one code word group or nothing, and nothing exactly when neither 2 len + 11 nor 2 len + 12 is a multiple of SF |
| `RadioParams.OneByteIsShort` | src/rnode.c:968-988 | one byte at SF 7, 125 kHz, 4/5: 13 ms are recorded behind the preamble, 18 are taken |
| `RadioParams.TimesInWholeMs` | sx126x/sx126x.c:1241-1262 | in integers: 2^SF / bw seconds a symbol, four and a quarter symbols behind the preamble, and inhibition half as long again as each part |
| `RadioParams.SlotInWholeMs` | src/csma.c:299-317 | in integers: the bit rate, and a slot of twelve symbols cut to at most 100 ms and at least 24 or, above 30 kbit/s, 6 ms |
| `RadioParams.TimingBounds` | src/csma.c:299-323 | slots take 6 to 100 ms, DIFS is two slots, and only rates up to 14 kbit/s flush |
| `RadioParams.DeadlineInSeconds` | src/csma.c:319-323 | so the worker's deadline is never more than 6.1 s and three tick gaps away |
| `Sha256.PaddedLengthLeast` | src/rnode.c:544 | the padded length is the least multiple of 64 with room for 9 more bytes |
| `Sha256.PadMessage` | src/rnode.c:544-551 | the buffer is the message, 0x80, zeros and the 64-bit length, as in section 5.1.1 of FIPS 180-4 |
| `Sha256.PadInjective` | src/rnode.c:544-551 | different messages have different padded messages |
| `Sha256.Compute` | src/rnode.c:538-581 | the in-place loops compute the fold of the compression function of section 6.2.2 of FIPS 180-4 over the padded blocks |
| `Sha256Vector.DigestOfAbc` | src/rnode.c:538-581 | the digest of the three bytes "abc" is the one of the example in FIPS 180-4, through every schedule word and round |

## Left out

- SPI, GPIO, register messages, sockets, YAML configuration, syslog, /etc/machine-id: input and output; clock, random numbers, RSSI and radio events are inputs of the model.
- Races inside one handler: every event handler, every half of send_packet and every byte of kiss_decode is one atomic step; the shared KISS output buffer is used by one caller at a time.
- TX_DONE interrupts while the radio state is not TX: taken not to occur, as an event that is not enabled.
- Radio recovery inside wait_on_busy: a restart is an event of its own, never nested in another handler.
- Floating-point rounding: limits and shares are cross-multiplied integers, times on air are exact reals.
- Promiscuous mode: modelled as off.
- Payloads over 508 bytes: they are pushed and queued, but rnode_to_air would not fit their tail into one frame; a worker iteration that finds one at the head of the queue is taken not to occur.
- CMD_* queries, statistics frames, bandwidth and coding-rate tables, frequency conversion: one-branch facts. Commands other than CMD_DATA do not reach the step machine; those that restart the radio are the restart event.
- Channel-utilisation samples and longterm_bins: statistics only; the refresh they trigger every 333 samples is an event that may come at any time.
- Freeing memory: items unlinked from the queue are not reused by the model.
- set_packet_params_loRa's preamble search: its result is never read.
