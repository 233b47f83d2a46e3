# Verified model of the debug probe

A Dafny model of a multi-lane CMSIS-DAP debug probe for RP2040 and RP2350: the SWD stack from
command bytes down to single clocks on the wire, the USB and lane protocol around it, the
autobaud estimator, and the host-side flashing and configuration code. `dafny verify
dfyconfig.toml` checks all of it.

## The SWD stack

Each layer claims to mean what the layer above it means, and each claim is a theorem.

- `Pio.dfy` is the PIO program as eleven instructions over registers and two pins. The wire is
  a list of SWCLK cycles, each driven by the host or released; a `Line` says what a released wire
  shows on each clock and is universally quantified, so it covers every target. Running the
  instructions on one more FIFO word does exactly what the word means (`FeedCorrect`).
- `Fifo.dfy` puts the state machine behind its two bounded FIFOs. Every schedule of driver and
  hardware moves keeps the invariant, none deadlocks, and all of them end with the same words on
  the wire and in the driver's hands; an operation the driver is blocked on is ready after a bounded
  number of hardware cycles. `Engine` is the driver's raw access; between any two accesses the
  hardware runs an arbitrary number of instructions.
- `Swd.dfy` holds the `Driver` interface's sequential loops, over an arbitrary environment `Env`
  that answers each attempt from the history of all attempts.
- `Wire.dfy` gives the reference SWD transfer (chapter B4 of ARM IHI 0031) and proves that both FIFO
  plans of a transfer compile to it for every request, data word, turnaround, idle count, data phase
  and ACK, whatever transfers came before (`SessionCompiles`). `SequenceWire.dfy` does the same for
  bit sequences.
- `PioDriver.dfy` and `PioFutures.dfy` are the resumable driver: plans, cursors and poll loops that
  may be pending at any FIFO operation. When a future is ready, what it did is what the sequential
  loop does against the same line, word for word; and only polls during which the state machine runs
  no cycle can keep one from becoming ready.
- `DapTransfer.dfy` and `Dap.dfy` are the command processor. The class is the imperative code, proved
  against a run function; the run function is then compared with a simple executor over a target that
  has a one-word read buffer. What is asked of the target concerns the attempts a command made and
  nothing else, and every device with memory meets it from any point of its history on. A read that
  ends in a parity error counts as made: the target acknowledged it.
- `WireDevice.dfy` puts the two halves together: what the driver does over its line is what the
  processor's driver interface does; commands reply as the simple executor does if the line carries the
  target's reads, parity errors and all; and for every device, and every choice of reads to damage,
  there is a line that does.
- `Requests.dfy` is the host's side of the processor: every command as a value, its bytes as CMSIS-DAP
  lays them out, and the proof that those bytes are framed, done and answered as that command. The codes,
  field positions and reply bytes there are plain numbers, independent of the names the processor uses.

## Around it

- `Framing.dfy`, `Sequences.dfy`, `DapIo.dfy`: request lengths as a prefix-free code, checked against
  what the processor parses.
- `Usb.dfy`, `Lanes.dfy`: requests and replies as 64-byte packets, and the two tasks of every lane as
  an interleaved state machine with an inductive invariant over all traces. The processor the workers
  run is an arbitrary function of the request and of all they ran before.
- `Autobaud.dfy`: the probing table against a multiset, and the estimate in exact arithmetic.
- `Uf2.dfy`, `Flash.dfy`, `Pins.dfy`, `Config.dfy`, `FlashCommit.dfy`: the host tools and the
  configuration path.

## Reading the model

Classes stand for the objects whose methods update fields: `PioSwd`, `Engine`, the block futures,
`Driver`, `Request`, `Response`, `Dap`, the USB endpoints, `BaudEstimator`, `Nor`, `ConfigService`.
Structures the source copies or embeds by value (`Plan`, `Cursor`, `TransferState`, `RetryState`) are
datatypes, and their updates are assignments of new values. `None` from a poll is `Pending`. Fields
marked ghost are history. The tasks, channels and signals of `Lanes.dfy` and `FlashCommit.dfy` are state
machines whose steps are the code between two awaits.

`Driver.env` answers a transfer from the transfers before it. Sequences and pin changes go through
`Port`; since `env` is arbitrary, whatever they do to the target is among the environments quantified
over.

Results that a specification and the code under it could share a mistake in are tied to something else:
ACKs to wire bits, flags and words to bit positions, requests and UF2 files to their bytes on the wire and on
disk, pin lists to texts, samples to whole-number arithmetic. Numbers in those statements are literal.

Where the code and its own comments differ the model follows the code:

- The comment on the lane channels (firmware/src/main.rs:488-491) allows for a `Suspend` queued behind
  a command given up. No command is: its reply is collected before anything else is sent, so a
  `Suspend` never queues behind one (`Lanes.OnlySuspendsQueue`).
- The transfer count is said to exclude the transfer that failed (dap-async/src/dap.rs:246-250). It
  excludes the one whose own bus cycle failed; a posted AP read whose collection fails is counted
  although its data is missing. `DapTransfer.TransferReplies` says exactly when.

Results that are not what one would hope for:

- `flashRanges` aligns addresses with a signed 32-bit operator. Ranges in the lower half of the
  address space erase exactly the sectors they touch (`Flash.LowRangesErased`); one range in the upper
  half erases all of it (`Flash.HighRangeErasesAll`, and `Flash.ErasedExactly` for the exact condition),
  and some of it twice (`Flash.HighVisitsTwice`, and `Flash.FlashRanges` for the exact condition).
- An empty range that does not begin a sector still has that sector erased (`Flash.TouchesMeans`).
- A `DAP_TransferConfigure` cut short changes the settings before the cut
  (`Dap.Dap.TransferConfigure`).

## Model

| member | source | states |
|---|---|---|
| Pio.Dispatch | firmware/src/swd.rs:136-141 | fetching a command word sets bit count, SWDIO direction and routine as the word says, and clocks nothing |
| Pio.WriteLoop | firmware/src/swd.rs:133-135 | the write loop drives the low bits of the OSR, one per clock, least significant first, and then waits for a command |
| Pio.ReadLoop | firmware/src/swd.rs:142-147 | the read loop releases SWDIO for the counted clocks and pushes one word holding the last 32 samples in order |
| Pio.FeedCorrect | firmware/src/swd.rs:128-149 | for every word the driver may send, running the instructions yields exactly the cycles and RX words that word means, and ends waiting |
| Fifo.HwStepKeeps | firmware/src/swd.rs:93-149 | one PIO cycle, stalled or not, loses, repeats and reorders no word and leaves the meaning of everything pushed unchanged |
| Fifo.DriverStepKeeps | firmware/src/dap.rs:176-209 | a push or pull by a driver following a balanced plan keeps the system invariant: at most two RX words are ever outstanding |
| Fifo.NeverDeadlocked | firmware/src/dap.rs:176-209 | with TX depth at least 1 and RX depth at least 2, while a plan has operations left the driver or the state machine can move |
| Fifo.BlockedBecomesReady | firmware/src/dap.rs:176-209 | the operation a driver is blocked on is ready within a computable number of hardware cycles |
| Fifo.EveryScheduleCompletes | firmware/src/dap.rs:213-220 | any interleaving of driver and hardware moves finishes the plan within a computable number of moves |
| Fifo.EveryScheduleAgrees | firmware/src/dap.rs:176-209 | all interleavings end with the same words pushed and pulled, the wire showing nothing else |
| Fifo.WireIsSent | firmware/src/swd.rs:128-149 | the wire only ever shows a prefix of what the pushed words mean, and all of it once the state machine waits with an empty FIFO |
| Fifo.Engine.TryPush | firmware/src/swd.rs:96-104 | a push that succeeds adds exactly its word to what was sent; one that fails adds nothing |
| Fifo.Engine.TryPull | firmware/src/swd.rs:108-115 | a pull that succeeds takes the next RX word the program produced, in order; one that fails takes nothing |
| Swd.RetryAttempts | dap-async/src/swd.rs:130-139 | a transfer costs between 1 and retries+1 attempts of the same request; all but the last were answered WAIT, and WAIT is returned only when the budget is used up |
| Swd.WordsOfLeBytes | dap-async/src/swd.rs:171-172 | reading little-endian words back from their bytes gives the words |
| Words.Le16Bits | dap-async/src/io.rs:26-29 | a half word read from two bytes has the first byte's bits, then the second's, and is written back as those bytes |
| Words.Le32Bits | dap-async/src/io.rs:32-35 | a word read from four bytes has their bits in order, the first byte lowest |
| Words.BitAndBits | dap-async/src/dap.rs:297 | a bit of `a & b` is set exactly when it is set in both |
| Words.MaskedEquals | dap-async/src/dap.rs:297-303 | a masked value equals a target exactly when they agree on every bit of the mask and the target has no other bit |
| Swd.Driver.TransferRetry | dap-async/src/swd.rs:130-139 | the retry loop makes the attempts and returns the answer of the recursive retry |
| Swd.Driver.ReadBlock | dap-async/src/swd.rs:150-176 | count, status, attempts and the bytes stored in place are those of the block read; bytes past the count are untouched |
| Swd.Driver.WriteBlock | dap-async/src/swd.rs:178-193 | count, status and attempts are those of the block write, including its RDBUFF check |
| Wire.PacketOnWire | dap-async/src/swd.rs:35-39 | the packet byte puts start, APnDP, RnW, A2, A3, even parity, stop and park on the wire in that order |
| Wire.NibbleOnly | dap-async/src/swd.rs:35-39 | the wire and the result depend only on the request's low nibble |
| Wire.AckExtracted | firmware/src/dap.rs:366-377 | for turnaround 1 to 4, the ACK the driver shifts out of the RX word is the three bits the target drove after the turnaround |
| Wire.AckBits | dap-async/src/swd.rs:24-26 | OK is exactly 1, 0, 0 on the three ACK clocks, WAIT 0, 1, 0 and FAULT 0, 0, 1 |
| Wire.AnswerBits | firmware/src/dap.rs:366-391 | the answer to an attempt is the number of its three ACK bits, least significant first, or 8 for a read acknowledged 1, 0, 0 whose 33 data and parity bits hold an odd number of ones |
| Wire.RetriesOnWait | firmware/src/dap.rs:416-434 | another attempt follows only where the line showed 0, 1, 0, and then always while the budget lasts |
| Wire.OwnPackets | dap-async/src/swd.rs:15-17 | the packets the driver chooses itself are, bit for bit, a read of DP address 0xC and a write of DP address 0 |
| Wire.FlippedBits | firmware/src/dap.rs:384-391 | a read is reported as ERROR exactly when an odd number of its 33 data and parity bits was flipped; with none flipped it is OK and the data is what the target sent |
| Wire.RequestCompiles | firmware/src/dap.rs:254-261 | the request plan puts the reference request, turnaround and ACK phase on the wire and pulls one word |
| Wire.ReadDataCompiles | firmware/src/dap.rs:276-287 | the plan of an OK read puts data, parity, turnaround and idle cycles on the wire and yields the two words of the read |
| Wire.WriteDataCompiles | firmware/src/dap.rs:288-298 | the plan of an OK write puts turnaround, data, its parity and idle cycles on the wire |
| Wire.RefusedCompiles | firmware/src/dap.rs:300-312 | WAIT and FAULT put the turnaround, and the dummy data phase exactly when it is configured, on the wire |
| Wire.BackOffCompiles | firmware/src/dap.rs:313-317 | any other ACK releases the line for the turnaround and a full data phase |
| Wire.TransferCompiles | firmware/src/dap.rs:254-320 | both plans of any transfer are balanced, put exactly the reference transfer on the wire, and give the driver the reference result |
| Wire.SessionCompiles | firmware/src/dap.rs:254-320 | the operations of any sequence of transfers, each data plan chosen by the ACK the line showed, are balanced and put exactly the reference waveforms on the wire |
| Wire.SessionCompletes | firmware/src/dap.rs:213-220 | such a sequence, begun at rest, completes under every schedule of driver and hardware moves, with those waveforms sent |
| SequenceWire.WritesCompile | firmware/src/dap.rs:630-639 | a sequence write drives exactly the first `bits` bits of its bytes, least significant first |
| SequenceWire.ReadsCompile | firmware/src/dap.rs:641-650 | a sequence read releases SWDIO for `bits` clocks, and the bytes stored hold the bits the line showed, eight to a byte, and zeros to the end of the last byte |
| PioDriver.PioSwd.Step | firmware/src/dap.rs:176-209 | whatever the FIFOs answer and however many lanes are active, a step resumes the plan where it stopped, performs each operation once and in order, and reports completion exactly at its end |
| PioDriver.PushProgress | firmware/src/dap.rs:194-206 | the word at the cursor is one the program accepts, and pushing it keeps the plan on course |
| PioDriver.PullProgress | firmware/src/dap.rs:180-193 | the pull at the cursor has a word coming, room in the two outputs, and keeps the plan on course |
| PioDriver.BlockedMeansBusy | firmware/src/dap.rs:176-209 | at every operation of the plan the driver is running, either the operation is ready or the state machine is not stalled |
| PioFutures.NewDriver | firmware/src/dap.rs:143-149 | a driver over a state machine just started is at rest, which is where every future begins |
| PioFutures.PlanRequest | firmware/src/dap.rs:254-261 | the request plan built slot by slot is the plan proved correct |
| PioFutures.PlanData | firmware/src/dap.rs:266-320 | for every ACK and configuration the data plan fits its ten slots and is the plan proved correct |
| PioFutures.PollTransfer | firmware/src/dap.rs:349-398 | pending leaves the attempt in flight exactly where it was blocked, and nearer its end if the state machine ran a cycle; ready means exactly one attempt was made and its result is what the line answered |
| PioFutures.PollRetry | firmware/src/dap.rs:416-434 | ready after any pattern of pending means the attempts and result of the sequential retry loop, with the budget restored |
| PioFutures.ReadBlockFuture.Poll | firmware/src/dap.rs:493-533 | ready means count, status, attempts and stored bytes of the sequential block read; at most 8 attempts complete between two yields while another lane is active |
| PioFutures.WriteBlockFuture.Poll | firmware/src/dap.rs:540-563 | ready means count, status and attempts of the sequential block write, with the same bound between yields |
| PioFutures.ReadBlock | firmware/src/dap.rs:594-610 | polled as often as it takes, the firmware's block read is the default `read_block` loop; it completes within a computable number of polls during which the state machine runs |
| PioFutures.WriteBlock | firmware/src/dap.rs:612-628 | polled as often as it takes, the firmware's block write is the default `write_block` loop, within the same bound |
| PioFutures.WireShowsAttempts | firmware/src/dap.rs:349-398 | between transfers the wire shows nothing but the reference waveforms of the completed attempts, and all of them once the state machine waits |
| DapTransfer.PostedOrCheck | dap-async/src/dap.rs:256-363 | on every run a posted AP read and an unchecked write are never both outstanding |
| DapTransfer.XferLogs | dap-async/src/dap.rs:240-244 | an OK transfer makes its access exactly once, however many attempts it took, and so does a read that ends in a parity error; any other makes none |
| DapTransfer.XferPosts | dap-async/src/dap.rs:240-244 | an OK read returns what the target posts after the accesses made so far, however many WAITs came first |
| DapTransfer.DevicesPost | dap-async/src/dap.rs:240-244 | every device with a one-word read buffer and any memory, ACKs and earlier history posts its reads during any later attempts, so the results below cover all of them |
| DapTransfer.SameTransferred | dap-async/src/dap.rs:251-376 | a command is the same over any environment that answers the attempts it made alike |
| DapTransfer.StepTracks | dap-async/src/dap.rs:261-363 | over the attempts made, one pass of the pipelined loop is one transfer of the simple executor, or is cut with exactly the uncollected posted value missing and no access made but that of a read ended by a parity error, or the reads of a match |
| DapTransfer.TransferReplies | dap-async/src/dap.rs:251-376 | every command that does not fail counts exactly the transfers before the one that stopped it; its reply holds the simple executor's words for those, short by one exactly when the last is a plain AP read nothing collected; its accesses are theirs, followed at a stop by that of a read ended by a parity error, or by reads of the one register a match was reading; status OK means all are counted and none missing |
| DapTransfer.CountUnique | dap-async/src/dap.rs:246-250 | no other count satisfies that: the transfers counted are determined by where the loop stopped |
| DapTransfer.MatchStatus | dap-async/src/dap.rs:284-307 | a match read ends with its last answer, or with 1 if the value agrees with the operand under the mask and 17 if it does not |
| DapTransfer.OneAccessPerApRead | dap-async/src/dap.rs:251-376 | the AP is read exactly once for each plain AP read, and for each AP match read once more than the values it compares |
| DapTransfer.ReadBlockIsTransfers | dap-async/src/dap.rs:382-407 | a block read makes the attempts of the `DAP_Transfer` of that many plain reads and answers the same words and status |
| DapTransfer.WriteBlockIsTransfers | dap-async/src/dap.rs:382-407 | a block write makes the attempts of the `DAP_Transfer` of those writes, with the same count and status |
| DapTransfer.BlockReadsApOnce | dap-async/src/swd.rs:150-176 | whatever the target answers, an AP block read reads the AP and does nothing else: n times if free of errors, otherwise once more than words came back (not at all if nothing was answered OK), and once more again if an AP read ended in a parity error |
| DapTransfer.BlockWritesApOnce | dap-async/src/swd.rs:178-193 | an AP block write makes exactly the writes it counts, in order, and nothing else; free of errors, all of them |
| DapTransfer.BytesAreItems | dap-async/src/dap.rs:261-363 | a request body that holds all its transfers runs as those transfers |
| WireDevice.LinePosts | firmware/src/dap.rs:384-391 | a line is a target with posted reads to the command processor exactly if every read it acknowledges carries the posted value with its parity, or has an odd number of its bits flipped |
| WireDevice.TransferOnWire | dap-async/src/dap.rs:251-376 | on such a line every command that does not fail replies as `DapTransfer.TransferReplies` says, parity errors included |
| WireDevice.EveryDeviceOnWire | firmware/src/dap.rs:349-398 | for every device, with any 3-bit ACKs, any reads damaged and any earlier attempts, there is a line over which the command makes the same attempts and the same reply as over the device |
| WireDevice.DriverOnWire | firmware/src/dap.rs:585-628 | the retries and blocks the PIO driver is proved to make over its line are those of the processor's driver interface over the same line with its timer |
| Dap.Dap.Transfer | dap-async/src/dap.rs:251-376 | the loop over request bytes, reply buffer and target is the run function: same attempts, mask, count, status and reply bytes; it fails exactly when the request is cut short or the reply is full |
| Dap.Dap.TransferBlock | dap-async/src/dap.rs:382-407 | the reply is the count, the status and exactly that many data words of the block; it fails before any attempt when the request lacks words or the reply lacks room |
| Dap.Dap.SwdSequence | dap-async/src/dap.rs:212-231 | the sequences parsed are played in order up to the first that is cut short or does not fit, and the reply is OK and the bytes read |
| Dap.Dap.TransferConfigure | dap-async/src/dap.rs:159-164 | each setting changes exactly when the payload reaches it |
| Dap.Dap.SwdConfigure | dap-async/src/dap.rs:205-210 | any configuration byte leaves a turnaround of 1 to 4 |
| Dap.Dap.SwjSequence | dap-async/src/dap.rs:195-203 | a count of 0 stands for 256 bits, and nothing is clocked out unless all bytes are there |
| Dap.Dap.WriteAbort | dap-async/src/dap.rs:166-173 | exactly one write of ABORT is attempted, whatever the target answers |
| Dap.Dap.ProcessCommand | dap-async/src/dap.rs:53-100 | a request the framing calls complete is never parsed past its end nor past its framed length; every command has exactly its specified effect on target, port and settings and its specified reply, or the two-byte error; unknown commands answer 0xFF and change nothing |
| Dap.Dap.Execute | dap-async/src/dap.rs:62-90 | transfers executed in full, blocks and sequences consume exactly the framed length (an empty block one byte less), and each command does what its own method is specified to do |
| Dap.UnknownCommand | dap-async/src/dap.rs:86-89 | the processor and the framing know the same commands, 0x00 to 0x0A and 0x10 to 0x1E |
| Requests.Flags | dap-async/src/swd.rs:6-14 | each flag of a request byte is the bit of its weight |
| Requests.WrittenFramed | dap-async/src/framing.rs:28-102 | every command's bytes, lists and JTAG included, are one complete request of that length |
| Requests.PlainUnderstood | dap-async/src/dap.rs:62-210 | for every command but transfers, blocks and SWD sequences, the bytes make the port do, the settings become, the driver attempt and the reply be what the command asks |
| Requests.TransfersUnderstood | dap-async/src/dap.rs:251-376 | the bytes of a transfer request run as the transfers asked for |
| Requests.BlockUnderstood | dap-async/src/dap.rs:382-407 | the bytes of a block request are the block asked for, count, direction, register and words |
| Requests.SequencesUnderstood | dap-async/src/dap.rs:212-231 | the bytes of an SWD sequence request play the sequences asked for and answer what they read |
| Requests.Ask | dap-async/src/dap.rs:53-100 | a command from its bytes to those of its reply: effects on target, port and settings, and every reply byte, or the command byte and 0xFF |
| DapIo.Request.Bytes | dap-async/src/io.rs:38-45 | the next n bytes are taken, or none when fewer are left |
| DapIo.Response.Slice | dap-async/src/io.rs:89-94 | bytes are appended to what was written, or nothing changes when they do not fit |
| DapIo.Response.Reserve | dap-async/src/io.rs:98-104 | reserved bytes are zero and follow what was written |
| Sequences.SequencesPlayed | dap-async/src/dap.rs:212-231 | a complete command makes exactly its sequences in order and answers exactly the bytes they read, unless those do not fit |
| Framing.RequestLen | dap-async/src/framing.rs:28-102 | the walk over a request's list computes its framing |
| Framing.CompleteExtends | dap-async/src/framing.rs:28-102 | a complete request keeps its length whatever bytes follow it |
| Framing.PrefixNeedsMore | dap-async/src/framing.rs:28-102 | every shorter prefix of a complete request needs more bytes |
| Framing.ListEndIsLen | dap-async/src/framing.rs:64-100 | walking a list by position ends within the buffer exactly when the buffer holds all its entries |
| Usb.ReadRequest | firmware/src/main.rs:613-636 | whatever packets and failures arrive, the loop over the buffer returns the specified outcome, and the buffer begins with the request returned |
| Usb.StandardRead | firmware/src/main.rs:613-636 | a complete standard request sent without a terminator is read back whole, leaving what follows, exactly when it fits in 512 bytes; a longer one is dropped once the buffer is full |
| Usb.VendorRead | firmware/src/main.rs:606-612 | a vendor request is exactly its first packet |
| Usb.RequestsReadBack | firmware/src/main.rs:613-636 | any sequence of well-formed requests is read back as exactly that sequence, and no read waits for a packet the host does not send |
| Usb.WriteResponse | firmware/src/main.rs:640-649 | success sends the reply's packets and its terminator if asked; failure sends a proper prefix of them |
| Usb.ReplyReadBack | firmware/src/main.rs:587-592 | a reader that ends on a short packet recovers every terminated reply and nothing of the next |
| Usb.NeedsTerminator | firmware/src/main.rs:587-592 | without the zero-length packet such a reader recovers a reply exactly when it is not a multiple of 64 bytes |
| Usb.VendorReply | firmware/src/main.rs:587-592 | a vendor reply of at most one packet is that packet and nothing else |
| Lanes.StepKeeps | firmware/src/main.rs:500-604 | every step of the I/O task or the worker keeps the lane's invariant |
| Lanes.PacketRead | firmware/src/main.rs:613-636 | a packet takes a lane where `Usb.ReadRequest` goes on it: on reading, done with nothing to answer (an oversized request among them, before its next packet is read), or on with exactly the request read, to core 0 if its first byte is 0x00 or 0x80 to 0x9F and to the worker otherwise |
| Lanes.SendFails | firmware/src/main.rs:640-649 | sending can fail after any packets of a reply but the last, its terminator among them |
| Lanes.EveryTrace | firmware/src/main.rs:500-604 | in every reachable state of any number of lanes: never both sides hold the buffers, exactly one of queued, running and reply queued holds while a reply is awaited and none otherwise, replies answer their own requests in order, only requests beginning with 0x00 or 0x80 to 0x9F are answered on core 0 and no others reach the worker, every answer that is not empty is sent once and in order, whole or, where sending failed, whole packets from the beginning, the worker suspends once for each time the interface went down, and `ACTIVE_LANES` counts the workers in `process_command` |
| Lanes.OnlyHolderWrites | firmware/src/main.rs:437-463 | a buffer changes only under the side that holds it |
| Lanes.OwnBytes | firmware/src/main.rs:505-515 | what the worker runs is the request as its packets arrived, and the reply buffer then holds that command's reply |
| Lanes.ReplyComes | firmware/src/main.rs:572-580 | while a reply is awaited a step can always be taken, and every step but progress inside the command brings the reply nearer |
| Lanes.OnlySuspendsQueue | firmware/src/main.rs:486-495 | a message to the worker is only ever held up by an earlier `Suspend` |
| Autobaud.InsertedStandsFor | autobaud-estimator/src/lib.rs:139-149 | an insertion keeps every key reachable from its hash across wraparound and every count exact; a zero key changes none |
| Autobaud.FewKeysProbe | autobaud-estimator/src/lib.rs:139-161 | with fewer than 500 distinct nonzero keys every probe ends |
| Autobaud.ProbesForEver | autobaud-estimator/src/lib.rs:139-161 | a probe that meets neither its key nor a free slot in one round never does |
| Autobaud.FullTable | autobaud-estimator/src/lib.rs:139-161 | with 500 keys in the table a probe for any other never ends |
| Autobaud.FewWidthsTaken | autobaud-estimator/src/lib.rs:139-161 | a batch that leaves fewer than 500 distinct widths, and whose number and sum fit 32 bits, is taken sample by sample |
| Autobaud.PassWidth | autobaud-estimator/src/lib.rs:61-63 | k passes of the counting loop are a pulse of 2 k clocks, modulo 2^32 |
| Autobaud.SampleEffect | autobaud-estimator/src/lib.rs:176-205 | in whole numbers: a pulse rarer than one in twenty, or a tenth longer than the shortest, is only counted; a shorter one starts the average anew; any other is averaged in, an outlier if the longest is over nine times as long |
| Autobaud.PublishedWhen | autobaud-estimator/src/lib.rs:207-220 | an estimate is published exactly if the baud has moved and five times the confidence left by n samples and o outliers of b is above three |
| Autobaud.PublishedValue | autobaud-estimator/src/lib.rs:207-220 | a published estimate is the whole number nearest to the clock times the number of averaged samples by their sum, its validity the confidence left by n samples times the share that are not outliers, outliers counted twice |
| Autobaud.MovedEnough | autobaud-estimator/src/lib.rs:165-170 | a moved baud is over half a percent from the last, and one over half a percent and one baud away has moved |
| Autobaud.SteadySignal | autobaud-estimator/src/lib.rs:176-223 | a signal of equal pulses of k passes is published once, at the first sample that makes it sure, as the whole number nearest to clock / (2 k); never if that is below one |
| Autobaud.BaudEstimator.Insert | autobaud-estimator/src/lib.rs:139-149 | the table stands for the multiset with the key added once |
| Autobaud.BaudEstimator.GetCount | autobaud-estimator/src/lib.rs:152-161 | the count is the key's multiplicity |
| Autobaud.BaudEstimator.Push | autobaud-estimator/src/lib.rs:176-223 | whenever the probe for the sample ends and the sums fit 32 bits, table and accumulators in place make the step of the multiset specification |
| Autobaud.BaudEstimator.PushBatch | autobaud-estimator/src/lib.rs:228-237 | a batch whose samples can each be taken is those samples one by one, and the last estimate they published |
| Autobaud.PublishedCredible | autobaud-estimator/src/lib.rs:198-221 | a published baud lies in (clock/(1.1 min), clock/min] before rounding, with validity in (0.6, 1] and fewer than 20% outliers |
| Autobaud.EveryHistory | autobaud-estimator/src/lib.rs:176-223 | over every sample history the counts are those of the nonzero widths, the average lies in [min, 1.1 min), outliers are among the one-bit samples, and whatever is published is credible |
| Uf2.ParseUf2 | webui/site/js/uf2.js:32-54 | the loop returns the blocks of the file, or its first failure |
| Uf2.FileRead | webui/site/js/uf2.js:32-54 | a file written record by record is read as the records' blocks, those not for main flash passed over, or as the first with more than 476 bytes |
| Uf2.MagicBytes | webui/site/js/uf2.js:38-41 | a block is recognised exactly by the bytes 55 46 32 0A, 57 51 5D 9E and, at its end, 30 6F B1 0A |
| Uf2.BadMagicFound | webui/site/js/uf2.js:38-41 | what follows good records and is not recognised is where parsing stops, by its offset |
| Uf2.FilterSnoc | webui/site/js/uf2.js:63-65 | a block passes the filter of a family exactly if it is of that family or of none |
| Uf2.SortStable | webui/site/js/uf2.js:69 | blocks at the same address stay in the order of the file |
| Uf2.TwoFamilies | webui/site/js/uf2.js:57-65 | of two files of different families put together, filtering by one gives that file's own blocks |
| Uf2.Coalesce | webui/site/js/uf2.js:68-85 | the loop over the sorted blocks yields the ranges the two results below are about |
| Uf2.CoalesceConserves | webui/site/js/uf2.js:68-85 | ranges hold a byte at an address exactly when a block does |
| Uf2.CoalesceSeparates | webui/site/js/uf2.js:68-85 | for nonempty disjoint payloads the ranges ascend, are disjoint, and are maximal |
| Flash.FlashRanges | webui/site/js/picoboot.js:207-253 | erases come in ascending order of the signed addresses visited and none after writing begins; no sector is erased twice if and only if no range that visits any ends past the first sector of one in the upper half; every byte ends as erasing and then writing makes it; verification succeeds exactly when every byte of every range is in place |
| Flash.AlignsSigned | webui/site/js/picoboot.js:212 | aligning yields the start of the address's 4096-byte sector as the signed 32-bit number of the same low bits |
| Flash.LowRangesErased | webui/site/js/picoboot.js:211-215 | for ranges in the lower half of the address space exactly the sectors they touch are erased |
| Flash.TouchesMeans | webui/site/js/picoboot.js:211-215 | those are the sectors holding a byte of a range, and the sector an empty unaligned range points into |
| Flash.HighRangeErasesAll | webui/site/js/picoboot.js:211-215 | one range in the upper half has every address erased |
| Flash.HighVisitsTwice | webui/site/js/picoboot.js:211-215 | a nonempty range in the upper half has its first sector visited at two signed addresses |
| Flash.ErasedExactly | webui/site/js/picoboot.js:211-232 | the erased addresses are the touched ones if and only if every range begins in the lower half, or the ranges touch everything anyway |
| Flash.FlashedExactly | webui/site/js/picoboot.js:207-253 | wherever the ranges begin, verification succeeds exactly when overlapping ranges agree, bytes not erased are unchanged and erased ones in no range are 0xFF; in the lower half the erased ones are those of the touched sectors |
| Flash.SeparatedAgree | webui/site/js/picoboot.js:207-253 | separated ranges never disagree on a byte |
| Flash.BlocksFlashed | webui/site/js/picoboot.js:236-250 | once verified, every byte of every UF2 block lies at its address |
| Flash.FlashBlocks | webui/site/js/flash.js:150-164 | flashing the coalesced blocks of a file whose blocks do not overlap never fails verification, and once verified every byte of every block lies at its address |
| Pins.SpansPrinted | probe-config-toml/src/board_toml.rs:74-95 | the printed ranges are exactly the set pins, ascending, with an unset pin between any two |
| Pins.PrintThenParse | probe-config-toml/src/board_toml.rs:42-95 | parsing the printed ranges of any 64-bit mask gives the mask back |
| Pins.SameMaskPrintsAlike | probe-config-toml/src/board_toml.rs:42-95 | two accepted texts denote the same mask exactly when they print alike |
| Pins.ListParsed | probe-config-toml/src/board_toml.rs:42-71 | any list of pins and ranges, however spaced, signed and padded with zeros, is the mask of its pins, and is refused exactly if a pin is above 63 or a range descends |
| Pins.ParsePinRanges | probe-config-toml/src/board_toml.rs:42-60 | the loops over parts and pins compute the parse, or fail where it fails |
| Pins.FormatPinRanges | probe-config-toml/src/board_toml.rs:74-95 | the loops over pins print the runs of set pins |
| Config.ConfigService.SetTopology | firmware/src/vendor.rs:119-137 | a chunk is staged exactly when it follows on what is staged and fits; offset 0 starts anew |
| Config.ConfigService.Commit | firmware/src/vendor.rs:139-164 | the staged bytes are stored exactly when they are whole, decode and are valid, and the status says which failed |
| Config.Session.SetTopology | cli/src/session.rs:64-91 | for any encoding of up to 128 bytes the chunks leave the staging buffer equal to it, and the outcome is that of validating and storing it; a longer one is not sent |
| Config.Session.GetTopology | cli/src/session.rs:35-60 | the chunk loop ends with exactly the active topology |
| FlashCommit.StepKeeps | firmware/src/flash_config.rs:83-104 | every step of a committer or the worker keeps the item or its result in exactly one place |
| FlashCommit.OwnResults | firmware/src/flash_config.rs:83-104 | however many commits interleave, each that returns has the result of storing its own item, and no two share a store |
| FlashCommit.NeverStuck | firmware/src/flash_config.rs:83-104 | until every commit has returned some step can be taken |

## Left out

- Instruction delays, clock dividers, pad setup and nRESET timing of the PIO engine: hardware timing with no effect on results.
- `PioSwd.exec` and `set_dir` as polled loops, and mixing sequences with transfers on one wire history: sequences are proved at the level of their FIFO operations.
- The spin budgets of `PioSwd.step` and SWCLK's part in them: how often a step tries again changes no result.
- Dropped transfer futures, and `DAP_TransferAbort` while a command runs: the firmware does neither.
- The timer behind `timestamp`: its value is whatever the environment says after the attempts made so far.
- Fixed answers on core 0 (`dap_info_response`) and the vendor commands for information, profiles and reboots: tables and thin plumbing.
- Memory ordering between the cores: channel operations are taken to order accesses, as the code's own comment does.
- Autobaud.BaudEstimator.Push: says nothing once a 32-bit accumulator overflows, which the code's own documentation rules out, nor when the probe never ends (`Autobaud.ProbesForEver`). Arithmetic is exact where the code rounds to `f32`, `expf` is any function into (0, 1), and the hash is any function into the table.
- Autobaud.BaudEstimator.PushBatch: likewise for a batch with such a sample.
- Flash.FlashRanges: ranges past the end of the 32-bit address space, alignment errors and failing USB transfers are not modelled; the device accepts every command.
- Flash.ErasedExactly: likewise for ranges past the end of the address space.
- Flash.FlashedExactly: likewise.
- Flash.FlashBlocks: likewise for blocks.
- PioFutures.ReadBlock: says nothing of how long the state machine takes to run a cycle; polls that find it idle are counted apart.
- PioFutures.WriteBlock: likewise.
- Two configuration sessions interleaving their chunks: the protocol makes no claim there.
- postcard, TOML and the flash map: an arbitrary codec that decodes what it encodes, and an arbitrary store.
- USB enumeration, descriptors, the UART bridge, the web pages and the remaining command line: input and output around the logic modelled.
