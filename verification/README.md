# Chainloader verification

This project models a serial chainloader for a Raspberry Pi and proves properties of it.
A host program flattens an ELF file, sends it over a lossy serial line in acknowledged
chunks, and asks a resident loader to jump to it. The loader checks every address and
every checksum, clears the BSS tail, and stays resident so that the running payload can
trap back in for the next load, with all four cores under control.

`dafny verify dfyconfig.toml` checks everything.

## The parts

- `Bytes`, `Outcomes`, `Crc`, `Frame`, `Message`: bytes, little-endian numbers, CRC-32 (bit
  by bit, by table, and as a running object), frames and payload layouts. The CRC theorems
  are those of RFC 1662, appendix C.3, and more: linearity, injectivity, burst detection.
- `CrcCheck`, `Layout`: the published check value, and the wire format byte by byte: every
  number of the protocol's tables at its own offset, every rejection by its own bytes.
- `Decoding`, `Decoder`, `Streams`, `Typed`: the byte-fed decoder as a step function and as
  the class over a fixed buffer with the history of its bytes, related to an independent
  parser that sees the whole stream.
- `Receive`, `LoaderSafety`, `ByteLoop`, `LoaderMachine`: the loader. `Receive` says what
  each frame, decode error and timeout does to memory and to the transfer; `ByteLoop` puts
  the decoder in front and the UART behind; `LoaderMachine` is the code, on a memory array
  updated in place, proved against both. `Answers` says what comes back, by its bytes, for
  everything the loader can meet, `Watching` what that tells an observer of its memory, and
  `LoopTurns` what a turn without a frame does.
- `Session`, `HostMachine`, `Admission`, `Replies`: the host, as an automaton over replies
  and as the code with its loops, retries and partial reads, proved to be that automaton;
  which replies end a session and how, and all a successful one has written.
- `Protocol`, `Acks`, `Recovery`, `Undisturbed`: host and loader as one interleaved system
  over two lossy channels. Anything may be dropped, damaged or delayed and either side may
  time out at any moment.
- `Joint`, `JointSteps`, `JointRuns`, `JointLifts`: the two programs on each other's bytes,
  in any pieces and with any pauses, shown to be runs of that system, down to the methods
  of `HostMachine` and `LoaderMachine`.
- `Elf`, `ElfFile`, `ElfVerdict`, `Loading`, `WireLoading`: flattening an ELF file, a writer
  that the reader inverts, every verdict on a file, and the whole chain from the file on disk to the memory and the entry
  point the loader jumps to, over frames and over bytes.
- `Smp`, `Requests`, `Quiesce`, `QuiesceLimits`, `QuiesceProgress`, `QuiesceHangs`:
  parking, releasing and re-parking cores 1 to 3, one load or store at a time, over every
  interleaving. `SmpCode` is the boot core's own code, loops over the shared arrays with the
  other cores running in between, proved to be runs of that system. `Trips` and `Causes` say
  where traps, doorbells and launches lead, and that nothing happens without one.
- `SetWay`, `SetWayFields`: the two cache sweeps by set and way, and what their operands mean
  to the hardware.

## What is assumed

- Memory is sequentially consistent. The model has no store buffers, and WFE may wake at
  any time.
- Harm to a wire is harm a decoder detects: whole frames lost, frames that become decode
  errors, errors added (`Joint.Harm`). `Streams.BurstDetected` says which damage cannot go
  unnoticed. Two cases are assumed away: a corruption the CRC misses, and a frame damaged in
  its magic or header, or cut by a timeout, whose remaining bytes hold a whole valid frame
  (an image may contain one).
- A read that completes a frame ends between frames, so what the host drops with it is
  whole frames.
- A payload may write release slots, ring mailboxes, execute HVC and be interrupted; it
  leaves the loader's own words alone.
- For termination of the quiesce only: a pending FIQ is taken before the payload's next
  instruction on that core.
- Timeouts are nondeterministic: three silent seconds may be over at any moment.
- A session begins with HELLO on the wire, no older frame going up and no stale ACK coming
  down (`Protocol.Start`). The loader may be in any reachable state.
- Physical RAM reaches the end of the advertised window, as the firmware reports it.
- Host arithmetic on addresses wraps at 64 bits, as in an optimised build. A failed
  allocation or an index out of range is the outcome `Crashed`.

## Where the code and its documentation differ

The model follows the code in each case.

- docs/PROTOCOL.md says `ACK.next_offset` lets the host resynchronise after a retry. The
  host never uses an offset the loader reports, so once the loader has stored a chunk whose
  ACK is lost the session cannot succeed: `Recovery.LostAckIsFatal`,
  `Recovery.AckDecides` for both directions, and `Recovery.StuckHappens` for how it comes to
  that.
- docs/PROTOCOL.md says `ERROR(BadVersion)` carries the supported version. The code sends 0:
  `LoaderSafety.VersionNotReported`.
- `cargo-pi/src/artifact.rs:212` says `mem_top >= top`, and the footprint no smaller than the
  image, because every segment's memory size is at least its file size; nothing checks that.
  `Elf.TopIff` and `Elf.FootprintIff` are the exact conditions, and `ElfFile.MemTopBelowTop`
  a file.
- `flatten_elf` is described as covering the full footprint. A BSS-only segment below the
  lowest file-backed one is never cleared: `Elf.FaithfulIff` is the exact condition, and
  `ElfFile.BssBelowHappens` a file.
- Nothing checks that addresses stay below 2^64, and a panic can follow: `Elf.CrashIff` is
  the exact condition, and `ElfFile.OverflowCrashes` a file.
- The host's preflight is described as validating the range the loader validates. Its sum
  wraps where the loader's is checked: `Admission.PreflightWraps`.
- The quiesce is described as forcing every running secondary back. It looks at ACTIVE
  only, so a start in flight escapes it (`QuiesceLimits.SafeIff`) or leaves it waiting for
  ever (`QuiesceHangs.HangIff`). A payload can cause both: `QuiesceLimits.StartInFlightHappens`
  and `QuiesceHangs.HangHappens`.

## Model

| member | source | states |
|---|---|---|
| Crc.TableIsSerial | chainloader-protocol/src/crc.rs:13-61 | for every message and start value, the table computation equals the bit-at-a-time reflected register |
| Crc.ByteStepIsSerial | chainloader-protocol/src/crc.rs:57-58 | one table look-up is eight serial shifts |
| Crc.RawSplit | chainloader-protocol/src/crc.rs:35-61 | any split into updates gives the value of one update over the concatenation |
| Crc.ByteStepInjective | chainloader-protocol/src/crc.rs:57-58 | the register step is injective for every byte |
| Crc.RawInjective | chainloader-protocol/src/crc.rs:54-61 | different registers stay different over any message |
| Crc.ResidueIff | chainloader-protocol/src/crc.rs:81-85 | body plus trailer ends in 0xDEBB20E3 if and only if the trailer is the body's little-endian CRC |
| Crc.TrailerIff | chainloader-protocol/src/crc.rs:54-68 | from any register exactly one four-byte trailer reaches the residue |
| Crc.FourInjective | chainloader-protocol/src/crc.rs:54-61 | four bytes are determined by what they do to the register |
| Crc.WindowDetected | chainloader-protocol/src/crc.rs:54-61 | changing any four consecutive bytes of any message changes the register |
| Crc.BuildEntry | chainloader-protocol/src/crc.rs:17-26 | the inner loop computes eight shifts of the index |
| Crc.BuildTable | chainloader-protocol/src/crc.rs:13-31 | the nested loops fill all 256 entries with the table the theorems are about |
| Crc.Crc32.Update | chainloader-protocol/src/crc.rs:54-61 | the loop folds a whole slice into the running register |
| Crc.Crc32.Finalize | chainloader-protocol/src/crc.rs:44-68 | whatever message has been folded in since the start, the result is that message's checksum |
| Crc.Crc32Of | chainloader-protocol/src/crc.rs:81-85 | the one-shot form is the checksum of the message |
| CrcCheck.CheckValue | chainloader-protocol/src/crc.rs:92-96 | the checksum of the ASCII digits 1 to 9 is 0xCBF43926, and that of nothing is 0 |
| Frame.EncodeFrame | chainloader-protocol/src/frame.rs:144-169 | exact error conditions; on success the buffer holds the frame and is otherwise unchanged, on error it is untouched |
| Frame.WriteBody | chainloader-protocol/src/frame.rs:156-164 | magic, header and payload at the front of the buffer, the rest unchanged |
| Message.HeaderToBytes | chainloader-protocol/src/message.rs:206-215 | the six copies fill the whole buffer with the HEADER layout |
| Message.HeaderRoundTrip | chainloader-protocol/src/message.rs:206-233 | every HEADER survives its encoding |
| Message.ReadyToBytes | chainloader-protocol/src/message.rs:147-157 | the six copies fill the buffer with the READY layout, reserved bytes zero |
| Message.ReadyRoundTrip | chainloader-protocol/src/message.rs:147-176 | every READY survives its encoding |
| Message.AckRoundTrip | chainloader-protocol/src/message.rs:247-265 | every ACK survives its encoding |
| Message.DataFrame.EncodeInto | chainloader-protocol/src/message.rs:437-443 | exact error condition; offset and chunk at the front of the buffer, the rest unchanged |
| Message.DataRoundTrip | chainloader-protocol/src/message.rs:437-457 | every DATA payload, of any length, survives its encoding |
| Layout.TypeNumbers | chainloader-protocol/src/frame.rs:61-109 | each frame type has its number of the protocol's table, and a byte is a type if and only if it is 1 to 9 |
| Layout.CodeNumbers | chainloader-protocol/src/message.rs:272-310 | each error code has its number of the table |
| Layout.ToLeDigits | chainloader-protocol/src/message.rs:70-84 | a number is written as its base-256 digits, lowest first |
| Layout.FrameBytes | chainloader-protocol/src/frame.rs:144-169 | byte by byte: AE 50, 1, the type, the length low byte first, the payload, and a trailer that leaves the register in its residue |
| Layout.HeaderBytes | chainloader-protocol/src/message.rs:206-215 | each field of HEADER at its offset, low byte first |
| Layout.HeaderRead | chainloader-protocol/src/message.rs:223-233 | and read from there, from any payload of 28 bytes or more; a shorter one is refused |
| Layout.ReadyBytes | chainloader-protocol/src/message.rs:147-157 | each field of READY at its offset, the last two bytes zero |
| Layout.ReadyRead | chainloader-protocol/src/message.rs:166-176 | and read from there, from any payload of 32 bytes or more; a shorter one is refused |
| Layout.DataBytes | chainloader-protocol/src/message.rs:437-457 | DATA is the offset and then the chunk, both ways, and needs four bytes |
| Layout.AckLayout | chainloader-protocol/src/message.rs:250-265 | ACK is the next offset, both ways, and needs four bytes |
| Layout.ErrorLayout | chainloader-protocol/src/message.rs:385-393 | ERROR is the code and then the detail |
| Decoding.FrameDecodes | chainloader-protocol/src/decoder.rs:171-257 | from either scanning state an encoded frame is reported once, by its last byte, with its type and payload |
| Decoding.StepSound | chainloader-protocol/src/decoder.rs:179-257 | over any history, a reported frame is exactly the encoding of what is reported, and ends the history |
| Decoding.GoodIsEncoded | chainloader-protocol/src/decoder.rs:237-253 | an accepted body is the one the encoder would have produced |
| Decoding.AcceptIff | chainloader-protocol/src/decoder.rs:237-256 | a body is accepted if and only if its trailer is its CRC, and otherwise reported as BadCrc |
| Decoding.RunSplit | chainloader-protocol/src/decoder.rs:171-193 | feeding a stream in pieces changes nothing |
| Layout.HeaderVerdict | chainloader-protocol/src/decoder.rs:197-226 | from either scanning state, AE 50 and four more bytes draw nothing, or one rejection: a foreign version first, then an unknown type, then a length above 1024, each quoting its own bytes |
| Layout.BodyVerdict | chainloader-protocol/src/decoder.rs:230-257 | a complete body draws its payload, or a CRC error that quotes the trailer and the checksum expected |
| Decoder.Decoder.constructor | chainloader-protocol/src/decoder.rs:139-149 | a new decoder is scanning and has no history |
| Decoder.Decoder.Reset | chainloader-protocol/src/decoder.rs:163-167 | back to scanning, keeping length and type |
| Decoder.Decoder.Push | chainloader-protocol/src/decoder.rs:171-193 | one byte over the buffer is one step of the step function; a reported frame is the encoding at the end of all bytes pushed; no index leaves the buffer |
| Decoder.Decoder.PushFixed | chainloader-protocol/src/decoder.rs:197-226 | the four header bytes, with every rejection, against the step function |
| Decoder.Decoder.PushBody | chainloader-protocol/src/decoder.rs:230-257 | payload and trailer, with the CRC decision, against the step function |
| Streams.StreamingRefinesBatch | chainloader-protocol/src/decoder.rs:171-257 | for every stream, the events byte by byte are those of a parser that cuts the whole stream, and the cut loses no byte |
| Streams.GapSettles | chainloader-protocol/src/decoder.rs:171-257 | a long enough stretch without the low magic byte costs at most one event and ends in scanning |
| Streams.ResyncAfterGap | chainloader-protocol/src/decoder.rs:171-257 | from every state 1033 bytes without 0xAE settle the decoder and the next frame is received intact |
| Streams.ShorterGapFails | chainloader-protocol/src/decoder.rs:215-224 | 1032 such bytes are not enough |
| Streams.GapIff | chainloader-protocol/src/decoder.rs:171-257 | stretches of a given length without 0xAE settle the decoder from every state if and only if the length is at least 1033 |
| Streams.StreamRoundTrip | chainloader-protocol/src/frame.rs:144-169 | any list of frames with text free of 0xAE between them decodes to itself |
| Streams.BurstDetected | chainloader-protocol/src/decoder.rs:230-257 | any damage inside four consecutive bytes of payload plus trailer, at every length and place, is reported as BadCrc by the last byte and nothing before |
| Typed.MessageRoundTrip | chainloader-protocol/src/message.rs:93-526 | every typed message survives its own encoding |
| Typed.TypedRoundTrip | chainloader-protocol/src/decoder.rs:171-257 | any list of typed messages with heartbeat text between them is decoded to exactly those messages in order |
| Receive.Detect | loader/src/receive.rs:122-136 | the window is the reported RAM rounded down to a MiB, or the fallback, and the image limit its size, saturated |
| Receive.AcceptedIsSafe | loader/src/receive.rs:408-441 | every byte an accepted header claims lies in the window and outside the loader, and no sum wraps |
| LoaderSafety.DataKeepsInv | loader/src/receive.rs:364-404 | DATA keeps the loader invariant: valid header, received within the image, running CRC equal to the CRC of the stored bytes, verified exactly when complete |
| LoaderSafety.HeaderKeepsInv | loader/src/receive.rs:303-319 | HEADER keeps the loader invariant |
| LoaderSafety.BootKeepsInv | loader/src/receive.rs:321-343 | BOOT keeps the loader invariant, the zero fill included |
| LoaderSafety.ReactKeepsInv | loader/src/receive.rs:186-349 | every frame, decode error and timeout keeps it, whoever the peer is |
| LoaderSafety.ReactFrame | loader/src/receive.rs:378-404 | one event changes only bytes the live, validated header claims |
| LoaderSafety.BootHandsOver | loader/src/receive.rs:321-343 | BOOT jumps if and only if a verified image is held, and then memory is bootable: CRC right, tail zero, entry inside |
| LoaderSafety.OnlyBootJumps | loader/src/receive.rs:258-349 | nothing but BOOT ever jumps |
| LoaderSafety.VersionNotReported | loader/src/receive.rs:216-220 | a frame of another version is answered with detail 0, which is not the supported version |
| LoaderSafety.RunFrame | loader/src/receive.rs:162-239 | over any run, jump included, a byte that changed was claimed by an accepted header, lies in the window and outside the loader |
| LoaderSafety.RunJumpsVerified | loader/src/receive.rs:162-239 | over any run, a jump enters a verified image with a cleared tail, after a BOOT |
| Answers.DataRefused | loader/src/receive.rs:365-382 | DATA without a transfer, too short, out of order or past the end changes nothing and is answered with 5, 3, 10 with the count, or 3 with the offset |
| Answers.DataAccepted | loader/src/receive.rs:384-403 | the next piece, if it fits, is stored byte for byte and nothing else is; it is acknowledged with the new count unless it completes an image whose stored bytes have another checksum than the header's, which is answered with 11 and that checksum, and dropped |
| Answers.RefusalIs | loader/src/receive.rs:408-441 | a header is refused exactly for the first of its faults, with that fault's code, addresses being judged byte by byte |
| Answers.HeaderAnswer | loader/src/receive.rs:302-319 | a short HEADER changes nothing; any other ends the old transfer, and starts an empty one if and only if it has no fault |
| Answers.HelloAnswer | loader/src/receive.rs:268-272 | HELLO drops the transfer, leaves low power and draws READY with the board's window |
| Answers.ModeAnswer | loader/src/receive.rs:273-301 | the five answers to MODE, and the power mode after each |
| Answers.BootAnswer | loader/src/receive.rs:321-342 | BOOT with a verified image acknowledges its length, clears the tail and nothing else, and jumps; without one it is refused with 12 |
| Answers.GarbledAnswer | loader/src/receive.rs:216-220 | a rejected frame is answered only after contact, with 1, 4, 3 or 2 and detail 0, and changes nothing |
| Answers.ExpiredAnswer | loader/src/receive.rs:189-200 | three silent seconds matter only to a transfer: it and the contact are dropped and READY goes out |
| Answers.AckIff | loader/src/receive.rs:258-403 | an ACK with number n comes back if and only if it is earned: an accepted HEADER and 0, a good next piece and the new count, BOOT of a verified image and its length |
| Watching.SeenIsStored | loader/src/receive.rs:365-403 | over every run with any peer, the image area of a live transfer holds exactly the chunks acknowledged since its HEADER was, in order |
| Watching.JumpEntersSeen | loader/src/receive.rs:321-341 | a jump enters exactly what was acknowledged, at the header's entry |
| ByteLoop.BytesRefineFrames | loader/src/receive.rs:186-238 | for every input of bytes and pauses, state and jump are those of a run of the frame-level machine |
| ByteLoop.BytesKeepOutside | loader/src/receive.rs:186-238 | for every input, memory outside the window and the loader itself never change |
| ByteLoop.BytesJumpVerified | loader/src/receive.rs:186-238 | for every input, a jump enters a verified image |
| ByteLoop.OutputDecodes | loader/src/receive.rs:204-254 | a listener decodes exactly the frames sent, in order, heartbeat lines and all |
| ByteLoop.NothingDropped | loader/src/receive.rs:674-681 | no reply is ever too large to send |
| LoopTurns.SilentTurn | loader/src/receive.rs:187-210 | a turn without a byte: a timed-out transfer is given up with a new decoder, and otherwise only a heartbeat that is due goes out, by the power mode and the contact |
| LoopTurns.ByteTurn | loader/src/receive.rs:211-238 | a turn with a byte: nothing but the decoder moves unless a frame or an error is reported, and then it is the loader's answer |
| LoopTurns.LinesRead | loader/src/receive.rs:207-252 | the two heartbeat lines, character for character |
| LoaderMachine.WriteImage | loader/src/receive.rs:449-455 | the store loop writes the chunk at its place and nothing else |
| LoaderMachine.ZeroBss | loader/src/receive.rs:630-638 | the loop clears the range and nothing else |
| LoaderMachine.CleanDcache | loader/src/receive.rs:647-660 | the loop issues consecutive aligned lines from the one holding the start until the end is reached |
| LoaderMachine.LinesCover | loader/src/receive.rs:652-657 | every address of the range lies in exactly one issued line |
| LoaderMachine.LineIs | loader/src/receive.rs:651-653 | a line is 4 bytes times two to the power CTR_EL0 gives, and begins at the multiple of its size at or below the address |
| LoaderMachine.FootprintCleaned | loader/src/receive.rs:485-497 | after a jump every address of the footprint, tail included, lies in exactly one of the lines cleaned |
| LoaderMachine.Receiver.constructor | loader/src/receive.rs:164-184 | the loop starts with the detected window, no transfer, a scanning decoder, and READY sent |
| LoaderMachine.Receiver.Send | loader/src/receive.rs:674-681 | the frame's bytes, and no others, go out |
| LoaderMachine.Receiver.HandleData | loader/src/receive.rs:364-404 | memory, transfer and reply after DATA are those of the state machine, in every branch |
| LoaderMachine.Receiver.Fold | loader/src/receive.rs:384-388 | the chunk is stored behind what is there, folded into the CRC and counted |
| LoaderMachine.Receiver.Settle | loader/src/receive.rs:395-403 | a complete image is verified and acknowledged, or reported and dropped, by its CRC |
| LoaderMachine.Receiver.TakeChunk | loader/src/receive.rs:384-403 | an in-order chunk that fits has the effect of the state machine's |
| LoaderMachine.Receiver.HandleHeader | loader/src/receive.rs:303-319 | the same for HEADER |
| LoaderMachine.Receiver.HandleMode | loader/src/receive.rs:273-302 | the same for MODE |
| LoaderMachine.Receiver.HandleBoot | loader/src/receive.rs:321-343 | the same for BOOT, with the zero fill and the lines cleaned over the footprint |
| LoaderMachine.Receiver.HandleFrame | loader/src/receive.rs:258-349 | the dispatch is the state machine's |
| LoaderMachine.Receiver.GiveUp | loader/src/receive.rs:189-199 | the timeout drops the transfer, takes a new decoder, forgets the contact and sends READY, and changes nothing else |
| LoaderMachine.Receiver.Answer | loader/src/receive.rs:212-236 | what the decoder reports is answered as the state machine answers it, errors only after contact |
| LoaderMachine.Receiver.OnSilence | loader/src/receive.rs:187-210 | a turn without a byte is the model's turn: timeout, one heartbeat line, or nothing |
| LoaderMachine.Receiver.OnByte | loader/src/receive.rs:211-237 | a turn with a byte is the model's turn |
| LoaderMachine.Receiver.TakeTurn | loader/src/receive.rs:186-238 | one turn of the loop, on a byte or on silence, is the model's turn |
| LoaderMachine.Receiver.Serve | loader/src/receive.rs:162-239 | the loop over any inputs ends in the state, output and jump of the model, and on a jump every line of the footprint has been cleaned |
| Session.ChunksIsCeiling | cargo-pi/src/session.rs:69-84 | the number of chunks is the length divided by the chunk size, rounded up |
| Session.EveryReplyCounts | cargo-pi/src/session.rs:91-122 | every reply or timeout brings the session nearer its end, and at most one frame is written for it |
| Replies.PreflightIff | cargo-pi/src/session.rs:233-259 | preflight passes if and only if the image is short enough, aligned, and its footprint in the window, an end past 2^64 counting as what is left of it |
| Replies.ChunkSizeIff | cargo-pi/src/session.rs:68 | chunks are as large as the loader advertises, within 1 and 1020 |
| Replies.WrongReplyEnds | cargo-pi/src/session.rs:193-207 | outside the chunk loop any reply of the wrong type ends the session: an ERROR with the code and detail of its bytes, a short one as malformed, another frame by its type, silence as none |
| Replies.ErrorEndsLoad | cargo-pi/src/session.rs:193-207 | an ERROR read while the host waits for READY, for the HEADER's ACK or for BOOT's makes the load fail with the code and detail it carries |
| Replies.RightReplyGoesOn | cargo-pi/src/session.rs:43-66 | the right reply goes on: READY to preflight and HEADER, the HEADER's ACK to the first chunk or BOOT, BOOT's to success |
| Replies.Resends | cargo-pi/src/session.rs:91-115 | the same DATA is sent again after each of the first five replies that settle nothing, and the sixth ends the session |
| Replies.HostFrames | cargo-pi/src/session.rs:43-80 | HELLO, HEADER, DATA and BOOT by their bytes |
| Replies.SuccessHasWritten | cargo-pi/src/session.rs:43-122 | a load that succeeds has written HELLO, one HEADER, every chunk in order one to six times, BOOT, and nothing else |
| Replies.PiecesAreImage | cargo-pi/src/session.rs:68-82 | those chunks, each once, are the image, and none is longer than the chunk size |
| Admission.Agree | cargo-pi/src/session.rs:233-259 | with the advertised limits the loader accepts a header if and only if preflight passes, the image is non-empty and within its footprint, the entry is inside, and the sum does not wrap |
| Admission.PreflightWraps | cargo-pi/src/session.rs:250-251 | an image at the top of the address space passes preflight and is refused |
| HostMachine.Host.WriteFrame | cargo-pi/src/session.rs:182-189 | exactly the packet's bytes are written |
| HostMachine.Host.ScanPiece | cargo-pi/src/session.rs:219-225 | the bytes of one read are fed up to the first frame and no further |
| HostMachine.Host.ReadFrame | cargo-pi/src/session.rs:210-228 | reading in pieces yields the first frame, drops the rest of its piece, and gives up at the deadline |
| HostMachine.Host.Expect | cargo-pi/src/session.rs:193-207 | a payload is returned if and only if a frame of the wanted type was read |
| HostMachine.Host.Handshake | cargo-pi/src/session.rs:43-50 | HELLO and READY are the automaton's first step |
| HostMachine.Host.SendHeader | cargo-pi/src/session.rs:58-67 | HEADER and its ACK are the automaton's step to the first chunk |
| HostMachine.EncodeChunk | cargo-pi/src/session.rs:74-80 | the reused buffer yields exactly the chunk's DATA payload |
| HostMachine.Host.SendData | cargo-pi/src/session.rs:91-115 | the retry loop is the automaton's six attempts |
| HostMachine.Host.SendChunks | cargo-pi/src/session.rs:69-84 | the chunk loop is the automaton from the first chunk to BOOT |
| HostMachine.Host.Transfer | cargo-pi/src/session.rs:54-87 | the transfer is the automaton from preflight to BOOT |
| HostMachine.Host.Boot | cargo-pi/src/session.rs:118-122 | BOOT succeeds if and only if the automaton ends in success |
| HostMachine.Host.Load | cargo-pi/src/main.rs:110-117 | for everything the port may deliver, outcome, bytes written and bytes left are the automaton's |
| HostMachine.WireDecodes | cargo-pi/src/session.rs:182-189 | a scanning decoder reads what the host wrote as the same packets |
| Protocol.OnHeader | loader/src/receive.rs:303-319 | a valid HEADER is acknowledged with 0 and starts the transfer empty; a refused one leaves none |
| Protocol.OnNextData | loader/src/receive.rs:364-404 | the chunk the loader waits for is stored and acknowledged with its end, and a finished image verifies |
| Protocol.OnStrayData | loader/src/receive.rs:366-377 | any other chunk changes nothing and is never acknowledged |
| Protocol.OnBoot | loader/src/receive.rs:321-343 | BOOT on a complete transfer lands the image; without a transfer it does nothing |
| Protocol.StepKeepsLockstep | cargo-pi/src/session.rs:72-122 | every step of either side, and every loss, damage and timeout, keeps the lockstep invariant |
| Protocol.RunKeepsLockstep | cargo-pi/src/session.rs:54-122 | so does every run |
| Protocol.BootedMeansLanded | cargo-pi/src/session.rs:54-122 | over every run, if the host reports success the loader has jumped with the image byte for byte in place, its tail zero and the right entry; and it never jumps to anything else |
| Protocol.ImageCrcNeverFires | loader/src/receive.rs:395-403 | in a live session DATA never ends the transfer |
| Acks.AcksAscend | loader/src/receive.rs:386-399 | over every live run the acknowledged offsets rise strictly, so each is sent at most once |
| Recovery.StuckStaysStuck | cargo-pi/src/session.rs:91-115 | once a stored chunk's ACK is gone, no step of anyone helps |
| Recovery.LostAckIsFatal | loader/src/receive.rs:374-377 | from there no run reports success or jumps |
| Recovery.AckDecides | cargo-pi/src/session.rs:93-109 | in any session, once the chunk the host waits for is stored and whatever resends, errors and reports are on the wires, success is possible if and only if an ACK is on its way |
| Recovery.StuckHappens | loader/src/receive.rs:374-377 | from every start for an admissible image, losing the ACK of the first chunk leads to where no run succeeds |
| Recovery.AdmissibleHappens | loader/src/receive.rs:408-441 | there are such boards, images and starts |
| Recovery.DamagedSendRetries | cargo-pi/src/session.rs:93-109 | a damaged send is answered by ERROR and sent again, five times at most |
| Recovery.CleanSendAdvances | cargo-pi/src/session.rs:99-101 | an undamaged send is stored, acknowledged and followed by the next frame |
| Recovery.LoadGetsThrough | cargo-pi/src/session.rs:54-122 | for every choice of at most five damaged sends per chunk there is a run that succeeds, with exactly that many extra frames |
| Recovery.SixDamagedSendsFail | cargo-pi/src/session.rs:93-114 | the sixth damaged send of a chunk ends the session |
| Undisturbed.StaysOnTrack | cargo-pi/src/session.rs:69-122 | under those conditions every action leads to a state a healthy session can be in |
| Undisturbed.FuelFalls | cargo-pi/src/session.rs:91-115 | and each one uses up some of a bounded number |
| Undisturbed.UndisturbedSucceeds | cargo-pi/src/session.rs:69-122 | in every run in which only DATA and ERROR frames are lost or damaged, at most five sends of each chunk, and the loader does not time out: the session never fails, is over within a bound, writes at most six DATA frames per chunk, and can always go on, until the image is in place |
| JointSteps.JointStep | cargo-pi/src/session.rs:182-228 | every byte, pause, read and give-up of the two programs, and every detectable harm to their wires, is a run of the frame-level system |
| JointRuns.JointIsRun | loader/src/receive.rs:162-239 | so is every run of both programs on each other's bytes |
| JointRuns.JointLands | cargo-pi/src/session.rs:43-122 | over every such run, a host that ends in success means a jump, and every jump lands the image |
| JointRuns.LoaderFollows | loader/src/receive.rs:186-238 | the loader in a joint run is where its receive loop takes it on its inputs |
| JointRuns.HostFollows | cargo-pi/src/session.rs:193-228 | the host in a joint run is where its code takes it on the pieces read, whatever comes after |
| JointRuns.LoadOverTheWire | cargo-pi/src/main.rs:110-117 | the two programs' own methods, on the pieces and inputs of one joint run: if the load returns Ok, the loader has jumped and its memory array holds the image byte for byte with the tail cleared |
| JointLifts.ReadingLifts | cargo-pi/src/session.rs:210-228 | every frame-level run in which both sides only read is carried out on bytes |
| JointLifts.StartOnBytes | cargo-pi/src/session.rs:43-48 | every frame-level start with nothing yet on the wire to the host has a start of the two programs' bytes |
| JointLifts.JointSucceeds | cargo-pi/src/session.rs:43-122 | from every quiet start for an admissible image some joint run on bytes ends in success with the image in memory |
| Elf.ReadSegments | cargo-pi/src/artifact.rs:171-199 | the header loop finds the loadable segments, their base, top and memory top, or the first error |
| Elf.Copy | cargo-pi/src/artifact.rs:206-210 | the copy loop paints the segments into a zeroed buffer, or fails exactly when one does not fit |
| Elf.FlattenElf | cargo-pi/src/artifact.rs:161-217 | the whole function, every error and crash included, computes the specified outcome |
| Elf.SegmentsTakeSpace | cargo-pi/src/artifact.rs:180-183 | empty segments are skipped |
| Elf.CrashIff | cargo-pi/src/artifact.rs:196-210 | on any segments at all, flattening crashes if and only if there is file content and either the allocation fails or the content is not contained: some of it runs past the top of the address space, and not all of it does, or what comes round reaches the base |
| Elf.WellFormedIsContained | cargo-pi/src/artifact.rs:196-210 | well-formed segments are contained, so they crash only for want of memory |
| ElfVerdict.HeaderVerdict | cargo-pi/src/artifact.rs:161-170 | the class and byte order first, then the length, and each field at its offset |
| ElfVerdict.CutEntry | cargo-pi/src/artifact.rs:176-186 | a program header cut off by the end of the file is an error, unless its type is there and is not loadable |
| ElfVerdict.EntryVerdict | cargo-pi/src/artifact.rs:176-199 | a complete one gives nothing unless it is loadable and takes memory; otherwise its address, its size and the content its offset and size name, or an error if the file is shorter |
| ElfVerdict.HasFields | cargo-pi/src/artifact.rs:176-191 | every complete program header has such fields |
| ElfVerdict.TableVerdict | cargo-pi/src/artifact.rs:172-199 | the first entry that cannot be read decides; otherwise the segments are those of the loadable entries, in order, at the file's own spacing |
| ElfVerdict.FileVerdict | cargo-pi/src/artifact.rs:161-217 | the verdict on any file, from its bytes to its segments |
| ElfVerdict.FlattenVerdict | cargo-pi/src/artifact.rs:201-217 | the verdict on any segments, from the lowest address with content and the highest ends: nothing to load, a crash, too large, entry out of range, or flattened with those very numbers |
| ElfVerdict.WellFormedVerdict | cargo-pi/src/artifact.rs:201-217 | for well-formed segments, by plain bounds: flattened if and only if the size can be allocated, the footprint is below 4 GiB and the entry less than 4 GiB above the base |
| ElfVerdict.LaterWins | cargo-pi/src/artifact.rs:207-210 | where contents overlap the later segment wins |
| Elf.PaintedNothing | cargo-pi/src/artifact.rs:206-210 | where there is no content the image is zero |
| Elf.TopIff | cargo-pi/src/artifact.rs:212-214 | on any segments, the memory top is no lower than the top of the content if and only if every end of content is reached by some segment's memory |
| Elf.FootprintIff | cargo-pi/src/artifact.rs:201-214 | on any segments that flatten, the footprint is no smaller than the image if and only if memory reaches every end of content or ends below all of it, and both when the content runs past the top of the address space |
| Elf.PlainFootprintIff | cargo-pi/src/artifact.rs:201-214 | with nothing running past the top of the address space, if and only if every segment's content ends no higher than some segment's memory |
| Elf.FlatShape | cargo-pi/src/artifact.rs:205-216 | base, length and footprint are the true bounds, and base plus entry offset is the entry |
| Elf.MeaningPreserved | cargo-pi/src/artifact.rs:161-217 | with image and zeros in place, every segment address from the base up holds what loading the file would put there |
| Elf.FaithfulIff | cargo-pi/src/artifact.rs:187-196 | that covers every address, on any memory, if and only if no segment begins below the base |
| ElfFile.EntryRoundTrip | cargo-pi/src/artifact.rs:176-195 | a program header written anywhere in a file is read back as its segment, content included |
| ElfFile.FileRoundTrip | cargo-pi/src/artifact.rs:161-199 | every list of segments written as an ELF64 file is read back, with the entry point, exactly and in order |
| ElfFile.OverflowCrashes | cargo-pi/src/artifact.rs:197-209 | for every heap there is an ELF file of two segments, the second alone running past the top of the address space, that crashes flattening |
| ElfFile.LoneOverflowFlattens | cargo-pi/src/artifact.rs:197-209 | an ELF file with that segment alone flattens to its bytes |
| ElfFile.MemTopBelowTop | cargo-pi/src/artifact.rs:212-214 | there is an ELF file that flattens to an image larger than its footprint, its memory top being below the top of its content, against the comment |
| ElfFile.BssBelowHappens | cargo-pi/src/artifact.rs:187-191 | there is a well-formed file with BSS below its data that flattens, and not to what the file says |
| Loading.Build | cargo-pi/src/artifact.rs:34-86 | from a file already read: the refusals, the flattened or raw image, its footprint and its CRC |
| Loading.AllZero | cargo-pi/src/artifact.rs:44 | a file is refused as all zeros if and only if every byte is |
| Loading.BuildVerdict | cargo-pi/src/artifact.rs:34-86 | each refusal of a file if and only if its bytes and the configuration call for it, and a raw file taken as it is, to the configured address and entry |
| Loading.ElfBuildVerdict | cargo-pi/src/artifact.rs:63-72 | of an ELF file, the refusals, the crashes and the image are flattening's |
| Loading.RawEndToEnd | cargo-pi/src/artifact.rs:72-86 | from any raw file through any run that the host reports as a success: the loader jumped to the configured entry with the whole file in memory at the configured address |
| Loading.ElfEndToEnd | cargo-pi/src/artifact.rs:34-86 | from any well-formed ELF file through any run that the host reports as a success: the loader jumped to the file's entry and every segment address from the base up holds its ELF value |
| Loading.LandedIsLoaded | cargo-pi/src/artifact.rs:161-217 | wherever the image of a well-formed file has landed, the entry is the file's and every segment address from the base up holds its ELF value |
| WireLoading.LoadFile | cargo-pi/src/main.rs:92-117 | the two programs' own methods, from the file on disk over any joint run of bytes: on success the loader has jumped, for a well-formed ELF file to its entry with every segment address from the base up as the file says, for a raw file to the configured entry with the file in the memory array |
| Smp.StepKeepsFlags | loader/src/smp.rs:193-225 | every single access by any core keeps ACTIVE in step with where each core is |
| Smp.PayloadImpliesActive | loader/src/smp.rs:53-62 | over every interleaving, a secondary inside the payload has ACTIVE set |
| Requests.DoorbellsPayForStarts | loader/src/smp.rs:200-205 | over every run a core starts no more often than its doorbell is rung, so a consumed slot never starts it again |
| Requests.EntersWhereRung | loader/src/smp.rs:200-258 | a secondary enters the payload only at an address written to its own slot |
| Requests.RequestStands | loader/src/hvc.rs:139-158 | a secondary's HVC #0 stays on its way, or pending at core 0, until core 0 begins a reload |
| Requests.RequestIsServed | loader/src/hvc.rs:139-184 | with core 0 in the payload, any seven rounds in which every core acts and core 0 takes interrupts promptly begin the reload |
| Trips.HvcNopIsInvisible | loader/src/hvc.rs:130-168 | HVC #n of a secondary, n not 0: by its next step, whatever the others did in between, the state is the one without it |
| Trips.FiqNopIsInvisible | loader/src/hvc.rs:175-182 | so it is for an FIQ that finds nothing pending in the core's mailbox |
| Trips.BootHvcTrip | loader/src/hvc.rs:136-145 | HVC of the boot core: #0 begins the reload at its next step, any other leaves no trace |
| Trips.BootFiqTrip | loader/src/hvc.rs:175-184 | FIQ of the boot core: without a trace if nothing is pending, else the reload begins and exactly what was read is cleared |
| Causes.LeavesOnlySummoned | loader/src/hvc.rs:130-184 | over every run a secondary stays in the payload, with its context, unless it executes HVC #0 or takes an FIQ with a bit pending |
| Causes.BitHasCause | loader/src/hvc.rs:150-160 | a mailbox bit is set only by the payload, by a secondary's HVC #0 on core 0, or by the quiesce on the core it rings |
| Causes.RingsOnlyActive | loader/src/smp.rs:148-154 | the quiesce rings a core only after reading its flag as set |
| Causes.ReloadHasCause | loader/src/hvc.rs:130-184 | without HVC #0 and without a ring of core 0's mailbox no run begins a reload |
| Causes.DoorbellStarts | loader/src/smp.rs:199-285 | a parked secondary with an address in its slot is in the payload there, with the registers published, by its fifteenth own step, and stands where the trampoline has it at each step before |
| Causes.GoesToPark | loader/src/hvc.rs:146-217 | after HVC #0, after an interrupt found pending, and once its spin-table word is written, a secondary is parked with its flag clear by its fourth, third and second own step |
| Causes.ServedIsCleared | loader/src/hvc.rs:181-183 | exactly the interrupts read are cleared |
| Causes.LaunchPrepares | loader/src/smp.rs:109-136 | over every run of a launch without a doorbell, the payload is entered with the launch's handoff, empty slots and every spin-table word written |
| Causes.FlushLoads | loader/src/hvc.rs:57-79 | the flush done, the boot core receives the next image at its next step, and nothing else has changed by it |
| Causes.LoadsUntilLaunch | loader/src/receive.rs:186-239 | it goes on receiving until it launches what it has received |
| Quiesce.ProgressStays | loader/src/smp.rs:147-161 | what the scan and wait loops have established stays true under every doorbell-free action |
| Quiesce.QuiesceIsSafe | loader/src/smp.rs:147-161 | with no start in flight and no doorbell, once the quiesce is over no secondary is inside the payload |
| Quiesce.DownUntilDoorbell | loader/src/smp.rs:200-205 | and none will be until a doorbell is written |
| Quiesce.ReloadsAreSafe | loader/src/hvc.rs:51-80 | across any number of reloads by a well-behaved payload: no secondary is inside while an image is received or published, and each was entered with the registers of the running image |
| Quiesce.LeftoverIsDrained | loader/src/smp.rs:218-225 | an interrupt left over from a re-park never reaches the next launch |
| SmpCode.Shared.Release | loader/src/smp.rs:96-133 | the stores of `release`, with the other cores running before each, are a run of the system that ends with the handoff published and the payload running |
| SmpCode.Shared.Scanning | loader/src/smp.rs:148-154 | the first quiesce loop is a run of the system up to the first poll |
| SmpCode.Shared.Polling | loader/src/smp.rs:156-160 | one spin loop is a run of the system that ends when the flag is clear, or when the others get no more turns |
| SmpCode.Shared.Quiesce | loader/src/smp.rs:147-161 | the whole quiesce is a run of the system, and if it returns, with no start in flight before and no doorbell meanwhile, every secondary is out |
| QuiesceLimits.EveryQuiesce | loader/src/smp.rs:96-133 | over every run from power-on, a quiesce begins with ACTIVE right and every spin-table word written |
| QuiesceLimits.SafeIff | loader/src/smp.rs:147-161 | the quiesce is safe if and only if it begins with no start in flight |
| QuiesceLimits.StartInFlightHappens | loader/src/smp.rs:147-161 | a payload can bring it about from power-on: ring core 1 and at once execute HVC #0 |
| QuiesceProgress.StaysAlert | loader/src/hvc.rs:175-218 | every secondary the scan has passed stays cleared, or bound to clear itself |
| QuiesceProgress.QuiesceFalls | loader/src/smp.rs:156-160 | no action raises the measure and the awaited core's own step lowers it |
| QuiesceProgress.QuiesceTerminates | loader/src/smp.rs:147-161 | without a late start, every schedule that takes interrupts promptly ends the wait within 107 rounds |
| QuiesceProgress.ScheduleExists | loader/src/smp.rs:156-160 | from every state there are such schedules, of any length |
| QuiesceProgress.QuiesceDoesEnd | loader/src/smp.rs:147-161 | so a quiesce without a late start can always be carried to its flush |
| QuiesceHangs.HungForever | loader/src/smp.rs:156-160 | a poll of a core with nothing pending never ends while it computes |
| QuiesceHangs.HangIff | loader/src/smp.rs:147-161 | the wait can hang if and only if some start is late: not begun, or about to drain the very interrupt meant for it |
| QuiesceHangs.HangHappens | loader/src/smp.rs:147-161 | a payload can bring a hang about from power-on |
| SetWay.StepSweep | loader/src/hvc.rs:195-215 | the subtract-a-step loop terminates and issues the full grid of level 1 |
| SetWay.StepWays | loader/src/hvc.rs:209-213 | the inner loop issues all ways of one set, by subtraction and its sign |
| SetWay.FlushAll | loader/src/hvc.rs:224-262 | the nested counters issue the grid of every level with a data cache below the point of coherency |
| SetWay.FlushLevel | loader/src/hvc.rs:231-255 | a level without a data cache contributes nothing |
| SetWay.CountWays | loader/src/hvc.rs:246-253 | the inner counter loop issues all ways of one set |
| SetWay.CounterSweep | loader/src/hvc.rs:238-255 | one level by counters issues that level's grid, the one the stepped loop issues at level 1 |
| SetWay.GridAt | loader/src/hvc.rs:209-215 | the grid has one operand for every set and way, each at its own place |
| SetWay.DistinctIff | loader/src/hvc.rs:202-208 | no two pairs share an operand if and only if the set field ends below the way field |
| SetWayFields.CcsidrFields | loader/src/hvc.rs:239-246 | the geometry is line size, associativity and sets from the architectural fields of CCSIDR_EL1 |
| SetWayFields.HasDataIff | loader/src/hvc.rs:231-235 | a level has a data cache if and only if its three bits of CLIDR_EL1 are 2 or more |
| SetWayFields.CoherenceIs | loader/src/hvc.rs:226-228 | the level of coherence is bits 24 to 26 of CLIDR_EL1 |
| SetWayFields.OperandDecodes | loader/src/hvc.rs:247-252 | level, set and way can be read back from every operand, at every level and for every geometry whose fields do not overlap, line size and way field being stated from CCSIDR_EL1 |
| SetWayFields.DistinctEverywhereIff | loader/src/hvc.rs:224-262 | no two lines of the caches below the point of coherence, of one level or of two, share an operand if and only if at every level the set field ends below the way field |
| SetWayFields.FlushIff | loader/src/hvc.rs:224-262 | the full flush issues the operands of exactly the lines there are below the point of coherence |
| SetWayFields.SweepIff | loader/src/hvc.rs:197-214 | the FIQ's sweep issues the operands of exactly the lines of the level 1 cache |
| SetWay.StepIsCounter | loader/src/hvc.rs:195-215 | the full flush begins with exactly the stepped loop's operands |

## Left out

- Serial port, UART, GPIO, LED, VideoCore mailbox and USB registers: a byte arrives, a frame goes out, RAM is reported.
- Clocks: heartbeat and flash periods and the three-second timeouts are inputs of the model, not computed.
- Register scrubbing, EL2 and EL1 system registers, device-tree checks and the ERET itself: straight-line effects.
- Weak memory ordering, barriers and WFE/SEV wake-ups: sequential consistency is assumed.
- Cache contents: only the set/way operands and the lines issued are modelled, and nothing is claimed of the HVC re-park path, which cleans no cache.
- One reload per request: core 0 does not drain its own mailbox before it jumps, so a second reload can follow; it is as safe as the first.
- The park loop, HVC and FIQ assembly of the secondaries is the transition system's step function; only the boot core's Rust code is also written as methods over arrays.
- Frames that lie embedded in other bytes, in both directions: in what the host drops with a completed reply, and in what the loader scans after a damaged or cut frame. Such a frame would be acted on, and the models of the wires exclude it.
- Port write errors and errors at opening the port: writing succeeds.
- MODE as the host sends it, the console, progress output and error texts.
- Cargo invocation, JSON scanning, configuration, argument parsing and port discovery.
- 32-bit hosts: `usize` is 64 bits wide, so its conversions never fail.
- The payload example: the payload is an arbitrary environment.
