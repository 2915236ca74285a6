# ST7789 display driver: a verified model

This project models the byte-level core of a camera-to-LCD driver for an ST7789 panel on a
320 × 240 screen (`src/cpp/main.cc`). The driver converts each camera frame to byte-swapped
RGB565 and initialises the panel by interpreting a flat table of `uint16_t` command entries.
It writes every command or data byte through a bounded-retry SPI transfer and sends the frame
buffer in chunks of at most 4096 bytes. It also keeps a frames-per-second counter.

The hardware is a value, `Spi.Bus`. It holds:

- the level last driven on the D/C line (false for a command, true for data);
- an oracle `ioctl: seq<bool>` whose k-th entry says whether the k-th SPI ioctl call succeeds (every call past its end fails);
- the number of calls made so far;
- the trace of events: the writes delivered and the delays computed.

There are two kinds of event:

- `Write(dc, bytes)`: one SPI transaction that succeeded;
- `Delay(ms)`: the delay the script interpreter computes. This is only recorded: the source computes the value and never sleeps on it.

The modules follow the structure of the program:

- `config.dfy` (`Config`): the `#define`s `SCREEN_WIDTH`, `SCREEN_HEIGHT`, `BUFFER_SIZE`, `BLOCK_SIZE` and `MAX_RETRIES`.
- `color.dfy` (`Color`): `rgb888_to_rgb565` as bit-vector arithmetic.
- `spi.dfy` (`Spi`): `spi_transfer_with_retry` and `write_to_display`.
  - `Transfer` is the specification function: at most three calls, stopping at the first that succeeds. `SpiTransferWithRetry` and `WriteToDisplay` are the imperative loops proved against it.
- `command_script.dfy` (`CommandScript`): `send_command_sequence` and the two constant scripts.
  - `Run` is the interpreter read entry by entry, without hardware. It yields the events the script asks for and how it halts: on a 0 opcode, or by reading past the end of the array.
  - `Decode` is a structural reading of the same array into `Command`s; `DecodeMatchesRun` ties the two together.
  - `Exec` is the interpreter on the hardware: a failed write ends the run `Fatal`, which is the source's `exit(1)`.
  - `ExecIsDeliveredRun` states that `Exec` delivers `Run`'s events in order, up to the first failed write.
  - `SendCommandSequence` (with its loop parts `SendCommand`, `SendArguments` and `ReadDelay`) is the while-loop program proved against `Exec`.
- `frame_transfer.dfy` (`FrameTransfer`): `send_frame_buffer`.
  - `Transmit` is the loop as a function of the oracle.
  - `Chunks` is the chunk schedule.
  - `ChunkWrites` lists the transactions a lossless run delivers.
  - `SendFrameBuffer` is the while loop with its `continue`.
- `frame_convert.dfy` (`FrameConvert`): the nested pixel loop of `process_and_convert_frame`, over arrays.
- `fps.dfy` (`Fps`): the integer bookkeeping of `update_fps`.
  - It is a class `FpsCounter` whose `UpdateFps(now)` follows the pure transition `Step`.

Where the code and its comments disagree, the model follows the code:

- The comment at `main.cc:172` says a failed frame chunk is skipped. The code does not advance `sent`, so the same chunk is sent again from the same offset; `TransmitStep` and `TransmitDelivers` state this.
- The comments at `main.cc:83-84` give the column range as 0-239 and the row range as 0-319. The entries decode to columns 0..319 and rows 0..239, which matches `SCREEN_WIDTH` × `SCREEN_HEIGHT`; `WindowCoversScreen` states this.

## Model

| member | source | states |
|---|---|---|
| Color.PackRgb888 | src/cpp/main.cc:235 | definition: the 24-bit word with r in bits 16..23, g in bits 8..15 and b in bits 0..7 |
| Color.RedOf | src/cpp/main.cc:179 | definition: bits 16..23 of the word |
| Color.GreenOf | src/cpp/main.cc:180 | definition: bits 8..15 of the word |
| Color.BlueOf | src/cpp/main.cc:181 | definition: bits 0..7 of the word |
| Color.Natural565 | src/cpp/main.cc:184-188 | definition: the 5-6-5 word before the swap, fields r>>3, g>>2 and b>>3 at bits 11, 5 and 0 |
| Color.Bswap16 | src/cpp/main.cc:189 | definition: `__builtin_bswap16`, the two bytes of a 16-bit word exchanged |
| Color.Red5 | src/cpp/main.cc:184 | definition: the 5-bit field at bits 11..15 of a 5-6-5 word |
| Color.Green6 | src/cpp/main.cc:185 | definition: the 6-bit field at bits 5..10 |
| Color.Blue5 | src/cpp/main.cc:186 | definition: the 5-bit field at bits 0..4 |
| Color.Rgb888ToRgb565 | src/cpp/main.cc:178-190 | once the byte swap is undone, the red, green and blue fields are exactly r>>3, g>>2 and b>>3 of the input word's channels |
| Color.ConvertsChannels | src/cpp/main.cc:179-189 | the conversion depends only on the three channel bytes: it is the byte swap of their natural 5-6-5 packing |
| Color.Rgb565IsSwappedNaturalPack | src/cpp/main.cc:184-189 | for a packed r, g, b the result equals bswap16 of the fields r>>3, g>>2, b>>3 packed at bits 11, 5 and 0 |
| Color.PackRgb888Channels | src/cpp/main.cc:235 | unpacking the 24-bit word (the shifts and masks at the top of the conversion) gives back the r, g, b it was packed from |
| Color.Bswap16Involution | src/cpp/main.cc:189 | the byte swap is its own inverse |
| Color.SwapPutsHighByteFirst | src/cpp/main.cc:188-189 | the low byte of the result is the high byte of the natural 5-6-5 word and vice versa |
| Color.QuantisationError | src/cpp/main.cc:184-186 | each recovered field scaled back (×8, ×4, ×8) undershoots its 8-bit input by less than one quantisation step |
| Color.FieldError | src/cpp/main.cc:184-186 | a byte's top bits scaled back undershoot it by less than the step |
| Spi.Succeeds | src/cpp/main.cc:106 | definition: the k-th ioctl call returns a non-negative value iff the oracle has a k-th entry and it is true |
| Spi.SetDc | src/cpp/main.cc:116 | definition: `gpio_set_value(GPIO_DC, is_data)` as the bus's D/C level, nothing else changed |
| Spi.RetryFrom | src/cpp/main.cc:105-111 | definition: the for loop from iteration `tried` on: call k succeeds iff the oracle says so; stop on the first success, give up after MAX_RETRIES iterations |
| Spi.Retry | src/cpp/main.cc:104-112 | definition: the whole loop, starting at iteration 0 from the bus's next call |
| Spi.Transfer | src/cpp/main.cc:104-112 | definition: one retry-wrapped transaction: the calls are used up, and on success the transaction joins the trace with the current D/C level |
| Spi.RetryFromStopsAtFirstSuccess | src/cpp/main.cc:105-110 | from the tried-th attempt on, at most the remaining attempts are made, every call before the last one fails, and failure means all attempts were made |
| Spi.RetryStopsAtFirstSuccess | src/cpp/main.cc:104-112 | at most MAX_RETRIES = 3 calls; the retry stops at the first call that succeeds; it succeeds iff one of the three calls from the current one succeeds |
| Spi.SpiTransferWithRetry | src/cpp/main.cc:104-112 | the for loop returns 0 or -1; it makes between 1 and 3 calls; it returns 0 iff one of the three succeeds; every call before its last fails; its result and the new hardware are those of `Transfer` |
| Spi.TransferEffect | src/cpp/main.cc:104-112 | a transfer appends exactly its transaction to the trace on success and nothing on failure; it keeps the D/C level and the oracle; a failure uses all three calls |
| Spi.TransferFirstAttempt | src/cpp/main.cc:105-107 | when the next call succeeds, the transfer costs one call and is delivered |
| Spi.WriteToDisplay | src/cpp/main.cc:115-129 | D/C is driven to is_data, then one single-byte transfer is made; ok is false exactly when the transfer failed, which is the source's exit(1) |
| CommandScript.Low8 | src/cpp/main.cc:136 | definition: the `uint16_t` entry passed as the `uint8_t value` of write_to_display, its low byte |
| CommandScript.Lows | src/cpp/main.cc:143 | definition: the argument entries truncated to bytes, in order |
| CommandScript.ArgCount | src/cpp/main.cc:138 | definition: flags & 0x7F |
| CommandScript.HasDelay | src/cpp/main.cc:139 | definition: flags & 0x80 is nonzero |
| CommandScript.DelayMs | src/cpp/main.cc:147-148 | definition: the delay entry, with 255 read as 500 |
| CommandScript.Run | src/cpp/main.cc:135-150 | definition: the interpreter loop one array read at a time (opcode, flags, each argument, the delay entry), yielding the events it asks for and halting on a 0 opcode or on a read past the end of the array |
| CommandScript.DataWrites | src/cpp/main.cc:142-144 | definition: one D/C-high single-byte write per argument byte, in order |
| CommandScript.Requested | src/cpp/main.cc:136-149 | definition: the events of one decoded command: its opcode, its argument bytes, its delay |
| CommandScript.RequestedAll | src/cpp/main.cc:135-150 | definition: the events of a list of commands, in order |
| CommandScript.CommandAt | src/cpp/main.cc:135-149 | the command whose opcode is at i (its opcode byte, flags, argument bytes and, when flagged, its delay entry) when all of it lies inside the array, else none; its next index lies after i and within the array |
| CommandScript.Decode | src/cpp/main.cc:135-150 | definition: the commands read one after another from index i up to a 0 opcode; none when a command runs past the end or the end is reached without a terminator |
| CommandScript.InitEntries | src/cpp/main.cc:68-79 | definition: the 30 entries of the st7789_init table, index by index (the constant `InitScript` holds them) |
| CommandScript.WindowEntries | src/cpp/main.cc:82-87 | definition: the 14 entries of the st7789_display_window table (the constant `WindowScript` holds them) |
| CommandScript.CorrectedWindowEntries | src/cpp/main.cc:82-87 | definition: the window entries with a 0 flag entry after 0x2C, then the terminator (the constant `CorrectedWindowScript`) |
| CommandScript.DataWritesAt | src/cpp/main.cc:142-144 | the argument writes are one D/C-high write per argument byte, in order |
| CommandScript.RequestedShape | src/cpp/main.cc:136-149 | one command stands for exactly one D/C-low opcode write, then one D/C-high write per argument, then a delay exactly when the flag asks for one |
| CommandScript.OpcodeStep | src/cpp/main.cc:135-136 | proof step (one case of the definition): a nonzero opcode entry is written with D/C low (its low byte) and the flags entry is read next |
| CommandScript.FlagsStep | src/cpp/main.cc:138-140 | proof step (one case of the definition): the flag entry gives the argument count (flags & 0x7F) and the delay flag (flags & 0x80) |
| CommandScript.ArgStep | src/cpp/main.cc:142-143 | proof step (one case of the definition): each argument entry is written with D/C high and the count goes down by one |
| CommandScript.DelayStep | src/cpp/main.cc:146-148 | proof step (one case of the definition): with the delay flag set, the next entry is consumed as the delay, 255 standing for 500 ms |
| CommandScript.ArgsInside | src/cpp/main.cc:142-144 | with n argument entries inside the array, the loop writes exactly their low bytes with D/C high and carries on after them |
| CommandScript.ArgsOverrun | src/cpp/main.cc:142-144 | an argument list that runs past the end makes the interpreter read past the end |
| CommandScript.OpcodeThenArgs | src/cpp/main.cc:136-144 | the opcode write followed by the argument writes, when the arguments lie inside the array |
| CommandScript.CommandStep | src/cpp/main.cc:135-149 | on a whole command the interpreter asks for exactly that command's events and then continues at the next opcode |
| CommandScript.CommandOverrun | src/cpp/main.cc:135-149 | a command that does not fit in the array makes the interpreter read past the end |
| CommandScript.DecodeMatchesRun | src/cpp/main.cc:135-150 | a script decodes iff the interpreter stops on a terminator rather than reading past the end; then it asks for exactly the decoded commands' events and stops at the decoded terminator |
| CommandScript.EmptyScript | src/cpp/main.cc:135 | a script whose first entry is 0 produces no writes |
| CommandScript.SleepOutScript | src/cpp/main.cc:135-149 | {0x11, 0x80, 255, 0x00} issues exactly the command byte 0x11, no data byte and a 500 ms delay, then halts at index 3 |
| CommandScript.DecodeStep | src/cpp/main.cc:135-149 | proof step (one case of the definition): a whole command in front of a decodable rest decodes to that command followed by the rest |
| CommandScript.DecodeStepFails | src/cpp/main.cc:135-149 | proof step (one case of the definition): a command in front of a rest that does not decode does not decode |
| CommandScript.InitDecodes | src/cpp/main.cc:68-79 | any array holding the entries of st7789_init decodes to its nine commands, ending at index 29 |
| CommandScript.InitRuns | src/cpp/main.cc:68-79 | on those entries the interpreter asks for exactly the nine commands' events and stops on the terminator at index 29 |
| CommandScript.InitScriptWellFormed | src/cpp/main.cc:68-79 | st7789_init is well formed: it decodes to reset/150 ms, sleep out/500 ms, COLMOD 0x55/10 ms, MADCTL 0xA0, gamma 0x07, 0xBA 0x08 0x08, inversion on/10 ms, normal mode/10 ms and display on/500 ms, and the interpreter never reads past the end and stops on the last entry |
| CommandScript.RunThreeCommands | src/cpp/main.cc:135-150 | three whole commands filling a 14-entry array yield their events and then a read past the end |
| CommandScript.WindowReadsPastEnd | src/cpp/main.cc:82-87 | any array holding the window script's entries does not decode; the interpreter sends the three commands and then reads index 14 |
| CommandScript.WindowScriptReadsPastEnd | src/cpp/main.cc:82-87 | st7789_display_window as written does not decode; the interpreter sends its three commands and then reads past the end of the array |
| CommandScript.CorrectedWindowDecodes | src/cpp/main.cc:82-87 | any array holding the window entries with a flag entry after 0x2C decodes to the three window commands, ending at index 14 |
| CommandScript.CorrectedWindowScriptWellFormed | src/cpp/main.cc:82-87 | with a 0 flag entry after 0x2C the window script decodes to the three commands and the interpreter stops on its terminator |
| CommandScript.AddressRange | src/cpp/main.cc:83-84 | a 4-byte address argument is a pair of 16-bit big-endian bounds |
| CommandScript.WindowCoversScreen | src/cpp/main.cc:82-86 | the window is CASET columns 0..SCREEN_WIDTH-1 (0x0000..0x013F), RASET rows 0..SCREEN_HEIGHT-1 (0..239), then RAMWR with no arguments |
| CommandScript.WriteCount | src/cpp/main.cc:136-143 | the number of events that make ioctl calls, at most the number of events |
| CommandScript.DeliverOne | src/cpp/main.cc:125-128 | one event: a write adds itself to the trace on success and nothing on failure; a delay is only recorded and never fails |
| CommandScript.Deliver | src/cpp/main.cc:125-128 | events are delivered in order; the trace grows by exactly the delivered prefix; delivery stops only at a failed write |
| CommandScript.DeliverDelay | src/cpp/main.cc:146-149 | proof step (one case of the definition): a delay event is delivered without any ioctl call |
| CommandScript.DeliverWrite | src/cpp/main.cc:125-128 | proof step (one case of the definition): a write event is one retry-wrapped transfer; on failure nothing further is delivered |
| CommandScript.DeliverOnHealthyBus | src/cpp/main.cc:115-129 | when the next calls all succeed, every event is delivered and the calls used are exactly one per write: each write succeeds on its first attempt |
| CommandScript.Exec | src/cpp/main.cc:132-151 | definition: the same loop as `Run` with each write made through write_to_display on the bus; a failed write ends the run Fatal (exit(1)), a delay is recorded |
| CommandScript.AfterWrite | src/cpp/main.cc:125-128 | definition: after one write_to_display, Fatal on failure, otherwise the loop goes on from the next entry |
| CommandScript.ExecOpcodeWrite | src/cpp/main.cc:135-136 | proof step (one case of the definition): on hardware, a nonzero opcode is one D/C-low transfer of its low byte; a failed one ends the run Fatal (exit(1)), a delivered one goes on to the flags entry |
| CommandScript.ExecFlags | src/cpp/main.cc:138-140 | proof step (one case of the definition): reading the flags entry makes no transfer; at the end of the array it is a read past the end |
| CommandScript.ExecArgWrite | src/cpp/main.cc:142-143 | proof step (one case of the definition): on hardware, each argument is one D/C-high transfer; a failed one ends the run Fatal |
| CommandScript.ExecPastEnd | src/cpp/main.cc:135-146 | proof step (one case of the definition): any read at the end of the array stops the run there, with the hardware untouched |
| CommandScript.ExecArgsEnd | src/cpp/main.cc:142-146 | proof step (one case of the definition): when the argument count reaches 0 the loop goes on to the delay test |
| CommandScript.ExecDelay | src/cpp/main.cc:146-149 | proof step (one case of the definition): the delay entry is consumed and recorded without any transfer, and the next opcode is read |
| CommandScript.ExecDelivers | src/cpp/main.cc:132-151 | definition: running the script on the hardware from index i ends where delivering `Run`'s events ends, Fatal exactly when fewer than all of them were delivered, otherwise at `Run`'s halt |
| CommandScript.ExecIsDeliveredRun | src/cpp/main.cc:115-151 | the interpreter on hardware delivers the script's events in order up to the first failed write; it ends Fatal exactly when a write failed, and otherwise where the interpreter halts |
| CommandScript.SendArguments | src/cpp/main.cc:142-144 | the `while(num_args--)` loop either stops the interpreter (a failed write or a read past the end) or continues after the arguments, as `Exec` prescribes |
| CommandScript.ReadDelay | src/cpp/main.cc:146-149 | with the delay flag set, the delay entry is read and recorded, 255 as 500 ms, as `Exec` prescribes |
| CommandScript.SendCommand | src/cpp/main.cc:136-149 | one pass of the outer loop (opcode, flags, arguments, delay) stops, or reaches the next opcode, as `Exec` prescribes |
| CommandScript.SendCommandSequence | src/cpp/main.cc:132-151 | send_command_sequence ends exactly as `Exec`: the hardware afterwards is the delivery of `Run`'s events; the outcome is Fatal iff a write failed, otherwise the interpreter's halt |
| CommandScript.EventCount | src/cpp/main.cc:136-149 | definition: per command, 1 for the opcode, 1 per argument and 1 for a delay, summed |
| CommandScript.RequestedAllLength | src/cpp/main.cc:136-149 | a script's event count is the sum over its commands of 1 + arguments + (1 if a delay) |
| CommandScript.InitEventCount | src/cpp/main.cc:68-79 | st7789_init asks for 20 events: nine opcodes, five argument bytes and six delays |
| CommandScript.InitOnHealthyBus | src/cpp/main.cc:68-79 | on a bus whose next 20 calls succeed, st7789_init is delivered in full and the interpreter stops on the terminator |
| FrameTransfer.FrameBytes | src/cpp/main.cc:163 | the buffer as the transfer sees it: two bytes per pixel |
| FrameTransfer.FrameBytesAppend | src/cpp/main.cc:163 | the byte image of a concatenation is the concatenation of the byte images |
| FrameTransfer.FrameBytesSlice | src/cpp/main.cc:163 | the transfer starting at buffer + sent/2 sends bytes sent.. of the frame |
| FrameTransfer.FrameBytesAt | src/cpp/main.cc:163 | pixel k occupies bytes 2k (its low byte) and 2k+1 (its high byte) on the little-endian host |
| FrameTransfer.ChunkSize | src/cpp/main.cc:161 | a chunk is 1..4096 bytes, within the buffer, and a full block unless it ends the buffer |
| FrameTransfer.Chunks | src/cpp/main.cc:160-175 | definition: the (offset, size) pairs the loop sends from offset sent on when no transfer fails |
| FrameTransfer.ChunksTile | src/cpp/main.cc:160-175 | the chunks tile [sent, 153600): the first starts at sent, each starts where the previous ended, the last ends at the buffer end, and all but the last are full blocks |
| FrameTransfer.ChunksFromBlock | src/cpp/main.cc:160-175 | from block m on, the schedule is the remaining full blocks and a last 2048-byte chunk |
| FrameTransfer.FrameSchedule | src/cpp/main.cc:155-175 | a frame goes out as 38 chunks: 37 blocks of 4096 bytes at offsets 4096·j, then 2048 bytes at offset 151552 |
| FrameTransfer.ChunkWrites | src/cpp/main.cc:160-174 | definition: one D/C-high transaction per chunk, carrying that chunk's bytes |
| FrameTransfer.Payload | src/cpp/main.cc:163-164 | definition: the bytes the transactions carry, concatenated |
| FrameTransfer.ChunkWritesFollowSchedule | src/cpp/main.cc:160-174 | the j-th transaction of a lossless run carries exactly the bytes of the j-th chunk |
| FrameTransfer.ChunkWritesCoverFrame | src/cpp/main.cc:160-175 | the transactions put exactly bytes sent.. of the frame on the wire: contiguous, in order and without overlap |
| FrameTransfer.Remaining | src/cpp/main.cc:170-172 | definition: the ioctl calls the oracle still answers; the loop stalls once none are left |
| FrameTransfer.Transmit | src/cpp/main.cc:160-175 | definition: the while loop from offset sent: a chunk of MIN(4096, total - sent) bytes through the retry; success moves sent on by the chunk, failure sends the same chunk again (`continue`); Stalled once the oracle is exhausted |
| FrameTransfer.AfterChunk | src/cpp/main.cc:170-174 | definition: the loop after one chunk's transfer: advance on success, stall if no calls are left, else the same offset again |
| FrameTransfer.Delivered | src/cpp/main.cc:154-176 | definition: what a finished run has put on the wire (the whole schedule from sent) or a stalled one (the schedule up to the stalled offset), with D/C level and oracle kept |
| FrameTransfer.DeliveredAfterChunk | src/cpp/main.cc:170-174 | proof step (one case of the definition): a delivered chunk followed by the loop from the next offset |
| FrameTransfer.DeliveredAfterFailure | src/cpp/main.cc:170-172 | proof step (one case of the definition): a failed chunk leaves the trace alone and the loop continues from the same offset |
| FrameTransfer.TransmitStep | src/cpp/main.cc:160-175 | proof step (one case of the definition): one pass: a successful transfer advances sent by the chunk size; a failed one keeps sent (the `continue`); the loop stalls only when the oracle is exhausted |
| FrameTransfer.TransmitDelivers | src/cpp/main.cc:154-176 | whatever fails on the way, a finished loop has delivered exactly the 38 scheduled transactions in order; a stalled one has delivered those before the stalled chunk and stalls only when every further call fails |
| FrameTransfer.TransmitOnHealthyBus | src/cpp/main.cc:160-175 | when the next calls all succeed, the loop completes with one call per chunk |
| FrameTransfer.CompleteFrameOnWire | src/cpp/main.cc:154-176 | a completed frame puts exactly the buffer's bytes on the wire, in order |
| FrameTransfer.ChunkData | src/cpp/main.cc:163-164 | the tx_buf of a chunk is bytes sent..sent+chunk of the frame |
| FrameTransfer.SendChunk | src/cpp/main.cc:161-170 | one pass computes chunk_size = MIN(4096, total - sent) and makes one retry-wrapped transfer of those bytes |
| FrameTransfer.SendFrameBuffer | src/cpp/main.cc:154-176 | D/C is driven high, then the loop ends as `Transmit` prescribes: sent <= total throughout, sent advances only on success and only by the chunk size |
| FrameConvert.ConvertedPixel | src/cpp/main.cc:234-236 | definition: rgb888_to_rgb565 of the word packed from bytes 3k+2, 3k+1 and 3k of the frame |
| FrameConvert.ConvertedPixelChannels | src/cpp/main.cc:234-236 | BGR to RGB: the red field of pixel k comes from byte 3k+2, green from 3k+1, blue from 3k |
| FrameConvert.ConvertFrame | src/cpp/main.cc:231-238 | every index 0..76799 of the display buffer holds rgb888_to_rgb565 of the frame pixel at the same row-major position |
| FrameConvert.ConvertedFrameOnWire | src/cpp/main.cc:234-236 | on the wire each converted pixel is big-endian RGB565: the natural word's high byte goes first |
| Fps.Step | src/cpp/main.cc:90-101 | after a call, last_time is the current time; the count grows by one while the clock stays in the same second and is reset to 0 when it moves |
| Fps.Steps | src/cpp/main.cc:90-101 | definition: update_fps called once per clock reading, in order |
| Fps.Valid | src/cpp/main.cc:94-98 | definition: the count is non-negative and any computed rate has a positive frame count and a nonzero interval |
| Fps.StepKeepsValid | src/cpp/main.cc:94-97 | the rate is only ever computed over a nonzero interval, so there is no division by zero, and the count stays non-negative |
| Fps.StepsKeepValid | src/cpp/main.cc:90-101 | that invariant holds over any run of calls |
| Fps.SameSecondCounts | src/cpp/main.cc:91-94 | calls within the same second only count frames |
| Fps.RateOfInterval | src/cpp/main.cc:94-99 | after a boundary, n frames in the same second and a frame at a later time t' give the rate (n+1)/(t' - t), then reset |
| Fps.FirstBoundaryComputesNoRate | src/cpp/main.cc:95 | the first time the clock leaves the initial 0, no rate is computed |
| Fps.FpsCounter.State | src/cpp/main.cc:63 | definition: the fields of g_fps as a value |
| Fps.FpsCounter.constructor | src/cpp/main.cc:63 | g_fps starts as {0, 0, 0} |
| Fps.FpsCounter.UpdateFps | src/cpp/main.cc:90-101 | update_fps changes the counter exactly as `Step` with the clock reading now |

## Left out

- `gpio_ctrl`: the sysfs writes behind `gpio_set_value` are not modelled. The D/C level is the `dc` tag of each `Write` event, and the reset and backlight lines are left out.
- `auto_white_balance`: it is floating-point arithmetic done by OpenCV.
- `cv::resize`, `cv::VideoCapture` and the camera loop of `main`: these are library calls. `ConvertFrame` starts from a frame that is already resized.
- `init_display`: the `open`, the SPI mode and speed `ioctl`s, `malloc`, the reset pulse with its `usleep`s and its `printf`/`fprintf` messages. These are I/O and lifecycle, and so is the cleanup at the end of `main`.
- The `fprintf` diagnostics of write_to_display (`main.cc:126`) and send_frame_buffer (`main.cc:171`) are not modelled. They only write to stderr.
- The transfer descriptor fields `speed_hz = SPI_SPEED`, `bits_per_word = 8` and `delay_usecs = 0` (`main.cc:118-123`, `162-168`) are not modelled. A `Write` event carries only the D/C level and the bytes (`tx_buf` and `len`).
- FrameTransfer.FrameBytes: a little-endian host is assumed: each `uint16_t` of the buffer is its low byte followed by its high byte in memory. Because of this, the byte swap of `rgb888_to_rgb565` puts big-endian RGB565 on the wire for the transmission at `buffer + sent/2`.
- The 1 ms `usleep` between retries is not modelled. Time is not part of the bus.
- The delay of the command scripts is recorded as a `Delay(ms)` event only. The source computes it and never sleeps on it.
- The `fps` value is a double division. It is kept as the pair of integers it divides (`Rate.Ratio`), not as a floating-point number.
- CommandScript.SendCommandSequence: reading past the end of the array is undefined behaviour in the source. The model stops there with the outcome `ReadPastEnd`.
- FrameTransfer.SendFrameBuffer: once the oracle is exhausted, every further call fails and the source loops forever. The method returns `Stalled` at that point instead of not terminating.
- Spi.WriteToDisplay: `exit(1)` is modelled as `ok == false`, and the caller stops with the outcome `Fatal`.
- Fps.FpsCounter.UpdateFps: `frame_count` is a 32-bit `int` and is modelled as unbounded. It is reset each time the clock moves, so it would only overflow after 2^31 frames within one second.
- CommandScript.InitOnHealthyBus: it asks for 20 successful calls, one per event, although the six delays make no call. It is a sufficient condition, not the exact one.

## Findings

| source | as written | input that shows it | evidently intended | confidence | as-written member | corrected member |
|---|---|---|---|---|---|---|
| src/cpp/main.cc:82-87 | `st7789_display_window` ends `0x2C, 0x00`, so the final 0 is consumed as the flag entry of 0x2C; the loop test then reads `cmds[14]`, one past the end of the 14-entry array | the array itself: after sending 0x2A, 0x2B and 0x2C the interpreter reads index 14 | a flag entry 0 after 0x2C and then the terminator: `0x2C, 0, 0x00` | not executed | CommandScript.WindowScriptReadsPastEnd | CommandScript.CorrectedWindowScriptWellFormed |
