# max31855json firmware, modelled in Dafny

The firmware runs on an Arduino board. It reads up to eight MAX31855
thermocouple converters over SPI and drives a door servo. It takes short
text commands over the serial port and reports temperatures as JSON lines.
The settings live in RAM globals and are mirrored in EEPROM. This project
models the decision logic of the firmware and proves properties of it:
- the frame decoder of the thermocouple driver;
- the EEPROM layout and its validation at start-up;
- the 16-byte line accumulator and the positional command interpreter;
- the door sweeps;
- the telemetry lines.

The modules follow the program's structure:

- `Prelude`: bytes, the 16-bit casts and the little-endian split and join of a `uint16_t`.
- `Max31855`: the `status` enum and its codes, and the 32-bit frame word.
  - `Decode` is the pure meaning of `update()`.
  - The class `Driver` holds the fields of the C++ driver. Its `Update`,
    `UpdateProbe`, `UpdateJunction` and `ReadFromDevice` are the imperative
    code, proved against `Decode` and `Word`.
- `Config`: the EEPROM cell layout for N channels. It also holds:
  - `Restore`, what the marked branch of `validate_eeprom` loads;
  - `Initialize`, what the unmarked branch writes;
  - the write/restore laws for each setting.
- `Command`: `strtol` over the command buffer, the unbounded space scan of
  `D C`, and `Parse`, the positional dispatch on bytes 0, 2 and 3.
- `Door`: the servo writes and delays of `D O` and `D S` as an effect trace,
  with the number, values and end of the loop iterations.
- `Telemetry`: the serial output as a sequence of tokens; each channel's
  JSON record stays abstract. It covers the one-shot report, the streaming
  report and its door block.
- `Interpreter`: the whole firmware state (RAM settings, EEPROM image, driver
  readings, command buffer and index, servo trace, serial output) as a value,
  with the reference meaning of every command, of one received byte, of the
  receive loop and of the streaming pass.
- `Behaviour`: lemmas about `Interpreter`. They cover the accumulator, each
  command's effect on RAM and EEPROM, and when RAM and EEPROM agree ("in sync").
- `Firmware`: the class `Board`. Its fields are the globals, the `sensors`
  table, the EEPROM array, the command buffer array, the servo trace and the
  serial output. Each method does what the matching C++ function does,
  step by step. Its contract ties the new state, `Abs()`, to the
  `Interpreter` function applied to the old one.

Some inputs give the outcome `Stopped(reason)`, and the model does not
continue past them. Two are undefined behaviour in the C++ code: a channel
below 0, and a `strtol` or space scan that runs off the 16-byte buffer. The
other two are stops of the model: a door loop whose condition can never fail,
and a door loop whose `uint16_t` position wraps.

## Model

| member | source | states |
|---|---|---|
| Prelude.U16 | src/main.cpp:258 | the `(uint16_t)` cast: the result is congruent to the input modulo 2^16, and an input already in range is unchanged |
| Prelude.SignedChar | src/main.cpp:198 | a `char` of the command buffer read as signed: the value lies in -128..127 and is congruent to the byte modulo 256 |
| Prelude.Int16 | src/max31855.cpp:55 | the `(int16_t)` conversion: the result lies in -32768..32767 and is congruent to the input modulo 2^16 |
| Prelude.Int16OfNat | src/max31855.cpp:72 | for a non-negative value, `(int16_t)` keeps the low 16 bits and subtracts 2^16 when bit 15 is set |
| Prelude.JoinSplit | src/main.cpp:95-97 | joining `hi << 8 \| lo`, the bytes of a value written low byte first, gives the value back |
| Prelude.SplitJoin | src/main.cpp:293-296 | splitting a joined pair of bytes gives both bytes back |
| Max31855.Code | src/max31855.h:11-17 | the integer code of every status lies in -1..3 |
| Max31855.CodeRoundTrip | src/max31855.h:11-17 | the codes are pairwise distinct: a code determines its status, the codes outside -1..3 name no status, and decoding a status's code returns that status |
| Max31855.StatusToString | src/max31855.cpp:87-98 | every status has a non-empty name, so the `default` empty string is never returned |
| Max31855.StatusNamesDistinct | src/max31855.cpp:87-98 | two statuses with the same name are the same status |
| Max31855.WordBytes | src/max31855.cpp:129-143 | the packed word is big-endian: its four bytes, from the top, are the four transferred bytes in order |
| Max31855.ProbeCount | src/max31855.cpp:55-64 | the probe count is either a 13-bit value 0..8191 or -32768 plus such a value |
| Max31855.JunctionCount | src/max31855.cpp:72-81 | the junction count is either an 11-bit value 0..2047 or -32768 plus such a value |
| Max31855.Word | src/max31855.cpp:129-140 | (reference) the 32-bit sample of a frame, first byte most significant; its bytes are stated by `Max31855.WordBytes`, and `Max31855.Driver.ReadFromDevice` is proved equal to it |
| Max31855.FaultStatus | src/max31855.cpp:36-48 | (reference) the status of a faulted sample, from bits 0, 1 and 2 tried in that order; stated by `Max31855.FaultPriorityExample` and `Max31855.FaultKeepsProbe` |
| Max31855.Decode | src/max31855.cpp:20-85 | (reference) the reading `update()` leaves: on a fault only the status and junction change; otherwise the status is OK and the probe count and timestamp are set; stated by `Max31855.FaultKeepsProbe`, `Max31855.ProbeUnpack`, `Max31855.JunctionUnpack` and `Max31855.Driver.Update` |
| Max31855.FaultOfFrame | src/max31855.cpp:34-36 | the fault flag is bit 0 of the second transferred byte, and the fault bits are the low three bits of the fourth |
| Max31855.LowBits | src/max31855.cpp:36 | the three fault tests on `full_read & 7` see bits 0, 1 and 2 of the raw word |
| Max31855.FaultKeepsProbe | src/max31855.cpp:34-49 | on the fault path the status is a fault, the value and timestamp keep their previous values, and only the junction count is refreshed |
| Max31855.FaultPriorityExample | src/max31855.cpp:37-48 | the fault bits are tested in priority order: 0x00010005 gives NOT_CONNECTED, 0x00010006 gives SHORT_TO_GROUND, and 0x00010000 gives UNKNOWN |
| Max31855.ProbeCountOfFrame | src/max31855.cpp:55-64 | the probe count, in terms of the first two transferred bytes: the sign bit of byte 0 ORed in as -32768, then 7 bits of byte 0 and 6 bits of byte 1 |
| Max31855.JunctionCountOfFrame | src/max31855.cpp:72-81 | the junction count, in terms of the last two transferred bytes: the sign bit of byte 2 ORed in as -32768, then 7 bits of byte 2 and 4 bits of byte 3 |
| Max31855.ProbeUnpack | src/max31855.cpp:55-64 | the C++ steps (an `int16_t` shift, a test of 0x2000, masking with 0x1FFF, ORing 0x8000) give exactly the probe count |
| Max31855.JunctionUnpack | src/max31855.cpp:72-81 | the C++ steps (an `int16_t` shift, a test of 0x0800, masking with 0x07FF, ORing 0x8000) give exactly the junction count |
| Max31855.ProbeCountVersusTwosComplement | src/max31855.cpp:56-59 | for a negative probe reading, the ORed-in sign bit gives 24576 less than the two's-complement value of the 14-bit field; for a positive one they agree |
| Max31855.ProbeMinusOneCount | src/max31855.cpp:56-59 | a probe field of 0x3FFF, which is -1 in two's complement, decodes to -24577 |
| Max31855.OrLowByte | src/max31855.cpp:134 | `four_bytes \|= byte` on a word whose low byte is clear puts the byte there and keeps the upper part |
| Max31855.ShiftLeft8 | src/max31855.cpp:135 | `four_bytes <<= 8` moves the low three bytes up and clears the low byte, dropping the top byte |
| Max31855.Driver.constructor | src/max31855.cpp:9-18 | the channel and chip select are the arguments and stay fixed; the reading fields start zeroed, so the status is OK with value 0 and junction 0 |
| Max31855.Driver.ReadFromDevice | src/max31855.cpp:126-144 | the word built by the four OR-and-shift steps is the big-endian packing of the transferred bytes |
| Max31855.Driver.Update | src/max31855.cpp:20-85 | the new reading is the decoding of the frame word against the previous reading and the clock value |
| Max31855.Driver.UpdateProbe | src/max31855.cpp:33-69 | the status, value and timestamp fields become those of the decoded reading |
| Max31855.Driver.UpdateJunction | src/max31855.cpp:71-84 | the junction field becomes the junction count of the word, whatever the status |
| Max31855.Driver.GetTemperature | src/max31855.cpp:111-114 | -1 unless the status is OK; when it is OK, the `_last_reading` timestamp and not the value |
| Max31855.Driver.GetJunctionReference | src/max31855.cpp:116-119 | the stored junction count, unchanged |
| Max31855.Driver.GetStatus | src/max31855.cpp:121-124 | the stored status, unchanged |
| Max31855.Driver.ToJson | src/max31855.cpp:100-109 | the record has exactly the keys channel, status_code, status, junction, value, in that order |
| Max31855.ToJsonStatus | src/max31855.cpp:103-105 | the record's status_code is the integer code of the stored status and decodes back to it; its status text is the status's name; its channel is the driver's channel |
| Config.LayoutOffsets | src/main.cpp:67-73 | the cells follow one another: the stream flags at 4+N and 5+N, the interval at 6+N, the closed position at 8+N, the open position at 10+N, the door flag at 12+N, 13+N cells in all |
| Config.InitialRam | src/main.cpp:33-55 | at power-on every channel is enabled, both streaming flags and the door flag are false, and the interval and both positions are 0 |
| Config.FlagByte | src/main.cpp:265 | the byte the firmware saves for a flag (`b ? 1 : 0`) restores to the same flag |
| Config.Read16 | src/main.cpp:95-97 | (reference) a 16-bit setting read as `hi << 8 \| lo` from its two cells; stated by `Config.Read16Write16` and `Firmware.Board.Cell16` |
| Config.Write16 | src/main.cpp:293-296 | writing a 16-bit value low byte first changes only its two cells, and reading them back gives the value |
| Config.Read16Write16 | src/main.cpp:95-97 | a value saved low byte first is read back unchanged by `hi << 8 \| lo`, and its cells hold `v & 0xFF` and `v >> 8` |
| Config.Restore | src/main.cpp:81-99 | what the marked branch loads has one enable flag per channel |
| Config.RestoreEnabled | src/main.cpp:89-91 | channel i is loaded as enabled exactly when cell 4+i holds 1 |
| Config.Initialize | src/main.cpp:127-146 | the unmarked branch changes no cell count |
| Config.InitializeCells | src/main.cpp:128-146 | the unmarked branch writes the marker 0B 0E 0E 0F, 1 into every enable cell, 0 into both stream flags, interval 500 as F4 01, closed 0, open 360 as 68 01, door flag 0, and leaves the cells after the layout unchanged |
| Config.InitializeThenRestore | src/main.cpp:79-148 | after the unmarked branch the marker is present, and the marked branch would load the defaults |
| Config.DefaultsNotLoaded | src/main.cpp:122-147 | the defaults saved by the unmarked branch differ from the RAM at power-on, which that branch leaves alone: open 360 against 0, interval 500 against 0 |
| Config.RestoreEnabledWrite | src/main.cpp:204-205 | saving a channel's enable flag changes only that channel's flag in what is later restored |
| Config.RestoreStreamTemperatureWrite | src/main.cpp:265 | saving the temperature streaming flag changes only that flag in what is later restored |
| Config.RestoreStreamStatusWrite | src/main.cpp:355 | saving the status streaming flag changes only that flag in what is later restored |
| Config.RestoreDoorIsOpenWrite | src/main.cpp:313 | saving the door flag changes only that flag in what is later restored |
| Config.RestoreDelayWrite | src/main.cpp:266-267 | saving the interval changes only the interval in what is later restored |
| Config.RestorePositionsWrite | src/main.cpp:293-296 | saving the closed and open positions changes only those two in what is later restored, and they come back unchanged |
| Command.SkipSpaces | src/main.cpp:257 | `strtol`'s leading blank skip: it stops at the first non-blank byte of the buffer, every byte before it being blank, or reports that only blanks remain |
| Command.DigitRun | src/main.cpp:257 | the maximal run of decimal digits that starts at a position |
| Command.Clamp | src/main.cpp:257 | `strtol` saturates at LONG_MIN and LONG_MAX: the result is in range and an in-range value is unchanged |
| Command.StrToL | src/main.cpp:257 | a parsed value always fits a 32-bit `long`; when only blanks remain there is no value |
| Command.StrToLRunsOff | src/main.cpp:257 | there is no value exactly when the scan runs off the buffer, either because only blanks remain or because the digits after the blanks and the sign run to its end |
| Command.Number | src/main.cpp:257 | the number after the blanks fits a 32-bit `long` |
| Command.NumberRunsOff | src/main.cpp:257 | the number after the blanks is missing exactly when the digits after the sign run to the end of the buffer; it is 0 when no digit follows the sign |
| Command.StrToLSigned | src/main.cpp:257 | `strtol` over blanks, an optional sign, the digits of k and a non-digit gives k, negated after a minus, saturated to the `long` range |
| Command.BlanksThenNumber | src/main.cpp:257 | `strtol` over blanks up to a sign, a non-empty run of digits and a non-digit gives the value of the digits, negated after a minus, saturated |
| Command.SignedDigits | src/main.cpp:257 | the number after the blanks of `strtol`: a sign, then a non-empty run of digits up to a non-digit, gives the value of the digits or its negation, saturated |
| Command.DigitsThenStop | src/main.cpp:257 | digits that end at a non-digit inside the buffer are read as their value, negated after a minus, saturated |
| Command.DigitsInSame | src/main.cpp:257 | equal runs of digits have equal values wherever they sit in a buffer |
| Command.StrToLNoDigits | src/main.cpp:257 | blanks and a sign with no digit after them read as 0 |
| Command.SkipSpacesStops | src/main.cpp:257 | the blank skip stops at the first byte that is not white space |
| Command.CalibrateExample | src/main.cpp:281-291 | the line `D C 10 370` decodes to closed position 10 and open position 370, reading past the blank before each number |
| Command.ClosedTen | src/main.cpp:285 | in `D C 10 370` the closed position read from index 4 is 10 |
| Command.OpenThreeSeventy | src/main.cpp:286-290 | in `D C 10 370` the open position read from the first space after index 4 is 370 |
| Command.StreamTemperatureExample | src/main.cpp:248-258 | the line `T S1 500` decodes to state 1 with an interval of 500, reading past the blank before the number |
| Command.Decimal | src/main.cpp:262 | the `DEC` printing of a count is a non-empty run of digits |
| Command.DecimalValue | src/main.cpp:408 | the digits printed for a count read back as that count |
| Command.SignedDecimal | src/main.cpp:262 | a negative value is printed as a minus sign and the digits of its magnitude |
| Command.StrToLDecimal | src/main.cpp:257-258 | `strtol` of a printed count followed by a non-digit gives the count back |
| Command.FindSpace | src/main.cpp:286-289 | the `D C` scan stops at the first space at or after its start, or reports that there is none up to the end of the buffer |
| Command.OpenPosition | src/main.cpp:285-290 | (reference) the open position of `D C`: `strtol` from the first space at or after index 4; stated by `Command.OpenPositionIgnoresPrefix`, `Command.CalibrateWithoutSpace` and `Command.CalibrateExample` |
| Command.Parse | src/main.cpp:183-341 | (reference) the positional dispatch on bytes 0, 2 and 3 with numbers from byte 3 or 4; stated by `Command.ParseIgnoresByteOne`, `Command.StreamStatusStateFromByteThree`, `Command.EnableChannelBelowZero` and the two example lemmas |
| Command.ParseIgnoresByteOne | src/main.cpp:183-194 | dispatch never looks at buffer byte 1, so the `S` family's comment form `S1 500` is not what is decoded |
| Command.StrToLIgnoresPrefix | src/main.cpp:257 | `strtol` from a position depends only on the bytes from that position on |
| Command.OpenPositionIgnoresPrefix | src/main.cpp:286-290 | the open position of `D C` depends only on the bytes from index 4 on |
| Command.StreamStatusStateFromByteThree | src/main.cpp:339-341 | an `S` line is a status streaming command whose state is 1 or 0 exactly when buffer byte 3 is '1' or '0' |
| Command.EnableChannelBelowZero | src/main.cpp:198-200 | `T E` takes channel `buf[3]-'0'`, which is below 0 exactly for a byte below '0' or above 127 |
| Command.CalibrateWithoutSpace | src/main.cpp:286-289 | a `D C` line with no space from index 4 on has no open position: the scan runs off the buffer |
| Door.Step | src/main.cpp:304 | the sweep step is the integer quotient of open - closed by 100 whenever closed is at most open; when closed is above open the model gives 0 where the firmware's unsigned 16-bit difference wraps (370 and 10 give 651), a step no loop uses (`Door.ReversedPositions`) |
| Door.Pause | src/main.cpp:303 | the `long` pause is `ms / 100` truncated toward zero, for negative durations too |
| Door.Pace | src/main.cpp:306-309 | one write and one delay per loop position, the delay being the pause converted to `unsigned long` as `delay()` receives it |
| Door.PauseDelay | src/main.cpp:303-308 | `delay()` receives the pause unchanged for any duration above -100, and 2^32 minus its magnitude, longer than any `long`, for -100 and below |
| Door.NegativeDurationExample | src/main.cpp:303-308 | `D O-500` on 10 and 370 delays 2^32 - 5 ms after the first write |
| Prelude.ULong | src/main.cpp:308 | the `unsigned long` conversion: below 2^32, congruent modulo 2^32, unchanged in range, and x + 2^32 for negative x down to -2^32 |
| Door.Climb | src/main.cpp:306 | (reference) the positions the opening `for` loop writes from `pos` while at most open, and how it ends; stated by `Door.ClimbShape` and `Door.ClimbCount` |
| Door.Descend | src/main.cpp:323 | (reference) the positions the closing `for` loop writes from `pos` while at least closed, and how it ends; stated by `Door.DescendShape` and `Door.DescendCount` |
| Door.Open | src/main.cpp:302-310 | (reference) the `D O` sweep: the opening loop's writes and pauses, then one more write of open; stated by `Door.OpenReached`, `Door.OpenNeverEnds` and `Door.OpenExample` |
| Door.Shut | src/main.cpp:319-327 | (reference) the `D S` sweep: the closing loop's writes and pauses, then one more write of closed; stated by `Door.ShutReached`, `Door.ShutNeverEnds` and `Door.ShutFromZeroExample` |
| Door.PaceShape | src/main.cpp:306-309 | the trace alternates: entry 2k writes position k, and entry 2k+1 delays for the pause as `unsigned long` |
| Door.ClimbShape | src/main.cpp:306 | the opening loop visits a non-empty run of positions from closed, each `step` above the last, all at most open, the next one above open; it ends by wrapping exactly when that next one passes 65535 |
| Door.DescendShape | src/main.cpp:323 | the closing loop visits a non-empty run of positions from open, each `step` below the last, all at least closed, the next one below closed; it ends by wrapping exactly when the last is below `step` |
| Door.ClimbCount | src/main.cpp:306-309 | the opening loop writes floor((open - closed) / step) + 1 positions, the k-th being closed + k step |
| Door.DescendCount | src/main.cpp:323-326 | the closing loop writes floor((open - closed) / step) + 1 positions, the k-th being open - k step |
| Door.OpenNeverEnds | src/main.cpp:304-306 | the `D O` loop condition can never fail without a wrap exactly when closed <= open and the gap is below 100, so the step is 0; some sweeps the model ends at a wrap also never end in C++, such as closed 0 and open 65535 |
| Door.ShutNeverEnds | src/main.cpp:321-323 | the `D S` loop condition can never fail exactly when closed <= open and either the step is 0 or closed is 0, since a `uint16_t` is never below 0; some sweeps the model ends at a wrap also never end in C++, such as closed 1 and open 25601 |
| Door.ReversedPositions | src/main.cpp:304-327 | with closed above open neither loop runs: `D O` only writes open and `D S` only writes closed |
| Door.OpenReached | src/main.cpp:306-310 | with a non-zero step and no wrap, `D O` is the loop's writes and pauses followed by one more write of open |
| Door.ShutReached | src/main.cpp:323-327 | with a non-zero step and closed at least one step above 0, `D S` is the loop's writes and pauses followed by one more write of closed |
| Door.OpenExample | src/main.cpp:302-310 | for closed 10 and open 370 the step is 3, and 121 writes from 10 to 370 precede a final write of 370 |
| Door.ShutFromZeroExample | src/main.cpp:323 | with closed 0, `D S` never ends, and its position wraps below 0 |
| Telemetry.Enabled | src/main.cpp:237-238 | the channels reported are enabled ones, below the bound |
| Telemetry.EnabledComplete | src/main.cpp:237-245 | the reported channels ascend strictly, and every enabled channel is among them |
| Telemetry.Separated | src/main.cpp:236-245 | (reference) n records joined by commas are 2n - 1 tokens, and none for no records |
| Telemetry.Records | src/main.cpp:242 | one abstract record per reported channel, in order, made from that channel's reading |
| Telemetry.PrintLoop | src/main.cpp:236-245 | (reference) the `printed`-flag loop over the first k channels: a comma before every record but the first; stated by `Telemetry.PrintLoopSeparated` and `Telemetry.PrintLoopTexts` |
| Telemetry.OneShotReport | src/main.cpp:235-246 | (reference) the one-shot line: the opener, the records loop and `]}` on a `println`; stated by `Behaviour.OneShotReports` |
| Telemetry.DoorBlock | src/main.cpp:402-410 | (reference) the door block of status streaming; stated by `Telemetry.DoorBlockPosition` |
| Telemetry.StreamReport | src/main.cpp:386-411 | (reference) the streaming line; stated by `Telemetry.StreamReportShape`, `Telemetry.DoorBlockAppears` and `Telemetry.TemperatureOnlyTail` |
| Telemetry.PrintLoopSeparated | src/main.cpp:236-245 | the `printed`-flag loop emits exactly the records of the enabled channels, in ascending order, with a comma between two records and nowhere else |
| Telemetry.PrintLoopTexts | src/main.cpp:239-242 | the only plain text the records loop prints is the comma |
| Telemetry.StreamReportShape | src/main.cpp:386-411 | a streaming line is the array opener, the records loop and `]`, then the door block or an empty `println`, then the closing brace on its own `println` |
| Telemetry.DoorBlockAppears | src/main.cpp:402-410 | the door block appears in a streaming line exactly when status streaming is on |
| Telemetry.DoorBlockPosition | src/main.cpp:403-409 | the door block says "open" with the open position when the door is flagged open, and "closed" with the closed position otherwise |
| Telemetry.TemperatureOnlyTail | src/main.cpp:397-411 | with status streaming off, the line ends `]`, a line break, then `}` and a line break, so the brace sits on a second line |
| Interpreter.PowerOn | src/main.cpp:33-59 | the power-on state is well formed: N enable flags and N readings, an EEPROM image that holds the layout, a 16-byte buffer with its index inside it |
| Interpreter.Validate | src/main.cpp:79-148 | `validate_eeprom` keeps the state well formed; its branches are stated by `Behaviour.ValidateMarked` and `Behaviour.ValidateUnmarked` |
| Interpreter.Refresh | src/main.cpp:230-234 | the update loop decodes a new frame for every enabled channel and leaves the readings of disabled channels as they were |
| Interpreter.SetChannel | src/main.cpp:197-228 | `T E`/`T D` keep the state well formed and the command buffer untouched; their effect is stated by `Behaviour.SetChannelSaves` and `Behaviour.SetChannelRejects` |
| Interpreter.OneShotCommand | src/main.cpp:229-247 | `T O` keeps the state well formed and the command buffer untouched; its effect is stated by `Behaviour.OneShotReports` |
| Interpreter.SaveTemperatureStreaming | src/main.cpp:264-267 | the save of `T S` keeps the state well formed and the command buffer untouched |
| Interpreter.StreamTemperatureCommand | src/main.cpp:248-268 | `T S` keeps the state well formed and the command buffer untouched; its effect, including the `# Unknown state value: ` diagnostic, is stated by `Behaviour.StreamTemperatureStates` |
| Interpreter.CalibrateCommand | src/main.cpp:281-297 | `D C` keeps the state well formed and the command buffer untouched; its effect is stated by `Behaviour.CalibrateSaves` |
| Interpreter.OpenDoorCommand | src/main.cpp:298-314 | `D O` keeps the state well formed and the command buffer untouched; its effect is stated by `Behaviour.OpenDoorTwice` |
| Interpreter.ShutDoorCommand | src/main.cpp:315-331 | `D S` keeps the state well formed and the command buffer untouched; its effect is stated by `Behaviour.ShutThenOpenBlocked` |
| Interpreter.StreamStatusCommand | src/main.cpp:336-358 | `S` keeps the state well formed and the command buffer untouched; its effect is stated by `Behaviour.StreamStatusStates` |
| Interpreter.Execute | src/main.cpp:185-359 | every decoded command keeps the state well formed and the command buffer untouched |
| Interpreter.Process | src/main.cpp:169-360 | `processCommand` keeps the state well formed and never writes the command buffer or its index |
| Interpreter.Feed | src/main.cpp:365-376 | receiving one byte keeps the state well formed, so the index stays below 16 |
| Interpreter.Drain | src/main.cpp:364-377 | the receive loop keeps the state well formed, whatever the bytes |
| Interpreter.Stream | src/main.cpp:379-416 | the streaming pass keeps the state well formed; its effect is stated by `Behaviour.StreamOn` and `Behaviour.StreamOff` |
| Interpreter.Loop | src/main.cpp:362-417 | one pass of `loop` keeps the state well formed |
| Behaviour.FeedStores | src/main.cpp:364-377 | a received byte is stored at the index; the index then advances and wraps at 16, or returns to 0 after a line feed; any other byte changes nothing else |
| Behaviour.FeedByte | src/main.cpp:367-371 | a byte other than a line feed is only stored, and the index advances modulo 16 |
| Behaviour.DrainWithoutNewline | src/main.cpp:364-372 | bytes without a line feed that fit the buffer are copied into it at the index, and nothing else changes |
| Behaviour.DrainAppend | src/main.cpp:364-377 | receiving a + b is receiving a, then b, unless the model stopped inside a |
| Behaviour.DrainLine | src/main.cpp:364-377 | a line of up to 16 bytes ending in its only line feed, received from index 0, runs `processCommand` on a buffer that starts with the line and keeps later bytes of older lines; the index is then 0 |
| Behaviour.FeedNewline | src/main.cpp:373-376 | a line feed is stored, the command runs on that buffer, and the index is then 0 |
| Behaviour.DrainOne | src/main.cpp:364-377 | receiving a single byte is one step of the accumulator |
| Behaviour.LongLineWraps | src/main.cpp:368-371 | 16 bytes without a line feed from index 0 fill the whole buffer, run no command and wrap the index back to 0 |
| Behaviour.SetChannelSaves | src/main.cpp:197-228 | for a channel below N, only that channel's flag and its EEPROM cell change, to the commanded value; nothing is printed or moved, and RAM and EEPROM stay in sync |
| Behaviour.SetChannelRejects | src/main.cpp:200-203 | for a channel at or above N, the diagnostic is printed and nothing else changes |
| Behaviour.EnableBelowZeroStops | src/main.cpp:198-204 | `T E` with a channel byte below '0' or above 127 passes the guard and would write outside the table |
| Behaviour.StreamTemperatureStates | src/main.cpp:248-268 | state 1 sets temperature streaming, clears status streaming and sets the interval; state 0 clears only temperature streaming; other states change no flag and print `# Unknown state value: ` and the state, while states 0 and 1 print nothing; only the temperature flag cell and interval cells are saved; the servo trace and the readings are unchanged |
| Behaviour.StreamStatusStates | src/main.cpp:336-358 | state 1 sets status streaming, clears temperature streaming and sets the interval; state 0 clears only status streaming; other states change no flag; only the status flag cell and interval cells are saved; nothing is printed and the servo trace and the readings are unchanged |
| Behaviour.CalibrateSaves | src/main.cpp:281-296 | `D C` sets both positions (mod 2^16) in RAM, and the EEPROM restores them unchanged; only the four position cells change, nothing is printed, and the servo trace and the readings are unchanged |
| Behaviour.OneShotReports | src/main.cpp:229-247 | `T O` updates exactly the enabled channels, appends their records in ascending order with commas between them inside the opener and `]}`, and leaves the settings, the EEPROM and the servo alone |
| Behaviour.OpenDoorTwice | src/main.cpp:298-314 | a completed `D O` on a shut door appends its sweep, sets the door flag in RAM and cell 12+N to 1, changes nothing else, and makes a second `D O` a no-op |
| Behaviour.ShutThenOpenBlocked | src/main.cpp:315-331 | a completed `D S` appends its sweep and writes 0 to cell 12+N, so the door is saved as closed; the RAM settings and the other cells are unchanged, so the RAM flag stays set and a following `D O` is a no-op |
| Behaviour.ExecuteSync | src/main.cpp:169-360 | from a state where RAM matches EEPROM, a command keeps them matched exactly unless it is `T S1` while status streaming, `S1` while temperature streaming, or `D S` on an open door |
| Behaviour.TemperatureSync | src/main.cpp:248-268 | `T S` breaks the match exactly when state 1 clears a status streaming flag it does not save |
| Behaviour.StatusSync | src/main.cpp:341-357 | `S` breaks the match exactly when state 1 clears a temperature streaming flag it does not save |
| Behaviour.OpenSync | src/main.cpp:298-314 | `D O` keeps RAM and EEPROM matched |
| Behaviour.ShutSync | src/main.cpp:315-331 | `D S` breaks the match exactly when the door was open: RAM keeps the door open while EEPROM saves it closed |
| Behaviour.ValidateMarked | src/main.cpp:81-99 | with the marker present, `validate_eeprom` writes nothing, loads the stored settings, leaves RAM and EEPROM matched, and a second call changes nothing |
| Behaviour.ValidateUnmarked | src/main.cpp:122-147 | without the marker, `validate_eeprom` writes the defaults and no RAM variable; the next call takes the marked branch and loads the defaults |
| Behaviour.PowerOnSync | src/main.cpp:79-148 | after start-up RAM matches EEPROM exactly when the image was already marked |
| Behaviour.StreamOff | src/main.cpp:379 | with both streaming flags off, a streaming pass changes nothing |
| Behaviour.StreamOn | src/main.cpp:379-416 | with streaming on, enabled channels are refreshed, exactly the stream report for the settings and the new readings is appended, its door block appearing exactly under status streaming, the interval is waited unless 0, and settings are untouched |
| Firmware.ChipSelect | src/main.cpp:19-26 | channel i uses chip-select pin 10 - i, a pin in 3..10 |
| Firmware.NewDrivers | src/main.cpp:33-46 | the sensors table holds N distinct new drivers, the i-th for channel i on its chip-select pin, all with zeroed readings |
| Firmware.Board.constructor | src/main.cpp:33-59 | the globals, table, buffer and EEPROM at power-on are the reference power-on state |
| Firmware.Board.ValidateEeprom | src/main.cpp:79-148 | `validate_eeprom` gives the reference result of either branch |
| Firmware.Board.LoadSettings | src/main.cpp:88-99 | the marked branch loads exactly what the EEPROM restores to |
| Firmware.Board.Cell16 | src/main.cpp:95-97 | reading a 16-bit setting joins its two cells |
| Firmware.Board.SaveDefaults | src/main.cpp:127-146 | the unmarked branch's writes make the image the initialized one |
| Firmware.Board.WriteSettingCells | src/main.cpp:138-146 | the setting cells get the default bytes, and every other cell is kept |
| Firmware.Board.EnableAllCells | src/main.cpp:134-136 | every enable cell gets 1, and every other cell is kept |
| Firmware.Board.RefreshSensors | src/main.cpp:230-234 | the update loop leaves every driver's reading as the reference refresh gives |
| Firmware.Board.PrintRecords | src/main.cpp:236-245 | the `printed`-flag loop appends exactly the reference records loop |
| Firmware.Board.SetChannel | src/main.cpp:197-228 | `T E`/`T D` give the reference result |
| Firmware.Board.OneShot | src/main.cpp:229-247 | `T O` gives the reference result |
| Firmware.Board.PrintOneShot | src/main.cpp:235-246 | the one-shot report is appended and nothing else changes |
| Firmware.Board.SaveTemperatureStreaming | src/main.cpp:264-267 | the save gives the reference result |
| Firmware.Board.StreamTemperature | src/main.cpp:248-268 | `T S` gives the reference result for the state and the `strtol` of the buffer from index 4 |
| Firmware.Board.StartTemperatureStreaming | src/main.cpp:254-259 | `T S1` gives the reference result |
| Firmware.Board.ScanForSpace | src/main.cpp:286-289 | the scan finds the reference first space from index 4, or reports running off the buffer |
| Firmware.Board.SavePositions | src/main.cpp:293-296 | both positions are saved low byte first, and nothing else changes |
| Firmware.Board.Calibrate | src/main.cpp:281-297 | `D C` gives the reference result for the two numbers parsed from the buffer |
| Firmware.Board.SetClosed | src/main.cpp:282-283 | only the closed position changes |
| Firmware.Board.CalibrateOpen | src/main.cpp:285-296 | the second half of `D C` completes exactly when an open position can be parsed, then sets it and saves both positions; otherwise it stops with nothing changed |
| Firmware.Board.SetOpenAndSave | src/main.cpp:291-296 | the open position is set and both positions are saved; nothing else changes |
| Firmware.Board.ClimbLoop | src/main.cpp:306-309 | the `for` loop of `D O` appends the reference writes and pauses and ends as the reference run does |
| Firmware.Board.DescendLoop | src/main.cpp:323-326 | the `for` loop of `D S` appends the reference writes and pauses and ends as the reference run does |
| Firmware.Board.OpenDoor | src/main.cpp:298-314 | `D O` gives the reference result |
| Firmware.Board.OpenSweep | src/main.cpp:302-313 | the sweep of `D O` on a shut door gives the reference result |
| Firmware.Board.EndSweep | src/main.cpp:310-313 | the final write, the RAM door flag set, and the door cell saved; nothing else changes |
| Firmware.Board.ShutDoor | src/main.cpp:315-331 | `D S` gives the reference result |
| Firmware.Board.ShutSweep | src/main.cpp:319-330 | the sweep of `D S` on an open door gives the reference result |
| Firmware.Board.StreamStatus | src/main.cpp:341-357 | `S` gives the reference result for the state and the `strtol` of the buffer from index 4 |
| Firmware.Board.StartStatusStreaming | src/main.cpp:343-357 | `S1` sets the interval and status streaming, clears temperature streaming, and saves the status flag and the interval |
| Firmware.Board.StopStatusStreaming | src/main.cpp:350-357 | `S0` clears status streaming and saves the flag and the unchanged interval |
| Firmware.Board.SaveStatusStreaming | src/main.cpp:354-357 | the status flag and the interval are saved, and nothing else changes |
| Firmware.Board.ProcessCommand | src/main.cpp:169-360 | `processCommand` gives the reference result |
| Firmware.Board.ProcessTemperature | src/main.cpp:186-271 | the `T` family gives the reference result |
| Firmware.Board.ProcessDoor | src/main.cpp:272-335 | the `D` family gives the reference result |
| Firmware.Board.Receive | src/main.cpp:365-376 | one received byte gives the reference accumulator step |
| Firmware.Board.ReceiveAll | src/main.cpp:364-377 | the receive loop gives the reference result for all available bytes |
| Firmware.Board.Stream | src/main.cpp:379-416 | the streaming pass gives the reference result |
| Firmware.Board.PrintReport | src/main.cpp:386-411 | the streaming report is appended for the current settings and readings |
| Firmware.Board.Loop | src/main.cpp:362-417 | one pass of `loop` gives the reference result |

## Left out

- SPI transfers, chip-select toggling and `_delay_ms` (src/max31855.cpp:14-17, 131-142): hardware I/O. The frame is four input bytes.
- `setup()` and the Serial port (src/main.cpp:150-167). Input is a byte sequence. Output is a sequence of tokens, and each channel's JSON text is the abstract token `Record`.
- `Servo.write` and `delay()`: effects appended to a trace. Time is not modelled.
- `micros()` (src/max31855.cpp:68): a clock value passed in with each frame.
- Max31855.Driver.Update: stores integer counts, not the floating-point `*0.25` and `*0.0625` values (src/max31855.cpp:67, 84).
- Max31855.Driver.ToJson: states the keys, order and status fields only. The `String(x, 3)` formatting of floats is not modelled (src/max31855.cpp:106-107).
- Door.Step and Door.Pause: integer division by 100, where the source divides in `double`. On AVR `double` is 32-bit; the two agree for any difference open - closed >= 0 and for |ms| up to 2^24. When closed is above open the step is 0 here, not the firmware's wrapped unsigned difference over 100; no loop runs then, so no trace differs.
- Max31855.Driver.GetTemperature: returns the `_last_reading` timestamp exactly, where the firmware returns it as a 32-bit AVR `double`, which rounds it once it passes 2^24 µs (src/max31855.cpp:111-114).
- `#ifdef DEBUG_FIRMWARE` printing: diagnostics only.
- EEPROM and Servo library internals: not part of this model.
- Undefined behaviour becomes `Stopped` and the model goes no further. That covers two cases: a negative `T E`/`T D` channel, and a `strtol` or an unbounded `D C` space scan past the 16-byte buffer.
- A door loop whose condition can never fail is not undefined behaviour: it writes to the servo and delays for ever. The model stops there with `Stopped(SweepNeverEnds)` and does not list the endless trace.
- Firmware.Board.ClimbLoop and Firmware.Board.DescendLoop: follow the loop only up to the first wrap of `pos`, and stop there with `Stopped(SweepWraps)`. That is where the C++ position leaves the intended range. After the wrap the C++ loop goes on. It may end later, or, as with closed 0 and open 65535 for `D O`, never end. Door.Climb, Door.Descend, Door.Open and Door.Shut end their runs at the same point.
- Firmware.Board.Receive: takes one fresh set of frames per received byte. The frames are used only when that byte completes a `T O` line.
- The `HAS_8_CHANNELS` choice (src/main.cpp:11-12, 61-65) is the parameter N, either 4 or 8.
- The `sensors` struct table becomes two parallel tables, the drivers and an `enabled` array.
- Command.SkipSpaces: the C `isspace` set is taken over ASCII only (space, tab, line feed, vertical tab, form feed, carriage return).

The model follows the code where the code and its written description disagree:
- `D S` does nothing unless the door is flagged open.
- `D S` leaves the RAM door flag set (src/main.cpp:329).
- For closed 10 and open 370, `D O` makes 121 loop writes and then the final write.
- The probe and junction counts OR in the sign bit rather than sign-extending.
- `getTemperature` returns the timestamp field.
- The `S` command reads its state from byte 3.
