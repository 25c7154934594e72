# Rust embedded drivers, a clipboard history and two exercises, modelled in Dafny

This project models the parts of the `rust` repository that have logic of their own:

- **The MAX7219 8x8 LED matrix driver** of the ultrasonic board (`esp32-wifi-ultrasonic/src/matrix/mod.rs`). It bit-bangs 16-bit register commands over DIN/CLK/CS and propagates every pin error with `?`. The model covers `init`, `clear`, `display_row`, `display_pattern`, `display_number` and `display_ip_address`.
- **The HC-SR04 sensor and the TM1637 display** of the same board (`esp32-wifi-ultrasonic/src/ultrasonic/mod.rs`). It covers the echo-timing routine `measure_distance` and the TM1637 start/stop/byte routines with `init_tm1637`, `display_number` and `update_display`. Pin errors are propagated with `?`.
- **The counter board's TM1637 driver** (`esp32-async-counter/src/display.rs`). This driver discards every pin error with `.ok()`.
- **The list logic of the clipboard manager's commands** (`clipboard-rs/src-tauri/src/lib.rs`). The key-value store is modelled as the field `items` of a `History` object.
- **Pair sum**, one-pass and two-pass, from `coding-interview-patterns`.
- **`roman_to_int` and `abs_difference`**, nested in `learn-rust/main.rs`.

GPIO is modelled in `Gpio` as a `Port` object:
- every pin write and busy-wait is an event on a wire trace;
- a fixed set of faulty pins decides which writes fail;
- a `?` driver stops at the first failing write (`Run`);
- an `.ok()` driver drops the failing writes and carries on (`Skip`).

Each driver keeps a ghost log of the commands or transaction steps it has attempted. Its invariant `Valid()` ties the wire trace to that log.

The round-trip partner of each driver is a model of the receiving chip, a function from wire events to chip state. These receivers model the chips' datasheet behaviour, not code in the repository, so they have no rows of their own; they are the independent side against which the round-trip lemmas are stated:
- `Max7219` for the matrix: a shift register that latches a command when CS rises;
- `Tm1637` for the displays: START/STOP conditions, LSB-first sampling on rising clock edges, and an acknowledge slot.

The lemmas show that the chip decodes the driver's wire trace back into the commands, or the display transactions, the driver meant to send.

Shared helpers:
- `Bits`: bytes as `bv8`, and bit lists in LSB-first and MSB-first order;
- `Decimal`: `u32::to_string` and `str::parse::<u32>`;
- `Text`: `trim`, `to_lowercase`, `contains`, `split('|')` and `String` ordering;
- `Lists`: `sort_by_key` and `dedup_by_key`;
- `Wrappers`: `Option` and `Result`.

Things the code takes from outside become parameters:
- clock readings: the parameter `now`, and the echo line as a function of the microseconds since the trigger;
- the faulty pins: the `Port`'s fixed set;
- an imported history: an already parsed list.

A Rust debug-build panic on integer underflow becomes an error result.

## Model

| member | source | states |
|---|---|---|
| Bits.BitIsShiftAndMask | esp32-wifi-ultrasonic/src/matrix/mod.rs:77 | `(b >> i) & 1 == 1` is bit i of b |
| Bits.SetBitIsShiftAndOr | esp32-wifi-ultrasonic/src/matrix/mod.rs:133-135 | `b \|= 1 << i` sets bit i and keeps every other bit |
| Bits.WithBit | esp32-wifi-ultrasonic/src/matrix/mod.rs:133-135 | the byte with bit i set has exactly the bits of b plus bit i |
| Bits.LsbBits | esp32-wifi-ultrasonic/src/ultrasonic/mod.rs:78-81 | the eight bits in the order `tm1637_send_byte` sends them, least significant first |
| Bits.MsbBits | esp32-wifi-ultrasonic/src/matrix/mod.rs:76-79 | the eight bits in the order `send_byte` sends them, most significant first |
| Bits.FromLsbBit | esp32-async-counter/src/display.rs:38-46 | the byte assembled from LSB-first bits has bit i set exactly when the i-th bit received is set |
| Bits.LsbRoundTrip | esp32-async-counter/src/display.rs:38-46 | assembling the LSB-first bits of a byte gives the byte back |
| Bits.LsbBitsOfFromLsb | esp32-async-counter/src/display.rs:38-46 | splitting an assembled byte gives back the eight bits it was assembled from |
| Bits.MsbRoundTrip | esp32-wifi-ultrasonic/src/matrix/mod.rs:75-81 | assembling the MSB-first bits of a byte gives the byte back |
| Gpio.Run | esp32-wifi-ultrasonic/src/matrix/mod.rs:84-88 | under `?` the wire gets all of a routine's events exactly when no write fails |
| Gpio.RunAppend | esp32-wifi-ultrasonic/src/matrix/mod.rs:84-88 | a `?` sequence of two parts fails if either part fails; the second part runs only if the first went through |
| Gpio.RunIs | esp32-wifi-ultrasonic/src/matrix/mod.rs:65-73 | when the first failing write is at index k, the wire gets exactly the events before k |
| Gpio.SkipKeeps | esp32-async-counter/src/display.rs:21-26 | under `.ok()` the wire gets exactly the events that do not fail, and all of them when none fails |
| Gpio.Skip | esp32-async-counter/src/display.rs:21-51 | `.ok()` semantics: the events in order, with each write to a failing pin dropped and the driver carrying on after it |
| Gpio.SkipAppend | esp32-async-counter/src/display.rs:59-104 | under `.ok()` the events of consecutive routines reach the wire independently |
| Gpio.FailsAppend | esp32-wifi-ultrasonic/src/matrix/mod.rs:83-89 | a sequence of events fails exactly when one of its parts fails |
| Gpio.Port.SetLevel | esp32-wifi-ultrasonic/src/matrix/mod.rs:66 | a write succeeds exactly when its pin is not faulty; only a successful write reaches the wire, and the port stays consistent |
| Gpio.Port.DelayUs | esp32-wifi-ultrasonic/src/matrix/mod.rs:69 | a busy-wait always appends one wait event |
| Decimal.Show | esp32-wifi-ultrasonic/src/matrix/mod.rs:181 | `to_string` is a non-empty digit string, with a leading '0' only for 0, and one digit exactly below 10 |
| Decimal.ValueShow | esp32-wifi-ultrasonic/src/matrix/mod.rs:181 | the digits of `to_string` read back as the number |
| Decimal.ParseU32 | esp32-wifi-ultrasonic/src/matrix/mod.rs:169 | a successful `parse::<u32>` accepts only an optional '+' and at least one digit, and its value is below 2^32 |
| Decimal.ParseShow | esp32-wifi-ultrasonic/src/matrix/mod.rs:169-170 | parsing the decimal text of a `u32` gives it back |
| Matrix.NewEvents | esp32-wifi-ultrasonic/src/matrix/mod.rs:57-62 | the idle levels `new` sets: CS high, CLK low, DIN low |
| Matrix.BitEvents | esp32-wifi-ultrasonic/src/matrix/mod.rs:65-73 | `send_bit`: DIN to the bit, CLK high, a 1 µs wait, CLK low, a 1 µs wait |
| Matrix.ByteEvents | esp32-wifi-ultrasonic/src/matrix/mod.rs:75-81 | `send_byte` is forty events, five per bit |
| Matrix.ByteEventsStep | esp32-wifi-ultrasonic/src/matrix/mod.rs:76-79 | the i-th `send_bit` of `send_byte` clocks out bit 7 - i |
| Matrix.ByteEventsBits | esp32-wifi-ultrasonic/src/matrix/mod.rs:75-81 | `send_byte` is `send_bit` of each bit, most significant first |
| Matrix.CommandEvents | esp32-wifi-ultrasonic/src/matrix/mod.rs:83-89 | a command frame is 82 events |
| Matrix.CommandEventsSplit | esp32-wifi-ultrasonic/src/matrix/mod.rs:83-89 | a command frame is CS low, the register byte, the data byte, then CS high |
| Matrix.RowEvents | esp32-wifi-ultrasonic/src/matrix/mod.rs:115-120 | `display_row` sends a frame for rows 1 to 8 and nothing otherwise |
| Matrix.RowInRange | esp32-wifi-ultrasonic/src/matrix/mod.rs:137 | row index i (from 0) addresses digit register i + 1, which lies in 1 to 8 |
| Matrix.InitCommands | esp32-wifi-ultrasonic/src/matrix/mod.rs:91-113 | `init` sends thirteen commands |
| Matrix.SetupCommands | esp32-wifi-ultrasonic/src/matrix/mod.rs:92-102 | four set-up commands: display test, decode mode, scan limit, intensity |
| Matrix.ClearCommands | esp32-wifi-ultrasonic/src/matrix/mod.rs:122-127 | `clear` sends 0 to rows 1 to 8, in increasing order |
| Matrix.RowByte | esp32-wifi-ultrasonic/src/matrix/mod.rs:131-136 | bit c of a row's byte is set exactly when cell c is nonzero |
| Matrix.PatternCommands | esp32-wifi-ultrasonic/src/matrix/mod.rs:129-140 | `display_pattern` sends eight row commands, row r + 1 for grid row r |
| Matrix.PatternCells | esp32-wifi-ultrasonic/src/matrix/mod.rs:129-140 | bit c of the byte sent for row r + 1 is set exactly when cell (r, c) is lit |
| Matrix.CharPattern | esp32-wifi-ultrasonic/src/matrix/mod.rs:142-164 | a glyph is non-blank exactly for the characters that have one |
| Matrix.Mirror | esp32-wifi-ultrasonic/src/matrix/mod.rs:187-194 | bit k of the mirrored glyph is bit 7 - k of the glyph |
| Matrix.MirrorBits | esp32-wifi-ultrasonic/src/matrix/mod.rs:187-194 | the source's eight mask-and-shift terms compute exactly that bit reversal |
| Matrix.MirrorInvolution | esp32-wifi-ultrasonic/src/matrix/mod.rs:187-194 | mirroring twice gives the glyph back |
| Matrix.Leading | esp32-wifi-ultrasonic/src/matrix/mod.rs:181-182 | the digits shown are a prefix of the decimal text, of length min(4, its length) |
| Matrix.NumberCommands | esp32-wifi-ultrasonic/src/matrix/mod.rs:179-204 | `display_number` sends eight row commands |
| Matrix.NumberRows | esp32-wifi-ultrasonic/src/matrix/mod.rs:184-201 | row i + 1 gets the mirrored glyph of the i-th leading digit, and rows past the digits get 0 |
| Matrix.LeadingExample | esp32-wifi-ultrasonic/src/matrix/mod.rs:180-182 | 12345 is shown as "1234": the leading digits, not the trailing ones |
| Matrix.LastField | esp32-wifi-ultrasonic/src/matrix/mod.rs:168 | `split('.').last()` is the suffix after the last '.', or the whole text when there is none |
| Matrix.IpNumber | esp32-wifi-ultrasonic/src/matrix/mod.rs:166-177 | the last field parsed as a `u32`, or the error code 999 when it does not parse |
| Matrix.IpShowsLastField | esp32-wifi-ultrasonic/src/matrix/mod.rs:166-170 | an address ending in ".n", for a `u32` n, shows n |
| Matrix.IpEmptyLastField | esp32-wifi-ultrasonic/src/matrix/mod.rs:171-173 | an address ending in '.' shows 999 |
| Matrix.LastFieldAfterDot | esp32-wifi-ultrasonic/src/matrix/mod.rs:168 | the last field of `s.t`, for t without '.', is t |
| Matrix.NewRun | esp32-wifi-ultrasonic/src/matrix/mod.rs:57-62 | `new` fails exactly when a line is faulty, and stops at CS, CLK or DIN, whichever comes first |
| Matrix.BitRun | esp32-wifi-ultrasonic/src/matrix/mod.rs:65-73 | `send_bit` fails exactly when DIN or CLK is faulty, and stops at the first failing write |
| Matrix.ByteRun | esp32-wifi-ultrasonic/src/matrix/mod.rs:75-81 | `send_byte` fails exactly when DIN or CLK is faulty; the wire gets a prefix of its events |
| Matrix.CommandRunSplit | esp32-wifi-ultrasonic/src/matrix/mod.rs:83-89 | `send_command` stops at CS, or inside the register byte, or goes through whole |
| Matrix.CommandRun | esp32-wifi-ultrasonic/src/matrix/mod.rs:83-89 | `send_command` fails exactly when some line is faulty; the wire gets a prefix of its frame |
| Matrix.Attempt | esp32-wifi-ultrasonic/src/matrix/mod.rs:83-89 | what one `send_command` puts on the wire is a prefix of its frame |
| Matrix.WireSnoc | esp32-wifi-ultrasonic/src/matrix/mod.rs:83-89 | the wire after one more command is the old wire plus that command's attempt |
| Matrix.WireHealthy | esp32-wifi-ultrasonic/src/matrix/mod.rs:83-89 | with healthy lines, every command's full frame reaches the wire |
| Matrix.Sent | esp32-wifi-ultrasonic/src/matrix/mod.rs:91-113 | the commands a `?` sequence attempts are a prefix of its list, and all of them when the lines are healthy |
| Matrix.RowCommands | esp32-wifi-ultrasonic/src/matrix/mod.rs:115-120 | `display_row` sends its command exactly when the row is in 1 to 8 |
| Matrix.Driver.New | esp32-wifi-ultrasonic/src/matrix/mod.rs:46-63 | succeeds exactly with healthy lines; the wire gets the idle levels up to the first failing write |
| Matrix.Driver.SendBit | esp32-wifi-ultrasonic/src/matrix/mod.rs:65-73 | returns success exactly when no write fails; the wire gets the bit's events up to the first failure |
| Matrix.Driver.SendByte | esp32-wifi-ultrasonic/src/matrix/mod.rs:75-81 | returns success exactly when no write fails; the wire gets the byte's events up to the first failure |
| Matrix.Driver.SendCommand | esp32-wifi-ultrasonic/src/matrix/mod.rs:83-89 | logs the command and keeps the wire consistent with the log; succeeds exactly with healthy lines |
| Matrix.Driver.Init | esp32-wifi-ultrasonic/src/matrix/mod.rs:91-113 | attempts the `init` commands up to the first failure |
| Matrix.Driver.DisplayRow | esp32-wifi-ultrasonic/src/matrix/mod.rs:115-120 | sends one command for rows 1 to 8, nothing otherwise (and then succeeds) |
| Matrix.Driver.Clear | esp32-wifi-ultrasonic/src/matrix/mod.rs:122-127 | attempts the eight blanking commands in order |
| Matrix.Driver.PackRow | esp32-wifi-ultrasonic/src/matrix/mod.rs:131-136 | the inner loop sets bit c exactly when cell c is nonzero |
| Matrix.Driver.DisplayPattern | esp32-wifi-ultrasonic/src/matrix/mod.rs:129-140 | attempts the eight row commands of the packed grid |
| Matrix.Driver.DisplayNumber | esp32-wifi-ultrasonic/src/matrix/mod.rs:179-204 | attempts the mirrored leading-digit rows followed by the blank rows |
| Matrix.Driver.DisplayIpAddress | esp32-wifi-ultrasonic/src/matrix/mod.rs:166-177 | shows the last field's number, or 999 |
| Max7219.Step | esp32-wifi-ultrasonic/src/matrix/mod.rs:83-89 | one event latches at most one command, and never forgets an earlier one |
| Max7219.BitReceive | esp32-wifi-ultrasonic/src/matrix/mod.rs:65-73 | one `send_bit` shifts its bit in and leaves the clock low |
| Max7219.BitsReceive | esp32-wifi-ultrasonic/src/matrix/mod.rs:76-79 | consecutive `send_bit`s are shifted in in the order sent |
| Max7219.ByteReceive | esp32-wifi-ultrasonic/src/matrix/mod.rs:75-81 | one `send_byte` shifts in its eight bits, most significant first |
| Max7219.DecodeLast | esp32-wifi-ultrasonic/src/matrix/mod.rs:85-86 | the last sixteen bits after a register byte and a data byte decode to that command |
| Max7219.CommandReceive | esp32-wifi-ultrasonic/src/matrix/mod.rs:83-89 | one command frame latches exactly that command and leaves the chip idle |
| Max7219.FramesReceive | esp32-wifi-ultrasonic/src/matrix/mod.rs:91-113 | back-to-back frames are latched in the order sent |
| Max7219.NewIdles | esp32-wifi-ultrasonic/src/matrix/mod.rs:57-60 | `new` leaves the chip idle, whatever state it was in |
| Max7219.ChipLatchesLog | esp32-wifi-ultrasonic/src/matrix/mod.rs:83-89 | with healthy lines the chip latches exactly the driver's command log |
| Tm1637.Sends | esp32-wifi-ultrasonic/src/ultrasonic/mod.rs:163-178 | one byte-send step per byte, in order |
| Tm1637.Frame | esp32-wifi-ultrasonic/src/ultrasonic/mod.rs:124-130 | a transaction is START, one send per byte, then STOP |
| Tm1637.Segments | esp32-async-counter/src/display.rs:108-123 | the seven-segment byte is non-blank exactly for digits 0 to 9 |
| Tm1637.SegmentsDistinct | esp32-async-counter/src/display.rs:110-121 | different digits have different glyphs |
| Tm1637.GlyphDigit | esp32-wifi-ultrasonic/src/ultrasonic/mod.rs:164-176 | a glyph that reads back as a digit is that digit's glyph |
| Tm1637.GlyphDigitSegments | esp32-wifi-ultrasonic/src/ultrasonic/mod.rs:164-176 | reading back a digit's glyph gives the digit, and nothing for a blank |
| Tm1637.AssembleByte | esp32-wifi-ultrasonic/src/ultrasonic/mod.rs:78-81 | the chip assembles the LSB-first bits of a byte into that byte |
| Ultrasonic.StartEvents | esp32-wifi-ultrasonic/src/ultrasonic/mod.rs:100-109 | `tm1637_start`: CLK high, DIO high, DIO low while CLK is high, CLK low, with the 5 µs delays |
| Ultrasonic.StopEvents | esp32-wifi-ultrasonic/src/ultrasonic/mod.rs:112-121 | `tm1637_stop`: CLK low, DIO low, CLK high, DIO high while CLK is high, with the 5 µs delays |
| Ultrasonic.BitEvents | esp32-wifi-ultrasonic/src/ultrasonic/mod.rs:67-74 | `tm1637_send_bit`: DIO to the bit, then CLK high and low with 5 µs delays |
| Ultrasonic.AckEvents | esp32-wifi-ultrasonic/src/ultrasonic/mod.rs:83-94 | the acknowledge slot of `tm1637_send_byte`: CLK low, DIO high, CLK high, CLK low, with 5 µs delays; the ACK level is not read |
| Ultrasonic.TriggerEvents | esp32-wifi-ultrasonic/src/ultrasonic/mod.rs:32-34 | the 10 µs trigger pulse |
| Ultrasonic.ByteEvents | esp32-wifi-ultrasonic/src/ultrasonic/mod.rs:77-97 | `tm1637_send_byte` is 47 events |
| Ultrasonic.ByteEventsStep | esp32-wifi-ultrasonic/src/ultrasonic/mod.rs:78-81 | the i-th `tm1637_send_bit` clocks out bit i |
| Ultrasonic.ByteEventsAck | esp32-wifi-ultrasonic/src/ultrasonic/mod.rs:83-94 | the byte ends with the acknowledge slot |
| Ultrasonic.ByteEventsBits | esp32-wifi-ultrasonic/src/ultrasonic/mod.rs:77-97 | the byte is the eight bits, least significant first, then the acknowledge slot |
| Ultrasonic.BitRun | esp32-wifi-ultrasonic/src/ultrasonic/mod.rs:67-74 | a bit fails exactly when a display line is faulty, and stops at the first failing write |
| Ultrasonic.OpRun | esp32-wifi-ultrasonic/src/ultrasonic/mod.rs:77-121 | every step except a pause fails exactly when a display line is faulty; the wire gets a prefix of its events |
| Ultrasonic.Attempt | esp32-wifi-ultrasonic/src/ultrasonic/mod.rs:77-121 | what one step puts on the wire is a prefix of its events |
| Ultrasonic.WireSnoc | esp32-wifi-ultrasonic/src/ultrasonic/mod.rs:77-121 | the wire after one more step is the old wire plus that step's attempt |
| Ultrasonic.WireHealthy | esp32-wifi-ultrasonic/src/ultrasonic/mod.rs:77-121 | with healthy lines, every step's events reach the wire |
| Ultrasonic.Sent | esp32-wifi-ultrasonic/src/ultrasonic/mod.rs:124-130 | the steps a `?` sequence attempts are a prefix, and all of them when the lines are healthy |
| Ultrasonic.InitOps | esp32-wifi-ultrasonic/src/ultrasonic/mod.rs:124-130 | `init_tm1637` is one transaction holding the display-on command 0x8F |
| Ultrasonic.Drop | esp32-wifi-ultrasonic/src/ultrasonic/mod.rs:143-150 | repeated division by 10 never grows the number |
| Ultrasonic.DropStep | esp32-wifi-ultrasonic/src/ultrasonic/mod.rs:146 | one more digit step divides once more by 10 |
| Ultrasonic.Digits | esp32-wifi-ultrasonic/src/ultrasonic/mod.rs:135-151 | four digit slots |
| Ultrasonic.DropShow | esp32-wifi-ultrasonic/src/ultrasonic/mod.rs:143-150 | the p-th division leaves a nonzero number exactly while decimal digits remain, and its last digit is the p-th from the right |
| Ultrasonic.DigitsShow | esp32-wifi-ultrasonic/src/ultrasonic/mod.rs:135-151 | 0 gives four zeros; otherwise the slots hold the trailing four decimal digits, right-aligned, with blank slots (0x7f) on the left |
| Ultrasonic.SegmentBytes | esp32-wifi-ultrasonic/src/ultrasonic/mod.rs:163-178 | four segment bytes |
| Ultrasonic.NumberGlyphs | esp32-wifi-ultrasonic/src/ultrasonic/mod.rs:135-178 | each position shows the glyph of the matching trailing digit, or is blank left of a short number |
| Ultrasonic.NumberGlyphsExample | esp32-wifi-ultrasonic/src/ultrasonic/mod.rs:135-178 | 12345 shows "2345" and 42 shows "  42" |
| Ultrasonic.NumberOps | esp32-wifi-ultrasonic/src/ultrasonic/mod.rs:153-185 | `display_number` takes thirteen steps |
| Ultrasonic.NumberFrames | esp32-wifi-ultrasonic/src/ultrasonic/mod.rs:153-185 | three transactions: data command 0x40, then address 0xC0 with the four segment bytes, then display on |
| Ultrasonic.Scan | esp32-wifi-ultrasonic/src/ultrasonic/mod.rs:38-42 | the wait loop finds the first moment the echo leaves the level, or times out after 100 ms |
| Ultrasonic.ScanFinds | esp32-wifi-ultrasonic/src/ultrasonic/mod.rs:38-42 | the first change within the timeout is the one found |
| Ultrasonic.EchoTimesPulse | esp32-wifi-ultrasonic/src/ultrasonic/mod.rs:37-54 | successful echo timing reports a real pulse: its rise and its width |
| Ultrasonic.EchoPulse | esp32-wifi-ultrasonic/src/ultrasonic/mod.rs:37-54 | echo timing reports (rise, width) exactly when the echo has such a pulse |
| Ultrasonic.EchoTimeouts | esp32-wifi-ultrasonic/src/ultrasonic/mod.rs:37-54 | first timeout exactly when the echo never rises; second timeout exactly when it stays high too long |
| Ultrasonic.EchoTimes | esp32-wifi-ultrasonic/src/ultrasonic/mod.rs:37-54 | the two polling loops as a function of the echo line: the rise time and the pulse width, or the timeout that ends them |
| Ultrasonic.DistanceAsWritten | esp32-wifi-ultrasonic/src/ultrasonic/mod.rs:44-61 | `measure_distance` as written: `(end - start) / 58` with `start` the rise and `end` the width, an underflow when the width is below the rise; at most 100 ms / 58 |
| Ultrasonic.AsWrittenPulse | esp32-wifi-ultrasonic/src/ultrasonic/mod.rs:44-61 | as written, the result is (width - rise) / 58, or an underflow when width < rise |
| Ultrasonic.Distance | esp32-wifi-ultrasonic/src/ultrasonic/mod.rs:56-61 | the corrected distance is at most the timeout / 58 |
| Ultrasonic.DistancePulse | esp32-wifi-ultrasonic/src/ultrasonic/mod.rs:56-61 | corrected: the distance is the pulse width / 58 |
| Ultrasonic.FarEchoExample | esp32-wifi-ultrasonic/src/ultrasonic/mod.rs:44-61 | a 5800 µs pulse after 450 µs: 92 as written, 100 corrected |
| Ultrasonic.NearEchoExample | esp32-wifi-ultrasonic/src/ultrasonic/mod.rs:44-61 | a 290 µs pulse after 450 µs: underflow as written, 5 corrected |
| Ultrasonic.Sensor.constructor | esp32-wifi-ultrasonic/src/ultrasonic/mod.rs:15-27 | takes the lines, with an empty log |
| Ultrasonic.Sensor.SendBit | esp32-wifi-ultrasonic/src/ultrasonic/mod.rs:67-74 | succeeds exactly when no write fails; the wire gets the bit's events up to the first failure |
| Ultrasonic.Sensor.Acknowledge | esp32-wifi-ultrasonic/src/ultrasonic/mod.rs:83-94 | the acknowledge slot up to its first failing write |
| Ultrasonic.Sensor.SendByte | esp32-wifi-ultrasonic/src/ultrasonic/mod.rs:77-97 | succeeds exactly with healthy lines; the wire gets the byte's attempt |
| Ultrasonic.Sensor.SendStart | esp32-wifi-ultrasonic/src/ultrasonic/mod.rs:100-109 | logs START, keeping the wire consistent with the log |
| Ultrasonic.Sensor.SendStop | esp32-wifi-ultrasonic/src/ultrasonic/mod.rs:112-121 | logs STOP, keeping the wire consistent with the log |
| Ultrasonic.Sensor.Put | esp32-wifi-ultrasonic/src/ultrasonic/mod.rs:163-178 | sends one byte, succeeding exactly with healthy lines |
| Ultrasonic.Sensor.Init | esp32-wifi-ultrasonic/src/ultrasonic/mod.rs:124-130 | attempts the display-on transaction up to the first failure |
| Ultrasonic.Sensor.DigitArray | esp32-wifi-ultrasonic/src/ultrasonic/mod.rs:135-151 | the digit loop fills the array with the right-aligned digits |
| Ultrasonic.Sensor.DisplayNumber | esp32-wifi-ultrasonic/src/ultrasonic/mod.rs:133-188 | attempts the three transactions of the number up to the first failure |
| Ultrasonic.Sensor.TimeEcho | esp32-wifi-ultrasonic/src/ultrasonic/mod.rs:37-54 | the two polling loops compute the echo timing specification |
| Ultrasonic.Sensor.MeasureDistance | esp32-wifi-ultrasonic/src/ultrasonic/mod.rs:30-64 | the trigger pulse, then the as-written distance, or a pin error |
| Ultrasonic.Sensor.MeasureDistanceCorrected | esp32-wifi-ultrasonic/src/ultrasonic/mod.rs:30-64 | the trigger pulse, then the corrected distance, or a pin error |
| Ultrasonic.Sensor.UpdateDisplay | esp32-wifi-ultrasonic/src/ultrasonic/mod.rs:191-195 | sends the trigger pulse unless the trigger pin fails, then measures as written: a failed measurement, including the underflow of `end - start`, is returned with the display untouched; otherwise (width - rise) / 58 is displayed |
| Ultrasonic.Sensor.UpdateDisplayCorrected | esp32-wifi-ultrasonic/src/ultrasonic/mod.rs:191-195 | the same trigger pulse, then the corrected measurement: the pulse width / 58 is displayed |
| Ultrasonic.StartReceive | esp32-wifi-ultrasonic/src/ultrasonic/mod.rs:100-109 | START opens a transaction on an idle chip |
| Ultrasonic.BitReceive | esp32-wifi-ultrasonic/src/ultrasonic/mod.rs:67-74 | one bit is sampled on its rising edge |
| Ultrasonic.BitsReceive | esp32-wifi-ultrasonic/src/ultrasonic/mod.rs:78-81 | consecutive bits are sampled in the order sent |
| Ultrasonic.AckReceive | esp32-wifi-ultrasonic/src/ultrasonic/mod.rs:83-94 | the acknowledge slot completes the byte |
| Ultrasonic.ByteReceive | esp32-wifi-ultrasonic/src/ultrasonic/mod.rs:77-97 | one `tm1637_send_byte` delivers exactly its byte |
| Ultrasonic.StopReceive | esp32-wifi-ultrasonic/src/ultrasonic/mod.rs:112-121 | STOP closes the transaction with the bytes received |
| Ultrasonic.SendsReceive | esp32-wifi-ultrasonic/src/ultrasonic/mod.rs:163-178 | consecutive sends deliver their bytes in order |
| Ultrasonic.FrameReceive | esp32-wifi-ultrasonic/src/ultrasonic/mod.rs:124-130 | a whole transaction is received as its bytes |
| Ultrasonic.NumberReceive | esp32-wifi-ultrasonic/src/ultrasonic/mod.rs:133-188 | with healthy lines the chip receives the three transactions of the number |
| Ultrasonic.InitReceive | esp32-wifi-ultrasonic/src/ultrasonic/mod.rs:124-130 | with healthy lines the chip receives the display-on transaction |
| CounterDisplay.StartEvents | esp32-async-counter/src/display.rs:21-26 | `start`: DIO high, CLK high, DIO low, CLK low |
| CounterDisplay.StopEvents | esp32-async-counter/src/display.rs:29-34 | `stop`: CLK low, DIO low, CLK high, DIO high |
| CounterDisplay.BitEvents | esp32-async-counter/src/display.rs:39-45 | one bit of `write_byte`: CLK low, DIO to the bit, CLK high |
| CounterDisplay.AckEvents | esp32-async-counter/src/display.rs:49-51 | the acknowledge slot of `write_byte`: CLK low, DIO high, CLK high |
| CounterDisplay.ByteEvents | esp32-async-counter/src/display.rs:37-56 | `write_byte` is 27 events |
| CounterDisplay.ByteEventsClockLow | esp32-async-counter/src/display.rs:38-46 | DIO only changes while CLK is low, so no byte is mistaken for START or STOP |
| CounterDisplay.ByteEventsBitOrder | esp32-async-counter/src/display.rs:38-46 | bit i is put on DIO just before the i-th rising clock edge |
| CounterDisplay.ByteEventsStep | esp32-async-counter/src/display.rs:38-46 | the i-th bit step of `write_byte` clocks out bit i |
| CounterDisplay.ByteEventsBits | esp32-async-counter/src/display.rs:37-56 | the byte is the eight bits, least significant first, then the acknowledge slot |
| CounterDisplay.Digits | esp32-async-counter/src/display.rs:79-84 | four decimal digits |
| CounterDisplay.DigitsValue | esp32-async-counter/src/display.rs:79-84 | the four digits spell the number modulo 10000, zero-padded |
| CounterDisplay.SegmentBytes | esp32-async-counter/src/display.rs:79-84 | four segment bytes |
| CounterDisplay.SegmentsNeverBlank | esp32-async-counter/src/display.rs:79-84 | every position shows a digit glyph (no blanks), the one of its digit |
| CounterDisplay.DigitsExample | esp32-async-counter/src/display.rs:79-84 | 12345 shows 2345, 42 shows 0042, and 0 shows 0000 |
| CounterDisplay.NumberOps | esp32-async-counter/src/display.rs:59-104 | `display_number` takes fifteen steps |
| CounterDisplay.NumberFrames | esp32-async-counter/src/display.rs:59-104 | three transactions (0x40; 0xC0 with the four digits; 0x8F), with 1 ms pauses between them |
| CounterDisplay.Display.constructor | esp32-async-counter/src/display.rs:13-18 | takes the lines, with an empty log |
| CounterDisplay.Display.Start | esp32-async-counter/src/display.rs:21-26 | logs START, keeping the wire consistent with the log |
| CounterDisplay.Display.Stop | esp32-async-counter/src/display.rs:29-34 | logs STOP, keeping the wire consistent with the log |
| CounterDisplay.Display.DelayMs | esp32-async-counter/src/display.rs:70 | logs a pause of 1000 µs per millisecond |
| CounterDisplay.Display.WriteByte | esp32-async-counter/src/display.rs:37-56 | logs the byte, and always reports the acknowledge as received |
| CounterDisplay.Display.Command | esp32-async-counter/src/display.rs:61-67 | a one-byte transaction: START, the byte, STOP |
| CounterDisplay.Display.WriteBytes | esp32-async-counter/src/display.rs:86-88 | writes the bytes in order |
| CounterDisplay.Display.DisplayNumber | esp32-async-counter/src/display.rs:59-104 | attempts every event of the three transactions; the wire gets those that do not fail |
| CounterDisplay.StartReceive | esp32-async-counter/src/display.rs:21-26 | START opens a transaction on an idle chip |
| CounterDisplay.BitReceive | esp32-async-counter/src/display.rs:39-45 | one bit is sampled on its rising edge |
| CounterDisplay.BitsReceive | esp32-async-counter/src/display.rs:38-46 | consecutive bits are sampled in the order sent |
| CounterDisplay.AckReceive | esp32-async-counter/src/display.rs:49-51 | the acknowledge slot completes the byte |
| CounterDisplay.ByteReceive | esp32-async-counter/src/display.rs:37-56 | one `write_byte` delivers exactly its byte |
| CounterDisplay.StopReceive | esp32-async-counter/src/display.rs:29-34 | STOP closes the transaction with the bytes received |
| CounterDisplay.SendsReceive | esp32-async-counter/src/display.rs:86-88 | consecutive sends deliver their bytes in order |
| CounterDisplay.FrameReceive | esp32-async-counter/src/display.rs:61-67 | a whole transaction is received as its bytes |
| CounterDisplay.PauseReceive | esp32-async-counter/src/display.rs:70 | a pause changes nothing at the chip |
| CounterDisplay.OpLines | esp32-async-counter/src/display.rs:21-56 | with healthy lines no write of a step fails |
| CounterDisplay.HealthyWire | esp32-async-counter/src/display.rs:21-56 | with healthy lines every attempted event reaches the wire |
| CounterDisplay.NumberReceive | esp32-async-counter/src/display.rs:59-104 | with healthy lines the chip receives the three transactions of the number |
| Text.TrimStart | clipboard-rs/src-tauri/src/lib.rs:43 | drops exactly a leading run of whitespace |
| Text.IsWhitespace | clipboard-rs/src-tauri/src/lib.rs:43 | `char::is_whitespace`: exactly the characters with the Unicode White_Space property |
| Text.TrimEnd | clipboard-rs/src-tauri/src/lib.rs:43 | drops exactly a trailing run of whitespace |
| Text.TrimEmpty | clipboard-rs/src-tauri/src/lib.rs:43 | a text trims to nothing exactly when it is all whitespace |
| Text.Trim | clipboard-rs/src-tauri/src/lib.rs:43 | `trim`: both runs of whitespace removed |
| Text.LowerString | clipboard-rs/src-tauri/src/lib.rs:112 | lowering is character by character |
| Text.Lower | clipboard-rs/src-tauri/src/lib.rs:112 | an upper-case ASCII letter becomes its lower-case letter; any other character is unchanged |
| Text.LowerIdempotent | clipboard-rs/src-tauri/src/lib.rs:112 | lowering twice is lowering once |
| Text.FirstField | clipboard-rs/src-tauri/src/lib.rs:53 | the first `split('\|')` field is the prefix before the first '\|' and holds no '\|' |
| Text.BeforeLastBar | clipboard-rs/src-tauri/src/lib.rs:52-53 | the prefix before the last '\|', with no '\|' after it |
| Text.BeforeLastBarJoin | clipboard-rs/src-tauri/src/lib.rs:65 | text, '\|' and a suffix without '\|' split back into the text |
| Text.FirstFieldJoin | clipboard-rs/src-tauri/src/lib.rs:53 | text without '\|', then '\|' and a suffix: the first field is the text |
| Text.LexLeTotal | clipboard-rs/src-tauri/src/lib.rs:209 | any two strings are ordered one way or the other |
| Text.LexLeAntisymmetric | clipboard-rs/src-tauri/src/lib.rs:209 | strings ordered both ways are equal |
| Text.LexLeTransitive | clipboard-rs/src-tauri/src/lib.rs:209 | the string order is transitive |
| Lists.InsertBy | clipboard-rs/src-tauri/src/lib.rs:209 | inserting into a sorted list keeps it sorted and adds exactly one element |
| Lists.SortBy | clipboard-rs/src-tauri/src/lib.rs:209 | `sort_by_key` yields a sorted permutation of its input |
| Text.LexLe | clipboard-rs/src-tauri/src/lib.rs:209 | `Ord for String`: lexicographic by code point, with a proper prefix ordered before its extensions |
| Lists.KeysPermuted | clipboard-rs/src-tauri/src/lib.rs:209 | reordering keeps the set of keys |
| Lists.DedupBy | clipboard-rs/src-tauri/src/lib.rs:210 | `dedup_by_key` keeps the first element, keeps only input elements and all keys, and makes a sorted list strictly sorted |
| Clipboard.IsBlank | clipboard-rs/src-tauri/src/lib.rs:43-45 | the blank test: the text trims to nothing |
| Clipboard.NewItem | clipboard-rs/src-tauri/src/lib.rs:64-69 | the new entry: `text\|now`, timestamp now, not a favourite, no tags |
| Clipboard.Pushed | clipboard-rs/src-tauri/src/lib.rs:72-77 | the entry inserted at the front, the list then cut to 50 |
| Clipboard.TextExistsAsWritten | clipboard-rs/src-tauri/src/lib.rs:51-55 | as written: some entry's text before its first '\|' equals the text |
| Clipboard.SavedAsWritten | clipboard-rs/src-tauri/src/lib.rs:41-86 | `save_clipboard_history` as written: blank or already present leaves the history, otherwise the new entry is pushed |
| Clipboard.TextExists | clipboard-rs/src-tauri/src/lib.rs:51-55 | corrected: some entry's text before its last '\|' equals the text |
| Clipboard.Saved | clipboard-rs/src-tauri/src/lib.rs:41-86 | `save_clipboard_history` with the corrected test |
| Clipboard.BarTextAlwaysAdded | clipboard-rs/src-tauri/src/lib.rs:51-77 | as written, a non-blank text with a '\|' is added again on every save |
| Clipboard.SaveRepeatsBarText | clipboard-rs/src-tauri/src/lib.rs:51-77 | as written, saving "a\|b" twice into an empty history leaves two entries |
| Clipboard.SaveBlank | clipboard-rs/src-tauri/src/lib.rs:43-45 | whitespace-only text leaves the history unchanged |
| Clipboard.SaveAdds | clipboard-rs/src-tauri/src/lib.rs:58-77 | a new text goes to the front as `text\|now`, not a favourite and untagged; the old entries follow in order; the length is min(old + 1, 50) |
| Clipboard.SaveFinds | clipboard-rs/src-tauri/src/lib.rs:51-77 | after a save of a non-blank text the history holds an entry for that text |
| Clipboard.SaveIdempotent | clipboard-rs/src-tauri/src/lib.rs:50-58 | corrected: saving the same text again, at any time, changes nothing |
| Clipboard.SaveAsWrittenIdempotent | clipboard-rs/src-tauri/src/lib.rs:50-58 | as written, repeated saves are idempotent for texts without '\|' |
| Clipboard.Matches | clipboard-rs/src-tauri/src/lib.rs:109-112 | the search test: the lowered text before the first '\|' contains the lowered query |
| Text.Contains | clipboard-rs/src-tauri/src/lib.rs:112 | `str::contains`: the pattern occurs as a contiguous run at some offset of the text; the empty pattern occurs in every text |
| Clipboard.Search | clipboard-rs/src-tauri/src/lib.rs:108-115 | exactly the contents whose text part contains the query, ignoring case; at most one per entry |
| Clipboard.SearchAppend | clipboard-rs/src-tauri/src/lib.rs:108-115 | the search is an order-preserving filter: it distributes over concatenation and yields an entry's content exactly when the entry matches, so one content per matching entry, in history order |
| Clipboard.SearchIgnoresCase | clipboard-rs/src-tauri/src/lib.rs:112 | the query's case does not matter |
| Clipboard.SearchEmptyQuery | clipboard-rs/src-tauri/src/lib.rs:108-115 | the empty query returns every entry |
| Clipboard.LoadFavorites | clipboard-rs/src-tauri/src/lib.rs:147-150 | exactly the contents of the favourite entries |
| Clipboard.LoadFavoritesAppend | clipboard-rs/src-tauri/src/lib.rs:147-150 | an order-preserving filter: distributes over concatenation and yields an entry's content exactly when it is a favourite |
| Clipboard.FirstMatch | clipboard-rs/src-tauri/src/lib.rs:128-134 | the index of the first entry with that content, or none when no entry has it |
| Clipboard.Toggled | clipboard-rs/src-tauri/src/lib.rs:128-134 | `toggle_favorite`: the first entry with the content has its flag flipped, nothing else changes |
| Clipboard.ToggleTwice | clipboard-rs/src-tauri/src/lib.rs:128-134 | toggling twice restores the history |
| Clipboard.ToggleShowsFavorite | clipboard-rs/src-tauri/src/lib.rs:128-150 | an entry toggled on appears among the favourites; no content, tag or timestamp changes |
| Clipboard.WithTag | clipboard-rs/src-tauri/src/lib.rs:238-240 | the tag pushed unless it is already in the list |
| Clipboard.TagAdded | clipboard-rs/src-tauri/src/lib.rs:235-243 | `add_tag_to_item`: the tag added to the first entry with the content only |
| Clipboard.TagRemoved | clipboard-rs/src-tauri/src/lib.rs:261-266 | `remove_tag_from_item`: the tag retained out of the first entry with the content only |
| Clipboard.WithoutTag | clipboard-rs/src-tauri/src/lib.rs:263 | `retain` keeps exactly the tags different from the one removed |
| Clipboard.AddTagIdempotent | clipboard-rs/src-tauri/src/lib.rs:235-243 | adding a tag twice is adding it once; the entry then holds the tag; a duplicate-free tag list stays duplicate-free |
| Clipboard.RemoveTagEffect | clipboard-rs/src-tauri/src/lib.rs:261-266 | every copy of the tag leaves the first matching entry, and no other entry changes |
| Clipboard.RemoveAfterAdd | clipboard-rs/src-tauri/src/lib.rs:235-266 | removing a tag just added to an entry that lacked it restores the history |
| Clipboard.Keep | clipboard-rs/src-tauri/src/lib.rs:169-172 | the cleanup test: a favourite, or an age `now - timestamp` within the limit |
| Clipboard.Kept | clipboard-rs/src-tauri/src/lib.rs:168-173 | cleanup keeps exactly the favourites and the entries no older than the limit |
| Clipboard.KeptAppend | clipboard-rs/src-tauri/src/lib.rs:168-173 | an order-preserving filter: distributes over concatenation and keeps a single entry exactly when it is a favourite or young enough, so the removed count is the number of entries dropped |
| Clipboard.CleanupIdempotent | clipboard-rs/src-tauri/src/lib.rs:168-173 | a second cleanup at the same time removes nothing |
| Clipboard.CleanupKeepsFavorites | clipboard-rs/src-tauri/src/lib.rs:170-171 | favourites survive a cleanup regardless of age |
| Clipboard.Merged | clipboard-rs/src-tauri/src/lib.rs:206-215 | `import_history`'s list: both lists appended, sorted by content, one entry per content, cut to 100 |
| Clipboard.MergedSorted | clipboard-rs/src-tauri/src/lib.rs:206-215 | the imported history is sorted by content, holds no content twice, and has at most 100 entries |
| Clipboard.MergedFrom | clipboard-rs/src-tauri/src/lib.rs:206-215 | every entry after an import comes from the existing or the imported list |
| Clipboard.MergedKeys | clipboard-rs/src-tauri/src/lib.rs:206-215 | when the de-duplicated list has at most 100 entries, so that `truncate` removes nothing, every content of the two lists survives |
| Clipboard.ImportUnderflowExample | clipboard-rs/src-tauri/src/lib.rs:203-217 | a history holding one content twice shrinks on import, so the count `new - old` underflows |
| Clipboard.IsImage | clipboard-rs/src-tauri/src/lib.rs:303-304 | an image entry is one whose content starts with "[Image]" |
| Clipboard.FavoritesCounted | clipboard-rs/src-tauri/src/lib.rs:302 | the favourite count is the number of favourite entries, the length of `load_favorites` |
| Clipboard.CountFavorites | clipboard-rs/src-tauri/src/lib.rs:302 | the favourite count is at most the total |
| Clipboard.ImagesCounted | clipboard-rs/src-tauri/src/lib.rs:304 | the image count is the number of indices whose content starts with "[Image]" |
| Clipboard.CountImages | clipboard-rs/src-tauri/src/lib.rs:304 | the image count is at most the total |
| Clipboard.CountTexts | clipboard-rs/src-tauri/src/lib.rs:303-304 | text and image counts add up to the total |
| Clipboard.Earliest | clipboard-rs/src-tauri/src/lib.rs:320 | the earliest timestamp belongs to an entry and bounds all others from below; 0 when empty |
| Clipboard.Latest | clipboard-rs/src-tauri/src/lib.rs:321 | the latest timestamp belongs to an entry and bounds all others from above; 0 when empty |
| Clipboard.Stats | clipboard-rs/src-tauri/src/lib.rs:301-331 | the statistics record: total, favourites, texts, images, earliest and latest timestamp |
| Clipboard.StatsSpec | clipboard-rs/src-tauri/src/lib.rs:301-321 | the counts are consistent, and the date range covers every entry |
| Clipboard.AllTags | clipboard-rs/src-tauri/src/lib.rs:283-292 | the tags of all entries, strictly sorted, each exactly once |
| Clipboard.History.Save | clipboard-rs/src-tauri/src/lib.rs:41-86 | the stored history becomes the corrected save of the text |
| Clipboard.History.ToggleFavorite | clipboard-rs/src-tauri/src/lib.rs:121-140 | flips the first match only, and returns its new flag (false when nothing matches) |
| Clipboard.History.AddTag | clipboard-rs/src-tauri/src/lib.rs:230-252 | the tag is pushed onto the first match unless already there |
| Clipboard.History.RemoveTag | clipboard-rs/src-tauri/src/lib.rs:256-275 | the tag is retained out of the first match only |
| Clipboard.History.Cleanup | clipboard-rs/src-tauri/src/lib.rs:156-184 | stores the kept entries and returns the number removed; an underflowing age leaves the history as it was |
| Clipboard.History.Import | clipboard-rs/src-tauri/src/lib.rs:197-226 | stores the merged list and returns the number added; when the list shrank, the count underflows and nothing is stored |
| PairSum.PairSumUnsorted | coding-interview-patterns/src/hash_maps_and_sets/pair_sum_unsorted.rs:3-15 | returns [] exactly when no pair exists; otherwise two indices j < i adding up to the target, where i is the first index with a partner before it and j is the last index before i holding its value |
| PairSum.NoPairAtAll | coding-interview-patterns/src/hash_maps_and_sets/pair_sum_unsorted.rs:14 | no pair among all indices means no pair at all |
| PairSum.IndexMap | coding-interview-patterns/src/hash_maps_and_sets/pair_sum_unsorted_two_pass.rs:8-10 | the first pass maps each value to the last index holding it, and holds no other value |
| PairSum.PairSumUnsortedTwoPass | coding-interview-patterns/src/hash_maps_and_sets/pair_sum_unsorted_two_pass.rs:3-21 | returns [] exactly when no pair exists; otherwise a pair (i, j) with i the first index that has a partner anywhere and j the last index of that partner's value |
| PairSum.SelfComplement | coding-interview-patterns/src/hash_maps_and_sets/pair_sum_unsorted_two_pass.rs:14-17 | when the complement's last index is i itself, i has no partner |
| LearnRust.LookupDomain | learn-rust/main.rs:40-47 | exactly the seven symbols have a value, and every value is positive |
| LearnRust.SymbolValues | learn-rust/main.rs:41-47 | I=1, V=5, X=10, L=50, C=100, D=500, M=1000 |
| LearnRust.Lookup | learn-rust/main.rs:40-47 | the symbol table, or nothing for another character |
| LearnRust.Roman | learn-rust/main.rs:50-69 | the scan: a symbol below its successor adds the difference and skips both, otherwise it adds its value; a panic on an unknown symbol |
| LearnRust.RomanToInt | learn-rust/main.rs:39-71 | the loop computes the scan's specification |
| LearnRust.RomanPanics | learn-rust/main.rs:55-57 | the `unwrap` panics exactly when some character is not a roman symbol |
| LearnRust.RomanExample | learn-rust/main.rs:73 | "MCMXCIV" is 1994 |
| LearnRust.NonIncreasingSum | learn-rust/main.rs:61-67 | a numeral with non-increasing symbols is the sum of its symbols |
| LearnRust.RomanIsSigned | learn-rust/main.rs:54-68 | without a rising triple, the scan agrees with the textbook reading (a symbol below its successor is subtracted) |
| LearnRust.RisingTripleExample | learn-rust/main.rs:61-63 | "IVX" scans as 14 where the textbook reading gives 4 |
| LearnRust.Insert | learn-rust/main.rs:26 | insertion into a sorted list keeps it sorted and adds one element |
| LearnRust.Sort | learn-rust/main.rs:24-28 | `sort` yields a sorted permutation |
| LearnRust.SortedUnique | learn-rust/main.rs:24-28 | two sorted permutations of each other are equal |
| LearnRust.TakeCount | learn-rust/main.rs:30-31 | `k as usize` is k for k >= 0, and a count beyond any list length for k < 0 |
| LearnRust.AbsDifference | learn-rust/main.rs:23-36 | the sum of the k largest minus the sum of the k smallest values of the sorted list, with `k as usize` |
| LearnRust.Sum | learn-rust/main.rs:30-31 | `.sum::<i32>()`: the sum of the elements, as an unbounded integer |
| LearnRust.AbsDifferencePermutation | learn-rust/main.rs:23-36 | the result depends only on the multiset of values |
| LearnRust.AbsDifferenceAll | learn-rust/main.rs:30-34 | a negative k, or one covering the whole list, gives 0 |
| LearnRust.AbsDifferenceNonNegative | learn-rust/main.rs:30-34 | for k >= 0 the k largest values sum to at least the k smallest |
| LearnRust.SumDominates | learn-rust/main.rs:30-34 | a pointwise smaller list has a smaller sum |
| LearnRust.AbsDifferenceExample | learn-rust/main.rs:23-36 | [5, 1, 3] with k = 1 gives 4 |
| LearnRust.SingleExample | learn-rust/main.rs:37 | [100] with k = 1 gives 0 |

## Left out

- Store I/O is not modelled: loading and saving the store file, `store.delete`, the "clipboard-update" event, `load_clipboard_history` and `clear_clipboard_history` (plain store reads and writes), the JSON (de)serialisation of `import_history` and `export_history`, and a store or serde error.
- Clipboard reading and writing is not modelled: images, thumbnails (floating point), file copying and the background monitoring thread, because they only call the platform and have no list logic.
- The clock becomes a parameter: `now` for `SystemTime::now()`, whose before-the-epoch error is not modelled. The echo line is a function of the microseconds since the trigger. In `TimeEcho` each poll of the echo line advances one microsecond.
- Timestamps are `nat`: `u64` wrap-around is not modelled except for the two debug-build underflows.
- Clipboard.History.Save: uses the corrected text part (see Findings); the as-written behaviour is `Clipboard.SavedAsWritten`.
- Clipboard.Search: keeps the source's text part before the first '|'. A search therefore never looks past a '|' inside a saved text.
- Text.LowerString: lowers ASCII letters only. Unicode case mappings, including those that change a string's length, are not modelled.
- Lists.SortBy: its stability is not stated as a property, though the insertion sort keeps equal keys in input order. Which of two entries with the same content survives an import depends on this.
- `get_clipboard_statistics` top five tags: left out, because the order among tags with the same count depends on `HashMap` iteration order.
- PairSum.PairSumUnsorted: requires every `target - num` to fit in `i32`, which is stronger than needed: the source only evaluates it for the indices it reaches. The same holds for PairSum.PairSumUnsortedTwoPass.
- LearnRust.RomanToInt: `i32` overflow of `result` is not modelled. It needs a numeral of over two million symbols.
- LearnRust.AbsDifferenceAll: `i32` overflow of the two sums is not modelled, and the list length is bounded below 2^64 - 2^31, the `usize` range minus the widest wrapped count.
- Tm1637 acknowledge: neither driver reads the ACK bit. The model treats the ninth clock pulse as completing the byte whatever the chip answers.
- The global `OnceCell`/`Mutex` driver slot, the HTTP handlers in `matrix/api.rs` and the `main` functions are not part of this model.
- Busy-waits are kept as `Wait` events with their durations. Their timing is not related to the chip's timing requirements.

## Findings

| source | as written | input that shows it | evidently intended | confidence | as-written member | corrected member |
|---|---|---|---|---|---|---|
| esp32-wifi-ultrasonic/src/ultrasonic/mod.rs:47-60 | `end` is read from a timer restarted at the rising edge, so `end - start` is the pulse width minus the wait before the rise. It underflows (a debug-build panic) when the pulse is shorter than that wait. | an echo rising 450 µs after the trigger and falling at 740 µs | the pulse width over 58: 290 / 58 = 5 cm | not executed | Ultrasonic.NearEchoExample | Ultrasonic.DistancePulse |
| clipboard-rs/src-tauri/src/lib.rs:51-55 | the uniqueness test compares the text with each entry's text before its FIRST '\|'. A text that itself holds a '\|' never matches its own entry, so it is saved again on every call. | saving "a\|b" twice into an empty history leaves two entries | compare with the text before the timestamp, i.e. before the LAST '\|', so that a repeated save changes nothing | not executed | Clipboard.SaveRepeatsBarText | Clipboard.SaveIdempotent |
