# PicoSwitch in Dafny

PicoSwitch is a physical on/off switch for a llama.cpp server. A Raspberry
Pi Pico reads a toggle switch and sends `CMD:ON`, `CMD:OFF` and a periodic
`CMD:STATUS` over USB serial. It shows the server state and the VRAM and RAM
in use on an HD44780 16x2 character display, driven through a PCF8574 I2C
expander. A host daemon answers each command. It starts or stops the server
container, then writes back one status line
`STAT:<state>|<vram used>|<vram total>|<ram used>|<ram total>`.

This project models both ends of that link and the display driver:

- `wrappers.dfy`: `Option`.
- `text.dfy`: the Python `str` operations both sides rely on. These are
  `strip`, ASCII `lower`, `in`, `split` on one character, `join`, and cutting
  or padding to a width.
- `decimal.dfy`: `str(n)` for integers and the reading of a numeric field.
- `status_codec.dfy`: the status line. It has the host's formatting and the
  device's `parse_status` as a function of the fields before and after.
- `host.dfy`: the host daemon's decisions, with the external queries turned
  into parameters. It covers:
  - the container state;
  - the GPU memory sum, with its accumulation loop as a method;
  - the RAM figures;
  - the choice of serial port;
  - the status line;
  - the reaction to one received line.
- `lcd.dfy`: the `LCD` driver class. The I2C bus is a byte log that every
  method appends to. Beside it are the encoding of commands and characters
  into bus bytes, and the decoding the controller performs.
- `device.dfy`: the Pico program.
  - `format_gb`, the spinner glyph and the two display rows.
  - The switch, heartbeat and line-reader steps as functions.
  - A `Controller` class whose fields are the program's globals. Its methods
    are the program's functions, and `Tick` is one pass of the main loop.

Sizes stay in whole MiB from the host to the display. The device's division
by 1024 is folded into `FormatGb`, which prints the size in GiB with
round-half-to-even, as Python's `{:.0f}` and `{:.1f}` do. The Pico's
MicroPython port uses single-precision floats. A whole number of MiB below
2^24 is held exactly, and dividing it by 1024 only shifts the exponent, so
for such sizes the model and the device agree.

Three behaviours of the program are worth stating plainly:

- The device assigns the four numbers of a status line in order. It stops
  at the first field that is not a number.
- Empty `ps` output reports `stopped`.
- Below 10 GiB, sizes print with one decimal, so 8192 MiB shows as `8.0G`.

## Model

| member | source | states |
|---|---|---|
| Text.StripSpec | host/picoswitch_host.py:56 | `strip()` leaves the slice between the leading and the trailing white space, and that slice neither starts nor ends with white space |
| Text.StripEmpty | host/picoswitch_host.py:56-58 | the stripped text is empty exactly when the text is all white space |
| Text.Lower | host/picoswitch_host.py:56 | `lower()` keeps the length and lower-cases each ASCII letter in place |
| Text.ContainsOccurs | host/picoswitch_host.py:59-61 | `sub in s` holds exactly when `sub` occurs in `s` at some position |
| Text.SplitPiecesFree | pico/main.py:61 | no piece of `split(sep)` contains the separator |
| Text.JoinSplit | host/picoswitch_host.py:127 | joining the pieces of a split gives back the text |
| Text.SplitJoin | pico/main.py:61 | splitting a join of separator-free pieces gives back the pieces |
| Text.SplitCons | pico/main.py:48-52 | a separator-free piece followed by the separator splits off intact in front of the rest |
| Text.StripAround | host/picoswitch_host.py:79-81 | `strip()` removes exactly the white space around a text that is not itself padded |
| Text.StripJoined | host/picoswitch_host.py:78 | a join of unpadded lines, followed by white space such as the final line end, strips to the join itself |
| Text.Strip | host/picoswitch_host.py:56 | Python's `strip()`; its meaning is given by `StripSpec`, `StripEmpty` and `StripAround` |
| Text.Split | pico/main.py:61 | Python's `split(sep)`: always at least one piece; `SplitPiecesFree`, `JoinSplit` and `SplitJoin` give the rest |
| Text.Join | host/picoswitch_host.py:127 | Python's `sep.join(parts)`; `JoinSplit` and `SplitJoin` show it inverse to `Split` |
| Text.Contains | host/picoswitch_host.py:59-61 | Python's `sub in s`; `ContainsOccurs` ties it to an occurrence index |
| Text.FitWidth | pico/lcd_i2c.py:105-108 | the result has exactly `width` characters: the text's characters, then spaces |
| Decimal.NatToDecimal | host/picoswitch_host.py:127 | `str(n)` is all digits and has no leading zero |
| Decimal.IntToDecimal | host/picoswitch_host.py:127 | the text starts with `-` exactly for negative numbers and holds neither `|` nor a line end |
| Decimal.DigitsValueOfDecimal | host/picoswitch_host.py:127 | the digits of `str(n)` read back as `n` |
| Decimal.ParseIntOfDecimal | pico/main.py:66-69 | every integer the host writes is read back as the same integer |
| Decimal.ParseIntNeedsDigit | pico/main.py:65-71 | a field without a single digit is the `ValueError` path |
| StatusCodec.EncodeStatusShape | host/picoswitch_host.py:127 | a status line is `STAT:` followed by exactly the five fields, the state then the four numbers, separated by `|` |
| StatusCodec.EncodeStatus | host/picoswitch_host.py:127 | the host's status line; `EncodeStatusShape` gives its shape and `StatusRoundTrip` shows the device reads it back |
| StatusCodec.ApplyStatus | pico/main.py:56-71 | `parse_status` as a function of the shown fields; `ApplyStatusRejects` and `ApplyStatusAccepts` give its cases |
| StatusCodec.FirstBad | pico/main.py:65-71 | finds the first numeric field that does not read as a number: every field before it reads, and that field does not |
| StatusCodec.AssignNumbersPartial | pico/main.py:65-71 | the numbers before the first bad field take their new values, and that field and the later ones keep their old ones |
| StatusCodec.ApplyStatusRejects | pico/main.py:59-63 | a line without the prefix, or without exactly five parts, changes nothing |
| StatusCodec.ApplyStatusAccepts | pico/main.py:64-71 | with five parts, the state token is always taken, and the numbers are taken in order up to the first bad field |
| StatusCodec.StatusRoundTrip | pico/main.py:56-71 | parsing the line the host formats, for any state token without `|`, yields exactly the host's state and four numbers, whatever was held before |
| Host.ContainerState | host/picoswitch_host.py:48-65 | the result is always one of `running`, `starting`, `stopped` and `error` |
| Host.ContainerStateCases | host/picoswitch_host.py:56-65 | `error` exactly when the query failed; otherwise `running` iff the status contains `up`; `starting` iff it has no `up` but has `created` or `restarting`; `stopped` in every other case, blank output included |
| Host.ParseGpuLine | host/picoswitch_host.py:81 | a line reads as a pair only if it splits into exactly two comma-separated fields |
| Host.ParseGpuLineOfPair | host/picoswitch_host.py:81 | a line `used, total` as `nvidia-smi --format=csv,noheader,nounits` prints it reads back as exactly those two integers |
| Host.LineValueOfPair | host/picoswitch_host.py:79-83 | such a line is not skipped as blank and adds exactly its two integers to the sums |
| Host.SumFirstOfValues | host/picoswitch_host.py:78-83 | when every line has a value, the sums over the first `n` lines are the sums of those values |
| Host.VramTotalsOfReport | host/picoswitch_host.py:68-86 | on a report for one or more GPUs, with any trailing white space, `get_vram_usage` is the sum of the used MiB and the sum of the total MiB over all of them |
| Host.VramTotals | host/picoswitch_host.py:68-86 | `get_vram_usage` as a value: its meaning is given by `VramTotalsOfReport` (the sums of a well-formed report) and `VramTotalsMalformed` (one bad line gives (0, 0)) |
| Host.SumFirstFails | host/picoswitch_host.py:78-83 | the sum over the first `n` lines fails exactly when one of them has no value |
| Host.SumGpuLinesFails | host/picoswitch_host.py:78-86 | the sum fails exactly when some non-blank line is malformed |
| Host.SumFirstFailsForward | host/picoswitch_host.py:81-86 | once the lines read so far have failed, the whole sum fails |
| Host.VramTotalsMalformed | host/picoswitch_host.py:68-86 | one malformed line makes `get_vram_usage` report (0, 0), not a partial sum |
| Host.AccumulateGpuLines | host/picoswitch_host.py:76-84 | the loop returns the sums of (used, total) over the non-blank lines, or (0, 0) as soon as a line is malformed |
| Host.VramUsage | host/picoswitch_host.py:68-86 | `get_vram_usage` is (0, 0) when the query failed, and otherwise the loop's result |
| Host.RamUsage | host/picoswitch_host.py:89-101 | total and used MiB are the floors of MemTotal / 1024 and (MemTotal - MemAvailable) / 1024; a missing figure gives (0, 0) |
| Host.LexLeTotal | host/picoswitch_host.py:39 | any two names are ordered one way or the other |
| Host.LexLeTransitive | host/picoswitch_host.py:39 | string order is transitive |
| Host.Least | host/picoswitch_host.py:39-41 | `sorted(xs)[0]` is a member of `xs` and precedes every member |
| Host.FindSerialPort | host/picoswitch_host.py:37-45 | the least ttyACM name if there is one, otherwise the least ttyUSB name, otherwise none |
| Host.HostStatus | host/picoswitch_host.py:122-127 | the reported state is always one of the four tokens |
| Host.BuildStatus | host/picoswitch_host.py:122-127 | `build_status`; `BuildStatusReadBack` shows the device reads back exactly `HostStatus` |
| Host.HandleLine | host/picoswitch_host.py:155-173 | one pass of the daemon's loop; `HandleLineCases` and `HandleLineWrites` give its cases |
| Host.HandleLineCases | host/picoswitch_host.py:155-173 | after `strip`, `CMD:ON` starts the server then writes the status, and `CMD:OFF` stops it then writes the status; `CMD:STATUS` only writes; any other line does nothing; a start happens iff the line is `CMD:ON`, and a stop iff it is `CMD:OFF` |
| Host.HandleLineWrites | host/picoswitch_host.py:161-173 | at most one write per line, last, and always the status line with its line end |
| Host.BuildStatusReadBack | host/picoswitch_host.py:122-127 | the device reading `build_status` holds the host's state and its four numbers |
| Host.EmptyPsReportsStopped | host/picoswitch_host.py:56-58 | empty `ps` output reports `stopped`, and a missing meminfo figure reports 0/0 RAM |
| Lcd.Scan | pico/lcd_i2c.py:43-50 | 0x27 if it answered, else 0x3F if it answered, else the first device found; no device exactly when the scan is empty |
| Lcd.NibbleBytes | pico/lcd_i2c.py:52-64 | the three bus bytes of `_write_nibble`; `NibblePulse` and `NibbleKeepsBacklight` give their meaning |
| Lcd.WriteBytes | pico/lcd_i2c.py:66-70 | the six bus bytes of `_write`; `NibbleSplit` and `DecodeOneTransfer` show the byte is carried whole |
| Lcd.NibblePulse | pico/lcd_i2c.py:55-58 | the three bytes of a nibble agree on every pin except EN, which is set only in the second |
| Lcd.NibbleSplit | pico/lcd_i2c.py:66-70 | the upper nibbles of the two bytes recombine to the byte, and both carry the mode bits |
| Lcd.DecodeOneTransfer | pico/lcd_i2c.py:66-76 | the controller latches from the six bytes exactly the command or character that was sent |
| Lcd.EncodeConcat | pico/lcd_i2c.py:101-103 | the bytes of consecutive transfers are the bytes of each, in order |
| Lcd.DecodeEncode | pico/lcd_i2c.py:72-76 | the controller reads back exactly the commands and characters sent, with the backlight on or off |
| Lcd.NibbleKeepsBacklight | pico/lcd_i2c.py:52-64 | each byte of a nibble carries the backlight bit |
| Lcd.TransferKeepsBacklight | pico/lcd_i2c.py:66-70 | each of the six bytes of a transfer carries the backlight bit |
| Lcd.EncodeKeepsBacklight | pico/lcd_i2c.py:52-53 | every bus byte carries the backlight bit |
| Lcd.DataTransfers | pico/lcd_i2c.py:101-103 | one character write, RS set, per character, in order |
| Lcd.DataTransfersStep | pico/lcd_i2c.py:102-103 | one more character adds one character write at the end |
| Lcd.DdramCommand | pico/lcd_i2c.py:97-99 | the `move_to` command byte; `DdramCommandValue` and `RowStarts` give its bits |
| Lcd.DdramCommandValue | pico/lcd_i2c.py:97-99 | the cursor command has bit 0x80 set and holds the row's base address plus the column in its low seven bits |
| Lcd.RowStarts | pico/lcd_i2c.py:26 | column 0 of row 0 is command 0x80, and of row 1 command 0xC0 |
| Lcd.ShowTransfers | pico/lcd_i2c.py:110-115 | the transfers of `show`; `ShowLayout` gives them one by one |
| Lcd.ShowLayout | pico/lcd_i2c.py:110-115 | `show` sends 0x80, `cols` characters of line 1 cut or space-padded, 0xC0, then `cols` characters of line 2 |
| Lcd.ShowBytes | pico/lcd_i2c.py:110-115 | the bytes of `show` are those of its four steps, in order |
| Lcd.InitBytes | pico/lcd_i2c.py:78-91 | the bytes of `_init_display`; `InitSequence` gives their meaning |
| Lcd.InitCommandsBytes | pico/lcd_i2c.py:87-91 | after the 12 nibble bytes, the set-up is the encoding of the four commands |
| Lcd.SetUpSplit | pico/lcd_i2c.py:84-91 | after the 4-bit switch, the four set-up commands follow one after the other |
| Lcd.InitSequence | pico/lcd_i2c.py:78-91 | 36 bytes: nibble 0x30 three times, nibble 0x20, then commands 0x28, 0x0C, 0x01 and 0x06 in that order |
| Lcd.LCD.constructor | pico/lcd_i2c.py:30-41 | the given address, or the scanned one; backlight on; the bus holds exactly the initialisation sequence |
| Lcd.LCD.WriteByte | pico/lcd_i2c.py:52-53 | appends the byte with the backlight bit set |
| Lcd.LCD.PulseEnable | pico/lcd_i2c.py:55-59 | appends the value with EN set, then with EN clear |
| Lcd.LCD.WriteNibble | pico/lcd_i2c.py:61-64 | appends the three bytes of the nibble |
| Lcd.LCD.Write | pico/lcd_i2c.py:66-70 | appends the high nibble, then the low nibble, each with the mode bits |
| Lcd.LCD.Cmd | pico/lcd_i2c.py:72-73 | appends the bytes of a command, RS clear |
| Lcd.LCD.Data | pico/lcd_i2c.py:75-76 | appends the bytes of a character, RS set |
| Lcd.LCD.InitDisplay | pico/lcd_i2c.py:78-91 | appends exactly the initialisation sequence |
| Lcd.LCD.Clear | pico/lcd_i2c.py:93-95 | appends the clear command |
| Lcd.LCD.MoveTo | pico/lcd_i2c.py:97-99 | appends the Set-DDRAM-address command for the position |
| Lcd.LCD.PutStr | pico/lcd_i2c.py:101-103 | appends one character write per character of the text, in order; with a valid backlight the controller reads back exactly those characters |
| Lcd.LCD.Pad | pico/lcd_i2c.py:105-108 | exactly `cols` characters: the text's, then spaces |
| Lcd.LCD.Show | pico/lcd_i2c.py:110-115 | appends exactly the bytes of the `show` layout; with a valid backlight the controller reads back exactly those transfers |
| Lcd.LCD.SetBacklight | pico/lcd_i2c.py:117-119 | backlight becomes 0x08 or 0, and exactly one byte, equal to it, is written; the backlight stays a valid on or off value |
| Device.RoundHalfEven | pico/main.py:77-78 | the nearest whole quotient, the even one on a tie |
| Device.FormatGb | pico/main.py:74-78 | ends in `G`; from 10 GiB on it has no decimal point, and below it has one decimal |
| Device.FormatGbWhole | pico/main.py:76-77 | from 10 GiB on, the digits spell the size rounded to whole GiB, ties to even, and they are at least 10 |
| Device.TenthsText | pico/main.py:78 | `q.d` followed by `G` reads back as `q` units and `d` tenths |
| Device.FormatGbTenths | pico/main.py:78 | below 10 GiB: a minus sign exactly for negative sizes, then the size spelled in tenths of a GiB, rounded to the nearest tenth, ties to even |
| Device.FormatGbHalf | pico/main.py:78 | 512 MiB prints as `0.5G` |
| Device.FormatGbEight | pico/main.py:78 | 8192 MiB prints as `8.0G` |
| Device.FormatGbTwo | pico/main.py:78 | 2048 MiB prints as `2.0G` |
| Device.FormatGbSixteen | pico/main.py:77 | 16384 MiB prints as `16G` |
| Device.FormatGbBelowTen | pico/main.py:78 | 9830 MiB prints as `9.6G` |
| Device.FormatGbRoundsToTen | pico/main.py:76-78 | 10235 MiB, still below 10 GiB, prints as `10.0G` |
| Device.FormatGbAboveTen | pico/main.py:76-77 | 10650 and 10752 MiB print as `10G`, and 11776 MiB as `12G` (ties to even) |
| Device.FormatGbNegative | pico/main.py:78 | -1 MiB prints as `-0.0G` |
| Device.Glyph | pico/main.py:81-91 | the spinner index stays or moves on by one |
| Device.GlyphCases | pico/main.py:81-91 | `U` for running and `D` for stopped; a spinner frame while starting or stopping, with the index up by one and consecutive frames different and the cycle four frames long; `?` otherwise; the index moves only for the spinner |
| Device.Row1 | pico/main.py:95-97 | 16 characters: the VRAM text cut or space-padded to 15, then the glyph |
| Device.RowsExample | pico/main.py:94-98 | a model that is starting, with 512/8192 MiB VRAM and 2048/16384 MiB RAM, shows `VRAM 0.5G/8.0G |` and `RAM  2.0G/16G` |
| Device.SwitchStep | pico/main.py:112-118 | one switch reading; `SwitchStepCases` and `SwitchRunAlternates` give its meaning |
| Device.SwitchStepCases | pico/main.py:112-118 | a command goes out exactly when both readings agree and differ from the remembered level, and the level is then remembered; otherwise nothing changes |
| Device.SwitchRunAlternates | pico/main.py:112-118 | over any run of readings, the reported levels alternate, the first differs from the remembered level, and the last is the one remembered |
| Device.TicksDiff | pico/main.py:121 | the tick difference lies in [-2^29, 2^29) |
| Device.TicksDiffElapsed | pico/main.py:121 | for instants less than half a tick period apart, the tick difference is the elapsed time, across a wrap too |
| Device.Heartbeat | pico/main.py:121-123 | one heartbeat check: `CMD:STATUS` goes out, and `now` is remembered, exactly when at least 2000 ticks have passed by `ticks_diff`; `HeartbeatSpacing` gives the spacing |
| Device.HeartbeatSpacing | pico/main.py:121-123 | status requests go out at least 2000 ticks apart |
| Device.FirstNewline | pico/main.py:44-52 | the index of the first line end, or the length when there is none |
| Device.ReadLine | pico/main.py:41-53 | one `serial_readline` as a value; `ReadLineConserves` and `ReadAllSplit` give its meaning |
| Device.ReadLineConserves | pico/main.py:41-53 | a completed line, its line end and the characters left waiting are exactly the partial line plus the input; without a line end, all input joins the partial line |
| Device.ReadAllSplit | pico/main.py:41-53 | the lines handed over, followed by the partial line kept, are the stream's `split("\n")` |
| Device.StatusLineArrives | pico/main.py:41-71 | a status line from the host arrives whole and sets the shown fields to exactly the host's values |
| Device.Controller.constructor | pico/main.py:19-34 | the initial globals: no switch level, state `unknown`, zero sizes, empty buffers; the display gains exactly the `show` bytes of the greeting `PicoSwitch` / `Connecting...` sent on line 106 |
| Device.Controller.SerialWrite | pico/main.py:37-38 | the output gains the message and a line end |
| Device.Controller.SerialReadLine | pico/main.py:41-53 | the loop takes characters up to and including the first line end; it returns the completed line and empties the buffer, or keeps everything in the buffer when no line end is waiting |
| Device.Controller.ParseStatus | pico/main.py:56-71 | the shown fields become `ApplyStatus` of their old values (see the StatusCodec lemmas) |
| Device.Controller.StateChar | pico/main.py:81-91 | the glyph and the new spinner index are those of `Glyph` |
| Device.Controller.UpdateLcd | pico/main.py:94-102 | the spinner moves as `Glyph` says; the bus gains exactly the redraw of both rows, or nothing when the bus raises |
| Device.Controller.PollSwitch | pico/main.py:112-118 | the remembered level and the output follow `SwitchStep` |
| Device.Controller.PollStatus | pico/main.py:121-123 | the last request time and the output follow `Heartbeat` |
| Device.Controller.PollSerial | pico/main.py:126-129 | with no completed line, nothing shown changes; with one, the fields are parsed from it and the display is redrawn |
| Device.Controller.Tick | pico/main.py:108-131 | one pass: the switch, the heartbeat, then at most one received line with its parse and redraw, each as stated above |

## Left out

- Subprocess calls (`ps`, `nvidia-smi`, `compose up/down`), the
  /proc/meminfo read and `glob` are left out. Their results are parameters:
  the `ps` and `nvidia-smi` output, or `None` when the call raised, the
  two kB figures, and the candidate device names. Starting and stopping
  the server are `StartServer` and `StopServer` actions. The choice
  between podman and docker, and the compose command line, are not
  modelled.
- The `MemTotal`/`MemAvailable` regular expressions are left out;
  `RamUsage` takes the two numbers they find, or `None`.
- `argparse`, the compose-file check, opening the serial port, the
  `print` logging, `KeyboardInterrupt` and the endless `while True` loops
  are left out. One pass of each loop is modelled: `HandleLine` and
  `Controller.Tick`.
- The host's `readline().decode(...)` is left out. `HandleLine` receives
  the decoded text.
- Delays (`sleep_ms`, `sleep_us`) are left out. The switch is read twice
  per pass, and the two readings are parameters of `Tick`.
- Hardware access (`Pin`, `I2C`, `select.poll`, `sys.stdin`) is left out.
  The serial input is the `Controller.input` field, which `Receive` extends
  in place of the host. The output is the `Controller.output` field. The
  I2C bus is the `LCD.bus` byte log.
- Bytes that reach the bus before an `OSError` are not modelled. A failed
  display write is the `written = false` case of `UpdateLcd`: no byte is
  logged and the error is swallowed.
- `sys.stdin.read(1)` returning `None` is not modelled. While the port
  reports input, a character is always available.
- Lcd.LCD.constructor: the scan's `OSError` on an empty bus is a
  precondition (an address is given or some device answered). `Scan`
  itself models the error path as `None`.
- Lcd.LCD.MoveTo: a row outside `LINE_ADDRS` raises `IndexError` in
  Python. Here it is a precondition that no caller violates.
- Decimal.ParseInt: Python's `int()` and `float()` also accept surrounding
  white space, underscores, exponents, `inf` and `nan`. The model reads only
  an optional sign followed by ASCII digits.
- Device.FormatGb: a negative zero from a float `-0.0` is not modelled.
  Sizes are integers, so `-0.0G` appears only for small negative sizes.
- Device.FormatGb: the device's single-precision floats hold whole MiB
  exactly only below 2^24 MiB (16 TiB). Larger sizes would lose precision
  on the device; the model keeps them exact.
- Device.FormatGb: MicroPython's float formatting may break ties
  differently from CPython's round-half-to-even, which the model follows.
- Text.Lower: only ASCII letters are lower-cased. Non-ASCII case folding
  is not modelled.
- Host.HandleLine: the daemon's `decode` uses `errors="ignore"`, which
  drops invalid bytes. The model starts from the decoded text.
