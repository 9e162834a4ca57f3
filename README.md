# 8051 debugger monitor: a Dafny model

This project models the core of a UART (serial-line) debug monitor for 8051 development boards. It has three parts, one Dafny module for each C file:

- **`CodeMemory`** models `Memory_Interpretation_SDCC/src/code_memory.c`:
  - the hex digit conversions;
  - the CR-terminated hex line editor `parse_user_input`, with its five-entry digit buffer;
  - the zero-padded formatter `print_hex_number`;
  - the 16-bytes-per-row code memory dump and its prompts.
- **`XramMemory`** models `Memory_Interpretation_SDCC/src/xram_memory.c`:
  - erasing the lower 32 KiB of external RAM (XRAM);
  - single-byte read and write;
  - the validated range fill `write_memory`;
  - the validated range dump `read_memory`.

  XRAM is a 64 KiB byte array changed in place.
- **`SingleStep`** models `Single_Step_Keil_Compiler/cone.c`. Its globals are the fields of the class `Monitor`:
  - the four-slot address entry with backspace, `get_user_address`;
  - the INT1 handler: it reads the register frame below the captured stack pointer, reports the PC, gates the display on `FL` and runs the exit/continue key loop;
  - the P3.3 launch guard `jump_to_user_code`.

The serial line appears as plain strings:

- Keyboard input is a `seq<char>` that the model consumes from the front.
- Serial output is a string, either returned by a method or appended to the field `Monitor.output`.
- A `getchar` that would wait forever on exhausted input becomes a precondition: the keys must contain the whole entry.

`unsigned int` is 16 bits wide under both SDCC and Keil C51, so all 16-bit arithmetic takes its result modulo 2^16. `printf("%04X")` and `printf("%02X")` are rendered by `HexText(x, 4)` and `HexText(x, 2)`. These are the same zero-padded upper-case renderings that `print_hex_number` produces.

Three source defects are modelled as preconditions:

- A sixth live digit in `parse_user_input` would overrun `digits[5]`. `HasLine` requires that at most five digits are live at any point.
- A range whose end is 0xFFFF never ends, because the 16-bit loop counter wraps around. Every range loop requires `endAddress < 0xFFFF`.
- A backspace in slot 0 of `get_user_address` would make the next key land at `hex_string[-1]`. `HasAddressEntry` excludes it.

Three behaviours of the code are easy to misread, and the model follows the code in each:

- **Displayed SP.** The handler decrements its cursor fifteen times, so the displayed SP is the captured SP minus 15.
- **Exit key.** Only upper-case `'E'` ends single-stepping; `'e'` is dropped like any other key.
- **Erasing in `get_user_address`.** A backspace there is not bounded at slot 0.

## Model

| member | source | states |
|---|---|---|
| CodeMemory.IntToChar | Memory_Interpretation_SDCC/src/code_memory.c:48-54 | every result is an upper-case hex digit; a value outside 0-15 gives '0' |
| CodeMemory.CharToInt | Memory_Interpretation_SDCC/src/code_memory.c:56-64 | every result is in 0-15; a character that is not a hex digit gives 0 |
| CodeMemory.DigitTables | Memory_Interpretation_SDCC/src/code_memory.c:48-64 | `int_to_char` maps n in 0-15 to the n-th of "0123456789ABCDEF"; `char_to_int` maps the n-th upper- and lower-case digit back to n |
| CodeMemory.CharIntRoundTrip | Memory_Interpretation_SDCC/src/code_memory.c:48-64 | for 0 <= n <= 15, `char_to_int(int_to_char(n)) == n` |
| CodeMemory.LineLength | Memory_Interpretation_SDCC/src/code_memory.c:72-85 | the editor stops at the first carriage return: the typed line is everything before it |
| CodeMemory.ParseUserInput | Memory_Interpretation_SDCC/src/code_memory.c:66-91 | the result is the 16-bit fold over the digits that survive editing the keys up to the first CR; the echo is the editor's echo; the keys after the CR remain |
| CodeMemory.TakeKey | Memory_Interpretation_SDCC/src/code_memory.c:74-84 | a hex key is appended and echoed; a backspace with live digits echoes "\b \b" and drops the last digit; any other key, and a backspace on an empty buffer, changes nothing and echoes nothing |
| CodeMemory.FoldDigits | Memory_Interpretation_SDCC/src/code_memory.c:87-90 | `number = number * base + digits[i]` over the live digits in 16-bit arithmetic |
| CodeMemory.AccumulateIsValueMod | Memory_Interpretation_SDCC/src/code_memory.c:87-90 | the 16-bit fold equals the unbounded base-`base` value of the digits modulo 2^16 |
| CodeMemory.SmallValueKept | Memory_Interpretation_SDCC/src/code_memory.c:87-90 | digits whose value fits in 16 bits are read without loss |
| CodeMemory.EmptyLineIsZero | Memory_Interpretation_SDCC/src/code_memory.c:66-91 | a line with no surviving digits yields 0 |
| CodeMemory.FitsBelow | Memory_Interpretation_SDCC/src/code_memory.c:78 | a line that never holds more than five live digits has held at most five at every earlier key |
| CodeMemory.PrintHexNumber | Memory_Interpretation_SDCC/src/code_memory.c:93-109 | the output is `width - k` zeros (none if k >= width) followed by the k hex digits of `num`, most significant first |
| CodeMemory.HexDigitsAreHex | Memory_Interpretation_SDCC/src/code_memory.c:93-98 | every digit emitted is an upper-case hex digit |
| CodeMemory.HexDigitsCount | Memory_Interpretation_SDCC/src/code_memory.c:93-98 | the digit count k is minimal: `num < 16^k`, and `16^(k-1) <= num` when k > 1 |
| CodeMemory.HexDigitsAt | Memory_Interpretation_SDCC/src/code_memory.c:95-98 | the k-th digit from the right is `int_to_char` of the k-th nibble of `num`, which `ShiftIsDivision` shows is `(num / 16^k) % 16` |
| CodeMemory.ShiftIsDivision | Memory_Interpretation_SDCC/src/code_memory.c:95-97 | dropping k hex digits, as the repeated `num /= 16` does, gives `num / 16^k` |
| CodeMemory.HexTextLength | Memory_Interpretation_SDCC/src/code_memory.c:93-109 | the output has max(width, k) characters |
| CodeMemory.HexDigitsValue | Memory_Interpretation_SDCC/src/code_memory.c:93-109 | reading the digits back with `char_to_int` gives `num` |
| CodeMemory.HexTextReadBack | Memory_Interpretation_SDCC/src/code_memory.c:93-109 | reading the whole padded output back gives `num`: the leading zeros add nothing |
| CodeMemory.ParseReadsPrintedHex | Memory_Interpretation_SDCC/src/code_memory.c:66-109 | typing what `print_hex_number` printed for a 16-bit value, at most five characters, then CR, makes `parse_user_input` return that value |
| CodeMemory.PrintCell | Memory_Interpretation_SDCC/src/code_memory.c:148-158 | one pass of the dump loop: an optional row header (newline, return, four-digit address, ": "), then the byte in two digits and two spaces |
| CodeMemory.CodeMemoryRead | Memory_Interpretation_SDCC/src/code_memory.c:140-167 | the output is one cell per address from start to end, a row header before every 16th cell counted from the first, then "\r\n"; an empty range gives only "\r\n" |
| CodeMemory.ByteCounterRow | Memory_Interpretation_SDCC/src/code_memory.c:143-160 | the `count` byte wraps at 256, but since 16 divides 256 it still marks every 16th offset |
| CodeMemory.DumpSnoc | Memory_Interpretation_SDCC/src/code_memory.c:144-161 | one more byte adds exactly one more cell at the end of the dump |
| CodeMemory.CellLength | Memory_Interpretation_SDCC/src/code_memory.c:148-158 | every cell is 4 characters long, plus the header's length when it starts a row |
| CodeMemory.DumpLength | Memory_Interpretation_SDCC/src/code_memory.c:140-167 | a dump of n bytes has 4n characters plus one row header per started row of 16 |
| CodeMemory.DumpSplit | Memory_Interpretation_SDCC/src/code_memory.c:140-167 | rows are independent: a dump splits after any whole number of rows |
| CodeMemory.AddressGuardsNeverReject | Memory_Interpretation_SDCC/src/code_memory.c:118-130 | the checks `address < 0x0000` are false for every 16-bit value |
| CodeMemory.ReadCodeMemory | Memory_Interpretation_SDCC/src/code_memory.c:110-138 | prompts, the two echoed entries, the banner, header, dump and footer; every range is dumped, one with end < start included |
| XramMemory.XramRead | Memory_Interpretation_SDCC/src/xram_memory.c:54-57 | the byte stored at `address`; `XramWrite` and `InitializeXram` state what it reads after them |
| XramMemory.XramWrite | Memory_Interpretation_SDCC/src/xram_memory.c:49-57 | `xram_read(a)` after `xram_write(a, d)` is d, and no other address changes |
| XramMemory.InitializeXram | Memory_Interpretation_SDCC/src/xram_memory.c:41-47 | every address 0x0000-0x7FFF holds 0xFF afterwards; the upper half is unchanged |
| XramMemory.MemoryRead | Memory_Interpretation_SDCC/src/xram_memory.c:120-132 | XRAM is only read; the output is one two-digit cell per address from start to end, with a row header whenever the offset is a multiple of 16, then "\r\n" |
| XramMemory.FillRange | Memory_Interpretation_SDCC/src/xram_memory.c:84-90 | every address in [start, end] holds `data` afterwards, every other address is unchanged, and the printed rows are the dump of end - start + 1 copies of `data` |
| XramMemory.WriteMemory | Memory_Interpretation_SDCC/src/xram_memory.c:59-95 | with end < start only the error is printed and XRAM is unchanged; otherwise the third entry truncated to 8 bits fills [start, end], nothing else changes, and the report ends with the confirmation line; `ADDRESS_MAX` is not enforced |
| XramMemory.FilledRangeReadsBack | Memory_Interpretation_SDCC/src/xram_memory.c:84-90 | after a fill, the range reads back as the fill, so `read_memory` prints the rows `write_memory` printed |
| XramMemory.ReadMemory | Memory_Interpretation_SDCC/src/xram_memory.c:97-118 | with end < start only the error is printed; otherwise the banner, header, dump of [start, end] and footer |
| SingleStep.EntryStep | Single_Step_Keil_Compiler/cone.c:113-124 | while fewer than four slots are filled, the next key fills a slot and is echoed, or is a backspace that echoes "\b \b" and gives up a filled slot |
| SingleStep.EntryDone | Single_Step_Keil_Compiler/cone.c:113 | the entry loop ends exactly when all four slots are filled |
| SingleStep.EraseUndoesKey | Single_Step_Keil_Compiler/cone.c:115-122 | a character followed by a backspace leaves the slots as they were, so the next character overwrites the erased slot |
| SingleStep.PlainEntry | Single_Step_Keil_Compiler/cone.c:113-141 | four keys without a backspace are the entry, echoed as typed, and the address is their base-16 value, most significant first |
| SingleStep.StaleAddressShiftedOut | Single_Step_Keil_Compiler/cone.c:128-141 | four 4-bit shifts in 16 bits push out every bit of the stale global `address`, so the result depends on the four characters alone |
| SingleStep.Monitor.constructor | Single_Step_Keil_Compiler/cone.c:42-56 | the globals start at zero and nothing has been sent |
| SingleStep.Monitor.TakeAddressKey | Single_Step_Keil_Compiler/cone.c:114-123 | one pass of the entry loop: a backspace steps the slot index back by one and echoes "\b \b"; any other key is stored in the current slot and echoed |
| SingleStep.Monitor.ReadEntry | Single_Step_Keil_Compiler/cone.c:113-124 | `hex_string[0..3]` ends up holding the entered text, every key is echoed by its rule, and exactly the entry's keys are consumed |
| SingleStep.Monitor.TakeEntry | Single_Step_Keil_Compiler/cone.c:113-124 | the same loop over a given key sequence: the buffer holds the entered text, the echo is the keys' echoes, and what is left is the keys after the entry |
| SingleStep.ShiftInOne | Single_Step_Keil_Compiler/cone.c:129-139 | one more character shifts its `char_to_int` value in as the new low nibble, in 16 bits |
| SingleStep.Monitor.ShiftInDigits | Single_Step_Keil_Compiler/cone.c:128-140 | `address = (address << 4) \| digit` over the four stored characters, each digit decoded as `char_to_int` decodes it, in 16 bits, starting from the stale value |
| SingleStep.Monitor.GetUserAddress | Single_Step_Keil_Compiler/cone.c:108-142 | sets `flagy`, prints the prompt and the echo, stores the entry and a terminating NUL, and returns the four-digit value, which is also left in `address` |
| SingleStep.ExtractFrame | Single_Step_Keil_Compiler/cone.c:185-222 | the descending cursor reads R7..R0 from s..s-7, then PSW, DPL, DPH, B, ACC, PCH and PCL from s-8..s-14; the displayed SP is (s - 15) mod 256 |
| SingleStep.PcBelow | Single_Step_Keil_Compiler/cone.c:207-219 | the PC `lastpc` takes, `(pc_high << 8) \| pc_low`, is read from s-13 and s-14, as in the extracted frame |
| SingleStep.WordSplits | Single_Step_Keil_Compiler/cone.c:195-199 | `dpl \| (dph << 8)` and `(pc_high << 8) \| pc_low` keep both bytes: the high byte is the quotient by 256 and the low byte the remainder |
| SingleStep.StopIndex | Single_Step_Keil_Compiler/cone.c:257-273 | the key loop stops at the first 'E' or CR, and every earlier key is neither |
| SingleStep.Monitor.AwaitKey | Single_Step_Keil_Compiler/cone.c:257-273 | keys before the first 'E' or CR are dropped without an echo; 'E' echoes "\n\r" and the rule and clears EX1 and EA; CR echoes "\n\n\r" and leaves them armed |
| SingleStep.RegisterLine | Single_Step_Keil_Compiler/cone.c:226-254 | the fields in the header's order ACC B PSW DPTR R0..R7 SP PC with the source's gaps, each byte in two digits and each word in four, so the line is 46 characters whatever the registers hold; the digit widths are idealised (see `SingleStep.RegisterLine` under Left out) |
| SingleStep.StepControl | Single_Step_Keil_Compiler/cone.c:213-277 | after an interrupt that captures `pc`: `flagy` is clear, `lastpc` is `pc`, and `FL` is set exactly when it was set before or `pc` is `user_address`, so it is never cleared |
| SingleStep.Monitor.Step | Single_Step_Keil_Compiler/cone.c:176-279 | the frame is the one below `s`; the reported PC is `user_address` right after an entry and the previous `lastpc` otherwise; `flagy`, `lastpc` and `FL` change as `StepControl` says; with `FL` clear before the interrupt nothing is printed or read; with it set, the header and register line are printed and the key loop runs |
| SingleStep.StopKeyConsumed | Single_Step_Keil_Compiler/cone.c:257-273 | a key wait that has a stop key ahead consumes exactly one stop key, the one it ends on |
| SingleStep.Monitor.Run | Single_Step_Keil_Compiler/cone.c:176-279 | running the handler once per captured stack pointer, given as many stop keys as the run has key waits (`Waits` of the captures: one per interrupt entered with `FL` set), captures the PCs below each, leaves the controller at `RunControl` of the captures, returns the reported PCs `ReportedPcs` of the captures, and consumes exactly `Waits` stop keys |
| SingleStep.WaitsWhenArmed | Single_Step_Keil_Compiler/cone.c:224-273 | once `FL` is set, every interrupt of a run prints the registers and waits for a key |
| SingleStep.WaitsAfterEntry | Single_Step_Keil_Compiler/cone.c:224-277 | with `FL` clear, if the `i`-th capture is the first one equal to `user_address`, the run waits once for each of the captures after it, and for no other |
| SingleStep.NoWaitsBeforeEntry | Single_Step_Keil_Compiler/cone.c:224-277 | with `FL` clear and `user_address` never captured, a run waits for no key |
| SingleStep.ReportsLagByOne | Single_Step_Keil_Compiler/cone.c:213-219 | over a run of interrupts, the reported PCs are the first report followed by the captured PCs delayed by one |
| SingleStep.ReportsAfterEntry | Single_Step_Keil_Compiler/cone.c:213-219 | after an address entry, the reports are `user_address` followed by every capture but the last |
| SingleStep.ExecutedFlagIffSeen | Single_Step_Keil_Compiler/cone.c:275-277 | over a run, `FL` ends set exactly when it was set before or some interrupt captured `user_address`; a non-empty run leaves `flagy` clear and the last capture in `lastpc` |
| SingleStep.Monitor.JumpToUserCode | Single_Step_Keil_Compiler/cone.c:152-165 | with P3 bit 0x08 set, only the diagnostic is sent, no key is read and IT1, EX1, EA are untouched; with it clear, the address is entered, IT1 is cleared and EX1, EA are set, and the call to that address is issued |

## Left out

- UART primitives (`uart_init`, `trans`, `typeit`, `getchar`, `putchar`, `trans_string`) are busy-waits on TI, RI and SBUF. They are replaced by an input sequence and an output string, and a read that would block forever becomes a precondition.
- The menus and help texts (`main` and `help` in cone.c, the memory editor's main.c) are dispatch glue and are not modelled.
- Calls through function pointers (`user_code()`, `jump`, `hex`) run code that is not part of this model. `JumpToUserCode` records the call it would issue as `CallUserCode(address)`. `jump` (cone.c:324-328) is `get_user_address` followed by such a call; its address entry is `GetUserAddress` and the call is not modelled.
- The settle delay at the start of the handler (cone.c:178-180) only takes time. `TI = 1` and the other SFR side effects are not modelled. IT1, EX1 and EA are booleans, and P3 is a parameter.
- Real interrupt entry and concurrency are left out. Each handler run is a call `Step(mem, s)` over a given internal-RAM image and captured SP, and `Run` chains such calls over a list of images and stack pointers; what user code does between two interrupts is not modelled. Interrupt delivery is not gated on EX1 and EA either, so `Run` keeps stepping after an 'E' has disabled INT1, where the real board would stop interrupting.
- SingleStep.Monitor.Run: states the captures, the reports, the controller state and the number of stop keys consumed, but not the text printed, the exact keys consumed or EX1 and EA; `SingleStep.Monitor.Step` states those for each interrupt.
- `flagy` and `FL` are `unsigned int` in the source; the code only ever gives them 0 or 1, and they are modelled as booleans.
- SingleStep.ExtractFrame: the cursor is a pointer into internal RAM. It is modelled as an integer whose low byte addresses the 256-byte image, so reads below address 0 wrap to the top.
- SingleStep.RegisterLine: the exact characters of the register line are not modelled, and `SingleStep.Monitor.Step` prints this idealised line. The Keil `sprintf` reads un-promoted `unsigned char` arguments, and the code prints chars 0-1 of ACC and B but chars 2-3 of PSW. `RegisterLine` keeps the field order ACC B PSW DPTR R0..R7 SP PC and the spacing, but shows each byte in two hex digits and each word in four.
- SingleStep.Monitor.GetUserAddress: requires that no backspace arrives while slot 0 is current. The source then writes `hex_string[-1]`, which is outside the buffer.
- CodeMemory.ParseUserInput: requires that at most five digits are live at any point, because a sixth writes `digits[5]`, past the buffer.
- CodeMemory.CodeMemoryRead, XramMemory.MemoryRead, XramMemory.FillRange: require an end address below 0xFFFF, because with 0xFFFF the 16-bit loop counter wraps and the loop never ends.
- XramMemory.XramWrite and XramMemory.InitializeXram act on a `u8` array that stands for the `__xdata` space; `__code` memory is a given byte sequence. No physical memory is accessed.
- Keys are Dafny characters, any Unicode scalar value. `getchar` delivers 8-bit values and `parse_user_input` keeps them in an `unsigned char`, so the source would truncate a key above 0xFF to its low byte, which the model does not do; with 8-bit keys the two agree.
- The headers `code_memory.h` and `xram_memory.h` hold declarations only.
