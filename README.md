# Coweeta data logger library, modelled in Dafny

This project models the firmware library of the Coweeta field data logger, an Arduino board that records sensor readings to CSV files on an SD card. It covers these parts:

- **CommandParser** reads the command lines the management software sends. The module is CommandParserSpec, with lemmas in CommandParserLemmas and the class in CommandParsing.
- **CharStream** is the fixed-capacity buffer in which a CSV line is assembled (module CharStreams).
- **FileTransfer** streams a file over the serial line as framed, escaped lines (module FileTransfers).
- **The scheduler and state machine** of `DataLogger`:
  - next due times and the earliest time over the enabled events (Scheduling);
  - the 16-bit event masks (EventMasks);
  - the logger itself: waiting, the commands, building and routing log lines (Logging).
- **Log file names**: `build_filename` (Utils), and in `junk.cpp` `get_next_file_number`, the name `set_log_file` opens, and `get_int` (Junk).

The target is an 8-bit AVR, where `int` is 16 bits and `long` 32 bits. Module Machine gives the fixed-width integer types, their wrap-around conversions, and C's truncating division. Every conversion the source performs is written out with these. `char` is signed on the AVR, and the command parser follows that. The file transfer does not: its escape treats each byte as unsigned, which is the corrected behaviour of the third row under "## Findings". `FileTransfers.HighByteNibblesNegative` shows what the signed `char` of the code gives instead.

Each stateful part of the source is a class:

- The command parser is a `CommandParser` class over the caller's `array<char>`. Each method is proved to follow a pure function over a snapshot of the parser's state.
- The line buffer is a `CharStream` over a byte array.
- The statics of `data_logger.cpp` are the fields of one `DataLogger` object.

The clock, the serial line and the SD card are inputs:

- each pass of the waiting loop reads a `Tick` (the clock reading and the command waiting, if any);
- a command carries the integers the following `Serial.parseInt()` calls return;
- the card is a set of file names or a map from names to contents;
- what goes out on the serial line or into a file is a growing sequence of bytes.

An event mask is a `uint16_t` in which bit i stands for event i. Here it is the set of its set bits, a subset of 0..15. `Bits(w)` is the mask a word holds and `Word(m)` the word that holds a mask; `WordOfMask` and `BitsOfWord` prove them inverse. The C operations are defined on the numbers, digit by binary digit (`Or`, `And`, `AndNot`), and proved to be the set operations:

- `a | b` is `a + b` (`OrIsUnion`) and `a & ~b` is `a - b` (`AndNotIsDifference`);
- `a & b` is `a * b`, nonzero exactly when that set is nonempty (`AndIsMeet`);
- `mask <<= 1` is `ShiftLeft`;
- `1 << i` is `Bit(i)` below 16 (`PowerIsBit`); `Bit(i)` is empty from 16 up;
- a number read from the serial line becomes a mask through `Bits`.

## Model

| member | source | states |
|---|---|---|
| CommandParserSpec.Code | library/command_parser.h:4-13 | the code byte is 0 exactly for NONE |
| CommandParserSpec.SkipSpaces | library/command_parser.cpp:14-19 | the result is the first non-space at or after the cursor, never past `size_`, with only spaces skipped |
| CommandParserSpec.WordEnd | library/command_parser.cpp:118-120 | the word scan stops at the first space, at the latest at the sentinel |
| CommandParserSpec.Init | library/command_parser.cpp:71-95 | the constructor's outcome is a sound parser state: the sentinel is in place whenever no error is set |
| CommandParserSpec.Prepare | library/command_parser.cpp:53-67 | no fault means no error and the cursor is before `size_`; buffer and size are unchanged |
| CommandParserSpec.GetChar | library/command_parser.cpp:101-108 | keeps the parser sound |
| CommandParserSpec.GetBlob | library/command_parser.cpp:111-123 | keeps the parser sound; the word ends at a space that becomes '\0' |
| CommandParserSpec.GetString | library/command_parser.cpp:126-136 | keeps the parser sound; the rest of the line is taken and the cursor moves to the end |
| CommandParserSpec.ScanDigits | library/command_parser.cpp:24-51 | the scan advances, stops by the sentinel, and sets only NON_DIGIT or OVERFLOW, returning 0 on a fault |
| CommandParserSpec.GetInt | library/command_parser.cpp:24-51 | get_int keeps the parser sound and does not touch buffer or size |
| CommandParserSpec.GetUint32 | library/command_parser.cpp:139-155 | keeps the parser sound |
| CommandParserSpec.NegativeLimit | library/command_parser.cpp:172 | `uint32_t(-(min + 10)) + 10` is exactly -min for every min <= 0 |
| CommandParserSpec.Magnitude | library/command_parser.cpp:172 | the magnitude of a negative max, computed without leaving int32_t |
| CommandParserSpec.Negated | library/command_parser.cpp:176 | the negation of a magnitude up to 2^31, computed without leaving int32_t |
| CommandParserSpec.SignedTail | library/command_parser.cpp:168-186 | keeps the parser sound after the sign |
| CommandParserSpec.GetInt32 | library/command_parser.cpp:162-187 | keeps the parser sound |
| CommandParsing.CommandParser.constructor | library/command_parser.cpp:71-95 | the state after construction is `Init` of the caller's line, modified in place |
| CommandParsing.CommandParser.Error | library/command_parser.h:41-44 | returns the stored code and reads nothing else |
| CommandParsing.CommandParser.Peek | library/command_parser.cpp:8-10 | returns the byte under the cursor |
| CommandParsing.CommandParser.SkipSpaces | library/command_parser.cpp:14-19 | the cursor ends where `SkipSpaces` says |
| CommandParsing.CommandParser.Prepare | library/command_parser.cpp:53-67 | state and result are those of the spec function |
| CommandParsing.CommandParser.GetInt | library/command_parser.cpp:24-51 | the loop with the source's wrap-free overflow tests computes the spec's scan |
| CommandParsing.CommandParser.GetChar | library/command_parser.cpp:101-108 | state and result are those of the spec function |
| CommandParsing.CommandParser.GetBlob | library/command_parser.cpp:111-123 | state, word and in-place '\0' are those of the spec function |
| CommandParsing.CommandParser.GetString | library/command_parser.cpp:126-136 | state and text are those of the spec function |
| CommandParsing.CommandParser.GetUint32 | library/command_parser.cpp:139-155 | state and result are those of the spec function; the defaults accept 0..0xFFFFFFFF |
| CommandParsing.CommandParser.GetInt32 | library/command_parser.cpp:162-187 | state and result are those of the spec function; the defaults accept the whole int32_t range |
| CommandParsing.CommandParser.GetMagnitude | library/command_parser.cpp:168-186 | the signed tail: scan, then range test |
| CommandParsing.AppendDigit | library/command_parser.cpp:36-46 | the source's two tests report overflow exactly when `val * 10 + digit` exceeds 0xFFFFFFFF, and otherwise give that value |
| CommandParserLemmas.ScanToken | library/command_parser.cpp:24-51 | a digit token that fits, followed by a space, is read whole and the cursor lands just past the space |
| CommandParserLemmas.ScanOverflow | library/command_parser.cpp:36-45 | digits whose value exceeds 0xFFFFFFFF give OVERFLOW and 0, before any wrap |
| CommandParserLemmas.ScanNonDigit | library/command_parser.cpp:27-32 | a non-digit, including a leading space, gives NON_DIGIT and 0 |
| CommandParserLemmas.ScanSound | library/command_parser.cpp:24-51 | a successful scan has read a nonempty run of digits ending in a space and returned their value |
| CommandParserLemmas.ScanExact | library/command_parser.cpp:24-51 | get_int succeeds exactly when the token up to the next space is digits whose value fits, and then returns that value |
| CommandParserLemmas.DecimalStringValue | library/command_parser.cpp:34-46 | the decimal text of v reads back as v |
| CommandParserLemmas.UnsignedLine | library/command_parser.cpp:139-155 | "%u\n" of any value parses back to it when in [min, max], else RANGE and 0 (the cases of test/command_parser_test.cpp:79-85) |
| CommandParserLemmas.SignedLine | library/command_parser.cpp:162-187 | "%d\n" of any value, -2^31 included, parses back to it when in [min, max], else RANGE and 0 (test/command_parser_test.cpp:87-100) |
| CommandParserLemmas.OverflowLine | library/command_parser.cpp:36-45 | an all-digit line over 0xFFFFFFFF is refused with OVERFLOW and 0, never a wrapped value |
| CommandParserLemmas.SignedRangeExact | library/command_parser.cpp:172-184 | both rejection tests accept exactly [min, max]; after a digit fault RANGE replaces it exactly when min > 0 or max < 0 |
| CommandParserLemmas.InitOutcome | library/command_parser.cpp:71-95 | BAD_TERM iff no final '\n'; EMPTY iff only spaces precede it; otherwise the sentinel replaces '\n', the rest is untouched and the cursor is on a non-space |
| CommandParserLemmas.ErrorsAreSticky | library/command_parser.cpp:53-67 | after an error every extractor returns its default and changes nothing; MISSING when the cursor is at or past the end after the optional skip |
| CommandParserLemmas.CodesDistinct | library/command_parser.h:4-13 | the error codes are pairwise distinct and only NONE is 0 |
| CommandParserLemmas.TerminatorIndexAsWritten | library/command_parser.cpp:79 | `size_ - 1` on uint8_t is size - 1 for a nonempty line |
| CommandParserLemmas.EmptyLineReadsOutside | library/command_parser.cpp:79-81 | for an empty line the source reads index 255 |
| CommandParserLemmas.NegateAsWritten | library/command_parser.cpp:176 | `-int32_t(val)` is -val below 2^31 |
| CommandParserLemmas.MagnitudeAsWritten | library/command_parser.cpp:172 | `-max` taken on int32_t stays in int32_t exactly when max is not -2^31, and is positive for a negative max |
| CommandParserLemmas.NegationsOverflowAtMin | library/command_parser.cpp:172-176 | at -2^31 both negations leave int32_t |
| CharStreams.CharStream.constructor | library/char_stream.cpp:3-8 | the stream starts empty over the caller's buffer with the given capacity |
| CharStreams.CharStream.WriteBytes | library/char_stream.cpp:11-21 | accepts min(n, room) bytes, appends exactly that prefix, leaves the rest of the buffer, sets the error flag when a byte did not fit |
| CharStreams.CharStream.WriteByte | library/char_stream.cpp:24-32 | a full stream returns 0, keeps its contents and sets the error flag; otherwise it appends the byte and returns 1 |
| CharStreams.CharStream.Reset | library/char_stream.h:15-18 | empties the line; the error flag and the bytes stay |
| CharStreams.CharStream.Dump | library/char_stream.h:20-23 | hands over exactly the bytes written since the reset |
| CharStreams.CharStream.BytesWritten | library/char_stream.h:25-28 | the number of bytes written since the reset |
| CharStreams.CharStream.WriteLine | library/char_stream.h:15-28 | reset, writes, dump: the concatenation of the writes when it fits, else its first `size` bytes and the error flag |
| CharStreams.ConcatSnoc | library/char_stream.cpp:11-21 | successive writes concatenate |
| FileTransfers.HexDigit | library/file_transfer.cpp:50-51 | the digit `Print(d, HEX)` sends is printable and never '\' |
| FileTransfers.HexRoundTrip | library/file_transfer.cpp:50-51 | each of the sixteen digits decodes back to its value |
| FileTransfers.EscapeShape | library/file_transfer.cpp:47-56 | printable bytes other than '\' are sent as themselves, every other byte as three printable bytes |
| FileTransfers.UnescapeOne | library/file_transfer.cpp:47-56 | decoding undoes the escape of one byte |
| FileTransfers.LineProgress | library/file_transfer.cpp:30-62 | each call consumes at least one byte or reaches the end of the file, where it finishes |
| FileTransfers.LineLength | library/file_transfer.cpp:52-60 | a line holds at most 203 escaped bytes and is cut exactly when the count passes 200 |
| FileTransfers.LinePrintable | library/file_transfer.cpp:39-56 | the payload is printable; a file newline is consumed only as the last byte |
| FileTransfers.LineRoundTrip | library/file_transfer.cpp:47-56 | decoding a line's payload gives back exactly the bytes the call consumed, without the newline |
| FileTransfers.FileTransfer.constructor | library/file_transfer.cpp:7-16 | finished exactly when the file did not open |
| FileTransfers.FileTransfer.Close | library/file_transfer.cpp:18-23 | the file is closed |
| FileTransfers.FileTransfer.FileSize | library/file_transfer.h:18-21 | the file's size, never below the read position |
| FileTransfers.FileTransfer.Finished | library/file_transfer.h:23-26 | returns the finished flag |
| FileTransfers.FileTransfer.TransferLine | library/file_transfer.cpp:25-63 | sends the framed line, advances past what it consumed, and sets finished (never clears it) |
| FileTransfers.SendLine | library/file_transfer.cpp:25-63 | the loop sends ' ', the escaped bytes and the line's terminator, and stops where the line ends |
| FileTransfers.Prefixed | library/file_transfer.cpp:47-56 | prefixing keeps the ending and the read position |
| FileTransfers.SignedChar | library/file_transfer.cpp:38 | `const char ch` is the signed 8-bit value congruent to the byte modulo 256 |
| FileTransfers.HighByteNibblesNegative | library/file_transfer.cpp:50-51 | for bytes from 0x80 up a nibble handed to `Print(int, HEX)` is negative |
| FileTransfers.UnsignedNibbles | library/file_transfer.cpp:50-51 | read as unsigned, the two nibbles are the byte's two hex digits, as `Escape` sends; below 0x80 this is what the source computes |
| Scheduling.CategoryCode | library/data_logger.h:9-12 | Normal is 'n' and Disabled is 'd' |
| Scheduling.Event | library/data_logger.h:126-129 | offset 0 and category Normal by default, explicit arguments copied |
| Scheduling.HMS | library/data_logger.h:135-138 | on 16-bit `int` the result is h*3600 + m*60 + s modulo 2^16, and equal to it when that fits |
| Scheduling.NextTimeForEvent | library/data_logger.cpp:42-48 | the next time, computed with the source's conversions |
| Scheduling.NextTimeOnGrid | library/data_logger.cpp:42-48 | for a positive interval and no wrap: now < t <= now + interval and t lies on the event's grid |
| Scheduling.NextTimeExact | library/data_logger.cpp:46 | without wrap the source's conversions give `((now - offset) / interval + 1) * interval + offset` |
| Scheduling.EarliestIsMinimum | library/data_logger.cpp:56-61 | the next time is at most every enabled event's candidate and, unless 0xFFFFFFFF, equal to one of them |
| Scheduling.DueMaskBits | library/data_logger.cpp:57-64 | an event is triggered exactly when it is enabled, within the schedule and due at the next time (ties fire together) |
| Scheduling.NoneEnabled | library/data_logger.cpp:53-57 | with nothing enabled the next time is 0xFFFFFFFF and nothing is triggered |
| Scheduling.DueMaskWithinEnabled | library/data_logger.cpp:57-64 | the triggered events are among the enabled ones |
| Scheduling.SomethingDue | library/data_logger.cpp:56-64 | unless the next time is 0xFFFFFFFF some event is triggered |
| Scheduling.EarliestStep | library/data_logger.cpp:57-64 | one iteration: a disabled or later event changes nothing, an earlier one replaces next time and mask, an equal one joins the mask |
| Scheduling.NothingDueBefore | library/data_logger.cpp:59-61 | no event is due before the earliest time, so a new minimum replaces the mask |
| Scheduling.EarliestAfterNow | library/data_logger.cpp:51-67 | with positive intervals and no wrap the next time lies after now (or is 0xFFFFFFFF) |
| Scheduling.CandidateAfterNow | library/data_logger.cpp:42-48 | one event's next time lies after now |
| Scheduling.DisabledMaskBits | library/data_logger.cpp:273-277 | the Disabled events are exactly those marked Disabled within the first sixteen |
| EventMasks.ShiftLeft | library/data_logger.cpp:56 | `mask <<= 1` moves each bit up one place and drops bit 15 |
| EventMasks.ShiftBit | library/data_logger.cpp:56 | shifting event i's mask gives event i + 1's |
| EventMasks.Meets | library/data_logger.cpp:57 | `(enabled & mask) != 0` holds exactly when event i is enabled |
| EventMasks.WordOfMask | library/data_logger.cpp:196 | the word of a number's mask is the number itself: reading a mask loses nothing |
| EventMasks.BitsOfWord | library/data_logger.cpp:38 | the mask of a set's word is the set itself |
| EventMasks.OrIsUnion | library/data_logger.cpp:373-376 | `a \| b` stays below 2^16 and holds the union of the two masks |
| EventMasks.AndNotIsDifference | library/data_logger.cpp:275 | `a & ~b` stays below 2^16 and holds the events of a that are not in b |
| EventMasks.AndIsMeet | library/data_logger.cpp:306-309 | `a & b` holds the common events, and is nonzero exactly when there is one |
| EventMasks.ZeroWord | library/data_logger.cpp:54 | a word is 0 exactly when it holds no event |
| EventMasks.PowerIsBit | library/data_logger.cpp:275 | `1 << i` below 16 is the word holding event i alone |
| EventMasks.BitsBelow | library/data_logger.cpp:110 | a word below 2^n holds only events below n |
| EventMasks.AllOnes | library/data_logger.cpp:38 | 0xFFFF enables all sixteen events |
| EventMasks.NoBits | library/data_logger.cpp:54 | the word 0 holds no event |
| Utils.BuildFilename | library/utils.cpp:35-41 | rewrites positions 4 to 6 of the static array in place, returns that array, which then holds `LogName(file_num)` |
| Utils.BuildTwice | library/utils.cpp:35-41 | two calls return the same array, which holds the second name |
| Utils.LogNameRoundTrip | library/utils.cpp:36-41 | always 11 characters, "LOG_" and ".CSV"; below 1000 positions 4 to 6 are digits that read back as the number |
| Utils.LogNameInjective | library/utils.cpp:37-39 | below 1000 different numbers get different names |
| Utils.LogNameWraps | library/utils.cpp:37 | from 1000 on the hundreds position leaves the digits; 25600 gets the name of 0 |
| Junk.LoggerName | library/junk.cpp:89-92 | "LOGGER", tens digit at 6, units digit at 7, ".CSV"; the digits read back as the number |
| Junk.LoggerNameInjective | library/junk.cpp:89-92 | different numbers below 100 get different names |
| Junk.SetDigits | library/junk.cpp:91-92 | writes the two digits into positions 6 and 7 in place |
| Junk.GetNextFileNumber | library/junk.cpp:87-100 | the smallest number whose name is not on the card, every smaller one present; None (die) exactly when all hundred exist |
| Junk.LogFileName | library/junk.cpp:106-110 | for 0 to 99 the name set_log_file opens is the one get_next_file_number checks |
| Junk.FirstInRangeIsFirst | library/junk.cpp:123-131 | the accepted value is in range and every earlier one was not; None exactly when no value is in range |
| Junk.GetInt | library/junk.cpp:123-131 | the loop returns the first in-range value and consumes the values up to it |
| Logging.MaskLimit | library/data_logger.cpp:110 | `(1 << n) - 1` on 16-bit `int` is 2^n - 1 up to 15 events and -1 from 16 on |
| Logging.AcceptedMaskWithinSchedule | library/data_logger.cpp:110 | a mask within `[0, (1 << n) - 1]` names only events of the schedule |
| Logging.MaskArgInRange | library/data_logger.cpp:194-196 | the value 'e' or 'E' accepts lies in range and its events are within the schedule |
| Logging.Commas | library/data_logger.cpp:342-344 | n separators and nothing else |
| Logging.SkipColumns | library/data_logger.h:87-92 | skip_entries(n) advances the line by exactly n columns |
| Logging.StringColumns | library/data_logger.h:76-80 | log_string of a comma-free string advances the line by exactly one column |
| Logging.ColumnsAppend | library/data_logger.cpp:340-346 | the column count of a line is the sum over its pieces |
| Logging.DataLogger.constructor | library/data_logger.cpp:27-38 | start-up state: every event enabled (0xFFFF), nothing triggered, WAITING, empty line buffer of 250 bytes |
| Logging.DataLogger.ComputeNextTime | library/data_logger.cpp:51-67 | the loop leaves the earliest candidate over the enabled events and exactly the events due then |
| Logging.DataLogger.SetSchedule | library/data_logger.cpp:269-278 | installs the schedule and clears exactly the enabled bits of the Disabled events |
| Logging.DataLogger.EnableEvents | library/data_logger.cpp:373-376 | adds the events and changes no other bit |
| Logging.DataLogger.DisableEvents | library/data_logger.cpp:378-381 | removes the events and changes no other bit |
| Logging.DataLogger.IsEvent | library/data_logger.cpp:306-309 | true exactly when some event of the mask was triggered |
| Logging.DataLogger.ProcessCommand | library/data_logger.cpp:96-206 | prompt flag set; 'e' sets the triggered mask and TERM_LOG; 'E' replaces the enabled mask and recomputes; 's' recomputes; others leave the schedule state alone; 'e'/'E' block for ever without an acceptable mask and 'N' without a file number in 0..99 |
| Logging.DataLogger.Poll | library/data_logger.cpp:288-301 | one pass of the loop: the prompt once; at the next time FILE_LOG, and with no command WAITING, both with the schedule and the masks unchanged; otherwise the waiting command's full effect as ProcessCommand states it, recomputed at the clock read |
| Logging.DataLogger.WaitForEvent | library/data_logger.cpp:281-303 | leaves WAITING only for FILE_LOG with now == next time and the triggered events due then, or for TERM_LOG after an 'e' naming events of the schedule; keeps reading ticks until it returns, they run out, or a command blocks it in get_int: an 'e'/'E' without an acceptable mask or an 'N' without a file number in 0..99; with no commands it returns exactly when some tick shows the earliest time, at the first such tick, so a clock that skips that second never leaves WAITING |
| Logging.DataLogger.NewLogLine | library/data_logger.cpp:312-316 | the line restarts with the timestamp, cut at the capacity |
| Logging.DataLogger.LogString | library/data_logger.cpp:319-323 | a comma and the string are appended, cut at the capacity |
| Logging.DataLogger.SkipEntries | library/data_logger.cpp:340-346 | n commas are appended, cut at the capacity |
| Logging.DataLogger.EndLogLine | library/data_logger.cpp:349-365 | an empty line goes nowhere; FILE_LOG with an open file appends line and CR LF to the file; TERM_LOG sends them to the serial line and re-arms the prompt; WAITING sends nothing |

## Left out

- `DataLogger::setup` is not modelled: pin modes, RTC and SD bring-up, the LED and beeper blinking, the header line. The constructor receives the log file that setup opens.
- `send_file` and the commands 'G', 'R', 'A', 'L', 'n', 't', 'w' and 'v' are not modelled, nor the "?" reply to an unknown command. They are replies on the serial line and SD operations. None changes the scheduler state, and `ProcessCommand` treats each as setting only the prompt flag.
- Logging.DataLogger.ProcessCommand: the 'N' command (switch to a new log file) reads its file number with get_int and blocks like 'e' and 'E' when none is in 0..99; otherwise it changes no scheduler state. Its effect on the SD card (close, open `LogFileName(n)`, write the header) is not modelled; the name it opens is `Junk.LogFileName`.
- Logging.DataLogger.ProcessCommand: 's' hands the new clock value back instead of calling the virtual `set_unix_time`. The clock is an input read once per pass.
- Logging.DataLogger.ProcessCommand: the text of replies and of get_int's "bad; retry: " is not modelled. `serialOut` holds only the prompts and the lines logged in TERM_LOG.
- `log_int` and `log_float` are not modelled: they rely on Arduino `Print` number formatting and floating point.
- `write_timestamp` is a virtual method of the board: `NewLogLine` takes the bytes it prints.
- `get_time` is not modelled: it has an empty body.
- `wait_a_while`, `digitalWrite` and the LED pins are hardware.
- `die` never returns; `GetNextFileNumber` answers `None` instead. Its message and LED are not modelled.
- The failure of `SD.open` in `set_log_file` leads to `die`. Only the file name is modelled.
- `log_file.flush()` has no effect in the model.
- `print_root_directory`, `current_time` and `new_log_row` are not modelled. The last relies on helpers that are only declared.
- `Serial.parseInt()` is only a source of integers. For 's' with no value it gives 0, its timeout result.
- FileTransfer's file is a sequence of bytes with a read position, and each call returns what it sends.
- `check_complete` and `get_word` are declared in command_parser.h but never defined: `get_blob` is the word extractor. EXTRA is never set.
- Scheduling.NextTimeForEvent: an interval of 0 is a division by zero in the source. Every schedule the logger runs is required to have nonzero intervals (`Runnable`).
- `1 << i` on 16-bit `int` is undefined in C for i from 16 up: in `set_schedule` (data_logger.cpp:275) with a 17th event and beyond, and in `(1 << _num_events) - 1` (data_logger.cpp:110 and 196) with 16 or more events. It is modelled as the bit leaving the word: a Disabled category from the 17th event on clears no bit, and the bound for 'e'/'E' becomes -1. The shift `mask <<= 1` in `compute_next_time` is on `uint16_t` and well defined: from the 17th event on the mask is 0, so those events are never due.
- Scheduling.HMS and Logging.MaskLimit: signed `int` overflow is undefined in C. In `HMS` it happens whenever a product or a partial sum leaves int16_t, for instance in `hours * 60 * 60` once |hours| >= 10. It also happens in `(1 << 15) - 1` with 15 events, where `1 << 15` is -32768 on a 16-bit `int`. The model gives both the two's-complement wrap that the AVR compiler produces in practice, so its values there are one possible outcome, not a promise of the language.
- compute_next_time is declared to return `uint32_t` but returns nothing. It is modelled as a method with no result, and no caller uses the value.
- Logging.DataLogger.WaitForEvent: the loop runs over a finite sequence of ticks, so the model also stops when the ticks run out (`returned` is false).
- Scheduling.NextTimeForEvent: the next time is the next grid point strictly after now, never now itself (`NextTimeOnGrid`).
- FileTransfers.FileTransfer.TransferLine: bytes from 0x80 up are sent as `\` and two hex digits, where the source, with a signed `char`, hands negative nibbles to `Print(int, HEX)`; the code as written is `FileTransfers.EscapeNibblesAsWritten` and `FileTransfers.HighByteNibblesNegative`.
- The host-side management tool (Python) and the image script are not part of this model.

## Findings

| source | as written | input that shows it | evidently intended | confidence | as-written member | corrected member |
|---|---|---|---|---|---|---|
| library/command_parser.cpp:79-81 | `last_char_pos = size_ - 1` on `uint8_t` | a line of length 0: index 255 is read, outside the line | refuse an empty line with BAD_TERM | not executed; high | CommandParserLemmas.EmptyLineReadsOutside | CommandParserSpec.Init |
| library/command_parser.cpp:172-176 | `-max` and `-int32_t(val)` negate in int32_t | "-2147483648\n" with the default range, and max == -2^31: both negations leave int32_t. This is signed overflow, undefined in C; a wrapping target happens to produce the right value | the magnitude and the negation computed without overflow | not executed; medium | CommandParserLemmas.NegationsOverflowAtMin | CommandParserSpec.Negated |
| library/file_transfer.cpp:38-51 | `const char ch`, signed on the target, split as `ch / 16` and `ch % 16` | byte 0x80 gives the nibbles -8 and 0, which `Print(int, HEX)` does not print as two hex digits | every byte that is not printable sent as `\` and two hex digits | not executed; high | FileTransfers.HighByteNibblesNegative | FileTransfers.UnsignedNibbles |

About the corrected members:

- `CommandParserSpec.Init` refuses an empty line. `CommandParserLemmas.InitOutcome` proves BAD_TERM exactly when the final '\n' is missing.
- `CommandParserSpec.Negated` and `CommandParserSpec.Magnitude` stay inside int32_t. `CommandParserLemmas.SignedLine` proves that -2^31 parses back to itself.
- `FileTransfers.Escape` treats the byte as unsigned. `FileTransfers.LineRoundTrip` proves that every byte comes back.
