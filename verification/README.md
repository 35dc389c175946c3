# led8seg in Dafny

A model of `led8seg.py`, a MicroPython driver for a four-digit, eight-segment
LED display fed over SPI. The model has six parts.

- **DState** (`dstate.dfy`, module `Encoder`). A frame is four segment codes.
  Slot 0 is the units digit and slot 3 the thousands digit. Frames are built
  from text (`from_string`), from integers (`from_int`) and from floats
  (`from_float`), and changed one slot at a time (`digit`).
- **The segment table** (`segments.dfy`, module `SegmentTable`). It maps 46
  characters to 8-bit codes. The dotted table maps each character followed by
  `.` to its code with bit 7 (the decimal point) set.
- **The text fields `from_int` builds** (`formatting.dfy`, module
  `Formatting`). These are Python's `%4d`, `%04d` and `%-4d`. A reading-back
  function, `FieldValue`, states what number a field shows.
- **Animation patterns** (`patterns.dfy`, module `Patterns`). These are the
  DPattern frame lists.
- **DDisplay** (`display.dfy`, module `Display`). It holds the list of frames
  a display cycles through.
- **DDriver** (`driver.dfy`, module `Driver`). It holds the tick counter and
  the displays. `show` writes each display's current frame over SPI.

Python exceptions are modelled as values of `Base.Error`:

- `KeyError` for a character missing from the table;
- `IndexError` for a list index out of range (Python's negative indices are
  modelled too);
- `WrongDigitType` for the `ValueError` raised by `digit`;
- `TooManyScreens` for the `ValueError` raised by `DDisplay.value`;
- `ZeroDivision` for the `ZeroDivisionError` raised in `show`.

The SPI bus and the chip-select pins are modelled as an event trace.
`show` returns the sequence of chip-select edges, byte writes and hold pauses
it would produce. `Driver.Writes` extracts the bytes written.

Some consequences of the code that are easy to miss:

- `from_int` does not special-case values outside -999..9999. It formats
  the full decimal text, and the frame shows its first four characters
  (`Encoder.EncodeIntOutOfRange`).
- `leading_zeros` is a flag that selects `%04d`. `from_float` passes it
  through unchanged.
- The slots that `DDisplay.value` appends to reach `screen_no` hold full
  "8888" frames (`DState()`).
- `values([])` is accepted and leaves the display with no frames. The next
  `show` then raises ZeroDivisionError on that display.

## Model

| member | source | states |
|---|---|---|
| Base.PyIndex | led8seg.py:164 | A Python list index is valid exactly when -len <= i < len; a valid index denotes i or len + i |
| SegmentTable.CharCode | led8seg.py:21-27 | The character table, one code per character; its properties are stated by BasePointClear, NamedCodes and NumericInTable |
| SegmentTable.SegmentsDotted | led8seg.py:29 | The dotted table; DottedIsBaseWithPoint states that it is the base table with bit 7 set, keyed by character + '.' |
| SegmentTable.Segments | led8seg.py:31 | The union of both tables; KeysDisjoint states that the union is unambiguous |
| SegmentTable.DigitSelectBits | led8seg.py:8-13 | The select byte of slot `pos` clears only bit 3 - pos; the four select bytes are distinct |
| SegmentTable.NamedCodes | led8seg.py:33-35 | BLANK, EIGHT and HYPHEN are the table codes of ' ', '8' and '-' |
| SegmentTable.DottedIsBaseWithPoint | led8seg.py:29 | A dotted key is exactly a table character followed by '.', and its code is that character's code with bit 7 set |
| SegmentTable.KeysDisjoint | led8seg.py:31 | No key is in both tables, so the union is unambiguous and a key is found iff it is in either table |
| SegmentTable.BasePointClear | led8seg.py:21-27 | Every character except '.' has bit 7 clear, so the decimal point is only lit through the dotted table |
| Formatting.Format | led8seg.py:39-43 | The field from_int formats: %-4d when aligned left, else %04d with leading zeros, else %4d; FormatRoundTrip, FormatLayout and FormatOutOfRange state its properties |
| Formatting.NatTextRoundTrip | led8seg.py:39 | Reading back the decimal digits of n gives n |
| Formatting.IntTextFits | led8seg.py:39 | The text of v fits in four characters iff -999 <= v <= 9999 |
| Formatting.IntTextValue | led8seg.py:39 | The plain decimal text of any v reads back as v |
| Formatting.FormatRoundTrip | led8seg.py:39-43 | For -999 <= v <= 9999 each of %4d, %04d and %-4d gives a four-character field that reads back as v |
| Formatting.ZeroFilledValue | led8seg.py:41 | %04d of v in range is four characters and reads back as v (the layout is stated by FormatLayout) |
| Formatting.FormatLayout | led8seg.py:39-43 | Where the text sits in the field and what fills the rest: spaces after it when aligned left (which overrides zero fill), spaces before it, or zeros between the sign and the digits |
| Formatting.FormatNumeric | led8seg.py:39-43 | Every field from_int builds is made of digits, spaces and '-' only |
| Formatting.FormatOutOfRange | led8seg.py:39-43 | Outside -999..9999 every flag combination gives the plain decimal text, which is longer than four characters |
| Encoder.EncodeText | led8seg.py:57-69 | The codes from_string computes, or its KeyError; EncodeTextSpec, EncodeTextError and EncodeTextFirstFour state its properties |
| Encoder.EncodeInt | led8seg.py:37-44 | The codes from_int computes, EncodeText of the formatted field; EncodeIntDecodes, EncodeIntPoint and EncodeIntOutOfRange state its properties |
| Encoder.EncodeFloat | led8seg.py:46-55 | The codes from_float computes from the rounded value, EncodeInt at FloatDotPos; EncodeFloatSpec states its properties |
| Encoder.DigitUpdate | led8seg.py:84-91 | The new codes after digit, or its exception; DigitUpdateSpec states its properties |
| Encoder.EncodeSlotsSpec | led8seg.py:63-68 | The slot loop succeeds iff every slot's character is in the table; slot pos then holds that character's code, dotted exactly at dot_pos |
| Encoder.JustifyLayout | led8seg.py:60-62 | Text shorter than four characters is padded with spaces on the left, or on the right when aligned left |
| Encoder.EncodeTextSpec | led8seg.py:58-69 | from_string succeeds iff all four field characters are in the table; slot pos holds the code of character 3 - pos, with the point only at dot_pos |
| Encoder.EncodeTextFirstFour | led8seg.py:60-65 | Text of four or more characters contributes only its first four characters, whatever the alignment |
| Encoder.EncodeTextError | led8seg.py:63-68 | The KeyError names the key of the lowest slot whose character is missing from the table |
| Encoder.TextFrameSpec | led8seg.py:58-69 | from_string of a four-character text of table characters, with no dot, gives that text's codes in reverse order |
| Encoder.DigitUpdateSpec | led8seg.py:84-91 | digit succeeds exactly for a bytes value or a str in the table at a slot in -4..3; it raises ValueError for any other kind of value, KeyError for an unknown str, and IndexError for a slot outside -4..3; on success only the chosen slot changes, to the bytes value or the str's code |
| Encoder.NumericInTable | led8seg.py:21-27 | Digits, ' ' and '-' are in the table, with bit 7 clear; their glyphs, with or without the point, decode back to the character |
| Encoder.FormatEncodes | led8seg.py:37-44 | from_int never raises: from_string of its field always succeeds |
| Encoder.EncodeIntPoint | led8seg.py:37-44 | The frame of from_int lights the decimal point in slot dot_pos and nowhere else |
| Encoder.EncodeIntSlots | led8seg.py:37-44 | Slot pos of from_int's frame is the code of field character 3 - pos, dotted iff pos is dot_pos |
| Encoder.DecodeField | led8seg.py:63-68 | A frame whose slots carry the glyphs of a numeric field shows the same number as the field |
| Encoder.EncodeIntDecodes | led8seg.py:37-44 | For -999 <= v <= 9999, whatever the flags, the frame of from_int shows v |
| Encoder.EncodeIntOutOfRange | led8seg.py:37-44 | Outside -999..9999 the frame is that of the first four characters of the plain decimal text |
| Encoder.FloatDotPos | led8seg.py:49-54 | A dot position above 2 becomes 3, or 2 for a negative value; any other position is kept |
| Encoder.EncodeFloatSpec | led8seg.py:46-55 | from_float lights only the adjusted dot position, and for a rounded value in -999..9999 the frame shows that value |
| Encoder.EncodeFloatExample | led8seg.py:46-55 | from_float(-3.456, dot_pos=1), whose rounded value is -35, shows " -3.5" |
| Encoder.DState.constructor | led8seg.py:79-82 | DState(digits) keeps the given codes, or "8888" when none are given |
| Encoder.DState.Full | led8seg.py:71-73 | full() is a fresh "8888" frame |
| Encoder.DState.Blank | led8seg.py:75-77 | blank() is a fresh all-blank frame |
| Encoder.DState.Digit | led8seg.py:84-91 | digit changes the frame as DigitUpdate says and returns the same object, or raises and leaves the frame unchanged |
| Encoder.DState.FromString | led8seg.py:57-69 | from_string returns a fresh frame holding EncodeText's codes, or raises EncodeText's KeyError |
| Encoder.DState.FromInt | led8seg.py:37-44 | from_int returns a fresh frame holding EncodeInt's codes; it never raises |
| Encoder.DState.FromFloat | led8seg.py:46-55 | from_float, given the rounded value and its sign, returns the frame of from_int at the adjusted dot position |
| Patterns.SWIRL1 | led8seg.py:94-106 | The SWIRL1 frames: ten from_string frames, then two blank frames with code 0x10 or 0x20 in slot 3 |
| Patterns.SWIRL2 | led8seg.py:108-120 | The SWIRL2 frames, from_string of the listed texts |
| Patterns.LINE1 | led8seg.py:122-126 | The LINE1 frames; Line1Moves states them |
| Patterns.CHARGE1 | led8seg.py:129-134 | The CHARGE1 frames; Charge1Fills states them |
| Patterns.CHARGE2 | led8seg.py:136-145 | The CHARGE2 frames, from_string of the listed texts |
| Patterns.BlankWith3 | led8seg.py:105-106 | blank().digit(3, code) is the blank frame with `code` in slot 3 |
| Patterns.PatternLengths | led8seg.py:93-145 | SWIRL1 and SWIRL2 have 12 frames, LINE1 4, CHARGE1 5 and CHARGE2 9 |
| Patterns.Line1Moves | led8seg.py:122-126 | Frame k of LINE1 is blank except for a hyphen in slot 3 - k |
| Patterns.Charge1Fills | led8seg.py:129-134 | Frame k of CHARGE1 has hyphens in its top k slots and blanks below |
| Display.ScreenSlot | led8seg.py:156-164 | value succeeds iff -len <= screen_no < 100; the list grows to screen_no + 1 when the slot is past the end; the index written is screen_no or len + screen_no |
| Display.ScreenSlotBounded | led8seg.py:157-163 | A list of at most 100 frames stays at most 100 long after value |
| Display.DDisplay.constructor | led8seg.py:150-154 | A new display has one fresh "8888" frame |
| Display.DDisplay.Value | led8seg.py:156-164 | On an exception, nothing changes. Otherwise `dstate` is stored at the index written, the existing frames are kept, and every other appended slot holds a fresh "8888" frame |
| Display.DDisplay.Values | led8seg.py:166-167 | values replaces the frame list by the given one, even an empty one |
| Driver.DigitTrace | led8seg.py:206-216 | The bus events for one position: chip select low, select byte, code, chip select high, hold, then the same with the blank code; DigitWrites states its bytes |
| Driver.FrameTrace | led8seg.py:205-216 | The events of a frame's first n positions in increasing order, 9 per position; FrameTraceLayout and FrameWrites state its properties |
| Driver.CycleTrace | led8seg.py:201-216 | The events of one refresh over the first n displays, or ZeroDivisionError at the first display with zero ticks per frame or no frames; CycleTraceRaises, CycleTraceStops and CycleTraceLayout state its properties |
| Driver.ActiveFrame | led8seg.py:203 | The frame index chosen is within the display's frame list |
| Driver.ActiveFrameHolds | led8seg.py:203 | Frame k mod count stays on for ticks k * period up to (k + 1) * period - 1 |
| Driver.ActiveFrameAdvances | led8seg.py:203 | `period` ticks later the next frame, cyclically, is on |
| Driver.ActiveFramePeriodic | led8seg.py:203 | The frames repeat every period * count ticks |
| Driver.FrameTraceLayout | led8seg.py:205-216 | Events 9 * pos to 9 * pos + 8 of a frame's trace are digit pos's select, write, hold, select and blank |
| Driver.FrameWrites | led8seg.py:205-216 | The bytes a frame puts on SPI are, for each position in order, its select byte, its code, its select byte and the blank code |
| Driver.FrameBytesSpelled | led8seg.py:205-216 | The 16 bytes of a frame, spelled out |
| Driver.WriteFrame | led8seg.py:205-216 | The inner loop over the four positions produces the frame's trace |
| Driver.CycleTraceStops | led8seg.py:201-204 | After a display raises, the remaining displays add nothing |
| Driver.CycleTraceRaises | led8seg.py:201-204 | A refresh raises iff some display has zero ticks per frame or no frames, and the exception is ZeroDivisionError |
| Driver.CycleTraceLayout | led8seg.py:201-216 | When no display raises, a refresh is 36 events per display, and block k is display k's active frame |
| Driver.Refresh | led8seg.py:201-216 | The loop over the displays produces the refresh trace, or stops with ZeroDivisionError |
| Driver.FirstShow | led8seg.py:197-216 | The first show of a new driver, at tick 1, writes its one "8888" frame, or raises when there are zero ticks per frame |
| Driver.DDriver.constructor | led8seg.py:172-178 | A new driver is at tick 0 with one new display showing "8888" |
| Driver.DDriver.Value | led8seg.py:186-188 | DDisplay.value is applied to the display at display_no, and no other display changes; an index outside the list raises IndexError and changes nothing |
| Driver.DDriver.Values | led8seg.py:190-192 | DDisplay.values is applied to the display at display_no, and no other display changes; an index outside the list raises IndexError |
| Driver.DDriver.Show | led8seg.py:197-216 | show raises the counter by one, then produces the refresh trace of all displays at the new tick, as the displays were before the call |

## Left out

- Hardware: the `machine` module's `Pin`, `SPI` and `Timer` are not
  modelled. Chip-select levels and SPI writes become `BusEvent` values in
  the returned trace.
- Timing: `time.sleep_us(brightness_period)` between the two writes of a
  digit becomes a `Hold` event. `brightness`, `freq` and `brightness_period`
  only affect timing and are not modelled.
- Threads: `DDriver.loop`, `_thread.start_new_thread` and the pacing sleep
  of the refresh loop (led8seg.py:183 and 219-224) are not modelled. A call
  of `Show` stands for one pass of that loop. Concurrent updates while
  `show` runs are not modelled.
- Floats:
  - `round(freq * screen_time)` is not computed. Each display carries the
    result as a `period` (ticks per frame), given to the constructors. A
    period of 0 gives the ZeroDivisionError.
  - In `from_float`, `round(v * 10**max(0, dot_pos))` is not computed.
    `Encoder.DState.FromFloat` takes the rounded integer and the sign of `v`.
- Encoder.DState.Digit: a bytes value is modelled as a single code.
  A bytes object of another length, which the code would store as it is,
  is not modelled.
- Encoder.DState.constructor: takes four codes. A list of another length
  is not modelled.
- Patterns: the DPattern lists are `seq<Digits>` values, not lists of
  DState objects. They are built from the same strings (led8seg.py:93-145)
  through `Encoder.TextFrame`, which `Encoder.TextFrameSpec` ties to
  `from_string`. Object identity is not modelled: in the code, every use of
  a pattern shares the same DState objects.
- Display.DDisplay.Values: the frame list is a sequence of references.
  The code keeps the caller's list object itself, so a later append by the
  caller is seen by the display; the model does not capture that sharing.
- `main` (led8seg.py:227 onward) is a demonstration program and is not
  modelled.
