/**
 * DState: one frame of a 4-digit display, four segment codes with slot 0 the
 * rightmost digit, and the encoders that build frames from text and numbers.
 */
module Encoder {
  import opened Base
  import opened Formatting
  import opened SegmentTable

  /** The four segment codes of a frame; index 0 is the units (rightmost) digit. */
  type Digits = s: seq<Code> | |s| == 4 witness [0, 0, 0, 0]

  /** DState(): every segment lit, "8888". */
  const FULL: Digits := [EIGHT, EIGHT, EIGHT, EIGHT]

  /** DState.blank(): every slot the code of ' '. */
  const BLANKS: Digits := [BLANK, BLANK, BLANK, BLANK]

  /** The value passed to DState.digit: a bytes object, a str, or anything else. */
  datatype DigitArg = Bytes(code: Code) | Str(text: string) | OtherType

  // ---------------------------------------------------------------------
  // Specification of the encoders on values

  /** `"%4s" % v`, or `"%-4s" % v` when aligned left: padded to width 4, never cut. */
  function Justify(v: string, alignLeft: bool): (f: string)
    ensures |f| >= 4
    ensures |v| >= 4 ==> f == v
  {
    if alignLeft then PadRight(v, 4) else PadLeft(v, 4, ' ')
  }

  /** The character of the padded text that slot `pos` shows: slot 0 is the last of the first four. */
  function SlotChar(f: string, pos: nat): char
    requires |f| >= 4 && pos < 4
  {
    f[3 - pos]
  }

  /** The table key from_string looks up for slot `pos`, with '.' appended in the dotted slot. */
  function SlotKey(f: string, pos: nat, dotPos: Option<int>): string
    requires |f| >= 4 && pos < 4
  {
    if dotPos == Some(pos as int) then [SlotChar(f, pos), '.'] else [SlotChar(f, pos)]
  }

  /** The code a table character takes in a slot, with the decimal point when `dotted`. */
  function SlotCode(c: char, dotted: bool): Code
    requires CharCode(c).Some?
  {
    if dotted then CharCode(c).value | 0x80 else CharCode(c).value
  }

  /** Slots 0 .. n - 1 of from_string, filled in increasing order; the first missing key stops it. */
  function EncodeSlots(f: string, dotPos: Option<int>, n: nat): (r: Result<seq<Code>, Error>)
    requires |f| >= 4 && n <= 4
    ensures r.Ok? ==> |r.value| == n
  {
    if n == 0 then Ok([])
    else
      match EncodeSlots(f, dotPos, n - 1)
      case Err(e) => Err(e)
      case Ok(s) =>
        match Segments(SlotKey(f, n - 1, dotPos))
        case None => Err(KeyError(SlotKey(f, n - 1, dotPos)))
        case Some(c) => Ok(s + [c])
  }

  /** DState.from_string(v, align_left, dot_pos) as a value. */
  function EncodeText(v: string, alignLeft: bool, dotPos: Option<int>): Result<Digits, Error>
  {
    match EncodeSlots(Justify(v, alignLeft), dotPos, 4)
    case Ok(s) => Ok(s)
    case Err(e) => Err(e)
  }

  /** DState.digit(pos, v) on the list of codes: bytes stored as they are, str resolved through the table. */
  function DigitUpdate(digits: Digits, pos: int, v: DigitArg): Result<Digits, Error>
  {
    match v
    case Bytes(c) =>
      (match PyIndex(pos, 4)
       case None => Err(IndexError(pos))
       case Some(i) => Ok(digits[i := c]))
    case Str(s) =>
      (match Segments(s)
       case None => Err(KeyError(s))
       case Some(c) =>
         match PyIndex(pos, 4)
         case None => Err(IndexError(pos))
         case Some(i) => Ok(digits[i := c]))
    case OtherType => Err(WrongDigitType)
  }

  /** DState.from_int(v, align_left, leading_zeros, dot_pos) as a value: from_string of the formatted text. */
  function EncodeInt(v: int, alignLeft: bool, leadingZeros: bool, dotPos: Option<int>): Digits
  {
    FormatEncodes(v, alignLeft, leadingZeros, dotPos);
    EncodeText(Format(v, alignLeft, leadingZeros), alignLeft, dotPos).value
  }

  /** The dot position from_float hands to from_int. */
  function FloatDotPos(dotPos: int, negative: bool): (r: int)
    ensures r <= 3
    ensures 0 <= dotPos ==> 0 <= r
    ensures dotPos > 2 ==> r == (if negative then 2 else 3)
    ensures dotPos <= 2 ==> r == dotPos
  {
    if dotPos > 2 then (if negative then 2 else 3) else dotPos
  }

  /**
   * DState.from_float(v, leading_zeros, dot_pos) as a value, given `d`, the
   * integer `v * 10 ** max(0, dot_pos)` rounds to, and whether `v < 0`.
   */
  function EncodeFloat(d: int, negative: bool, leadingZeros: bool, dotPos: int): Digits
  {
    EncodeInt(d, false, leadingZeros, Some(FloatDotPos(dotPos, negative)))
  }

  // ---------------------------------------------------------------------
  // Reading a frame back

  /** The character a numeric glyph shows, ignoring the decimal point. */
  function DecodeGlyph(code: Code): Option<char>
  {
    match code & 0x7f
    case 0x00 => Some(' ') case 0x40 => Some('-')
    case 0x3f => Some('0') case 0x06 => Some('1') case 0x5b => Some('2') case 0x4f => Some('3')
    case 0x66 => Some('4') case 0x6d => Some('5') case 0x7d => Some('6') case 0x07 => Some('7')
    case 0x7f => Some('8') case 0x6f => Some('9')
    case _ => None
  }

  /** The integer a frame of numeric glyphs shows, read left (slot 3) to right (slot 0). */
  function DecodeFrame(ds: Digits): Option<int>
  {
    var g := [DecodeGlyph(ds[3]), DecodeGlyph(ds[2]), DecodeGlyph(ds[1]), DecodeGlyph(ds[0])];
    if g[0].Some? && g[1].Some? && g[2].Some? && g[3].Some? then
      FieldValue([g[0].value, g[1].value, g[2].value, g[3].value])
    else None
  }

  /** Whether slot `pos` shows the decimal point. */
  predicate PointLit(ds: Digits, pos: nat)
    requires pos < 4
  {
    ds[pos] & 0x80 != 0
  }

  // ---------------------------------------------------------------------
  // Properties of the encoders

  /** Slots 0 .. n - 1 are filled exactly when each of their characters is in the table. */
  lemma {:induction false} EncodeSlotsOk(f: string, dotPos: Option<int>, n: nat)
    requires |f| >= 4 && n <= 4
    ensures EncodeSlots(f, dotPos, n).Ok? <==> forall i | 0 <= i < n :: CharCode(SlotChar(f, i)).Some?
  {
    if n > 0 {
      EncodeSlotsOk(f, dotPos, n - 1);
      SlotLookup(f, n - 1, dotPos);
    }
  }

  /** Slot `i` holds the code of its character, dotted in the dot slot. */
  lemma {:induction false} EncodeSlotsValues(f: string, dotPos: Option<int>, n: nat)
    requires |f| >= 4 && n <= 4
    ensures EncodeSlots(f, dotPos, n).Ok? ==>
      forall i | 0 <= i < n ::
        CharCode(SlotChar(f, i)).Some? && EncodeSlots(f, dotPos, n).value[i] == SlotCode(SlotChar(f, i), dotPos == Some(i))
  {
    if n > 0 && EncodeSlots(f, dotPos, n).Ok? {
      EncodeSlotsValues(f, dotPos, n - 1);
      SlotLookup(f, n - 1, dotPos);
      var prev := EncodeSlots(f, dotPos, n - 1).value;
      var s := EncodeSlots(f, dotPos, n).value;
      assert s == prev + [s[n - 1]];
    }
  }

  lemma EncodeSlotsSpec(f: string, dotPos: Option<int>, n: nat)
    requires |f| >= 4 && n <= 4
    ensures EncodeSlots(f, dotPos, n).Ok? <==> forall i | 0 <= i < n :: CharCode(SlotChar(f, i)).Some?
    ensures EncodeSlots(f, dotPos, n).Ok? ==>
      forall i | 0 <= i < n :: EncodeSlots(f, dotPos, n).value[i] == SlotCode(SlotChar(f, i), dotPos == Some(i))
  {
    EncodeSlotsOk(f, dotPos, n);
    EncodeSlotsValues(f, dotPos, n);
  }

  /** The table entry of a slot's key: the slot's character, dotted in the dot slot. */
  lemma SlotLookup(f: string, pos: nat, dotPos: Option<int>)
    requires |f| >= 4 && pos < 4
    ensures var c := SlotChar(f, pos);
      Segments(SlotKey(f, pos, dotPos)) == if CharCode(c).Some? then Some(SlotCode(c, dotPos == Some(pos))) else None
  {
    var c := SlotChar(f, pos);
    DottedIsBaseWithPoint(SlotKey(f, pos, dotPos));
    assert Segments([c]) == CharCode(c);
  }

  lemma {:induction false} EncodeSlotsStops(f: string, dotPos: Option<int>, n: nat, m: nat)
    requires |f| >= 4 && n <= m <= 4
    requires EncodeSlots(f, dotPos, n).Err?
    ensures EncodeSlots(f, dotPos, m) == EncodeSlots(f, dotPos, n)
  {
    if n < m {
      EncodeSlotsStops(f, dotPos, n, m - 1);
    }
  }

  lemma {:induction false} EncodeSlotsFirstFour(f: string, g: string, dotPos: Option<int>, n: nat)
    requires |f| >= 4 && |g| >= 4 && n <= 4 && f[..4] == g[..4]
    ensures EncodeSlots(f, dotPos, n) == EncodeSlots(g, dotPos, n)
  {
    if n > 0 {
      EncodeSlotsFirstFour(f, g, dotPos, n - 1);
      assert SlotChar(f, n - 1) == f[..4][3 - (n - 1)];
      assert SlotKey(f, n - 1, dotPos) == SlotKey(g, n - 1, dotPos);
    }
  }

  /**
   * from_string succeeds exactly when each of the four characters of the
   * padded text is in the table; then slot `pos` holds the code of character
   * 3 - pos, with bit 7 set in the slot equal to `dotPos` and in no other.
   */
  lemma EncodeTextSpec(v: string, alignLeft: bool, dotPos: Option<int>)
    ensures var f := Justify(v, alignLeft);
      EncodeText(v, alignLeft, dotPos).Ok? <==> forall i | 0 <= i < 4 :: CharCode(f[i]).Some?
    ensures var f := Justify(v, alignLeft);
      EncodeText(v, alignLeft, dotPos).Ok? ==>
        forall pos | 0 <= pos < 4 :: EncodeText(v, alignLeft, dotPos).value[pos] == SlotCode(SlotChar(f, pos), dotPos == Some(pos))
  {
    var f := Justify(v, alignLeft);
    EncodeSlotsSpec(f, dotPos, 4);
    if forall i | 0 <= i < 4 :: CharCode(SlotChar(f, i)).Some? {
      forall i | 0 <= i < 4 ensures CharCode(f[i]).Some? { assert f[i] == SlotChar(f, 3 - i); }
    }
  }

  /** Text shorter than four is padded on the left, or on the right when aligned left. */
  lemma JustifyLayout(v: string, alignLeft: bool)
    requires |v| < 4
    ensures !alignLeft ==> Justify(v, alignLeft) == Spaces(4 - |v|) + v
    ensures alignLeft ==> Justify(v, alignLeft) == v + Spaces(4 - |v|)
  {
  }

  /** Text longer than four characters contributes only its first four, whatever the alignment. */
  lemma EncodeTextFirstFour(v: string, alignLeft: bool, dotPos: Option<int>)
    requires |v| >= 4
    ensures EncodeText(v, alignLeft, dotPos) == EncodeText(v[..4], false, dotPos)
    ensures EncodeText(v, alignLeft, dotPos) == EncodeText(v[..4], true, dotPos)
  {
    EncodeSlotsFirstFour(v, v[..4], dotPos, 4);
  }

  /** from_string fails with the key of the first slot, from the right, whose character the table lacks. */
  lemma EncodeTextError(v: string, alignLeft: bool, dotPos: Option<int>, pos: nat)
    requires pos < 4
    requires forall i | 0 <= i < pos :: CharCode(SlotChar(Justify(v, alignLeft), i)).Some?
    requires CharCode(SlotChar(Justify(v, alignLeft), pos)).None?
    ensures EncodeText(v, alignLeft, dotPos) == Err(KeyError(SlotKey(Justify(v, alignLeft), pos, dotPos)))
  {
    var f := Justify(v, alignLeft);
    EncodeSlotsSpec(f, dotPos, pos);
    SlotLookup(f, pos, dotPos);
    EncodeSlotsStops(f, dotPos, pos + 1, 4);
  }

  /** digit(pos, v): which calls succeed, which exception the others raise, and that only slot pos changes. */
  lemma DigitUpdateSpec(digits: Digits, pos: int, v: DigitArg)
    ensures DigitUpdate(digits, pos, v).Ok? <==> (v.Bytes? || (v.Str? && Segments(v.text).Some?)) && -4 <= pos < 4
    ensures v.OtherType? ==> DigitUpdate(digits, pos, v) == Err(WrongDigitType)
    ensures v.Str? && Segments(v.text).None? ==> DigitUpdate(digits, pos, v) == Err(KeyError(v.text))
    ensures (v.Bytes? || (v.Str? && Segments(v.text).Some?)) && !(-4 <= pos < 4) ==>
      DigitUpdate(digits, pos, v) == Err(IndexError(pos))
    ensures DigitUpdate(digits, pos, v).Ok? ==>
      var i := if pos < 0 then 4 + pos else pos;
      var r := DigitUpdate(digits, pos, v).value;
      && 0 <= i < 4
      && r[i] == (if v.Bytes? then v.code else Segments(v.text).value)
      && forall j | 0 <= j < 4 && j != i :: r[j] == digits[j]
  {
  }

  lemma NumericInTable(c: char)
    requires NumericChar(c)
    ensures CharCode(c).Some? && c != '.'
    ensures DecodeGlyph(CharCode(c).value) == Some(c)
    ensures DecodeGlyph(CharCode(c).value | 0x80) == Some(c)
    ensures CharCode(c).value & 0x80 == 0
  {
    match c
    case ' ' => case '-' =>
    case '0' => case '1' => case '2' => case '3' => case '4' =>
    case '5' => case '6' => case '7' => case '8' => case '9' =>
    case _ => assert false;
  }

  /** The text from_int builds is made of table characters only, so from_int never fails. */
  lemma FormatEncodes(v: int, alignLeft: bool, leadingZeros: bool, dotPos: Option<int>)
    ensures EncodeText(Format(v, alignLeft, leadingZeros), alignLeft, dotPos).Ok?
  {
    var f := Format(v, alignLeft, leadingZeros);
    FormatNumeric(v, alignLeft, leadingZeros);
    FormatLength(v, alignLeft, leadingZeros);
    EncodeTextSpec(f, alignLeft, dotPos);
    forall i | 0 <= i < 4 ensures CharCode(Justify(f, alignLeft)[i]).Some? {
      NumericInTable(Justify(f, alignLeft)[i]);
    }
  }

  lemma FormatLength(v: int, alignLeft: bool, leadingZeros: bool)
    ensures |Format(v, alignLeft, leadingZeros)| >= 4
  {
  }

  /** from_int lights the decimal point in the slot equal to `dotPos` and in no other slot. */
  lemma EncodeIntPoint(v: int, alignLeft: bool, leadingZeros: bool, dotPos: Option<int>)
    ensures forall pos | 0 <= pos < 4 :: PointLit(EncodeInt(v, alignLeft, leadingZeros, dotPos), pos) <==> dotPos == Some(pos)
  {
    var f := Format(v, alignLeft, leadingZeros);
    FormatEncodes(v, alignLeft, leadingZeros, dotPos);
    EncodeTextSpec(f, alignLeft, dotPos);
    FormatNumeric(v, alignLeft, leadingZeros);
    forall pos | 0 <= pos < 4 ensures CharCode(SlotChar(f, pos)).value & 0x80 == 0 {
      NumericInTable(SlotChar(f, pos));
    }
  }

  /**
   * For -999 <= v <= 9999, slot `pos` of from_int's frame holds the code of
   * character 3 - pos of the four-character field Format renders.
   */
  lemma EncodeIntSlots(v: int, alignLeft: bool, leadingZeros: bool, dotPos: Option<int>)
    requires -999 <= v <= 9999
    ensures |Format(v, alignLeft, leadingZeros)| == 4
    ensures forall pos | 0 <= pos < 4 ::
      var c := SlotChar(Format(v, alignLeft, leadingZeros), pos);
      NumericChar(c) && CharCode(c).Some? && EncodeInt(v, alignLeft, leadingZeros, dotPos)[pos] == SlotCode(c, dotPos == Some(pos))
  {
    var f := Format(v, alignLeft, leadingZeros);
    FormatRoundTrip(v, alignLeft, leadingZeros);
    FormatEncodes(v, alignLeft, leadingZeros, dotPos);
    EncodeTextSpec(f, alignLeft, dotPos);
    FormatNumeric(v, alignLeft, leadingZeros);
  }

  lemma DecodeSlot(c: char, dotted: bool)
    requires NumericChar(c)
    ensures CharCode(c).Some? && DecodeGlyph(SlotCode(c, dotted)) == Some(c)
  {
    NumericInTable(c);
  }

  /** A frame holding the slot codes of a four-character numeric field reads back as that field. */
  lemma DecodeField(f: string, dotPos: Option<int>, ds: Digits)
    requires |f| == 4
    requires forall pos | 0 <= pos < 4 :: NumericChar(SlotChar(f, pos)) && CharCode(SlotChar(f, pos)).Some? && ds[pos] == SlotCode(SlotChar(f, pos), dotPos == Some(pos))
    ensures DecodeFrame(ds) == FieldValue(f)
  {
    DecodeSlot(SlotChar(f, 0), dotPos == Some(0));
    DecodeSlot(SlotChar(f, 1), dotPos == Some(1));
    DecodeSlot(SlotChar(f, 2), dotPos == Some(2));
    DecodeSlot(SlotChar(f, 3), dotPos == Some(3));
    assert [f[0], f[1], f[2], f[3]] == f;
  }

  /** For -999 <= v <= 9999 and every flag and dot position, from_int's frame reads back as `v`. */
  lemma EncodeIntDecodes(v: int, alignLeft: bool, leadingZeros: bool, dotPos: Option<int>)
    requires -999 <= v <= 9999
    ensures DecodeFrame(EncodeInt(v, alignLeft, leadingZeros, dotPos)) == Some(v)
  {
    EncodeIntSlots(v, alignLeft, leadingZeros, dotPos);
    DecodeField(Format(v, alignLeft, leadingZeros), dotPos, EncodeInt(v, alignLeft, leadingZeros, dotPos));
    FormatRoundTrip(v, alignLeft, leadingZeros);
  }

  /**
   * Outside -999..9999 every flag gives the plain decimal text, longer than
   * four characters, and the frame shows its first four characters.
   */
  lemma EncodeIntOutOfRange(v: int, alignLeft: bool, leadingZeros: bool, dotPos: Option<int>)
    requires !(-999 <= v <= 9999)
    ensures |IntText(v)| > 4
    ensures Ok(EncodeInt(v, alignLeft, leadingZeros, dotPos)) == EncodeText(IntText(v)[..4], false, dotPos)
  {
    FormatOutOfRange(v, alignLeft, leadingZeros);
    FormatEncodes(v, alignLeft, leadingZeros, dotPos);
    EncodeTextFirstFour(IntText(v), alignLeft, dotPos);
  }

  /** The frame of a four-character field, slot by slot. */
  lemma EncodeIntField(v: int, alignLeft: bool, leadingZeros: bool, dotPos: Option<int>)
    requires -999 <= v <= 9999
    ensures var f, ds := Format(v, alignLeft, leadingZeros), EncodeInt(v, alignLeft, leadingZeros, dotPos);
      && |f| == 4
      && (forall i | 0 <= i < 4 :: CharCode(f[i]).Some?)
      && ds == [SlotCode(f[3], dotPos == Some(0)), SlotCode(f[2], dotPos == Some(1)),
                SlotCode(f[1], dotPos == Some(2)), SlotCode(f[0], dotPos == Some(3))]
  {
    EncodeIntSlots(v, alignLeft, leadingZeros, dotPos);
    SlotsFrame(Format(v, alignLeft, leadingZeros), dotPos, EncodeInt(v, alignLeft, leadingZeros, dotPos));
  }

  lemma SlotsFrame(f: string, dotPos: Option<int>, ds: Digits)
    requires |f| == 4
    requires forall pos | 0 <= pos < 4 :: CharCode(SlotChar(f, pos)).Some? && ds[pos] == SlotCode(SlotChar(f, pos), dotPos == Some(pos))
    ensures forall i | 0 <= i < 4 :: CharCode(f[i]).Some?
    ensures ds == [SlotCode(f[3], dotPos == Some(0)), SlotCode(f[2], dotPos == Some(1)),
                   SlotCode(f[1], dotPos == Some(2)), SlotCode(f[0], dotPos == Some(3))]
  {
    assert SlotChar(f, 0) == f[3] && SlotChar(f, 1) == f[2] && SlotChar(f, 2) == f[1] && SlotChar(f, 3) == f[0];
  }

  /** The codes of the glyphs used in the examples below. */
  lemma ExampleCodes()
    ensures SlotCode('5', false) == 0x6d && SlotCode('3', true) == 0xcf
    ensures SlotCode('-', false) == HYPHEN && SlotCode(' ', false) == BLANK
  {
  }

  /**
   * from_float lights the decimal point only in slot FloatDotPos(dotPos, negative)
   * (never beyond slot 3, none for a negative `dotPos`), and for -999 <= d <= 9999
   * the frame reads back as `d`.
   */
  lemma EncodeFloatSpec(d: int, negative: bool, leadingZeros: bool, dotPos: int)
    ensures forall pos | 0 <= pos < 4 :: PointLit(EncodeFloat(d, negative, leadingZeros, dotPos), pos) <==> pos == FloatDotPos(dotPos, negative)
    ensures -999 <= d <= 9999 ==> DecodeFrame(EncodeFloat(d, negative, leadingZeros, dotPos)) == Some(d)
  {
    EncodeIntPoint(d, false, leadingZeros, Some(FloatDotPos(dotPos, negative)));
    if -999 <= d <= 9999 {
      EncodeIntDecodes(d, false, leadingZeros, Some(FloatDotPos(dotPos, negative)));
    }
  }

  lemma Format35()
    ensures Format(-35, false, false) == " -35"
  {
    assert NatText(3) == "3";
    assert NatText(35) == NatText(3) + "5";
    assert IntText(-35) == "-35";
  }

  /**
   * from_float(-3.456, dot_pos=1): the integer -35 shown as " -3.5". The
   * rounded value is a parameter fixed by the requires, not the literal -35,
   * so that the solver works from the lemmas called here instead of
   * evaluating EncodeFloat outright.
   */
  lemma EncodeFloatExample(d: int)
    requires d == -35
    ensures EncodeFloat(d, true, false, 1) == [0x6d, 0xcf, 0x40, 0x00]
  {
    Format35();
    EncodeIntField(d, false, false, Some(1));
    ExampleCodes();
  }

  /** The frame of a four-character text of table characters, slot 0 from its last character. */
  function TextFrame(s: string): Digits
    requires |s| == 4 && forall i | 0 <= i < 4 :: CharCode(s[i]).Some?
  {
    [CharCode(s[3]).value, CharCode(s[2]).value, CharCode(s[1]).value, CharCode(s[0]).value]
  }

  /** from_string of a four-character text of table characters, with no dot, is its TextFrame. */
  lemma TextFrameSpec(s: string)
    requires |s| == 4 && forall i | 0 <= i < 4 :: CharCode(s[i]).Some?
    ensures EncodeText(s, false, None) == Ok(TextFrame(s))
  {
    assert Justify(s, false) == s;
    EncodeTextSpec(s, false, None);
    assert forall i | 0 <= i < 4 :: CharCode(s[i]).Some?;
    var ds := EncodeText(s, false, None).value;
    SlotsFrame(s, None, ds);
  }

  // ---------------------------------------------------------------------
  // The frame object

  /** A frame: the four codes in a list that `Digit` overwrites in place. */
  class DState {
    var digits: Digits

    /** DState(digits=None): the given codes, or "8888" when none are given. */
    constructor (digits: Option<Digits>)
      ensures this.digits == if digits.Some? then digits.value else FULL
    {
      this.digits := if digits.Some? then digits.value else FULL;
    }

    static method Full() returns (d: DState)
      ensures fresh(d) && d.digits == FULL
    {
      d := new DState(None);
    }

    static method Blank() returns (d: DState)
      ensures fresh(d) && d.digits == BLANKS
    {
      d := new DState(Some(BLANKS));
    }

    /**
     * digit(pos, v): overwrite slot `pos` with a bytes value as it is or
     * with the table code of a str, and return this same object; raise
     * for any other kind of value, a missing key or a bad index, leaving
     * the frame as it was.
     */
    method Digit(pos: int, v: DigitArg) returns (r: Result<DState, Error>)
      modifies this
      ensures DigitUpdate(old(digits), pos, v).Ok? ==> r == Ok(this) && digits == DigitUpdate(old(digits), pos, v).value
      ensures DigitUpdate(old(digits), pos, v).Err? ==> r == Err(DigitUpdate(old(digits), pos, v).error) && digits == old(digits)
    {
      var code: Code;
      match v {
        case Bytes(c) =>
          code := c;
        case Str(s) =>
          var found := Segments(s);
          if found.None? {
            return Err(KeyError(s));
          }
          code := found.value;
        case OtherType =>
          return Err(WrongDigitType);
      }
      var i := PyIndex(pos, 4);
      if i.None? {
        return Err(IndexError(pos));
      }
      digits := digits[i.value := code];
      return Ok(this);
    }

    /**
     * from_string(v, align_left, dot_pos): a fresh frame whose slots are
     * filled from the padded text, right to left; a character missing from
     * the table raises KeyError and no frame is returned.
     */
    static method FromString(v: string, alignLeft: bool, dotPos: Option<int>) returns (r: Result<DState, Error>)
      ensures r.Ok? ==> fresh(r.value) && EncodeText(v, alignLeft, dotPos) == Ok(r.value.digits)
      ensures r.Err? ==> EncodeText(v, alignLeft, dotPos) == Err(r.error)
    {
      var dstate := new DState(None);
      var f := Justify(v, alignLeft);
      for pos := 0 to 4
        invariant EncodeSlots(f, dotPos, pos) == Ok(dstate.digits[..pos])
      {
        var key := SlotKey(f, pos, dotPos);
        var symbol := Segments(key);
        if symbol.None? {
          EncodeSlotsStops(f, dotPos, pos + 1, 4);
          return Err(KeyError(key));
        }
        var _ := dstate.Digit(pos, Bytes(symbol.value));
        assert dstate.digits[..pos + 1] == dstate.digits[..pos] + [symbol.value];
      }
      assert dstate.digits[..4] == dstate.digits;
      return Ok(dstate);
    }

    /** from_int(v, align_left, leading_zeros, dot_pos): from_string of the formatted text, which always succeeds. */
    static method FromInt(v: int, alignLeft: bool, leadingZeros: bool, dotPos: Option<int>) returns (d: DState)
      ensures fresh(d) && d.digits == EncodeInt(v, alignLeft, leadingZeros, dotPos)
    {
      var f := Format(v, alignLeft, leadingZeros);
      var r := FromString(f, alignLeft, dotPos);
      FormatEncodes(v, alignLeft, leadingZeros, dotPos);
      d := r.value;
    }

    /**
     * from_float(v, leading_zeros, dot_pos), given the rounded integer `d`
     * and the sign of `v`: clamp the dot position and delegate to from_int.
     */
    static method FromFloat(d: int, negative: bool, leadingZeros: bool, dotPos: int) returns (r: DState)
      ensures fresh(r) && r.digits == EncodeFloat(d, negative, leadingZeros, dotPos)
    {
      var dotPos2 := dotPos;
      if dotPos > 2 {
        if negative {
          dotPos2 := 2;
        } else {
          dotPos2 := 3;
        }
      }
      r := FromInt(d, false, leadingZeros, Some(dotPos2));
    }
  }
}
