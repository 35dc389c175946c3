/**
 * The segment codes of DState: digit-select bytes and the character table.
 *
 * Segment bits:   01 top, 02 upper right, 04 lower right, 08 bottom,
 *                 10 lower left, 20 upper left, 40 middle, 80 decimal point.
 */
module SegmentTable {
  import opened Base

  /** One byte sent to the display: a segment code or a digit-select code. */
  type Code = bv8

  /** DState.UNITS, TENS, HUNDREDS, THOUSANDS: the select byte of digit position 0..3. */
  const DIGIT_ENCODED: seq<Code> := [0xF7, 0xFB, 0xFD, 0xFE]

  /** DigitEncoded[pos]: the select byte of position `pos`, 0 being the rightmost digit. */
  function DigitSelect(pos: nat): Code
    requires pos < 4
  {
    DIGIT_ENCODED[pos]
  }

  /**
   * Segments_Chars: the base table, one entry per character. Its keys are
   * one-character strings; here the character itself.
   */
  function CharCode(c: char): Option<Code>
  {
    match c
    case ' ' => Some(0x00) case '0' => Some(0x3f) case '1' => Some(0x06) case '2' => Some(0x5b)
    case '3' => Some(0x4f) case '4' => Some(0x66) case '5' => Some(0x6d) case '6' => Some(0x7d)
    case '7' => Some(0x07) case '8' => Some(0x7f) case '9' => Some(0x6f) case 'A' => Some(0x77)
    case 'b' => Some(0x7c) case 'C' => Some(0x39) case 'c' => Some(0x58) case 'd' => Some(0x5e)
    case 'E' => Some(0x79) case 'F' => Some(0x71) case 'h' => Some(0x74) case 'H' => Some(0x76)
    case 'i' => Some(0x10) case 'I' => Some(0x30) case 'L' => Some(0x38) case 'O' => Some(0x3f)
    case 'o' => Some(0x5c) case 'P' => Some(0x73) case 'r' => Some(0x50) case 'S' => Some(0x6d)
    case 'U' => Some(0x3e) case 'u' => Some(0x1c) case '-' => Some(0x40) case '|' => Some(0x30)
    case '^' => Some(0x23) case '_' => Some(0x08) case '~' => Some(0x01) case '!' => Some(0x02)
    case '/' => Some(0x04) case '(' => Some(0x21) case ')' => Some(0x03) case '<' => Some(0x18)
    case '>' => Some(0x0c) case '.' => Some(0x80) case '?' => Some(0x53) case '"' => Some(0x36)
    case ':' => Some(0x48) case ';' => Some(0x09)
    case _ => None
  }

  /** Segments_Chars looked up by a string key: only one-character keys exist. */
  function SegmentsChars(key: string): Option<Code>
  {
    if |key| == 1 then CharCode(key[0]) else None
  }

  /** Segments_Dotted: the key `k + '.'` for every base key `k`, with bit 7 ORed into the code. */
  function SegmentsDotted(key: string): Option<Code>
  {
    if |key| == 2 && key[1] == '.' then
      match SegmentsChars(key[..1])
      case Some(v) => Some(v | 0x80)
      case None => None
    else None
  }

  /** Segments = Segments_Chars | Segments_Dotted: an entry of the right operand wins. */
  function Segments(key: string): Option<Code>
  {
    if SegmentsDotted(key).Some? then SegmentsDotted(key) else SegmentsChars(key)
  }

  const BLANK: Code := 0x00   // Segments[' ']
  const EIGHT: Code := 0x7f   // Segments['8']
  const HYPHEN: Code := 0x40  // Segments['-']

  // ---------------------------------------------------------------------
  // Properties of the tables

  /** The select byte of position `pos` is 0xFF with bit 3 - pos cleared, so the four are pairwise different. */
  lemma DigitSelectBits(pos: nat)
    requires pos < 4
    ensures DigitSelect(pos) & (1 << (3 - pos)) == 0
    ensures DigitSelect(pos) | (1 << (3 - pos)) == 0xFF
    ensures forall q | 0 <= q < 4 && q != pos :: DigitSelect(q) != DigitSelect(pos)
  {
  }

  /** The named codes are the table entries they are taken from. */
  lemma NamedCodes()
    ensures Segments(" ") == Some(BLANK)
    ensures Segments("8") == Some(EIGHT)
    ensures Segments("-") == Some(HYPHEN)
  {
  }

  /** For every base character k, the dotted entry k + '.' is the base code with bit 7 set, and only such keys are dotted. */
  lemma DottedIsBaseWithPoint(key: string)
    ensures SegmentsDotted(key).Some? <==> |key| == 2 && key[1] == '.' && CharCode(key[0]).Some?
    ensures SegmentsDotted(key).Some? ==> SegmentsDotted(key).value == CharCode(key[0]).value | 0x80
    ensures forall c: char :: Segments([c, '.']) == (if CharCode(c).Some? then Some(CharCode(c).value | 0x80) else None)
  {
    forall c: char ensures Segments([c, '.']) == (if CharCode(c).Some? then Some(CharCode(c).value | 0x80) else None) {
      assert [c, '.'][..1] == [c];
    }
  }

  /** A dotted key is never a base key, so the union keeps every entry of both tables. */
  lemma KeysDisjoint(key: string)
    ensures !(SegmentsDotted(key).Some? && SegmentsChars(key).Some?)
    ensures Segments(key).Some? <==> SegmentsChars(key).Some? || SegmentsDotted(key).Some?
    ensures SegmentsChars(key).Some? ==> Segments(key) == SegmentsChars(key)
  {
  }

  /** Every base code except that of '.' leaves the decimal-point bit clear. */
  lemma BasePointClear(c: char)
    requires CharCode(c).Some? && c != '.'
    ensures CharCode(c).value & 0x80 == 0
  {
  }
}
