/**
 * DPattern: ready-made animations, each a list of frames built with
 * from_string (no dot, right-aligned) or by writing one raw code into
 * slot 3 of a blank frame.
 */
module Patterns {
  import opened Base
  import opened SegmentTable
  import opened Encoder

  /** A blank frame with `code` written as a bytes value into slot 3, the leftmost digit. */
  function BlankWith3(code: Code): (d: Digits)
    ensures DigitUpdate(BLANKS, 3, Bytes(code)) == Ok(d)
  {
    BLANKS[3 := code]
  }

  /** A segment running round the outline of the display. */
  const SWIRL1: seq<Digits> := [
    TextFrame("~   "), TextFrame(" ~  "), TextFrame("  ~ "), TextFrame("   ~"),
    TextFrame("   !"), TextFrame("   /"), TextFrame("   _"), TextFrame("  _ "),
    TextFrame(" _  "), TextFrame("_   "), BlankWith3(0x10), BlankWith3(0x20)]

  /** Two segments running round the outline. */
  const SWIRL2: seq<Digits> := [
    TextFrame("~~  "), TextFrame(" ~~ "), TextFrame("  ~~"), TextFrame("   )"),
    TextFrame("   1"), TextFrame("   >"), TextFrame("  __"), TextFrame(" __ "),
    TextFrame("__  "), TextFrame("<   "), TextFrame("|   "), TextFrame("(   ")]

  /** A dash moving from the leftmost digit to the rightmost. */
  const LINE1: seq<Digits> := [TextFrame("-   "), TextFrame(" -  "), TextFrame("  - "), TextFrame("   -")]

  /** A bar of dashes filling up from the left. */
  const CHARGE1: seq<Digits> := [
    TextFrame("    "), TextFrame("-   "), TextFrame("--  "), TextFrame("--- "), TextFrame("----")]

  /** A bar of half and full columns filling up from the left. */
  const CHARGE2: seq<Digits> := [
    TextFrame("    "), TextFrame("|   "), TextFrame("\"   "), TextFrame("\"|  "), TextFrame("\"\"  "),
    TextFrame("\"\"| "), TextFrame("\"\"\" "), TextFrame("\"\"\"|"), TextFrame("\"\"\"\"")]

  // ---------------------------------------------------------------------
  // Properties of the patterns

  lemma PatternLengths()
    ensures |SWIRL1| == 12 && |SWIRL2| == 12 && |LINE1| == 4 && |CHARGE1| == 5 && |CHARGE2| == 9
  {
  }

  /** Frame k of LINE1 shows a dash in slot 3 - k only. */
  lemma Line1Moves(k: nat, pos: nat)
    requires k < 4 && pos < 4
    ensures LINE1[k][pos] == if pos == 3 - k then HYPHEN else BLANK
  {
    if k == 0 { assert LINE1[0] == [BLANK, BLANK, BLANK, HYPHEN]; }
    else if k == 1 { assert LINE1[1] == [BLANK, BLANK, HYPHEN, BLANK]; }
    else if k == 2 { assert LINE1[2] == [BLANK, HYPHEN, BLANK, BLANK]; }
    else { assert LINE1[3] == [HYPHEN, BLANK, BLANK, BLANK]; }
  }

  /** Frame k of CHARGE1 shows dashes in the k leftmost slots and nothing elsewhere. */
  lemma Charge1Fills(k: nat, pos: nat)
    requires k < 5 && pos < 4
    ensures CHARGE1[k][pos] == if pos >= 4 - k then HYPHEN else BLANK
  {
    if k == 0 { assert CHARGE1[0] == [BLANK, BLANK, BLANK, BLANK]; }
    else if k == 1 { assert CHARGE1[1] == [BLANK, BLANK, BLANK, HYPHEN]; }
    else if k == 2 { assert CHARGE1[2] == [BLANK, BLANK, HYPHEN, HYPHEN]; }
    else if k == 3 { assert CHARGE1[3] == [BLANK, HYPHEN, HYPHEN, HYPHEN]; }
    else { assert CHARGE1[4] == [HYPHEN, HYPHEN, HYPHEN, HYPHEN]; }
  }
}
