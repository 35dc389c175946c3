/**
 * Decimal text of integers and fixed-width padding: the `%4d`, `%04d`, `%-4d`,
 * `%4s` and `%-4s` conversions that DState uses, written out, and a parser
 * for a rendered field that serves as their inverse.
 */
module Formatting {
  import opened Base

  predicate IsDigit(c: char) { '0' <= c <= '9' }

  predicate AllDigits(s: string) { forall i | 0 <= i < |s| :: IsDigit(s[i]) }

  /** The characters a rendered integer field is made of. */
  predicate NumericChar(c: char) { IsDigit(c) || c == ' ' || c == '-' }

  predicate NumericText(s: string) { forall i | 0 <= i < |s| :: NumericChar(s[i]) }

  function DigitChar(d: nat): (c: char)
    requires d < 10
    ensures IsDigit(c) && c as int - '0' as int == d
  {
    ('0' as int + d) as char
  }

  function DigitValue(c: char): (d: nat)
    requires IsDigit(c)
    ensures d < 10 && DigitChar(d) == c
  {
    c as int - '0' as int
  }

  function Pow10(k: nat): (p: nat)
    ensures p >= 1
  {
    if k == 0 then 1 else 10 * Pow10(k - 1)
  }

  function Spaces(n: nat): (s: string)
    ensures |s| == n && forall i | 0 <= i < n :: s[i] == ' '
  {
    seq(n, _ => ' ')
  }

  /** Decimal digits of `n`, most significant first: Python's `str(n)` for `n >= 0`. */
  function NatText(n: nat): (s: string)
    ensures 1 <= |s| && AllDigits(s)
    ensures |s| > 1 ==> s[0] != '0'
  {
    if n < 10 then [DigitChar(n)] else NatText(n / 10) + [DigitChar(n % 10)]
  }

  /** The value of a string of decimal digits (the empty string reads as 0). */
  function NatValue(s: string): nat
    requires AllDigits(s)
  {
    if s == [] then 0 else 10 * NatValue(s[..|s| - 1]) + DigitValue(s[|s| - 1])
  }

  /** Python's `"%d" % v`. */
  function IntText(v: int): string
  {
    if v < 0 then "-" + NatText(-v) else NatText(v)
  }

  /** Right-justify `s` in a field of `width` with `fill` (`%4s`, `%4d`, `%04d` digits); never truncates. */
  function PadLeft(s: string, width: nat, fill: char): (r: string)
    ensures |r| == if |s| < width then width else |s|
    ensures r[|r| - |s|..] == s
    ensures forall i | 0 <= i < |r| - |s| :: r[i] == fill
  {
    if |s| < width then seq(width - |s|, _ => fill) + s else s
  }

  /** Left-justify `s` in a field of `width` with spaces (`%-4s`, `%-4d`); never truncates. */
  function PadRight(s: string, width: nat): (r: string)
    ensures |r| == if |s| < width then width else |s|
    ensures r[..|s|] == s
    ensures forall i | |s| <= i < |r| :: r[i] == ' '
  {
    if |s| < width then s + Spaces(width - |s|) else s
  }

  /**
   * The text DState.from_int renders: `%4d`, replaced by `%04d` with
   * `leadingZeros`, replaced by `%-4d` with `alignLeft` (which therefore wins).
   */
  function Format(v: int, alignLeft: bool, leadingZeros: bool): string
  {
    if alignLeft then PadRight(IntText(v), 4)
    else if leadingZeros then
      (if v < 0 then "-" + PadLeft(NatText(-v), 3, '0') else PadLeft(NatText(v), 4, '0'))
    else PadLeft(IntText(v), 4, ' ')
  }

  // ---------------------------------------------------------------------
  // Reading a rendered field back

  function TrimLeft(s: string): (r: string)
    ensures |r| <= |s|
  {
    if |s| > 0 && s[0] == ' ' then TrimLeft(s[1..]) else s
  }

  function TrimRight(s: string): (r: string)
    ensures |r| <= |s|
  {
    if |s| > 0 && s[|s| - 1] == ' ' then TrimRight(s[..|s| - 1]) else s
  }

  /** The integer a rendered field shows: surrounding spaces, an optional sign, then digits. */
  function FieldValue(f: string): Option<int>
  {
    var t := TrimRight(TrimLeft(f));
    if |t| > 1 && t[0] == '-' && AllDigits(t[1..]) then Some(-(NatValue(t[1..]) as int))
    else if |t| > 0 && AllDigits(t) then Some(NatValue(t))
    else None
  }

  // ---------------------------------------------------------------------
  // Properties

  lemma {:induction false} NatTextRoundTrip(n: nat)
    ensures NatValue(NatText(n)) == n
  {
    if n >= 10 {
      var s := NatText(n);
      NatTextRoundTrip(n / 10);
      assert s[..|s| - 1] == NatText(n / 10);
    }
  }

  /** `n` has at most `k` decimal digits exactly when it is below 10^k. */
  lemma {:induction false} NatTextLength(n: nat, k: nat)
    requires k >= 1
    ensures |NatText(n)| <= k <==> n < Pow10(k)
  {
    if n >= 10 {
      if k == 1 {
        assert |NatText(n)| == |NatText(n / 10)| + 1;
      } else {
        NatTextLength(n / 10, k - 1);
        assert n / 10 < Pow10(k - 1) <==> n < Pow10(k);
      }
    } else {
      assert Pow10(k) == 10 * Pow10(k - 1);
    }
  }

  lemma {:induction false} NatValueAppend(p: string, s: string)
    requires AllDigits(p) && AllDigits(s)
    ensures AllDigits(p + s)
    ensures NatValue(p + s) == NatValue(p) * Pow10(|s|) + NatValue(s)
  {
    var ps := p + s;
    assert AllDigits(ps) by {
      forall i | 0 <= i < |ps| ensures IsDigit(ps[i]) {
        if i < |p| { assert ps[i] == p[i]; } else { assert ps[i] == s[i - |p|]; }
      }
    }
    if s != [] {
      var init := s[..|s| - 1];
      var d := DigitValue(s[|s| - 1]);
      assert ps[..|ps| - 1] == p + init;
      assert ps[|ps| - 1] == s[|s| - 1];
      NatValueAppend(p, init);
      var a, b, q := NatValue(p), NatValue(init), Pow10(|s| - 1);
      assert NatValue(ps) == 10 * NatValue(p + init) + d;
      assert NatValue(s) == 10 * b + d;
      Distribute(a, q, b, d);
    } else {
      assert ps == p;
    }
  }

  lemma Distribute(a: int, q: int, b: int, d: int)
    ensures 10 * (a * q + b) + d == a * (10 * q) + (10 * b + d)
  {
  }

  lemma {:induction false} ZerosValue(n: nat)
    ensures AllDigits(seq(n, _ => '0')) && NatValue(seq(n, _ => '0')) == 0
  {
    if n > 0 {
      assert seq(n, _ => '0')[..n - 1] == seq(n - 1, _ => '0');
      ZerosValue(n - 1);
    }
  }

  /** Zero padding does not change the value of a digit string. */
  lemma ZeroPadValue(s: string, width: nat)
    requires AllDigits(s)
    ensures AllDigits(PadLeft(s, width, '0'))
    ensures NatValue(PadLeft(s, width, '0')) == NatValue(s)
  {
    if |s| < width {
      var z := seq(width - |s|, _ => '0');
      ZerosValue(width - |s|);
      NatValueAppend(z, s);
    }
  }

  lemma {:induction false} TrimLeftSpaces(n: nat, t: string)
    requires t == [] || t[0] != ' '
    ensures TrimLeft(Spaces(n) + t) == t
  {
    if n > 0 {
      assert (Spaces(n) + t)[1..] == Spaces(n - 1) + t;
      TrimLeftSpaces(n - 1, t);
    } else {
      assert Spaces(n) + t == t;
    }
  }

  lemma {:induction false} TrimRightSpaces(t: string, n: nat)
    requires t == [] || t[|t| - 1] != ' '
    ensures TrimRight(t + Spaces(n)) == t
  {
    if n > 0 {
      assert (t + Spaces(n))[..|t| + n - 1] == t + Spaces(n - 1);
      TrimRightSpaces(t, n - 1);
    } else {
      assert t + Spaces(n) == t;
    }
  }

  /** The field value of a string with no surrounding spaces is read from the string itself. */
  lemma TrimNothing(t: string)
    requires |t| > 0 && t[0] != ' ' && t[|t| - 1] != ' '
    ensures TrimRight(TrimLeft(t)) == t
  {
    assert TrimLeft(t) == t;
  }

  /** The decimal text of `v` fits the 4-character field exactly for -999 <= v <= 9999. */
  lemma IntTextFits(v: int)
    ensures |IntText(v)| <= 4 <==> -999 <= v <= 9999
  {
    if v < 0 {
      NatTextLength(-v, 3);
    } else {
      NatTextLength(v, 4);
    }
  }

  /** Reading back the unsigned or signed decimal text itself. */
  lemma IntTextValue(v: int)
    ensures |IntText(v)| > 0 && IntText(v)[0] != ' ' && IntText(v)[|IntText(v)| - 1] != ' '
    ensures TrimRight(TrimLeft(IntText(v))) == IntText(v)
    ensures FieldValue(IntText(v)) == Some(v)
  {
    var n: nat := if v < 0 then -v else v;
    NatTextRoundTrip(n);
    TrimNothing(IntText(v));
    if v < 0 {
      SignedDigitsValue(NatText(n));
    } else {
      DigitsValue(NatText(n));
    }
  }

  /** A sign followed by digits reads back as the negated digits' value. */
  lemma SignedDigitsValue(z: string)
    requires |z| > 0 && AllDigits(z)
    ensures FieldValue("-" + z) == Some(-(NatValue(z) as int))
  {
    var f := "-" + z;
    assert f[0] == '-' && f[1..] == z;
    TrimNothing(f);
    var t := TrimRight(TrimLeft(f));
    assert t[0] == '-' && t[1..] == z;
  }

  /** Digits alone read back as their value. */
  lemma DigitsValue(z: string)
    requires |z| > 0 && AllDigits(z)
    ensures FieldValue(z) == Some(NatValue(z) as int)
  {
    TrimNothing(z);
  }

  /** Reading back the `%04d` text of `v`. */
  lemma ZeroFilledValue(v: int)
    requires -999 <= v <= 9999
    ensures |Format(v, false, true)| == 4
    ensures FieldValue(Format(v, false, true)) == Some(v)
  {
    if v < 0 {
      ZeroFilledNegative(v);
    } else {
      ZeroFilledDigits(v, 4);
      var z := PadLeft(NatText(v), 4, '0');
      DigitsValue(z);
      assert Format(v, false, true) == z;
    }
  }

  lemma ZeroFilledNegative(v: int)
    requires -999 <= v < 0
    ensures |Format(v, false, true)| == 4
    ensures FieldValue(Format(v, false, true)) == Some(v)
  {
    ZeroFilledDigits(-v, 3);
    var z := PadLeft(NatText(-v), 3, '0');
    SignedDigitsValue(z);
    assert Format(v, false, true) == "-" + z;
  }

  /** The digits of `n` zero-filled to `width`, when they fit, are `width` digits worth `n`. */
  lemma ZeroFilledDigits(n: nat, width: nat)
    requires width >= 1 && n < Pow10(width)
    ensures var z := PadLeft(NatText(n), width, '0');
      |z| == width && AllDigits(z) && NatValue(z) == n
  {
    NatTextRoundTrip(n);
    NatTextLength(n, width);
    ZeroPadValue(NatText(n), width);
  }

  /** Spaces in front of a text with no surrounding spaces do not change what it reads as. */
  lemma LeftPaddedValue(n: nat, t: string)
    requires |t| > 0 && t[0] != ' ' && t[|t| - 1] != ' '
    ensures FieldValue(Spaces(n) + t) == FieldValue(t)
  {
    TrimLeftSpaces(n, t);
    TrimNothing(t);
  }

  /** Spaces after a text with no surrounding spaces do not change what it reads as. */
  lemma RightPaddedValue(t: string, n: nat)
    requires |t| > 0 && t[0] != ' ' && t[|t| - 1] != ' '
    ensures FieldValue(t + Spaces(n)) == FieldValue(t)
  {
    TrimRightSpaces(t, n);
    assert TrimLeft(t + Spaces(n)) == t + Spaces(n);
    TrimNothing(t);
  }

  /**
   * For every value in -999..9999 and every combination of the flags, the
   * rendered field is exactly four characters wide and reads back as `v`.
   */
  lemma FormatRoundTrip(v: int, alignLeft: bool, leadingZeros: bool)
    requires -999 <= v <= 9999
    ensures |Format(v, alignLeft, leadingZeros)| == 4
    ensures FieldValue(Format(v, alignLeft, leadingZeros)) == Some(v)
  {
    IntTextFits(v);
    IntTextValue(v);
    var t := IntText(v);
    if alignLeft {
      assert Format(v, alignLeft, leadingZeros) == t + Spaces(4 - |t|);
      RightPaddedValue(t, 4 - |t|);
    } else if leadingZeros {
      ZeroFilledValue(v);
    } else {
      assert Format(v, alignLeft, leadingZeros) == Spaces(4 - |t|) + t;
      LeftPaddedValue(4 - |t|, t);
    }
  }

  /**
   * Where the text goes in the field: `%4d` puts the decimal text at the
   * right end after spaces, `%-4d` at the left end before spaces, and `%04d`
   * leaves no space at all, filling with zeros between the sign and the digits.
   */
  lemma FormatLayout(v: int, alignLeft: bool, leadingZeros: bool)
    requires -999 <= v <= 9999
    ensures var f, t := Format(v, alignLeft, leadingZeros), IntText(v);
      && |t| <= 4 && |f| == 4
      && (alignLeft ==> f[..|t|] == t && forall i | |t| <= i < 4 :: f[i] == ' ')
      && (!alignLeft && !leadingZeros ==> f[4 - |t|..] == t && forall i | 0 <= i < 4 - |t| :: f[i] == ' ')
      && (!alignLeft && leadingZeros ==>
            var d := NatText(if v < 0 then -v else v);
            f[4 - |d|..] == d
            && (v < 0 ==> f[0] == '-')
            && (forall i | (if v < 0 then 1 else 0) <= i < 4 - |d| :: f[i] == '0'))
  {
    IntTextFits(v);
    if v < 0 { NatTextLength(-v, 3); } else { NatTextLength(v, 4); }
  }

  lemma NumericConcat(a: string, b: string)
    requires NumericText(a) && NumericText(b)
    ensures NumericText(a + b)
  {
    var ab := a + b;
    forall i | 0 <= i < |ab| ensures NumericChar(ab[i]) {
      if i < |a| { assert ab[i] == a[i]; } else { assert ab[i] == b[i - |a|]; }
    }
  }

  lemma IntTextNumeric(v: int)
    ensures NumericText(IntText(v))
  {
    var n: nat := if v < 0 then -v else v;
    assert NumericText(NatText(n));
    if v < 0 {
      NumericConcat("-", NatText(n));
    }
  }

  /** Every character Format renders is a digit, a space or the minus sign. */
  lemma FormatNumeric(v: int, alignLeft: bool, leadingZeros: bool)
    ensures NumericText(Format(v, alignLeft, leadingZeros))
  {
    IntTextNumeric(v);
    var t := IntText(v);
    if alignLeft {
      if |t| < 4 {
        assert NumericText(Spaces(4 - |t|));
        NumericConcat(t, Spaces(4 - |t|));
      }
    } else if leadingZeros {
      var n: nat := if v < 0 then -v else v;
      var w := if v < 0 then 3 else 4;
      var d := NatText(n);
      if |d| < w {
        var z := seq(w - |d|, _ => '0');
        assert NumericText(z);
        assert NumericText(d);
        NumericConcat(z, d);
      }
      if v < 0 {
        NumericConcat("-", PadLeft(d, w, '0'));
      }
    } else {
      if |t| < 4 {
        var sp := seq(4 - |t|, _ => ' ');
        assert NumericText(sp);
        NumericConcat(sp, t);
      }
    }
  }

  /** Outside -999..9999 no flag pads: every mode renders the plain decimal text, longer than the field. */
  lemma FormatOutOfRange(v: int, alignLeft: bool, leadingZeros: bool)
    requires !(-999 <= v <= 9999)
    ensures |IntText(v)| > 4
    ensures Format(v, alignLeft, leadingZeros) == IntText(v)
  {
    IntTextFits(v);
    if v < 0 {
      assert |NatText(-v)| >= 4;
    }
  }
}
