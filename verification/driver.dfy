/**
 * DDriver: the refresh step. Every call of `show` advances a tick counter,
 * picks the active frame of each display from it and multiplexes the four
 * digits of that frame over the shared bus, one digit lit at a time.
 */
module Driver {
  import opened Base
  import opened SegmentTable
  import opened Encoder
  import opened Display

  /** What the refresh step does on the bus, in order. */
  datatype BusEvent =
    | CsLow(display: nat)   // chip select of display `display` driven low
    | CsHigh(display: nat)  // and released
    | Write(byte: Code)     // one byte sent over SPI
    | Hold                  // the pause that keeps the selected digit lit

  /** What `show` reads of a display: the codes of its frames and its ticks per frame. */
  datatype DisplayView = DisplayView(frames: seq<Digits>, period: nat)

  /** Index of the frame a display with `count` frames and `period` ticks per frame shows at tick `counter`. */
  function ActiveFrame(counter: nat, period: nat, count: nat): (i: nat)
    requires period > 0 && count > 0
    ensures i < count
  {
    (counter / period) % count
  }

  /** One transfer to display `d`: chip select low, the select byte, the segment code, chip select high. */
  function Transfer(d: nat, select: Code, code: Code): seq<BusEvent>
  {
    [CsLow(d), Write(select), Write(code), CsHigh(d)]
  }

  /** Lighting digit `pos` of display `d` with `code`, holding it, then blanking it. */
  function DigitTrace(d: nat, pos: nat, code: Code): seq<BusEvent>
    requires pos < 4
  {
    Transfer(d, DigitSelect(pos), code) + [Hold] + Transfer(d, DigitSelect(pos), BLANK)
  }

  /** Digits 0 .. n - 1 of `frame` on display `d`, in increasing order. */
  function FrameTrace(d: nat, frame: Digits, n: nat): (t: seq<BusEvent>)
    requires n <= 4
    ensures |t| == 9 * n
  {
    if n == 0 then [] else FrameTrace(d, frame, n - 1) + DigitTrace(d, n - 1, frame[n - 1])
  }

  /**
   * The bus trace of one `show` at tick `counter` over displays 0 .. n - 1,
   * and the exception that stops it: a display with no frames or with zero
   * ticks per frame raises ZeroDivisionError before it writes anything.
   */
  function CycleTrace(counter: nat, views: seq<DisplayView>, n: nat): (r: (seq<BusEvent>, Option<Error>))
    requires n <= |views|
  {
    if n == 0 then ([], None)
    else
      var (t, e) := CycleTrace(counter, views, n - 1);
      var v := views[n - 1];
      if e.Some? then (t, e)
      else if v.period == 0 || |v.frames| == 0 then (t, Some(ZeroDivision))
      else (t + FrameTrace(n - 1, v.frames[ActiveFrame(counter, v.period, |v.frames|)], 4), None)
  }

  /** A display that raises ends the step: the displays after it add nothing. */
  lemma {:induction false} CycleTraceStops(counter: nat, views: seq<DisplayView>, n: nat, m: nat)
    requires n <= m <= |views|
    requires CycleTrace(counter, views, n).1.Some?
    ensures CycleTrace(counter, views, m) == CycleTrace(counter, views, n)
  {
    if n < m {
      CycleTraceStops(counter, views, n, m - 1);
    }
  }

  /** The byte an event sends, if any. */
  function EventBytes(e: BusEvent): seq<Code>
  {
    if e.Write? then [e.byte] else []
  }

  /** The bytes sent over SPI in a trace, in order. */
  function Writes(t: seq<BusEvent>): seq<Code>
  {
    if t == [] then [] else Writes(t[..|t| - 1]) + EventBytes(t[|t| - 1])
  }

  // ---------------------------------------------------------------------
  // Properties of the refresh step

  /** A frame stays on for `period` consecutive ticks: ticks k * period .. (k + 1) * period - 1 show frame k mod count. */
  lemma ActiveFrameHolds(counter: nat, period: nat, count: nat, k: nat)
    requires period > 0 && count > 0
    requires k * period <= counter < (k + 1) * period
    ensures ActiveFrame(counter, period, count) == k % count
  {
    assert (k + 1) * period == k * period + period;
    DivModUnique(counter, period, k, counter - k * period);
  }

  /** Division with remainder determines quotient and remainder. */
  lemma DivModUnique(a: nat, n: nat, q: nat, r: nat)
    requires 0 <= r < n && a == q * n + r
    ensures a / n == q && a % n == r
  {
    var q', r' := a / n, a % n;
    assert a == q' * n + r';
    if q' != q {
      var x := if q' < q then q - q' else q' - q;
      MulAtLeast(x, n);
    }
  }

  lemma MulAtLeast(x: int, n: nat)
    requires x >= 1
    ensures x * n >= n
  {
    assert x * n == (x - 1) * n + n;
  }

  /** The tick `counter` lies in the `counter / period`-th block of `period` ticks. */
  lemma TickBlock(counter: nat, period: nat)
    requires period > 0
    ensures (counter / period) * period <= counter < (counter / period + 1) * period
  {
    var k := counter / period;
    assert counter == k * period + counter % period;
    assert (k + 1) * period == k * period + period;
  }

  lemma ModSucc(k: nat, n: nat)
    requires n > 0
    ensures (k + 1) % n == (k % n + 1) % n
  {
    var q, r := k / n, k % n;
    assert k == q * n + r;
    if r + 1 < n {
      DivModUnique(k + 1, n, q, r + 1);
      DivModUnique(r + 1, n, 0, r + 1);
    } else {
      assert k + 1 == (q + 1) * n;
      DivModUnique(k + 1, n, q + 1, 0);
      DivModUnique(r + 1, n, 1, 0);
    }
  }

  /** `period` ticks later the next frame is shown, wrapping round after the last. */
  lemma ActiveFrameAdvances(counter: nat, period: nat, count: nat)
    requires period > 0 && count > 0
    ensures ActiveFrame(counter + period, period, count) == (ActiveFrame(counter, period, count) + 1) % count
  {
    var k := counter / period;
    TickBlock(counter, period);
    assert (k + 2) * period == (k + 1) * period + period;
    ActiveFrameHolds(counter + period, period, count, k + 1);
    ModSucc(k, count);
  }

  /** The frames repeat every period * count ticks. */
  lemma ActiveFramePeriodic(counter: nat, period: nat, count: nat)
    requires period > 0 && count > 0
    ensures ActiveFrame(counter + period * count, period, count) == ActiveFrame(counter, period, count)
  {
    var k := counter / period;
    TickBlock(counter, period);
    assert (k + count) * period == k * period + period * count;
    assert (k + count + 1) * period == (k + 1) * period + period * count;
    ActiveFrameHolds(counter + period * count, period, count, k + count);
    var q, r := k / count, k % count;
    assert k == q * count + r;
    assert k + count == (q + 1) * count + r;
    DivModUnique(k + count, count, q + 1, r);
  }

  /** Digit `pos` occupies events 9 * pos .. 9 * pos + 8 of a frame's trace. */
  lemma {:induction false} FrameTraceLayout(d: nat, frame: Digits, n: nat, pos: nat)
    requires pos < n <= 4
    ensures FrameTrace(d, frame, n)[9 * pos .. 9 * pos + 9] == DigitTrace(d, pos, frame[pos])
  {
    if pos < n - 1 {
      FrameTraceLayout(d, frame, n - 1, pos);
      assert FrameTrace(d, frame, n)[..9 * (n - 1)] == FrameTrace(d, frame, n - 1);
    }
  }

  lemma {:induction false} WritesAppend(a: seq<BusEvent>, b: seq<BusEvent>)
    ensures Writes(a + b) == Writes(a) + Writes(b)
  {
    if b != [] {
      WritesAppend(a, b[..|b| - 1]);
      assert (a + b)[..|a + b| - 1] == a + b[..|b| - 1];
    } else {
      assert a + b == a;
    }
  }

  lemma WritesPrefix(t: seq<BusEvent>, k: nat)
    requires k < |t|
    ensures Writes(t[..k + 1]) == Writes(t[..k]) + EventBytes(t[k])
  {
    assert t[..k + 1][..k] == t[..k];
  }

  lemma TransferWrites(d: nat, select: Code, code: Code)
    ensures Writes(Transfer(d, select, code)) == [select, code]
  {
    var t := Transfer(d, select, code);
    WritesPrefix(t, 0);
    WritesPrefix(t, 1);
    WritesPrefix(t, 2);
    WritesPrefix(t, 3);
    assert t[..4] == t;
  }

  /** The bytes of one digit: its select byte and code, then its select byte and the blank code. */
  lemma DigitWrites(d: nat, pos: nat, code: Code)
    requires pos < 4
    ensures Writes(DigitTrace(d, pos, code)) == [DigitSelect(pos), code, DigitSelect(pos), BLANK]
  {
    var lit, off := Transfer(d, DigitSelect(pos), code), Transfer(d, DigitSelect(pos), BLANK);
    TransferWrites(d, DigitSelect(pos), code);
    TransferWrites(d, DigitSelect(pos), BLANK);
    WritesAppend(lit, [Hold]);
    WritesAppend(lit + [Hold], off);
    assert Writes([Hold]) == [];
  }

  /** The bytes a frame's first n digits should put on the bus, digit by digit in increasing position. */
  function FrameBytes(frame: Digits, n: nat): (w: seq<Code>)
    requires n <= 4
    ensures |w| == 4 * n
  {
    if n == 0 then [] else FrameBytes(frame, n - 1) + [DigitSelect(n - 1), frame[n - 1], DigitSelect(n - 1), BLANK]
  }

  /** The SPI bytes of a frame's first n digits are FrameBytes. */
  lemma {:induction false} FrameWrites(d: nat, frame: Digits, n: nat)
    requires n <= 4
    ensures Writes(FrameTrace(d, frame, n)) == FrameBytes(frame, n)
  {
    if n > 0 {
      FrameWrites(d, frame, n - 1);
      DigitWrites(d, n - 1, frame[n - 1]);
      WritesAppend(FrameTrace(d, frame, n - 1), DigitTrace(d, n - 1, frame[n - 1]));
    }
  }

  /**
   * The sixteen SPI bytes of a whole frame: for positions 0 to 3 in order,
   * the select byte and the code, then the select byte again and the blank code.
   */
  lemma FrameBytesSpelled(frame: Digits)
    ensures FrameBytes(frame, 4) ==
      [DigitSelect(0), frame[0], DigitSelect(0), BLANK, DigitSelect(1), frame[1], DigitSelect(1), BLANK,
       DigitSelect(2), frame[2], DigitSelect(2), BLANK, DigitSelect(3), frame[3], DigitSelect(3), BLANK]
  {
    assert FrameBytes(frame, 1) == [DigitSelect(0), frame[0], DigitSelect(0), BLANK];
    assert FrameBytes(frame, 2) == FrameBytes(frame, 1) + [DigitSelect(1), frame[1], DigitSelect(1), BLANK];
    assert FrameBytes(frame, 3) == FrameBytes(frame, 2) + [DigitSelect(2), frame[2], DigitSelect(2), BLANK];
  }

  /** A step over n displays raises ZeroDivisionError exactly when one of them has no frames or zero ticks per frame. */
  lemma {:induction false} CycleTraceRaises(counter: nat, views: seq<DisplayView>, n: nat)
    requires n <= |views|
    ensures CycleTrace(counter, views, n).1.Some? <==> exists k | 0 <= k < n :: views[k].period == 0 || |views[k].frames| == 0
    ensures CycleTrace(counter, views, n).1.Some? ==> CycleTrace(counter, views, n).1 == Some(ZeroDivision)
  {
    if n > 0 {
      CycleTraceRaises(counter, views, n - 1);
    }
  }

  /** When no display raises, the step is 36 events per display, display k writing its active frame. */
  lemma {:induction false} CycleTraceLayout(counter: nat, views: seq<DisplayView>, n: nat)
    requires n <= |views|
    requires forall k | 0 <= k < n :: views[k].period > 0 && |views[k].frames| > 0
    ensures CycleTrace(counter, views, n).1.None?
    ensures var t := CycleTrace(counter, views, n).0;
      && |t| == 36 * n
      && forall k | 0 <= k < n ::
           t[36 * k .. 36 * k + 36] == FrameTrace(k, views[k].frames[ActiveFrame(counter, views[k].period, |views[k].frames|)], 4)
  {
    if n > 0 {
      CycleTraceLayout(counter, views, n - 1);
      var t := CycleTrace(counter, views, n - 1).0;
      var v := views[n - 1];
      var f := FrameTrace(n - 1, v.frames[ActiveFrame(counter, v.period, |v.frames|)], 4);
      var u := CycleTrace(counter, views, n).0;
      assert u == t + f;
      forall k | 0 <= k < n
        ensures u[36 * k .. 36 * k + 36] == FrameTrace(k, views[k].frames[ActiveFrame(counter, views[k].period, |views[k].frames|)], 4)
      {
        if k < n - 1 {
          assert u[36 * k .. 36 * k + 36] == t[36 * k .. 36 * k + 36];
        } else {
          assert u[36 * k .. 36 * k + 36] == f;
        }
      }
    }
  }

  /** The first show of a new driver, at tick 1, writes its single full frame, or raises for zero ticks per frame. */
  lemma FirstShow(period: nat)
    ensures period > 0 ==> CycleTrace(1, [DisplayView([FULL], period)], 1) == (FrameTrace(0, FULL, 4), None)
    ensures period == 0 ==> CycleTrace(1, [DisplayView([FULL], period)], 1) == ([], Some(ZeroDivision))
  {
    if period > 0 {
      assert ActiveFrame(1, period, 1) == 0;
      assert [] + FrameTrace(0, FULL, 4) == FrameTrace(0, FULL, 4);
    }
  }

  /** The view `show` has of a display object. */
  function ViewOf(disp: DDisplay): DisplayView
    reads disp, set s | s in disp.screens
  {
    DisplayView(FramesOf(disp.screens), disp.period)
  }

  /**
   * The inner loop of show for display `d`: for each position in turn,
   * select the digit and write its code, hold, then select it again and
   * write the blank code.
   */
  method WriteFrame(d: nat, frame: Digits) returns (trace: seq<BusEvent>)
    ensures trace == FrameTrace(d, frame, 4)
  {
    trace := [];
    for pos := 0 to 4
      invariant trace == FrameTrace(d, frame, pos)
    {
      trace := trace + [CsLow(d), Write(DIGIT_ENCODED[pos]), Write(frame[pos]), CsHigh(d), Hold];
      trace := trace + [CsLow(d), Write(DIGIT_ENCODED[pos]), Write(BLANK), CsHigh(d)];
      assert trace == FrameTrace(d, frame, pos) + DigitTrace(d, pos, frame[pos]);
    }
  }

  /** The views of a list of displays. */
  function ViewsOf(ds: seq<DDisplay>): (vs: seq<DisplayView>)
    reads set d | d in ds, set d, s | d in ds && s in d.screens :: s
    ensures |vs| == |ds| && forall k | 0 <= k < |ds| :: vs[k] == ViewOf(ds[k])
  {
    if ds == [] then [] else ViewsOf(ds[..|ds| - 1]) + [ViewOf(ds[|ds| - 1])]
  }

  /** One more display that does not raise appends its active frame's trace. */
  lemma CycleTraceStep(counter: nat, views: seq<DisplayView>, k: nat, t: seq<BusEvent>)
    requires k < |views| && CycleTrace(counter, views, k) == (t, None)
    requires views[k].period > 0 && |views[k].frames| > 0
    ensures CycleTrace(counter, views, k + 1) ==
      (t + FrameTrace(k, views[k].frames[ActiveFrame(counter, views[k].period, |views[k].frames|)], 4), None)
  {
  }

  /**
   * The loop of show over the displays at tick `counter`: each display's
   * active frame in turn, stopping at the first display whose frame choice
   * divides by zero.
   */
  method Refresh(counter: nat, views: seq<DisplayView>) returns (trace: seq<BusEvent>, raised: Option<Error>)
    ensures (trace, raised) == CycleTrace(counter, views, |views|)
  {
    trace := [];
    for k := 0 to |views|
      invariant CycleTrace(counter, views, k) == (trace, None)
    {
      var v := views[k];
      if v.period == 0 || |v.frames| == 0 {
        CycleTraceStops(counter, views, k + 1, |views|);
        return trace, Some(ZeroDivision);
      }
      var frame := v.frames[(counter / v.period) % |v.frames|];
      var frameTrace := WriteFrame(k, frame);
      CycleTraceStep(counter, views, k, trace);
      trace := trace + frameTrace;
    }
    return trace, None;
  }

  class DDriver {
    /** Refresh ticks so far; `show` raises it before using it. */
    var counter: nat
    var displays: seq<DDisplay>

    /** DDriver(screen_time): tick 0 and a single display, `period` ticks per frame. */
    constructor (period: nat)
      ensures counter == 0 && |displays| == 1 && fresh(displays[0])
      ensures displays[0].period == period
      ensures |displays[0].screens| == 1 && fresh(displays[0].screens[0]) && displays[0].screens[0].digits == FULL
    {
      counter := 0;
      var d := new DDisplay(period);
      displays := [d];
    }

    /**
     * value(dstate, screen_no, display_no): DDisplay.value on the display
     * at `displayNo` (a negative number counts from the end); a number
     * outside the list raises IndexError and changes nothing.
     */
    method Value(dstate: DState, screenNo: int, displayNo: int) returns (raised: Option<Error>)
      modifies displays
      ensures displays == old(displays)
      ensures PyIndex(displayNo, |displays|).None? ==>
        raised == Some(IndexError(displayNo)) && forall d | d in displays :: d.screens == old(d.screens)
      ensures PyIndex(displayNo, |displays|).Some? ==>
        var disp := displays[PyIndex(displayNo, |displays|).value];
        && ValueEffect(disp, dstate, screenNo, raised)
        && forall d | d in displays && d != disp :: d.screens == old(d.screens)
    {
      var i := PyIndex(displayNo, |displays|);
      if i.None? {
        return Some(IndexError(displayNo));
      }
      raised := displays[i.value].Value(dstate, screenNo);
    }

    /** values(dstates, display_no): DDisplay.values on the display at `displayNo`. */
    method Values(dstates: seq<DState>, displayNo: int) returns (raised: Option<Error>)
      modifies displays
      ensures displays == old(displays)
      ensures PyIndex(displayNo, |displays|).None? ==>
        raised == Some(IndexError(displayNo)) && forall d | d in displays :: d.screens == old(d.screens)
      ensures PyIndex(displayNo, |displays|).Some? ==>
        var disp := displays[PyIndex(displayNo, |displays|).value];
        && raised.None? && disp.screens == dstates
        && forall d | d in displays && d != disp :: d.screens == old(d.screens)
    {
      var i := PyIndex(displayNo, |displays|);
      if i.None? {
        return Some(IndexError(displayNo));
      }
      displays[i.value].Values(dstates);
      return None;
    }

    /**
     * show(): raise the counter by one, then for each display in turn
     * write its active frame digit by digit; stop at the first display
     * that raises.
     */
    method Show() returns (trace: seq<BusEvent>, raised: Option<Error>)
      modifies this
      ensures counter == old(counter) + 1 && displays == old(displays)
      ensures (trace, raised) == CycleTrace(counter, old(ViewsOf(displays)), |displays|)
    {
      var views := ViewsOf(displays);
      counter := counter + 1;
      trace, raised := Refresh(counter, views);
    }
  }
}
