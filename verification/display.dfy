/**
 * DDisplay: one physical display and the list of frames ("screens") it
 * cycles through. The frames are DState objects held by reference, so a
 * frame changed with DState.digit after being handed over changes what the
 * display shows.
 */
module Display {
  import opened Base
  import opened Encoder

  /** DDisplay.value refuses slot numbers at or beyond this. */
  const MAX_SCREENS: int := 100

  /**
   * Where DDisplay.value(d, screenNo) writes on a list of `len` frames: the
   * list's new length and the index written, or the exception it raises.
   */
  function ScreenSlot(len: nat, screenNo: int): (r: Result<(nat, nat), Error>)
    ensures r.Ok? <==> -(len as int) <= screenNo < MAX_SCREENS
    ensures screenNo >= MAX_SCREENS ==> r == Err(TooManyScreens(screenNo))
    ensures screenNo < -(len as int) ==> r == Err(IndexError(screenNo))
    ensures r.Ok? ==> var (newLen, i) := r.value;
      && newLen == (if screenNo < len then len else screenNo + 1)
      && i < newLen
      && (i as int == screenNo || i as int == len + screenNo)
  {
    if screenNo >= MAX_SCREENS then Err(TooManyScreens(screenNo))
    else
      var newLen := if screenNo < len then len else screenNo + 1;
      match PyIndex(screenNo, newLen)
      case None => Err(IndexError(screenNo))
      case Some(i) => Ok((newLen, i))
  }

  /** A list that starts with at most 100 frames never grows past 100 through DDisplay.value. */
  lemma ScreenSlotBounded(len: nat, screenNo: int)
    requires len <= MAX_SCREENS
    ensures ScreenSlot(len, screenNo).Ok? ==> ScreenSlot(len, screenNo).value.0 <= MAX_SCREENS
  {
  }

  /** The codes currently held by a list of frames. */
  function FramesOf(ss: seq<DState>): (r: seq<Digits>)
    reads set s | s in ss
    ensures |r| == |ss| && forall i | 0 <= i < |ss| :: r[i] == ss[i].digits
  {
    if ss == [] then [] else FramesOf(ss[..|ss| - 1]) + [ss[|ss| - 1].digits]
  }

  /**
   * What DDisplay.value(dstate, screenNo) did to `disp` and what it raised:
   * on an exception the list is as it was; otherwise it has the length
   * ScreenSlot gives, `dstate` sits at the index written, the frames that
   * were there are kept, and every appended slot not written holds a fresh
   * full frame.
   */
  twostate predicate ValueEffect(disp: DDisplay, dstate: DState, screenNo: int, new raised: Option<Error>)
    reads disp, set s | s in disp.screens
  {
    match ScreenSlot(old(|disp.screens|), screenNo)
    case Err(e) => raised == Some(e) && disp.screens == old(disp.screens)
    case Ok((newLen, i)) =>
      && raised.None?
      && |disp.screens| == newLen
      && disp.screens[i] == dstate
      && (forall j | 0 <= j < old(|disp.screens|) && j != i :: disp.screens[j] == old(disp.screens)[j])
      && (forall j | old(|disp.screens|) <= j < newLen && j != i :: fresh(disp.screens[j]) && disp.screens[j].digits == FULL)
  }

  class DDisplay {
    /** The frames, shown in turn; `values` may leave the list empty. */
    var screens: seq<DState>
    /** Ticks of the refresh counter per frame: round(freq * screen_time), taken as given. */
    const period: nat

    /** DDisplay(screen_time): a single full frame. */
    constructor (period: nat)
      ensures this.period == period
      ensures |screens| == 1 && fresh(screens[0]) && screens[0].digits == FULL
    {
      this.period := period;
      var s := new DState(None);
      screens := [s];
    }

    /**
     * value(dstate, screen_no): refuse slots from 100 up; otherwise append
     * fresh full frames, at most 100 of them, while the slot is past the
     * end, then store `dstate` in the slot (a negative slot counts from the
     * end, and one before the start raises IndexError).
     */
    method Value(dstate: DState, screenNo: int) returns (raised: Option<Error>)
      modifies this
      ensures ValueEffect(this, dstate, screenNo, raised)
    {
      if screenNo >= MAX_SCREENS {
        return Some(TooManyScreens(screenNo));
      }
      ghost var oldScreens := screens;
      for k := 0 to 100
        invariant |screens| == |oldScreens| + k
        invariant k > 0 ==> |screens| <= screenNo + 1
        invariant screens[..|oldScreens|] == oldScreens
        invariant forall j | |oldScreens| <= j < |screens| :: fresh(screens[j]) && screens[j].digits == FULL
      {
        if screenNo >= |screens| {
          var s := new DState(None);
          screens := screens + [s];
        } else {
          break;
        }
      }
      var i := PyIndex(screenNo, |screens|);
      if i.None? {
        return Some(IndexError(screenNo));
      }
      screens := screens[i.value := dstate];
      return None;
    }

    /** values(dstates): the given list becomes the frame list, as it is. */
    method Values(dstates: seq<DState>)
      modifies this
      ensures screens == dstates
    {
      screens := dstates;
    }
  }
}
