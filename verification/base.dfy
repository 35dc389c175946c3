/** Result and error values shared by the model, and Python's list indexing. */
module Base {

  datatype Option<+T> = None | Some(value: T)

  datatype Result<+T, +E> = Ok(value: T) | Err(error: E)

  /** The exceptions the modelled code can raise. */
  datatype Error =
    | KeyError(key: string)         // a character missing from the segment table
    | IndexError(index: int)        // a list index outside the list
    | WrongDigitType                // ValueError raised by DState.digit for a value that is neither bytes nor str
    | TooManyScreens(screenNo: int) // ValueError raised by DDisplay.value for a slot at or beyond 100
    | ZeroDivision                  // ZeroDivisionError in DDriver.show: no frames, or zero ticks per frame

  /** Python's `xs[i]` on a list of length `len`: negative indices count from the end. */
  function PyIndex(i: int, len: nat): (r: Option<nat>)
    ensures r.Some? <==> -(len as int) <= i < len
    ensures r.Some? ==> r.value < len && (r.value as int == i || r.value as int == len + i)
    ensures 0 <= i < len ==> r == Some(i)
  {
    if 0 <= i < len then Some(i)
    else if -(len as int) <= i < 0 then Some(len + i)
    else None
  }
}
