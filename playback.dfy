/**
 * Button-to-command selection of `process_mouse_down`, `process_mouse_up`,
 * `process_click` and `process_key`. The operating-system calls they wrap
 * are recorded as an abstract trace of commands instead of being performed.
 */
module Playback {
  import opened Wrappers
  import opened Exceptions

  datatype Command =
    | SetCursorPos(x: int, y: int)
    | LeftDown | LeftUp
    | RightDown | RightUp
    | MiddleDown | MiddleUp
    | KeyDown(vk: int)
    | KeyUp(vk: int)
      /** `time.sleep(seconds)`, with the argument exactly as the source passes it. */
    | Sleep(seconds: nat)

  /** The commands a dispatch issued before it returned or raised, and the exception, if any. */
  datatype Dispatch = Dispatch(trace: seq<Command>, error: Option<Error>)

  predicate IsButtonName(button: string) {
    button == "left" || button == "right" || button == "middle"
  }

  predicate IsPress(c: Command) {
    c.LeftDown? || c.RightDown? || c.MiddleDown?
  }

  predicate IsRelease(c: Command) {
    c.LeftUp? || c.RightUp? || c.MiddleUp?
  }

  /** The button a press or release command acts on. */
  function ButtonOf(c: Command): Option<string> {
    match c
    case LeftDown => Some("left")
    case LeftUp => Some("left")
    case RightDown => Some("right")
    case RightUp => Some("right")
    case MiddleDown => Some("middle")
    case MiddleUp => Some("middle")
    case _ => None
  }

  /**
   * `process_mouse_down`: moves the cursor, then presses exactly the named
   * button; an unknown button raises `ValueError` after the cursor moved.
   */
  function ProcessMouseDown(button: string, x: int, y: int): (r: Dispatch)
    ensures |r.trace| >= 1 && r.trace[0] == SetCursorPos(x, y)
    ensures r.error.None? <==> IsButtonName(button)
    ensures r.error.None? ==> |r.trace| == 2 && IsPress(r.trace[1]) && ButtonOf(r.trace[1]) == Some(button)
    ensures r.error.Some? ==> r.trace == [SetCursorPos(x, y)] && r.error.value == ValueError("Invalid mouse button: " + button)
  {
    var moved := [SetCursorPos(x, y)];
    if button == "left" then Dispatch(moved + [LeftDown], None)
    else if button == "right" then Dispatch(moved + [RightDown], None)
    else if button == "middle" then Dispatch(moved + [MiddleDown], None)
    else Dispatch(moved, Some(ValueError("Invalid mouse button: " + button)))
  }

  /**
   * `process_mouse_up`: moves the cursor, then releases exactly the named
   * button; an unknown button raises `ValueError` after the cursor moved.
   */
  function ProcessMouseUp(button: string, x: int, y: int): (r: Dispatch)
    ensures |r.trace| >= 1 && r.trace[0] == SetCursorPos(x, y)
    ensures r.error.None? <==> IsButtonName(button)
    ensures r.error.None? ==> |r.trace| == 2 && IsRelease(r.trace[1]) && ButtonOf(r.trace[1]) == Some(button)
    ensures r.error.Some? ==> r.trace == [SetCursorPos(x, y)] && r.error.value == ValueError("Invalid mouse button: " + button)
  {
    var moved := [SetCursorPos(x, y)];
    if button == "left" then Dispatch(moved + [LeftUp], None)
    else if button == "right" then Dispatch(moved + [RightUp], None)
    else if button == "middle" then Dispatch(moved + [MiddleUp], None)
    else Dispatch(moved, Some(ValueError("Invalid mouse button: " + button)))
  }

  /** The largest whole number of seconds CPython's nanosecond clock (a signed 64-bit count) can hold. */
  const SleepMaxSeconds: int := 9223372036

  /**
   * `time.sleep(duration)` for an integer or `None` argument: `None` raises
   * `TypeError`, a count of seconds out of the clock's range raises
   * `OverflowError`, a negative one `ValueError`; otherwise it pauses.
   */
  function SleepFor(duration: Option<int>): (r: Dispatch)
    ensures r.error.None? <==> duration.Some? && 0 <= duration.value <= SleepMaxSeconds
    ensures r.error.None? ==> r.trace == [Sleep(duration.value as nat)]
    ensures r.error.Some? ==> r.trace == []
    ensures duration.None? ==> r.error == Some(TypeError("'NoneType' object cannot be interpreted as an integer"))
    ensures duration.Some? && -SleepMaxSeconds <= duration.value < 0 ==> r.error == Some(ValueError("sleep length must be non-negative"))
  {
    match duration
    case None => Dispatch([], Some(TypeError("'NoneType' object cannot be interpreted as an integer")))
    case Some(d) =>
      if d < -SleepMaxSeconds || d > SleepMaxSeconds then
        Dispatch([], Some(OverflowError("timestamp too large to convert to C _PyTime_t")))
      else if d < 0 then Dispatch([], Some(ValueError("sleep length must be non-negative")))
      else Dispatch([Sleep(d as nat)], None)
  }

  /**
   * `process_click`: moves the cursor, presses, waits `duration` and
   * releases; the press and release are always those of the left button,
   * whatever the event's button field says. When the pause raises, the
   * left button has been pressed and is never released.
   */
  function ProcessClick(button: string, x: int, y: int, duration: Option<int>): (r: Dispatch)
    ensures |r.trace| >= 2 && r.trace[0] == SetCursorPos(x, y)
    ensures IsPress(r.trace[1]) && ButtonOf(r.trace[1]) == Some("left")
    ensures r.error == SleepFor(duration).error
    ensures r.error.None? ==>
      && |r.trace| == 4 && r.trace[2] == Sleep(duration.value as nat)
      && IsRelease(r.trace[3]) && ButtonOf(r.trace[3]) == Some("left")
    ensures r.error.Some? ==> |r.trace| == 2
  {
    var pressed := [SetCursorPos(x, y), LeftDown];
    var pause := SleepFor(duration);
    if pause.error.Some? then Dispatch(pressed, pause.error)
    else Dispatch(pressed + pause.trace + [LeftUp], None)
  }

  /**
   * `process_key`: a key-down for `vk` when `keyDown` is set and a key-up
   * otherwise, followed by a pause of `duration`, which may raise after
   * the keystroke has been sent.
   */
  function ProcessKey(vk: int, keyDown: bool, duration: Option<int>): (r: Dispatch)
    ensures |r.trace| >= 1
    ensures (r.trace[0].KeyDown? || r.trace[0].KeyUp?) && r.trace[0].vk == vk
    ensures r.trace[0].KeyDown? <==> keyDown
    ensures r.error == SleepFor(duration).error
    ensures r.error.None? ==> r.trace == [r.trace[0], Sleep(duration.value as nat)]
    ensures r.error.Some? ==> |r.trace| == 1
  {
    var stroke := if keyDown then KeyDown(vk) else KeyUp(vk);
    var pause := SleepFor(duration);
    Dispatch([stroke] + pause.trace, pause.error)
  }

  /**
   * A down and an up dispatched for the same button succeed or fail
   * together, and on success release the very button that was pressed, at
   * the same cursor position.
   */
  lemma DownUpPair(button: string, x: int, y: int)
    ensures ProcessMouseDown(button, x, y).error.None? <==> ProcessMouseUp(button, x, y).error.None?
    ensures ProcessMouseDown(button, x, y).error.None? ==>
      ButtonOf(ProcessMouseDown(button, x, y).trace[1]) == ButtonOf(ProcessMouseUp(button, x, y).trace[1])
    ensures ProcessMouseDown(button, x, y).trace[0] == ProcessMouseUp(button, x, y).trace[0]
  {
  }

  /** The button field of a click never changes what is dispatched. */
  lemma ClickIgnoresButton(b1: string, b2: string, x: int, y: int, duration: Option<int>)
    ensures ProcessClick(b1, x, y, duration) == ProcessClick(b2, x, y, duration)
  {
  }
}
