/**
 * The events the script compiler appends to its list, and the event factory
 * `createEvent`.
 */
module Events {
  import opened Wrappers
  import opened Exceptions

  /** Class attribute `SleepEvent.duration`: the default pause, in milliseconds. */
  const SleepDefaultDuration: nat := 1000

  datatype Event =
      /** A `MouseEvent` that holds the button, action and duration it was created with. */
    | MouseEvent(button: string, action: string, duration: nat)
      /** `MouseEvent()`: an instance with nothing but the class attributes. */
    | BareMouseEvent
      /** A `KeybaordEvent`: the class declares no fields of its own. */
    | KeyboardEvent
      /** A `SleepEvent` with its class-level duration. */
    | SleepEvent(duration: nat)
      /** The plain dictionary `{"type": "keyboard", "key": ..., "event_type": ...}` a `key` line appends. */
    | KeyRecord(key: string, eventType: string)

  /** A positional argument passed through `*args`. */
  datatype Arg = StrArg(s: string) | IntArg(n: int)

  /** The `type` tag each kind of event carries. */
  function TypeTag(e: Event): string {
    match e
    case MouseEvent(_, _, _) => "mouse"
    case BareMouseEvent => "mouse"
    case KeyboardEvent => "keyboard"
    case SleepEvent(_) => "sleep"
    case KeyRecord(_, _) => "keyboard"
  }

  predicate IsEventTag(tag: string) {
    tag == "mouse" || tag == "keyboard" || tag == "sleep"
  }

  /**
   * What CPython says, after the class name, when a class whose `__new__` and
   * `__init__` are both `object`'s is called with arguments.
   */
  const TakesNoArguments: string := "() takes no arguments"

  /**
   * Calling one of the event classes. None of them defines `__new__` or
   * `__init__`, and `Event` is a `Protocol`: the first call replaces the
   * inherited initialiser by `object.__init__` and then runs it, and from
   * then on the class has `object`'s constructor and initialiser, so every
   * call with arguments fails, the first one in `__init__`, later ones
   * already in `__new__`, with the same message.
   */
  function Instantiate(className: string, args: seq<Arg>, instance: Event): Result<Event, Error> {
    if args == [] then Ok(instance)
    else Err(TypeError(className + TakesNoArguments))
  }

  /**
   * `createEvent(type, *args)` as written: for the three tags it calls the
   * matching class with `*args`, which succeeds only without arguments;
   * every other tag raises `ValueError`.
   */
  function CreateEvent(tag: string, args: seq<Arg>): (r: Result<Event, Error>)
    ensures r.Ok? <==> IsEventTag(tag) && args == []
    ensures r.Ok? ==> TypeTag(r.value) == tag && !r.value.MouseEvent? && !r.value.KeyRecord?
    ensures tag == "sleep" && args == [] ==> r == Ok(SleepEvent(SleepDefaultDuration))
    ensures IsEventTag(tag) && args != [] ==> r.Err? && r.error.TypeError?
    ensures !IsEventTag(tag) ==> r == Err(ValueError("invalid type for create event"))
  {
    if tag == "mouse" then Instantiate("MouseEvent", args, BareMouseEvent)
    else if tag == "keyboard" then Instantiate("KeybaordEvent", args, KeyboardEvent)
    else if tag == "sleep" then Instantiate("SleepEvent", args, SleepEvent(SleepDefaultDuration))
    else Err(ValueError("invalid type for create event"))
  }

  /** The arguments of the call `createEvent("mouse", button, event_type, duration)`. */
  function MouseCallArgs(button: string, action: string, duration: nat): seq<Arg> {
    [StrArg(button), StrArg(action), IntArg(duration)]
  }

  predicate IsMouseCall(args: seq<Arg>) {
    |args| == 3 && args[0].StrArg? && args[1].StrArg? && args[2].IntArg? && args[2].n >= 0
  }

  /** The arguments a mouse event was built from. */
  function MouseArgs(e: Event): seq<Arg>
    requires e.MouseEvent?
  {
    MouseCallArgs(e.button, e.action, e.duration)
  }

  /**
   * As written, the one call the compiler makes, with a button, an action
   * and a duration, raises `TypeError`.
   */
  lemma MouseCallRaises(button: string, action: string, duration: nat)
    ensures CreateEvent("mouse", MouseCallArgs(button, action, duration))
         == Err(TypeError("MouseEvent" + TakesNoArguments))
  {
  }

  /**
   * `createEvent` as the compiler's call evidently means it: a mouse event
   * built from a button, an action and a duration stores exactly these
   * three; every other call behaves as written.
   */
  function CreateEventFixed(tag: string, args: seq<Arg>): (r: Result<Event, Error>)
    ensures r.Ok? <==> (IsEventTag(tag) && args == []) || (tag == "mouse" && IsMouseCall(args))
    ensures r.Ok? ==> TypeTag(r.value) == tag
    ensures tag == "mouse" && IsMouseCall(args) ==> r.Ok? && r.value.MouseEvent? && MouseArgs(r.value) == args
    ensures !(tag == "mouse" && IsMouseCall(args)) ==> r == CreateEvent(tag, args)
  {
    if tag == "mouse" && IsMouseCall(args) then Ok(MouseEvent(args[0].s, args[1].s, args[2].n as nat))
    else CreateEvent(tag, args)
  }
}
