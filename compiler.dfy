/**
 * The script compiler `process_input`: a loop over the lines of a script
 * that appends events to a list and keeps, per mouse button, the time until
 * which the button is busy.
 */
module Compiler {
  import opened Wrappers
  import opened Exceptions
  import opened Events
  import opened LineParser

  /**
   * Which program the model runs. `AsWritten` indexes `busy_until` as a
   * plain dictionary, so a button the table does not hold raises
   * `KeyError`, and builds the event with `createEvent` as written, which
   * raises `TypeError`. `Corrected` reads a missing button as free from
   * time 0 and builds the event with `CreateEventFixed`.
   */
  datatype Version = AsWritten | Corrected

  /** One accepted mouse action, as the specification records it. */
  datatype Reservation = Reservation(button: string, action: string, timestamp: nat, duration: nat)

  /**
   * The compiler's state: the events appended so far, the busy table, and
   * the record of accepted mouse actions with their timestamps (which the
   * appended events themselves do not keep).
   */
  datatype State = State(events: seq<Event>, busyUntil: map<string, nat>, log: seq<Reservation>)

  /** `events = []`, `busy_until = dict()`. */
  const Initial: State := State([], map[], [])

  function Max(a: nat, b: nat): nat {
    if a < b then b else a
  }

  /** The new `busy_until` entry after accepting an action at `timestamp` lasting `duration`. */
  function ReleaseTime(timestamp: nat, duration: nat): (r: nat)
    ensures r == timestamp + Max(duration, 1)
  {
    if duration == 0 then timestamp + 1 else timestamp + duration
  }

  function End(r: Reservation): nat {
    ReleaseTime(r.timestamp, r.duration)
  }

  /** The arguments `createEvent("mouse", button, event_type, duration)` receives for a reservation. */
  function CallArgs(r: Reservation): seq<Arg> {
    MouseCallArgs(r.button, r.action, r.duration)
  }

  /** The `createEvent` call of each version. */
  function NewMouseEvent(version: Version, r: Reservation): Result<Event, Error> {
    if version == AsWritten then CreateEvent("mouse", CallArgs(r)) else CreateEventFixed("mouse", CallArgs(r))
  }

  /** The event appended when a reservation is accepted. */
  function EventOf(r: Reservation): Event {
    CreateEventFixed("mouse", CallArgs(r)).value
  }

  /**
   * What a parsed line does to the state: an unrecognised line changes
   * nothing, a `key` line appends a keyboard record, and a mouse line is
   * appended and reserves its button only when the button is free at the
   * line's timestamp; otherwise it is dropped.
   */
  function Apply(version: Version, s: State, intent: Intent): Result<State, Error> {
    match intent
    case Unrecognised => Ok(s)
    case KeyIntent(key, _) => Ok(s.(events := s.events + [KeyRecord(key, "key")]))
    case MouseIntent(button, action, timestamp, duration) =>
      if button !in s.busyUntil && version == AsWritten then Err(KeyError(button))
      else
        var free := if button in s.busyUntil then s.busyUntil[button] else 0;
        if free <= timestamp then
          var r := Reservation(button, action, timestamp, duration);
          match NewMouseEvent(version, r)
          case Err(e) => Err(e)
          case Ok(event) => Ok(State(s.events + [event], s.busyUntil[button := End(r)], s.log + [r]))
        else Ok(s)
  }

  /** One iteration of the loop in `process_input`: parse the line, then apply it. */
  function Step(version: Version, s: State, line: string): Result<State, Error> {
    match ParseLine(line)
    case Err(e) => Err(e)
    case Ok(intent) => Apply(version, s, intent)
  }

  /** The whole loop: the steps in order, stopping at the first exception. */
  function Run(version: Version, s: State, lines: seq<string>): Result<State, Error>
    decreases |lines|
  {
    if lines == [] then Ok(s)
    else
      match Step(version, s, lines[0])
      case Err(e) => Err(e)
      case Ok(next) => Run(version, next, lines[1..])
  }

  /** `process_input`: the events of the whole script, or the exception it raises. */
  function Compile(version: Version, lines: seq<string>): Result<seq<Event>, Error> {
    match Run(version, Initial, lines)
    case Ok(s) => Ok(s.events)
    case Err(e) => Err(e)
  }

  // ---------------------------------------------------------------------------
  // The invariant the loop keeps

  /** The mouse events of a list, in order. */
  function MouseEvents(events: seq<Event>): seq<Event>
    decreases |events|
  {
    if events == [] then []
    else MouseEvents(events[..|events| - 1]) + (if events[|events| - 1].MouseEvent? then [events[|events| - 1]] else [])
  }

  function EventsOfLog(log: seq<Reservation>): seq<Event> {
    seq(|log|, k requires 0 <= k < |log| => EventOf(log[k]))
  }

  /** Two accepted actions on the same button never overlap: the later starts when the earlier has ended. */
  predicate NonOverlapping(log: seq<Reservation>) {
    forall i, j :: 0 <= i < j < |log| && log[i].button == log[j].button ==> End(log[i]) <= log[j].timestamp
  }

  predicate Consistent(s: State) {
    && (forall i :: 0 <= i < |s.log| ==> s.log[i].button in s.busyUntil && End(s.log[i]) <= s.busyUntil[s.log[i].button])
    && NonOverlapping(s.log)
    && MouseEvents(s.events) == EventsOfLog(s.log)
  }

  lemma MouseEventsAppend(events: seq<Event>, e: Event)
    ensures MouseEvents(events + [e]) == MouseEvents(events) + (if e.MouseEvent? then [e] else [])
  {
    assert (events + [e])[..|events|] == events;
  }

  /** Every step keeps the busy table ahead of the accepted actions, and keeps them apart. */
  lemma ApplyPreservesConsistent(version: Version, s: State, intent: Intent)
    requires Consistent(s)
    requires Apply(version, s, intent).Ok?
    ensures Consistent(Apply(version, s, intent).value)
  {
    match intent
    case KeyIntent(key, _) =>
      MouseEventsAppend(s.events, KeyRecord(key, "key"));
    case MouseIntent(button, action, timestamp, duration) =>
      var free := if button in s.busyUntil then s.busyUntil[button] else 0;
      if free <= timestamp {
        var r := Reservation(button, action, timestamp, duration);
        var next := Apply(version, s, intent).value;
        assert next == State(s.events + [EventOf(r)], s.busyUntil[button := End(r)], s.log + [r]);
        forall i | 0 <= i < |s.log| && s.log[i].button == button
          ensures End(s.log[i]) <= timestamp
        {
        }
        MouseEventsAppend(s.events, EventOf(r));
        assert EventsOfLog(next.log) == EventsOfLog(s.log) + [EventOf(r)];
      }
    case Unrecognised =>
  }

  lemma StepPreservesConsistent(version: Version, s: State, line: string)
    requires Consistent(s)
    requires Step(version, s, line).Ok?
    ensures Consistent(Step(version, s, line).value)
  {
    ApplyPreservesConsistent(version, s, ParseLine(line).value);
  }

  lemma {:induction false} RunPreservesConsistent(version: Version, s: State, lines: seq<string>)
    requires Consistent(s)
    requires Run(version, s, lines).Ok?
    ensures Consistent(Run(version, s, lines).value)
    decreases |lines|
  {
    if lines != [] {
      StepPreservesConsistent(version, s, lines[0]);
      RunPreservesConsistent(version, Step(version, s, lines[0]).value, lines[1..]);
    }
  }

  /**
   * In a compiled script no two accepted mouse actions on the same button
   * overlap, and the mouse events of the output are exactly the accepted
   * actions, in acceptance order.
   */
  lemma CompileNonOverlapping(version: Version, lines: seq<string>)
    requires Run(version, Initial, lines).Ok?
    ensures NonOverlapping(Run(version, Initial, lines).value.log)
    ensures MouseEvents(Run(version, Initial, lines).value.events) == EventsOfLog(Run(version, Initial, lines).value.log)
  {
    RunPreservesConsistent(version, Initial, lines);
  }

  // ---------------------------------------------------------------------------
  // One line

  /**
   * A mouse line on a known button is dropped, leaving everything as it
   * was, when the button's busy-until time is after the line's timestamp.
   * Otherwise, as written, `createEvent` raises `TypeError`; corrected, the
   * event is appended, the line is logged, and only that button's entry
   * changes, to `timestamp + max(duration, 1)`, which is later than both
   * the timestamp and the entry's previous value.
   */
  lemma MouseStep(version: Version, s: State, line: string)
    requires ParseLine(line).Ok? && ParseLine(line).value.MouseIntent?
    requires ParseLine(line).value.button in s.busyUntil
    ensures
      var m := ParseLine(line).value;
      var next := Step(version, s, line);
      && (s.busyUntil[m.button] > m.timestamp ==> next == Ok(s))
      && (s.busyUntil[m.button] <= m.timestamp && version == AsWritten ==>
            next == Err(TypeError("MouseEvent" + TakesNoArguments)))
      && (s.busyUntil[m.button] <= m.timestamp && version == Corrected ==>
            && next.Ok?
            && next.value.events == s.events + [MouseEvent(m.button, m.action, m.duration)]
            && next.value.log == s.log + [Reservation(m.button, m.action, m.timestamp, m.duration)]
            && next.value.busyUntil == s.busyUntil[m.button := m.timestamp + Max(m.duration, 1)]
            && next.value.busyUntil[m.button] > m.timestamp
            && next.value.busyUntil[m.button] > s.busyUntil[m.button])
  {
    MouseCallRaises(ParseLine(line).value.button, ParseLine(line).value.action, ParseLine(line).value.duration);
  }

  /**
   * As written, with the plain dictionary lookup, a mouse line on a button the
   * table does not hold raises `KeyError` and changes nothing.
   */
  lemma MouseStepUnknownButton(s: State, line: string)
    requires ParseLine(line).Ok? && ParseLine(line).value.MouseIntent?
    requires ParseLine(line).value.button !in s.busyUntil
    ensures Step(AsWritten, s, line) == Err(KeyError(ParseLine(line).value.button))
  {
  }

  /**
   * In the corrected version, the first action on a button never
   * seen before is always accepted.
   */
  lemma FirstActionAccepted(s: State, line: string)
    requires ParseLine(line).Ok? && ParseLine(line).value.MouseIntent?
    requires ParseLine(line).value.button !in s.busyUntil
    ensures
      var m := ParseLine(line).value;
      && Step(Corrected, s, line).Ok?
      && Step(Corrected, s, line).value.events == s.events + [MouseEvent(m.button, m.action, m.duration)]
      && Step(Corrected, s, line).value.log == s.log + [Reservation(m.button, m.action, m.timestamp, m.duration)]
      && Step(Corrected, s, line).value.busyUntil == s.busyUntil[m.button := m.timestamp + Max(m.duration, 1)]
  {
  }

  /**
   * After an action on a button is accepted at `t`, a second action on the
   * same button at the same `t` is dropped, even when both last zero
   * milliseconds.
   */
  lemma SameInstantDropped(version: Version, s: State, first: string, second: string)
    requires ParseLine(first).Ok? && ParseLine(first).value.MouseIntent?
    requires ParseLine(second).Ok? && ParseLine(second).value.MouseIntent?
    requires ParseLine(first).value.button == ParseLine(second).value.button
    requires ParseLine(first).value.timestamp == ParseLine(second).value.timestamp
    requires Step(version, s, first).Ok?
    requires |Step(version, s, first).value.events| > |s.events|
    ensures Step(version, Step(version, s, first).value, second) == Ok(Step(version, s, first).value)
  {
  }

  /** A `key` line is always appended and never reads or changes the busy table. */
  lemma KeyStep(version: Version, s: State, line: string)
    requires ParseLine(line).Ok? && ParseLine(line).value.KeyIntent?
    ensures Step(version, s, line) == Ok(s.(events := s.events + [KeyRecord(ParseLine(line).value.key, "key")]))
  {
  }

  /** A line with an unrecognised event type adds nothing and changes nothing. */
  lemma UnrecognisedStep(version: Version, s: State, line: string)
    requires ParseLine(line) == Ok(Unrecognised)
    ensures Step(version, s, line) == Ok(s)
  {
  }

  // ---------------------------------------------------------------------------
  // The whole loop

  /** One applied line appends at most one event and moves no busy-until entry backwards. */
  lemma ApplyAppendOnly(version: Version, s: State, intent: Intent)
    requires Apply(version, s, intent).Ok?
    ensures
      var t := Apply(version, s, intent).value;
      && |s.events| <= |t.events| <= |s.events| + 1
      && t.events[..|s.events|] == s.events
      && (forall b :: b in s.busyUntil ==> b in t.busyUntil && s.busyUntil[b] <= t.busyUntil[b])
  {
    assert (s.events + [KeyRecord("", "")])[..|s.events|] == s.events;
    match intent
    case MouseIntent(button, action, timestamp, duration) =>
      var r := Reservation(button, action, timestamp, duration);
      assert (s.events + [EventOf(r)])[..|s.events|] == s.events;
    case _ =>
  }

  /**
   * The event list only grows at its end, by at most one event per line,
   * and busy-until entries never move backwards or disappear.
   */
  lemma {:induction false} RunAppendOnly(version: Version, s: State, lines: seq<string>)
    requires Run(version, s, lines).Ok?
    ensures
      var t := Run(version, s, lines).value;
      && |s.events| <= |t.events| <= |s.events| + |lines|
      && t.events[..|s.events|] == s.events
      && (forall b :: b in s.busyUntil ==> b in t.busyUntil && s.busyUntil[b] <= t.busyUntil[b])
    decreases |lines|
  {
    if lines != [] {
      var next := Step(version, s, lines[0]).value;
      ApplyAppendOnly(version, s, ParseLine(lines[0]).value);
      RunAppendOnly(version, next, lines[1..]);
      var t := Run(version, s, lines).value;
      assert t.events[..|next.events|] == next.events;
      assert t.events[..|s.events|] == next.events[..|s.events|];
    }
  }

  /**
   * As the source is written the busy table starts empty and is only ever
   * filled after a successful lookup, so it stays empty: a script compiles
   * only when none of its lines is a mouse line.
   */
  lemma {:induction false} AsWrittenRejectsMouseLines(s: State, lines: seq<string>)
    requires s.busyUntil == map[]
    requires Run(AsWritten, s, lines).Ok?
    ensures Run(AsWritten, s, lines).value.busyUntil == map[]
    ensures Run(AsWritten, s, lines).value.log == s.log
    ensures forall k :: 0 <= k < |lines| ==> !(ParseLine(lines[k]).Ok? && ParseLine(lines[k]).value.MouseIntent?)
    decreases |lines|
  {
    if lines != [] {
      var next := Step(AsWritten, s, lines[0]).value;
      AsWrittenRejectsMouseLines(next, lines[1..]);
      forall k | 1 <= k < |lines| ensures lines[k] == lines[1..][k - 1] {
      }
    }
  }

  /** In the corrected version, only a malformed line can make compilation fail. */
  lemma {:induction false} CorrectedFailsOnlyOnMalformedLines(s: State, lines: seq<string>)
    requires Run(Corrected, s, lines).Err?
    ensures Run(Corrected, s, lines).error == IndexError || Run(Corrected, s, lines).error.ValueError?
    ensures exists k :: 0 <= k < |lines| && ParseLine(lines[k]).Err?
    decreases |lines|
  {
    if lines != [] {
      match Step(Corrected, s, lines[0])
      case Err(_) =>
        assert ParseLine(lines[0]).Err?;
      case Ok(next) =>
        CorrectedFailsOnlyOnMalformedLines(next, lines[1..]);
        var k :| 0 <= k < |lines[1..]| && ParseLine(lines[1..][k]).Err?;
        assert lines[k + 1] == lines[1..][k];
    }
  }

  // ---------------------------------------------------------------------------
  // The compiler as the source runs it: an object owning the list and the table

  class ScriptCompiler {
    const version: Version
    var events: seq<Event>
    var busyUntil: map<string, nat>
    ghost var log: seq<Reservation>

    ghost function Snapshot(): State
      reads this
    {
      State(events, busyUntil, log)
    }

    ghost predicate Valid()
      reads this
    {
      Consistent(Snapshot())
    }

    /** `events = []` and `busy_until = dict()`. */
    constructor (version: Version)
      ensures this.version == version
      ensures Snapshot() == Initial && Valid()
    {
      this.version := version;
      events := [];
      busyUntil := map[];
      log := [];
    }

    /**
     * The body of the `for line in f` loop. On an exception nothing has
     * been changed; otherwise the new state is what one step gives.
     */
    method ProcessLine(line: string) returns (error: Option<Error>)
      requires Valid()
      modifies this
      ensures Valid()
      ensures match Step(version, old(Snapshot()), line)
        case Ok(next) => error == None && Snapshot() == next
        case Err(e) => error == Some(e) && Snapshot() == old(Snapshot())
    {
      var intent := ParseLine(line);
      if intent.Err? {
        return Some(intent.error);
      }
      error := ApplyIntent(intent.value);
    }

    /** The part of the loop body after the line has been split and its fields read. */
    method ApplyIntent(intent: Intent) returns (error: Option<Error>)
      requires Valid()
      modifies this
      ensures Valid()
      ensures match Apply(version, old(Snapshot()), intent)
        case Ok(next) => error == None && Snapshot() == next
        case Err(e) => error == Some(e) && Snapshot() == old(Snapshot())
    {
      if Apply(version, Snapshot(), intent).Ok? {
        ApplyPreservesConsistent(version, Snapshot(), intent);
      }
      match intent {
        case MouseIntent(button, action, timestamp, duration) =>
          if button !in busyUntil && version == AsWritten {
            return Some(KeyError(button));
          }
          var free := if button in busyUntil then busyUntil[button] else 0;
          if free <= timestamp {
            var args := MouseCallArgs(button, action, duration);
            var event := if version == AsWritten then CreateEvent("mouse", args) else CreateEventFixed("mouse", args);
            if event.Err? {
              return Some(event.error);
            }
            events := events + [event.value];
            if duration == 0 {
              busyUntil := busyUntil[button := timestamp + 1];
            } else {
              busyUntil := busyUntil[button := timestamp + duration];
            }
            log := log + [Reservation(button, action, timestamp, duration)];
          }
        case KeyIntent(key, _) =>
          events := events + [KeyRecord(key, "key")];
        case Unrecognised =>
      }
      error := None;
    }
  }

  /** `process_input` over the lines of a script. */
  method ProcessInput(lines: seq<string>, version: Version) returns (r: Result<seq<Event>, Error>)
    ensures r == Compile(version, lines)
  {
    var compiler := new ScriptCompiler(version);
    var i := 0;
    while i < |lines|
      invariant 0 <= i <= |lines|
      invariant compiler.version == version && compiler.Valid()
      invariant Run(version, Initial, lines) == Run(version, compiler.Snapshot(), lines[i..])
    {
      assert lines[i..][1..] == lines[i + 1..];
      var error := compiler.ProcessLine(lines[i]);
      if error.Some? {
        return Err(error.value);
      }
      i := i + 1;
    }
    return Ok(compiler.events);
  }
}
