# Macro script compiler, modelled in Dafny

This project models the script compiler of the macro recorder: `process_input`
reads a line-oriented macro script and turns each line into an event. It keeps
a per-button `busy_until` table and drops a mouse action that starts while its
button is still busy. Alongside it are modelled the event factory
`createEvent` and the button-to-command selection of the dispatch functions
`process_mouse_down`, `process_mouse_up`, `process_click` and `process_key`.

Modules, one per part of `autokey_by_chatgpt.py`:

- `Text` (text.dfy): `str.strip()`, `re.split(r"[,\W+]", ...)`, the
  `"_click" in t` test with `t.replace("_click", "")`, and `int(...)` on a
  field.
- `LineParser` (lines.dfy): tokenising and classifying one line into a mouse
  intent, a key intent or an unrecognised line, with `IndexError` and
  `ValueError` as error outcomes.
- `Events` (events.dfy): the events and `createEvent`.
- `Compiler` (compiler.dfy): the loop. `Apply` gives the effect of one parsed
  line, and `Step` and `Run` specify one iteration and the whole loop as
  functions on a `State`. The class
  `ScriptCompiler` owns `events` and `busyUntil` and updates them in place
  with `ProcessLine`, which reads the line's fields and hands the intent to
  `ApplyIntent`. `ProcessInput` runs the `for line in f` loop over a
  sequence of lines and is proved equal to `Compile`.
- `Playback` (playback.dfy): the dispatch functions. The operating-system
  calls they make are recorded as a trace of abstract commands.
- `Scripts` (scripts.dfy): sample lines worked through the model.

The timestamps of accepted mouse actions are not stored in the events, and
the source does not store them either. The model keeps them in
`State.log`, a list of `Reservation`s. In the class this is the ghost field
`log`. The log is what lets the model state non-overlap: any two accepted
actions on the same button are at least `max(duration, 1)` apart
(`Compiler.CompileNonOverlapping`).

Behaviour of the code that the model keeps, although a reader of the
function names might expect otherwise:

- Fields are cut at every single comma or non-word character, not at runs of
  them. Adjacent separators therefore give empty fields.
- A line with an unknown event type is skipped silently. It is not reported
  as malformed.
- `key` lines never consult or update the busy table.
- Only `click` reads a duration. After `_click` is removed, the
  `"right_click"` test can never match (`LineParser.OnlyClickIsTimed`).
- A `<button>_click <duration> <timestamp>` line takes its button from the
  second field. For example, `right_click 50 1200` is a zero-length `right`
  action on a button named "50" (`Scripts.ButtonClickLine`). In the same way,
  `left down 0` names the button "down" (`Scripts.ButtonFirstLine`).
- There is no playback scheduler. `process_events` and its helpers are
  stubs.

Two defects stop the compiler as written from ever producing a mouse event
(see Findings). The busy table is a plain dictionary, so a never-seen button
raises `KeyError`. And `createEvent("mouse", ...)` calls `MouseEvent` with
three arguments, but no event class defines `__init__` and `Event` is a
`typing.Protocol`, so the call ends in `object.__init__`, which raises
`TypeError("MouseEvent() takes no arguments")`. The datatype `Compiler.Version` selects between the program as
written (`AsWritten`) and the program with both defects corrected
(`Corrected`): a missing busy-until entry reads as 0, and `createEvent`
builds a `MouseEvent` that stores its three arguments
(`Events.CreateEventFixed`). Every property of `Step` and `Run` is proved
for both versions, and the mouse-event properties are about `Corrected`.

The `typing` imports need Python 3.11 or later. Where CPython's behaviour
differs between versions (the order of the checks inside `int()`), the model follows CPython 3.12.

The dispatch functions pass their millisecond `duration` unchanged to
`time.sleep`, which counts seconds. The trace records that argument as
`Sleep(seconds)`, exactly as passed. When the pause raises, the commands
already sent stay sent: a failed click leaves the left button pressed.

## Model

| member | source | states |
|---|---|---|
| `Text.StripRange` | autokey_by_chatgpt.py:138 | `line.strip()` keeps one slice. Everything outside it is whitespace. A non-empty slice starts and ends with non-whitespace. The slice is empty exactly when the line is all whitespace. |
| `Text.Split` | autokey_by_chatgpt.py:131-138 | Splitting on `[,\W+]` always gives at least one field, and every field holds only word characters. |
| `Text.SplitCount` | autokey_by_chatgpt.py:131-138 | There is exactly one more field than there are separator characters, so adjacent separators give empty fields. |
| `Text.SplitRoundTrip` | autokey_by_chatgpt.py:131-138 | Putting the separator characters back between the fields rebuilds the line. |
| `Text.SplitInterleave` | autokey_by_chatgpt.py:131-138 | Word-only fields joined by non-word characters split back into exactly those fields. The split is therefore the only such decomposition. |
| `Text.RemoveAll` | autokey_by_chatgpt.py:140-141 | `t.replace(p, "")` never lengthens the token. What it removes is fixed by `Text.RemoveAllLeftmost` together with `Text.RemoveAllAbsent`. |
| `Text.RemoveAllLeftmost` | autokey_by_chatgpt.py:141 | The leftmost occurrence of `p` is deleted, and the scan resumes right after it on the rest. With `Text.RemoveAllAbsent` (a token without `p` is left as it is), this fixes the result for every token: every non-overlapping occurrence, found left to right, is deleted. |
| `Text.RemoveAllAbsent` | autokey_by_chatgpt.py:141 | A token in which `p` does not occur is returned unchanged. |
| `Text.RemoveAllUnchangedIff` | autokey_by_chatgpt.py:140-141 | `t.replace(p, "")` leaves `t` unchanged exactly when `p in t` is false, so the guard in front of the replace changes nothing. |
| `Text.ParseShowRoundTrip` | autokey_by_chatgpt.py:150 | The literal syntax `int()` accepts reads back the decimal form of every natural number, before any digit limit. |
| `LineParser.IntField` | autokey_by_chatgpt.py:150-152 | `int(field)` succeeds exactly on digit groups separated by single underscores with at most 4300 digits, giving the decimal value. Every failure is a `ValueError`. A field that is no literal gets the message naming the field, quoted and cut after 200 characters. |
| `LineParser.IntFieldShow` | autokey_by_chatgpt.py:150-152 | `int(str(n))` gives back `n` whenever `str(n)` has at most 4300 digits. |
| `LineParser.ParseLine` | autokey_by_chatgpt.py:138-154 | Tokenises the line and classifies its fields; what it gives for every line is stated by `LineParser.ParseLineFields`. |
| `LineParser.ParseFields` | autokey_by_chatgpt.py:140-154 | Classifies the fields of a line; stated on the fields by `LineParser.ParseFieldsCases`, with the same clauses as `LineParser.ParseLineFields`. |
| `LineParser.ParseLineFields` | autokey_by_chatgpt.py:138-169 | After `_click` is removed, only down/up/click/left/right/middle give a mouse intent, and `key` gives a key intent. The button is the second field, or "left" for down/up. The timestamp is the third field. The duration is the fourth field for `click` and 0 otherwise. Any other event type is unrecognised. Fewer than three fields, or fewer than four for `click`, raises `IndexError`. A numeric field `int()` refuses raises exactly the `ValueError` `LineParser.IntField` gives for that field, and every `ValueError` comes from such a field. Conversely, a mouse or `key` line with enough fields whose numeric fields `int()` accepts always parses to an intent of its kind. |
| `LineParser.OnlyClickIsTimed` | autokey_by_chatgpt.py:151 | Among the mouse event types, the duration test matches only `click`. The `right_click` alternative is dead. |
| `LineParser.StripClickSuffix` | autokey_by_chatgpt.py:140-141 | A first field `<name>_click` with no underscore in the name is classified by that name. |
| `LineParser.StripRepeatedClickSuffix` | autokey_by_chatgpt.py:140-141 | A first field `<name>_click_click` whose name has no underscore is classified by that name as well: the replace removes every occurrence, not only the first. |
| `LineParser.TokensOfTrimmed` | autokey_by_chatgpt.py:138 | A trimmed line of word fields joined by single separators tokenises to exactly those fields. |
| `Events.CreateEvent` | autokey_by_chatgpt.py:39-81 | For "mouse", "keyboard" and "sleep", calling the class succeeds exactly when no arguments are passed, and then gives an event with that type tag that stores nothing from the call. A sleep event gets the default 1000. With arguments, the call raises `TypeError`. Any other tag raises `ValueError`. |
| `Events.MouseCallRaises` | autokey_by_chatgpt.py:52-58 | As written, the call `createEvent("mouse", button, event_type, duration)` raises `TypeError("MouseEvent() takes no arguments")`. |
| `Events.CreateEventFixed` | autokey_by_chatgpt.py:157-159 | Corrected: a mouse call with a button, an action and a non-negative duration gives a mouse event from which exactly these arguments are read back. Every other call behaves as written. |
| `Playback.ProcessMouseDown` | autokey_by_chatgpt.py:93-104 | Moves the cursor first. It then presses exactly the named button and succeeds exactly for left/right/middle. Any other button raises `ValueError` after the cursor has moved. |
| `Playback.ProcessMouseUp` | autokey_by_chatgpt.py:106-117 | Moves the cursor first. It then releases exactly the named button and succeeds exactly for left/right/middle. Any other button raises `ValueError` after the cursor has moved. |
| `Playback.SleepFor` | autokey_by_chatgpt.py:91 | `time.sleep(duration)` pauses exactly when the duration is an integer from 0 up to the clock's limit. `None` raises `TypeError`. A negative duration within range raises `ValueError`. A pause that fails issues nothing. |
| `Playback.ProcessClick` | autokey_by_chatgpt.py:119-126 | Emits a cursor move and a left-button press, then fails exactly as `time.sleep(duration)` fails. If the pause succeeds, it emits the sleep and a left-button release. If it fails, the trace stops after the press, so the button stays down. |
| `Playback.ProcessKey` | autokey_by_chatgpt.py:83-91 | Emits a key-down exactly when `key_down` is set and a key-up otherwise, for the given virtual key. It then fails exactly as `time.sleep(duration)` fails, after the keystroke, or emits the sleep. |
| `Playback.DownUpPair` | autokey_by_chatgpt.py:93-117 | Down and up on the same button succeed or fail together, move to the same position, and release the button that was pressed. |
| `Playback.ClickIgnoresButton` | autokey_by_chatgpt.py:119-126 | The button field of a click never changes what is dispatched. |
| `Compiler.ReleaseTime` | autokey_by_chatgpt.py:162-165 | The new busy-until entry is `timestamp + max(duration, 1)`. |
| `Compiler.Apply` | autokey_by_chatgpt.py:143-175 | The effect of one parsed line. Its cases are stated by `Compiler.MouseStep`, `Compiler.MouseStepUnknownButton`, `Compiler.FirstActionAccepted`, `Compiler.KeyStep` and `Compiler.UnrecognisedStep`, and the invariant it keeps by `Compiler.ApplyPreservesConsistent`. |
| `Compiler.Step` | autokey_by_chatgpt.py:138-175 | One iteration of the loop: a parse error is raised, otherwise the line is applied. Its invariant is `Compiler.StepPreservesConsistent`. |
| `Compiler.Run` | autokey_by_chatgpt.py:137-175 | The loop, stopping at the first exception. Its invariant is `Compiler.RunPreservesConsistent`, and its growth is `Compiler.RunAppendOnly`. |
| `Compiler.Compile` | autokey_by_chatgpt.py:128-177 | `process_input`: the events of the whole run or its first exception. `Compiler.CompileNonOverlapping` states its result, and `Compiler.ProcessInput` is proved equal to it. |
| `Compiler.MouseStep` | autokey_by_chatgpt.py:156-165 | For a button in the table, a mouse line with `busy_until[button] > timestamp` changes nothing. Otherwise, as written, `createEvent` raises `TypeError`. In the corrected version the event is appended and the action logged with its timestamp. Only that button's entry changes, to `timestamp + max(duration, 1)`, which exceeds both the timestamp and the old entry. |
| `Compiler.MouseStepUnknownButton` | autokey_by_chatgpt.py:156 | As written, a mouse line on a button not in the table raises `KeyError` for that button. |
| `Compiler.FirstActionAccepted` | autokey_by_chatgpt.py:156-165 | In the corrected version, the first action on a never-seen button is always accepted, appended and logged. |
| `Compiler.SameInstantDropped` | autokey_by_chatgpt.py:162-165 | After an action on a button is accepted at `t`, another action on that button at `t` is dropped, even when both have zero duration. |
| `Compiler.KeyStep` | autokey_by_chatgpt.py:167-175 | A `key` line always appends a keyboard record and neither reads nor changes the busy table. |
| `Compiler.UnrecognisedStep` | autokey_by_chatgpt.py:143 | A line with an unrecognised event type changes nothing. |
| `Compiler.ApplyPreservesConsistent` | autokey_by_chatgpt.py:156-175 | Applying one parsed line keeps three facts. Every accepted action's end time stays at or below its button's busy-until entry. Accepted actions on one button stay non-overlapping. The mouse events of the list stay exactly the accepted actions. |
| `Compiler.StepPreservesConsistent` | autokey_by_chatgpt.py:138-175 | One iteration of the loop, parsing included, keeps the same three facts. |
| `Compiler.RunPreservesConsistent` | autokey_by_chatgpt.py:137-165 | The whole loop keeps the same invariant. |
| `Compiler.CompileNonOverlapping` | autokey_by_chatgpt.py:128-177 | In a compiled script, any two accepted actions on one button are apart by at least the earlier one's `max(duration, 1)`. The output's mouse events are the accepted actions in acceptance order. |
| `Compiler.RunAppendOnly` | autokey_by_chatgpt.py:137-177 | The event list only grows at its end, by at most one event per line. Busy-until entries never decrease or disappear. |
| `Compiler.AsWrittenRejectsMouseLines` | autokey_by_chatgpt.py:130-165 | As written, the busy table stays empty. A script compiles only if none of its lines is a mouse line. |
| `Compiler.CorrectedFailsOnlyOnMalformedLines` | autokey_by_chatgpt.py:150-159 | In the corrected version, compilation fails only with `IndexError` or `ValueError`, and only on a line that fails to parse. |
| `Compiler.ScriptCompiler.constructor` | autokey_by_chatgpt.py:129-130 | Starts with an empty event list, an empty busy table and an empty log. |
| `Compiler.ScriptCompiler.ProcessLine` | autokey_by_chatgpt.py:138-175 | Updates the object's list and table in place to exactly what one `Step` gives. On an exception it leaves them unchanged, and it keeps the invariant. |
| `Compiler.ScriptCompiler.ApplyIntent` | autokey_by_chatgpt.py:143-175 | Once the line's fields are read, updates the list and table in place to exactly what `Apply` gives for the intent. On an exception it leaves them unchanged, and it keeps the invariant. |
| `Compiler.ProcessInput` | autokey_by_chatgpt.py:128-177 | The loop over the lines returns the events `Compile` specifies, or the first exception. |
| `Scripts.FirstMouseLine` | autokey_by_chatgpt.py:156 | The script `down x 0` raises `KeyError('left')` as written. In the corrected version, it compiles to one left-button down event. |
| `Scripts.ZeroDurationConflict` | autokey_by_chatgpt.py:156-165 | In the corrected version (a missing busy-until entry reads as 0, and `createEvent` stores its arguments), of two zero-length left presses both at 1000, the second is dropped. |
| `Scripts.RepeatedClickType` | autokey_by_chatgpt.py:140-141 | The first field `left_click_click` is the event type `left`. |
| `Scripts.ButtonClickLine` | autokey_by_chatgpt.py:140-154 | `right_click 50 1200` is a `right` action at 1200 on a button named "50", with duration 0. |
| `Scripts.ClickLine` | autokey_by_chatgpt.py:146-152 | `click right 500 20` is a click of "right" at 500 lasting 20. |
| `Scripts.ButtonFirstLine` | autokey_by_chatgpt.py:146-148 | `left down 0` is a `left` action on a button named "down". |
| `Scripts.UnknownLine` | autokey_by_chatgpt.py:143 | `foo bar` is unrecognised, not an error. |
| `Scripts.ShortLine` | autokey_by_chatgpt.py:150 | `up 5` raises `IndexError`. |

## Findings

| source | as written | input that shows it | evidently intended | confidence | as-written member | corrected member |
|---|---|---|---|---|---|---|
| autokey_by_chatgpt.py:156 | `busy_until` starts as an empty `dict()` and is indexed without a default. An entry is only written after a successful lookup, so the first mouse line always raises `KeyError` and no mouse event can ever be produced | the one-line script `down x 0` raises `KeyError('left')` (`Scripts.FirstMouseLine`) | a button never used before is free from time 0, like `busy_until.get(button, 0)`; the corrected version also needs the `createEvent` fix of the next row to append the event | not executed; high | `Compiler.AsWrittenRejectsMouseLines` | `Compiler.CorrectedFailsOnlyOnMalformedLines` |
| autokey_by_chatgpt.py:75 | `MouseEvent(*args)` is called with a button, an action and a duration, but `MouseEvent` defines no `__init__`. Its base `Event` is a `typing.Protocol`, whose instantiation hook falls back to `object.__init__`, and that rejects every argument with `TypeError("MouseEvent() takes no arguments")` | `createEvent("mouse", "left", "down", 0)` raises `TypeError`; this is the line at :157 once the `KeyError` is fixed (`Compiler.MouseStep`, as-written case) | the event stores the button, the action and the duration it is given | not executed; medium | `Events.MouseCallRaises` | `Events.CreateEventFixed` |

## Left out

- Operating-system input injection (`SetCursorPos`, `mouse_event`, `keybd_event`, `SetForegroundWindow`): foreign calls, recorded only as abstract `Command`s in a trace.
- `time.sleep`: real-time pacing cannot be verified. It appears only as a `Sleep` command carrying the argument as passed. Its exceptions are modelled (`Playback.SleepFor`).
- Opening and reading the script file: I/O. The file is given as a sequence of lines, and the line splitting of the file itself is not modelled.
- `main` and its JSON recording: I/O, and it calls the undefined `simulate_mouse_click` and `simulate_keyboard_input`.
- `process_events`, `process_mouse`, `process_keyboard`: empty stubs that name the undefined `KeyboardEvent` and hold an assertion that always fails. They state no behaviour.
- The typing scaffolding (`HasPosition`, the `Protocol` classes' annotations, `addField`, the `@overload` stubs, the unused `MOUSEEVENTF_*` and `KEYEVENTF_*` constants): declarations only.
- Floating-point screen-ratio positions: only mentioned in a docstring, never computed.
- Text.IsWordChar: Python's `\w` and `int()` also accept non-ASCII letters and digits. Here only ASCII letters, digits and `_` are word characters, so every other character is a separator.
- Events.CreateEvent: an argument is a string or an integer (`Arg`), the two kinds the compiler passes. Arguments of other Python types are not modelled; every argument is refused whatever its type. The class attributes of a bare `MouseEvent()` (the `button` and `action` lists) are not stored in `BareMouseEvent`. The `TypeError` message is the one CPython gives once a class's `__new__` and `__init__` are both `object`'s.
- Events.CreateEventFixed: the correction accepts only a string button, a string action and a non-negative integer duration, the shape of the one call the compiler makes.
- Playback.SleepFor: a floating-point duration, which `time.sleep` also accepts, is not modelled. The duration is an integer or `None`, as `duration: Optional[int]` at autokey_by_chatgpt.py:58 declares.
- Playback.ProcessMouseDown: the event's fields are parameters, so a `KeyError` from a missing field of the event is not modelled. The same holds for Playback.ProcessMouseUp, Playback.ProcessClick and Playback.ProcessKey.
- LineParser.ParseLine: on a one-field line, click/left/right/middle and `key` raise `IndexError` at `parts[1]` before reaching `parts[2]`. The model checks the field count once, and the exception is the same.
- LineParser.IntField: the error message quotes the field as `'...'`. That is Python's `repr` only for text without quotes, backslashes or unprintable characters. Every field a line produces is made of word characters, so this covers all of them.
