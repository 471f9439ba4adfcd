/**
 * Tokenising and classifying one script line, the part of the loop body of
 * `process_input` that runs before the busy table is consulted.
 */
module LineParser {
  import opened Wrappers
  import opened Exceptions
  import opened Text

  /** What one line asks for, before any availability check. */
  datatype Intent =
    | MouseIntent(button: string, action: string, timestamp: nat, duration: nat)
    | KeyIntent(key: string, timestamp: nat)
    | Unrecognised

  const ClickSuffix: string := "_click"

  /** The first tokens that make a line a mouse line. */
  const MouseActions: seq<string> := ["down", "up", "click", "left", "right", "middle"]

  /** The mouse actions whose button is read from the second field. */
  const ButtonFromField: seq<string> := ["click", "left", "right", "middle"]

  /** The actions whose duration is read from the fourth field. */
  const TimedActions: seq<string> := ["click", "right_click"]

  /** The fields of a line: stripped, then cut at every comma or non-word character. */
  function Tokens(line: string): (parts: seq<string>)
    ensures |parts| >= 1
  {
    Split(Strip(line))
  }

  /** The event type: the first field with every `_click` removed, when it has one. */
  function StripClick(token: string): string {
    if Contains(token, ClickSuffix) then RemoveAll(token, ClickSuffix) else token
  }

  /** CPython's default `sys.get_int_max_str_digits()`: the most digits `int()` converts from a string. */
  const MaxStrDigits: nat := 4300

  /** The fields `int()` converts: an integer literal of at most `MaxStrDigits` digits. */
  predicate IsReadableInt(field: string) {
    IsIntLiteral(field) && |DigitsOf(field)| <= MaxStrDigits
  }

  /** `%.200R` of a field: its quoted form, cut after 200 characters. */
  function QuotedField(field: string): (q: string)
    ensures |q| <= 200
  {
    var quoted := "'" + field + "'";
    if |quoted| <= 200 then quoted else quoted[..200]
  }

  /**
   * `int(field)`: the value of an integer literal, `ValueError` naming the
   * field when it is none, and `ValueError` naming the digit count when it
   * has more than `MaxStrDigits` digits.
   */
  function IntField(field: string): (r: Result<nat, Error>)
    ensures r.Ok? <==> IsReadableInt(field)
    ensures r.Ok? ==> ParseInt(field) == Some(r.value)
    ensures r.Err? ==> r.error.ValueError?
    ensures !IsIntLiteral(field) ==> r == Err(ValueError("invalid literal for int() with base 10: " + QuotedField(field)))
  {
    match ParseInt(field)
    case None => Err(ValueError("invalid literal for int() with base 10: " + QuotedField(field)))
    case Some(n) =>
      var digits := |DigitsOf(field)|;
      if digits > MaxStrDigits then
        Err(ValueError("Exceeds the limit (4300 digits) for integer string conversion: value has "
                       + ShowNat(digits) + " digits; use sys.set_int_max_str_digits() to increase the limit"))
      else Ok(n)
  }

  /** `int(str(n))` gives `n` back whenever `str(n)` is within the digit limit. */
  lemma IntFieldShow(n: nat)
    requires |ShowNat(n)| <= MaxStrDigits
    ensures IntField(ShowNat(n)) == Ok(n)
  {
    ParseShowRoundTrip(n);
    DigitsOfNoUnderscore(ShowNat(n));
  }

  /**
   * Classifies a line by its event type. Mouse lines take their button from
   * the second field (or "left" for `down`/`up`), their timestamp from the
   * third and, for `click` only, their duration from the fourth; `key`
   * lines take key and timestamp from the second and third; any other
   * event type is not recognised. A missing field is an `IndexError`, a
   * non-numeric one a `ValueError`.
   */
  function ParseLine(line: string): Result<Intent, Error>
  {
    ParseFields(Tokens(line))
  }

  /** The classification of `ParseLine`, once the line is cut into fields. */
  function ParseFields(parts: seq<string>): Result<Intent, Error>
    requires |parts| >= 1
  {
    var eventType := StripClick(parts[0]);
    if eventType in MouseActions then
      // `parts[1]` (for the actions in ButtonFromField) and `parts[2]` raise the same IndexError
      if |parts| < 3 then Err(IndexError)
      else
        var button := if eventType in ButtonFromField then parts[1] else "left";
        match IntField(parts[2])
        case Err(e) => Err(e)
        case Ok(timestamp) =>
          if eventType in TimedActions then
            if |parts| < 4 then Err(IndexError)
            else
              match IntField(parts[3])
              case Err(e) => Err(e)
              case Ok(duration) => Ok(MouseIntent(button, eventType, timestamp, duration))
          else Ok(MouseIntent(button, eventType, timestamp, 0))
    else if eventType == "key" then
      if |parts| < 3 then Err(IndexError)
      else
        match IntField(parts[2])
        case Err(e) => Err(e)
        case Ok(timestamp) => Ok(KeyIntent(parts[1], timestamp))
    else Ok(Unrecognised)
  }

  /**
   * What `ParseLine` makes of a line, in terms of its fields: after `_click`
   * is removed, only down/up/click/left/right/middle give a mouse intent,
   * whose button is the second field (or "left" for `down`/`up`), whose
   * timestamp is the third and whose duration is the fourth for `click` and
   * 0 otherwise; `key` gives a key intent; any other event type is not
   * recognised; too few fields is an `IndexError`. A line with enough fields
   * whose numeric fields `int()` accepts always parses.
   */
  lemma ParseLineFields(line: string)
    ensures
      var r := ParseLine(line);
      var parts := Tokens(line);
      var eventType := StripClick(parts[0]);
      && (r.Ok? && r.value.MouseIntent? ==>
            && r.value.action == eventType
            && eventType in MouseActions
            && |parts| >= 3
            && IntField(parts[2]) == Ok(r.value.timestamp)
            && r.value.button == (if eventType == "down" || eventType == "up" then "left" else parts[1])
            && (eventType == "click" ==> |parts| >= 4 && IntField(parts[3]) == Ok(r.value.duration))
            && (eventType != "click" ==> r.value.duration == 0))
      && (r.Ok? && r.value.KeyIntent? ==>
            eventType == "key" && |parts| >= 3 && r.value.key == parts[1] && IntField(parts[2]) == Ok(r.value.timestamp))
      && (r == Ok(Unrecognised) <==> eventType !in MouseActions && eventType != "key")
      && ((&& eventType in MouseActions && |parts| >= 3 && IsReadableInt(parts[2])
           && (eventType == "click" ==> |parts| >= 4 && IsReadableInt(parts[3])))
          ==> r.Ok? && r.value.MouseIntent?)
      && (eventType == "key" && |parts| >= 3 && IsReadableInt(parts[2]) ==> r.Ok? && r.value.KeyIntent?)
      && (r.Err? ==> r.error == IndexError || r.error.ValueError?)
      && (r.Err? && r.error.ValueError? ==>
            || (|parts| >= 3 && IntField(parts[2]).Err? && r.error == IntField(parts[2]).error)
            || (eventType == "click" && |parts| >= 4 && IntField(parts[3]).Err? && r.error == IntField(parts[3]).error))
      && ((eventType in MouseActions || eventType == "key") && |parts| >= 3 && !IsReadableInt(parts[2]) ==>
            r == Err(IntField(parts[2]).error))
      && (eventType == "click" && |parts| >= 4 && IsReadableInt(parts[2]) && !IsReadableInt(parts[3]) ==>
            r == Err(IntField(parts[3]).error))
      && (r == Err(IndexError) <==>
            || ((eventType in MouseActions || eventType == "key") && |parts| < 3)
            || (eventType == "click" && |parts| == 3 && IsReadableInt(parts[2])))
  {
    ParseFieldsCases(Tokens(line));
  }

  /** `ParseLineFields`, stated on the fields. */
  lemma ParseFieldsCases(parts: seq<string>)
    requires |parts| >= 1
    ensures
      var r := ParseFields(parts);
      var eventType := StripClick(parts[0]);
      && (r.Ok? && r.value.MouseIntent? ==>
            && r.value.action == eventType
            && eventType in MouseActions
            && |parts| >= 3
            && IntField(parts[2]) == Ok(r.value.timestamp)
            && r.value.button == (if eventType == "down" || eventType == "up" then "left" else parts[1])
            && (eventType == "click" ==> |parts| >= 4 && IntField(parts[3]) == Ok(r.value.duration))
            && (eventType != "click" ==> r.value.duration == 0))
      && (r.Ok? && r.value.KeyIntent? ==>
            eventType == "key" && |parts| >= 3 && r.value.key == parts[1] && IntField(parts[2]) == Ok(r.value.timestamp))
      && (r == Ok(Unrecognised) <==> eventType !in MouseActions && eventType != "key")
      && ((&& eventType in MouseActions && |parts| >= 3 && IsReadableInt(parts[2])
           && (eventType == "click" ==> |parts| >= 4 && IsReadableInt(parts[3])))
          ==> r.Ok? && r.value.MouseIntent?)
      && (eventType == "key" && |parts| >= 3 && IsReadableInt(parts[2]) ==> r.Ok? && r.value.KeyIntent?)
      && (r.Err? ==> r.error == IndexError || r.error.ValueError?)
      && (r.Err? && r.error.ValueError? ==>
            || (|parts| >= 3 && IntField(parts[2]).Err? && r.error == IntField(parts[2]).error)
            || (eventType == "click" && |parts| >= 4 && IntField(parts[3]).Err? && r.error == IntField(parts[3]).error))
      && ((eventType in MouseActions || eventType == "key") && |parts| >= 3 && !IsReadableInt(parts[2]) ==>
            r == Err(IntField(parts[2]).error))
      && (eventType == "click" && |parts| >= 4 && IsReadableInt(parts[2]) && !IsReadableInt(parts[3]) ==>
            r == Err(IntField(parts[3]).error))
      && (r == Err(IndexError) <==>
            || ((eventType in MouseActions || eventType == "key") && |parts| < 3)
            || (eventType == "click" && |parts| == 3 && IsReadableInt(parts[2])))
  {
    var eventType := StripClick(parts[0]);
    if eventType in MouseActions {
      OnlyClickIsTimed(eventType);
      assert eventType in ButtonFromField <==> !(eventType == "down" || eventType == "up");
    }
  }

  /**
   * The `"right_click"` alternative of the duration test can never match:
   * an event type that reaches it is one of the six mouse actions, none of
   * which contains `_click`.
   */
  lemma OnlyClickIsTimed(eventType: string)
    requires eventType in MouseActions
    ensures eventType in TimedActions <==> eventType == "click"
  {
  }

  /**
   * A line that begins and ends with a non-space character and consists of
   * word fields joined by single separators tokenises to exactly those
   * fields.
   */
  lemma TokensOfTrimmed(line: string, parts: seq<string>, seps: seq<char>)
    requires |parts| == |seps| + 1
    requires forall k :: 0 <= k < |parts| ==> AllWord(parts[k])
    requires forall k :: 0 <= k < |seps| ==> !IsWordChar(seps[k])
    requires line == Interleave(parts, seps)
    requires line == [] || (!IsSpace(line[0]) && !IsSpace(line[|line| - 1]))
    ensures Tokens(line) == parts
  {
    assert Strip(line) == line;
    SplitInterleave(parts, seps);
  }

  lemma {:induction false} RemoveClickSuffix(w: string)
    requires forall k :: 0 <= k < |w| ==> w[k] != '_'
    ensures RemoveAll(w + ClickSuffix, ClickSuffix) == w
  {
    if w == [] {
      assert w + ClickSuffix == ClickSuffix;
      assert ClickSuffix[|ClickSuffix|..] == [];
    } else {
      assert (w + ClickSuffix)[..|ClickSuffix|][0] == w[0];
      assert (w + ClickSuffix)[1..] == w[1..] + ClickSuffix;
      RemoveClickSuffix(w[1..]);
      assert w == [w[0]] + w[1..];
    }
  }

  /**
   * A first field `<name>_click` whose name has no underscore is classified
   * by that name: `right_click` is the event type `right`, `left_click` is
   * `left`.
   */
  lemma StripClickSuffix(w: string)
    requires forall k :: 0 <= k < |w| ==> w[k] != '_'
    ensures StripClick(w + ClickSuffix) == w
  {
    assert OccursAt(w + ClickSuffix, ClickSuffix, |w|);
    RemoveClickSuffix(w);
  }

  /**
   * Every occurrence goes, not just the first: `<name>_click_click`, with
   * no underscore in the name, classifies as `<name>` too.
   */
  lemma StripRepeatedClickSuffix(w: string)
    requires forall k :: 0 <= k < |w| ==> w[k] != '_'
    ensures StripClick(w + ClickSuffix + ClickSuffix) == w
  {
    var s := w + ClickSuffix + ClickSuffix;
    assert OccursAt(s, ClickSuffix, |w|) by {
      assert s[|w|..|w| + |ClickSuffix|] == ClickSuffix;
    }
    forall k | 0 <= k < |w| ensures !OccursAt(s, ClickSuffix, k) {
      assert s[k..k + |ClickSuffix|][0] == w[k];
    }
    RemoveAllLeftmost(w, ClickSuffix, ClickSuffix);
    assert ClickSuffix == [] + ClickSuffix + [];
    RemoveAllLeftmost([], [], ClickSuffix);
  }
}
