/**
 * Sample script lines worked through the model, one per line format
 * `process_input` distinguishes, and what each version of the compiler
 * makes of them.
 */
module Scripts {
  import opened Wrappers
  import opened Exceptions
  import opened Events
  import opened Text
  import opened LineParser
  import opened Compiler

  lemma Zero()
    ensures IntField("0") == Ok(0)
  {
  }

  lemma Thousand()
    ensures IntField("1000") == Ok(1000)
  {
    DigitsOfNoUnderscore("1000");
    assert "1000"[..3] == "100";
    assert "100"[..2] == "10";
    assert "10"[..1] == "1";
    assert DecimalValue("1") == 1;
  }

  // ---------------------------------------------------------------------------
  // Helpers that keep literal strings out of the reasoning about `ParseLine`

  /** A word with no underscore has no `_click` in it and keeps its name as event type. */
  lemma NoClick(w: string)
    requires forall k :: 0 <= k < |w| ==> w[k] != '_'
    ensures StripClick(w) == w
  {
    forall k: nat | k <= |w|
      ensures !OccursAt(w, ClickSuffix, k)
    {
      if k + |ClickSuffix| <= |w| {
        assert w[k..k + |ClickSuffix|][0] == w[k];
      }
    }
  }

  lemma TwoFields(line: string, a: string, b: string)
    requires AllWord(a) && AllWord(b) && |a| > 0 && |b| > 0
    requires line == a + " " + b
    ensures Tokens(line) == [a, b]
  {
    assert Interleave([b], []) == b;
    TokensOfTrimmed(line, [a, b], [' ']);
  }

  lemma ThreeFields(line: string, a: string, b: string, c: string)
    requires AllWord(a) && AllWord(b) && AllWord(c) && |a| > 0 && |c| > 0
    requires line == a + " " + b + " " + c
    ensures Tokens(line) == [a, b, c]
  {
    assert Interleave([c], []) == c;
    assert Interleave([b, c], [' ']) == b + " " + c;
    TokensOfTrimmed(line, [a, b, c], [' ', ' ']);
  }

  lemma FourFields(line: string, a: string, b: string, c: string, d: string)
    requires AllWord(a) && AllWord(b) && AllWord(c) && AllWord(d) && |a| > 0 && |d| > 0
    requires line == a + " " + b + " " + c + " " + d
    ensures Tokens(line) == [a, b, c, d]
  {
    assert Interleave([d], []) == d;
    assert Interleave([c, d], [' ']) == c + " " + d;
    assert Interleave([b, c, d], [' ', ' ']) == b + " " + c + " " + d;
    TokensOfTrimmed(line, [a, b, c, d], [' ', ' ', ' ']);
  }

  /** A three-field mouse line with an untimed action. */
  lemma UntimedMouseLine(line: string, first: string, second: string, third: string, eventType: string, timestamp: nat)
    requires AllWord(first) && AllWord(second) && AllWord(third) && |first| > 0 && |third| > 0
    requires line == first + " " + second + " " + third
    requires StripClick(first) == eventType
    requires eventType in MouseActions && eventType !in TimedActions
    requires IntField(third) == Ok(timestamp)
    ensures ParseLine(line) == Ok(MouseIntent(if eventType in ButtonFromField then second else "left", eventType, timestamp, 0))
  {
    ThreeFields(line, first, second, third);
  }

  /** A four-field `click` line. */
  lemma TimedMouseLine(line: string, second: string, third: string, fourth: string, timestamp: nat, duration: nat)
    requires AllWord(second) && AllWord(third) && AllWord(fourth) && |fourth| > 0
    requires line == "click" + " " + second + " " + third + " " + fourth
    requires IntField(third) == Ok(timestamp) && IntField(fourth) == Ok(duration)
    ensures ParseLine(line) == Ok(MouseIntent(second, "click", timestamp, duration))
  {
    FourFields(line, "click", second, third, fourth);
    NoClick("click");
  }

  /** A two-field line whose event type is neither a mouse action nor `key`. */
  lemma UnrecognisedLine(line: string, first: string, second: string)
    requires AllWord(first) && AllWord(second) && |first| > 0 && |second| > 0
    requires line == first + " " + second
    requires StripClick(first) !in MouseActions && StripClick(first) != "key"
    ensures ParseLine(line) == Ok(Unrecognised)
  {
    TwoFields(line, first, second);
  }

  /** A two-field mouse line. */
  lemma ShortMouseLine(line: string, first: string, second: string)
    requires AllWord(first) && AllWord(second) && |first| > 0 && |second| > 0
    requires line == first + " " + second
    requires StripClick(first) in MouseActions
    ensures ParseLine(line) == Err(IndexError)
  {
    TwoFields(line, first, second);
  }

  // ---------------------------------------------------------------------------
  // Sample lines. Each `...Fields` lemma only gathers the facts about its
  // literal line that the parsing lemmas above need, so that the solver does
  // not have to unfold the literals alongside them.

  lemma DownAtZeroFields()
    ensures AllWord("down") && AllWord("x") && AllWord("0")
    ensures "down x 0" == "down" + " " + "x" + " " + "0"
    ensures "down" in MouseActions && "down" !in TimedActions
  {
  }

  lemma DownAtZero()
    ensures ParseLine("down x 0") == Ok(MouseIntent("left", "down", 0, 0))
  {
    DownAtZeroFields();
    NoClick("down");
    Zero();
    UntimedMouseLine("down x 0", "down", "x", "0", "down", 0);
  }

  lemma DownAtThousandFields()
    ensures AllWord("down") && AllWord("x") && AllWord("1000")
    ensures "down x 1000" == "down" + " " + "x" + " " + "1000"
    ensures "down" in MouseActions && "down" !in TimedActions
  {
  }

  lemma DownAtThousand()
    ensures ParseLine("down x 1000") == Ok(MouseIntent("left", "down", 1000, 0))
  {
    DownAtThousandFields();
    NoClick("down");
    Thousand();
    UntimedMouseLine("down x 1000", "down", "x", "1000", "down", 1000);
  }

  /** A one-line script compiles to the events of its single step. */
  lemma CompileOneLine(version: Version, line: string)
    ensures Compile(version, [line]) == match Step(version, Initial, line)
      case Ok(s) => Ok(s.events)
      case Err(e) => Err(e)
  {
    assert [line][1..] == [];
    match Step(version, Initial, line)
    case Ok(next) =>
      assert Run(version, next, []) == Ok(next);
    case Err(_) =>
  }

  lemma OneMouseLine(line: string)
    requires ParseLine(line) == Ok(MouseIntent("left", "down", 0, 0))
    ensures Compile(AsWritten, [line]) == Err(KeyError("left"))
    ensures Compile(Corrected, [line]) == Ok([MouseEvent("left", "down", 0)])
  {
    CompileOneLine(AsWritten, line);
    CompileOneLine(Corrected, line);
    var r := Reservation("left", "down", 0, 0);
    assert EventOf(r) == MouseEvent("left", "down", 0);
    assert Initial.busyUntil == map[] && Initial.events == [] && Initial.log == [];
    assert End(r) == 1;
    assert Step(Corrected, Initial, line) == Ok(State(Initial.events + [EventOf(r)], Initial.busyUntil["left" := End(r)], Initial.log + [r]));
    assert Initial.events + [EventOf(r)] == [EventOf(r)];
    assert Initial.busyUntil["left" := End(r)] == map["left" := 1];
    assert Initial.log + [r] == [r];
  }

  /**
   * As written, the very first mouse line of a script raises `KeyError`;
   * in the corrected version the same script compiles to one event.
   */
  lemma FirstMouseLine()
    ensures Compile(AsWritten, ["down x 0"]) == Err(KeyError("left"))
    ensures Compile(Corrected, ["down x 0"]) == Ok([MouseEvent("left", "down", 0)])
  {
    DownAtZero();
    OneMouseLine("down x 0");
  }

  lemma TwoPressesAtOneInstant(line: string)
    requires ParseLine(line) == Ok(MouseIntent("left", "down", 1000, 0))
    ensures Compile(Corrected, [line, line]) == Ok([MouseEvent("left", "down", 0)])
  {
    var r := Reservation("left", "down", 1000, 0);
    var s1 := State([EventOf(r)], map["left" := 1001], [r]);
    assert EventOf(r) == MouseEvent("left", "down", 0);
    assert Initial.events + [EventOf(r)] == [EventOf(r)];
    assert Initial.busyUntil["left" := End(r)] == map["left" := 1001];
    assert Initial.log + [r] == [r];
    assert Step(Corrected, Initial, line) == Ok(s1);
    SameInstantDropped(Corrected, Initial, line, line);
    var lines := [line, line];
    assert lines[1..] == [line] && lines[1..][1..] == [];
    assert Step(Corrected, s1, line) == Ok(s1);
    assert Run(Corrected, s1, []) == Ok(s1);
    assert Run(Corrected, s1, [line]) == Ok(s1);
    assert Run(Corrected, Initial, lines) == Ok(s1);
  }

  /** Two zero-length presses of the left button at 1000: the second is dropped. */
  lemma ZeroDurationConflict()
    ensures Compile(Corrected, ["down x 1000", "down x 1000"]) == Ok([MouseEvent("left", "down", 0)])
  {
    DownAtThousand();
    TwoPressesAtOneInstant("down x 1000");
  }

  lemma Twenty()
    ensures IntField("20") == Ok(20)
  {
    DigitsOfNoUnderscore("20");
    assert "20"[..1] == "2";
    assert DecimalValue("2") == 2;
  }

  lemma FiveHundred()
    ensures IntField("500") == Ok(500)
  {
    DigitsOfNoUnderscore("500");
    assert "500"[..2] == "50";
    assert "50"[..1] == "5";
    assert DecimalValue("5") == 5;
  }

  lemma TwelveHundred()
    ensures IntField("1200") == Ok(1200)
  {
    DigitsOfNoUnderscore("1200");
    assert "1200"[..3] == "120";
    assert "120"[..2] == "12";
    assert "12"[..1] == "1";
    assert DecimalValue("1") == 1;
  }

  lemma RightClickType()
    ensures StripClick("right_click") == "right"
  {
    StripClickSuffix("right");
    assert "right" + ClickSuffix == "right_click";
  }

  /** `str.replace` removes both suffixes, so `left_click_click` is the event type `left`. */
  lemma RepeatedClickType()
    ensures StripClick("left_click_click") == "left"
  {
    StripRepeatedClickSuffix("left");
    assert "left" + ClickSuffix + ClickSuffix == "left_click_click";
  }

  lemma ButtonClickFields()
    ensures AllWord("right_click") && AllWord("50") && AllWord("1200")
    ensures "right_click 50 1200" == "right_click" + " " + "50" + " " + "1200"
    ensures "right" in MouseActions && "right" !in TimedActions
  {
  }

  /**
   * The `<button>_click <duration> <timestamp>` line takes its button from
   * the second field and reads no duration: `right_click 50 1200` is a
   * zero-length `right` action on a button named "50".
   */
  lemma ButtonClickLine()
    ensures ParseLine("right_click 50 1200") == Ok(MouseIntent("50", "right", 1200, 0))
  {
    ButtonClickFields();
    RightClickType();
    TwelveHundred();
    UntimedMouseLine("right_click 50 1200", "right_click", "50", "1200", "right", 1200);
  }

  lemma ClickFields()
    ensures AllWord("click") && AllWord("right") && AllWord("500") && AllWord("20")
    ensures "click right 500 20" == "click" + " " + "right" + " " + "500" + " " + "20"
  {
  }

  /** `click <button> <timestamp> <duration>` reads all three fields. */
  lemma ClickLine()
    ensures ParseLine("click right 500 20") == Ok(MouseIntent("right", "click", 500, 20))
  {
    ClickFields();
    FiveHundred();
    Twenty();
    TimedMouseLine("click right 500 20", "right", "500", "20", 500, 20);
  }

  lemma ButtonFirstFields()
    ensures AllWord("left") && AllWord("down") && AllWord("0")
    ensures "left down 0" == "left" + " " + "down" + " " + "0"
    ensures "left" in MouseActions && "left" !in TimedActions
  {
  }

  /** `left down 0` names the button "down", taken from the second field. */
  lemma ButtonFirstLine()
    ensures ParseLine("left down 0") == Ok(MouseIntent("down", "left", 0, 0))
  {
    ButtonFirstFields();
    NoClick("left");
    Zero();
    UntimedMouseLine("left down 0", "left", "down", "0", "left", 0);
  }

  lemma UnknownFields()
    ensures AllWord("foo") && AllWord("bar")
    ensures "foo bar" == "foo" + " " + "bar"
    ensures "foo" !in MouseActions && "foo" != "key"
  {
  }

  /** An unknown first field is skipped rather than reported. */
  lemma UnknownLine()
    ensures ParseLine("foo bar") == Ok(Unrecognised)
  {
    UnknownFields();
    NoClick("foo");
    UnrecognisedLine("foo bar", "foo", "bar");
  }

  lemma ShortFields()
    ensures AllWord("up") && AllWord("5")
    ensures "up 5" == "up" + " " + "5"
    ensures "up" in MouseActions
  {
  }

  /** A short mouse line raises `IndexError`. */
  lemma ShortLine()
    ensures ParseLine("up 5") == Err(IndexError)
  {
    ShortFields();
    NoClick("up");
    ShortMouseLine("up 5", "up", "5");
  }
}
