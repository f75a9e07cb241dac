/**
  The rules of the quiz-generator window (customtkinter_GUI.py) that are
  more than widget plumbing: the question-count stepper and the start
  guard on the count entry, the centring of popups over the main window,
  and the blinking progress label with its timer.

  The entry widget is a `QuestionEntry` holding its text; the window's
  progress state is an `AppFrame` whose `pending` field is the delay of the
  label callback scheduled with `after` (None when nothing is scheduled).
*/
module Gui {
  import opened Wrappers
  import opened PyText

  // ---------------------------------------------------------------------
  // The question-count stepper (customtkinter_GUI.py:1185-1206)

  /** The entry text after increment_questions. */
  function Incremented(text: string): string {
    var current := Strip(text);
    if !IsDigitString(current) then "1" else Decimal(DigitsValue(current) + 1)
  }

  /** The entry text after decrement_questions. */
  function Decremented(text: string): string {
    var current := Strip(text);
    if !IsDigitString(current) then "1"
    else
      var value := DigitsValue(current);
      if value > 1 then Decimal(value - 1) else text
  }

  /** The number a stepped entry shows. */
  function Shown(text: string): nat
    requires IsDigitString(text)
  {
    DigitsValue(text)
  }

  /** Incrementing shows one more than the entry showed, or 1 when the
      entry did not hold a number. */
  lemma IncrementedShows(text: string)
    ensures IsDigitString(Incremented(text))
    ensures Shown(Incremented(text)) ==
      if IsDigitString(Strip(text)) then DigitsValue(Strip(text)) + 1 else 1
  {
    if IsDigitString(Strip(text)) {
      DecimalRoundTrip(DigitsValue(Strip(text)) + 1);
    } else {
      assert DigitsValue("1") == DigitsValue("") * 10 + 1;
    }
  }

  /** Decrementing shows one less down to 1 and never goes below it; a
      count of 0 or 1 is left as it is, and non-numbers become 1. */
  lemma DecrementedShows(text: string)
    ensures !IsDigitString(Strip(text)) ==> Decremented(text) == "1"
    ensures IsDigitString(Strip(text)) && DigitsValue(Strip(text)) > 1 ==>
      IsDigitString(Decremented(text)) && Shown(Decremented(text)) == DigitsValue(Strip(text)) - 1
    ensures IsDigitString(Strip(text)) && DigitsValue(Strip(text)) <= 1 ==> Decremented(text) == text
  {
    if IsDigitString(Strip(text)) && DigitsValue(Strip(text)) > 1 {
      DecimalRoundTrip(DigitsValue(Strip(text)) - 1);
    }
  }

  /** Stepping down undoes stepping up for counts of 1 or more; from 0 the
      entry climbs to 1 and stays there. */
  lemma {:induction false} DecrementUndoesIncrement(text: string)
    requires IsDigitString(Strip(text))
    ensures DigitsValue(Strip(text)) >= 1 ==> Decremented(Incremented(text)) == Decimal(DigitsValue(Strip(text)))
    ensures DigitsValue(Strip(text)) == 0 ==> Decremented(Incremented(text)) == "1"
  {
    var n := DigitsValue(Strip(text));
    var up := Decimal(n + 1);
    assert !IsSpace(up[0]) && !IsSpace(up[|up| - 1]);
    StripSurrounded([], up, []);
    assert [] + up + [] == up;
    DecimalRoundTrip(n + 1);
    if n == 0 {
      assert up == "1";
    }
  }

  /** The count entry, whose text the stepper buttons rewrite. */
  class QuestionEntry {
    var text: string

    constructor (text: string)
      ensures this.text == text
    {
      this.text := text;
    }

    method IncrementQuestions()
      modifies this
      ensures text == Incremented(old(text))
    {
      var currentValueStr := Strip(text);
      if !IsDigitString(currentValueStr) {
        text := "1";
      } else {
        var currentValue := DigitsValue(currentValueStr);
        text := Decimal(currentValue + 1);
      }
    }

    method DecrementQuestions()
      modifies this
      ensures text == Decremented(old(text))
    {
      var currentValueStr := Strip(text);
      if !IsDigitString(currentValueStr) {
        text := "1";
      } else {
        var currentValue := DigitsValue(currentValueStr);
        if currentValue > 1 {
          text := Decimal(currentValue - 1);
        }
      }
    }
  }

  // ---------------------------------------------------------------------
  // The start guard (customtkinter_GUI.py:1117-1119, 1136, 1158-1159)

  /** The feedback for a missing or malformed count (both branches). */
  const MissingCountFeedback: string := "最大問題数を指定してください。"

  /** The count run_quiz_generation hands to main: entry <= "0" (a string
      comparison) stops the run with sys.exit(1); otherwise int(entry),
      whose ValueError goes to the error handler. */
  function QuestionCount(entry: string): Result<int> {
    if LexLessEq(entry, "0") then Failure(SystemExit(1)) else ParseInt(entry)
  }

  /** The guard stops exactly the empty entry, "0", and the entries whose
      first character comes before '0' (a sign, ASCII whitespace, ...). */
  lemma QuestionCountGuard(entry: string)
    ensures QuestionCount(entry) == Failure(SystemExit(1)) <==> entry == [] || entry[0] < '0' || entry == "0"
  {
    LexLessEqZero(entry);
  }

  /** Four entries the guard stops before `int()`: "", "0", "-3" and
      " 5". */
  lemma QuestionCountStops()
    ensures QuestionCount("") == Failure(SystemExit(1))
    ensures QuestionCount("0") == Failure(SystemExit(1))
    ensures QuestionCount("-3") == Failure(SystemExit(1))
    ensures QuestionCount(" 5") == Failure(SystemExit(1))
  {
    QuestionCountGuard("");
    QuestionCountGuard("0");
    QuestionCountGuard("-3");
    QuestionCountGuard(" 5");
  }

  /** Letters pass the guard and end in the ValueError of int(). */
  lemma QuestionCountLetters()
    ensures QuestionCount("abc") == Failure(ValueError)
  {
    LexLessEqZero("abc");
    StripSurrounded([], "abc", []);
    assert [] + "abc" + [] == "abc";
  }

  /** A digit string other than "0" passes the guard, and its value is
      passed as `questions=` to the call of main, leading zeros included. */
  lemma QuestionCountDigits(digits: string)
    requires IsDigitString(digits) && digits != "0"
    ensures QuestionCount(digits) == Success(DigitsValue(digits))
  {
    LexLessEqZero(digits);
    ParseIntDigits([], digits, []);
    assert [] + digits + [] == digits;
  }

  /** Whatever the stepper leaves in the entry passes the guard, and the
      number it shows is passed as `questions=` to the call of main. */
  lemma StepperPassesGuard(text: string)
    ensures QuestionCount(Incremented(text)) == Success(Shown(Incremented(text)))
    ensures Shown(Incremented(text)) >= 1
  {
    IncrementedShows(text);
    var t := Incremented(text);
    LexLessEqZero(t);
    var m := if IsDigitString(Strip(text)) then DigitsValue(Strip(text)) + 1 else 1;
    assert t == Decimal(m);
    ParseIntDigits([], t, []);
    assert [] + t + [] == t;
  }

  /** The guard as written lets a count of zero through: "00" sorts after
      "0" and int() reads it as 0, which is passed as `questions=` to the
      call of main. Once that call is accepted, 0 questions would empty the
      dict. */
  lemma QuestionCountLetsZeroThrough()
    ensures QuestionCount("00") == Success(0)
  {
    QuestionCountDigits("00");
    assert DigitsValue("00") == DigitsValue("0") * 10 + 0;
    assert DigitsValue("0") == DigitsValue("") * 10 + 0;
  }

  /** The guard as written lets a negative count through: an ideographic
      space sorts after "0", and int() strips it and reads -3. */
  lemma QuestionCountLetsNegativeThrough()
    ensures QuestionCount("\U{3000}-3") == Success(-3)
  {
    assert DigitsValue("3") == DigitsValue("") * 10 + 3;
    QuestionCountNegative("\U{3000}", "3");
    assert "\U{3000}" + ("-" + "3") == "\U{3000}-3";
  }

  /** A minus sign after whitespace that sorts after "0" passes the guard,
      and int() reads the negative number. */
  lemma QuestionCountNegative(space: string, digits: string)
    requires AllSpace(space) && space != [] && space[0] > '0' && IsDigitString(digits)
    ensures QuestionCount(space + ("-" + digits)) == Success(-(DigitsValue(digits) as int))
  {
    var entry := space + ("-" + digits);
    LexLessEqZero(entry);
    assert entry[0] == space[0];
    ParseIntNegative(space, digits, []);
    assert entry + [] == entry;
  }

  /** The guard as evidently intended: the same stop for the entries the
      guard catches, and also for any count below one. */
  function PositiveQuestionCount(entry: string): (r: Result<int>)
    ensures r.Success? ==> r.value >= 1
  {
    if LexLessEq(entry, "0") then Failure(SystemExit(1))
    else
      match ParseInt(entry)
      case Success(n) => if n < 1 then Failure(SystemExit(1)) else Success(n)
      case Failure(e) => Failure(e)
  }

  /** The intended guard agrees with the written one on every entry whose
      count is one or more, and stops every other count. */
  lemma PositiveQuestionCountAgrees(entry: string)
    ensures var r := PositiveQuestionCount(entry); var w := QuestionCount(entry);
      && (r.Success? <==> w.Success? && w.value >= 1)
      && (r.Success? ==> r == w)
      && (w.Success? && w.value < 1 ==> r == Failure(SystemExit(1)))
      && (w.Failure? ==> r == w)
  {
  }

  // ---------------------------------------------------------------------
  // Popup placement (customtkinter_GUI.py:684-694)

  /** calculate_window_size: the popup keeps its size and is placed so that
      its centre falls on the main window's centre. Python's // floors;
      Dafny's / on int agrees with it for the divisor 2. */
  function CalculateWindowSize(popupWidth: int, popupHeight: int,
                               mainWidth: int, mainHeight: int, mainX: int, mainY: int): (r: (int, int, int, int))
    ensures r.0 == popupWidth && r.1 == popupHeight
    ensures -1 <= (2 * r.2 + popupWidth) - (2 * mainX + mainWidth) <= 1
    ensures -1 <= (2 * r.3 + popupHeight) - (2 * mainY + mainHeight) <= 1
    ensures popupWidth % 2 == mainWidth % 2 ==> 2 * r.2 + popupWidth == 2 * mainX + mainWidth
    ensures popupHeight % 2 == mainHeight % 2 ==> 2 * r.3 + popupHeight == 2 * mainY + mainHeight
  {
    var xPosition := mainX + (mainWidth / 2) - (popupWidth / 2);
    var yPosition := mainY + (mainHeight / 2) - (popupHeight / 2);
    (popupWidth, popupHeight, xPosition, yPosition)
  }

  // ---------------------------------------------------------------------
  // The blinking progress label (customtkinter_GUI.py:1329-1369)

  /** The four frames of the initialisation animation. */
  const InitFrames: seq<string> := ["初期化中", "初期化中・", "初期化中・・", "初期化中・・・"]

  /** The word whose presence in the feedback label stops the animation. */
  const ErrorWord: string := "エラー"

  /** The initialisation label's next text: the next frame of the cycle,
      and the first frame after the last one or after any other text. */
  function NextInitText(current: string): (r: string)
    ensures r in InitFrames
    ensures current == InitFrames[0] ==> r == InitFrames[1]
    ensures current == InitFrames[1] ==> r == InitFrames[2]
    ensures current == InitFrames[2] ==> r == InitFrames[3]
    ensures current == InitFrames[3] ==> r == InitFrames[0]
    ensures current !in InitFrames ==> r == InitFrames[0]
  {
    if current == "初期化中" then "初期化中・"
    else if current == "初期化中・" then "初期化中・・"
    else if current == "初期化中・・" then "初期化中・・・"
    else "初期化中"
  }

  /** Four steps bring every frame back to itself. */
  lemma InitTextCycles(current: string)
    requires current in InitFrames
    ensures NextInitText(NextInitText(NextInitText(NextInitText(current)))) == current
  {
  }

  /** "・" * n */
  function Dots(n: nat): (r: string)
    ensures |r| == n && forall k :: 0 <= k < n ==> r[k] == '・'
  {
    if n == 0 then "" else Dots(n - 1) + "・"
  }

  /** f"{v}" of an int or None. */
  function ValueText(v: Option<int>): string {
    match v
    case None => "None"
    case Some(n) => IntText(n)
  }

  /** The label while quiz generation runs: the base text and dotCounter dots. */
  function GeneratingText(currentIndex: Option<int>, totalIds: Option<int>, dotCounter: nat): (r: string)
    ensures |r| >= dotCounter && r[|r| - dotCounter..] == Dots(dotCounter)
  {
    "クイズを作成中(" + ValueText(currentIndex) + "/" + ValueText(totalIds) + ")" + Dots(dotCounter)
  }

  /** The main window's progress state. */
  class AppFrame {
    var currentIndex: Option<int>
    var totalIds: Option<int>
    var feedbackText: string
    var generateButtonDisabled: bool
    var progressText: string
    var dotCounter: int
    /** The delay of the scheduled blink, if one is scheduled. */
    var pending: Option<nat>

    ghost predicate Valid()
      reads this
    {
      0 <= dotCounter < 4
    }

    /** The fields as __init__ sets them (customtkinter_GUI.py:888-894). */
    constructor ()
      ensures Valid()
      ensures currentIndex == None && totalIds == None && pending == None && dotCounter == 0
      ensures feedbackText == "" && progressText == "" && !generateButtonDisabled
    {
      currentIndex := None;
      totalIds := None;
      feedbackText := "";
      generateButtonDisabled := false;
      progressText := "";
      dotCounter := 0;
      pending := None;
    }

    /** blink_progress_text_label: cancels the scheduled blink, then shows
        the next initialisation frame while the index is 0, the generating
        text while the generate button is disabled, and clears the label
        otherwise; in the first two cases it schedules itself again. */
    method BlinkProgressTextLabel()
      requires Valid()
      modifies this
      ensures Valid()
      ensures currentIndex == old(currentIndex) && totalIds == old(totalIds)
      ensures feedbackText == old(feedbackText) && generateButtonDisabled == old(generateButtonDisabled)
      ensures if currentIndex == Some(0) && !Contains(feedbackText, ErrorWord) then
          progressText == NextInitText(old(progressText)) && dotCounter == old(dotCounter) && pending == Some(500)
        else if generateButtonDisabled && !Contains(feedbackText, ErrorWord) then
          progressText == GeneratingText(currentIndex, totalIds, old(dotCounter))
          && dotCounter == (old(dotCounter) + 1) % 4 && pending == Some(2000)
        else
          progressText == "" && dotCounter == old(dotCounter) && pending == None
    {
      if pending.Some? {
        pending := None;
      }
      var noError := Find(feedbackText, ErrorWord).None?;
      if currentIndex == Some(0) && noError {
        var currentText := progressText;
        var newText;
        if currentText == "初期化中" {
          newText := "初期化中・";
        } else if currentText == "初期化中・" {
          newText := "初期化中・・";
        } else if currentText == "初期化中・・" {
          newText := "初期化中・・・";
        } else {
          newText := "初期化中";
        }
        progressText := newText;
        pending := Some(500);
      } else if generateButtonDisabled && noError {
        var baseText := "クイズを作成中(" + ValueText(currentIndex) + "/" + ValueText(totalIds) + ")";
        var dots := Dots(dotCounter);
        progressText := baseText + dots;
        dotCounter := (dotCounter + 1) % 4;
        pending := Some(2000);
      } else {
        progressText := "";
      }
    }

    /** The start of run_quiz_generation (customtkinter_GUI.py:1101-1136,
        1158-1159, 1371-1376) up to the call of main: resets the progress,
        disables the generate button, applies the guard, starts the
        initialisation animation and reads the count; a malformed count
        goes to error_handler. */
    method StartQuizGeneration(entry: string) returns (count: Result<int>)
      requires Valid()
      modifies this
      ensures Valid()
      ensures count == QuestionCount(entry)
      ensures currentIndex == Some(0) && totalIds == Some(0) && dotCounter == old(dotCounter)
      ensures count == Failure(SystemExit(1)) ==>
        feedbackText == MissingCountFeedback && progressText == "" && generateButtonDisabled && pending == old(pending)
      ensures count.Success? ==>
        feedbackText == "" && progressText == InitFrames[1] && generateButtonDisabled && pending == Some(500)
      ensures count == Failure(ValueError) ==>
        feedbackText == "エラー：" + MissingCountFeedback && progressText == "" && !generateButtonDisabled && pending == Some(500)
    {
      currentIndex := Some(0);
      totalIds := Some(0);
      progressText := "";
      generateButtonDisabled := true;
      feedbackText := "";
      if LexLessEq(entry, "0") {
        feedbackText := MissingCountFeedback;
        return Failure(SystemExit(1));
      }
      progressText := "初期化中";
      NoOccurrenceOfChars("", ErrorWord);
      BlinkProgressTextLabel();
      count := ParseInt(entry);
      if count.Failure? {
        progressText := "";
        feedbackText := "エラー：" + MissingCountFeedback;
        generateButtonDisabled := false;
      }
    }

    /** update_progressbar: records the callback's index and total, then
        blinks (the bar's float fraction is not modelled). */
    method UpdateProgressbar(index: int, total: int)
      requires Valid()
      modifies this
      ensures Valid()
      ensures currentIndex == Some(index) && totalIds == Some(total)
      ensures feedbackText == old(feedbackText) && generateButtonDisabled == old(generateButtonDisabled)
      ensures if index == 0 && !Contains(feedbackText, ErrorWord) then
          progressText == NextInitText(old(progressText)) && dotCounter == old(dotCounter) && pending == Some(500)
        else if generateButtonDisabled && !Contains(feedbackText, ErrorWord) then
          progressText == GeneratingText(Some(index), Some(total), old(dotCounter))
          && dotCounter == (old(dotCounter) + 1) % 4 && pending == Some(2000)
        else
          progressText == "" && dotCounter == old(dotCounter) && pending == None
    {
      currentIndex := Some(index);
      totalIds := Some(total);
      BlinkProgressTextLabel();
    }
  }
}
