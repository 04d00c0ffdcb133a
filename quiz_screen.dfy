/** The question screen (components/QuizScreen.tsx): a per-question countdown, a once-only
    selection, and an advance (by "Next" or by timeout) that records one Answer and either moves
    to the next question or hands the finished answer list to the caller. */
module QuizScreen {
  import opened QuizTypes

  /** Seconds on the clock when a question is entered. */
  const TimeLimit: nat := 60

  // ---------------------------------------------------------------------------------------------
  // The countdown

  /** One tick of the interval: the clock drops by one second and clamps at zero. */
  function NextTime(prev: int): (r: nat)
    ensures prev >= 1 ==> r == prev - 1
    ensures prev <= 1 ==> r == 0
  {
    if prev <= 1 then 0 else prev - 1
  }

  /** The clock after `n` ticks starting from `t`. */
  function Countdown(t: int, n: nat): (r: int)
    ensures t >= 0 ==> 0 <= r <= t
    ensures n >= t ==> r <= 0
    decreases n
  {
    if n == 0 then t else Countdown(NextTime(t), n - 1)
  }

  /** From any non-negative start, `n` ticks leave `t - n` on the clock, or zero once the clock has
      run out; so the clock never goes negative, never rises, and a fresh question (t = 60) reaches
      zero after exactly 60 ticks and not before. */
  lemma {:induction false} CountdownClamps(t: nat, n: nat)
    ensures Countdown(t, n) == if n <= t then t - n else 0
    ensures 0 <= Countdown(t, n) <= t
    decreases n
  {
    if n > 0 {
      CountdownClamps(NextTime(t), n - 1);
    }
  }

  // ---------------------------------------------------------------------------------------------
  // Recording an answer

  /** `a` is the record of question `q`: text and correct answer copied, and `isCorrect` exactly
      when the selection equals the correct answer (never when nothing was selected). */
  predicate Records(a: Answer, q: Question)
  {
    && a.question == q.question
    && a.correctAnswer == q.correctAnswer
    && a.isCorrect == (a.selectedAnswer == Some(q.correctAnswer))
  }

  /** The selection recorded in `a`, if any, is one of the options `q` offered. */
  predicate Offered(a: Answer, q: Question)
  {
    a.selectedAnswer.Some? ==> a.selectedAnswer.value in q.options
  }

  /** `answers` records the first `|answers|` questions, in order. */
  predicate AnswersFor(questions: seq<Question>, answers: seq<Answer>)
  {
    && |answers| <= |questions|
    && forall i :: 0 <= i < |answers| ==> Records(answers[i], questions[i]) && Offered(answers[i], questions[i])
  }

  /** The Answer built on an advance, from the current question and the current selection. */
  function MakeAnswer(q: Question, selected: Option<string>): (a: Answer)
    ensures Records(a, q)
    ensures a.selectedAnswer == selected
    ensures selected.None? ==> !a.isCorrect
  {
    Answer(q.question, selected, q.correctAnswer, selected == Some(q.correctAnswer))
  }

  // ---------------------------------------------------------------------------------------------
  // The session state machine

  class Session {
    /** The prepared questions of this attempt (a prop: never changed by the screen). */
    const questions: seq<Question>
    var index: nat
    var selected: Option<string>
    var answers: seq<Answer>
    var timeLeft: int
    /** What the finish callback received; None while the session is running. */
    var emitted: Option<seq<Answer>>

    ghost predicate Valid()
      reads this
    {
      && |questions| > 0
      && index < |questions|
      && 0 <= timeLeft <= TimeLimit
      && (selected.Some? ==> selected.value in questions[index].options)
      && AnswersFor(questions, answers)
      && (emitted.None? ==> |answers| == index)
      && (emitted.Some? ==> index == |questions| - 1 && |answers| == |questions| && emitted.value == answers)
    }

    predicate Active()
      reads this
    {
      emitted.None?
    }

    /** Mounting the screen: first question, empty answer list, full clock, nothing selected. */
    constructor (questions: seq<Question>)
      requires |questions| > 0
      ensures Valid() && Active()
      ensures this.questions == questions
      ensures index == 0 && answers == [] && selected == None && timeLeft == TimeLimit
    {
      this.questions := questions;
      index := 0;
      selected := None;
      answers := [];
      timeLeft := TimeLimit;
      emitted := None;
    }

    /** Entering a question (the effect that runs when the index changes): the clock restarts at
        60 and the selection is cleared. */
    method Enter()
      requires Valid()
      modifies this
      ensures Valid()
      ensures timeLeft == TimeLimit && selected == None
      ensures index == old(index) && answers == old(answers) && emitted == old(emitted)
    {
      timeLeft := TimeLimit;
      selected := None;
    }

    /** One interval tick. Once the session has finished the screen is gone and nothing ticks. */
    method Tick()
      requires Valid()
      modifies this
      ensures Valid()
      ensures timeLeft == if old(Active()) then NextTime(old(timeLeft)) else old(timeLeft)
      ensures index == old(index) && selected == old(selected)
      ensures answers == old(answers) && emitted == old(emitted)
    {
      if Active() {
        timeLeft := NextTime(timeLeft);
      }
    }

    /** Clicking an option: it takes effect only while nothing is selected yet. Only the option
        buttons of the current question call this. */
    method Select(option: string)
      requires Valid()
      requires option in questions[index].options
      modifies this
      ensures Valid()
      ensures selected == if old(Active()) && old(selected).None? then Some(option) else old(selected)
      ensures index == old(index) && timeLeft == old(timeLeft)
      ensures answers == old(answers) && emitted == old(emitted)
    {
      if Active() && selected.None? {
        selected := Some(option);
      }
    }

    /** The state after an advance from question `from` with selection `chosen`, given the answers
        recorded before it: one more Answer, and the next question entered or the session finished. */
    ghost predicate AdvancedFrom(from: nat, chosen: Option<string>, before: seq<Answer>)
      reads this
      requires from < |questions|
    {
      && answers == before + [MakeAnswer(questions[from], chosen)]
      && if from < |questions| - 1 then
           index == from + 1 && Active() && timeLeft == TimeLimit && selected == None
         else
           index == from && emitted == Some(answers)
    }

    /** Shared by both triggers: append the Answer for the current question, then enter the next
        question or hand the answers to the finish callback. */
    method Advance()
      requires Valid() && Active()
      modifies this
      ensures Valid()
      ensures AdvancedFrom(old(index), old(selected), old(answers))
      ensures old(index) == |questions| - 1 ==> timeLeft == old(timeLeft) && selected == old(selected)
    {
      var answer := MakeAnswer(questions[index], selected);
      answers := answers + [answer];
      if index < |questions| - 1 {
        index := index + 1;
        selected := None;
        Enter();
      } else {
        emitted := Some(answers);
      }
    }

    /** The "Next" button: disabled (no effect) while nothing is selected; otherwise an advance,
        after which the selection is cleared. */
    method Next()
      requires Valid()
      modifies this
      ensures Valid()
      ensures old(Active()) && old(selected).Some? ==>
                AdvancedFrom(old(index), old(selected), old(answers)) && selected == None
      ensures !(old(Active()) && old(selected).Some?) ==>
                index == old(index) && selected == old(selected) && timeLeft == old(timeLeft)
                && answers == old(answers) && emitted == old(emitted)
    {
      if Active() && selected.Some? {
        Advance();
        selected := None;
      }
    }

    /** The auto-advance effect: it fires only when the clock shows zero, whether or not an option
        was selected. */
    method Timeout()
      requires Valid()
      modifies this
      ensures Valid()
      ensures old(Active()) && old(timeLeft) == 0 ==> AdvancedFrom(old(index), old(selected), old(answers))
      ensures !(old(Active()) && old(timeLeft) == 0) ==>
                index == old(index) && selected == old(selected) && timeLeft == old(timeLeft)
                && answers == old(answers) && emitted == old(emitted)
    {
      if Active() && timeLeft == 0 {
        Advance();
      }
    }
  }

  // ---------------------------------------------------------------------------------------------
  // The clock text: minutes, ":", seconds padded to two digits

  predicate IsDigit(c: char)
  {
    '0' <= c <= '9'
  }

  predicate AllDigits(s: string)
  {
    forall i :: 0 <= i < |s| ==> IsDigit(s[i])
  }

  function DigitChar(d: nat): (c: char)
    requires d < 10
    ensures IsDigit(c)
  {
    (('0' as int) + d) as char
  }

  function DigitValue(c: char): (d: nat)
    requires IsDigit(c)
    ensures d < 10
  {
    (c as int) - ('0' as int)
  }

  /** A non-negative integer in decimal, without leading zeros (`Number.prototype.toString`). */
  function DecimalString(n: nat): (s: string)
    ensures 1 <= |s| && AllDigits(s)
    ensures n > 0 ==> s[0] != '0'
    ensures n < 10 ==> |s| == 1
    ensures n < 100 ==> |s| <= 2
    decreases n
  {
    if n < 10 then [DigitChar(n)] else DecimalString(n / 10) + [DigitChar(n % 10)]
  }

  /** The value of a string of decimal digits (the empty string reads as zero). */
  function ParseDecimal(s: string): nat
    requires AllDigits(s)
    decreases |s|
  {
    if s == [] then 0 else 10 * ParseDecimal(s[..|s| - 1]) + DigitValue(s[|s| - 1])
  }

  /** `padStart(2, '0')`: left-pad with zeros up to length two. */
  function PadTwo(s: string): (p: string)
    ensures |p| == if |s| >= 2 then |s| else 2
    ensures p[|p| - |s|..] == s
    ensures forall i :: 0 <= i < |p| - |s| ==> p[i] == '0'
  {
    if |s| >= 2 then s else seq(2 - |s|, _ => '0') + s
  }

  /** The clock as the screen shows it: whole minutes, a colon, and the remaining seconds in two
      digits. */
  function TimerText(t: nat): (text: string)
    ensures |text| >= 4 && text[|text| - 3] == ':'
    ensures text[..|text| - 3] == DecimalString(t / 60)
    ensures AllDigits(text[|text| - 2..]) && ParseDecimal(text[|text| - 2..]) == t % 60
  {
    var sec := DecimalString(t % 60);
    PadTwoKeepsValue(sec);
    DecimalRoundTrip(t % 60);
    var text := DecimalString(t / 60) + ":" + PadTwo(sec);
    assert text[..|text| - 3] == DecimalString(t / 60);
    assert text[|text| - 2..] == PadTwo(sec);
    text
  }

  /** Reads a clock text back: everything before the third-last character is the minutes, which
      must be followed by ':' and two digits of seconds below 60. */
  function ParseTimerText(text: string): Option<nat>
  {
    if |text| >= 4 && text[|text| - 3] == ':'
       && AllDigits(text[..|text| - 3]) && AllDigits(text[|text| - 2..])
       && ParseDecimal(text[|text| - 2..]) < 60
    then Some(60 * ParseDecimal(text[..|text| - 3]) + ParseDecimal(text[|text| - 2..]))
    else None
  }

  lemma {:induction false} DecimalRoundTrip(n: nat)
    ensures ParseDecimal(DecimalString(n)) == n
    decreases n
  {
    var s := DecimalString(n);
    if n >= 10 {
      DecimalRoundTrip(n / 10);
      assert s[..|s| - 1] == DecimalString(n / 10);
    }
  }

  lemma {:induction false} LeadingZero(s: string)
    requires AllDigits(s)
    ensures AllDigits(['0'] + s) && ParseDecimal(['0'] + s) == ParseDecimal(s)
    decreases |s|
  {
    var z := ['0'] + s;
    if s != [] {
      LeadingZero(s[..|s| - 1]);
      assert z[..|z| - 1] == ['0'] + s[..|s| - 1];
    }
  }

  /** Padding keeps the digits and the value, and gives two characters to any one-digit string. */
  lemma PadTwoKeepsValue(s: string)
    requires AllDigits(s) && |s| <= 2
    ensures |PadTwo(s)| == 2 && AllDigits(PadTwo(s)) && ParseDecimal(PadTwo(s)) == ParseDecimal(s)
  {
    if |s| == 1 {
      LeadingZero(s);
      assert PadTwo(s) == ['0'] + s;
    } else if |s| == 0 {
      LeadingZero(s);
      LeadingZero(['0']);
      assert PadTwo(s) == ['0'] + (['0'] + s);
    }
  }

  /** The clock text determines the time: reading it back gives the seconds it was made from. */
  lemma TimerTextRoundTrip(t: nat)
    ensures ParseTimerText(TimerText(t)) == Some(t)
  {
    DecimalRoundTrip(t / 60);
  }

  /** A fresh question shows 1:00; nine seconds show 0:09; a seconds field of 60 or more is not a
      clock text. */
  lemma TimerTextExamples()
    ensures TimerText(60) == "1:00"
    ensures TimerText(9) == "0:09"
    ensures ParseTimerText("0:60") == None
  {
    var text := "0:60";
    assert text[..|text| - 3] == "0" && text[|text| - 2..] == "60";
    assert ParseDecimal("6") == 6;
    assert "60"[..1] == "6";
  }
}
