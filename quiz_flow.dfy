/** A whole attempt end to end: the question screen driven by its events, and the results
    screen's tally of what it recorded. */
module QuizFlow {
  import opened QuizTypes
  import opened QuizScreen
  import opened ResultsScreen

  /** The positions where the selection recorded for question i was its correct answer. */
  ghost function RightPositions(questions: seq<Question>, answers: seq<Answer>): set<nat>
    requires |answers| <= |questions|
  {
    set i: nat | i < |answers| && answers[i].selectedAnswer == Some(questions[i].correctAnswer)
  }

  /** The tally of a finished attempt: one answer per question, the score counts exactly the
      questions whose selection was the correct answer, and correct + wrong is the question count
      with neither negative. */
  lemma FinishedTally(questions: seq<Question>, answers: seq<Answer>)
    requires AnswersFor(questions, answers) && |answers| == |questions|
    ensures Summarize(questions, answers).score == |RightPositions(questions, answers)|
    ensures Summarize(questions, answers).wrongAnswers >= 0
    ensures Summarize(questions, answers).correctAnswers + Summarize(questions, answers).wrongAnswers == |questions|
  {
    CorrectCountIsPositions(answers);
    assert CorrectPositions(answers) == RightPositions(questions, answers) by {
      forall i: nat | i < |answers| ensures answers[i].isCorrect <==> answers[i].selectedAnswer == Some(questions[i].correctAnswer) {
        assert Records(answers[i], questions[i]);
      }
    }
  }

  /** Let the clock of the current question run out without selecting anything. */
  method RunOutClock(s: Session)
    requires s.Valid() && s.Active() && s.timeLeft == TimeLimit && s.selected == None
    modifies s
    ensures s.Valid() && s.Active() && s.timeLeft == 0 && s.selected == None
    ensures s.index == old(s.index) && s.answers == old(s.answers)
  {
    var k := 0;
    while k < TimeLimit
      invariant 0 <= k <= TimeLimit
      invariant s.Valid() && s.Active() && s.timeLeft == TimeLimit - k && s.selected == None
      invariant s.index == old(s.index) && s.answers == old(s.answers)
    {
      s.Tick();
      k := k + 1;
    }
  }

  /** An attempt in which nothing is ever selected: every question times out after its 60 ticks,
      the finish callback receives one Answer per question, each with no selection and not
      correct, and the score is zero. */
  method AllTimeouts(questions: seq<Question>) returns (answers: seq<Answer>)
    requires |questions| > 0
    ensures |answers| == |questions|
    ensures forall i :: 0 <= i < |answers| ==>
              answers[i].question == questions[i].question && answers[i].selectedAnswer == None && !answers[i].isCorrect
    ensures Summarize(questions, answers).score == 0
    ensures Summarize(questions, answers).wrongAnswers == |questions|
  {
    var s := new Session(questions);
    while s.Active()
      invariant s.Valid() && s.questions == questions
      invariant s.Active() ==> s.timeLeft == TimeLimit && s.selected == None
      invariant forall i :: 0 <= i < |s.answers| ==> s.answers[i].selectedAnswer == None
      decreases |questions| - |s.answers|
    {
      RunOutClock(s);
      s.Timeout();
    }
    answers := s.emitted.value;
    CorrectCountExtremes(answers);
  }

  /** An attempt in which the correct option is chosen and "Next" pressed on every question (each
      question offering its correct answer): the score is the question count and the percentage
      100. */
  method AllCorrect(questions: seq<Question>) returns (answers: seq<Answer>)
    requires |questions| > 0
    requires forall q :: q in questions ==> q.correctAnswer in q.options
    ensures |answers| == |questions|
    ensures forall i :: 0 <= i < |answers| ==> answers[i].isCorrect
    ensures Summarize(questions, answers).score == |questions|
    ensures Percentage(Summarize(questions, answers).score, |questions|) == Some(100.0)
  {
    var s := new Session(questions);
    while s.Active()
      invariant s.Valid() && s.questions == questions
      invariant s.Active() ==> s.selected == None
      invariant forall i :: 0 <= i < |s.answers| ==> s.answers[i].isCorrect
      decreases |questions| - |s.answers|
    {
      s.Select(questions[s.index].correctAnswer);
      s.Next();
    }
    answers := s.emitted.value;
    CorrectCountExtremes(answers);
  }
}
