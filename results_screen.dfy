/** The results screen (components/ResultsScreen.tsx): the tally of a finished attempt, the review
    line for each answer, and the update of the persisted last and best scores. */
module ResultsScreen {
  import opened QuizTypes

  // ---------------------------------------------------------------------------------------------
  // Scoring

  /** The number of answers marked correct (`filter(isCorrect).length`). */
  function CorrectCount(answers: seq<Answer>): (n: nat)
    ensures n <= |answers|
    decreases |answers|
  {
    if answers == [] then 0
    else CorrectCount(answers[..|answers| - 1]) + (if answers[|answers| - 1].isCorrect then 1 else 0)
  }

  /** The positions of the answers marked correct. */
  ghost function CorrectPositions(answers: seq<Answer>): set<nat>
  {
    set i: nat | i < |answers| && answers[i].isCorrect
  }

  /** The count is the number of positions holding a correct answer. */
  lemma {:induction false} CorrectCountIsPositions(answers: seq<Answer>)
    ensures CorrectCount(answers) == |CorrectPositions(answers)|
    decreases |answers|
  {
    if answers != [] {
      var n := |answers| - 1;
      var front := answers[..n];
      CorrectCountIsPositions(front);
      var last: set<nat> := if answers[n].isCorrect then {n} else {};
      assert CorrectPositions(answers) == CorrectPositions(front) + last;
      assert n !in CorrectPositions(front);
    }
  }

  /** No correct answer at all gives a count of zero; all correct gives the full length. */
  lemma {:induction false} CorrectCountExtremes(answers: seq<Answer>)
    ensures (forall i :: 0 <= i < |answers| ==> !answers[i].isCorrect) ==> CorrectCount(answers) == 0
    ensures (forall i :: 0 <= i < |answers| ==> answers[i].isCorrect) ==> CorrectCount(answers) == |answers|
    decreases |answers|
  {
    if answers != [] {
      CorrectCountExtremes(answers[..|answers| - 1]);
    }
  }

  datatype Summary = Summary(correctAnswers: nat, wrongAnswers: int, score: nat)

  /** The figures the results screen shows: `wrong` is the question count minus the correct count,
      so it is only meaningful when there is one answer per question. */
  function Summarize(questions: seq<Question>, userAnswers: seq<Answer>): (r: Summary)
    ensures r.correctAnswers <= |userAnswers|
    ensures r.score == r.correctAnswers
    ensures r.correctAnswers + r.wrongAnswers == |questions|
    ensures |userAnswers| <= |questions| ==> r.wrongAnswers >= 0
  {
    var correct := CorrectCount(userAnswers);
    Summary(correct, |questions| - correct, correct)
  }

  /** `(correct / questions.length) * 100` before formatting; None stands for the NaN that zero
      questions give. */
  function Percentage(correct: nat, total: nat): (p: Option<real>)
    ensures p.None? <==> total == 0
    ensures p.Some? && correct <= total ==> 0.0 <= p.value <= 100.0
    ensures p.Some? && correct == total ==> p.value == 100.0
  {
    if total == 0 then None
    else
      var ratio := (correct as real) / (total as real);
      assert correct <= total ==> ratio <= 1.0;
      Some(ratio * 100.0)
  }

  // ---------------------------------------------------------------------------------------------
  // Review of one answer

  const TimedOutText: string := "Timed out"

  /** What the review shows for one answer: the "Your answer" text and, when the answer was wrong,
      the correct answer. */
  datatype Review = Review(yourAnswer: string, correction: Option<string>)

  function ReviewOf(a: Answer): (r: Review)
    ensures a.selectedAnswer.Some? && a.selectedAnswer.value != "" ==> r.yourAnswer == a.selectedAnswer.value
    ensures a.selectedAnswer.None? || a.selectedAnswer == Some("") ==> r.yourAnswer == TimedOutText
    ensures r.correction.Some? <==> !a.isCorrect
    ensures r.correction.Some? ==> r.correction.value == a.correctAnswer
  {
    var shown := if a.selectedAnswer.Some? && a.selectedAnswer.value != "" then a.selectedAnswer.value else TimedOutText;
    Review(shown, if a.isCorrect then None else Some(a.correctAnswer))
  }

  // ---------------------------------------------------------------------------------------------
  // Persisted scores

  const LastScoreKey: string := "pythonQuizLastScore"
  const BestScoreKey: string := "pythonQuizBestScore"

  function Max(a: int, b: int): int
  {
    if a >= b then a else b
  }

  /** The store after a result is saved: the last score is overwritten; the best score is written
      only when there is none yet or the new score beats it, so it becomes the larger of the two;
      every other key is left alone. */
  function Saved(store: map<string, int>, score: int): (r: map<string, int>)
    ensures r.Keys == store.Keys + {LastScoreKey, BestScoreKey}
    ensures r[LastScoreKey] == score
    ensures r[BestScoreKey] == if BestScoreKey in store then Max(store[BestScoreKey], score) else score
    ensures forall k :: k in store && k != LastScoreKey && k != BestScoreKey ==> r[k] == store[k]
  {
    var written := store[LastScoreKey := score];
    if BestScoreKey !in written || score > written[BestScoreKey] then written[BestScoreKey := score]
    else written
  }

  /** The best score never goes down. */
  lemma BestNeverDecreases(store: map<string, int>, score: int)
    requires BestScoreKey in store
    ensures Saved(store, score)[BestScoreKey] >= store[BestScoreKey]
    ensures Saved(store, score)[BestScoreKey] >= score
  {
  }

  /** Saving the same score again changes nothing. */
  lemma SaveIdempotent(store: map<string, int>, score: int)
    ensures Saved(Saved(store, score), score) == Saved(store, score)
  {
  }

  /** The store after saving the results of several attempts, oldest first. */
  function SaveAll(store: map<string, int>, scores: seq<int>): map<string, int>
    decreases |scores|
  {
    if scores == [] then store else SaveAll(Saved(store, scores[0]), scores[1..])
  }

  function MaxOf(s: seq<int>): int
    requires |s| > 0
    decreases |s|
  {
    if |s| == 1 then s[0] else Max(s[0], MaxOf(s[1..]))
  }

  /** Across any run of attempts, the last score is that of the latest attempt and the best score
      is the largest of all scores and of the best stored before. */
  lemma {:induction false} SaveAllScores(store: map<string, int>, scores: seq<int>)
    requires |scores| > 0
    ensures LastScoreKey in SaveAll(store, scores) && BestScoreKey in SaveAll(store, scores)
    ensures SaveAll(store, scores)[LastScoreKey] == scores[|scores| - 1]
    ensures SaveAll(store, scores)[BestScoreKey] ==
              if BestScoreKey in store then Max(store[BestScoreKey], MaxOf(scores)) else MaxOf(scores)
    decreases |scores|
  {
    var next := Saved(store, scores[0]);
    if |scores| > 1 {
      SaveAllScores(next, scores[1..]);
      assert scores[1..][|scores| - 2] == scores[|scores| - 1];
    }
  }

  /** A first attempt scoring 30 and a second scoring 20 leave last = 20 and best = 30. */
  lemma TwoAttempts()
    ensures SaveAll(map[], [30, 20])[LastScoreKey] == 20
    ensures SaveAll(map[], [30, 20])[BestScoreKey] == 30
  {
    SaveAllScores(map[], [30, 20]);
  }

  /** The browser's local storage, restricted to what the results screen touches. */
  class ScoreStore {
    var entries: map<string, int>

    constructor (initial: map<string, int>)
      ensures entries == initial
    {
      entries := initial;
    }

    /** The save effect: write the last score, then read the best score and overwrite it when it
        is absent or smaller than the new score. */
    method SaveScore(score: nat)
      modifies this
      ensures entries == Saved(old(entries), score)
    {
      entries := entries[LastScoreKey := score];
      var best := if BestScoreKey in entries then Some(entries[BestScoreKey]) else None;
      if best.None? || score > best.value {
        entries := entries[BestScoreKey := score];
      }
    }
  }
}
