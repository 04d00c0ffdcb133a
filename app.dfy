/** The top-level controller (App.tsx): which screen is shown, the questions of the current
    attempt, the answers it produced, the colour theme, and the preparation of a new attempt. */
module App {
  import opened QuizTypes

  /** An attempt draws at most this many questions from the bank. */
  const SessionSize: nat := 50

  datatype Screen = Home | Active | Results
  datatype Theme = Light | Dark

  function Min(a: nat, b: nat): nat
  {
    if a <= b then a else b
  }

  /** The theme button flips between the two themes. */
  function Toggled(t: Theme): (r: Theme)
    ensures r != t
  {
    if t == Dark then Light else Dark
  }

  lemma ToggleTwice(t: Theme)
    ensures Toggled(Toggled(t)) == t
  {
  }

  // ---------------------------------------------------------------------------------------------
  // Shuffling and preparing an attempt

  /** Shuffling a copy of `s`: some rearrangement of the same elements; which one is left open. */
  method Shuffle<T(==)>(s: seq<T>) returns (r: seq<T>)
    ensures multiset(r) == multiset(s)
    ensures |r| == |s|
  {
    assert multiset(s) == multiset(s);
    r :| multiset(r) == multiset(s);
    assert |r| == |multiset(r)|;
  }

  /** `prepared` is `original` with only the order of its options changed. */
  ghost predicate Reshuffled(original: Question, prepared: Question)
  {
    && prepared.question == original.question
    && prepared.correctAnswer == original.correctAnswer
    && prepared.topic == original.topic
    && multiset(prepared.options) == multiset(original.options)
  }

  /** `picked` is a draw of min(50, |bank|) questions from the bank, no question more often than the
      bank holds it, and `session` is that draw with each question's options reshuffled. */
  ghost predicate Drawn(bank: seq<Question>, picked: seq<Question>, session: seq<Question>)
  {
    && |picked| == |session| == Min(SessionSize, |bank|)
    && multiset(picked) <= multiset(bank)
    && forall i :: 0 <= i < |session| ==> Reshuffled(picked[i], session[i])
  }

  ghost predicate PreparedFrom(bank: seq<Question>, session: seq<Question>)
  {
    exists picked :: Drawn(bank, picked, session)
  }

  /** The preparation done when an attempt starts: shuffle the bank, keep the first 50, and
      shuffle the options of each kept question. */
  method PrepareSession(bank: seq<Question>) returns (picked: seq<Question>, session: seq<Question>)
    ensures Drawn(bank, picked, session)
  {
    var shuffled := Shuffle(bank);
    var k := Min(SessionSize, |shuffled|);
    picked := shuffled[..k];
    assert shuffled == picked + shuffled[k..];
    assert multiset(shuffled) == multiset(picked) + multiset(shuffled[k..]);
    session := [];
    var i := 0;
    while i < |picked|
      invariant 0 <= i <= |picked|
      invariant |session| == i
      invariant forall j :: 0 <= j < i ==> Reshuffled(picked[j], session[j])
    {
      var options := Shuffle(picked[i].options);
      session := session + [picked[i].(options := options)];
      i := i + 1;
    }
  }

  predicate NoDuplicates<T(==)>(s: seq<T>)
  {
    forall i, j :: 0 <= i < j < |s| ==> s[i] != s[j]
  }

  /** A sequence has no duplicates exactly when no element occurs twice in its multiset. */
  lemma {:induction false} NoDuplicatesIffSingleCounts<T>(s: seq<T>)
    ensures NoDuplicates(s) <==> forall x :: multiset(s)[x] <= 1
    decreases |s|
  {
    if s != [] {
      var rest := s[1..];
      assert s == [s[0]] + rest;
      NoDuplicatesIffSingleCounts(rest);
      if NoDuplicates(s) {
        assert NoDuplicates(rest) by {
          forall i, j | 0 <= i < j < |rest| ensures rest[i] != rest[j] {
            assert rest[i] == s[i + 1] && rest[j] == s[j + 1];
          }
        }
        assert s[0] !in rest by {
          forall j | 0 <= j < |rest| ensures rest[j] != s[0] {
            assert rest[j] == s[j + 1];
          }
        }
        forall x ensures multiset(s)[x] <= 1 {
          assert multiset(s)[x] == multiset([s[0]])[x] + multiset(rest)[x];
        }
      } else {
        var i, j :| 0 <= i < j < |s| && s[i] == s[j];
        var x := s[i];
        assert s == s[..j] + s[j..];
        assert multiset(s) == multiset(s[..j]) + multiset(s[j..]);
        assert s[..j][i] == x && s[j..][0] == x;
        assert multiset(s[..j])[x] >= 1 && multiset(s[j..])[x] >= 1;
        assert multiset(s)[x] >= 2;
      }
    }
  }

  /** Drawing without replacement: when the bank lists every question once, no bank entry is drawn
      twice. (The prepared questions may still coincide: two bank entries that differ only in the
      order of their options can come out equal; see `DistinctTextsCarryOver`.) */
  lemma DrawnWithoutReplacement(bank: seq<Question>, picked: seq<Question>, session: seq<Question>)
    requires Drawn(bank, picked, session)
    requires NoDuplicates(bank)
    ensures NoDuplicates(picked)
  {
    NoDuplicatesIffSingleCounts(bank);
    NoDuplicatesIffSingleCounts(picked);
    forall x ensures multiset(picked)[x] <= 1 {
      assert multiset(picked)[x] <= multiset(bank)[x];
    }
  }

  /** No two questions share their text. */
  predicate DistinctTexts(s: seq<Question>)
  {
    forall i, j :: 0 <= i < j < |s| ==> s[i].question != s[j].question
  }

  /** When no two bank questions share their text, neither do two questions of the attempt, so the
      prepared attempt holds no question twice. */
  lemma DistinctTextsCarryOver(bank: seq<Question>, picked: seq<Question>, session: seq<Question>)
    requires Drawn(bank, picked, session)
    requires DistinctTexts(bank)
    ensures DistinctTexts(session)
    ensures NoDuplicates(session)
  {
    assert NoDuplicates(bank);
    DrawnWithoutReplacement(bank, picked, session);
    DrawnKeepsQuestions(bank, picked, session);
    forall i, j | 0 <= i < j < |session| ensures session[i].question != session[j].question {
      var k :| 0 <= k < |bank| && bank[k] == picked[i];
      var l :| 0 <= l < |bank| && bank[l] == picked[j];
      assert k != l;
    }
  }

  /** Every prepared question comes from the bank, and when each bank question offers its correct
      answer among its options, so does each prepared question. */
  lemma DrawnKeepsQuestions(bank: seq<Question>, picked: seq<Question>, session: seq<Question>)
    requires Drawn(bank, picked, session)
    ensures forall i :: 0 <= i < |picked| ==> picked[i] in bank
    ensures (forall q :: q in bank ==> q.correctAnswer in q.options) ==>
              forall p :: p in session ==> p.correctAnswer in p.options
  {
    forall i | 0 <= i < |picked| ensures picked[i] in bank {
      assert picked[i] in multiset(picked);
    }
    if forall q :: q in bank ==> q.correctAnswer in q.options {
      forall p | p in session ensures p.correctAnswer in p.options {
        var i :| 0 <= i < |session| && session[i] == p;
        assert picked[i] in multiset(picked);
        assert picked[i].correctAnswer in multiset(picked[i].options);
      }
    }
  }

  // ---------------------------------------------------------------------------------------------
  // The controller

  class Controller {
    var quizState: Screen
    var questions: seq<Question>
    var userAnswers: seq<Answer>
    var theme: Theme

    constructor ()
      ensures quizState == Home && questions == [] && userAnswers == [] && theme == Dark
    {
      quizState := Home;
      questions := [];
      userAnswers := [];
      theme := Dark;
    }

    method ToggleTheme()
      modifies this
      ensures theme == Toggled(old(theme))
      ensures quizState == old(quizState) && questions == old(questions) && userAnswers == old(userAnswers)
    {
      theme := if theme == Dark then Light else Dark;
    }

    /** Starting an attempt: prepared questions from the bank, no answers yet, the quiz screen shown. */
    method StartQuiz(bank: seq<Question>)
      modifies this
      ensures PreparedFrom(bank, questions) && |questions| == Min(SessionSize, |bank|)
      ensures userAnswers == [] && quizState == Active && theme == old(theme)
    {
      var picked, session := PrepareSession(bank);
      questions := session;
      userAnswers := [];
      quizState := Active;
    }

    /** The quiz screen's finish callback: keep the answers and show the results. */
    method HandleQuizFinish(answers: seq<Answer>)
      modifies this
      ensures userAnswers == answers && quizState == Results
      ensures questions == old(questions) && theme == old(theme)
    {
      userAnswers := answers;
      quizState := Results;
    }

    /** Back to the home screen; the last attempt's questions and answers stay where they are. */
    method RestartQuiz()
      modifies this
      ensures quizState == Home
      ensures questions == old(questions) && userAnswers == old(userAnswers) && theme == old(theme)
    {
      quizState := Home;
    }
  }
}
