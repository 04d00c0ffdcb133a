# Python Quiz Master — session logic in Dafny

A model of the quiz logic of a React quiz application. An attempt draws at most 50 questions from a
static bank and shuffles each question's options. It then shows the questions one at a time, each with a
60-second countdown. A question accepts a single selection. It advances on "Next", which needs a
selection, or on timeout, and each advance records exactly one answer. The attempt ends with a tally
and an update of the persisted last and best scores.

Modules, one per source file:

- `QuizTypes` (`quiz_types.dfy`): the `Question` and `Answer` records. The source's `string | null`
  becomes `Option<string>`.
- `QuizScreen` (`quiz_screen.dfy`): the countdown step and its iteration, and the answer record. It
  holds the `Session` class, whose fields `index`, `selected`, `answers` and `timeLeft` are the
  screen's four pieces of state, and its `emitted` field is what the finish callback received. The
  class has `Enter`, `Tick`, `Select`, `Advance`, `Next` and `Timeout` methods under a `Valid()`
  invariant: the index stays in range, one answer is recorded per question passed, every answer
  records its question, and the clock stays in 0..60. The module also holds the `m:ss` clock text,
  with a parser that reads it back.
- `ResultsScreen` (`results_screen.dfy`): the correct/wrong/score tally and the percentage before
  formatting. It also holds the review line of an answer, the pure rule `Saved` for the last/best
  score update, and the `ScoreStore` class whose `SaveScore` method performs that update on a
  two-key store.
- `App` (`app.dfy`): the shuffle as an arbitrary permutation and the preparation of an attempt. It
  holds the `Controller` class for the `home | active | results` screen state and the theme.
- `QuizFlow` (`quiz_flow.dfy`): whole attempts. It has the tally of a finished answer list, and
  two client methods that drive a `Session` through every question: one where every question times
  out, and one where every answer is correct.

In three places the model keeps behaviour a reader might not expect:

- `restartQuiz` only changes the screen. The last attempt's questions and answers stay in the
  controller rather than being discarded.
- The draw is without replacement only in the sense of a sub-multiset of the bank. A question
  listed twice in the bank can appear twice in an attempt. `App.DrawnWithoutReplacement` proves
  that no bank entry is drawn twice when the bank has no repeats. `App.DistinctTextsCarryOver`
  proves that the prepared attempt holds no question twice when no two bank questions share their
  text. Two bank entries that differ only in option order can come out equal after preparation.
- A stored best score that is not a number, other than the empty string, is not treated as
  absent: `JSON.parse` would throw, or the comparison would go wrong. A stored empty string counts
  as absent, since `!bestScore` holds for it, and is overwritten. The model stores integers only.

## Model

| member | source | states |
|---|---|---|
| `QuizScreen.NextTime` | components/QuizScreen.tsx:31-39 | a tick lowers the clock by one and gives 0 when it was at most 1, so the clock is never negative |
| `QuizScreen.Countdown` | components/QuizScreen.tsx:30-41 | repeated ticks from a non-negative clock stay within 0..t, and after at least t ticks the clock shows 0 |
| `QuizScreen.CountdownClamps` | components/QuizScreen.tsx:30-41 | n ticks from t leave t - n, or 0 once n passes t; the clock stays within 0..t, so a fresh question reaches 0 after exactly 60 ticks |
| `QuizScreen.MakeAnswer` | components/QuizScreen.tsx:54-60 | the answer built on an advance (the same construction as lines 80-86) copies the question text and correct answer, keeps the selection, and is correct exactly when the selection equals the correct answer, never when there is none |
| `QuizScreen.Session.constructor` | components/QuizScreen.tsx:10-13 | a new screen starts at question 0 with no answers, no selection and 60 seconds |
| `QuizScreen.Session.Enter` | components/QuizScreen.tsx:19-22 | entering a question resets the clock to 60 and clears the selection, leaving index and answers alone |
| `QuizScreen.Session.Tick` | components/QuizScreen.tsx:30-41 | a tick applies the countdown step and changes nothing else; the invariant keeps the clock in 0..60 |
| `QuizScreen.Session.Select` | components/QuizScreen.tsx:101-105 | a selection takes effect only while none is made; a second one leaves the state unchanged |
| `QuizScreen.Session.Advance` | components/QuizScreen.tsx:62-69 | appends exactly one answer for the current question, then enters the next question (index + 1, clock 60, no selection) or, on the last question, emits the full answer list |
| `QuizScreen.Session.Next` | components/QuizScreen.tsx:74-98 | with a selection, an advance after which the selection is cleared; without one (the button is disabled, line 167) nothing changes |
| `QuizScreen.Session.Timeout` | components/QuizScreen.tsx:52-72 | when the clock shows 0, an advance recording the current selection or none; otherwise nothing changes |
| `QuizScreen.DecimalString` | components/QuizScreen.tsx:117 | `toString` of a non-negative integer: at least one digit, only digits, no leading zero for a positive number, one digit below 10 and at most two below 100 |
| `QuizScreen.PadTwo` | components/QuizScreen.tsx:117 | `padStart(2, '0')`: the text is kept at its end, preceded by zeros up to length two, and a text of two or more characters is unchanged |
| `QuizScreen.TimerText` | components/QuizScreen.tsx:117 | the clock text ends in ':' followed by two digits whose value is the seconds below 60, and everything before the ':' is the decimal minutes |
| `QuizScreen.TimerTextRoundTrip` | components/QuizScreen.tsx:117 | the `m:ss` text (minutes, colon, seconds padded to two digits) reads back to the seconds it came from, so distinct times show distinct texts |
| `QuizScreen.TimerTextExamples` | components/QuizScreen.tsx:117 | 60 seconds shows as "1:00" and 9 seconds as "0:09"; "0:60" is not a clock text, since seconds never reach 60 |
| `ResultsScreen.CorrectCount` | components/ResultsScreen.tsx:53 | the number of correct answers never exceeds the number of answers |
| `ResultsScreen.CorrectCountIsPositions` | components/ResultsScreen.tsx:53 | the count equals the number of positions whose answer is marked correct |
| `ResultsScreen.CorrectCountExtremes` | components/ResultsScreen.tsx:53 | no correct answer gives 0, all correct gives the number of answers |
| `ResultsScreen.Summarize` | components/ResultsScreen.tsx:52-62 | score equals correct, correct + wrong equals the question count, correct is at most the answer count, and wrong is non-negative when there are no more answers than questions |
| `ResultsScreen.Percentage` | components/ResultsScreen.tsx:55 | undefined (NaN) exactly when there are no questions; otherwise within 0..100, and 100 when every question is correct |
| `ResultsScreen.ReviewOf` | components/ResultsScreen.tsx:30-41 | the review shows the selected answer, or "Timed out" when it is absent or empty, and shows the correct answer exactly when the answer is wrong |
| `ResultsScreen.Saved` | components/ResultsScreen.tsx:65-71 | after saving, last equals the score, best is the larger of the stored best and the score (the score when none was stored), and other keys keep their values |
| `ResultsScreen.BestNeverDecreases` | components/ResultsScreen.tsx:67-70 | the saved best is at least the previous best and at least the new score |
| `ResultsScreen.SaveIdempotent` | components/ResultsScreen.tsx:65-71 | saving the same score twice leaves the store as saving it once |
| `ResultsScreen.SaveAllScores` | components/ResultsScreen.tsx:65-71 | over any series of attempts, last is the latest score and best is the maximum of all scores and the best stored before |
| `ResultsScreen.TwoAttempts` | components/ResultsScreen.tsx:65-71 | scores 30 then 20 leave last = 20 and best = 30 |
| `ResultsScreen.ScoreStore.constructor` | components/ResultsScreen.tsx:66-67 | the store starts with whatever entries the browser held before the results screen reads and writes it |
| `ResultsScreen.ScoreStore.SaveScore` | components/ResultsScreen.tsx:65-71 | the save effect turns the store into `Saved` of the old store and the score |
| `App.Toggled` | App.tsx:30-32 | the theme button always changes the theme |
| `App.ToggleTwice` | App.tsx:30-32 | toggling twice restores the theme |
| `App.Shuffle` | App.tsx:13-15 | the shuffle returns a sequence with the same length and the same multiset of elements; the input is a value and is not changed |
| `App.PrepareSession` | App.tsx:34-43 | an attempt has min(50, bank size) questions drawn as a sub-multiset of the bank, and each keeps text, correct answer and topic, with its options permuted |
| `App.DrawnWithoutReplacement` | App.tsx:36-37 | if the bank has no repeated entry, no bank entry is drawn twice (the draw before options are shuffled) |
| `App.DistinctTextsCarryOver` | App.tsx:36-43 | if no two bank questions share their text, neither do two prepared questions of the attempt, so the attempt holds no question twice |
| `App.DrawnKeepsQuestions` | App.tsx:40-43 | every drawn question is in the bank, and when every bank question offers its correct answer, so does every prepared question |
| `App.Controller.constructor` | App.tsx:18-21 | the app starts on the home screen with no questions, no answers and the dark theme |
| `App.Controller.ToggleTheme` | App.tsx:30-32 | the theme flips and nothing else changes |
| `App.Controller.StartQuiz` | App.tsx:34-48 | the controller holds a prepared attempt of min(50, bank size) questions, no answers, and shows the quiz screen |
| `App.Controller.HandleQuizFinish` | App.tsx:50-53 | the given answers are stored and the results screen is shown |
| `App.Controller.RestartQuiz` | App.tsx:55-57 | the home screen is shown and nothing else changes |
| `QuizFlow.FinishedTally` | components/ResultsScreen.tsx:53-54 | for a finished attempt, the score is the number of questions whose selection was the correct answer, and correct + wrong is the question count with wrong non-negative |
| `QuizFlow.RunOutClock` | components/QuizScreen.tsx:30-41 | 60 ticks on a fresh question bring the clock to 0 without touching index, selection or answers |
| `QuizFlow.AllTimeouts` | components/QuizScreen.tsx:52-72 | when nothing is ever selected, the emitted list has one answer per question, in order, each with no selection and not correct, and the score is 0 |
| `QuizFlow.AllCorrect` | components/QuizScreen.tsx:74-98 | when the correct option is chosen and Next pressed every time, every answer is correct, the score is the question count and the percentage is 100 |

## Left out

- Rendering and styling are not modelled: the JSX, the CSS classes, the progress-bar width
  (components/QuizScreen.tsx:107, 127), the red colour when at most 10 seconds remain, and the
  expand/collapse state of a review item.
- `ResultsScreen.Percentage`: it gives the exact rational value times 100. It does not model
  floating-point division or the `toFixed(1)` formatting.
- The share button (clipboard text and `alert`) is I/O and is not modelled.
- `App.Shuffle`: it promises only "some permutation". The source's comparator shuffle over
  `Math.random` cannot be modelled, and it is not uniform.
- Timer scheduling is not modelled: `setInterval`, `clearInterval` and the order in which React runs
  effects. Ticks and the timeout are explicit events. After a timeout moves to the next question,
  the auto-advance effect may run again while the clock still shows 0, before the reset effect's
  update lands. That re-run happens in the render where the index is already the next question's,
  so the current question is the next one. The selection is still the previous question's, because
  the timeout path never clears it and the reset has not landed yet. The effect records that stale
  selection, or none, as the next question's answer and advances the index again, so that question
  can never be answered. The model captures the intended rule instead: one advance per timeout,
  with the clock reset and the selection cleared at once.
- `QuizScreen.Session.Select` requires the option to be one of the current question's options,
  because only that question's option buttons call it.
- `QuizScreen.Session.constructor` requires at least one question. The source reads
  `questions[0]` as soon as the screen renders, so an empty bank fails there instead of reaching
  the results screen.
- Events after the attempt has finished change nothing in the model. In the source the screen is
  unmounted by then.
- Persistence is an in-memory map of integers. `localStorage`, JSON encoding and decoding, and
  stored values that are not numbers are not modelled.
- The theme's effect on the document root (App.tsx:23-28) is presentation.
- components/HomeScreen.tsx only displays the two stored scores. It is not part of this model.
- The question bank `constants/questions` is not part of this model. It is an input sequence of
  questions.
