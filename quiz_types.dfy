/** The records the quiz passes between its screens (types.ts). */
module QuizTypes {

  /** `string | null`: None stands for the source's null. */
  datatype Option<+T> = None | Some(value: T)

  /** A question of the bank; `correctAnswer` is meant to be one of `options`. */
  datatype Question = Question(question: string, options: seq<string>, correctAnswer: string, topic: string)

  /** What the quiz records for one question; `selectedAnswer` is None when the timer ran out
      before anything was chosen. */
  datatype Answer = Answer(question: string, selectedAnswer: Option<string>, correctAnswer: string, isCorrect: bool)
}
