/**
 * The quiz app's value types: a generated question, the result recorded for
 * one answered question, and the four screens of the application.
 * They carry no behaviour.
 */
module QuizTypes {

  /** A value that may be absent (a JavaScript `null` or `undefined`). */
  datatype Option<+T> = None | Some(value: T)

  /**
   * One multiple-choice question as the question service returns it.
   * Nothing checks its shape on receipt, so `options` may have any length
   * and `correctAnswerIndex` may be any integer.
   */
  datatype Question = Question(
    id: string,
    question: string,
    options: seq<string>,
    correctAnswerIndex: int)

  /**
   * The outcome of one confirmed answer. `questionIndex` is the position of
   * the question in the quiz, not its `id`.
   */
  datatype QuizResult = QuizResult(
    questionIndex: int,
    selectedOptionIndex: int,
    isCorrect: bool)

  /** Which screen the application shows. */
  datatype AppState = Home | Loading | Quiz | Results
}
