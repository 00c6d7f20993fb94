/** The records shared by every part of the quiz application: questions,
    their options, stored results and knowledge-base topics. */
module QuizTypes {

  datatype Option<T> = None | Some(value: T)

  /** A thrown value: an `Error` object carries a message; anything else is
      reported with a fixed message. */
  datatype Thrown = Error(message: string) | NonError

  /** What a read from the browser's key-value storage produced: no entry,
      an entry whose reading threw inside the loader's `try`, or a value of
      the expected shape. */
  datatype Stored<T> = Missing | Unreadable | Present(value: T)

  /** The outcome of an operation that may throw. */
  datatype Result<T> = Ok(value: T) | Err(error: Thrown)

  datatype Difficulty = Easy | Hard

  datatype QuestionType = KnowledgeBased | ScenarioBased

  datatype QuestionOption = QuestionOption(text: string, isCorrect: bool)

  datatype Question = Question(
    id: int,
    questionText: string,
    options: seq<QuestionOption>,
    difficulty: Difficulty)

  /** One submitted quiz. `userAnswers` holds `None` for a question that was
      never answered (the source's `null`). */
  datatype QuizResult = QuizResult(
    id: int,
    date: string,
    score: nat,
    totalQuestions: nat,
    percentage: nat,
    questions: seq<Question>,
    userAnswers: seq<Option<string>>,
    difficulty: Difficulty,
    questionType: QuestionType,
    topics: seq<string>)

  /** A knowledge-base entry; an absent `isCustom` flag is `false`. */
  datatype KnowledgeTopic = KnowledgeTopic(topic: string, content: string, isCustom: bool)

  /** The parameters a quiz session was started with. */
  datatype QuizConfig = QuizConfig(difficulty: Difficulty, questionType: QuestionType, topics: seq<string>)

  const UnknownErrorMessage := "An unknown error occurred."

  /** The message shown for a caught value: its own message when it is an
      `Error`, a fixed text otherwise. */
  function MessageOf(e: Thrown): (m: string)
    ensures e.Error? ==> m == e.message
    ensures e.NonError? ==> m == UnknownErrorMessage
  {
    match e
    case Error(msg) => msg
    case NonError => UnknownErrorMessage
  }
}
