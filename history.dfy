/** Quiz results: building one at submission, keeping the history
    most-recent-first, and reading stored histories written by older versions
    of the application. */
module History {
  import opened QuizTypes
  import Scoring

  /** The record the submit handler builds from the finished session;
      `correctAnswers` is the count its loop computed. */
  function NewResult(id: int, date: string, correctAnswers: nat, questions: seq<Question>,
                     answers: seq<Option<string>>, config: QuizConfig): (r: QuizResult)
    requires correctAnswers <= |questions|
    ensures r.id == id && r.date == date
    ensures r.score == correctAnswers && r.totalQuestions == |questions|
    ensures r.percentage <= 100
    ensures r.percentage == Scoring.Percentage(correctAnswers, |questions|)
    ensures r.questions == questions && r.userAnswers == answers
    ensures r.difficulty == config.difficulty && r.questionType == config.questionType
    ensures r.topics == config.topics
  {
    Scoring.PercentageBounded(correctAnswers, |questions|);
    QuizResult(id, date, correctAnswers, |questions|, Scoring.Percentage(correctAnswers, |questions|),
               questions, answers, config.difficulty, config.questionType, config.topics)
  }

  /** The history after a submission: the new result first, then all older ones. */
  function Prepend(result: QuizResult, history: seq<QuizResult>): (h: seq<QuizResult>)
    ensures |h| == |history| + 1 && h[0] == result && h[1..] == history
  {
    [result] + history
  }

  function Reverse<T>(s: seq<T>): (r: seq<T>)
    ensures |r| == |s|
  {
    if s == [] then [] else Reverse(s[1..]) + [s[0]]
  }

  lemma {:induction false} ReverseAt<T>(s: seq<T>, k: nat)
    requires k < |s|
    ensures Reverse(s)[k] == s[|s| - 1 - k]
  {
    if k < |s| - 1 {
      ReverseAt(s[1..], k);
    }
  }

  /** The history after submitting `results` one after another. */
  function AfterSubmissions(history: seq<QuizResult>, results: seq<QuizResult>): seq<QuizResult>
    decreases |results|
  {
    if results == [] then history else AfterSubmissions(Prepend(results[0], history), results[1..])
  }

  /** Submitting results in sequence lists them latest first, ahead of
      everything that was there before. */
  lemma {:induction false} SubmissionsMostRecentFirst(history: seq<QuizResult>, results: seq<QuizResult>)
    ensures AfterSubmissions(history, results) == Reverse(results) + history
    ensures forall k :: 0 <= k < |results| ==>
      AfterSubmissions(history, results)[k] == results[|results| - 1 - k]
    decreases |results|
  {
    if results != [] {
      SubmissionsMostRecentFirst(Prepend(results[0], history), results[1..]);
      assert Reverse(results[1..]) + [results[0]] + history == Reverse(results[1..]) + ([results[0]] + history);
    }
    forall k | 0 <= k < |results| ensures (Reverse(results) + history)[k] == results[|results| - 1 - k] {
      ReverseAt(results, k);
    }
  }

  /** A result as it is found in storage: records written before question
      types existed have no `questionType`. */
  datatype StoredResult = StoredResult(
    id: int,
    date: string,
    score: nat,
    totalQuestions: nat,
    percentage: nat,
    questions: seq<Question>,
    userAnswers: seq<Option<string>>,
    difficulty: Difficulty,
    questionType: Option<QuestionType>,
    topics: seq<string>)

  /** The question type assumed for an old record. */
  function Backfill(d: Difficulty): (t: QuestionType)
    ensures t == KnowledgeBased <==> d == Easy
  {
    if d == Easy then KnowledgeBased else ScenarioBased
  }

  /** One stored record brought up to date: an existing question type is kept,
      a missing one is derived from the difficulty. */
  function MigrateRecord(s: StoredResult): (r: QuizResult)
    ensures s.questionType.Some? ==> r.questionType == s.questionType.value
    ensures s.questionType.None? ==> r.questionType == Backfill(s.difficulty)
    ensures r.id == s.id && r.date == s.date && r.score == s.score
    ensures r.totalQuestions == s.totalQuestions && r.percentage == s.percentage
    ensures r.questions == s.questions && r.userAnswers == s.userAnswers
    ensures r.difficulty == s.difficulty && r.topics == s.topics
  {
    var t := match s.questionType
      case Some(t) => t
      case None => Backfill(s.difficulty);
    QuizResult(s.id, s.date, s.score, s.totalQuestions, s.percentage, s.questions,
               s.userAnswers, s.difficulty, t, s.topics)
  }

  /** The migration applied to a loaded history, record by record. */
  function Migrate(stored: seq<StoredResult>): (h: seq<QuizResult>)
    ensures |h| == |stored|
    ensures forall i :: 0 <= i < |stored| ==> h[i] == MigrateRecord(stored[i])
  {
    seq(|stored|, i requires 0 <= i < |stored| => MigrateRecord(stored[i]))
  }

  /** A current record as written to storage. */
  function Serialize(r: QuizResult): StoredResult {
    StoredResult(r.id, r.date, r.score, r.totalQuestions, r.percentage, r.questions,
                 r.userAnswers, r.difficulty, Some(r.questionType), r.topics)
  }

  function SerializeAll(h: seq<QuizResult>): (s: seq<StoredResult>)
    ensures |s| == |h|
    ensures forall i :: 0 <= i < |h| ==> s[i] == Serialize(h[i])
  {
    seq(|h|, i requires 0 <= i < |h| => Serialize(h[i]))
  }

  /** A record as an older version wrote it, without its question type. */
  function Legacy(r: QuizResult): StoredResult {
    StoredResult(r.id, r.date, r.score, r.totalQuestions, r.percentage, r.questions,
                 r.userAnswers, r.difficulty, None, r.topics)
  }

  /** Writing a history and reading it back gives the same history. */
  lemma MigrateSerialized(h: seq<QuizResult>)
    ensures Migrate(SerializeAll(h)) == h
  {
    var back := Migrate(SerializeAll(h));
    forall i | 0 <= i < |h| ensures back[i] == h[i] {
      assert back[i] == MigrateRecord(Serialize(h[i]));
    }
  }

  /** An old record reads back with every field intact and the question type
      derived from its difficulty. */
  lemma MigrateLegacy(r: QuizResult)
    ensures MigrateRecord(Legacy(r)) == r.(questionType := Backfill(r.difficulty))
  {
  }

  /** Migrating a history that was already migrated and written back changes nothing. */
  lemma MigrateIdempotent(stored: seq<StoredResult>)
    ensures Migrate(SerializeAll(Migrate(stored))) == Migrate(stored)
  {
    MigrateSerialized(Migrate(stored));
  }

  /** The history read at start-up: no entry or an unreadable one gives an
      empty history, a readable one is migrated. */
  function LoadHistory(saved: Stored<seq<StoredResult>>): (h: seq<QuizResult>)
    ensures saved.Present? ==> h == Migrate(saved.value)
    ensures !saved.Present? ==> h == []
  {
    match saved
    case Present(v) => Migrate(v)
    case _ => []
  }
}
