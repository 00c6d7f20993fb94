/** The quiz session controller: the application state and the handlers
    that move it between the start screen, a quiz in progress, the score
    screen, the history list and the review of a past result. Browser storage
    is modelled by two fields holding what each storage key currently
    contains; the generation service's reply and the clock are parameters. */
module Session {
  import opened QuizTypes
  import Scoring
  import History
  import Knowledge
  import Generator

  datatype QuizState = NotStarted | InProgress | Completed | ViewingHistory | Reviewing

  const SelectTopicMessage := "Please select at least one topic to start the quiz."
  const NoQuestionsMessage := "AI failed to generate questions. Please try again."
  const StartFailedPrefix := "Failed to start. "

  /** One `null` answer per question. */
  function Unanswered(n: nat): (r: seq<Option<string>>)
    ensures |r| == n && forall i :: 0 <= i < n ==> r[i].None?
  {
    seq(n, _ => None)
  }

  /** What the start flow ends with: the new question set, or what it threw.
      An empty topic list is refused before generation, and an empty batch
      after it. */
  function StartFlow(kb: seq<KnowledgeTopic>, questionType: QuestionType, difficulty: Difficulty,
                     numQuestions: int, selectedTopics: seq<string>, previous: seq<Question>,
                     reply: Generator.ProviderReply, now: int): (r: Result<seq<Question>>)
    ensures |selectedTopics| == 0 ==> r == Err(Error(SelectTopicMessage))
    ensures r.Ok? ==> |r.value| > 0
  {
    if |selectedTopics| == 0 then Err(Error(SelectTopicMessage))
    else match Generator.Generate(kb, questionType, difficulty, numQuestions, selectedTopics, previous, reply, now)
      case Err(e) => Err(e)
      case Ok(qs) => if |qs| == 0 then Err(Error(NoQuestionsMessage)) else Ok(qs)
  }

  /** The start flow succeeds exactly when topics were selected, at least one
      of them resolves, and the reply holds a non-empty `questions` array;
      the new questions are then that array, stamped. An empty array is
      refused with its own message. */
  lemma StartFlowOutcome(kb: seq<KnowledgeTopic>, questionType: QuestionType, difficulty: Difficulty,
                         numQuestions: int, selectedTopics: seq<string>, previous: seq<Question>,
                         reply: Generator.ProviderReply, now: int)
    ensures var r := StartFlow(kb, questionType, difficulty, numQuestions, selectedTopics, previous, reply, now);
      && (r.Ok? <==> |selectedTopics| > 0
                     && (exists i :: 0 <= i < |kb| && kb[i].topic in selectedTopics)
                     && reply.Parsed? && reply.questions.Some? && |reply.questions.value| > 0)
      && (r.Ok? ==> r.value == Generator.Stamp(reply.questions.value, now, difficulty))
      && ((&& |selectedTopics| > 0
           && (exists i :: 0 <= i < |kb| && kb[i].topic in selectedTopics)
           && reply == Generator.Parsed(Some([]))) ==> r == Err(Error(NoQuestionsMessage)))
  {
    Generator.GenerateOutcome(kb, questionType, difficulty, numQuestions, selectedTopics, previous, reply, now);
  }

  /** The request the start flow sends, if it gets as far as the call. */
  function FlowRequest(kb: seq<KnowledgeTopic>, questionType: QuestionType, difficulty: Difficulty,
                       numQuestions: int, selectedTopics: seq<string>, previous: seq<Question>)
    : (r: Option<Generator.GenerationRequest>)
    ensures r.Some? ==> |selectedTopics| > 0
    ensures r.Some? <==> |selectedTopics| > 0 && exists i :: 0 <= i < |kb| && kb[i].topic in selectedTopics
  {
    if |selectedTopics| == 0 then None
    else Generator.BuildRequest(kb, questionType, difficulty, numQuestions, selectedTopics, previous)
  }

  /** The log of requests after the flow runs once. */
  ghost function Logged(log: seq<Generator.GenerationRequest>, sent: Option<Generator.GenerationRequest>)
    : seq<Generator.GenerationRequest>
  {
    match sent
    case Some(q) => log + [q]
    case None => log
  }

  class App {
    var quizState: QuizState
    var questions: seq<Question>
    var userAnswers: seq<Option<string>>
    var score: nat
    var isLoading: bool
    var error: Option<string>
    var currentQuizConfig: Option<QuizConfig>
    var quizHistory: seq<QuizResult>
    var quizToReview: Option<QuizResult>
    var knowledgeBase: seq<KnowledgeTopic>
    /** The built-in topics the knowledge base starts from. */
    const builtins: seq<KnowledgeTopic>
    /** The contents of the history storage key. */
    var savedHistory: Stored<seq<History.StoredResult>>
    /** The contents of the custom-topics storage key. */
    var savedCustomTopics: Stored<seq<KnowledgeTopic>>
    /** Every request sent to the generation service, oldest first. */
    ghost var sentRequests: seq<Generator.GenerationRequest>

    ghost predicate Valid()
      reads this
    {
      && |userAnswers| == |questions|
      && (quizState == InProgress ==> |questions| > 0)
      && (quizState == Reviewing ==> quizToReview.Some?)
    }

    /** The initial state followed by the start-up load: the history is read
      and migrated, the stored custom topics are appended to the built-ins
      (an unreadable entry leaves the built-ins alone). */
    constructor (builtins: seq<KnowledgeTopic>, storedHistory: Stored<seq<History.StoredResult>>,
                 storedCustomTopics: Stored<seq<KnowledgeTopic>>)
      ensures Valid()
      ensures quizState == NotStarted && questions == [] && userAnswers == [] && score == 0
      ensures !isLoading && error == None && currentQuizConfig == None && quizToReview == None
      ensures quizHistory == History.LoadHistory(storedHistory)
      ensures storedCustomTopics.Present? ==> knowledgeBase == builtins + storedCustomTopics.value
      ensures !storedCustomTopics.Present? ==> knowledgeBase == builtins
      ensures this.builtins == builtins
      ensures savedHistory == storedHistory && savedCustomTopics == storedCustomTopics
      ensures sentRequests == []
    {
      quizState := NotStarted;
      questions := [];
      userAnswers := [];
      score := 0;
      isLoading := false;
      error := None;
      currentQuizConfig := None;
      quizToReview := None;
      this.builtins := builtins;
      quizHistory := History.LoadHistory(storedHistory);
      knowledgeBase := match storedCustomTopics
        case Present(custom) => builtins + custom
        case _ => builtins;
      savedHistory := storedHistory;
      savedCustomTopics := storedCustomTopics;
      sentRequests := [];
    }

    /** The shared start flow; it does not catch: a failure is returned and
      leaves the quiz fields as they were. */
    method StartQuizFlow(questionType: QuestionType, difficulty: Difficulty, numQuestions: int,
                         selectedTopics: seq<string>, previous: seq<Question>,
                         reply: Generator.ProviderReply, now: int)
      returns (failure: Option<Thrown>)
      requires Valid()
      modifies this`questions, this`userAnswers, this`score, this`quizState, this`sentRequests
      ensures Valid()
      ensures var r := StartFlow(knowledgeBase, questionType, difficulty, numQuestions, selectedTopics, previous, reply, now);
        && (r.Ok? ==> failure == None && questions == r.value && userAnswers == Unanswered(|r.value|)
                      && score == 0 && quizState == InProgress)
        && (r.Err? ==> failure == Some(r.error) && questions == old(questions)
                       && userAnswers == old(userAnswers) && score == old(score) && quizState == old(quizState))
      ensures sentRequests ==
        Logged(old(sentRequests), FlowRequest(knowledgeBase, questionType, difficulty, numQuestions, selectedTopics, previous))
    {
      sentRequests := Logged(sentRequests, FlowRequest(knowledgeBase, questionType, difficulty, numQuestions, selectedTopics, previous));
      var outcome := StartFlow(knowledgeBase, questionType, difficulty, numQuestions, selectedTopics, previous, reply, now);
      match outcome
      case Err(e) =>
        failure := Some(e);
      case Ok(generated) =>
        questions := generated;
        userAnswers := Unanswered(|generated|);
        score := 0;
        quizState := InProgress;
        failure := None;
    }

    /** Start from the start screen: the configuration is recorded even when
      the flow fails; a failure becomes the error message and the start
      screen; the loading flag is off afterwards in both cases. */
    method Start(questionType: QuestionType, difficulty: Difficulty, numQuestions: int,
                 selectedTopics: seq<string>, reply: Generator.ProviderReply, now: int)
      requires Valid()
      modifies this`isLoading, this`error, this`currentQuizConfig
      modifies this`questions, this`userAnswers, this`score, this`quizState, this`sentRequests
      ensures Valid()
      ensures !isLoading
      ensures currentQuizConfig == Some(QuizConfig(difficulty, questionType, selectedTopics))
      ensures var r := StartFlow(knowledgeBase, questionType, difficulty, numQuestions, selectedTopics, [], reply, now);
        && (r.Ok? ==> error == None && questions == r.value && userAnswers == Unanswered(|r.value|)
                      && score == 0 && quizState == InProgress)
        && (r.Err? ==> error == Some(StartFailedPrefix + MessageOf(r.error)) && quizState == NotStarted
                       && questions == old(questions) && userAnswers == old(userAnswers) && score == old(score))
      ensures sentRequests ==
        Logged(old(sentRequests), FlowRequest(knowledgeBase, questionType, difficulty, numQuestions, selectedTopics, []))
    {
      isLoading := true;
      error := None;
      currentQuizConfig := Some(QuizConfig(difficulty, questionType, selectedTopics));
      var failure := StartQuizFlow(questionType, difficulty, numQuestions, selectedTopics, [], reply, now);
      if failure.Some? {
        error := Some(StartFailedPrefix + MessageOf(failure.value));
        quizState := NotStarted;
      }
      isLoading := false;
    }

    /** Record `answer` for question `questionIndex`; no other slot changes. */
    method AnswerSelect(questionIndex: nat, answer: string)
      requires Valid()
      requires questionIndex < |userAnswers|
      modifies this`userAnswers
      ensures Valid()
      ensures |userAnswers| == |old(userAnswers)| && userAnswers[questionIndex] == Some(answer)
      ensures forall i :: 0 <= i < |userAnswers| && i != questionIndex ==> userAnswers[i] == old(userAnswers)[i]
    {
      userAnswers := userAnswers[questionIndex := Some(answer)];
    }

    /** Score the answers; with a configuration present, put the new result at
      the front of the history and write the history to storage. */
    method SubmitQuiz(now: int, date: string)
      requires Valid()
      modifies this`score, this`quizHistory, this`savedHistory, this`quizState
      ensures Valid()
      ensures score == Scoring.Score(questions, userAnswers)
      ensures currentQuizConfig.Some? ==>
        && quizHistory == History.Prepend(
             History.NewResult(now, date, score, questions, userAnswers, currentQuizConfig.value), old(quizHistory))
        && savedHistory == Present(History.SerializeAll(quizHistory))
      ensures currentQuizConfig.None? ==> quizHistory == old(quizHistory) && savedHistory == old(savedHistory)
      ensures quizState == Completed
    {
      var correctAnswers := Scoring.CountCorrectAnswers(questions, userAnswers);
      score := correctAnswers;
      if currentQuizConfig.Some? {
        var newResult := History.NewResult(now, date, correctAnswers, questions, userAnswers, currentQuizConfig.value);
        quizHistory := History.Prepend(newResult, quizHistory);
        savedHistory := Present(History.SerializeAll(quizHistory));
      }
      quizState := Completed;
    }

    /** Back to a blank start screen. The new values do not depend on the
      old ones, so restarting twice is restarting once. */
    method Restart()
      modifies this`quizState, this`questions, this`userAnswers, this`score, this`error, this`currentQuizConfig
      ensures Valid()
      ensures quizState == NotStarted && questions == [] && userAnswers == [] && score == 0
      ensures error == None && currentQuizConfig == None
    {
      quizState := NotStarted;
      questions := [];
      userAnswers := [];
      score := 0;
      error := None;
      currentQuizConfig := None;
    }

    /** A new quiz with the same configuration and as many questions,
      told to avoid the current ones; without a configuration or questions,
      a restart. A failure of the flow is not caught here: it is returned and
      the session stays as it was. */
    method Regenerate(reply: Generator.ProviderReply, now: int) returns (unhandled: Option<Thrown>)
      requires Valid()
      modifies this`questions, this`userAnswers, this`score, this`quizState, this`sentRequests
      modifies this`error, this`currentQuizConfig
      ensures Valid()
      ensures old(currentQuizConfig).Some? && |old(questions)| > 0 ==>
        var c := old(currentQuizConfig).value;
        var r := StartFlow(knowledgeBase, c.questionType, c.difficulty, |old(questions)|, c.topics, old(questions), reply, now);
        && currentQuizConfig == old(currentQuizConfig) && error == old(error)
        && sentRequests == Logged(old(sentRequests),
             FlowRequest(knowledgeBase, c.questionType, c.difficulty, |old(questions)|, c.topics, old(questions)))
        && (r.Ok? ==> unhandled == None && questions == r.value && userAnswers == Unanswered(|r.value|)
                      && score == 0 && quizState == InProgress)
        && (r.Err? ==> unhandled == Some(r.error) && questions == old(questions)
                       && userAnswers == old(userAnswers) && score == old(score) && quizState == old(quizState))
      ensures !(old(currentQuizConfig).Some? && |old(questions)| > 0) ==>
        && unhandled == None && sentRequests == old(sentRequests)
        && quizState == NotStarted && questions == [] && userAnswers == [] && score == 0
        && error == None && currentQuizConfig == None
    {
      if currentQuizConfig.Some? && |questions| > 0 {
        var c := currentQuizConfig.value;
        unhandled := StartQuizFlow(c.questionType, c.difficulty, |questions|, c.topics, questions, reply, now);
      } else {
        Restart();
        unhandled := None;
      }
    }

    method ViewHistory()
      requires Valid()
      modifies this`quizState
      ensures Valid() && quizState == ViewingHistory
    {
      quizState := ViewingHistory;
    }

    /** Show a past result; the history itself is not touched. */
    method ReviewQuiz(quiz: QuizResult)
      requires Valid()
      modifies this`quizToReview, this`quizState
      ensures Valid() && quizToReview == Some(quiz) && quizState == Reviewing
    {
      quizToReview := Some(quiz);
      quizState := Reviewing;
    }

    method BackToHistory()
      requires Valid()
      modifies this`quizToReview, this`quizState
      ensures Valid() && quizToReview == None && quizState == ViewingHistory
    {
      quizToReview := None;
      quizState := ViewingHistory;
    }

    /** After the user confirms: both storage keys are removed, the history
      emptied and the knowledge base reset to the built-ins. */
    method ClearHistory(confirmed: bool)
      requires Valid()
      modifies this`savedHistory, this`quizHistory, this`savedCustomTopics, this`knowledgeBase
      ensures Valid()
      ensures confirmed ==> && savedHistory == Missing && quizHistory == []
                            && savedCustomTopics == Missing && knowledgeBase == builtins
      ensures !confirmed ==> && savedHistory == old(savedHistory) && quizHistory == old(quizHistory)
                             && savedCustomTopics == old(savedCustomTopics) && knowledgeBase == old(knowledgeBase)
    {
      if confirmed {
        savedHistory := Missing;
        quizHistory := [];
        savedCustomTopics := Missing;
        knowledgeBase := builtins;
      }
    }

    /** Add a topic unless its name is taken without regard to case; on
      success the custom entries are written to storage. */
    method AddCustomTopic(topic: KnowledgeTopic) returns (accepted: bool)
      requires Valid()
      modifies this`knowledgeBase, this`savedCustomTopics
      ensures Valid()
      ensures accepted <==> !Knowledge.NameTaken(old(knowledgeBase), topic.topic)
      ensures knowledgeBase == Knowledge.AddTopic(old(knowledgeBase), topic)
      ensures accepted ==> savedCustomTopics == Present(Knowledge.CustomTopics(knowledgeBase))
      ensures !accepted ==> savedCustomTopics == old(savedCustomTopics)
    {
      accepted := !Knowledge.NameTaken(knowledgeBase, topic.topic);
      if accepted {
        knowledgeBase := knowledgeBase + [topic];
        savedCustomTopics := Present(Knowledge.CustomTopics(knowledgeBase));
      }
    }

    /** Remove the entries named exactly `topicName` and write the custom
      entries to storage. */
    method DeleteCustomTopic(topicName: string)
      requires Valid()
      modifies this`knowledgeBase, this`savedCustomTopics
      ensures Valid()
      ensures knowledgeBase == Knowledge.DeleteTopic(old(knowledgeBase), topicName)
      ensures savedCustomTopics == Present(Knowledge.CustomTopics(knowledgeBase))
    {
      knowledgeBase := Knowledge.DeleteTopic(knowledgeBase, topicName);
      savedCustomTopics := Present(Knowledge.CustomTopics(knowledgeBase));
    }
  }

  /** A client of the class: a second restart finds nothing left to clear. */
  method RestartTwice(app: App)
    requires app.Valid()
    modifies app
    ensures app.Valid()
    ensures app.quizState == NotStarted && app.questions == [] && app.userAnswers == []
    ensures app.score == 0 && app.error == None && app.currentQuizConfig == None
    ensures app.quizHistory == old(app.quizHistory) && app.knowledgeBase == old(app.knowledgeBase)
  {
    app.Restart();
    ghost var once := (app.quizState, app.questions, app.userAnswers, app.score, app.error, app.currentQuizConfig);
    app.Restart();
    assert (app.quizState, app.questions, app.userAnswers, app.score, app.error, app.currentQuizConfig) == once;
  }
}
