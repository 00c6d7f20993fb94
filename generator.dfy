/** Question generation: the request built for the text-generation service
    (which directives it carries and which topics ground it), the check on the
    reply, and the stamping of every generated question. The service itself is
    outside the model: its reply is an input. */
module Generator {
  import opened QuizTypes
  import opened Knowledge

  /** The numbered instructions of the generation prompt. Only their presence,
      order and parameters are modelled, not their wording. */
  datatype Directive =
    | TotalQuestions(count: int)
    | QuestionStyle(questionType: QuestionType)
    | DifficultyLevel(difficulty: Difficulty)
    | TopicCoverage(count: int, topics: seq<string>)
    | OptionFormat
    | AvoidRepetition(previousTexts: seq<string>)

  /** The outbound request: the directives and the knowledge-base entries
      whose content is attached as grounding. */
  datatype GenerationRequest = GenerationRequest(directives: seq<Directive>, grounding: seq<KnowledgeTopic>)

  /** One item of the reply's `questions` array. */
  datatype RawQuestion = RawQuestion(questionText: string, options: seq<QuestionOption>)

  /** What the service call produced: it (or parsing its text as JSON) threw,
      or it parsed to an object whose `questions` field is an array
      (`Some`) or is missing or not an array (`None`). */
  datatype ProviderReply = Threw(thrown: Thrown) | Parsed(questions: Option<seq<RawQuestion>>)

  const NoTopicsMessage := "No topics were provided for quiz generation."
  const InvalidFormatMessage := "Invalid response format from AI."

  function QuestionTexts(previous: seq<Question>): (r: seq<string>)
    ensures |r| == |previous|
    ensures forall i :: 0 <= i < |previous| ==> r[i] == previous[i].questionText
  {
    seq(|previous|, i requires 0 <= i < |previous| => previous[i].questionText)
  }

  /** The sixth directive, present only when there are previous questions. */
  function ExclusionDirective(previous: seq<Question>): (r: seq<Directive>)
    ensures |r| > 0 <==> |previous| > 0
  {
    if |previous| > 0 then [AvoidRepetition(QuestionTexts(previous))] else []
  }

  /** The request, or `None` when no selected name resolves to a
      knowledge-base entry (the generator then throws before any call). */
  function BuildRequest(kb: seq<KnowledgeTopic>, questionType: QuestionType, difficulty: Difficulty,
                        numQuestions: int, selectedTopics: seq<string>, previous: seq<Question>)
    : (r: Option<GenerationRequest>)
    ensures r.None? <==> forall i :: 0 <= i < |kb| ==> kb[i].topic !in selectedTopics
  {
    var available := TopicsNamed(kb, selectedTopics);
    if available == [] then None
    else Some(GenerationRequest(
      [TotalQuestions(numQuestions), QuestionStyle(questionType), DifficultyLevel(difficulty),
       TopicCoverage(numQuestions, selectedTopics), OptionFormat] + ExclusionDirective(previous),
      available))
  }

  /** A built request carries the five fixed directives in order, a sixth
      listing every previous question text exactly when there are previous
      questions, and as grounding exactly the selected entries in
      knowledge-base order. */
  lemma RequestShape(kb: seq<KnowledgeTopic>, questionType: QuestionType, difficulty: Difficulty,
                     numQuestions: int, selectedTopics: seq<string>, previous: seq<Question>)
    requires exists i :: 0 <= i < |kb| && kb[i].topic in selectedTopics
    ensures var r := BuildRequest(kb, questionType, difficulty, numQuestions, selectedTopics, previous);
      && r.Some?
      && r.value.directives[..5] == [TotalQuestions(numQuestions), QuestionStyle(questionType),
          DifficultyLevel(difficulty), TopicCoverage(numQuestions, selectedTopics), OptionFormat]
      && (|previous| == 0 ==> |r.value.directives| == 5)
      && (|previous| > 0 ==>
            (&& |r.value.directives| == 6
             && r.value.directives[5].AvoidRepetition?
             && |r.value.directives[5].previousTexts| == |previous|
             && forall k :: 0 <= k < |previous| ==>
                  r.value.directives[5].previousTexts[k] == previous[k].questionText))
      && r.value.grounding == TopicsNamed(kb, selectedTopics)
      && (forall t :: t in r.value.grounding <==> t in kb && t.topic in selectedTopics)
  {
  }

  /** The generated questions: item `i` gets id `base + i` and the requested
      difficulty, and keeps its text and options. */
  function Stamp(raw: seq<RawQuestion>, base: int, difficulty: Difficulty): (r: seq<Question>)
    ensures |r| == |raw|
    ensures forall i :: 0 <= i < |raw| ==>
      r[i] == Question(base + i, raw[i].questionText, raw[i].options, difficulty)
  {
    seq(|raw|, i requires 0 <= i < |raw| => Question(base + i, raw[i].questionText, raw[i].options, difficulty))
  }

  /** The ids within one batch are distinct and increasing. */
  lemma StampIdsIncreasing(raw: seq<RawQuestion>, base: int, difficulty: Difficulty)
    ensures var r := Stamp(raw, base, difficulty);
      forall i, j :: 0 <= i < j < |r| ==> r[i].id < r[j].id
  {
  }

  /** The generator: resolve the topics, obtain the reply, check that it has
      a `questions` array, stamp the items. `now` is the clock reading used
      as the id base. */
  function Generate(kb: seq<KnowledgeTopic>, questionType: QuestionType, difficulty: Difficulty,
                    numQuestions: int, selectedTopics: seq<string>, previous: seq<Question>,
                    reply: ProviderReply, now: int): (r: Result<seq<Question>>)
    ensures (forall i :: 0 <= i < |kb| ==> kb[i].topic !in selectedTopics) ==>
      r == Err(Error(NoTopicsMessage))
  {
    if TopicsNamed(kb, selectedTopics) == [] then Err(Error(NoTopicsMessage))
    else match reply
      case Threw(e) => Err(e)
      case Parsed(None) => Err(Error(InvalidFormatMessage))
      case Parsed(Some(items)) => Ok(Stamp(items, now, difficulty))
  }

  /** Generation succeeds exactly when some selected name resolves and the
      reply holds a `questions` array; every item of that array is accepted as
      it is (no check of option count or of the correct flag), stamped with
      distinct ids and the requested difficulty. Otherwise the error is the
      reply's own or the format error. */
  lemma GenerateOutcome(kb: seq<KnowledgeTopic>, questionType: QuestionType, difficulty: Difficulty,
                        numQuestions: int, selectedTopics: seq<string>, previous: seq<Question>,
                        reply: ProviderReply, now: int)
    ensures var r := Generate(kb, questionType, difficulty, numQuestions, selectedTopics, previous, reply, now);
      && (r.Ok? <==> (exists i :: 0 <= i < |kb| && kb[i].topic in selectedTopics)
                     && reply.Parsed? && reply.questions.Some?)
      && (r.Ok? ==>
            (&& |r.value| == |reply.questions.value|
             && (forall i :: 0 <= i < |r.value| ==>
                   && r.value[i].difficulty == difficulty
                   && r.value[i].questionText == reply.questions.value[i].questionText
                   && r.value[i].options == reply.questions.value[i].options)
             && (forall i, j :: 0 <= i < j < |r.value| ==> r.value[i].id != r.value[j].id)))
      && ((exists i :: 0 <= i < |kb| && kb[i].topic in selectedTopics) && reply.Threw? ==>
            r == Err(reply.thrown))
      && ((exists i :: 0 <= i < |kb| && kb[i].topic in selectedTopics) && reply == Parsed(None) ==>
            r == Err(Error(InvalidFormatMessage)))
  {
  }
}
