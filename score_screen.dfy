/** The score screen: the per-question explanation state, the explanation
    request built for a wrongly answered question, and the colour band of the
    shown percentage. The explanation service is outside the model: its
    reply is an input. */
module Explanations {
  import opened QuizTypes
  import Scoring
  import Knowledge
  import History

  /** The entry kept for one question id. */
  datatype ExplanationState = ExplanationState(loading: bool, text: Option<string>, error: Option<string>)

  const FailureMessage := "Failed to load explanation. Please try again."
  const NotAnswered := "Not answered"

  /** What the explanation call produced: a response whose text may be
      absent, or a failure of any kind. */
  datatype ExplanationReply = Explained(text: Option<string>) | ExplanationFailed

  /** The entry while a request is outstanding. */
  function Pending(): (s: ExplanationState)
    ensures s.loading && s.text.None? && s.error.None?
  {
    ExplanationState(true, None, None)
  }

  /** The entry once the reply is in: the text on success, the fixed failure
      message otherwise; never loading. */
  function Settled(reply: ExplanationReply): (s: ExplanationState)
    ensures !s.loading
    ensures reply.Explained? ==> s.text == reply.text && s.error.None?
    ensures reply.ExplanationFailed? ==> s.text.None? && s.error == Some(FailureMessage)
  {
    match reply
    case Explained(text) => ExplanationState(false, text, None)
    case ExplanationFailed => ExplanationState(false, None, Some(FailureMessage))
  }

  /** The map after asking about question `id`: that entry becomes pending,
      every other entry stays as it was. */
  function AfterRequest(m: map<int, ExplanationState>, id: int): (r: map<int, ExplanationState>)
    ensures id in r && r[id] == Pending()
    ensures forall k :: k != id ==> (k in r <==> k in m)
    ensures forall k :: k != id && k in m ==> r[k] == m[k]
  {
    m[id := Pending()]
  }

  /** The map after the reply for question `id` arrives: only that entry
      changes. */
  function AfterReply(m: map<int, ExplanationState>, id: int, reply: ExplanationReply): (r: map<int, ExplanationState>)
    ensures id in r && r[id] == Settled(reply)
    ensures forall k :: k != id ==> (k in r <==> k in m)
    ensures forall k :: k != id && k in m ==> r[k] == m[k]
  {
    m[id := Settled(reply)]
  }

  /** Replies for two different questions may arrive in either order. */
  lemma RepliesCommute(m: map<int, ExplanationState>, id1: int, reply1: ExplanationReply,
                       id2: int, reply2: ExplanationReply)
    requires id1 != id2
    ensures AfterReply(AfterReply(m, id1, reply1), id2, reply2) ==
            AfterReply(AfterReply(m, id2, reply2), id1, reply1)
  {
    var a := AfterReply(AfterReply(m, id1, reply1), id2, reply2);
    var b := AfterReply(AfterReply(m, id2, reply2), id1, reply1);
    assert a.Keys == b.Keys;
    forall k | k in a ensures a[k] == b[k] {
    }
  }

  /** Asking about another question while one is outstanding leaves the
      outstanding one pending, so its button stays disabled. */
  lemma RequestKeepsOtherPending(m: map<int, ExplanationState>, id: int, other: int)
    requires other != id && ExplainDisabled(m, other)
    ensures ExplainDisabled(AfterRequest(m, id), other)
  {
  }

  /** The explain button of question `id` is disabled while its entry is
      loading. */
  predicate ExplainDisabled(m: map<int, ExplanationState>, id: int): (r: bool)
    ensures id !in m ==> !r
    ensures id in m ==> (r <==> m[id].loading)
  {
    id in m && m[id].loading
  }

  /** A request disables the button and its reply, whatever it is, enables
      it again. */
  lemma ButtonCycle(m: map<int, ExplanationState>, id: int, reply: ExplanationReply)
    ensures ExplainDisabled(AfterRequest(m, id), id)
    ensures !ExplainDisabled(AfterReply(AfterRequest(m, id), id, reply), id)
  {
  }

  /** Question `index` is marked correct on the score screen exactly when the
      submit handler counted it, and the explain button is offered exactly for
      the others. */
  predicate ExplainOffered(questions: seq<Question>, answers: seq<Option<string>>, index: nat): (r: bool)
    requires index < |questions|
    ensures index < |answers| && answers[index].Some? ==>
      (r <==> Scoring.CorrectAnswer(questions[index]) != Some(answers[index].value))
    ensures index >= |answers| ==> (r <==> Scoring.CorrectAnswer(questions[index]).Some?)
  {
    !Scoring.AnsweredCorrectly(questions, answers, index)
  }

  /** A question that was never answered always offers an explanation. */
  lemma UnansweredOffersExplanation(questions: seq<Question>, answers: seq<Option<string>>, index: nat)
    requires index < |questions| && index < |answers| && answers[index].None?
    ensures ExplainOffered(questions, answers, index)
  {
    Scoring.AnsweredCorrectlyIff(questions, answers, index);
  }

  /** `userAnswer || 'Not answered'`: a missing, `null` or empty answer is
      shown as "Not answered". */
  function AnswerLabel(slot: Scoring.Slot): (s: string)
    ensures slot.Text? && slot.text != "" ==> s == slot.text
    ensures !(slot.Text? && slot.text != "") ==> s == NotAnswered
  {
    match slot
    case Text(a) => if a != "" then a else NotAnswered
    case _ => NotAnswered
  }

  function OptionTexts(options: seq<QuestionOption>): (r: seq<string>)
    ensures |r| == |options|
    ensures forall i :: 0 <= i < |options| ==> r[i] == options[i].text
  {
    seq(|options|, i requires 0 <= i < |options| => options[i].text)
  }

  /** The explanation request: the grounding entries, the question, its
      option texts, the correct answer (absent when no option is flagged) and
      the student's answer as shown. */
  datatype ExplanationRequest = ExplanationRequest(
    context: seq<KnowledgeTopic>,
    questionText: string,
    optionTexts: seq<string>,
    correctAnswer: Option<string>,
    studentAnswer: string)

  function RequestFor(kb: seq<KnowledgeTopic>, topics: seq<string>, question: Question, userAnswer: Scoring.Slot)
    : (r: ExplanationRequest)
    ensures forall t :: t in r.context <==> t in kb && t.topic in topics
    ensures r.questionText == question.questionText
    ensures |r.optionTexts| == |question.options|
    ensures forall i :: 0 <= i < |question.options| ==> r.optionTexts[i] == question.options[i].text
    ensures r.correctAnswer == Scoring.CorrectAnswer(question)
    ensures r.studentAnswer == AnswerLabel(userAnswer)
  {
    ExplanationRequest(Knowledge.TopicsNamed(kb, topics), question.questionText,
                       OptionTexts(question.options), Scoring.CorrectAnswer(question), AnswerLabel(userAnswer))
  }

  /** The percentage shown for a result recomputed from its stored score and
      questions agrees with the percentage stored in it, so reviewing a past
      result shows the figure recorded at submission. */
  lemma ReviewedPercentageMatches(id: int, date: string, correctAnswers: nat, questions: seq<Question>,
                                  answers: seq<Option<string>>, config: QuizConfig)
    requires correctAnswers <= |questions|
    ensures var r := History.NewResult(id, date, correctAnswers, questions, answers, config);
      Scoring.Percentage(r.score, |r.questions|) == r.percentage
  {
  }

  datatype ResultColor = Red | Yellow | Green

  /** The colour of the percentage: green from 75, yellow from 50, red below. */
  function ColorFor(p: int): (c: ResultColor)
    ensures c == Green <==> p >= 75
    ensures c == Yellow <==> 50 <= p < 75
    ensures c == Red <==> p < 50
  {
    if p >= 75 then Green else if p >= 50 then Yellow else Red
  }

  function Rank(c: ResultColor): nat {
    match c
    case Red => 0
    case Yellow => 1
    case Green => 2
  }

  /** A higher percentage never gets a worse colour. */
  lemma ColorMonotone(p: int, q: int)
    requires p <= q
    ensures Rank(ColorFor(p)) <= Rank(ColorFor(q))
  {
  }

  /** Full marks are green and no marks are red. */
  lemma ColorOfExtremes(total: nat)
    requires total > 0
    ensures ColorFor(Scoring.Percentage(total, total)) == Green
    ensures ColorFor(Scoring.Percentage(0, total)) == Red
  {
    Scoring.PercentageOfFullScore(total);
  }

  /** The score screen's explanation entries. */
  class ExplanationPanel {
    var explanations: map<int, ExplanationState>

    constructor ()
      ensures explanations == map[]
    {
      explanations := map[];
    }

    /** The first half of the explain handler: mark the entry pending and
      produce the request to send. */
    method GetExplanation(kb: seq<KnowledgeTopic>, topics: seq<string>, question: Question, userAnswer: Scoring.Slot)
      returns (request: ExplanationRequest)
      modifies this
      ensures explanations == AfterRequest(old(explanations), question.id)
      ensures request == RequestFor(kb, topics, question, userAnswer)
    {
      explanations := explanations[question.id := Pending()];
      request := RequestFor(kb, topics, question, userAnswer);
    }

    /** The second half: record the reply for that question only. */
    method ExplanationArrived(questionId: int, reply: ExplanationReply)
      modifies this
      ensures explanations == AfterReply(old(explanations), questionId, reply)
    {
      explanations := explanations[questionId := Settled(reply)];
    }
  }
}
