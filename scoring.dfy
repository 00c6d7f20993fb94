/** Scoring a finished quiz: which questions were answered correctly, how
    many, and the rounded percentage shown for them. */
module Scoring {
  import opened QuizTypes

  /** Position of the first option flagged correct, as
      `options.find(opt => opt.isCorrect)` finds it. */
  function FirstCorrectIndex(options: seq<QuestionOption>): (r: Option<nat>)
    ensures r.None? <==> forall i :: 0 <= i < |options| ==> !options[i].isCorrect
    ensures r.Some? ==> r.value < |options| && options[r.value].isCorrect
    ensures r.Some? ==> forall j :: 0 <= j < r.value ==> !options[j].isCorrect
  {
    if options == [] then None
    else if options[0].isCorrect then Some(0)
    else match FirstCorrectIndex(options[1..])
      case None => None
      case Some(k) => Some(k + 1)
  }

  /** The text of the question's correct option; `None` stands for the
      `undefined` that `find` yields when no option is flagged. */
  function CorrectAnswer(q: Question): (r: Option<string>)
    ensures r.Some? <==> exists i :: 0 <= i < |q.options| && q.options[i].isCorrect
    ensures r.Some? ==>
      exists k :: (&& 0 <= k < |q.options| && q.options[k].isCorrect && r.value == q.options[k].text
                   && forall j :: 0 <= j < k ==> !q.options[j].isCorrect)
  {
    match FirstCorrectIndex(q.options)
    case None => None
    case Some(k) => Some(q.options[k].text)
  }

  /** What `userAnswers[index]` evaluates to in the source: `undefined` past
      the end of the array, `null` for an unanswered slot, otherwise a string. */
  datatype Slot = Undefined | Null | Text(text: string)

  function AnswerSlot(answers: seq<Option<string>>, i: nat): (r: Slot)
    ensures i >= |answers| <==> r.Undefined?
    ensures i < |answers| ==> (r.Null? <==> answers[i].None?)
    ensures i < |answers| && answers[i].Some? ==> r == Text(answers[i].value)
  {
    if i >= |answers| then Undefined
    else match answers[i]
      case None => Null
      case Some(a) => Text(a)
  }

  /** `slot === correct`: equal strings, or both `undefined`. */
  predicate StrictEquals(slot: Slot, correct: Option<string>) {
    match slot
    case Undefined => correct.None?
    case Null => false
    case Text(a) => correct == Some(a)
  }

  /** Question `i` counts as correct: the stored answer equals the correct
      option's text exactly. */
  predicate AnsweredCorrectly(questions: seq<Question>, answers: seq<Option<string>>, i: nat): (r: bool)
    requires i < |questions|
    ensures i < |answers| && answers[i].None? ==> !r
    ensures i < |answers| && answers[i].Some? ==> (r <==> CorrectAnswer(questions[i]) == Some(answers[i].value))
    ensures i >= |answers| ==> (r <==> forall k :: 0 <= k < |questions[i].options| ==> !questions[i].options[k].isCorrect)
  {
    StrictEquals(AnswerSlot(answers, i), CorrectAnswer(questions[i]))
  }

  /** An unanswered (`null`) slot never counts, and a given answer counts
      exactly when it is the correct option's text. */
  lemma AnsweredCorrectlyIff(questions: seq<Question>, answers: seq<Option<string>>, i: nat)
    requires i < |questions| && i < |answers|
    ensures answers[i].None? ==> !AnsweredCorrectly(questions, answers, i)
    ensures answers[i].Some? ==>
      (AnsweredCorrectly(questions, answers, i) <==>
         exists k :: 0 <= k < |questions[i].options| && questions[i].options[k].isCorrect
           && questions[i].options[k].text == answers[i].value
           && forall j :: 0 <= j < k ==> !questions[i].options[j].isCorrect)
  {
    var opts := questions[i].options;
    var first := FirstCorrectIndex(opts);
    if answers[i].Some? && first.Some? {
      forall k | 0 <= k < |opts| && opts[k].isCorrect && (forall j :: 0 <= j < k ==> !opts[j].isCorrect)
        ensures k == first.value
      {
      }
    }
  }

  /** How many of the first `n` questions were answered correctly. */
  function CorrectAmong(questions: seq<Question>, answers: seq<Option<string>>, n: nat): (r: nat)
    requires n <= |questions|
    ensures r <= n
  {
    if n == 0 then 0
    else CorrectAmong(questions, answers, n - 1) + (if AnsweredCorrectly(questions, answers, n - 1) then 1 else 0)
  }

  /** The number of correctly answered questions. */
  function Score(questions: seq<Question>, answers: seq<Option<string>>): (r: nat)
    ensures r <= |questions|
  {
    CorrectAmong(questions, answers, |questions|)
  }

  /** The indices below `n` that satisfy `p`. */
  ghost function IndicesBelow(n: nat, p: nat -> bool): set<nat> {
    set i: nat | i < n && p(i)
  }

  lemma IndicesBelowStep(n: nat, p: nat -> bool)
    requires n > 0
    ensures |IndicesBelow(n, p)| == |IndicesBelow(n - 1, p)| + (if p(n - 1) then 1 else 0)
  {
    var before := IndicesBelow(n - 1, p);
    assert n - 1 !in before;
    if p(n - 1) {
      assert IndicesBelow(n, p) == before + {n - 1};
    } else {
      assert IndicesBelow(n, p) == before;
    }
  }

  function CorrectAt(questions: seq<Question>, answers: seq<Option<string>>): nat -> bool {
    (i: nat) => i < |questions| && AnsweredCorrectly(questions, answers, i)
  }

  /** The indices below `n` whose question was answered correctly. */
  ghost function CorrectIndices(questions: seq<Question>, answers: seq<Option<string>>, n: nat): set<nat> {
    IndicesBelow(n, CorrectAt(questions, answers))
  }

  /** The score counts exactly the correctly answered indices. */
  lemma {:induction false} ScoreCountsCorrectIndices(questions: seq<Question>, answers: seq<Option<string>>, n: nat)
    requires n <= |questions|
    ensures CorrectAmong(questions, answers, n) == |CorrectIndices(questions, answers, n)|
  {
    if n == 0 {
      assert CorrectIndices(questions, answers, 0) == {};
    } else {
      ScoreCountsCorrectIndices(questions, answers, n - 1);
      IndicesBelowStep(n, CorrectAt(questions, answers));
    }
  }

  /** Full marks exactly when every question was answered correctly. */
  lemma {:induction false} FullScoreIff(questions: seq<Question>, answers: seq<Option<string>>, n: nat)
    requires n <= |questions|
    ensures CorrectAmong(questions, answers, n) == n <==>
      forall i :: 0 <= i < n ==> AnsweredCorrectly(questions, answers, i)
  {
    if n > 0 {
      FullScoreIff(questions, answers, n - 1);
    }
  }

  /** A fresh answer sheet, one `null` per question, scores zero. */
  lemma {:induction false} UnansweredScoresZero(questions: seq<Question>, answers: seq<Option<string>>, n: nat)
    requires n <= |questions| == |answers|
    requires forall i :: 0 <= i < |answers| ==> answers[i].None?
    ensures CorrectAmong(questions, answers, n) == 0
  {
    if n > 0 {
      UnansweredScoresZero(questions, answers, n - 1);
    }
  }

  /** The counting loop of the submit handler: walks the questions and
      increments the count at every correctly answered index. */
  method CountCorrectAnswers(questions: seq<Question>, answers: seq<Option<string>>) returns (correctAnswers: nat)
    ensures correctAnswers == Score(questions, answers)
  {
    correctAnswers := 0;
    for index := 0 to |questions|
      invariant correctAnswers == CorrectAmong(questions, answers, index)
    {
      var correctAnswer := CorrectAnswer(questions[index]);
      if StrictEquals(AnswerSlot(answers, index), correctAnswer) {
        correctAnswers := correctAnswers + 1;
      }
    }
  }

  /** `Math.round(score / total * 100)`, or 0 when there are no questions,
      in exact integer arithmetic: round half up of 100 * score / total. */
  function Percentage(score: nat, total: nat): (p: nat)
    ensures total == 0 ==> p == 0
    ensures total > 0 ==> 2 * total * p <= 200 * score + total < 2 * total * (p + 1)
  {
    if total > 0 then (200 * score + total) / (2 * total) else 0
  }

  /** A score between 0 and the number of questions gives a percentage
      between 0 and 100. */
  lemma PercentageBounded(score: nat, total: nat)
    requires score <= total
    ensures Percentage(score, total) <= 100
  {
    if total > 0 {
      var p := Percentage(score, total);
      assert 200 * score + total <= 201 * total;
      if p > 100 {
        MulMonotone(2 * total, 101, p);
        assert false;
      }
    }
  }

  /** A perfect score gives exactly 100. */
  lemma PercentageOfFullScore(total: nat)
    requires total > 0
    ensures Percentage(total, total) == 100
  {
    assert 200 * total + total == 201 * total;
    var p := Percentage(total, total);
    if p < 100 {
      MulMonotone(2 * total, p + 1, 100);
    } else if p > 100 {
      MulMonotone(2 * total, 101, p);
    }
  }

  /** More correct answers never lower the percentage. */
  lemma PercentageMonotone(s1: nat, s2: nat, total: nat)
    requires s1 <= s2
    ensures Percentage(s1, total) <= Percentage(s2, total)
  {
    if total > 0 {
      var p1, p2 := Percentage(s1, total), Percentage(s2, total);
      if p1 > p2 {
        MulMonotone(2 * total, p2 + 1, p1);
        assert false;
      }
    }
  }

  lemma MulMonotone(a: nat, b: nat, c: nat)
    requires b <= c
    ensures a * b <= a * c
  {
  }
}
