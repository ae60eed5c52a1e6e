/** The quiz-taking pages' answer handling (client/src/pages/QuizTaking.jsx
    and its older twin client/quizWhiz-client/src/pages/TakeQuiz.jsx, whose
    logic is the same): the selection map from question index to option
    index, the answer array sent on submit, and the message shown when the
    quiz cannot be fetched. */
module AnswerSheet {
  import opened Js
  import opened Http
  import opened Records
  import opened Grading
  import opened QuizController

  /** `selectedAnswers`: question index to the index of the chosen option. */
  type Selections = map<nat, nat>

  /** `letters`: the answer sent for each of the four option indices. */
  const Letters: seq<string> := ["a", "b", "c", "d"]

  /** Option indices are those of the four rendered options. */
  predicate ValidSelections(sel: Selections) {
    forall k :: k in sel ==> sel[k] < |Letters|
  }

  /** `handleAnswerSelect`: the spread `{ ...selected, [question]: option }`
      sets that question's choice, replacing any earlier one, and touches no
      other question. */
  function SelectAnswer(sel: Selections, question: nat, option: nat): (r: Selections)
    ensures question in r && r[question] == option
    ensures forall k :: k != question ==> (k in r <==> k in sel)
    ensures forall k :: k in sel && k != question ==> r[k] == sel[k]
  {
    sel[question := option]
  }

  /** Choosing twice for the same question keeps only the second choice. */
  lemma SelectAgainOverwrites(sel: Selections, question: nat, first: nat, second: nat)
    ensures SelectAnswer(SelectAnswer(sel, question, first), question, second) == SelectAnswer(sel, question, second)
  {
  }

  /** The answers of a complete sheet: one letter per question, in order. */
  function LetterAnswers(sel: Selections, count: nat): (r: seq<string>)
    requires ValidSelections(sel)
    requires forall i :: 0 <= i < count ==> i in sel
    ensures |r| == count
  {
    seq(count, i requires 0 <= i < count => Letters[sel[i]])
  }

  /** What pressing submit does: send the answers, or stop at a question with no choice. */
  datatype SubmitAttempt = Send(answers: seq<string>) | MissingAnswer(question: nat)

  /** The loop of `handleSubmit`: walks the questions in order, stops (with the
      "Please answer question i + 1" alert, and no request) at the first one
      without a choice, and otherwise pushes the letter of each choice. */
  method BuildAnswers(count: nat, sel: Selections) returns (r: SubmitAttempt)
    requires ValidSelections(sel)
    ensures r.MissingAnswer? ==>
      r.question < count && r.question !in sel && forall j :: 0 <= j < r.question ==> j in sel
    ensures r.Send? ==>
      (forall i :: 0 <= i < count ==> i in sel) && r.answers == LetterAnswers(sel, count)
  {
    var answers: seq<string> := [];
    for i := 0 to count
      invariant forall j :: 0 <= j < i ==> j in sel
      invariant |answers| == i
      invariant forall j :: 0 <= j < i ==> answers[j] == Letters[sel[j]]
    {
      if i !in sel {
        return MissingAnswer(i);
      }
      answers := answers + [Letters[sel[i]]];
    }
    return Send(answers);
  }

  /** A complete sheet scores full marks exactly when every chosen letter is
      the question's correct answer. */
  lemma FullMarksIffCorrectLetters(questions: seq<Question>, sel: Selections)
    requires ValidSelections(sel)
    requires forall i :: 0 <= i < |questions| ==> i in sel
    ensures Score(questions, LetterAnswers(sel, |questions|)) == |questions|
      <==> forall i :: 0 <= i < |questions| ==> Letters[sel[i]] == questions[i].correctAnswer
  {
    var answers := LetterAnswers(sel, |questions|);
    FullMarksIff(questions, answers, |questions|);
    assert forall i :: 0 <= i < |questions| ==>
      (AnsweredCorrectly(questions, answers, i) <==> Letters[sel[i]] == questions[i].correctAnswer);
  }

  /** The error body of a failed fetch, when there is a response at all. */
  datatype FetchFailure = NoResponse | Refused(error: Option<string>, alreadySubmitted: bool)

  /** The body the server sends with a refusal. */
  function BodyOf(e: ApiError): FetchFailure {
    Refused(Some(e.error), e.alreadySubmitted)
  }

  /** The `catch` of `fetchQuiz`: the fixed message when the body says
      alreadySubmitted, else the body's error text, else "Quiz not found". */
  function FetchErrorMessage(f: FetchFailure): (m: string)
    ensures f.Refused? && f.alreadySubmitted ==> m == "You have already submitted this quiz"
    ensures f.NoResponse? ==> m == "Quiz not found"
    ensures f.Refused? && !f.alreadySubmitted ==> m == StringOr(f.error, "Quiz not found")
    ensures m != ""
  {
    if f.Refused? && f.alreadySubmitted then "You have already submitted this quiz"
    else if f.Refused? then StringOr(f.error, "Quiz not found")
    else "Quiz not found"
  }

  /** Whatever `getQuizByCode` refuses with, the page shows the server's own text:
      "Quiz not found" for an unknown code and the already-submitted message for
      a repeat taker. */
  lemma FetchErrorShowsServerText(quizzes: seq<Quiz>, submissions: seq<Submission>, code: string, userId: nat)
    requires GetQuizByCode(quizzes, submissions, code, userId).Err?
    ensures var e := GetQuizByCode(quizzes, submissions, code, userId).err;
      FetchErrorMessage(BodyOf(e)) == e.error
    ensures !CodeInUse(quizzes, code) ==>
      FetchErrorMessage(BodyOf(GetQuizByCode(quizzes, submissions, code, userId).err)) == "Quiz not found"
  {
  }
}
