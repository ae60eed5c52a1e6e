/** The teacher's quiz generator page of the older client
    (client/quizWhiz-client/src/QuizGenerator.jsx): the form's validation, the
    question-count input, and the page state its handlers set one after the
    other. Each React state variable is a field of `GeneratorPage`; a handler
    that awaits the server is split at the await into the part before the
    request and the part that handles the response. */
module GeneratorPage {
  import opened Js
  import opened QuizController
  import opened AnswerSheet

  datatype FormCheck = Accepted | TopicMissing | CountOutOfRange

  /** The two guards of `generateQuiz` on the page, in order: a topic that is
      not blank ("Please enter a topic"), then a count between 1 and 20
      ("Please enter between 1 and 20 questions"). The page tests blankness
      as `!topic.trim()`; `CheckFormTrimsTopic` shows the two tests agree. */
  function CheckForm(topic: string, count: int): (r: FormCheck)
    ensures r == TopicMissing <==> AllWhitespace(topic)
    ensures r == CountOutOfRange <==> !AllWhitespace(topic) && (count < 1 || count > 20)
    ensures r == Accepted <==> !AllWhitespace(topic) && 1 <= count <= 20
  {
    if AllWhitespace(topic) then TopicMissing
    else if count < 1 || count > 20 then CountOutOfRange
    else Accepted
  }

  /** The topic is refused exactly when `topic.trim()` is empty, and a form
      with a non-blank topic is refused exactly for a count outside 1..20. */
  lemma CheckFormTrimsTopic(topic: string, count: int)
    ensures CheckForm(topic, count) == TopicMissing <==> Trim(topic) == ""
    ensures Trim(topic) != "" ==> (CheckForm(topic, count) == Accepted <==> 1 <= count <= 20)
  {
    TrimEmptyIffBlank(topic);
  }

  class GeneratorPage {
    var topic: string
    var numQuestions: int
    /** The generated quiz last received, as the server returned it. */
    var quiz: Option<GeneratedQuiz>
    var loading: bool
    var selections: Selections
    var submitted: bool
    var result: Option<SubmitResponse>
    var shareableCode: string

    /** Choices are option indices of a four-option question, the count is
        never 0 (the input falls back to 5), a shown result has arrived, and
        the share code is the one of the quiz on screen. */
    ghost predicate Valid()
      reads this
    {
      && ValidSelections(selections)
      && numQuestions != 0
      && (submitted ==> result.Some?)
      && (quiz.Some? ==> shareableCode == quiz.value.shareableCode)
    }

    /** The initial `useState` values. */
    constructor ()
      ensures Valid()
      ensures topic == "" && numQuestions == 5 && quiz.None? && !loading
      ensures selections == map[] && !submitted && result.None? && shareableCode == ""
    {
      topic, numQuestions, quiz, loading := "", 5, None, false;
      selections, submitted, result, shareableCode := map[], false, None, "";
    }

    /** The count input's `onChange`: `parseInt(value) || 5`, where `parsed`
        is `None` when `parseInt` yields NaN. */
    method SetCount(parsed: Option<int>)
      requires Valid()
      modifies this
      ensures Valid()
      ensures numQuestions == NumberOr(parsed, 5)
      ensures parsed.None? || parsed.value == 0 ==> numQuestions == 5
      ensures topic == old(topic) && quiz == old(quiz) && selections == old(selections)
      ensures submitted == old(submitted) && result == old(result) && loading == old(loading)
      ensures shareableCode == old(shareableCode)
    {
      numQuestions := NumberOr(parsed, 5);
    }

    /** `generateQuiz` up to the request: check the form; when it passes, set
        the loading flag and clear the submitted flag, the result and the
        choices. A refused form changes nothing. */
    method StartGeneration() returns (check: FormCheck)
      requires Valid()
      modifies this
      ensures Valid()
      ensures check == CheckForm(old(topic), old(numQuestions))
      ensures check != Accepted ==>
        loading == old(loading) && submitted == old(submitted) && result == old(result)
        && selections == old(selections)
      ensures check == Accepted ==>
        loading && !submitted && result.None? && selections == map[]
      ensures topic == old(topic) && numQuestions == old(numQuestions) && quiz == old(quiz)
      ensures shareableCode == old(shareableCode)
    {
      check := CheckForm(topic, numQuestions);
      if check == Accepted {
        loading := true;
        submitted := false;
        result := None;
        selections := map[];
      }
    }

    /** `generateQuiz` after the request: a received quiz replaces the one on
        screen together with its share code; a failed request keeps both. The
        loading flag is cleared either way. */
    method FinishGeneration(response: Option<GeneratedQuiz>)
      requires Valid()
      modifies this
      ensures Valid()
      ensures !loading
      ensures response.Some? ==> quiz == response && shareableCode == response.value.shareableCode
      ensures response.None? ==> quiz == old(quiz) && shareableCode == old(shareableCode)
      ensures topic == old(topic) && numQuestions == old(numQuestions) && selections == old(selections)
      ensures submitted == old(submitted) && result == old(result)
    {
      if response.Some? {
        quiz := response;
        shareableCode := response.value.shareableCode;
      }
      loading := false;
    }

    /** `handleAnswerSelect` on one of a question's four options. */
    method Select(question: nat, option: nat)
      requires Valid() && option < |Letters|
      modifies this
      ensures Valid()
      ensures selections == SelectAnswer(old(selections), question, option)
      ensures topic == old(topic) && numQuestions == old(numQuestions) && quiz == old(quiz)
      ensures loading == old(loading) && submitted == old(submitted) && result == old(result)
      ensures shareableCode == old(shareableCode)
    {
      selections := SelectAnswer(selections, question, option);
    }

    /** `handleSubmit` up to the request: the answer array for the quiz on
        screen, or the first question without a choice. */
    method Submit() returns (attempt: SubmitAttempt)
      requires Valid() && quiz.Some?
      ensures attempt.MissingAnswer? ==>
        attempt.question < |quiz.value.questions| && attempt.question !in selections
        && forall j :: 0 <= j < attempt.question ==> j in selections
      ensures attempt.Send? ==>
        (forall i :: 0 <= i < |quiz.value.questions| ==> i in selections)
        && attempt.answers == LetterAnswers(selections, |quiz.value.questions|)
    {
      attempt := BuildAnswers(|quiz.value.questions|, selections);
    }

    /** `handleSubmit` after the request: a received result is shown; a failed
        request changes nothing. */
    method ShowResult(response: Option<SubmitResponse>)
      requires Valid()
      modifies this
      ensures Valid()
      ensures response.Some? ==> submitted && result == response
      ensures response.None? ==> submitted == old(submitted) && result == old(result)
      ensures topic == old(topic) && numQuestions == old(numQuestions) && quiz == old(quiz)
      ensures selections == old(selections) && loading == old(loading) && shareableCode == old(shareableCode)
    {
      if response.Some? {
        result := response;
        submitted := true;
      }
    }

    /** "Create New Quiz": clears the submitted flag, the result, the quiz, the
        choices and the topic; the count and the last share code stay. */
    method CreateNewQuiz()
      requires Valid()
      modifies this
      ensures Valid()
      ensures !submitted && result.None? && quiz.None? && selections == map[] && topic == ""
      ensures numQuestions == old(numQuestions) && loading == old(loading)
      ensures shareableCode == old(shareableCode)
    {
      submitted := false;
      result := None;
      quiz := None;
      selections := map[];
      topic := "";
    }
  }
}
