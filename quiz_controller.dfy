/** The quiz handlers of server/controllers/quizController.js over an
    in-memory copy of the two collections. Read-only handlers are functions of
    the stored quizzes and submissions; the two handlers that save a document,
    quiz generation and submission, are methods of `QuizStore`, the store
    whose sequences they append to. */
module QuizController {
  import opened Js
  import opened Http
  import opened Records
  import opened Fences
  import opened Grading
  import opened Query

  const QuizNotFound := ApiError(404, "Quiz not found", false)
  const AlreadySubmitted := ApiError(400, "You have already submitted this quiz", true)
  const AccessDenied := ApiError(403, "Access denied", false)
  const GenerateFailed := ApiError(500, "Failed to generate quiz", false)
  const ParseFailed := ApiError(500, "Failed to parse AI response", false)
  const SubmitFailed := ApiError(500, "Failed to submit quiz", false)

  /** The signed-in caller, as the authentication middleware attaches it to the request. */
  datatype Requester = Requester(id: nat, name: string, role: string)

  // ---------------------------------------------------------------- lookups

  /** `Quiz.findOne({ shareableCode: code })`: the first stored quiz with that code. */
  function FindQuizByCode(quizzes: seq<Quiz>, code: string): (r: Option<nat>)
    ensures r.None? <==> !CodeInUse(quizzes, code)
    ensures r.Some? ==> r.value < |quizzes| && quizzes[r.value].shareableCode == code
    ensures r.Some? ==> forall j :: 0 <= j < r.value ==> quizzes[j].shareableCode != code
  {
    FindFirst(quizzes, (q: Quiz) => q.shareableCode == code)
  }

  /** `Quiz.findById(id)`, as `populate` performs it. */
  function FindQuizById(quizzes: seq<Quiz>, id: nat): (r: Option<nat>)
    ensures r.None? <==> forall j :: 0 <= j < |quizzes| ==> quizzes[j].id != id
    ensures r.Some? ==> r.value < |quizzes| && quizzes[r.value].id == id
  {
    FindFirst(quizzes, (q: Quiz) => q.id == id)
  }

  /** `Submission.findOne({ quizId, studentId })` finds something. */
  predicate HasSubmission(submissions: seq<Submission>, quizId: nat, studentId: nat) {
    exists i :: 0 <= i < |submissions| && submissions[i].quizId == quizId && submissions[i].studentId == studentId
  }

  // ------------------------------------------------------------ getQuizByCode

  datatype StudentQuestion = StudentQuestion(question: string, options: seq<string>)

  datatype StudentView = StudentView(quizId: nat, topic: string, difficulty: string, questions: seq<StudentQuestion>)

  /** The `.map` that keeps each question's text and options and drops its correct answer. */
  function HideAnswers(questions: seq<Question>): (r: seq<StudentQuestion>)
    ensures |r| == |questions|
    ensures forall i :: 0 <= i < |r| ==>
      r[i].question == questions[i].question && r[i].options == questions[i].options
  {
    seq(|questions|, i requires 0 <= i < |questions| => StudentQuestion(questions[i].question, questions[i].options))
  }

  /** The student view depends on the questions' text and options only, so it
      cannot reveal which option is correct. */
  lemma HideAnswersIgnoresCorrectAnswers(a: seq<Question>, b: seq<Question>)
    requires |a| == |b|
    requires forall i :: 0 <= i < |a| ==> a[i].question == b[i].question && a[i].options == b[i].options
    ensures HideAnswers(a) == HideAnswers(b)
  {
  }

  /** `getQuizByCode`: 404 for an unknown code, 400 (alreadySubmitted) when the
      caller already has a submission for the quiz, whatever the caller's role;
      otherwise the quiz without its correct answers. */
  function GetQuizByCode(quizzes: seq<Quiz>, submissions: seq<Submission>, code: string, userId: nat): (r: Result<StudentView>)
    ensures r == Err(QuizNotFound) <==> !CodeInUse(quizzes, code)
    ensures r == Err(AlreadySubmitted) <==>
      (CodeInUse(quizzes, code) && HasSubmission(submissions, quizzes[FindQuizByCode(quizzes, code).value].id, userId))
    ensures r.Err? ==> r == Err(QuizNotFound) || r == Err(AlreadySubmitted)
    ensures r.Ok? ==>
      var q := quizzes[FindQuizByCode(quizzes, code).value];
      && q.shareableCode == code
      && r.value.quizId == q.id && r.value.topic == q.topic && r.value.difficulty == q.difficulty
      && |r.value.questions| == |q.questions|
      && forall i :: 0 <= i < |q.questions| ==>
           r.value.questions[i].question == q.questions[i].question
           && r.value.questions[i].options == q.questions[i].options
  {
    match FindQuizByCode(quizzes, code)
    case None => Err(QuizNotFound)
    case Some(k) =>
      var q := quizzes[k];
      if HasSubmission(submissions, q.id, userId) then Err(AlreadySubmitted)
      else Ok(StudentView(q.id, q.topic, q.difficulty, HideAnswers(q.questions)))
  }

  // --------------------------------------------------------------- submitQuiz

  datatype SubmitResponse = SubmitResponse(score: nat, total: nat, percentage: Option<int>, xpEarned: int)

  /** The two guards of `submitQuiz`, in order: the code must name a quiz, and a
      caller whose role is "student" must not have submitted it before (other
      roles skip that check). Yields the quiz's position in the store. */
  function CheckSubmission(quizzes: seq<Quiz>, submissions: seq<Submission>, code: string, user: Requester): (r: Result<nat>)
    ensures r == Err(QuizNotFound) <==> !CodeInUse(quizzes, code)
    ensures r == Err(AlreadySubmitted) <==>
      (CodeInUse(quizzes, code) && user.role == "student"
       && HasSubmission(submissions, quizzes[FindQuizByCode(quizzes, code).value].id, user.id))
    ensures r.Err? ==> r == Err(QuizNotFound) || r == Err(AlreadySubmitted)
    ensures r.Ok? ==> FindQuizByCode(quizzes, code) == Some(r.value)
  {
    match FindQuizByCode(quizzes, code)
    case None => Err(QuizNotFound)
    case Some(k) =>
      if user.role == "student" && HasSubmission(submissions, quizzes[k].id, user.id) then Err(AlreadySubmitted)
      else Ok(k)
  }

  /** Once a student's submission for a quiz is stored, both the student view
      and a second submission are refused with alreadySubmitted: a student
      submits each quiz at most once. */
  lemma StudentSubmitsOnce(quizzes: seq<Quiz>, submissions: seq<Submission>, code: string, user: Requester, s: Submission)
    requires user.role == "student"
    requires CheckSubmission(quizzes, submissions, code, user).Ok?
    requires s.quizId == quizzes[CheckSubmission(quizzes, submissions, code, user).value].id
    requires s.studentId == user.id
    ensures CheckSubmission(quizzes, submissions + [s], code, user) == Err(AlreadySubmitted)
    ensures GetQuizByCode(quizzes, submissions + [s], code, user.id) == Err(AlreadySubmitted)
  {
    var all := submissions + [s];
    assert all[|submissions|] == s;
    assert HasSubmission(all, s.quizId, user.id);
  }

  // ----------------------------------------------------------- getQuizResults

  datatype ResultRow = ResultRow(studentName: string, score: int, percentage: Option<int>, submittedAt: int)

  datatype QuizResults = QuizResults(topic: string, difficulty: string, totalQuestions: nat, submissions: seq<ResultRow>)

  /** One row of the results table; the percentage is relative to the quiz's question count. */
  function RowOf(s: Submission, totalQuestions: nat): ResultRow {
    ResultRow(s.studentName, s.score, Percentage(s.score, totalQuestions), s.submittedAt)
  }

  function SubmittedAt(s: Submission): int { s.submittedAt }

  function SubmissionsOfQuiz(submissions: seq<Submission>, quizId: nat): seq<Submission> {
    Filter(submissions, (s: Submission) => s.quizId == quizId)
  }

  /** The results table of quiz `q`: one row per submission of `q`, newest first. */
  function ResultRows(submissions: seq<Submission>, q: Quiz): (rows: seq<ResultRow>)
    ensures multiset(rows) == multiset(Map(SubmissionsOfQuiz(submissions, q.id), (s: Submission) => RowOf(s, |q.questions|)))
    ensures |rows| == |SubmissionsOfQuiz(submissions, q.id)|
    ensures forall i, j :: 0 <= i < j < |rows| ==> rows[i].submittedAt >= rows[j].submittedAt
  {
    var sorted := FindNewestFirst(submissions, (s: Submission) => s.quizId == q.id, SubmittedAt);
    FoundImage(submissions, (s: Submission) => s.quizId == q.id, SubmittedAt, (s: Submission) => RowOf(s, |q.questions|));
    MapKeepsOrder(sorted, SubmittedAt, (s: Submission) => RowOf(s, |q.questions|), (row: ResultRow) => row.submittedAt);
    Map(sorted, (s: Submission) => RowOf(s, |q.questions|))
  }

  /** Every row of a quiz's results table is the row of a stored submission of
      that quiz, and every stored submission of the quiz has its row there. */
  lemma ResultRowsOfQuiz(submissions: seq<Submission>, q: Quiz, rows: seq<ResultRow>)
    requires rows == ResultRows(submissions, q)
    ensures forall i :: 0 <= i < |rows| ==>
      exists s :: s in submissions && s.quizId == q.id && rows[i] == RowOf(s, |q.questions|)
    ensures forall s :: s in submissions && s.quizId == q.id ==> RowOf(s, |q.questions|) in rows
  {
    forall s | s in submissions && s.quizId == q.id
      ensures RowOf(s, |q.questions|) in rows
    {
      FilterImageHas(submissions, (s: Submission) => s.quizId == q.id, (s: Submission) => RowOf(s, |q.questions|), s);
      assert RowOf(s, |q.questions|) in multiset(rows);
    }
    var sorted := FindNewestFirst(submissions, (s: Submission) => s.quizId == q.id, SubmittedAt);
    forall i | 0 <= i < |rows|
      ensures exists s :: s in submissions && s.quizId == q.id && rows[i] == RowOf(s, |q.questions|)
    {
      var s := sorted[i];
      assert s in submissions && s.quizId == q.id && rows[i] == RowOf(s, |q.questions|);
    }
    assert forall i :: 0 <= i < |rows| ==>
      exists s :: s in submissions && s.quizId == q.id && rows[i] == RowOf(s, |q.questions|);
  }

  /** `getQuizResults`: 404 for an unknown code, 403 unless the caller is the
      quiz's teacher; otherwise one row per submission of the quiz, newest first. */
  function GetQuizResults(quizzes: seq<Quiz>, submissions: seq<Submission>, code: string, userId: nat): (r: Result<QuizResults>)
    ensures r == Err(QuizNotFound) <==> !CodeInUse(quizzes, code)
    ensures r == Err(AccessDenied) <==>
      (CodeInUse(quizzes, code) && quizzes[FindQuizByCode(quizzes, code).value].teacherId != userId)
    ensures r.Err? ==> r == Err(QuizNotFound) || r == Err(AccessDenied)
    ensures r.Ok? ==>
      var q := quizzes[FindQuizByCode(quizzes, code).value];
      && q.teacherId == userId
      && r.value == QuizResults(q.topic, q.difficulty, |q.questions|, ResultRows(submissions, q))
  {
    match FindQuizByCode(quizzes, code)
    case None => Err(QuizNotFound)
    case Some(k) =>
      var q := quizzes[k];
      if q.teacherId != userId then Err(AccessDenied)
      else Ok(QuizResults(q.topic, q.difficulty, |q.questions|, ResultRows(submissions, q)))
  }

  /** Every row of a quiz's results carries a percentage in 0..100 when the
      quiz has questions and none of its submissions scores above their number. */
  lemma ResultPercentagesInRange(submissions: seq<Submission>, q: Quiz)
    requires |q.questions| > 0
    requires forall k :: 0 <= k < |submissions| && submissions[k].quizId == q.id ==>
      0 <= submissions[k].score <= |q.questions|
    ensures var rows := ResultRows(submissions, q);
      forall i :: 0 <= i < |rows| ==> rows[i].percentage.Some? && 0 <= rows[i].percentage.value <= 100
  {
    var rows := ResultRows(submissions, q);
    ResultRowsOfQuiz(submissions, q, rows);
    forall i | 0 <= i < |rows|
      ensures rows[i].percentage.Some? && 0 <= rows[i].percentage.value <= 100
    {
      var s :| s in submissions && s.quizId == q.id && rows[i] == RowOf(s, |q.questions|);
      var k :| 0 <= k < |submissions| && submissions[k] == s;
      PercentageBounds(s.score, |q.questions|);
    }
  }

  // ------------------------------------------- getTeacherQuizzes / getStudentSubmissions

  datatype QuizSummary = QuizSummary(id: nat, topic: string, difficulty: string, shareableCode: string,
                                     createdAt: int, submissionCount: nat)

  function CreatedAt(q: Quiz): int { q.createdAt }

  function SummaryOf(q: Quiz, submissions: seq<Submission>): QuizSummary {
    QuizSummary(q.id, q.topic, q.difficulty, q.shareableCode, q.createdAt, |SubmissionsOfQuiz(submissions, q.id)|)
  }

  /** `getTeacherQuizzes`: the caller's quizzes, newest first, each with its number of submissions. */
  function GetTeacherQuizzes(quizzes: seq<Quiz>, submissions: seq<Submission>, teacherId: nat): (r: seq<QuizSummary>)
    ensures multiset(r) == multiset(Map(Filter(quizzes, (q: Quiz) => q.teacherId == teacherId), (q: Quiz) => SummaryOf(q, submissions)))
    ensures |r| == |Filter(quizzes, (q: Quiz) => q.teacherId == teacherId)|
    ensures forall i, j :: 0 <= i < j < |r| ==> r[i].createdAt >= r[j].createdAt
  {
    var mine := FindNewestFirst(quizzes, (q: Quiz) => q.teacherId == teacherId, CreatedAt);
    FoundImage(quizzes, (q: Quiz) => q.teacherId == teacherId, CreatedAt, (q: Quiz) => SummaryOf(q, submissions));
    MapKeepsOrder(mine, CreatedAt, (q: Quiz) => SummaryOf(q, submissions), (row: QuizSummary) => row.createdAt);
    Map(mine, (q: Quiz) => SummaryOf(q, submissions))
  }

  /** Every summary listed for a teacher is the summary of one of that teacher's
      stored quizzes, and every stored quiz of the teacher is listed. */
  lemma TeacherQuizzesAreOwn(quizzes: seq<Quiz>, submissions: seq<Submission>, teacherId: nat, r: seq<QuizSummary>)
    requires r == GetTeacherQuizzes(quizzes, submissions, teacherId)
    ensures forall i :: 0 <= i < |r| ==>
      exists q :: q in quizzes && q.teacherId == teacherId && r[i] == SummaryOf(q, submissions)
    ensures forall q :: q in quizzes && q.teacherId == teacherId ==> SummaryOf(q, submissions) in r
  {
    forall q | q in quizzes && q.teacherId == teacherId
      ensures SummaryOf(q, submissions) in r
    {
      FilterImageHas(quizzes, (q: Quiz) => q.teacherId == teacherId, (q: Quiz) => SummaryOf(q, submissions), q);
      assert SummaryOf(q, submissions) in multiset(r);
    }
    var mine := FindNewestFirst(quizzes, (q: Quiz) => q.teacherId == teacherId, CreatedAt);
    forall i | 0 <= i < |r|
      ensures exists q :: q in quizzes && q.teacherId == teacherId && r[i] == SummaryOf(q, submissions)
    {
      var q := mine[i];
      assert q in quizzes && q.teacherId == teacherId && r[i] == SummaryOf(q, submissions);
    }
    assert forall i :: 0 <= i < |r| ==>
      exists q :: q in quizzes && q.teacherId == teacherId && r[i] == SummaryOf(q, submissions);
  }

  datatype StudentResult = StudentResult(quizTopic: string, quizDifficulty: string, score: int,
                                         totalQuestions: nat, percentage: Option<int>, submittedAt: int)

  /** One row of a student's history: the quiz's topic and difficulty (with the
      fallbacks used for a deleted quiz), and a percentage relative to the
      number of answers the student sent. */
  function StudentRowOf(quizzes: seq<Quiz>, s: Submission): (r: StudentResult)
    ensures r.score == s.score && r.submittedAt == s.submittedAt
    ensures r.totalQuestions == |s.answers| && r.percentage == Percentage(s.score, |s.answers|)
    ensures var k := FindQuizById(quizzes, s.quizId);
      && (k.Some? && quizzes[k.value].topic != "" ==> r.quizTopic == quizzes[k.value].topic)
      && (k.Some? && quizzes[k.value].difficulty != "" ==> r.quizDifficulty == quizzes[k.value].difficulty)
      && (k.None? || quizzes[k.value].topic == "" ==> r.quizTopic == "Deleted Quiz")
      && (k.None? || quizzes[k.value].difficulty == "" ==> r.quizDifficulty == "N/A")
  {
    var quiz := FindQuizById(quizzes, s.quizId);
    var topic := if quiz.Some? && quizzes[quiz.value].topic != "" then quizzes[quiz.value].topic else "Deleted Quiz";
    var difficulty := if quiz.Some? && quizzes[quiz.value].difficulty != "" then quizzes[quiz.value].difficulty else "N/A";
    StudentResult(topic, difficulty, s.score, |s.answers|,
                  Percentage(s.score, |s.answers|), s.submittedAt)
  }

  /** As written, no stored quiz has a difficulty (the schema drops it; an
      absent field is ""), so every row of a student's history shows "N/A". */
  lemma StudentDifficultyAsWritten(quizzes: seq<Quiz>, s: Submission)
    requires forall k :: 0 <= k < |quizzes| ==> quizzes[k].difficulty == ""
    ensures StudentRowOf(quizzes, s).quizDifficulty == "N/A"
  {
  }

  /** `getStudentSubmissions`: the caller's submissions, newest first. */
  function GetStudentSubmissions(quizzes: seq<Quiz>, submissions: seq<Submission>, studentId: nat): (r: seq<StudentResult>)
    ensures multiset(r) == multiset(Map(Filter(submissions, (s: Submission) => s.studentId == studentId), (s: Submission) => StudentRowOf(quizzes, s)))
    ensures |r| == |Filter(submissions, (s: Submission) => s.studentId == studentId)|
    ensures forall i, j :: 0 <= i < j < |r| ==> r[i].submittedAt >= r[j].submittedAt
  {
    var mine := FindNewestFirst(submissions, (s: Submission) => s.studentId == studentId, SubmittedAt);
    FoundImage(submissions, (s: Submission) => s.studentId == studentId, SubmittedAt, (s: Submission) => StudentRowOf(quizzes, s));
    MapKeepsOrder(mine, SubmittedAt, (s: Submission) => StudentRowOf(quizzes, s), (row: StudentResult) => row.submittedAt);
    Map(mine, (s: Submission) => StudentRowOf(quizzes, s))
  }

  /** Every row of a student's history is the row of one of that student's
      stored submissions, and every stored submission of the student has its row. */
  lemma StudentResultsAreOwn(quizzes: seq<Quiz>, submissions: seq<Submission>, studentId: nat, r: seq<StudentResult>)
    requires r == GetStudentSubmissions(quizzes, submissions, studentId)
    ensures forall i :: 0 <= i < |r| ==>
      exists s :: s in submissions && s.studentId == studentId && r[i] == StudentRowOf(quizzes, s)
    ensures forall s :: s in submissions && s.studentId == studentId ==> StudentRowOf(quizzes, s) in r
  {
    forall s | s in submissions && s.studentId == studentId
      ensures StudentRowOf(quizzes, s) in r
    {
      FilterImageHas(submissions, (s: Submission) => s.studentId == studentId, (s: Submission) => StudentRowOf(quizzes, s), s);
      assert StudentRowOf(quizzes, s) in multiset(r);
    }
    var mine := FindNewestFirst(submissions, (s: Submission) => s.studentId == studentId, SubmittedAt);
    forall i | 0 <= i < |r|
      ensures exists s :: s in submissions && s.studentId == studentId && r[i] == StudentRowOf(quizzes, s)
    {
      var s := mine[i];
      assert s in submissions && s.studentId == studentId && r[i] == StudentRowOf(quizzes, s);
    }
    assert forall i :: 0 <= i < |r| ==>
      exists s :: s in submissions && s.studentId == studentId && r[i] == StudentRowOf(quizzes, s);
  }

  // ------------------------------------------------------------- generateQuiz

  /** What is sent to the language model: the prompt's parameters and the sampling temperature in tenths. */
  datatype GenerationRequest = GenerationRequest(topic: string, questionCount: int, difficulty: string, temperatureTenths: nat)

  /** The model's HTTP response: the call failed, or it answered, with or
      without `choices[0].message.content`. */
  datatype ModelReply = CallFailed | Answered(content: Option<string>)

  /** What `JSON.parse` gives, as far as the handler reads it: `null`, on which
      reading `.questions` throws, or a value whose `questions` the quiz is built from. */
  datatype ParsedReply = JsonNull | JsonValue(questions: seq<Question>)

  datatype GeneratedQuiz = GeneratedQuiz(quizId: nat, shareableCode: string, topic: string,
                                         difficulty: string, questions: seq<Question>)

  /** The request built from the body's fields after defaulting. */
  function RequestFor(topic: Option<string>, numQuestions: Option<int>, difficulty: Option<string>): (req: GenerationRequest)
    ensures req.topic == StringOr(topic, "general knowledge")
    ensures req.questionCount == NumberOr(numQuestions, 5)
    ensures req.difficulty == StringOr(difficulty, "medium")
    ensures req.temperatureTenths == (if req.difficulty == "hard" then 9 else 7)
  {
    var d := StringOr(difficulty, "medium");
    GenerationRequest(StringOr(topic, "general knowledge"), NumberOr(numQuestions, 5), d, if d == "hard" then 9 else 7)
  }

  /** The questions in the model's reply: a failed call is "Failed to generate
      quiz"; a reply without content, or whose content does not parse once its
      fences are stripped, is "Failed to parse AI response"; content that parses
      to `null` makes the read of `quizData.questions` throw, which the outer
      handler answers with "Failed to generate quiz". */
  function ReadReply(reply: ModelReply, parse: string -> Option<ParsedReply>): (r: Result<seq<Question>>)
    ensures r == Err(GenerateFailed) <==>
      reply.CallFailed? || (reply.content.Some? && parse(StripFences(reply.content.value)) == Some(JsonNull))
    ensures r == Err(ParseFailed) <==>
      reply.Answered? && (reply.content.None? || parse(StripFences(reply.content.value)).None?)
    ensures r.Ok? <==>
      reply.Answered? && reply.content.Some? && parse(StripFences(reply.content.value)).Some?
      && parse(StripFences(reply.content.value)).value.JsonValue?
    ensures r.Ok? ==> parse(StripFences(reply.content.value)) == Some(JsonValue(r.value))
  {
    if reply.CallFailed? then Err(GenerateFailed)
    else if reply.content.None? then Err(ParseFailed)
    else
      match parse(StripFences(reply.content.value))
      case None => Err(ParseFailed)
      case Some(JsonNull) => Err(GenerateFailed)
      case Some(JsonValue(questions)) => Ok(questions)
  }

  /** The index of the first random draw that no stored quiz uses. */
  ghost function FirstFreeDraw(quizzes: seq<Quiz>, draws: seq<string>): (k: nat)
    requires exists i :: 0 <= i < |draws| && !CodeInUse(quizzes, draws[i])
    ensures k < |draws| && !CodeInUse(quizzes, draws[k])
    ensures forall j :: 0 <= j < k ==> CodeInUse(quizzes, draws[j])
  {
    if !CodeInUse(quizzes, draws[0]) then 0
    else
      assert exists i :: 0 <= i < |draws[1..]| && !CodeInUse(quizzes, draws[1..][i]) by {
        var i :| 0 <= i < |draws| && !CodeInUse(quizzes, draws[i]);
        assert draws[1..][i - 1] == draws[i];
      }
      1 + FirstFreeDraw(quizzes, draws[1..])
  }

  /** The `while (!isUnique)` loop: draws codes from the random source until one
      is not used by any stored quiz. `draws` is the sequence the random source
      produces; it is assumed to contain an unused code eventually. */
  method PickShareCode(quizzes: seq<Quiz>, draws: seq<string>) returns (code: string)
    requires exists i :: 0 <= i < |draws| && !CodeInUse(quizzes, draws[i])
    ensures !CodeInUse(quizzes, code)
    ensures code == draws[FirstFreeDraw(quizzes, draws)]
  {
    ghost var first := FirstFreeDraw(quizzes, draws);
    var isUnique := false;
    var attempt := 0;
    code := "";
    while !isUnique
      invariant !isUnique ==> attempt <= first
      invariant isUnique ==> attempt == first + 1 && code == draws[first]
      decreases |draws| - attempt
    {
      code := draws[attempt];
      if !CodeInUse(quizzes, code) {
        isUnique := true;
      }
      attempt := attempt + 1;
    }
  }

  /** Every stored document passed its schema's validators, quiz codes and ids
      are unique, every id (and every id a submission refers to) is below the
      next fresh one, and no score exceeds its quiz's question count. */
  predicate StoreInvariant(quizzes: seq<Quiz>, submissions: seq<Submission>, nextId: nat) {
    && (forall i :: 0 <= i < |quizzes| ==> ValidQuiz(quizzes[i]) && quizzes[i].id < nextId)
    && UniqueCodes(quizzes)
    && UniqueQuizIds(quizzes)
    && (forall i :: 0 <= i < |submissions| ==>
          ValidSubmission(submissions[i]) && submissions[i].id < nextId && submissions[i].quizId < nextId)
    && ScoresWithinQuiz(quizzes, submissions)
  }

  /** Saving a valid quiz under the next fresh id and an unused code keeps the invariant. */
  lemma SaveQuizKeepsInvariant(quizzes: seq<Quiz>, submissions: seq<Submission>, nextId: nat, q: Quiz)
    requires StoreInvariant(quizzes, submissions, nextId)
    requires ValidQuiz(q) && q.id == nextId && !CodeInUse(quizzes, q.shareableCode)
    ensures StoreInvariant(quizzes + [q], submissions, nextId + 1)
  {
    AppendFreshCode(quizzes, q);
    var all := quizzes + [q];
    assert forall j :: 0 <= j < |quizzes| ==> all[j] == quizzes[j];
  }

  /** Saving a valid submission for stored quiz `k`, under the next fresh id and
      with a score of at most its question count, keeps the invariant. */
  lemma SaveSubmissionKeepsInvariant(quizzes: seq<Quiz>, submissions: seq<Submission>, nextId: nat, k: nat, s: Submission)
    requires StoreInvariant(quizzes, submissions, nextId)
    requires k < |quizzes| && s.quizId == quizzes[k].id && s.score <= |quizzes[k].questions|
    requires ValidSubmission(s) && s.id == nextId
    ensures StoreInvariant(quizzes, submissions + [s], nextId + 1)
  {
    var all := submissions + [s];
    assert forall i :: 0 <= i < |submissions| ==> all[i] == submissions[i];
  }

  class QuizStore {
    var quizzes: seq<Quiz>
    var submissions: seq<Submission>
    /** The next fresh document id. */
    var nextId: nat

    ghost predicate Valid()
      reads this
    {
      StoreInvariant(quizzes, submissions, nextId)
    }

    constructor ()
      ensures Valid() && quizzes == [] && submissions == []
    {
      quizzes, submissions, nextId := [], [], 0;
    }

    /** `generateQuiz`: default the inputs, ask the model, strip code fences and
        parse the reply, pick an unused share code and save the quiz. Every
        failure answers 500 and stores nothing. */
    method GenerateQuiz(teacherId: nat, topic: Option<string>, numQuestions: Option<int>, difficulty: Option<string>,
                        model: GenerationRequest -> ModelReply, parse: string -> Option<ParsedReply>,
                        draws: seq<string>, now: int)
      returns (r: Result<GeneratedQuiz>)
      requires Valid()
      requires exists i :: 0 <= i < |draws| && !CodeInUse(quizzes, draws[i])
      modifies this
      ensures Valid()
      ensures submissions == old(submissions)
      ensures r.Err? ==> quizzes == old(quizzes) && nextId == old(nextId)
      ensures var req := RequestFor(topic, numQuestions, difficulty);
        var parsed := ReadReply(model(req), parse);
        if parsed.Err? then r == Err(parsed.err)
        else
          var code := draws[FirstFreeDraw(old(quizzes), draws)];
          var quiz := NewQuiz(old(nextId), teacherId, req.topic, req.difficulty, parsed.value, code, now);
          if ValidQuiz(quiz) then
            && r == Ok(GeneratedQuiz(old(nextId), code, req.topic, req.difficulty, parsed.value))
            && quizzes == old(quizzes) + [quiz]
            && nextId == old(nextId) + 1
            && !CodeInUse(old(quizzes), code)
          else
            r == Err(GenerateFailed)
    {
      var req := RequestFor(topic, numQuestions, difficulty);
      var parsed := ReadReply(model(req), parse);
      if parsed.Err? {
        return Err(parsed.err);
      }
      r := SaveGenerated(teacherId, req.topic, req.difficulty, parsed.value, draws, now);
    }

    /** The end of `generateQuiz` once the reply has parsed: pick an unused share
        code, build the quiz document and save it, or answer 500 when the schema
        refuses it. */
    method SaveGenerated(teacherId: nat, topic: string, difficulty: string, questions: seq<Question>,
                         draws: seq<string>, now: int)
      returns (r: Result<GeneratedQuiz>)
      requires Valid()
      requires exists i :: 0 <= i < |draws| && !CodeInUse(quizzes, draws[i])
      modifies this
      ensures Valid()
      ensures submissions == old(submissions)
      ensures var code := draws[FirstFreeDraw(old(quizzes), draws)];
        var quiz := NewQuiz(old(nextId), teacherId, topic, difficulty, questions, code, now);
        if ValidQuiz(quiz) then
          && r == Ok(GeneratedQuiz(old(nextId), code, topic, difficulty, questions))
          && quizzes == old(quizzes) + [quiz]
          && nextId == old(nextId) + 1
          && !CodeInUse(old(quizzes), code)
        else
          r == Err(GenerateFailed) && quizzes == old(quizzes) && nextId == old(nextId)
    {
      var code := PickShareCode(quizzes, draws);
      var quiz := NewQuiz(nextId, teacherId, topic, difficulty, questions, code, now);
      if !ValidQuiz(quiz) {
        // `newQuiz.save()` rejects the document; the outer handler answers 500.
        return Err(GenerateFailed);
      }
      SaveQuizKeepsInvariant(quizzes, submissions, nextId, quiz);
      quizzes := quizzes + [quiz];
      nextId := nextId + 1;
      r := Ok(GeneratedQuiz(quiz.id, code, topic, difficulty, questions));
    }

    /** `submitQuiz`: the two guards, the scoring loop, the save, and the response
        with score, total, percentage and XP. A refused request stores nothing. */
    method SubmitQuiz(code: string, user: Requester, answers: seq<string>, now: int) returns (r: Result<SubmitResponse>)
      requires Valid()
      modifies this
      ensures Valid()
      ensures quizzes == old(quizzes)
      ensures r.Err? ==> submissions == old(submissions) && nextId == old(nextId)
      ensures CheckSubmission(old(quizzes), old(submissions), code, user).Err? ==>
        r == Err(CheckSubmission(old(quizzes), old(submissions), code, user).err)
      ensures CheckSubmission(old(quizzes), old(submissions), code, user).Ok? ==>
        var q := quizzes[CheckSubmission(old(quizzes), old(submissions), code, user).value];
        var score := Score(q.questions, answers);
        var s := NewSubmission(old(nextId), q.id, user.id, user.name, answers, score, now);
        if ValidSubmission(s) then
          && r == Ok(SubmitResponse(score, |q.questions|, Percentage(score, |q.questions|), XpEarned(Some(q.difficulty), score)))
          && submissions == old(submissions) + [s]
          && nextId == old(nextId) + 1
        else
          r == Err(SubmitFailed)
    {
      var check := CheckSubmission(quizzes, submissions, code, user);
      if check.Err? {
        return Err(check.err);
      }
      var quiz := quizzes[check.value];
      var score := ScoreAnswers(quiz.questions, answers);
      var submission := NewSubmission(nextId, quiz.id, user.id, user.name, answers, score, now);
      if !ValidSubmission(submission) {
        // `submission.save()` rejects a blank name; the outer handler answers 500.
        return Err(SubmitFailed);
      }
      SaveSubmissionKeepsInvariant(quizzes, submissions, nextId, check.value, submission);
      submissions := submissions + [submission];
      nextId := nextId + 1;
      var total := |quiz.questions|;
      r := Ok(SubmitResponse(score, total, Percentage(score, total), XpEarned(Some(quiz.difficulty), score)));
    }
  }

  /** What a successful submission reports: a score between 0 and the number of
      questions, a percentage in 0..100 when there are questions, and exact XP. */
  lemma SubmitResponseInRange(questions: seq<Question>, answers: seq<string>, difficulty: string)
    requires |questions| > 0
    ensures var score := Score(questions, answers);
      && score <= |questions|
      && Percentage(score, |questions|).Some?
      && 0 <= Percentage(score, |questions|).value <= 100
      && XpEarned(Some(difficulty), score) == score * XpPerCorrectAnswer(Some(difficulty))
  {
    var score := Score(questions, answers);
    PercentageBounds(score, |questions|);
    XpEarnedExact(Some(difficulty), score);
  }
}
