/** The two stored documents of the quiz service, Quiz and Submission, with
    what their schemas do on save: the `trim` setters that rewrite a string
    before it is stored, and the `required`, `min` and custom validators that
    refuse a document. Identifiers (Mongo ObjectIds) are natural numbers and
    dates are integer timestamps. A string field that was not supplied is
    represented by the empty string, which a `required` string validator
    refuses just as it refuses a missing value. */
module Records {
  import opened Js

  datatype Question = Question(question: string, options: seq<string>, correctAnswer: string)

  /** A stored quiz. The schema as written has no `difficulty` path; this model
      keeps one (see the difficulty finding in Grading). */
  datatype Quiz = Quiz(
    id: nat,
    teacherId: nat,
    topic: string,
    difficulty: string,
    questions: seq<Question>,
    shareableCode: string,
    createdAt: int)

  datatype Submission = Submission(
    id: nat,
    quizId: nat,
    studentId: nat,
    studentName: string,
    answers: seq<string>,
    score: int,
    submittedAt: int)

  /** A question passes its validators: text and correct answer present, exactly four options. */
  predicate ValidQuestion(q: Question) {
    q.question != "" && |q.options| == 4 && q.correctAnswer != ""
  }

  /** A quiz passes its validators: topic present (after trimming), every question valid, code present. */
  predicate ValidQuiz(q: Quiz) {
    && q.topic != "" && IsTrimmed(q.topic)
    && (forall i :: 0 <= i < |q.questions| ==> ValidQuestion(q.questions[i]))
    && q.shareableCode != ""
  }

  /** A submission passes its validators: name present (after trimming) and score not negative. */
  predicate ValidSubmission(s: Submission) {
    s.studentName != "" && IsTrimmed(s.studentName) && s.score >= 0
  }

  /** The document `new Quiz({...})` builds: the topic goes through the schema's `trim` setter. */
  function NewQuiz(id: nat, teacherId: nat, topic: string, difficulty: string,
                   questions: seq<Question>, code: string, now: int): (q: Quiz)
    ensures q.topic == Trim(topic) && IsTrimmed(q.topic)
    ensures q.id == id && q.teacherId == teacherId && q.questions == questions
    ensures q.shareableCode == code && q.difficulty == difficulty && q.createdAt == now
  {
    Quiz(id, teacherId, Trim(topic), difficulty, questions, code, now)
  }

  /** The document `new Submission({...})` builds: the name goes through the schema's `trim` setter. */
  function NewSubmission(id: nat, quizId: nat, studentId: nat, name: string,
                         answers: seq<string>, score: int, now: int): (s: Submission)
    ensures s.studentName == Trim(name) && IsTrimmed(s.studentName)
    ensures s.id == id && s.quizId == quizId && s.studentId == studentId
    ensures s.answers == answers && s.score == score && s.submittedAt == now
  {
    Submission(id, quizId, studentId, Trim(name), answers, score, now)
  }

  /** Saving a freshly built quiz succeeds exactly when the trimmed topic is not
      blank, every question is complete with four options and the code is present. */
  lemma NewQuizValid(id: nat, teacherId: nat, topic: string, difficulty: string,
                     questions: seq<Question>, code: string, now: int)
    ensures ValidQuiz(NewQuiz(id, teacherId, topic, difficulty, questions, code, now))
        <==> (!AllWhitespace(topic)
              && (forall i :: 0 <= i < |questions| ==> ValidQuestion(questions[i]))
              && code != "")
  {
    TrimEmptyIffBlank(topic);
  }

  /** Saving a freshly built submission with a non-negative score succeeds exactly
      when the name is not blank. */
  lemma NewSubmissionValid(id: nat, quizId: nat, studentId: nat, name: string,
                           answers: seq<string>, score: nat, now: int)
    ensures ValidSubmission(NewSubmission(id, quizId, studentId, name, answers, score, now))
        <==> !AllWhitespace(name)
  {
    TrimEmptyIffBlank(name);
  }

  /** The `unique` index on `shareableCode`: no two stored quizzes share a code. */
  predicate UniqueCodes(quizzes: seq<Quiz>) {
    forall i, j :: 0 <= i < j < |quizzes| ==> quizzes[i].shareableCode != quizzes[j].shareableCode
  }

  predicate CodeInUse(quizzes: seq<Quiz>, code: string) {
    exists i :: 0 <= i < |quizzes| && quizzes[i].shareableCode == code
  }

  /** Appending a quiz whose code is not in use keeps the codes unique. */
  lemma AppendFreshCode(quizzes: seq<Quiz>, q: Quiz)
    requires UniqueCodes(quizzes) && !CodeInUse(quizzes, q.shareableCode)
    ensures UniqueCodes(quizzes + [q])
  {
    var all := quizzes + [q];
    forall i, j | 0 <= i < j < |all|
      ensures all[i].shareableCode != all[j].shareableCode
    {
      if j == |quizzes| {
        assert all[i] == quizzes[i];
      }
    }
  }

  /** No two stored quizzes share an id. */
  predicate UniqueQuizIds(quizzes: seq<Quiz>) {
    forall i, j :: 0 <= i < j < |quizzes| ==> quizzes[i].id != quizzes[j].id
  }

  /** Every stored score is at most the question count of the quiz it was made for. */
  predicate ScoresWithinQuiz(quizzes: seq<Quiz>, submissions: seq<Submission>) {
    forall i, j :: 0 <= i < |submissions| && 0 <= j < |quizzes| && quizzes[j].id == submissions[i].quizId ==>
      submissions[i].score <= |quizzes[j].questions|
  }
}
