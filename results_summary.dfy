/** The summary figures of the two results pages (client/src/pages/QuizResults.jsx
    and client/src/pages/TeacherResults.jsx) over the rows `getQuizResults`
    returns: the number of submissions and the rounded average percentage. */
module ResultsSummary {
  import opened Js
  import opened Records
  import opened Query
  import opened QuizController

  /** A row's contribution to the sum: `sum + null` adds 0 in JavaScript. */
  function PercentValue(p: Option<int>): int {
    if p.Some? then p.value else 0
  }

  /** `reduce((sum, s) => sum + s.percentage, 0)`, folding from the left. */
  function SumPercentages(ps: seq<Option<int>>): int {
    if ps == [] then 0 else SumPercentages(ps[..|ps| - 1]) + PercentValue(ps[|ps| - 1])
  }

  predicate InPercentRange(ps: seq<Option<int>>) {
    forall i :: 0 <= i < |ps| ==> ps[i].Some? ==> 0 <= ps[i].value <= 100
  }

  /** The sum of percentages in 0..100 lies between 0 and 100 per row. */
  lemma {:induction false} SumBounds(ps: seq<Option<int>>)
    requires InPercentRange(ps)
    ensures 0 <= SumPercentages(ps) <= 100 * |ps|
  {
    if ps != [] {
      SumBounds(ps[..|ps| - 1]);
    }
  }

  /** `n` rows of the same percentage sum to `n` times it. */
  lemma {:induction false} SumOfEqual(ps: seq<Option<int>>, v: int)
    requires forall i :: 0 <= i < |ps| ==> ps[i] == Some(v)
    ensures SumPercentages(ps) == |ps| * v
  {
    if ps != [] {
      SumOfEqual(ps[..|ps| - 1], v);
    }
  }

  /** `averageScore` of the quiz results page: 0 without submissions, else the
      rounded mean of the percentages. */
  function AverageScore(ps: seq<Option<int>>): (r: int)
    ensures ps == [] ==> r == 0
  {
    if |ps| > 0 then RoundRatio(SumPercentages(ps), |ps|) else 0
  }

  /** The average lies in 0..100 whenever every percentage does. */
  lemma AverageInRange(ps: seq<Option<int>>)
    requires InPercentRange(ps)
    ensures 0 <= AverageScore(ps) <= 100
  {
    if |ps| > 0 {
      SumBounds(ps);
      RoundRatioMonotone(0, SumPercentages(ps), |ps|);
      RoundRatioMonotone(SumPercentages(ps), 100 * |ps|, |ps|);
      RoundRatioOfMultiple(0, |ps|);
      RoundRatioOfMultiple(100, |ps|);
    }
  }

  /** When every submission has the same percentage, that is the average. */
  lemma AverageOfEqual(ps: seq<Option<int>>, v: int)
    requires |ps| > 0 && forall i :: 0 <= i < |ps| ==> ps[i] == Some(v)
    ensures AverageScore(ps) == v
  {
    SumOfEqual(ps, v);
    RoundRatioOfMultiple(v, |ps|);
  }

  /** The teacher page's average: shown only when there is a submission, and
      then the same rounded mean. */
  function TeacherAverage(ps: seq<Option<int>>): (r: Option<int>)
    ensures r.None? <==> ps == []
    ensures r.Some? ==> r.value == AverageScore(ps)
  {
    if |ps| > 0 then Some(RoundRatio(SumPercentages(ps), |ps|)) else None
  }

  /** The percentage column of the results rows. */
  function Percentages(rows: seq<ResultRow>): seq<Option<int>> {
    Map(rows, (row: ResultRow) => row.percentage)
  }

  /** "Total Submissions": the length of the list. */
  function TotalSubmissions(results: QuizResults): nat {
    |results.submissions|
  }

  /** On results served from a consistent store, the submission count shown is
      the number of submissions stored for the quiz and the average lies in 0..100. */
  lemma ResultsPageFigures(quizzes: seq<Quiz>, submissions: seq<Submission>, nextId: nat, code: string, userId: nat)
    requires StoreInvariant(quizzes, submissions, nextId)
    requires GetQuizResults(quizzes, submissions, code, userId).Ok?
    ensures var results := GetQuizResults(quizzes, submissions, code, userId).value;
      && TotalSubmissions(results) == |SubmissionsOfQuiz(submissions, quizzes[FindQuizByCode(quizzes, code).value].id)|
      && 0 <= AverageScore(Percentages(results.submissions)) <= 100
  {
    var k := FindQuizByCode(quizzes, code).value;
    var q := quizzes[k];
    var rows := ResultRows(submissions, q);
    ResultRowsOfQuiz(submissions, q, rows);
    if |q.questions| > 0 {
      assert forall i :: 0 <= i < |submissions| && submissions[i].quizId == q.id ==>
        0 <= submissions[i].score <= |q.questions| by {
        forall i | 0 <= i < |submissions| && submissions[i].quizId == q.id
          ensures 0 <= submissions[i].score <= |q.questions|
        {
          assert quizzes[k].id == submissions[i].quizId;
        }
      }
      ResultPercentagesInRange(submissions, q);
    } else {
      assert forall i :: 0 <= i < |rows| ==> rows[i].percentage.None? by {
        forall i | 0 <= i < |rows| ensures rows[i].percentage.None? {
          var s :| s in submissions && s.quizId == q.id && rows[i] == RowOf(s, |q.questions|);
        }
      }
    }
    AverageInRange(Percentages(rows));
  }
}
