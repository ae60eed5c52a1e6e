/** The 80/60 thresholds the client pages apply to a percentage: the message
    after a submission (client/src/pages/QuizTaking.jsx,
    client/quizWhiz-client/src/pages/TakeQuiz.jsx and
    client/quizWhiz-client/src/QuizGenerator.jsx) and the status badges of the
    two results pages (client/src/pages/QuizResults.jsx and
    client/src/pages/TeacherResults.jsx). A `null` percentage, which the server
    sends for a quiz without questions, compares false with both thresholds and
    lands in the lowest band. */
module Feedback {
  import opened Js
  import opened Records
  import opened Grading

  datatype Band = Excellent | Good | NeedsPractice

  /** `p >= 80 ? … : p >= 60 ? … : …`. */
  function BandOf(p: Option<int>): (b: Band)
    ensures b == Excellent <==> p.Some? && p.value >= 80
    ensures b == Good <==> p.Some? && 60 <= p.value < 80
    ensures b == NeedsPractice <==> p.None? || p.value < 60
  {
    if p.Some? && p.value >= 80 then Excellent
    else if p.Some? && p.value >= 60 then Good
    else NeedsPractice
  }

  function Rank(b: Band): nat {
    match b
    case NeedsPractice => 0
    case Good => 1
    case Excellent => 2
  }

  /** A higher percentage never earns a lower band. */
  lemma BandMonotone(p: int, q: int)
    requires p <= q
    ensures Rank(BandOf(Some(p))) <= Rank(BandOf(Some(q)))
  {
  }

  /** The message of the newer quiz-taking page. */
  function TakingMessage(p: Option<int>): (m: string)
    ensures m == "Excellent work! \U{1F31F}" <==> BandOf(p) == Excellent
    ensures m == "Good job! \U{1F44D}" <==> BandOf(p) == Good
    ensures m == "Keep practicing! \U{1F4AA}" <==> BandOf(p) == NeedsPractice
  {
    match BandOf(p)
    case Excellent => "Excellent work! \U{1F31F}"
    case Good => "Good job! \U{1F44D}"
    case NeedsPractice => "Keep practicing! \U{1F4AA}"
  }

  /** The message of the older quiz-taking page and of the generator's preview. */
  function PlainMessage(p: Option<int>): (m: string)
    ensures m == "Excellent work!" <==> BandOf(p) == Excellent
    ensures m == "Good job!" <==> BandOf(p) == Good
    ensures m == "Keep practicing!" <==> BandOf(p) == NeedsPractice
  {
    match BandOf(p)
    case Excellent => "Excellent work!"
    case Good => "Good job!"
    case NeedsPractice => "Keep practicing!"
  }

  /** The status badge colours of a row on the quiz results page. */
  function ResultsBadge(p: Option<int>): (c: string)
    ensures c == "bg-green-500/20 text-green-400" <==> BandOf(p) == Excellent
    ensures c == "bg-yellow-500/20 text-yellow-400" <==> BandOf(p) == Good
    ensures c == "bg-red-500/20 text-red-400" <==> BandOf(p) == NeedsPractice
  {
    match BandOf(p)
    case Excellent => "bg-green-500/20 text-green-400"
    case Good => "bg-yellow-500/20 text-yellow-400"
    case NeedsPractice => "bg-red-500/20 text-red-400"
  }

  /** The percentage badge class of a row on the teacher's results page. */
  function TeacherBadge(p: Option<int>): (c: string)
    ensures c == "excellent" <==> BandOf(p) == Excellent
    ensures c == "good" <==> BandOf(p) == Good
    ensures c == "needs-improvement" <==> BandOf(p) == NeedsPractice
  {
    match BandOf(p)
    case Excellent => "excellent"
    case Good => "good"
    case NeedsPractice => "needs-improvement"
  }

  /** A submission that answers every question correctly is reported as
      excellent; one that answers none correctly, as needing practice. */
  lemma GradedBands(questions: seq<Question>, answers: seq<string>)
    requires |questions| > 0
    ensures (forall i :: 0 <= i < |questions| ==> AnsweredCorrectly(questions, answers, i)) ==>
      BandOf(Percentage(Score(questions, answers), |questions|)) == Excellent
    ensures Score(questions, answers) == 0 ==>
      BandOf(Percentage(Score(questions, answers), |questions|)) == NeedsPractice
  {
    FullMarksIff(questions, answers, |questions|);
    PercentageBounds(Score(questions, answers), |questions|);
  }
}
