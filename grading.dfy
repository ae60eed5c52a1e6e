/** How a submission is graded (server/controllers/quizController.js, lines
    145-170): one point per question whose submitted answer is exactly the
    stored correct answer, a rounded percentage of the question count, and
    experience points scaled by the quiz's difficulty. */
module Grading {
  import opened Js
  import opened Records

  /** `answers[i] === questions[i].correctAnswer`; an index past the end of
      `answers` reads `undefined`, which equals no string. */
  predicate AnsweredCorrectly(questions: seq<Question>, answers: seq<string>, i: nat)
    requires i < |questions|
  {
    i < |answers| && answers[i] == questions[i].correctAnswer
  }

  /** Points earned on the first `n` questions. */
  function CorrectUpTo(questions: seq<Question>, answers: seq<string>, n: nat): (r: nat)
    requires n <= |questions|
    ensures r <= n
  {
    if n == 0 then 0
    else CorrectUpTo(questions, answers, n - 1) + (if AnsweredCorrectly(questions, answers, n - 1) then 1 else 0)
  }

  /** The score of `answers` against the quiz's questions. */
  function Score(questions: seq<Question>, answers: seq<string>): nat {
    CorrectUpTo(questions, answers, |questions|)
  }

  /** The indices that earn a point when the submission is scored. */
  function CorrectIndices(questions: seq<Question>, answers: seq<string>, n: nat): set<nat>
    requires n <= |questions|
  {
    set i: nat | i < n && AnsweredCorrectly(questions, answers, i)
  }

  /** The scoring loop of `submitQuiz`: walks the questions in order and counts
      the exact matches. */
  method ScoreAnswers(questions: seq<Question>, answers: seq<string>) returns (score: nat)
    ensures score == Score(questions, answers)
    ensures score <= |questions|
  {
    score := 0;
    for index := 0 to |questions|
      invariant score == CorrectUpTo(questions, answers, index)
    {
      if index < |answers| && answers[index] == questions[index].correctAnswer {
        score := score + 1;
      }
    }
  }

  /** The score is the number of questions answered correctly. */
  lemma {:induction false} ScoreCountsCorrectIndices(questions: seq<Question>, answers: seq<string>, n: nat)
    requires n <= |questions|
    ensures CorrectUpTo(questions, answers, n) == |CorrectIndices(questions, answers, n)|
  {
    if n > 0 {
      ScoreCountsCorrectIndices(questions, answers, n - 1);
      var before := CorrectIndices(questions, answers, n - 1);
      if AnsweredCorrectly(questions, answers, n - 1) {
        assert CorrectIndices(questions, answers, n) == before + {n - 1};
      } else {
        assert CorrectIndices(questions, answers, n) == before;
      }
    }
  }

  /** Answers beyond the last question are never looked at. */
  lemma {:induction false} ScoreIgnoresExtraAnswers(questions: seq<Question>, answers: seq<string>, extra: seq<string>, n: nat)
    requires n <= |questions| <= |answers|
    ensures CorrectUpTo(questions, answers + extra, n) == CorrectUpTo(questions, answers, n)
  {
    if n > 0 {
      ScoreIgnoresExtraAnswers(questions, answers, extra, n - 1);
      assert (answers + extra)[n - 1] == answers[n - 1];
    }
  }

  /** Full marks exactly when every question is answered correctly. */
  lemma {:induction false} FullMarksIff(questions: seq<Question>, answers: seq<string>, n: nat)
    requires n <= |questions|
    ensures CorrectUpTo(questions, answers, n) == n
        <==> forall i :: 0 <= i < n ==> AnsweredCorrectly(questions, answers, i)
  {
    if n > 0 {
      FullMarksIff(questions, answers, n - 1);
    }
  }

  /** `Math.round((score / total) * 100)`: absent (JavaScript's NaN, sent as
      `null`) when there are no questions. */
  function Percentage(score: int, total: nat): Option<int> {
    if total == 0 then None else Some(RoundRatio(100 * score, total))
  }

  /** A percentage of at most full marks lies in 0..100, is 0 for no points and 100 for full marks. */
  lemma PercentageBounds(score: nat, total: nat)
    requires 0 < total && score <= total
    ensures Percentage(score, total).Some?
    ensures 0 <= Percentage(score, total).value <= 100
    ensures score == 0 ==> Percentage(score, total).value == 0
    ensures score == total ==> Percentage(score, total).value == 100
  {
    RoundRatioMonotone(0, 100 * score, total);
    RoundRatioMonotone(100 * score, 100 * total, total);
    RoundRatioOfMultiple(0, total);
    RoundRatioOfMultiple(100, total);
    assert 100 * total == 100 * total;
  }

  /** The XP multiplier read from `quiz.difficulty`, counted in halves:
      2 for "hard", 1.5 for "medium" and 1 for anything else, `undefined` included. */
  function XpMultiplierHalves(difficulty: Option<string>): nat {
    if difficulty == Some("hard") then 4
    else if difficulty == Some("medium") then 3
    else 2
  }

  /** `Math.round(score * 10 * xpMultiplier)`. */
  function XpEarned(difficulty: Option<string>, score: nat): int {
    RoundRatio(score * 10 * XpMultiplierHalves(difficulty), 2)
  }

  /** Experience points per correct answer, the rule the multiplier encodes. */
  function XpPerCorrectAnswer(difficulty: Option<string>): nat {
    match difficulty
    case Some("hard") => 20
    case Some("medium") => 15
    case _ => 10
  }

  /** The rounding in `xpEarned` never has anything to round: the result is
      exactly 20, 15 or 10 points per correct answer. */
  lemma XpEarnedExact(difficulty: Option<string>, score: nat)
    ensures XpEarned(difficulty, score) == score * XpPerCorrectAnswer(difficulty)
  {
    var h := XpMultiplierHalves(difficulty);
    assert score * 10 * h == (score * 5 * h) * 2;
    RoundRatioOfMultiple(score * 5 * h, 2);
    assert score * 5 * h == score * XpPerCorrectAnswer(difficulty);
  }

  /** What a stored quiz reads back for `difficulty` under the schema as written:
      the schema declares no such path, so Mongoose's default strict mode drops
      the value given to `new Quiz(...)` and the field reads `undefined`. */
  function StoredDifficultyAsWritten(given: string): Option<string> {
    None
  }

  /** As written, a "hard" (or "medium") quiz earns the same XP as an easy one:
      ten points per correct answer instead of twenty (or fifteen). */
  lemma XpIgnoresDifficultyAsWritten(given: string, score: nat)
    ensures XpEarned(StoredDifficultyAsWritten(given), score) == 10 * score
    ensures given == "hard" ==> XpEarned(Some(given), score) == 20 * score
    ensures given == "medium" ==> XpEarned(Some(given), score) == 15 * score
  {
    XpEarnedExact(StoredDifficultyAsWritten(given), score);
    XpEarnedExact(Some(given), score);
  }
}
