# QuizWhiz rulebook in Dafny

QuizWhiz is a quiz web application. A teacher has a language model generate a
multiple-choice quiz, shares the quiz's code with students, and reads their
results. Students open the quiz by its code, answer it once and get a score,
a percentage and experience points (XP). Accounts are created with a password
or through Google sign-in.

This project models the rules behind that flow:

- the quiz handlers of the Express server, over an in-memory copy of the Quiz
  and Submission collections;
- the schema rules of those two documents;
- the account handlers and the Google verify callback, over a user table;
- the client's answer encoding, form checks, messages and result summaries.

Modules, one per concern:

- Js: the JavaScript built-ins the logic relies on. This covers `trim` and
  its whitespace set, `||` defaults, truthiness, and `Math.round` of a ratio
  (rounding half up).
- Http: the `{ error, alreadySubmitted }` refusal body and a `Result` type.
- Records: the Quiz and Submission documents, their validators and `trim`
  setters, and the unique share code.
- Query: `findOne`, `find`, and sorting newest first. The sort is an
  insertion sort proved to give a sorted permutation.
- Fences: cleaning the model's reply of Markdown code fences.
- Grading: the scoring loop, the percentage and XP.
- QuizController: quiz generation and submission as methods of
  `QuizStore`, the store they append to. The read-only handlers are functions
  over the stored sequences.
- Accounts: register, login, logout, getMe and the session cookie. The
  Google verify callback is a method of `UserStore`.
- Feedback: the 80/60 bands behind every message and badge.
- AnswerSheet: the quiz-taking pages' answer map, the answer array sent on
  submit, and fetch-error messages.
- GeneratorPage: the older client's generator page as a class whose fields
  are its React state.
- ResultsSummary: submission counts and average scores on the two results
  pages.

Ids are natural numbers and timestamps are integers. The language model, the
JSON parser and the random share-code source are parameters. bcrypt and JWT
are symbolic: a hash records the password it was made from, and a token
records its claims.

## Model

| member | source | states |
|---|---|---|
| Js.StringOr | server/controllers/quizController.js:12-14 | `value \|\| fallback`: the value when it is a non-empty string, else the fallback |
| Js.NumberOr | client/quizWhiz-client/src/QuizGenerator.jsx:109 | `n \|\| 5`: a missing, NaN or zero number gives the fallback, any other number is kept |
| Js.Trim | server/models/Quiz.js:9-13 | the result neither starts nor ends with whitespace and is no longer than the input |
| Js.TrimSlice | server/models/Quiz.js:9-13 | the trimmed string is the slice of the input that starts after its leading whitespace, and everything dropped before and after it is whitespace |
| Js.TrimEmptyIffBlank | client/quizWhiz-client/src/QuizGenerator.jsx:18-21 | a string trims to "" exactly when every character of it is whitespace |
| Js.RoundRatio | server/controllers/quizController.js:169 | `Math.round(num / den)` as the unique integer r with `den*(2r-1) <= 2num < den*(2r+1)` |
| Records.NewQuiz | server/models/Quiz.js:3-43 | the document `new Quiz` builds: topic stored trimmed, every other field as given |
| Records.NewSubmission | server/models/Submission.js:3-32 | the document `new Submission` builds: student name stored trimmed, answers and score as given |
| Records.NewQuizValid | server/models/Quiz.js:9-38 | a new quiz passes validation exactly when its topic is not blank, every question has text, a correct answer and exactly four options, and the code is present |
| Records.NewSubmissionValid | server/models/Submission.js:14-27 | a new submission with a non-negative score passes validation exactly when the student name is not blank |
| Records.AppendFreshCode | server/models/Quiz.js:34-38 | adding a quiz whose code is unused keeps share codes unique |
| Query.FindFirst | server/controllers/quizController.js:87 | `findOne`: the first matching position, or none exactly when nothing matches |
| Query.Filter | server/controllers/quizController.js:189 | `find`: keeps exactly the matching records, each as often as it is stored |
| Query.SortNewestFirst | server/controllers/quizController.js:189-191 | the sort by timestamp, descending, returns a permutation of its input in non-increasing timestamp order |
| Query.FindNewestFirst | server/controllers/quizController.js:189-191 | `find(...).sort({ t: -1 })`: the matching records, as a multiset, sorted newest first |
| Fences.RemoveAll | server/controllers/quizController.js:47 | a global regex replace with '' never lengthens the text and keeps every character that does not occur in the pattern, each as often as before |
| Fences.RemoveAllKeepsPrefix | server/controllers/quizController.js:47 | deleting a pattern that starts with a backtick leaves a backtick-free prefix in place |
| Fences.StripFencesOfFencedJson | server/controllers/quizController.js:45-48 | a reply that is a backtick-free text j between an opening json code fence and a closing code fence is cleaned to j trimmed |
| Fences.RemoveFencesIsFenceFree | server/controllers/quizController.js:47 | after every "```" is deleted, no three backticks in a row remain |
| Fences.StripFencesClean | server/controllers/quizController.js:46-48 | the cleaned reply contains no "```" and has no leading or trailing whitespace |
| Fences.StripFencesOfBareJson | server/controllers/quizController.js:47-48 | a reply with no backticks and no surrounding whitespace is passed to the parser unchanged |
| Grading.ScoreAnswers | server/controllers/quizController.js:145-150 | the `forEach` loop computes the score, which is at most the number of questions |
| Grading.ScoreCountsCorrectIndices | server/controllers/quizController.js:145-150 | the score equals the number of indices i with `answers[i] === questions[i].correctAnswer` |
| Grading.ScoreIgnoresExtraAnswers | server/controllers/quizController.js:146-147 | answers beyond the last question do not change the score |
| Grading.FullMarksIff | server/controllers/quizController.js:145-150 | full marks exactly when every question is answered correctly |
| Grading.PercentageBounds | server/controllers/quizController.js:169 | with at least one question, the percentage lies in 0..100, is 0 for no points and 100 for full marks |
| Grading.XpEarnedExact | server/controllers/quizController.js:163-164 | XP is exactly 20, 15 or 10 per correct answer for "hard", "medium" or anything else, so nothing is rounded |
| Grading.XpIgnoresDifficultyAsWritten | server/models/Quiz.js:3-43 | as written, the stored quiz has no difficulty, so every quiz earns 10 XP per correct answer |
| QuizController.FindQuizByCode | server/controllers/quizController.js:87 | the first quiz with the code; none exactly when no quiz uses it |
| QuizController.FindQuizById | server/controllers/quizController.js:242 | `populate`: a quiz with the id, or none exactly when no quiz has it |
| QuizController.HideAnswers | server/controllers/quizController.js:109-112 | one student question per question, same order, same text and options |
| QuizController.HideAnswersIgnoresCorrectAnswers | server/controllers/quizController.js:109-112 | the student view does not depend on the correct answers, so it cannot reveal them |
| QuizController.GetQuizByCode | server/controllers/quizController.js:85-115 | 404 exactly for an unknown code; 400 with alreadySubmitted exactly when the caller, in any role, already submitted; otherwise the quiz's id, topic, difficulty and questions without answers |
| QuizController.CheckSubmission | server/controllers/quizController.js:125-143 | 404 exactly for an unknown code; 400 with alreadySubmitted exactly for a "student" who already submitted (other roles skip the check); otherwise the quiz found by the code |
| QuizController.StudentSubmitsOnce | server/controllers/quizController.js:131-142 | once a student's submission is stored, a second submission and a second view of the same quiz are both refused with alreadySubmitted |
| QuizController.ResultRows | server/controllers/quizController.js:189-202 | the rows are exactly the rows of the quiz's stored submissions, each as often as it is stored (name, score, percentage of the quiz's question count, date), newest first |
| QuizController.ResultRowsOfQuiz | server/controllers/quizController.js:189-202 | every row is the row of a stored submission of the quiz, and every stored submission of the quiz has its row |
| QuizController.GetQuizResults | server/controllers/quizController.js:178-203 | 404 exactly for an unknown code, 403 exactly when the caller is not the quiz's teacher, otherwise topic, difficulty, question count and the result rows |
| QuizController.ResultPercentagesInRange | server/controllers/quizController.js:200 | when the quiz has questions and its scores are within range, every row's percentage lies in 0..100 |
| QuizController.GetTeacherQuizzes | server/controllers/quizController.js:210-232 | the summaries are exactly those of the caller's stored quizzes, each with its number of submissions, newest first |
| QuizController.TeacherQuizzesAreOwn | server/controllers/quizController.js:210-232 | every summary is that of one of the caller's stored quizzes, and every stored quiz of the caller is listed |
| QuizController.StudentRowOf | server/controllers/quizController.js:246-253 | the found quiz's topic and difficulty, "Deleted Quiz" and "N/A" when the quiz is gone or the field is empty; the submission's score and date; the number of answers sent as the total and the percentage of it |
| QuizController.StudentDifficultyAsWritten | server/controllers/quizController.js:248 | when no stored quiz has a difficulty, as under the schema as written, every history row shows "N/A" |
| QuizController.GetStudentSubmissions | server/controllers/quizController.js:239-254 | the rows are exactly those of the caller's stored submissions, each as often as it is stored, newest first |
| QuizController.StudentResultsAreOwn | server/controllers/quizController.js:239-254 | every row is the row of one of the caller's stored submissions, and every stored submission of the caller has its row |
| QuizController.RequestFor | server/controllers/quizController.js:11-33 | a missing or falsy topic, count or difficulty defaults to "general knowledge", 5 or "medium"; the temperature is 0.9 for "hard", else 0.7 |
| QuizController.ReadReply | server/controllers/quizController.js:42-82 | a failed model call, or content that parses to `null` (whose `.questions` read throws), is "Failed to generate quiz"; a reply without content, or whose content does not parse once its fences are stripped, is "Failed to parse AI response"; otherwise the questions of the parsed value |
| QuizController.FirstFreeDraw | server/controllers/quizController.js:54-60 | the first random draw not used by any stored quiz, with every earlier draw in use |
| QuizController.PickShareCode | server/controllers/quizController.js:54-60 | the `while (!isUnique)` loop ends on the first draw that no stored quiz uses |
| QuizController.SaveQuizKeepsInvariant | server/controllers/quizController.js:62-70 | saving a valid quiz with a fresh id and an unused code keeps the store consistent |
| QuizController.SaveSubmissionKeepsInvariant | server/controllers/quizController.js:152-160 | saving a valid submission for a stored quiz keeps the store consistent, scores within their quiz's question count included |
| QuizController.QuizStore.GenerateQuiz | server/controllers/quizController.js:9-83 | the request is built from the defaulted fields; a reply that cannot be read answers its 500 and stores nothing; otherwise the quiz built from the parsed questions and the first unused drawn code is appended and returned if the schema accepts it, and 500 "Failed to generate quiz" with nothing stored if not |
| QuizController.QuizStore.SaveGenerated | server/controllers/quizController.js:53-76 | the first draw no stored quiz uses becomes the share code; a quiz the schema accepts is appended under the next id and returned with the untrimmed topic; a refused one stores nothing |
| QuizController.QuizStore.SubmitQuiz | server/controllers/quizController.js:122-176 | a refusal by the guards or by the schema stores nothing; otherwise exactly one submission with the given answers and computed score is appended, and the reply carries the score, the question count, the percentage and the XP |
| QuizController.SubmitResponseInRange | server/controllers/quizController.js:162-171 | a reply's score is at most the total, its percentage lies in 0..100, and its XP is exact |
| Accounts.TokenCookie | server/controllers/authController.js:16-21 | the `token` cookie is HTTP-only; it is secure with SameSite "none" in production and "lax" otherwise |
| Accounts.SendToken | server/controllers/authController.js:13-32 | the reply carries the given status, the user's id, name, email and role (never the password), and a token for that id and role; the cookie holds that token and lives 7 days (604,800,000 ms), the token's own lifetime |
| Accounts.Logout | server/controllers/authController.js:98-106 | overwrites a cookie with the name and flags of the session cookie, with an empty value and maxAge 0 |
| Accounts.GetMe | server/controllers/authController.js:108-125 | 401 "User not found" exactly when no user has the id, and no other error when the lookup succeeds; otherwise that user's public fields |
| Accounts.Login | server/controllers/authController.js:68-96 | the guards in order: unknown email 401, Google-only account 400, a given role other than the account's 401 "Please login as <role>", a missing password 500, wrong password 401; success exactly when the email is known, the password matches and any role given is the account's |
| Accounts.RegisterGuard | server/controllers/authController.js:38-49 | a missing field gives "All fields are required"; with all fields, a role outside {teacher, student} gives "Invalid role"; with a known role, "Email already registered" exactly when the email is in use; registration may proceed exactly when all three checks pass |
| Accounts.RegisterThenLogin | server/controllers/authController.js:51-61 | a freshly registered account logs in with its email and password, naming its role or no role |
| Accounts.UnknownEmailLooksLikeWrongPassword | server/controllers/authController.js:73-89 | an unknown email, and a wrong password for a password account when no role or the account's own role is given, get the same 401 "Invalid credentials" |
| Accounts.WrongRoleRevealsAccount | server/controllers/authController.js:73-84 | a registered password account asked for with another role is answered "Please login as <its role>" whatever the password, an unknown email "Invalid credentials", so the two answers differ |
| Accounts.AddAccountKeepsInvariant | server/controllers/authController.js:46-61 | adding an account with a fresh id, a known role, a way to sign in and an unused email and Google id keeps emails and Google ids unique |
| Accounts.LinkGoogleIdKeepsInvariant | server/config/passport.js:27-31 | linking a Google id no account carries to an existing account keeps Google ids unique |
| Accounts.UserStore.Register | server/controllers/authController.js:34-66 | a refusal leaves the user table unchanged; success appends exactly one account with a hashed password and no Google id, and answers 201 with a session |
| Accounts.UserStore.GoogleVerify | server/config/passport.js:13-45 | an account already linked is returned and nothing changes; else the first account with the profile's first email gets the Google id and nothing else changes; else one student account is created from the display name and first email; a profile without emails fails; a returned account carries the profile id |
| Feedback.BandOf | client/src/pages/QuizTaking.jsx:96-97 | excellent exactly at 80 or more, good exactly from 60 to below 80, needs practice below 60 or for a null percentage |
| Feedback.BandMonotone | client/quizWhiz-client/src/pages/TakeQuiz.jsx:110-112 | a higher percentage never gets a lower band |
| Feedback.TakingMessage | client/src/pages/QuizTaking.jsx:97 | "Excellent work! 🌟", "Good job! 👍" or "Keep practicing! 💪", each exactly in its band |
| Feedback.PlainMessage | client/quizWhiz-client/src/QuizGenerator.jsx:178-180 | "Excellent work!", "Good job!" or "Keep practicing!", each exactly in its band |
| Feedback.ResultsBadge | client/src/pages/QuizResults.jsx:90-92 | green, yellow or red badge classes, each exactly in its band |
| Feedback.TeacherBadge | client/src/pages/TeacherResults.jsx:114-120 | "excellent", "good" or "needs-improvement", each exactly in its band |
| Feedback.GradedBands | client/src/pages/QuizTaking.jsx:96-97 | answering every question correctly is shown as excellent, and scoring nothing as needing practice |
| AnswerSheet.SelectAnswer | client/src/pages/QuizTaking.jsx:39-44 | choosing an option sets that question's entry and leaves every other entry as it was |
| AnswerSheet.SelectAgainOverwrites | client/quizWhiz-client/src/pages/TakeQuiz.jsx:35-40 | a second choice for a question replaces the first |
| AnswerSheet.LetterAnswers | client/src/pages/QuizTaking.jsx:48-55 | a complete sheet gives one answer per question |
| AnswerSheet.BuildAnswers | client/src/pages/QuizTaking.jsx:46-56 | stops at the lowest unanswered question and sends nothing; otherwise sends one letter a-d per question, in question order, entry i being the letter of the choice for question i |
| AnswerSheet.FullMarksIffCorrectLetters | client/quizWhiz-client/src/pages/TakeQuiz.jsx:42-52 | a complete sheet scores full marks on the server exactly when every chosen letter is the correct answer |
| AnswerSheet.FetchErrorMessage | client/src/pages/QuizTaking.jsx:28-33 | alreadySubmitted shows the fixed message; otherwise the server's error text, or "Quiz not found" when there is none |
| AnswerSheet.FetchErrorShowsServerText | client/quizWhiz-client/src/pages/TakeQuiz.jsx:24-29 | for every refusal of `getQuizByCode` the page shows the server's own text, "Quiz not found" for an unknown code |
| GeneratorPage.CheckForm | client/quizWhiz-client/src/QuizGenerator.jsx:18-26 | refused for a blank topic; otherwise refused unless 1 <= count <= 20; accepted exactly when neither applies |
| GeneratorPage.CheckFormTrimsTopic | client/quizWhiz-client/src/QuizGenerator.jsx:18-21 | the topic is refused exactly when `topic.trim()` is empty; with a non-blank topic the form is accepted exactly for a count in 1..20 |
| GeneratorPage.GeneratorPage.constructor | client/quizWhiz-client/src/QuizGenerator.jsx:6-13 | empty topic, count 5, no quiz, no choices, not submitted, no result |
| GeneratorPage.GeneratorPage.SetCount | client/quizWhiz-client/src/QuizGenerator.jsx:109 | a NaN or zero count input becomes 5; nothing else changes |
| GeneratorPage.GeneratorPage.StartGeneration | client/quizWhiz-client/src/QuizGenerator.jsx:15-31 | a refused form changes nothing; an accepted one clears submitted, result and choices and sets loading |
| GeneratorPage.GeneratorPage.FinishGeneration | client/quizWhiz-client/src/QuizGenerator.jsx:33-44 | a received quiz and its code replace the ones shown; a failure keeps them; loading ends either way |
| GeneratorPage.GeneratorPage.Select | client/quizWhiz-client/src/QuizGenerator.jsx:47-52 | only the chosen question's entry changes |
| GeneratorPage.GeneratorPage.Submit | client/quizWhiz-client/src/QuizGenerator.jsx:54-64 | the answer array of the quiz shown, in question order, or the first question without a choice |
| GeneratorPage.GeneratorPage.ShowResult | client/quizWhiz-client/src/QuizGenerator.jsx:66-79 | a received result is shown and marks the quiz submitted; a failure changes nothing |
| GeneratorPage.GeneratorPage.CreateNewQuiz | client/quizWhiz-client/src/QuizGenerator.jsx:182-188 | clears the quiz, choices, result, submitted flag and topic |
| ResultsSummary.SumBounds | client/src/pages/QuizResults.jsx:35 | the sum of n percentages in 0..100 lies in 0..100n |
| ResultsSummary.AverageScore | client/src/pages/QuizResults.jsx:34-36 | the average is 0 when there are no submissions |
| ResultsSummary.AverageInRange | client/src/pages/QuizResults.jsx:34-36 | the rounded mean lies in 0..100 whenever every percentage does |
| ResultsSummary.AverageOfEqual | client/src/pages/QuizResults.jsx:34-36 | when every submission has the same percentage, the average equals it |
| ResultsSummary.TeacherAverage | client/src/pages/TeacherResults.jsx:74-87 | the average is shown exactly when there is a submission, and it is the same rounded mean |
| ResultsSummary.ResultsPageFigures | client/src/pages/QuizResults.jsx:54 | for results served by a consistent store, the count shown is the number of the quiz's stored submissions and the average lies in 0..100 |

## Left out

- The language model call is the parameter `model` of `GenerateQuiz`. The prompt text, the system message and the HTTP headers are not modelled. The temperature is kept in tenths.
- `JSON.parse` is the parameter `parse`. It gives `null` or a value together with its `questions`. A parsed value with no `questions` array is not told apart from one that has it.
- QuizController.PickShareCode: the random codes are a given sequence that contains an unused code somewhere. Without that, the source loop is not guaranteed to end. The shape of a code (up to eight base-36 characters) is not modelled.
- Concurrency is not modelled. Two submissions can race between the duplicate check and the save, and the `Promise.all` in `getTeacherQuizzes` is treated as sequential.
- Grading.Percentage: `Math.round` of the floating-point quotient is modelled as exact rounding half up. The two agree for quizzes of up to 20 questions. For larger quizzes the floating product can fall just below a .5 boundary.
- Dates are integer timestamps, and the `Date.now` default is a parameter `now`. Date formatting in the pages is left out.
- `QuizController.QuizStore.SubmitQuiz` takes `answers` as a list of strings. A missing `answers` field, which throws and gives 500, and Mongoose's casting of non-string answers are not modelled.
- Database failures behind the generic 500 replies are not modelled. These are "Failed to fetch quiz", "Failed to fetch results", "Failed to fetch quizzes", "Failed to fetch submissions" and "Registration failed".
- Accounts.GetMe: a lookup that throws, for example on an id that is not a valid ObjectId, answers 401 "Not authenticated" (server/controllers/authController.js:122-123). Ids are naturals here and the lookup does not fail, so this reply is not modelled.
- bcrypt's salt and 72-byte truncation are left out. So are JWT signing, JWT verification and the authentication middleware, whose caller identity is the `Requester` parameter.
- server/models/User.js is not part of this model. Its validators and indexes are unknown, so saving a user is assumed to succeed.
- `Accounts.Login` takes the email as a string. A request without an email is not modelled.
- The Google callback's redirect, which puts the token in the URL, is not modelled.
- `AnswerSheet.BuildAnswers` requires every chosen option index to be below 4. The pages only offer the four options of a question, so an index of 4 or more, which would be sent as `null`, cannot occur.
- Js.Trim: its own contract says only that the result is trimmed and no longer than the input. That it drops exactly the surrounding whitespace is stated by Js.TrimSlice, which callers invoke where they need it.
- Difficulty: every stored quiz keeps its `difficulty`, the corrected schema of the finding below. So `getQuizByCode`, `getQuizResults` and `getTeacherQuizzes` return it where the program as written returns `undefined` (server/controllers/quizController.js:108, :195, :224), and the student history shows it where the program as written always shows "N/A" (:248, see QuizController.StudentDifficultyAsWritten).
- Alert texts are represented by the outcome they report, for example `MissingAnswer(i)` for "Please answer question i+1". React rendering, routing and the loading flags of the quiz-taking pages are not modelled.

## Findings

| source | as written | input that shows it | evidently intended | confidence | as-written member | corrected member |
|---|---|---|---|---|---|---|
| server/models/Quiz.js:3-43 | the schema declares no `difficulty` path, so Mongoose's default strict mode drops the difficulty passed at server/controllers/quizController.js:65; `quiz.difficulty` reads back `undefined`, the XP multiplier at :163 is always 1, the difficulty returned at :108, :195 and :224 is `undefined`, and the student history at :248 always shows "N/A" | generate a "hard" quiz, then submit it with 3 correct answers: 30 XP instead of 60, and the student view shows no difficulty | the quiz keeps its difficulty: 20, 15 or 10 XP per correct answer for "hard", "medium" or anything else | not executed | Grading.XpIgnoresDifficultyAsWritten | QuizController.SubmitResponseInRange |
