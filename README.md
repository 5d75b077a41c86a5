# AI education platform: lesson session, learning-style quiz, dashboard figures

This Dafny project models the core of the learner-facing front end of an AI
education platform. The front end is a Next.js and TypeScript application.
Three components are modelled:

- **The AI lesson session** (`AiLesson`, ai_lesson.dfy). The learner asks for a
  lesson on a subject and topic. The generated lesson is stored and shown, and
  its multiple-choice exercises are taken one at a time. The session then
  computes a rounded percentage score and shows a review that colours every
  option. The lesson and exercise records, the scoring and the presentation
  rules are datatypes and functions. The component's state, which its event
  handlers overwrite, is the class `AiLesson.LessonSession`, with one method
  per handler. Each method states the complete new state and keeps the
  invariant `Valid()`.
- **The onboarding learning-style quiz** (`LearningStyleQuiz`,
  learning_style_quiz.dfy). The quiz has five fixed questions, each with a
  visual, an auditory and a kinesthetic option. After the last answer, every
  chosen text is looked up again in the table and its style is counted. The
  `reduce` with a strict `>` then reports the style with the most answers. The
  tally loop is the method `CountStyles`, proved against the function
  `StyleTally`. The component's state is the class
  `LearningStyleQuiz.Quiz`, whose `HandleNext` appends, advances or completes
  the quiz. Each call of the `onComplete` callback is recorded in the field
  `completions`. After completion the component stays on the last question
  with the selection kept. Another click on "Complete Assessment" therefore
  appends the same text again and calls `onComplete` again with the tally of
  all the answers, and the model does the same.
- **The dashboard overview figures** (`DashboardOverview`,
  dashboard_overview.dfy). This part is pure. It covers:
  - the completed-lessons count;
  - the average score, a mean where a missing score counts as 0, taken over
    every record and rounded by `Math.round`;
  - the subject slug used in the "continue learning" route;
  - the cut-off of the recent-activity list.

Two small modules support them:

- `Wrappers` holds `Option`, the model of a JavaScript `null`, `undefined` or
  array hole.
- `JsMath` holds `RoundDiv`, the model of `Math.round` of a quotient.

## Model

| member | source | states |
|---|---|---|
| JsMath.RoundDiv | components/learning/ai-lesson.tsx:153 | `Math.round(num / den)` is the integer r with den·(2r−1) ≤ 2·num < den·(2r+1): the nearest integer, with halves going up |
| JsMath.RoundDivUnique | components/learning/ai-lesson.tsx:153 | that characterisation has exactly one solution, so any r meeting it is the rounded value |
| JsMath.RoundDivRange | components/dashboard/dashboard-overview.tsx:83 | rounding a mean of values that lie in lo..hi gives a value in lo..hi |
| AiLesson.MockExercisesShape | components/learning/ai-lesson.tsx:74-112 | the built-in lesson has three exercises, each with four options; the correct answers are 1, 2 and 1, each a valid option index |
| AiLesson.MockLessonShape | components/learning/ai-lesson.tsx:48-112 | the lesson that generation stores can be run: it has at least one exercise and every correct answer names an option |
| AiLesson.WithAnswer | components/learning/ai-lesson.tsx:129-133 | the copy-and-assign changes position i to the new answer and leaves every other position as it was, growing the array with holes when i is past the end |
| AiLesson.LastSelectionWins | components/learning/ai-lesson.tsx:129-133 | a second selection at the same position overwrites the first |
| AiLesson.CorrectCount | components/learning/ai-lesson.tsx:145-152 | at most one correct answer per recorded position; the count is the number of positions exactly when every recorded answer is correct, and 0 exactly when none is |
| AiLesson.CountCorrect | components/learning/ai-lesson.tsx:145-152 | the `forEach` loop, including its skipping of holes, computes `CorrectCount` |
| AiLesson.CorrectCountIsPositionCount | components/learning/ai-lesson.tsx:145-152 | the count equals the number of positions whose recorded answer equals the correct answer, a reference independent of the recursion |
| AiLesson.Score | components/learning/ai-lesson.tsx:153 | the score lies in 0..100 and is 100·correct/n rounded to the nearest integer, with halves going up |
| AiLesson.AllCorrectScores100 | components/learning/ai-lesson.tsx:146-153 | answering every exercise correctly scores 100 |
| AiLesson.NoneCorrectScores0 | components/learning/ai-lesson.tsx:146-153 | with no correct answer the score is 0 |
| AiLesson.TwoOfThreeScores67 | components/learning/ai-lesson.tsx:146-153 | two correct answers out of three score 67 |
| AiLesson.MockExercisesExampleCount | components/learning/ai-lesson.tsx:74-112 | on the built-in exercises the answers 1, 2, 0 get exactly two right |
| AiLesson.MockLessonExampleScore | components/learning/ai-lesson.tsx:74-153 | on the built-in lesson the answers 1, 2, 0 score 67 |
| AiLesson.CompleteLabelOnLastExercise | components/learning/ai-lesson.tsx:322 | the button reads "Complete Lesson" exactly on the last exercise and "Next Question" before it |
| AiLesson.ReviewMarkRule | components/learning/ai-lesson.tsx:359-372 | the correct option is green even when it was selected, a selected wrong option is red, every other option is neutral, and the check and cross icons agree with the colours |
| AiLesson.ReviewShowsMistake | components/learning/ai-lesson.tsx:359-372 | every review shows one green option, and shows a red option exactly when the recorded answer is present and wrong |
| AiLesson.PassOnThreeNeedsAllCorrect | components/learning/ai-lesson.tsx:335 | with three exercises the pass icon (score ≥ 70) appears exactly when all three answers are right |
| AiLesson.LessonSession.constructor | components/learning/ai-lesson.tsx:33-39 | the initial state: generate step, no lesson, index 0, no answers, results hidden, score 0 |
| AiLesson.LessonSession.CurrentScreen | components/learning/ai-lesson.tsx:169-396 | in every reachable state the component renders its current step's own view and never falls through to `null` |
| AiLesson.LessonSession.GenerateLesson | components/learning/ai-lesson.tsx:41-120 | a successful generation stores the built-in lesson for the subject and topic and moves to the learn step; a failure changes nothing |
| AiLesson.LessonSession.StartExercises | components/learning/ai-lesson.tsx:122-127 | from any state with a lesson: the exercise step, index 0, no answers, results hidden |
| AiLesson.LessonSession.HandleAnswerSelect | components/learning/ai-lesson.tsx:129-133 | records the answer at the current position only; every other position and all other state are unchanged |
| AiLesson.LessonSession.NextExercise | components/learning/ai-lesson.tsx:135-141 | before the last exercise, moves the index up by one; on the last one, scores the answers, shows the results and completes; the index stays below the exercise count |
| AiLesson.LessonSession.CalculateResults | components/learning/ai-lesson.tsx:143-157 | without a lesson it changes nothing; with one it stores `Score` of the answers, shows the results and moves to the complete step |
| AiLesson.LessonSession.ResetLesson | components/learning/ai-lesson.tsx:159-166 | from any state, returns to the initial state |
| LearningStyleQuiz.FindOption | components/onboarding/learning-style-quiz.tsx:90 | `options.find`: none exactly when no option has the text, otherwise the first option that has it |
| LearningStyleQuiz.FindQuestion | components/onboarding/learning-style-quiz.tsx:88-89 | `questions.find(q => q.options.some(...))`: none exactly when no question offers the text, otherwise the first question that offers it |
| LearningStyleQuiz.LookupOption | components/onboarding/learning-style-quiz.tsx:88-91 | the chained lookup finds nothing exactly when no question offers the text; otherwise it finds, in the first question offering the text, the first option with that text |
| LearningStyleQuiz.DistinctTextsOneQuestion | components/onboarding/learning-style-quiz.tsx:19-65 | when option texts are distinct across the table, only one question offers a given option's text |
| LearningStyleQuiz.DistinctTextsLookUpTheirOption | components/onboarding/learning-style-quiz.tsx:88-91 | when option texts are distinct, looking up an option's text gives back that very option |
| LearningStyleQuiz.Tally.Increment | components/onboarding/learning-style-quiz.tsx:92 | `styles[option.style]++` adds one to that style's count and leaves the other two unchanged |
| LearningStyleQuiz.StyleTally | components/onboarding/learning-style-quiz.tsx:86-94 | the counts never sum to more than the number of answers |
| LearningStyleQuiz.CountStyles | components/onboarding/learning-style-quiz.tsx:86-94 | the `forEach` loop computes `StyleTally` of the answers |
| LearningStyleQuiz.DominantStyle | components/onboarding/learning-style-quiz.tsx:96-98 | the reported style's count is at least each other count; visual wins only strictly ahead of both others, and auditory only strictly ahead of kinesthetic |
| LearningStyleQuiz.DominantStyleIsUnique | components/onboarding/learning-style-quiz.tsx:96-98 | conversely, a style that meets those strictness conditions is the one reported |
| LearningStyleQuiz.EqualCountsGiveKinesthetic | components/onboarding/learning-style-quiz.tsx:96-98 | with all three counts equal (no answers included), kinesthetic is reported |
| LearningStyleQuiz.VisualAuditoryTieGivesAuditory | components/onboarding/learning-style-quiz.tsx:96-98 | a visual–auditory tie ahead of kinesthetic goes to auditory, the later key |
| LearningStyleQuiz.TableOptionIsFound | components/onboarding/learning-style-quiz.tsx:88-91 | a text that one of the questions offers is always found |
| LearningStyleQuiz.TallyStepStyle | components/onboarding/learning-style-quiz.tsx:87-93 | an answer that maps back to an option of style s adds one to the counter of s over the tally of the earlier answers |
| LearningStyleQuiz.TallyCountsEveryAnswer | components/onboarding/learning-style-quiz.tsx:86-94 | when every answer is found in the table, the counts sum to the number of answers |
| LearningStyleQuiz.AllKinestheticTally | components/onboarding/learning-style-quiz.tsx:86-94 | when every answer maps to a kinesthetic option, the tally is 0, 0 and the number of answers |
| LearningStyleQuiz.AllKinestheticGivesKinesthetic | components/onboarding/learning-style-quiz.tsx:86-98 | then the reported style is kinesthetic |
| LearningStyleQuiz.QuestionsShape | components/onboarding/learning-style-quiz.tsx:19-65 | the table has five questions, each offering a visual, an auditory and a kinesthetic option, in that order |
| LearningStyleQuiz.OptionPosition | components/onboarding/learning-style-quiz.tsx:19-65 | each option text of the table identifies its question and position |
| LearningStyleQuiz.QuestionStyles | components/onboarding/learning-style-quiz.tsx:19-65 | each question's three options carry the styles visual, auditory and kinesthetic |
| LearningStyleQuiz.QuestionsHaveDistinctTexts | components/onboarding/learning-style-quiz.tsx:19-65 | the fifteen option texts of the table are pairwise distinct |
| LearningStyleQuiz.FixedTableLookup | components/onboarding/learning-style-quiz.tsx:88-91 | on the table, every option's text looks up that very option |
| LearningStyleQuiz.TableAnswerIncrementsItsStyle | components/onboarding/learning-style-quiz.tsx:86-94 | on the table, each answer adds one to its own option's style count and to no other |
| LearningStyleQuiz.KinestheticOptionsGiveKinesthetic | components/onboarding/learning-style-quiz.tsx:24-98 | choosing the kinesthetic option of every question reports kinesthetic |
| LearningStyleQuiz.CompleteLabelOnLastQuestion | components/onboarding/learning-style-quiz.tsx:134 | the button reads "Complete Assessment" exactly on the last question and "Next Question" before it |
| LearningStyleQuiz.AppendOfferedAnswer | components/onboarding/learning-style-quiz.tsx:78 | appending an option of the current question keeps every answer an option of the question it answered |
| LearningStyleQuiz.AppendReport | components/onboarding/learning-style-quiz.tsx:86-100 | reporting the dominant style of all answers after the latest is appended keeps every report equal to the dominant style of the answers given until then |
| LearningStyleQuiz.AdvanceKeepsReachable | components/onboarding/learning-style-quiz.tsx:78-83 | answering a question before the last and moving on keeps the quiz in a reachable state |
| LearningStyleQuiz.CompleteKeepsReachable | components/onboarding/learning-style-quiz.tsx:78-100 | answering the last question and reporting keeps the quiz in a reachable state |
| LearningStyleQuiz.Quiz.constructor | components/onboarding/learning-style-quiz.tsx:72-74 | the initial state: the first question, no answers, no selection, no report |
| LearningStyleQuiz.Quiz.SelectAnswer | components/onboarding/learning-style-quiz.tsx:121 | the radio group sets the selection to one of the current question's option texts and changes nothing else |
| LearningStyleQuiz.Quiz.HandleNext | components/onboarding/learning-style-quiz.tsx:76-103 | with no selection nothing changes. Otherwise the answers grow by exactly the selected text. Before the last question the index goes up by one and the selection is cleared. On the last question the dominant style of all answers is reported to `onComplete`. A report is made exactly when the button read "Complete Assessment" |
| LearningStyleQuiz.FirstCompletionCountsEveryAnswer | components/onboarding/learning-style-quiz.tsx:78-94 | the first report tallies one answer per question, so the counts sum to the number of questions: 5 for the fixed table |
| DashboardOverview.CompletedRows | components/dashboard/dashboard-overview.tsx:64-68 | a row is kept exactly when it occurs among the rows and is completed; all rows are kept exactly when every row is completed |
| DashboardOverview.CompletedRowsOccurrences | components/dashboard/dashboard-overview.tsx:64-68 | each completed row is kept as many times as it occurs, and an uncompleted row never |
| DashboardOverview.TotalCompleted | components/dashboard/dashboard-overview.tsx:70 | `length \|\| 0` is 0 exactly when the query returned no rows or `null` |
| DashboardOverview.CompletedCount | components/dashboard/dashboard-overview.tsx:64-70 | the completed count equals the number of completed rows, so it never exceeds the number of rows and is 0 exactly when no row is completed |
| DashboardOverview.AverageScore | components/dashboard/dashboard-overview.tsx:71-83 | 0 with no records; otherwise the sum of the scores (a missing one counting 0) divided by the number of records, rounded to the nearest integer with halves going up |
| DashboardOverview.SumScoresRange | components/dashboard/dashboard-overview.tsx:72 | with every present score in 0..100, the sum lies between 0 and 100 times the number of records |
| DashboardOverview.AverageScoreInRange | components/dashboard/dashboard-overview.tsx:71-83 | with every present score in 0..100, the displayed average lies in 0..100 |
| DashboardOverview.EqualScoresAverage | components/dashboard/dashboard-overview.tsx:71-83 | when every record has the same score k, the average is k |
| DashboardOverview.NullScoreCountsInDenominator | components/dashboard/dashboard-overview.tsx:72 | a record without a score adds nothing to the sum but still counts in the denominator |
| DashboardOverview.HalfRoundsUpExample | components/dashboard/dashboard-overview.tsx:83 | scores 70 and 85 (mean 77.5) are shown as 78 |
| DashboardOverview.NullScoreExample | components/dashboard/dashboard-overview.tsx:72 | a score of 80 beside a record without a score is shown as 40 |
| DashboardOverview.RecentActivity | components/dashboard/dashboard-overview.tsx:232 | shows at most five records, a prefix of the fetched list in its order: all of them when there are at most five, otherwise exactly five; none when the query returned `null` |
| DashboardOverview.ToLower | components/dashboard/dashboard-overview.tsx:103 | the result is never a capital; capitals move to their lower-case letter, and every other character, white space included, is unchanged |
| DashboardOverview.LowerCase | components/dashboard/dashboard-overview.tsx:103 | `toLowerCase` keeps the length and lower-cases each character in place |
| DashboardOverview.SkipSpaces | components/dashboard/dashboard-overview.tsx:103 | after dropping a run, what is left is empty or starts outside the white-space class, and is strictly shorter when the text started with white space |
| DashboardOverview.ReplaceSpaceRuns | components/dashboard/dashboard-overview.tsx:103 | `replace(/\s+/g, '-')` leaves no white space and never lengthens the text |
| DashboardOverview.ReplaceWithoutSpaces | components/dashboard/dashboard-overview.tsx:103 | text without white space is left as it is |
| DashboardOverview.ReplaceKeepsLowerCase | components/dashboard/dashboard-overview.tsx:103 | the replacement introduces no capital |
| DashboardOverview.SpaceRunBecomesOneHyphen | components/dashboard/dashboard-overview.tsx:103 | each maximal run of white space, leading, inner or trailing, becomes exactly one `-`, and the text on either side is rewritten on its own |
| DashboardOverview.Slug | components/dashboard/dashboard-overview.tsx:103 | the slug contains no white space and no capital |
| DashboardOverview.SlugIdempotent | components/dashboard/dashboard-overview.tsx:103 | the slug of a slug is the slug itself |
| DashboardOverview.TwoWordSlug | components/dashboard/dashboard-overview.tsx:103 | two lower-case words separated by one space are joined by one hyphen, as in "computer science" to "computer-science" |

## Left out

- Loading state and timers: the `loading` flag, the three-second `setTimeout` and the `await` of `generateLesson` are not modelled. Generation is a completed call, either successful or failed. `ScreenFor` does take the loading flag, but `CurrentScreen` reads it as false.
- Error reporting: `console.error` and `alert` are side effects with no effect on the state, so they are not modelled.
- Supabase: the auth call and the `users`, `subjects` and `user_progress` queries are network I/O and are not modelled. The model starts from their results, a `null` result being `None`. `CompletedRows` stands for the `.eq("completed", true)` filter. The `.order(...)` and `.limit(10)` of the recent-activity query are not modelled; `RecentActivity` applies to whatever list was fetched.
- The Gemini API routes and the AI service are calls into an external language model, and are not part of this model.
- `generateWeeklyStats` draws from `Math.random`, so it is not modelled.
- Floating-point progress-bar percentages are not modelled.
- Hard-coded placeholder figures are not modelled: the streak of 5, the "65%", the "2.5h", and the "+12%" and "+5%" captions.
- JSX markup, `router.push` and the React hook machinery are not modelled. Each `useState` pair is a field and each handler is a method.
- Nothing in these components writes results back to storage, so no store write is modelled.
- AiLesson.Score: computed as exact integer rounding of 100·correct/n. The source computes `Math.round((correct / n) * 100)` in floating point. The two agree unless the double rounding of the quotient lands on a different side of a half; this does not happen for the three-exercise lessons generated here.
- AiLesson.Score: requires at least one exercise. With none, the source divides 0 by 0 and stores `NaN`. The lessons generation produces always have three exercises.
- AiLesson.LessonSession.GenerateLesson: stores the built-in lesson, because that is what the component builds. The subject and topic are constructor parameters, standing for the component's props.
- AiLesson.LessonSession.HandleAnswerSelect: requires an option index of the current exercise, because the radio group offers only those. The source does not check the value it receives.
- LearningStyleQuiz.Quiz: models `onComplete` as the log `completions` of the styles passed to it. The callback's own effect belongs to the parent page and is not modelled.
- LearningStyleQuiz.Quiz: keeps the question table as the field `questions`; the constructor sets it to `Questions`. Invariants and transition lemmas are stated for any table. The fixed-table facts are separate lemmas about `Questions`.
- ToLower: lower-cases only the 26 Latin capitals. JavaScript's `toLowerCase` also maps other Unicode capitals.
- DashboardOverview.Slug: inherits that limitation, so its "no capital" guarantee covers A–Z only.
- DashboardOverview.AverageScore: assumes the stored progress scores are integers. The `score` column is typed as a JavaScript `number | null`, and these components only read it, so nothing here constrains what the store holds.
- The time of a record and its display (`toLocaleDateString`) are not modelled.
- End-to-end traces over a concrete session, and over the concrete lesson texts, are not included. The proofs about the concrete texts are limited to the shape facts listed above.
