# Gamified learning platform: XP ledger, quiz scoring and form helpers

A Dafny model of the rules by which the platform's backend credits
experience points (XP) and levels to students, and of a few
self-contained frontend helpers.

The backend core has five parts.

- **Levelling** (`Xp`). The level is `floor(xp / 100) + 1`. Dafny's `/` with a positive divisor
  is floor division, so negative XP is modelled as in JavaScript.
- **Progress record** (`ProgressModel`). This is one document per student: the lessons
  completed, xp, level, badges and the operation ids (opIds) already
  processed. The schema alone does not tie the level to the xp and does not
  forbid duplicates.
- **Ledger** (`Ledger`). These are the steps every controller repeats:
  - load the record, or create a fresh one;
  - skip an opId already processed;
  - add the lesson only when absent;
  - add the XP, recompute the level and record the opId.

  They are pure functions on records. Methods that take the same steps one
  assignment at a time (`CreditSteps`, `GrantSteps`) are proved equal to them.
- **Quiz scoring** (`QuizScoring`). This is the answer loop of both quiz routes and the
  XP formula. `Rule.Current` is the newer controller: it checks that
  `answerIndex` is defined. `Rule.Legacy` is the older route with its
  fixed 20-XP maximum. `Math.round(score / total * max)` is modelled as
  integer half-up rounding, `HalfUp(n, d) = (2n + d) / (2d)`. This assumes
  the quotient is computed exactly.
- **Controllers** (`ProgressController`, `ProgressRoutes`, `XpController`,
  `QuizController`, `QuizRoutes`). These are methods on an in-memory `Store.Database`
  holding the progress collection, the users' mirrored `{xp, level}` and the
  stored quiz attempts. Each reply is a datatype carrying the HTTP status and
  error text.

The frontend helpers:

- `NotificationsPage`: the `timeAgo` buckets;
- `QuizCreate`: the quiz-draft editor, a class whose invariant is "at least two
  options per question";
- `TeacherStudentList`: the search and level filter;
- `Register`: the field validators, the form-validity test and the submit guard,
  a class over the form state.

Some behaviours of the code are stated as lemmas rather than corrected.

- The older quiz route gives marks to an `mcq` question with no `answerIndex`
  when the answer is missing too (`QuizScoring.LegacyRewardsMissingAnswer`).
- The older quiz route divides by the scoring total. A zero total gives a NaN XP
  when the score is 0. It gives an infinite XP when negative marks cancel the
  total and the score is not 0 (`QuizScoring.LegacyQuizXp`, `QuizRoutes.SubmitAttempt`).
- Removing an option does not move `answerIndex`. When the correct answer is
  the last option, the index ends up past the options
  (`QuizCreate.RemovingLastOptionStrandsAnswer`). When it is an earlier one,
  the answer silently moves to the option that followed it.
- The sign-up form's validity test never reads the name error and counts the
  untrimmed name (`Register.PaddedShortNamePasses`).
- Without an opId, repeating a call credits the XP again
  (`Ledger.RepeatWithoutOpIdAddsTwice`).
- `Ledger.SequentialEventsAllApply` holds for sequential histories only. The
  routes' unguarded read-modify-write can lose concurrent updates, and the
  model does not cover that case.

Clocks, the database, lesson lookup and the two constants of the unseen
`utils/xpUtils` (`QUIZ_MAX_XP`, `DEFAULT_LESSON_XP`) are parameters: the
current time `nowMs`, the `Database` object, a `lessonExists` predicate,
`quizMaxXp` and `defaultLessonXp`.

## Model

| member | source | states |
|---|---|---|
| Xp.CalculateLevel | backend/utils/xp.js:1-3 | the level is the one L with 100(L-1) <= xp < 100L, i.e. floor(xp/100)+1, negative xp included |
| Xp.AddXp | backend/utils/xp.js:5-8 | xp is current + earned with a missing value counting as 0, and the returned level brackets that xp |
| Xp.LevelIsUnique | backend/utils/xp.js:2 | any level that brackets xp in a block of 100 is calculateLevel(xp) |
| Xp.LevelAtLeastOne | backend/utils/xp.js:2 | non-negative xp gives level >= 1 |
| Xp.LevelMonotone | backend/utils/xp.js:2 | more xp never gives a lower level |
| Xp.LevelOnBlock | backend/utils/xp.js:2 | on 100k..100k+99 the level is k+1 |
| Xp.LevelOfZero | backend/models/Progress.js:7 | the schema's default level 1 is the level of the default xp 0 |
| ProgressModel.NewRecord | backend/models/Progress.js:3-10 | a fresh record has xp 0, level 1, no lessons, badges or opIds, and satisfies the record invariant |
| ProgressModel.SchemaDoesNotEnforceInvariants | backend/models/Progress.js:5-9 | the shape admits a level that disagrees with xp and a repeated lesson, so the update code must keep both |
| Ledger.LoadOrNew | backend/controllers/ProgressController.js:22-31 | the stored record when there is one; otherwise a record for that student with xp 0, level 1 and no lessons, badges or opIds; when the store keys each record by its student and holds only valid records, the result belongs to the student and is valid |
| Ledger.AlreadyProcessed | backend/controllers/ProgressController.js:33 | a truthy opId already in the record's processedOpIds; ApplyLessonEvent skips exactly these events and ReplayIsNoOp shows a replay is one |
| Ledger.AddLessonOnce | backend/controllers/ProgressController.js:36-37 | the lesson is present afterwards, nothing else is added, earlier entries keep their order, a present lesson changes nothing, no duplicates are introduced |
| Ledger.RecordOp | backend/controllers/ProgressController.js:42 | a truthy opId is appended exactly once (the old list is a prefix and the length grows by one), a missing or empty one changes nothing, and a fresh opId keeps the list duplicate-free |
| Ledger.GrantXp | backend/controllers/XpController.js:33-34 | xp grows by exactly the amount, level is xp/100+1, lessons, badges and opIds are untouched |
| Ledger.GrantSteps | backend/controllers/QuizController.js:79-80 | the in-place `xp +=` and level assignment produce GrantXp's record |
| Ledger.CreditSteps | backend/controllers/ProgressController.js:36-42 | the in-place push, `xp +=`, level assignment and opId push produce CreditLesson's record |
| Ledger.CreditLesson | backend/controllers/ProgressController.js:36-42 | lessons gain the lesson once, xp grows by the earned amount, level is recomputed, the opId is recorded, a valid record stays valid |
| Ledger.ApplyLessonEvent | backend/controllers/ProgressController.js:33-42 | the event is skipped exactly when its opId was processed, a skipped event changes nothing, and afterwards a truthy opId counts as processed |
| Ledger.ReplayIsNoOp | backend/controllers/ProgressController.js:33-42 | replaying a call with the same truthy opId, whatever its lesson and XP, leaves the record as the first call left it |
| Ledger.RepeatWithoutOpIdAddsTwice | backend/controllers/progress.js:20-31 | with no opId the same call applied twice adds its XP twice and the lesson once |
| Ledger.SequentialEventsAllApply | backend/controllers/ProgressController.js:33-42 | a run of events with fresh distinct opIds adds the sum of their XP, keeps every lesson and opId, and keeps the record valid |
| Ledger.LessonsAndOpsKept | backend/controllers/ProgressController.js:36-42 | no sequence of events removes a completed lesson or a processed opId |
| Ledger.FirstLessonScenario | backend/controllers/ProgressController.js:22-42 | a new student completing a 50-XP lesson with an opId ends with that lesson, xp 50, level 1 and the opId |
| Ledger.ReplayScenario | backend/controllers/ProgressController.js:33-34 | sending that call again is skipped and the record is unchanged |
| Ledger.TwoEventsScenario | backend/controllers/ProgressController.js:39-40 | 60 then 50 XP gives xp 110 and level 2 |
| Store.Mirrored | backend/controllers/ProgressController.js:45 | an existing user's xp and level become the given ones; other users and the set of users are unchanged |
| Store.Database.FindOne | backend/controllers/ProgressController.js:22 | finds a record exactly when the student has one, and it is that student's |
| Store.Database.Save | backend/controllers/ProgressController.js:43 | the record replaces the student's entry and nothing else changes; a valid record keeps the store valid |
| Store.Database.MirrorToUser | backend/controllers/ProgressController.js:45 | the users map becomes Mirrored of the old one |
| Store.Database.CreateAttempt | backend/controllers/QuizController.js:59-65 | the attempt is appended and nothing else changes |
| ProgressController.ManualUpdate | backend/controllers/ProgressController.js:11-51 | 400 with no change without a truthy studentId and lessonId; 404 with no change for an unknown lesson; "Already processed" with no change for a replayed opId; otherwise the record becomes CreditLesson of the stored-or-new record (xpEarned defaulting), is saved, and its xp and level are mirrored |
| ProgressController.Complete | backend/controllers/ProgressController.js:56-96 | the same for the signed-in student with DEFAULT_LESSON_XP, answering with the lesson, the XP earned and the record |
| ProgressController.GetProgress | backend/controllers/ProgressController.js:99-107 | 404 "Progress not found" exactly when the student has no record, otherwise that record |
| ProgressRoutes.Update | backend/controllers/progress.js:8-39 | the target is the given truthy studentId, otherwise the caller; for that student a replayed opId changes nothing, otherwise CreditLesson with xpEarned defaulting to 10 is saved and its xp and level mirrored |
| ProgressRoutes.Get | backend/controllers/progress.js:41-46 | the student's record, or none (the route answers null) |
| ProgressRoutes.RepeatedUpdateWithoutOpId | backend/controllers/progress.js:20-31 | two updates without opId add the XP twice |
| XpController.AddXp | backend/controllers/XpController.js:13-53 | 400 with no change without a truthy studentId or with xp undefined; otherwise GrantXp on the stored-or-new record is saved and mirrored, and the reply carries the stored xp and level |
| XpController.TwoGrantsAddTwice | backend/controllers/XpController.js:21-36 | two grants of x add 2x and the level follows |
| QuizScoring.Marks | backend/controllers/QuizController.js:43 | missing or zero marks count as 1, other values as given, and non-negative marks give at least 1 |
| QuizScoring.Earns | backend/controllers/QuizController.js:46-47 | an mcq question whose answerIndex strictly equals the answer, with the newer rule also requiring answerIndex to be defined; CurrentEarnsOnlyOnDefinedMatch and LegacyRewardsMissingAnswer state the difference |
| QuizScoring.Total | backend/controllers/QuizController.js:39-44 | the sum of the marks of the answers whose question is known; ScoreAnswers, ScoreAppend and UnknownAnswersIgnored state its properties |
| QuizScoring.Score | backend/controllers/QuizController.js:39-51 | the sum of the marks of the answers that earn; ScoreWithinTotal bounds it by Total |
| QuizScoring.QuestionMap | backend/controllers/QuizController.js:33-34 | the id-to-question map built in question order, later questions replacing earlier ones; QuestionMapKeys states its keys and values |
| QuizScoring.BuildQuestionMap | backend/controllers/QuizController.js:33-34 | the loop builds the id-to-question map, with every question's id a key |
| QuizScoring.QuestionMapKeys | backend/controllers/QuizController.js:33-34 | the keys are exactly the question ids, each mapped to the last question with that id |
| QuizScoring.ScoreAnswers | backend/controllers/QuizController.js:36-51 | the loop's counters equal Score and Total of the answers, and 0 <= score <= totalMarks for non-negative marks |
| QuizScoring.AnswerStep | backend/controllers/QuizController.js:40-50 | one answer adds at most its marks to the score; a known question adds at least 1 to the total; an unknown one adds nothing |
| QuizScoring.ScoreWithinTotal | backend/controllers/QuizController.js:39-51 | 0 <= score <= total for any answer list |
| QuizScoring.ScoreAppend | backend/controllers/QuizController.js:39-51 | score and total of two answer lists joined are the sums of their parts |
| QuizScoring.RepeatedAnswerCountsTwice | backend/controllers/QuizController.js:39-51 | an answer sent twice counts twice in the total and the score |
| QuizScoring.UnknownAnswersIgnored | backend/controllers/QuizController.js:40-41 | dropping answers to unknown questions changes neither score nor total |
| QuizScoring.NoMcqNoScore | backend/controllers/QuizController.js:46-50 | answers only to non-mcq questions score 0 |
| QuizScoring.CurrentEarnsOnlyOnDefinedMatch | backend/controllers/QuizController.js:46-50 | an answer to a known question scores non-zero only when the question is mcq and its answerIndex is defined and strictly equals the answer, and then it scores the question's marks; a question without answerIndex, or an answer without `answer`, scores 0 |
| QuizScoring.LegacyRewardsMissingAnswer | backend/controllers/quiz.js:35-39 | the older rule gives marks when both answerIndex and the answer are undefined; the newer rule does not |
| QuizScoring.RoundedShare | backend/controllers/QuizController.js:55 | the nearest integer to score*max/total, halves rounded up, for either sign of total: 2t*r - t <= 2*score*max < 2t*r + t |
| QuizScoring.HalfUp | backend/controllers/QuizController.js:55 | the nearest integer to n/d, halves rounded up |
| QuizScoring.QuizXp | backend/controllers/QuizController.js:54-56 | 0 when totalMarks is not positive, otherwise the half-up rounding of score*max/totalMarks |
| QuizScoring.QuizXpBounds | backend/controllers/QuizController.js:54-56 | for 0 <= score <= total the XP lies in [0, max], and a perfect score earns max |
| QuizScoring.LegacyQuizXp | backend/controllers/quiz.js:45 | no number exactly when total is 0; otherwise the half-up rounding of 20 * score / total, with the rounding bracket stated for a positive and for a negative total |
| QuizScoring.LegacyQuizXpBounds | backend/controllers/quiz.js:45 | for 0 <= score <= total, total > 0, the XP lies in [0, 20], and a perfect score earns 20 |
| QuizScoring.HalfCorrectScenario | backend/controllers/quiz.js:29-45 | two 1-mark mcq questions, one answered right, give score 1, total 2 and 10 XP under either rule |
| QuizController.SubmitAttempt | backend/controllers/QuizController.js:24-111 | 404 with no change for an unknown quiz; otherwise the attempt is stored, the record gains exactly QuizXp of the scored answers (missing answers scoring 0), the level is recomputed and mirrored, and the XP lies in [0, QUIZ_MAX_XP] for non-negative marks |
| QuizController.NoAnswersNoXp | backend/controllers/QuizController.js:39-56 | a missing answers list scores 0 of 0 and earns 0 XP |
| QuizRoutes.SubmitAttempt | backend/controllers/quiz.js:13-90 | 404 for an unknown quiz, no change for missing answers or a zero total; otherwise the attempt is stored and the record gains the 20-point XP, the level is recomputed and mirrored |
| QuizRoutes.FirstAttemptCredit | backend/controllers/quiz.js:57-68 | a new student's record after an attempt has exactly the earned xp and level xp/100+1 |
| NotificationsPage.Bucket | frontend/src/pages/NotificationsPage.jsx:15-20 | each bucket is chosen exactly on its range; minutes lie in 1..59, hours in 1..23, days >= 1, each the floor of the difference |
| NotificationsPage.SecondsBetween | frontend/src/pages/NotificationsPage.jsx:13 | the floor of the millisecond difference over 1000 |
| NotificationsPage.TimeAgo | frontend/src/pages/NotificationsPage.jsx:8-21 | a missing date reads "Just now" |
| NotificationsPage.NatToString | frontend/src/pages/NotificationsPage.jsx:16-20 | a non-empty string of decimal digits whose decimal value is n, with a leading "0" only for 0, and "1" exactly for 1 |
| NotificationsPage.NatToStringCanonical | frontend/src/pages/NotificationsPage.jsx:16-20 | any digit string without a leading zero that denotes n is NatToString(n), so the printed count is the canonical decimal |
| NotificationsPage.Render | frontend/src/pages/NotificationsPage.jsx:15-20 | the bucket's text: "Just now", "N min ago", "N hours ago", "1 day ago" or "N days ago"; TimeAgoCounts and the "Exactly" lemmas state what it prints |
| NotificationsPage.JustNowExactly | frontend/src/pages/NotificationsPage.jsx:9-15 | "Just now" exactly for a missing date or a difference under 60 seconds, future dates included |
| NotificationsPage.SingularDayExactly | frontend/src/pages/NotificationsPage.jsx:19-20 | the day count reads "1 day ago" exactly when it is 1 |
| NotificationsPage.OneDayAgoExactly | frontend/src/pages/NotificationsPage.jsx:15-20 | "1 day ago" is shown exactly for a difference of at least one and under two days |
| NotificationsPage.TimeAgoCounts | frontend/src/pages/NotificationsPage.jsx:16-20 | the minutes, hours and days printed are floor(diff/60), floor(diff/3600) and floor(diff/86400) |
| QuizCreate.RemoveAt | frontend/src/pages/QuizCreate.jsx:145 | the element at the index is removed and the rest keep their order; an index out of range changes nothing |
| QuizCreate.QuizDraft.constructor | frontend/src/pages/QuizCreate.jsx:12 | the draft starts with no questions, and Valid() holds |
| QuizCreate.QuizDraft.AddQuestion | frontend/src/pages/QuizCreate.jsx:17-27 | one blank question (empty text, two empty options, answer 0, 1 mark) is appended; earlier questions are unchanged |
| QuizCreate.QuizDraft.UpdateQuestionText | frontend/src/pages/QuizCreate.jsx:30-34 | only question i's text changes |
| QuizCreate.QuizDraft.UpdateOption | frontend/src/pages/QuizCreate.jsx:37-41 | only option oi of question qi changes |
| QuizCreate.QuizDraft.AddOption | frontend/src/pages/QuizCreate.jsx:44-48 | question qi gains one empty option at the end; nothing else changes |
| QuizCreate.QuizDraft.RemoveOption | frontend/src/pages/QuizCreate.jsx:51-57 | option oi is removed only when there are more than two, so no question drops below two options; the answer index is untouched |
| QuizCreate.QuizDraft.DeleteQuestion | frontend/src/pages/QuizCreate.jsx:144-145 | exactly question qi is removed, the rest in order |
| QuizCreate.QuizDraft.SetAnswerIndex | frontend/src/pages/QuizCreate.jsx:212-216 | only question qi's answer index changes |
| QuizCreate.QuizDraft.SetMarks | frontend/src/pages/QuizCreate.jsx:236-239 | only question qi's marks change |
| QuizCreate.RemovingLastOptionStrandsAnswer | frontend/src/pages/QuizCreate.jsx:51-57 | a draft can keep two options with its answer index at 2 |
| TeacherStudentList.FilterStudents | frontend/src/pages/TeacherStudentList.jsx:27-32 | the result is a subsequence of the students, each student appears in it exactly as often as in the input when the predicate keeps it and not at all otherwise |
| TeacherStudentList.FieldMatches | frontend/src/pages/TeacherStudentList.jsx:28-29 | a present field whose lower-cased text contains the lower-cased search; SearchIgnoresCase and EmptySearchKeepsNamed state its behaviour |
| TeacherStudentList.Keep | frontend/src/pages/TeacherStudentList.jsx:28-31 | the name or the email matches, and the level equals the selected one when a level is selected; SelectedLevelOnly and AllLevelsNoRestriction state the level part |
| TeacherStudentList.SelectedLevelOnly | frontend/src/pages/TeacherStudentList.jsx:30 | with a level selected every kept student has that level |
| TeacherStudentList.AllLevelsNoRestriction | frontend/src/pages/TeacherStudentList.jsx:30 | with "All Levels" a student is kept exactly when its name or email matches |
| TeacherStudentList.EmptySearchKeepsNamed | frontend/src/pages/TeacherStudentList.jsx:28-31 | an empty search keeps every student that has a name or an email |
| TeacherStudentList.SearchIgnoresCase | frontend/src/pages/TeacherStudentList.jsx:28-29 | an upper-case search finds a lower-case email |
| TeacherStudentList.Lower | frontend/src/pages/TeacherStudentList.jsx:28-29 | lower-casing keeps the length and maps each character |
| Register.FieldError | frontend/src/components/auth/Register.jsx:29-45 | name: error exactly when the trimmed length is under 3; email: error exactly when the pattern fails; password: no digit always gives the digit error, otherwise an error exactly under 6 characters; phone and role: none |
| Register.Trim | frontend/src/components/auth/Register.jsx:32 | `trim`: leading and trailing white space removed; TrimCutsOnlyWhitespace states it |
| Register.TrimCutsOnlyWhitespace | frontend/src/components/auth/Register.jsx:32 | the trimmed name is a slice of the input that neither starts nor ends with white space, with only white space cut on either side |
| Register.EmailRegex | frontend/src/components/auth/Register.jsx:35 | the pattern as three non-empty runs without white space or "@", joined by "@" and "."; EmailRegexIsLocalAtDomain states what it accepts |
| Register.FormValid | frontend/src/components/auth/Register.jsx:47-55 | untrimmed name length >= 3, email length > 5, no stored email or password error, password length >= 6; NameErrorIgnored, PaddedShortNamePasses and ShortestEmailFailsForm state what it omits |
| Register.EmailRegexIsLocalAtDomain | frontend/src/components/auth/Register.jsx:35-36 | the email pattern matches exactly the `L@D` shape |
| Register.EmailAcceptedExactly | frontend/src/components/auth/Register.jsx:35-36 | the email error is empty exactly for `L@D` addresses: non-empty L, no white space or "@" in L or D, and D with a "." neither first nor last |
| Register.NameErrorIgnored | frontend/src/components/auth/Register.jsx:47-55 | the stored name error never changes the form's validity |
| Register.PaddedShortNamePasses | frontend/src/components/auth/Register.jsx:32-55 | "ab " gets the name error yet passes the form test |
| Register.ShortestEmailFailsForm | frontend/src/components/auth/Register.jsx:35-55 | "a@b.c" passes the email check but fails the form's length test |
| Register.RegisterForm.constructor | frontend/src/components/auth/Register.jsx:8-18 | empty fields with role "student", no errors, no server error, not busy, nothing sent |
| Register.RegisterForm.ValidateField | frontend/src/components/auth/Register.jsx:29-45 | the checks overwriting `msg` in turn store FieldError for the field and change nothing else |
| Register.RegisterForm.Update | frontend/src/components/auth/Register.jsx:21-24 | only the named payload field takes the new value, and that field's error becomes FieldError of the value |
| Register.RegisterForm.Submit | frontend/src/components/auth/Register.jsx:60-73 | an invalid form sets "Please fix the errors before submitting." and sends nothing; a valid one clears the error, becomes busy and sends the payload |

## Left out

- Badge engine: its service is not part of this model; the quiz and XP routes' `newBadges` are not modelled, and `badges` is only carried along.
- Persistence: Mongoose reads and writes become the in-memory `Store.Database`. Storage failures and the `next(err)` paths are not modelled.
- Concurrency: every route's read-modify-write is modelled as one sequential step.
- Authentication and roles: `requireAuth` and `requireRole` are not modelled; the caller's id is a parameter.
- Floating point: `QuizScoring.HalfUp` is exact half-up rounding of the rational quotient. The rounding error of `score / total * max` in doubles is not modelled.
- QuizRoutes.SubmitAttempt: with total 0 the older route computes a NaN XP and passes it to `Attempt.create`. The attempt model that route imports is not part of this model. With `xpEarned: Number` (backend/models/attemptModel.js:8) the create is rejected and the error goes to `next(err)` before anything is written. The model answers `XpNotFinite` and changes nothing. With total 0 and a non-zero score, which negative marks allow, the XP is Infinity instead. That value passes the `Number` cast, so the source stores the attempt (backend/controllers/quiz.js:48) and saves and mirrors an infinite `xp` and `level` (backend/controllers/quiz.js:67-76). An `int` cannot hold Infinity, so the model answers `XpNotFinite` for this case too and does not capture those writes.
- QuizRoutes.SubmitAttempt: missing answers make `answers.forEach` throw. The model answers `Forwarded` and changes nothing.
- Store.Database.MirrorToUser: `findByIdAndUpdate` on an unknown user writes nothing, and the model does the same. The user documents' other fields are not modelled.
- Type coercion: ids are strings and XP amounts integers. `String(...)` comparisons, `Number(xpEarned)`, progress.js adding xp without `Number`, and quiz.js looking up `ans.questionId` without `String` are not modelled.
- ProgressRoutes.Update: the lesson id is always a string, so a request without `lessonId` (which pushes `undefined`) is not modelled.
- Attempt ids, timestamps and the `populate` of lesson titles are not modelled.
- `QUIZ_MAX_XP` and `DEFAULT_LESSON_XP` come from `utils/xpUtils`, which is not part of this model; they are parameters.
- ProgressController.ManualUpdate: ProgressController.js never imports `Lesson` but uses it to check the lesson. As written, every request that passes the 400 check throws a ReferenceError there, which goes to `next(err)`. The model instead assumes a working lookup, given as the `lessonExists` parameter.
- ProgressController.Complete: the same missing `Lesson` import applies to the complete route. The model assumes `lessonExists` works there too.
- XpController.AddXp: the route takes `calculateLevel` from `utils/xpUtils`, which is not part of this model. The model assumes it is the `calculateLevel` of backend/utils/xp.js (`Xp.CalculateLevel`).
- QuizScoring.ScoreWithinTotal: it assumes non-negative marks, because the quiz schema is not part of this model and negative marks would break the bound. The same holds for the bound clauses of QuizScoring.ScoreAnswers and of both SubmitAttempt methods.
- NotificationsPage.TimeAgo: the date is a millisecond reading; parsing date strings and invalid dates are not modelled.
- TeacherStudentList.Lower: only ASCII letters are lower-cased, since Unicode case mapping is not modelled.
- Register.FieldError: lengths count characters, not UTF-16 code units.
- Register.RegisterForm.Submit: the response handling (storing tokens, redirecting, the server's error text, clearing `busy`) is asynchronous I/O and is not modelled.
- QuizCreate.QuizDraft: each handler's shallow copy shares question objects with the previous state; the model treats questions as values. The title field and the quiz upload are not modelled.
- Frontend/backend mismatches: the XP form's field names and the quiz page's "already submitted" error are outside the modelled files.
- Rendering, routing, notifications, chat, lesson upload and login are outside the core.
