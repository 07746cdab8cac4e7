/** backend/controllers/QuizController.js: `POST /attempt/:quizId`, the
    current quiz submission, which scores the answers, records an Attempt and
    credits the XP to the student's progress. */
module QuizController {
  import opened Wrappers
  import opened ProgressModel
  import opened QuizScoring
  import opened Ledger
  import opened Store

  datatype Reply =
    | Failed(status: int, error: string)
    | Recorded(score: int, totalMarks: int, xpEarned: int, newXp: int, newLevel: int)

  /** `POST /attempt/:quizId` by `caller`. The Quiz collection is `quizzes`
      and QUIZ_MAX_XP is `quizMaxXp`. Attempts are never deduplicated: every
      call is recorded and credited. */
  method SubmitAttempt(db: Database, caller: StudentId, quizId: string, answers: Option<seq<Answer>>,
                       quizzes: map<string, Quiz>, quizMaxXp: int)
    returns (reply: Reply)
    requires db.Valid()
    modifies db
    ensures db.Valid()
    ensures old(db.Consistent()) ==> db.Consistent()
    ensures quizId !in quizzes ==> reply == Failed(404, "Quiz not found") && unchanged(db)
    ensures quizId in quizzes ==>
      var qmap := QuestionMap(quizzes[quizId].questions);
      var given := answers.GetOr([]);
      var score := Score(Current, qmap, given);
      var total := Total(qmap, given);
      var xp := QuizXp(score, total, quizMaxXp);
      var r := GrantXp(LoadOrNew(old(db.progress), caller), xp);
      && reply == Recorded(score, total, xp, r.xp, r.level)
      && db.attempts == old(db.attempts) + [Attempt(caller, quizId, answers, score, xp)]
      && db.progress == old(db.progress)[caller := r]
      && db.users == Mirrored(old(db.users), caller, r.xp, r.level)
    ensures reply.Recorded? && MarksNonNegative(QuestionMap(quizzes[quizId].questions)) && quizMaxXp >= 0 ==>
      0 <= reply.score <= reply.totalMarks && 0 <= reply.xpEarned <= quizMaxXp
  {
    if quizId !in quizzes {
      return Failed(404, "Quiz not found");
    }
    var quiz := quizzes[quizId];
    var qmap := BuildQuestionMap(quiz.questions);
    var score, totalMarks := ScoreAnswers(Current, qmap, answers.GetOr([]));
    var xpEarned := if totalMarks > 0 then RoundedShare(score, totalMarks, quizMaxXp) else 0;
    assert xpEarned == QuizXp(score, totalMarks, quizMaxXp);
    if MarksNonNegative(qmap) && quizMaxXp >= 0 {
      QuizXpBounds(score, totalMarks, quizMaxXp);
    }
    db.CreateAttempt(Attempt(caller, quizId, answers, score, xpEarned));
    var found := db.FindOne(caller);
    var prog := if found.Some? then found.value else NewRecord(caller);
    ghost var rec := prog;
    assert rec == LoadOrNew(old(db.progress), caller);
    prog := GrantSteps(prog, xpEarned);
    assert old(db.Consistent()) ==> RecordValid(rec);
    db.Save(prog);
    db.MirrorToUser(caller, prog.xp, prog.level);
    reply := Recorded(score, totalMarks, xpEarned, prog.xp, prog.level);
  }

  /** Without answers (`answers || []`) the attempt scores 0 of 0 and earns
      no XP. */
  lemma NoAnswersNoXp(qmap: map<string, Question>, quizMaxXp: int)
    ensures Score(Current, qmap, Option<seq<Answer>>.None.GetOr([])) == 0
    ensures Total(qmap, Option<seq<Answer>>.None.GetOr([])) == 0
    ensures QuizXp(0, 0, quizMaxXp) == 0
  {
  }
}
