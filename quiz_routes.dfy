/** backend/controllers/quiz.js: the older `POST /attempt/:quizId`, with a
    fixed 20-XP maximum. */
module QuizRoutes {
  import opened Wrappers
  import opened ProgressModel
  import opened QuizScoring
  import opened Ledger
  import opened Store

  datatype Reply =
    | Failed(status: int, error: string)
    /** `answers.forEach` on a body without answers throws; the error goes
        to Express's error handler and nothing is written. */
    | Forwarded
    /** The total is 0, so `score / total * 20` is not a finite number. */
    | XpNotFinite(score: int, total: int)
    | Submitted(score: int, total: int, xpEarned: int, newXp: int, newLevel: int)

  /** `POST /attempt/:quizId` by `caller`, on the Quiz collection `quizzes`. */
  method SubmitAttempt(db: Database, caller: StudentId, quizId: string, answers: Option<seq<Answer>>,
                       quizzes: map<string, Quiz>)
    returns (reply: Reply)
    requires db.Valid()
    modifies db
    ensures db.Valid()
    ensures old(db.Consistent()) ==> db.Consistent()
    ensures quizId !in quizzes ==> reply == Failed(404, "Quiz not found") && unchanged(db)
    ensures quizId in quizzes && answers.None? ==> reply == Forwarded && unchanged(db)
    ensures quizId in quizzes && answers.Some? ==>
      var qmap := QuestionMap(quizzes[quizId].questions);
      var score := Score(Legacy, qmap, answers.value);
      var total := Total(qmap, answers.value);
      if total == 0 then
        reply == XpNotFinite(score, total) && unchanged(db)
      else
        var xp := LegacyQuizXp(score, total).value;
        var r := GrantXp(LoadOrNew(old(db.progress), caller), xp);
        && reply == Submitted(score, total, xp, r.xp, r.level)
        && db.attempts == old(db.attempts) + [Attempt(caller, quizId, answers, score, xp)]
        && db.progress == old(db.progress)[caller := r]
        && db.users == Mirrored(old(db.users), caller, r.xp, r.level)
    ensures reply.Submitted? && MarksNonNegative(QuestionMap(quizzes[quizId].questions)) ==>
      0 <= reply.score <= reply.total && 0 <= reply.xpEarned <= LegacyMaxXp
  {
    if quizId !in quizzes {
      return Failed(404, "Quiz not found");
    }
    if answers.None? {
      return Forwarded;
    }
    var questionMap := BuildQuestionMap(quizzes[quizId].questions);
    var score, total := ScoreAnswers(Legacy, questionMap, answers.value);
    var xpEarned := LegacyQuizXp(score, total);
    if xpEarned.None? {
      return XpNotFinite(score, total);
    }
    if MarksNonNegative(questionMap) {
      LegacyQuizXpBounds(score, total);
    }
    db.CreateAttempt(Attempt(caller, quizId, answers, score, xpEarned.value));
    var found := db.FindOne(caller);
    var progress := if found.Some? then found.value else NewRecord(caller);
    ghost var rec := progress;
    assert rec == LoadOrNew(old(db.progress), caller);
    progress := GrantSteps(progress, xpEarned.value);
    assert old(db.Consistent()) ==> RecordValid(rec);
    db.Save(progress);
    db.MirrorToUser(caller, progress.xp, progress.level);
    reply := Submitted(score, total, xpEarned.value, progress.xp, progress.level);
  }

  /** A new student's first attempt: the record starts at 0 XP, level 1, and
      ends with exactly the attempt's XP and the level of that. */
  lemma FirstAttemptCredit(student: StudentId, xp: int)
    requires 0 <= xp <= LegacyMaxXp
    ensures var r := GrantXp(LoadOrNew(map[], student), xp);
            r.xp == xp && r.level == 1 && r.lessonsCompleted == []
  {
  }
}
