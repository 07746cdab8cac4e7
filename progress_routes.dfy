/** backend/controllers/progress.js: the older `POST /` progress update, used
    by students and teachers alike, and its `GET /:studentId`. */
module ProgressRoutes {
  import opened Wrappers
  import opened ProgressModel
  import opened Ledger
  import opened Store

  datatype Reply = Updated(message: string, progress: ProgressRecord)

  /** The XP of an update whose body has no `xpEarned`. */
  const DefaultXp := 10

  /** The student an update is for: `studentId || req.user.id`. */
  function Target(studentId: Option<StudentId>, caller: StudentId): (s: StudentId)
    ensures Present(studentId) ==> s == studentId.value
    ensures !Present(studentId) ==> s == caller
  {
    if Present(studentId) then studentId.value else caller
  }

  /** `POST /`: credit `lessonId` and `xpEarned` (default 10) to the target
      student, once per `opId`. This route checks neither the lesson nor the
      presence of the ids. */
  method Update(db: Database, caller: StudentId, studentId: Option<StudentId>, lessonId: LessonId,
                opId: Option<OpId>, xpEarned: Option<int>)
    returns (reply: Reply)
    requires db.Valid()
    modifies db
    ensures db.Valid() && db.attempts == old(db.attempts)
    ensures old(db.Consistent()) ==> db.Consistent()
    ensures
      var student := Target(studentId, caller);
      var rec := LoadOrNew(old(db.progress), student);
      var o := ApplyLessonEvent(rec, lessonId, xpEarned.GetOr(DefaultXp), opId);
      if !o.applied then
        reply == Updated("Already processed", rec) && unchanged(db)
      else
        && reply == Updated("Progress updated", o.record)
        && db.progress == old(db.progress)[student := o.record]
        && db.users == Mirrored(old(db.users), student, o.record.xp, o.record.level)
  {
    var earned := xpEarned.GetOr(DefaultXp);
    var idToUse := if Present(studentId) then studentId.value else caller;
    assert idToUse == Target(studentId, caller);
    var found := db.FindOne(idToUse);
    var prog := if found.Some? then found.value else NewRecord(idToUse);
    ghost var rec := prog;
    assert rec == LoadOrNew(db.progress, idToUse);
    if AlreadyProcessed(prog, opId) {
      return Updated("Already processed", prog);
    }
    prog := CreditSteps(prog, lessonId, earned, opId);
    assert old(db.Consistent()) ==> RecordValid(rec);
    db.Save(prog);
    db.MirrorToUser(idToUse, prog.xp, prog.level);
    reply := Updated("Progress updated", prog);
  }

  /** `GET /:studentId`: the stored record, or JSON `null` (`None`). */
  method Get(db: Database, studentId: StudentId) returns (r: Option<ProgressRecord>)
    requires db.Valid()
    ensures r.Some? <==> studentId in db.progress
    ensures r.Some? ==> r.value == db.progress[studentId]
  {
    r := db.FindOne(studentId);
  }

  /** Without an opId the route is not idempotent: the same request twice
      credits its XP twice (though it lists the lesson once). */
  lemma RepeatedUpdateWithoutOpId(rec: ProgressRecord, lessonId: LessonId, xpEarned: Option<int>)
    ensures var once := ApplyLessonEvent(rec, lessonId, xpEarned.GetOr(DefaultXp), None).record;
            var twice := ApplyLessonEvent(once, lessonId, xpEarned.GetOr(DefaultXp), None).record;
            twice.xp == rec.xp + 2 * xpEarned.GetOr(DefaultXp) &&
            twice.lessonsCompleted == once.lessonsCompleted
  {
    RepeatWithoutOpIdAddsTwice(rec, lessonId, xpEarned.GetOr(DefaultXp));
  }
}
