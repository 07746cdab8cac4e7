/** backend/controllers/ProgressController.js: the teacher's manual update
    (`POST /`), the student's lesson completion (`POST /complete`) and
    `GET /:studentId`. */
module ProgressController {
  import opened Wrappers
  import opened ProgressModel
  import opened Ledger
  import opened Store

  /** The JSON responses of the routes. */
  datatype Reply =
    | Failed(status: int, error: string)
    | Updated(message: string, progress: ProgressRecord)
    | Completed(lesson: LessonId, xpEarned: int, progress: ProgressRecord)
    | Found(progress: ProgressRecord)

  /** `POST /`: credit `lessonId` and `xpEarned` (default DEFAULT_LESSON_XP)
      to `studentId`, once per `opId`. Lesson existence, which the route looks
      up in the Lesson collection, is the predicate `lessonExists`. */
  method ManualUpdate(db: Database, studentId: Option<StudentId>, lessonId: Option<LessonId>,
                      xpEarned: Option<int>, opId: Option<OpId>,
                      lessonExists: LessonId -> bool, defaultLessonXp: int)
    returns (reply: Reply)
    requires db.Valid()
    modifies db
    ensures db.Valid() && db.attempts == old(db.attempts)
    ensures old(db.Consistent()) ==> db.Consistent()
    ensures !Present(studentId) || !Present(lessonId) ==>
      reply == Failed(400, "studentId and lessonId required") && unchanged(db)
    ensures Present(studentId) && Present(lessonId) && !lessonExists(lessonId.value) ==>
      reply == Failed(404, "Lesson not found") && unchanged(db)
    ensures Present(studentId) && Present(lessonId) && lessonExists(lessonId.value) ==>
      var student := studentId.value;
      var rec := LoadOrNew(old(db.progress), student);
      var o := ApplyLessonEvent(rec, lessonId.value, xpEarned.GetOr(defaultLessonXp), opId);
      if !o.applied then
        reply == Updated("Already processed", rec) && unchanged(db)
      else
        && reply == Updated("Progress updated (manual)", o.record)
        && db.progress == old(db.progress)[student := o.record]
        && db.users == Mirrored(old(db.users), student, o.record.xp, o.record.level)
  {
    if !Present(studentId) || !Present(lessonId) {
      return Failed(400, "studentId and lessonId required");
    }
    var student, lesson := studentId.value, lessonId.value;
    if !lessonExists(lesson) {
      return Failed(404, "Lesson not found");
    }
    var earned := xpEarned.GetOr(defaultLessonXp);
    var found := db.FindOne(student);
    var prog := if found.Some? then found.value else NewRecord(student);
    ghost var rec := prog;
    assert rec == LoadOrNew(db.progress, student);
    if AlreadyProcessed(prog, opId) {
      return Updated("Already processed", prog);
    }
    prog := CreditSteps(prog, lesson, earned, opId);
    assert old(db.Consistent()) ==> RecordValid(rec);
    db.Save(prog);
    db.MirrorToUser(student, prog.xp, prog.level);
    reply := Updated("Progress updated (manual)", prog);
  }

  /** `POST /complete`: the calling student completes `lessonId` and earns
      DEFAULT_LESSON_XP, once per `opId`. */
  method Complete(db: Database, caller: StudentId, lessonId: Option<LessonId>, opId: Option<OpId>,
                  lessonExists: LessonId -> bool, defaultLessonXp: int)
    returns (reply: Reply)
    requires db.Valid()
    modifies db
    ensures db.Valid() && db.attempts == old(db.attempts)
    ensures old(db.Consistent()) ==> db.Consistent()
    ensures !Present(lessonId) ==> reply == Failed(400, "lessonId required") && unchanged(db)
    ensures Present(lessonId) && !lessonExists(lessonId.value) ==>
      reply == Failed(404, "Lesson not found") && unchanged(db)
    ensures Present(lessonId) && lessonExists(lessonId.value) ==>
      var rec := LoadOrNew(old(db.progress), caller);
      var o := ApplyLessonEvent(rec, lessonId.value, defaultLessonXp, opId);
      if !o.applied then
        reply == Updated("Already processed", rec) && unchanged(db)
      else
        && reply == Completed(lessonId.value, defaultLessonXp, o.record)
        && db.progress == old(db.progress)[caller := o.record]
        && db.users == Mirrored(old(db.users), caller, o.record.xp, o.record.level)
  {
    if !Present(lessonId) {
      return Failed(400, "lessonId required");
    }
    var lesson := lessonId.value;
    if !lessonExists(lesson) {
      return Failed(404, "Lesson not found");
    }
    var earned := defaultLessonXp;
    var found := db.FindOne(caller);
    var prog := if found.Some? then found.value else NewRecord(caller);
    ghost var rec := prog;
    assert rec == LoadOrNew(db.progress, caller);
    if AlreadyProcessed(prog, opId) {
      return Updated("Already processed", prog);
    }
    prog := CreditSteps(prog, lesson, earned, opId);
    assert old(db.Consistent()) ==> RecordValid(rec);
    db.Save(prog);
    db.MirrorToUser(caller, prog.xp, prog.level);
    reply := Completed(lesson, earned, prog);
  }

  /** `GET /:studentId`: the stored record, or 404 when the student has none. */
  method GetProgress(db: Database, studentId: StudentId) returns (reply: Reply)
    requires db.Valid()
    ensures studentId !in db.progress <==> reply == Failed(404, "Progress not found")
    ensures studentId in db.progress ==> reply == Found(db.progress[studentId])
  {
    var found := db.FindOne(studentId);
    if found.None? {
      return Failed(404, "Progress not found");
    }
    reply := Found(found.value);
  }
}
