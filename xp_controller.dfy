/** backend/controllers/XpController.js: `POST /add`, a teacher's manual XP
    grant. It has no opId check. */
module XpController {
  import opened Wrappers
  import opened Xp
  import opened ProgressModel
  import opened Ledger
  import opened Store

  datatype Reply =
    | Failed(status: int, error: string)
    | XpAdded(studentId: StudentId, xp: int, level: int)

  /** `POST /add`: add `xp` (`Number(xp)`) to the student's record and
      recompute the level; a missing studentId or an undefined amount is a 400. */
  method AddXp(db: Database, studentId: Option<StudentId>, xp: Option<int>) returns (reply: Reply)
    requires db.Valid()
    modifies db
    ensures db.Valid() && db.attempts == old(db.attempts)
    ensures old(db.Consistent()) ==> db.Consistent()
    ensures !Present(studentId) || xp.None? ==> reply == Failed(400, "studentId and xp required") && unchanged(db)
    ensures Present(studentId) && xp.Some? ==>
      var student := studentId.value;
      var r := GrantXp(LoadOrNew(old(db.progress), student), xp.value);
      && reply == XpAdded(student, r.xp, r.level)
      && db.progress == old(db.progress)[student := r]
      && db.users == Mirrored(old(db.users), student, r.xp, r.level)
  {
    if !Present(studentId) || xp.None? {
      return Failed(400, "studentId and xp required");
    }
    var student := studentId.value;
    var found := db.FindOne(student);
    var prog := if found.Some? then found.value else NewRecord(student);
    ghost var rec := prog;
    assert rec == LoadOrNew(db.progress, student);
    prog := prog.(xp := prog.xp + xp.value);
    prog := prog.(level := CalculateLevel(prog.xp));
    assert old(db.Consistent()) ==> RecordValid(rec);
    db.Save(prog);
    db.MirrorToUser(student, prog.xp, prog.level);
    reply := XpAdded(student, prog.xp, prog.level);
  }

  /** Two grants of x add 2x: nothing makes a repeated grant a no-op. */
  lemma TwoGrantsAddTwice(rec: ProgressRecord, x: int)
    ensures GrantXp(GrantXp(rec, x), x).xp == rec.xp + 2 * x
    ensures LevelConsistent(GrantXp(GrantXp(rec, x), x))
  {
  }
}
