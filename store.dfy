/** The persistent state the controllers read and write, held in memory: the
    Progress collection (one record per student, keyed by the `student`
    field, which the schema declares unique), the xp/level mirror on User
    documents, and the Attempt collection of backend/models/attemptModel.js. */
module Store {
  import opened Wrappers
  import opened Xp
  import opened ProgressModel
  import opened QuizScoring

  /** An Attempt document, without its generated id and creation time. */
  datatype Attempt = Attempt(student: StudentId, quiz: string, answers: Option<seq<Answer>>, score: int, xpEarned: int)

  /** `User.findByIdAndUpdate(id, { xp, level })`: updates an existing user
      document and does nothing when there is none. */
  function Mirrored(users: map<StudentId, XpLevel>, student: StudentId, xp: int, level: int): (r: map<StudentId, XpLevel>)
    ensures student in users ==> student in r && r[student] == XpLevel(xp, level)
    ensures r.Keys == users.Keys
    ensures forall s :: s in users && s != student ==> r[s] == users[s]
  {
    if student in users then users[student := XpLevel(xp, level)] else users
  }

  class Database {
    var progress: map<StudentId, ProgressRecord>
    var users: map<StudentId, XpLevel>
    var attempts: seq<Attempt>

    /** Each record is stored under its own student: `findOne({ student })`
        is a lookup and no student has two records. */
    ghost predicate Valid()
      reads this
    {
      forall s :: s in progress ==> progress[s].student == s
    }

    /** Every stored record satisfies the ledger invariant. */
    ghost predicate Consistent()
      reads this
    {
      forall s :: s in progress ==> RecordValid(progress[s])
    }

    /** A database with the given user documents and no progress records. */
    constructor (users: map<StudentId, XpLevel>)
      ensures Valid() && Consistent()
      ensures this.progress == map[] && this.users == users && this.attempts == []
    {
      this.progress := map[];
      this.users := users;
      this.attempts := [];
    }

    /** `Progress.findOne({ student })`. */
    method FindOne(student: StudentId) returns (r: Option<ProgressRecord>)
      requires Valid()
      ensures student in progress <==> r.Some?
      ensures r.Some? ==> r.value == progress[student] && r.value.student == student
    {
      if student in progress {
        r := Some(progress[student]);
      } else {
        r := None;
      }
    }

    /** `prog.save()`: writes the record under its student. */
    method Save(rec: ProgressRecord)
      requires Valid()
      modifies this
      ensures Valid()
      ensures progress == old(progress)[rec.student := rec]
      ensures users == old(users) && attempts == old(attempts)
      ensures old(Consistent()) && RecordValid(rec) ==> Consistent()
    {
      progress := progress[rec.student := rec];
    }

    /** The mirror write of `{ xp, level }` to the student's user document. */
    method MirrorToUser(student: StudentId, xp: int, level: int)
      modifies this
      ensures users == Mirrored(old(users), student, xp, level)
      ensures progress == old(progress) && attempts == old(attempts)
    {
      if student in users {
        users := users[student := XpLevel(xp, level)];
      }
    }

    /** `Attempt.create(...)`. */
    method CreateAttempt(a: Attempt)
      modifies this
      ensures attempts == old(attempts) + [a]
      ensures progress == old(progress) && users == old(users)
    {
      attempts := attempts + [a];
    }
  }
}
