/** The progress document of backend/models/Progress.js: one per student, with
    the schema's defaults. */
module ProgressModel {
  import opened Xp

  type StudentId = string
  type LessonId = string
  type OpId = string

  /** `progressSchema`. Lessons, badges and processed operation ids are ordered
      lists; the schema itself relates nothing to anything else. */
  datatype ProgressRecord = ProgressRecord(
    student: StudentId,
    lessonsCompleted: seq<LessonId>,
    xp: int,
    level: int,
    badges: seq<string>,
    processedOpIds: seq<OpId>)

  /** No element occurs twice. */
  predicate NoDuplicates<T(==)>(s: seq<T>) {
    forall i, j :: 0 <= i < j < |s| ==> s[i] != s[j]
  }

  /** The stored level agrees with the leveling function. */
  predicate LevelConsistent(r: ProgressRecord) {
    r.level == CalculateLevel(r.xp)
  }

  /** What the update code keeps true of every record it writes: the level is
      derived from the XP, and lessons and operation ids behave as sets. */
  predicate RecordValid(r: ProgressRecord) {
    LevelConsistent(r) && NoDuplicates(r.lessonsCompleted) && NoDuplicates(r.processedOpIds)
  }

  /** The record of a student's first event: the schema defaults (xp 0, level 1)
      and empty lists, as every controller spells them out. */
  function NewRecord(student: StudentId): (r: ProgressRecord)
    ensures r.student == student
    ensures r.xp == 0 && r.level == 1
    ensures |r.lessonsCompleted| == 0 && |r.badges| == 0 && |r.processedOpIds| == 0
    ensures RecordValid(r)
  {
    ProgressRecord(student, [], 0, 1, [], [])
  }

  /** The schema does not enforce what the controllers maintain: a record whose
      level disagrees with its XP, or that lists a lesson twice, is a value of
      the schema all the same. */
  lemma SchemaDoesNotEnforceInvariants()
    ensures !LevelConsistent(ProgressRecord("s", [], 150, 1, [], []))
    ensures !NoDuplicates(ProgressRecord("s", ["L1", "L1"], 0, 1, [], []).lessonsCompleted)
  {
    assert ["L1", "L1"][0] == ["L1", "L1"][1];
  }
}
