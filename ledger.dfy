/** The update steps that ProgressController.js (both POST routes),
    progress.js, XpController.js and the two quiz controllers repeat, as pure
    functions on a progress record. The controllers' methods are proved to
    perform exactly these steps; the properties of the steps are proved here. */
module Ledger {
  import opened Wrappers
  import opened Xp
  import opened ProgressModel

  /** `Progress.findOne({ student })`, falling back to a fresh record. */
  function LoadOrNew(progress: map<StudentId, ProgressRecord>, student: StudentId): (r: ProgressRecord)
    ensures student in progress ==> r == progress[student]
    ensures student !in progress ==> r.student == student && r.xp == 0 && r.level == 1
    ensures student !in progress ==> r.lessonsCompleted == [] && r.badges == [] && r.processedOpIds == []
    ensures (forall s :: s in progress ==> progress[s].student == s) ==> r.student == student
    ensures (forall s :: s in progress ==> RecordValid(progress[s])) ==> RecordValid(r)
  {
    if student in progress then progress[student] else NewRecord(student)
  }

  /** `opId && prog.processedOpIds.includes(opId)`. */
  predicate AlreadyProcessed(rec: ProgressRecord, opId: Option<OpId>) {
    Present(opId) && opId.value in rec.processedOpIds
  }

  /** `if (!lessonsCompleted.includes(lessonId)) lessonsCompleted.push(lessonId)`. */
  function AddLessonOnce(lessons: seq<LessonId>, lessonId: LessonId): (r: seq<LessonId>)
    ensures lessonId in r
    ensures forall x :: x in r <==> x in lessons || x == lessonId
    ensures |lessons| <= |r| <= |lessons| + 1 && r[..|lessons|] == lessons
    ensures lessonId in lessons ==> r == lessons
    ensures NoDuplicates(lessons) ==> NoDuplicates(r)
  {
    if lessonId in lessons then lessons else lessons + [lessonId]
  }

  /** `if (opId) processedOpIds.push(opId)`. */
  function RecordOp(ops: seq<OpId>, opId: Option<OpId>): (r: seq<OpId>)
    ensures Present(opId) ==> opId.value in r
    ensures forall x :: x in r <==> x in ops || (Present(opId) && x == opId.value)
    ensures |ops| <= |r| && r[..|ops|] == ops
    ensures !Present(opId) ==> r == ops
    ensures |r| == |ops| + (if Present(opId) then 1 else 0)
    ensures NoDuplicates(ops) && !(Present(opId) && opId.value in ops) ==> NoDuplicates(r)
  {
    if Present(opId) then ops + [opId.value] else ops
  }

  /** `xp += amount; level = floor(xp / 100) + 1`: the XP grows by exactly
      `amount`, the level follows it, and nothing else changes. */
  function GrantXp(rec: ProgressRecord, amount: int): (r: ProgressRecord)
    ensures r.xp == rec.xp + amount
    ensures LevelConsistent(r)
    ensures r.student == rec.student && r.lessonsCompleted == rec.lessonsCompleted
    ensures r.badges == rec.badges && r.processedOpIds == rec.processedOpIds
    ensures RecordValid(rec) ==> RecordValid(r)
  {
    var xp := rec.xp + amount;
    rec.(xp := xp, level := CalculateLevel(xp))
  }

  /** The mutation of a lesson credit that passed the opId check: the lesson
      joins the completed ones once, the XP grows by `earned`, the level is
      recomputed and a supplied opId is recorded. */
  function CreditLesson(rec: ProgressRecord, lessonId: LessonId, earned: int, opId: Option<OpId>): (r: ProgressRecord)
    ensures r.student == rec.student && r.badges == rec.badges
    ensures r.lessonsCompleted == AddLessonOnce(rec.lessonsCompleted, lessonId)
    ensures r.xp == rec.xp + earned && LevelConsistent(r)
    ensures r.processedOpIds == RecordOp(rec.processedOpIds, opId)
    ensures RecordValid(rec) && !AlreadyProcessed(rec, opId) ==> RecordValid(r)
  {
    var withLesson := rec.(lessonsCompleted := AddLessonOnce(rec.lessonsCompleted, lessonId));
    var granted := GrantXp(withLesson, earned);
    granted.(processedOpIds := RecordOp(granted.processedOpIds, opId))
  }

  /** `prog.xp += amount; prog.level = floor(prog.xp / 100) + 1` on the loaded
      document. */
  method GrantSteps(prog: ProgressRecord, amount: int) returns (r: ProgressRecord)
    ensures r == GrantXp(prog, amount)
  {
    r := prog.(xp := prog.xp + amount);
    r := r.(level := r.xp / 100 + 1);
  }

  /** The credit as the controllers perform it, one in-place step after the
      other on the loaded document. */
  method CreditSteps(prog: ProgressRecord, lessonId: LessonId, earned: int, opId: Option<OpId>)
    returns (r: ProgressRecord)
    ensures r == CreditLesson(prog, lessonId, earned, opId)
  {
    r := prog;
    if lessonId !in r.lessonsCompleted {
      r := r.(lessonsCompleted := r.lessonsCompleted + [lessonId]);
    }
    r := r.(xp := r.xp + earned);
    r := r.(level := r.xp / 100 + 1);
    if Present(opId) {
      r := r.(processedOpIds := r.processedOpIds + [opId.value]);
    }
  }

  /** Whether an event changed the record, and the record after it. */
  datatype Outcome = Outcome(applied: bool, record: ProgressRecord)

  /** One lesson event under the opId protocol: a replayed opId leaves the
      record as it is, any other event is credited. */
  function ApplyLessonEvent(rec: ProgressRecord, lessonId: LessonId, earned: int, opId: Option<OpId>): (o: Outcome)
    ensures !o.applied <==> AlreadyProcessed(rec, opId)
    ensures !o.applied ==> o.record == rec
    ensures o.applied ==> o.record == CreditLesson(rec, lessonId, earned, opId)
    ensures Present(opId) ==> AlreadyProcessed(o.record, opId)
    ensures RecordValid(rec) ==> RecordValid(o.record)
  {
    if AlreadyProcessed(rec, opId) then Outcome(false, rec)
    else Outcome(true, CreditLesson(rec, lessonId, earned, opId))
  }

  /** Replaying an opId is a no-op, whatever lesson and XP the replay carries:
      the second call reports `applied == false` and returns the record of
      the first. */
  lemma ReplayIsNoOp(rec: ProgressRecord, lessonId: LessonId, earned: int, opId: Option<OpId>,
                     lessonId': LessonId, earned': int)
    requires Present(opId)
    ensures var first := ApplyLessonEvent(rec, lessonId, earned, opId).record;
            ApplyLessonEvent(first, lessonId', earned', opId) == Outcome(false, first)
  {
  }

  /** Without an opId nothing deduplicates the XP: two identical calls add it
      twice, although the lesson is still listed once. */
  lemma RepeatWithoutOpIdAddsTwice(rec: ProgressRecord, lessonId: LessonId, earned: int)
    ensures var once := ApplyLessonEvent(rec, lessonId, earned, None).record;
            var twice := ApplyLessonEvent(once, lessonId, earned, None).record;
            twice.xp == rec.xp + 2 * earned && twice.lessonsCompleted == once.lessonsCompleted
  {
  }

  /** A lesson event carrying its own opId (the form of an offline retry). */
  datatype LessonEvent = LessonEvent(lessonId: LessonId, xpEarned: int, opId: OpId)

  /** The events applied one after the other. */
  function ApplyAll(rec: ProgressRecord, events: seq<LessonEvent>): ProgressRecord
    decreases |events|
  {
    if events == [] then rec
    else
      var e := events[0];
      ApplyAll(ApplyLessonEvent(rec, e.lessonId, e.xpEarned, Some(e.opId)).record, events[1..])
  }

  /** The XP the events carry. */
  function SumXp(events: seq<LessonEvent>): int
    decreases |events|
  {
    if events == [] then 0 else events[0].xpEarned + SumXp(events[1..])
  }

  /** Events with distinct, non-empty opIds that the record has not seen. */
  predicate FreshDistinctOps(rec: ProgressRecord, events: seq<LessonEvent>) {
    && (forall i :: 0 <= i < |events| ==> events[i].opId != "" && events[i].opId !in rec.processedOpIds)
    && (forall i, j :: 0 <= i < j < |events| ==> events[i].opId != events[j].opId)
  }

  /** No lost updates in a sequential history: events with distinct fresh
      opIds all take effect, so the XP grows by the sum of their deltas, every
      lesson is listed, every opId is recorded and the level is the one of the
      final XP. */
  lemma {:induction false} SequentialEventsAllApply(rec: ProgressRecord, events: seq<LessonEvent>)
    requires FreshDistinctOps(rec, events)
    ensures ApplyAll(rec, events).xp == rec.xp + SumXp(events)
    ensures forall i :: 0 <= i < |events| ==>
      events[i].lessonId in ApplyAll(rec, events).lessonsCompleted &&
      events[i].opId in ApplyAll(rec, events).processedOpIds
    ensures events != [] ==> LevelConsistent(ApplyAll(rec, events))
    ensures RecordValid(rec) ==> RecordValid(ApplyAll(rec, events))
    decreases |events|
  {
    if events != [] {
      var e := events[0];
      var next := ApplyLessonEvent(rec, e.lessonId, e.xpEarned, Some(e.opId)).record;
      var rest := events[1..];
      assert next.processedOpIds == rec.processedOpIds + [e.opId];
      assert FreshDistinctOps(next, rest) by {
        forall i | 0 <= i < |rest|
          ensures rest[i].opId != "" && rest[i].opId !in next.processedOpIds
        {
          assert rest[i] == events[i + 1];
        }
        forall i, j | 0 <= i < j < |rest|
          ensures rest[i].opId != rest[j].opId
        {
          assert rest[i] == events[i + 1] && rest[j] == events[j + 1];
        }
      }
      SequentialEventsAllApply(next, rest);
      LessonsAndOpsKept(next, rest);
      assert ApplyAll(rec, events) == ApplyAll(next, rest);
      forall i | 0 <= i < |events|
        ensures events[i].lessonId in ApplyAll(rec, events).lessonsCompleted
        ensures events[i].opId in ApplyAll(rec, events).processedOpIds
      {
        if i > 0 {
          assert events[i] == rest[i - 1];
        }
      }
    }
  }

  /** Applying events never forgets a completed lesson or a processed opId. */
  lemma {:induction false} LessonsAndOpsKept(rec: ProgressRecord, events: seq<LessonEvent>)
    ensures forall x :: x in rec.lessonsCompleted ==> x in ApplyAll(rec, events).lessonsCompleted
    ensures forall x :: x in rec.processedOpIds ==> x in ApplyAll(rec, events).processedOpIds
    decreases |events|
  {
    if events != [] {
      var e := events[0];
      LessonsAndOpsKept(ApplyLessonEvent(rec, e.lessonId, e.xpEarned, Some(e.opId)).record, events[1..]);
    }
  }

  /** A new student completes lesson L1 worth 50 XP under opId op1: 50 XP,
      level 1, lessons [L1]. */
  lemma FirstLessonScenario(student: StudentId)
    ensures var o := ApplyLessonEvent(NewRecord(student), "L1", 50, Some("op1"));
            o.applied && o.record.xp == 50 && o.record.level == 1 &&
            o.record.lessonsCompleted == ["L1"] && o.record.processedOpIds == ["op1"]
  {
  }

  /** Replaying that event reports "already processed" and changes nothing. */
  lemma ReplayScenario(student: StudentId)
    ensures var first := ApplyLessonEvent(NewRecord(student), "L1", 50, Some("op1")).record;
            ApplyLessonEvent(first, "L1", 50, Some("op1")) == Outcome(false, first)
  {
  }

  /** Two distinct events of 60 and 50 XP reach 110 XP, level 2. */
  lemma TwoEventsScenario(student: StudentId)
    ensures var r := ApplyAll(NewRecord(student), [LessonEvent("L1", 60, "op1"), LessonEvent("L2", 50, "op2")]);
            r.xp == 110 && r.level == 2
  {
    var events := [LessonEvent("L1", 60, "op1"), LessonEvent("L2", 50, "op2")];
    SequentialEventsAllApply(NewRecord(student), events);
    assert SumXp(events) == 60 + SumXp(events[1..]);
    assert SumXp(events[1..]) == 50 + SumXp(events[2..]);
    LevelOnBlock(1, 110);
  }
}
