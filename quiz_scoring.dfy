/** Scoring of a quiz attempt, shared by backend/controllers/QuizController.js
    (the current route) and backend/controllers/quiz.js (the older one). The
    two differ only in when an mcq answer earns its marks, which `Rule` selects. */
module QuizScoring {
  import opened Wrappers

  /** The JavaScript values an answer index can hold, compared with `===`
      (structural equality on these constructors is strict equality). */
  datatype JsValue = Undefined | Null | Int(i: int) | Str(s: string)

  /** A question of a quiz: `_id` (as `String(q._id)`), `type`, `marks` and
      `answerIndex`. Other fields play no part in scoring. */
  datatype Question = Question(id: string, kind: string, marks: Option<int>, answerIndex: JsValue)

  /** A submitted answer `{ questionId, answer }`. */
  datatype Answer = Answer(questionId: string, answer: JsValue)

  /** A quiz, of which scoring reads the questions. */
  datatype Quiz = Quiz(questions: seq<Question>)

  /** Current: QuizController.js, which requires a defined answer index.
      Legacy: quiz.js, which compares with `===` only. */
  datatype Rule = Current | Legacy

  /** `q.marks || 1`: a missing or zero mark counts as 1. */
  function Marks(q: Question): (m: int)
    ensures q.marks.None? || q.marks.value == 0 ==> m == 1
    ensures q.marks.Some? && q.marks.value != 0 ==> m == q.marks.value
    ensures q.marks.None? || q.marks.value >= 0 ==> m >= 1
  {
    if q.marks.None? || q.marks.value == 0 then 1 else q.marks.value
  }

  /** Whether an answer to `q` earns the question's marks. */
  predicate Earns(rule: Rule, q: Question, a: Answer) {
    q.kind == "mcq" &&
    match rule
    case Current => q.answerIndex != Undefined && q.answerIndex == a.answer
    case Legacy => q.answerIndex == a.answer
  }

  /** The marks one answer adds to the total: its question's, or 0 for an
      unknown question id. */
  function AnswerMarks(qmap: map<string, Question>, a: Answer): int {
    if a.questionId in qmap then Marks(qmap[a.questionId]) else 0
  }

  /** The marks one answer adds to the score. */
  function AnswerScore(rule: Rule, qmap: map<string, Question>, a: Answer): int {
    if a.questionId in qmap && Earns(rule, qmap[a.questionId], a) then Marks(qmap[a.questionId]) else 0
  }

  /** `totalMarks` after the loop over `answers`. */
  function Total(qmap: map<string, Question>, answers: seq<Answer>): int
    decreases |answers|
  {
    if answers == [] then 0
    else Total(qmap, answers[..|answers| - 1]) + AnswerMarks(qmap, answers[|answers| - 1])
  }

  /** `score` after the loop over `answers`. */
  function Score(rule: Rule, qmap: map<string, Question>, answers: seq<Answer>): int
    decreases |answers|
  {
    if answers == [] then 0
    else Score(rule, qmap, answers[..|answers| - 1]) + AnswerScore(rule, qmap, answers[|answers| - 1])
  }

  /** `quiz.questions.forEach(q => qmap.set(String(q._id), q))`: later
      questions overwrite earlier ones with the same id. */
  function QuestionMap(questions: seq<Question>): map<string, Question>
    decreases |questions|
  {
    if questions == [] then map[]
    else
      var last := questions[|questions| - 1];
      QuestionMap(questions[..|questions| - 1])[last.id := last]
  }

  /** The map built by the route's `forEach`. */
  method BuildQuestionMap(questions: seq<Question>) returns (qmap: map<string, Question>)
    ensures qmap == QuestionMap(questions)
    ensures forall i :: 0 <= i < |questions| ==> questions[i].id in qmap
  {
    qmap := map[];
    var k := 0;
    while k < |questions|
      invariant 0 <= k <= |questions|
      invariant qmap == QuestionMap(questions[..k])
    {
      assert questions[..k + 1][..k] == questions[..k];
      qmap := qmap[questions[k].id := questions[k]];
      k := k + 1;
    }
    assert questions[..k] == questions;
    QuestionMapKeys(questions);
  }

  /** The question map holds exactly the quiz's ids, each mapped to the last
      question carrying it. */
  lemma QuestionMapKeys(questions: seq<Question>)
    ensures forall id :: id in QuestionMap(questions) <==> exists i :: 0 <= i < |questions| && questions[i].id == id
    ensures forall id :: id in QuestionMap(questions) ==>
      exists i :: (0 <= i < |questions| && questions[i] == QuestionMap(questions)[id] && questions[i].id == id &&
        forall j :: i < j < |questions| ==> questions[j].id != id)
  {
    QuestionMapDomain(questions);
    QuestionMapLast(questions);
  }

  /** The keys of the question map are the quiz's ids. */
  lemma {:induction false} QuestionMapDomain(questions: seq<Question>)
    ensures forall id :: id in QuestionMap(questions) <==> exists i :: 0 <= i < |questions| && questions[i].id == id
    decreases |questions|
  {
    if questions != [] {
      var n := |questions| - 1;
      var init := questions[..n];
      QuestionMapDomain(init);
      assert QuestionMap(questions) == QuestionMap(init)[questions[n].id := questions[n]];
      forall id ensures id in QuestionMap(questions) <==> exists i :: 0 <= i < |questions| && questions[i].id == id {
        if id in QuestionMap(questions) && id != questions[n].id {
          var i :| 0 <= i < |init| && init[i].id == id;
          assert questions[i].id == id;
        }
        if (exists i :: 0 <= i < |questions| && questions[i].id == id) && id != questions[n].id {
          var i :| 0 <= i < |questions| && questions[i].id == id;
          assert init[i].id == id;
        }
      }
    }
  }

  /** Each id of the question map is mapped to the last question carrying it. */
  lemma {:induction false} QuestionMapLast(questions: seq<Question>)
    ensures forall id :: id in QuestionMap(questions) ==>
      exists i :: (0 <= i < |questions| && questions[i] == QuestionMap(questions)[id] && questions[i].id == id &&
        forall j :: i < j < |questions| ==> questions[j].id != id)
    decreases |questions|
  {
    if questions != [] {
      var n := |questions| - 1;
      var init := questions[..n];
      QuestionMapLast(init);
      assert QuestionMap(questions) == QuestionMap(init)[questions[n].id := questions[n]];
      forall id | id in QuestionMap(questions)
        ensures exists i :: (0 <= i < |questions| && questions[i] == QuestionMap(questions)[id] && questions[i].id == id &&
          forall j :: i < j < |questions| ==> questions[j].id != id)
      {
        if id == questions[n].id {
          assert questions[n] == QuestionMap(questions)[id];
        } else {
          var i :| 0 <= i < |init| && init[i] == QuestionMap(init)[id] && init[i].id == id &&
            (forall j :: i < j < |init| ==> init[j].id != id);
          assert questions[i] == init[i];
          forall j | i < j < |questions|
            ensures questions[j].id != id
          {
            if j < n { assert questions[j] == init[j]; }
          }
        }
      }
    }
  }

  /** The route's scoring loop: every answer adds its question's marks to the
      total and, when it earns them, to the score; unknown ids are skipped. */
  method ScoreAnswers(rule: Rule, qmap: map<string, Question>, answers: seq<Answer>)
    returns (score: int, totalMarks: int)
    ensures score == Score(rule, qmap, answers)
    ensures totalMarks == Total(qmap, answers)
    ensures MarksNonNegative(qmap) ==> 0 <= score <= totalMarks
  {
    score, totalMarks := 0, 0;
    var i := 0;
    while i < |answers|
      invariant 0 <= i <= |answers|
      invariant score == Score(rule, qmap, answers[..i])
      invariant totalMarks == Total(qmap, answers[..i])
    {
      assert answers[..i + 1][..i] == answers[..i];
      var ans := answers[i];
      if ans.questionId in qmap {
        var q := qmap[ans.questionId];
        var marks := Marks(q);
        totalMarks := totalMarks + marks;
        if q.kind == "mcq" {
          if Earns(rule, q, ans) {
            score := score + marks;
          }
        }
      }
      i := i + 1;
    }
    assert answers[..i] == answers;
    if MarksNonNegative(qmap) {
      ScoreWithinTotal(rule, qmap, answers);
    }
  }

  /** The quiz's marks are never negative (the quiz editor's marks field has
      a minimum of 1; the quiz schema is not part of this model). */
  predicate MarksNonNegative(qmap: map<string, Question>) {
    forall id :: id in qmap ==> qmap[id].marks.None? || qmap[id].marks.value >= 0
  }

  /** Each answer adds its marks to the total and at most those to the score. */
  lemma AnswerStep(rule: Rule, qmap: map<string, Question>, a: Answer)
    requires MarksNonNegative(qmap)
    ensures 0 <= AnswerScore(rule, qmap, a) <= AnswerMarks(qmap, a)
    ensures a.questionId in qmap ==> AnswerMarks(qmap, a) >= 1
    ensures a.questionId !in qmap ==> AnswerMarks(qmap, a) == 0 && AnswerScore(rule, qmap, a) == 0
  {
  }

  /** With non-negative marks, 0 <= score <= totalMarks. */
  lemma {:induction false} ScoreWithinTotal(rule: Rule, qmap: map<string, Question>, answers: seq<Answer>)
    requires MarksNonNegative(qmap)
    ensures 0 <= Score(rule, qmap, answers) <= Total(qmap, answers)
    decreases |answers|
  {
    if answers != [] {
      ScoreWithinTotal(rule, qmap, answers[..|answers| - 1]);
      AnswerStep(rule, qmap, answers[|answers| - 1]);
    }
  }

  /** Scoring is additive over the list of answers, so a repeated answer is
      counted each time it occurs. */
  lemma {:induction false} ScoreAppend(rule: Rule, qmap: map<string, Question>, xs: seq<Answer>, ys: seq<Answer>)
    ensures Score(rule, qmap, xs + ys) == Score(rule, qmap, xs) + Score(rule, qmap, ys)
    ensures Total(qmap, xs + ys) == Total(qmap, xs) + Total(qmap, ys)
    decreases |ys|
  {
    if ys != [] {
      var n := |ys| - 1;
      assert (xs + ys)[..|xs + ys| - 1] == xs + ys[..n];
      assert (xs + ys)[|xs + ys| - 1] == ys[n];
      ScoreAppend(rule, qmap, xs, ys[..n]);
    } else {
      assert xs + ys == xs;
    }
  }

  /** Submitting the same answer twice counts its marks twice. */
  lemma RepeatedAnswerCountsTwice(rule: Rule, qmap: map<string, Question>, answers: seq<Answer>, a: Answer)
    ensures Total(qmap, answers + [a, a]) == Total(qmap, answers) + 2 * AnswerMarks(qmap, a)
    ensures Score(rule, qmap, answers + [a, a]) == Score(rule, qmap, answers) + 2 * AnswerScore(rule, qmap, a)
  {
    ScoreAppend(rule, qmap, answers, [a, a]);
    assert [a, a][..1] == [a];
    assert [a][..0] == [];
    assert Total(qmap, [a]) == AnswerMarks(qmap, a);
    assert Total(qmap, [a, a]) == Total(qmap, [a]) + AnswerMarks(qmap, a);
    assert Score(rule, qmap, [a]) == AnswerScore(rule, qmap, a);
    assert Score(rule, qmap, [a, a]) == Score(rule, qmap, [a]) + AnswerScore(rule, qmap, a);
  }

  /** The answers whose question id the quiz knows, in their order. */
  function KnownAnswers(qmap: map<string, Question>, answers: seq<Answer>): (r: seq<Answer>)
    ensures |r| <= |answers|
    ensures forall i :: 0 <= i < |r| ==> r[i].questionId in qmap
    decreases |answers|
  {
    if answers == [] then []
    else
      var last := answers[|answers| - 1];
      KnownAnswers(qmap, answers[..|answers| - 1]) + (if last.questionId in qmap then [last] else [])
  }

  /** Answers to unknown questions contribute to neither score nor total:
      dropping them changes nothing. */
  lemma {:induction false} UnknownAnswersIgnored(rule: Rule, qmap: map<string, Question>, answers: seq<Answer>)
    ensures Score(rule, qmap, KnownAnswers(qmap, answers)) == Score(rule, qmap, answers)
    ensures Total(qmap, KnownAnswers(qmap, answers)) == Total(qmap, answers)
    decreases |answers|
  {
    if answers != [] {
      var n := |answers| - 1;
      var init, last := answers[..n], answers[n];
      UnknownAnswersIgnored(rule, qmap, init);
      if last.questionId in qmap {
        assert KnownAnswers(qmap, answers) == KnownAnswers(qmap, init) + [last];
        ScoreAppend(rule, qmap, KnownAnswers(qmap, init), [last]);
        SingleAnswer(rule, qmap, last);
      } else {
        assert KnownAnswers(qmap, answers) == KnownAnswers(qmap, init);
      }
    }
  }

  /** Score and total of a single answer. */
  lemma SingleAnswer(rule: Rule, qmap: map<string, Question>, a: Answer)
    ensures Score(rule, qmap, [a]) == AnswerScore(rule, qmap, a)
    ensures Total(qmap, [a]) == AnswerMarks(qmap, a)
  {
    assert [a][..0] == [];
  }

  /** Non-mcq questions add to the total but never to the score: when no
      answer refers to a known mcq question the score is 0. */
  lemma {:induction false} NoMcqNoScore(rule: Rule, qmap: map<string, Question>, answers: seq<Answer>)
    requires forall i :: 0 <= i < |answers| && answers[i].questionId in qmap ==> qmap[answers[i].questionId].kind != "mcq"
    ensures Score(rule, qmap, answers) == 0
    decreases |answers|
  {
    if answers != [] {
      var n := |answers| - 1;
      assert forall i :: 0 <= i < n ==> answers[..n][i] == answers[i];
      NoMcqNoScore(rule, qmap, answers[..n]);
    }
  }

  /** Under the current rule an answer scores its question's marks only when
      the question is mcq and its answer index is defined and equal to the
      submitted answer: a question without an answer index, or an answer
      without `answer`, scores nothing. */
  lemma CurrentEarnsOnlyOnDefinedMatch(qmap: map<string, Question>, a: Answer)
    requires a.questionId in qmap
    ensures var q := qmap[a.questionId];
      (AnswerScore(Current, qmap, a) != 0 ==> q.kind == "mcq" && q.answerIndex != Undefined && q.answerIndex == a.answer)
      && (q.kind == "mcq" && q.answerIndex != Undefined && q.answerIndex == a.answer ==> AnswerScore(Current, qmap, a) == Marks(q))
    ensures qmap[a.questionId].answerIndex == Undefined ==> AnswerScore(Current, qmap, a) == 0
    ensures a.answer == Undefined ==> AnswerScore(Current, qmap, a) == 0
  {
  }

  /** The older rule lacks the `typeof` guard: an mcq question without an
      answer index earns its marks for an answer that omits `answer`, where
      the current rule gives nothing. */
  lemma LegacyRewardsMissingAnswer()
    ensures var q := Question("q1", "mcq", None, Undefined);
            var a := Answer("q1", Undefined);
            Earns(Legacy, q, a) && !Earns(Current, q, a)
  {
  }

  /** `Math.round(score / total * maxXp)` for `total != 0`, in integers:
      JavaScript's `Math.round` takes x to floor(x + 1/2), halves upward, and
      floor(s*m/t + 1/2) == floor((2*s*m + t) / (2*t)) for t > 0. A negative
      total (possible only with negative marks) is the same fraction with
      both signs flipped. */
  function RoundedShare(score: int, total: int, maxXp: int): (r: int)
    requires total != 0
    ensures total > 0 ==> 2 * total * r - total <= 2 * score * maxXp < 2 * total * r + total
    ensures total < 0 ==> -2 * total * r + total <= -2 * score * maxXp < -2 * total * r - total
  {
    if total > 0 then HalfUp(score * maxXp, total) else HalfUp(-score * maxXp, -total)
  }

  /** The nearest integer to n/d, halves upward. */
  function HalfUp(n: int, d: int): (r: int)
    requires d > 0
    ensures 2 * d * r - d <= 2 * n < 2 * d * r + d
  {
    var r := (2 * n + d) / (2 * d);
    assert 2 * d * r <= 2 * n + d < 2 * d * r + 2 * d by {
      DivBracket(2 * n + d, 2 * d);
    }
    r
  }

  lemma DivBracket(a: int, b: int)
    requires b > 0
    ensures b * (a / b) <= a < b * (a / b) + b
  {
  }

  /** QuizController.js: `totalMarks > 0 ? Math.round(score / totalMarks * QUIZ_MAX_XP) : 0`. */
  function QuizXp(score: int, totalMarks: int, maxXp: int): (xp: int)
    ensures totalMarks <= 0 ==> xp == 0
    ensures totalMarks > 0 ==> 2 * totalMarks * xp - totalMarks <= 2 * score * maxXp < 2 * totalMarks * xp + totalMarks
  {
    if totalMarks > 0 then RoundedShare(score, totalMarks, maxXp) else 0
  }

  /** The XP of a score stays within 0 .. maxXp and is maxXp for full marks. */
  lemma QuizXpBounds(score: int, totalMarks: int, maxXp: int)
    requires 0 <= score <= totalMarks && maxXp >= 0
    ensures 0 <= QuizXp(score, totalMarks, maxXp) <= maxXp
    ensures totalMarks > 0 && score == totalMarks ==> QuizXp(score, totalMarks, maxXp) == maxXp
  {
    if totalMarks > 0 {
      MulMonotone(score, totalMarks, maxXp);
      MulMonotone(0, score, maxXp);
      HalfUpBounds(score * maxXp, totalMarks, maxXp);
    }
  }

  /** For 0 <= n <= d*m the rounded quotient n/d lies in 0 .. m, and is m
      when n == d*m. */
  lemma HalfUpBounds(n: int, d: int, m: int)
    requires d > 0 && 0 <= n <= d * m
    ensures 0 <= HalfUp(n, d) <= m
    ensures n == d * m ==> HalfUp(n, d) == m
  {
    var r := HalfUp(n, d);
    var dr := d * r;
    assert 2 * dr - d <= 2 * n < 2 * dr + d;
    if r > m {
      MulMonotone(m + 1, r, d);
    }
    if r < 0 {
      MulMonotone(r, -1, d);
    }
    if n == d * m && r < m {
      MulMonotone(r + 1, m, d);
    }
  }

  lemma MulMonotone(a: int, b: int, c: int)
    requires a <= b && c >= 0
    ensures a * c <= b * c && c * a <= c * b
  {
  }

  /** quiz.js: `Math.round(score / total * 20)`. With total 0 the quotient is
      NaN or infinite, which is not an XP amount: `None` here. */
  function LegacyQuizXp(score: int, total: int): (xp: Option<int>)
    ensures xp.None? <==> total == 0
    ensures total > 0 ==> xp == Some(QuizXp(score, total, LegacyMaxXp))
    ensures total < 0 ==> xp.Some? && -2 * total * xp.value + total <= -2 * score * LegacyMaxXp < -2 * total * xp.value - total
  {
    if total == 0 then None else Some(RoundedShare(score, total, LegacyMaxXp))
  }

  /** The fixed maximum of quiz.js ("20 XP for full score"). */
  const LegacyMaxXp := 20

  /** With non-negative marks and a non-zero total, quiz.js awards 0 .. 20
      XP, and 20 on a perfect score. */
  lemma LegacyQuizXpBounds(score: int, total: int)
    requires 0 <= score <= total && total > 0
    ensures LegacyQuizXp(score, total).Some?
    ensures 0 <= LegacyQuizXp(score, total).value <= LegacyMaxXp
    ensures score == total ==> LegacyQuizXp(score, total).value == LegacyMaxXp
  {
    QuizXpBounds(score, total, LegacyMaxXp);
  }

  /** Two one-mark mcq questions, one answered correctly: score 1 of 2, and
      10 XP out of 20 under either rule. */
  lemma HalfCorrectScenario(rule: Rule)
    ensures var questions := [Question("q1", "mcq", Some(1), Int(0)), Question("q2", "mcq", Some(1), Int(1))];
            var answers := [Answer("q1", Int(0)), Answer("q2", Int(0))];
            var qmap := QuestionMap(questions);
            Score(rule, qmap, answers) == 1 && Total(qmap, answers) == 2 &&
            LegacyQuizXp(1, 2) == Some(10) && QuizXp(1, 2, 20) == 10
  {
    var questions := [Question("q1", "mcq", Some(1), Int(0)), Question("q2", "mcq", Some(1), Int(1))];
    var answers := [Answer("q1", Int(0)), Answer("q2", Int(0))];
    assert questions[..1] == [questions[0]];
    assert questions[..1][..0] == [];
    assert QuestionMap(questions[..1]) == QuestionMap([])[questions[0].id := questions[0]];
    var qmap := QuestionMap(questions);
    assert qmap == QuestionMap(questions[..1])[questions[1].id := questions[1]];
    assert qmap == map["q1" := questions[0], "q2" := questions[1]];
    assert answers[..1] == [answers[0]];
    assert answers[..1][..0] == [];
  }
}
