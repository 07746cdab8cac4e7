/** The question list that frontend/src/pages/QuizCreate.jsx edits before it
    posts a new quiz. Each handler copies the array and changes one slot, so
    the list is a field that every handler reassigns. */
module QuizCreate {

  /** A question being drafted: `{ text, options, answerIndex, marks }`. */
  datatype DraftQuestion = DraftQuestion(text: string, options: seq<string>, answerIndex: int, marks: int)

  /** The question `addQuestion` appends. */
  const BlankQuestion := DraftQuestion("", ["", ""], 0, 1)

  /** `s.filter((_, idx) => idx !== k)`, which for `0 <= k < |s|` is also what
      `s.splice(k, 1)` leaves. */
  function RemoveAt<T>(s: seq<T>, k: int): (r: seq<T>)
    ensures 0 <= k < |s| ==> |r| == |s| - 1
    ensures 0 <= k < |s| ==> forall i :: 0 <= i < k ==> r[i] == s[i]
    ensures 0 <= k < |s| ==> forall i :: k <= i < |r| ==> r[i] == s[i + 1]
    ensures !(0 <= k < |s|) ==> r == s
  {
    if 0 <= k < |s| then s[..k] + s[k + 1..] else s
  }

  class QuizDraft {
    var questions: seq<DraftQuestion>

    /** Every question offers at least two options: new questions start with
        two and removal stops at two. */
    ghost predicate Valid()
      reads this
    {
      forall i :: 0 <= i < |questions| ==> |questions[i].options| >= 2
    }

    /** `useState([])`. */
    constructor ()
      ensures Valid() && questions == []
    {
      questions := [];
    }

    /** `addQuestion`: one blank question at the end. */
    method AddQuestion()
      requires Valid()
      modifies this
      ensures Valid()
      ensures questions == old(questions) + [BlankQuestion]
    {
      questions := questions + [BlankQuestion];
    }

    /** `updateQuestionText(i, value)`. */
    method UpdateQuestionText(i: int, value: string)
      requires Valid() && 0 <= i < |questions|
      modifies this
      ensures Valid()
      ensures questions == old(questions)[i := old(questions)[i].(text := value)]
    {
      var copy := questions;
      copy := copy[i := copy[i].(text := value)];
      questions := copy;
    }

    /** `updateOption(qi, oi, value)`: one option of one question. */
    method UpdateOption(qi: int, oi: int, value: string)
      requires Valid() && 0 <= qi < |questions| && 0 <= oi < |questions[qi].options|
      modifies this
      ensures Valid()
      ensures questions == old(questions)[qi := old(questions)[qi].(options := old(questions)[qi].options[oi := value])]
    {
      var copy := questions;
      copy := copy[qi := copy[qi].(options := copy[qi].options[oi := value])];
      questions := copy;
    }

    /** `addOption(qi)`: an empty option at the end of question qi. */
    method AddOption(qi: int)
      requires Valid() && 0 <= qi < |questions|
      modifies this
      ensures Valid()
      ensures questions == old(questions)[qi := old(questions)[qi].(options := old(questions)[qi].options + [""])]
    {
      var copy := questions;
      copy := copy[qi := copy[qi].(options := copy[qi].options + [""])];
      questions := copy;
    }

    /** `removeOption(qi, oi)`: only a question with more than two options
        loses one; the correct-answer index is left as it was. */
    method RemoveOption(qi: int, oi: int)
      requires Valid() && 0 <= qi < |questions| && 0 <= oi < |questions[qi].options|
      modifies this
      ensures Valid()
      ensures |old(questions)[qi].options| > 2 ==>
        questions == old(questions)[qi := old(questions)[qi].(options := RemoveAt(old(questions)[qi].options, oi))]
      ensures |old(questions)[qi].options| <= 2 ==> questions == old(questions)
    {
      var copy := questions;
      if |copy[qi].options| > 2 {
        copy := copy[qi := copy[qi].(options := RemoveAt(copy[qi].options, oi))];
        questions := copy;
      }
    }

    /** The delete button: `prev.filter((_, idx) => idx !== qi)`. */
    method DeleteQuestion(qi: int)
      requires Valid()
      modifies this
      ensures Valid()
      ensures questions == RemoveAt(old(questions), qi)
    {
      questions := RemoveAt(questions, qi);
    }

    /** The correct-answer select: `copy[qi].answerIndex = Number(value)`. */
    method SetAnswerIndex(qi: int, value: int)
      requires Valid() && 0 <= qi < |questions|
      modifies this
      ensures Valid()
      ensures questions == old(questions)[qi := old(questions)[qi].(answerIndex := value)]
    {
      var copy := questions;
      copy := copy[qi := copy[qi].(answerIndex := value)];
      questions := copy;
    }

    /** The marks input: `copy[qi].marks = Number(value)`. */
    method SetMarks(qi: int, value: int)
      requires Valid() && 0 <= qi < |questions|
      modifies this
      ensures Valid()
      ensures questions == old(questions)[qi := old(questions)[qi].(marks := value)]
    {
      var copy := questions;
      copy := copy[qi := copy[qi].(marks := value)];
      questions := copy;
    }
  }

  /** Removing an option does not move the correct-answer index, so a draft
      whose answer is its last option ends up pointing past the options. */
  method RemovingLastOptionStrandsAnswer() returns (d: QuizDraft)
    ensures d.Valid() && |d.questions| == 1
    ensures d.questions[0].answerIndex == 2 && |d.questions[0].options| == 2
  {
    d := new QuizDraft();
    d.AddQuestion();
    d.AddOption(0);
    d.SetAnswerIndex(0, 2);
    d.RemoveOption(0, 2);
  }
}
