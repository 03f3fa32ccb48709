/**
 * The quiz-taking engine of components/Quiz.tsx: a walk through a fixed list
 * of questions that keeps a tentative selection for the current question and
 * appends one result per confirmed answer.
 */
module QuizEngine {
  import opened QuizTypes

  /**
   * The result list produced by confirming `answers[0]`, `answers[1]`, ... in turn:
   * one confirmation per question, from the first question on.
   */
  function Record(qs: seq<Question>, answers: seq<nat>): seq<QuizResult>
    requires |answers| <= |qs|
    decreases |answers|
  {
    if answers == [] then []
    else
      var k := |answers| - 1;
      Record(qs, answers[..k]) + [QuizResult(k, answers[k], answers[k] == qs[k].correctAnswerIndex)]
  }

  /** Every confirmed answer names one of the options its question offers. */
  ghost predicate AnswersFit(qs: seq<Question>, answers: seq<nat>)
  {
    |answers| <= |qs| && forall k | 0 <= k < |answers| :: answers[k] < |qs[k].options|
  }

  /**
   * A result list in question order: entry `k` is about question `k`, names one
   * of its options, and is correct exactly when that option is the right one.
   */
  ghost predicate ResultsInOrder(qs: seq<Question>, rs: seq<QuizResult>)
  {
    && |rs| <= |qs|
    && forall k | 0 <= k < |rs| ::
         && rs[k].questionIndex == k
         && 0 <= rs[k].selectedOptionIndex < |qs[k].options|
         && (rs[k].isCorrect <==> rs[k].selectedOptionIndex == qs[k].correctAnswerIndex)
  }

  /** The `k`-th recorded result is the grading of the `k`-th answer against the `k`-th question. */
  lemma {:induction false} RecordAt(qs: seq<Question>, answers: seq<nat>)
    requires |answers| <= |qs|
    ensures |Record(qs, answers)| == |answers|
    ensures forall k | 0 <= k < |answers| ::
              Record(qs, answers)[k] == QuizResult(k, answers[k], answers[k] == qs[k].correctAnswerIndex)
  {
    if answers != [] {
      var n := |answers| - 1;
      RecordAt(qs, answers[..n]);
    }
  }

  /** Answers that fit their questions are recorded as a result list in question order. */
  lemma RecordInOrder(qs: seq<Question>, answers: seq<nat>)
    requires AnswersFit(qs, answers)
    ensures ResultsInOrder(qs, Record(qs, answers))
    ensures |Record(qs, answers)| == |answers|
  {
    RecordAt(qs, answers);
  }

  /**
   * The letter shown on the option button at position `idx`: 'A' for the
   * first, 'B' for the second, and so on.
   */
  function OptionLabel(idx: nat): (c: char)
    requires 'A' as int + idx < 0xD800
    ensures c as int - 'A' as int == idx
    ensures idx < 26 ==> 'A' <= c <= 'Z'
  {
    ('A' as int + idx) as char
  }

  /** Distinct option positions get distinct letters; the four options of a generated question read A to D. */
  lemma OptionLabelsDistinct(i: nat, j: nat)
    requires 'A' as int + i < 0xD800 && 'A' as int + j < 0xD800
    ensures OptionLabel(i) == OptionLabel(j) <==> i == j
    ensures [OptionLabel(0), OptionLabel(1), OptionLabel(2), OptionLabel(3)] == "ABCD"
  {
  }

  /**
   * One mounted quiz over a fixed, non-empty question list. `finished` is the
   * state after the last confirmation, once the list has been handed to the
   * application; the application then unmounts the quiz, so nothing follows it.
   */
  class QuizSession {
    const questions: seq<Question>
    var currentIndex: nat
    var selectedOption: Option<nat>
    var results: seq<QuizResult>
    var finished: bool
    /** The answers confirmed so far, in order. */
    ghost var answers: seq<nat>

    ghost predicate Valid()
      reads this
    {
      && 0 < |questions|
      && currentIndex < |questions|
      && |answers| == (if finished then currentIndex + 1 else currentIndex)
      && (finished ==> currentIndex == |questions| - 1)
      && AnswersFit(questions, answers)
      && results == Record(questions, answers)
      && (selectedOption.Some? ==> selectedOption.value < |questions[currentIndex].options|)
    }

    /**
     * Whether the question on screen is the last one (the button then reads
     * "See Score"); when it is not, there is a next question to move to.
     */
    predicate IsLastQuestion(): (last: bool)
      reads this
      ensures Valid() && !last ==> currentIndex + 1 < |questions|
    {
      currentIndex == |questions| - 1
    }

    constructor (qs: seq<Question>)
      requires 0 < |qs|
      ensures Valid()
      ensures questions == qs && currentIndex == 0 && selectedOption == None
      ensures results == [] && !finished && answers == []
    {
      questions := qs;
      currentIndex := 0;
      selectedOption := None;
      results := [];
      finished := false;
      answers := [];
    }

    /**
     * Clicking option button `idx` of the current question: the tentative
     * selection becomes `idx`, whatever it was before.
     */
    method Select(idx: nat)
      requires Valid() && !finished
      requires idx < |questions[currentIndex].options|
      modifies this
      ensures Valid()
      ensures selectedOption == Some(idx)
      ensures currentIndex == old(currentIndex) && results == old(results)
      ensures finished == old(finished) && answers == old(answers)
    {
      selectedOption := Some(idx);
    }

    /**
     * The Next / See Score button. Without a selection nothing happens.
     * Otherwise the confirmed answer is appended as one result; on the last
     * question the whole list is handed over (returned as `handed`), on any
     * other the next question comes up with no selection.
     */
    method Next() returns (handed: Option<seq<QuizResult>>)
      requires Valid() && !finished
      modifies this
      ensures Valid()
      ensures old(selectedOption).None? ==>
                && handed == None && !finished
                && currentIndex == old(currentIndex) && selectedOption == None
                && results == old(results) && answers == old(answers)
      ensures old(selectedOption).Some? ==>
                && answers == old(answers) + [old(selectedOption).value]
                && results == old(results) + [QuizResult(old(currentIndex), old(selectedOption).value,
                                                         old(selectedOption).value == questions[old(currentIndex)].correctAnswerIndex)]
      ensures old(selectedOption).Some? && old(currentIndex) == |questions| - 1 ==>
                && finished && handed == Some(results)
                && currentIndex == old(currentIndex) && selectedOption == old(selectedOption)
      ensures old(selectedOption).Some? && old(currentIndex) < |questions| - 1 ==>
                && !finished && handed == None
                && currentIndex == old(currentIndex) + 1 && selectedOption == None
      ensures handed.Some? ==> |handed.value| == |questions| && ResultsInOrder(questions, handed.value)
    {
      handed := None;
      if selectedOption == None {
        return;
      }
      var sel := selectedOption.value;
      var newResult := QuizResult(currentIndex, sel, sel == questions[currentIndex].correctAnswerIndex);
      results := results + [newResult];
      answers := answers + [sel];
      assert answers[..currentIndex] == old(answers);
      RecordInOrder(questions, answers);
      if IsLastQuestion() {
        finished := true;
        handed := Some(results);
      } else {
        currentIndex := currentIndex + 1;
        selectedOption := None;
      }
    }
  }

  /**
   * A user answering every question of a fresh session in turn, selecting
   * `answers[i]` and confirming it: the list handed over at the end holds
   * exactly one result per question, in question order.
   */
  method AnswerAll(session: QuizSession, answers: seq<nat>) returns (handed: seq<QuizResult>)
    requires session.Valid() && session.currentIndex == 0 && !session.finished && session.answers == []
    requires |answers| == |session.questions|
    requires forall k | 0 <= k < |answers| :: answers[k] < |session.questions[k].options|
    modifies session
    ensures session.Valid() && session.finished
    ensures handed == session.results == Record(session.questions, answers)
    ensures |handed| == |session.questions| && ResultsInOrder(session.questions, handed)
  {
    var i := 0;
    var done: Option<seq<QuizResult>> := None;
    while i < |answers|
      invariant 0 <= i <= |answers|
      invariant session.Valid() && session.answers == answers[..i]
      invariant i < |answers| ==> !session.finished && session.currentIndex == i && done == None
      invariant i == |answers| ==> session.finished && done == Some(session.results)
      decreases |answers| - i
    {
      session.Select(answers[i]);
      done := session.Next();
      assert answers[..i + 1] == answers[..i] + [answers[i]];
      i := i + 1;
    }
    assert answers[..i] == answers;
    RecordInOrder(session.questions, answers);
    handed := done.value;
  }
}
