/**
 * The results screen of components/Results.tsx as pure functions of the
 * question list and the result list: the score, the mistake count, the
 * percentage and its rounded display, the feedback tier, and the
 * per-question breakdown.
 */
module Scoring {
  import opened QuizTypes
  import QuizEngine

  /** The number of correct results (the length of the filtered list). */
  function Score(rs: seq<QuizResult>): (r: nat)
    ensures r <= |rs|
    ensures r == |rs| <==> forall k | 0 <= k < |rs| :: rs[k].isCorrect
    ensures r == 0 <==> forall k | 0 <= k < |rs| :: !rs[k].isCorrect
    decreases |rs|
  {
    if rs == [] then 0
    else
      var n := |rs| - 1;
      assert forall k | 0 <= k < n :: rs[..n][k] == rs[k];
      Score(rs[..n]) + (if rs[n].isCorrect then 1 else 0)
  }

  /** The number of results that are not correct. */
  function WrongCount(rs: seq<QuizResult>): nat
    decreases |rs|
  {
    if rs == [] then 0
    else
      var n := |rs| - 1;
      WrongCount(rs[..n]) + (if rs[n].isCorrect then 0 else 1)
  }

  /** Every result is either counted in the score or counted as wrong. */
  lemma {:induction false} ScorePlusWrong(rs: seq<QuizResult>)
    ensures Score(rs) + WrongCount(rs) == |rs|
    decreases |rs|
  {
    if rs != [] {
      ScorePlusWrong(rs[..|rs| - 1]);
    }
  }

  /** Appending one result raises the score by one exactly when that result is correct. */
  lemma ScoreAppend(rs: seq<QuizResult>, x: QuizResult)
    ensures Score(rs + [x]) == Score(rs) + (if x.isCorrect then 1 else 0)
  {
    assert (rs + [x])[..|rs|] == rs;
  }

  /**
   * The "Mistakes" figure and the "Wrong" slice of the chart: questions minus
   * score. With no more results than questions it is never negative, and
   * after a complete quiz it is exactly the number of wrong answers.
   */
  function Mistakes(qs: seq<Question>, rs: seq<QuizResult>): (m: int)
    ensures |rs| <= |qs| ==> 0 <= m <= |qs|
    ensures |rs| == |qs| ==> m == WrongCount(rs)
  {
    ScorePlusWrong(rs);
    |qs| - Score(rs)
  }

  /** Multiplying both sides by a positive number keeps order and equality. */
  lemma ScaleCompare(x: real, y: real, c: real)
    requires 0.0 < c
    ensures x < y <==> x * c < y * c
    ensures x == y <==> x * c == y * c
  {
    if x < y { assert (y - x) * c > 0.0; }
    if y < x { assert (x - y) * c > 0.0; }
  }

  /**
   * The percentage in exact arithmetic; the page computes it in floating point.
   * It never exceeds 100 when the score does not exceed the question count,
   * and it is exactly 100 when every question was answered correctly.
   */
  function Percentage(score: nat, n: nat): (p: real)
    requires 0 < n
    ensures p * (n as real) == 100.0 * (score as real)
    ensures score <= n ==> p <= 100.0
    ensures p == 100.0 <==> score == n
  {
    var p := (score as real / n as real) * 100.0;
    ScaleCompare(p, 100.0, n as real);
    ScaleCompare(100.0, p, n as real);
    p
  }

  /** Comparing the percentage with a whole threshold is the same as comparing integers. */
  lemma PercentageAtLeast(score: nat, n: nat, t: int)
    requires 0 < n
    ensures Percentage(score, n) >= t as real <==> 100 * score >= t * n
  {
    var p := Percentage(score, n);
    ScaleCompare(p, t as real, n as real);
    assert (t * n) as real == (t as real) * (n as real);
    assert (100 * score) as real == 100.0 * (score as real);
  }

  /** The four feedback headings of the results screen. */
  datatype Feedback = Amazing | GreatJob | NiceWork | GoodEffort
  {
    function Title(): string
    {
      match this
      case Amazing => "You're Amazing!"
      case GreatJob => "Great Job!"
      case NiceWork => "Nice Work!"
      case GoodEffort => "Good Effort!"
    }

    function Text(): string
    {
      match this
      case Amazing => "Wow, you got every single one right!"
      case GreatJob => "You really know your stuff!"
      case NiceWork => "You did pretty well!"
      case GoodEffort => "Keep practicing, you'll get it!"
    }

    /** Position in the ordering from lowest to highest tier. */
    function Rank(): nat
    {
      match this
      case GoodEffort => 0
      case NiceWork => 1
      case GreatJob => 2
      case Amazing => 3
    }
  }

  /** Each tier has its own heading and its own text, so the screen tells the four tiers apart. */
  lemma FeedbackShownDistinctly(f: Feedback, g: Feedback)
    ensures f.Title() == g.Title() <==> f == g
    ensures f.Text() == g.Text() <==> f == g
  {
  }

  /**
   * The feedback for `score` correct answers out of `n` questions, the tier
   * tests made in order with the first match winning. With no questions the
   * page divides by zero: 0/0 is NaN, which fails every test, and a positive
   * score over 0 is +Infinity, which passes the 80 test.
   */
  function FeedbackFor(score: nat, n: nat): (f: Feedback)
    ensures 0 < n ==> (f == Amazing <==> Percentage(score, n) == 100.0)
    ensures 0 < n ==> (f == GreatJob <==> Percentage(score, n) != 100.0 && Percentage(score, n) >= 80.0)
    ensures 0 < n ==> (f == NiceWork <==> Percentage(score, n) != 100.0 && Percentage(score, n) < 80.0 && Percentage(score, n) >= 60.0)
    ensures 0 < n ==> (f == GoodEffort <==> Percentage(score, n) != 100.0 && Percentage(score, n) < 60.0)
    ensures n == 0 ==> (f == GoodEffort <==> score == 0)
    ensures n == 0 ==> (f == GreatJob <==> score != 0)
  {
    if n == 0 then (if score == 0 then GoodEffort else GreatJob)
    else
      PercentageAtLeast(score, n, 80);
      PercentageAtLeast(score, n, 60);
      if score == n then Amazing
    else if 100 * score >= 80 * n then GreatJob
    else if 100 * score >= 60 * n then NiceWork
    else GoodEffort
  }

  /** Over the same number of questions, a higher score never gets a lower tier. */
  lemma FeedbackMonotone(s1: nat, s2: nat, n: nat)
    requires s1 <= s2 <= n
    ensures FeedbackFor(s1, n).Rank() <= FeedbackFor(s2, n).Rank()
  {
  }

  /**
   * The tier boundaries are inclusive: exactly 80% is a great job, 100% is
   * never one, and 3 of 5 (60%) is nice work.
   */
  lemma FeedbackBoundaries(score: nat, n: nat)
    requires 0 < n
    ensures 100 * score == 80 * n ==> FeedbackFor(score, n) == GreatJob
    ensures score == n ==> FeedbackFor(score, n) == Amazing
    ensures 100 * score == 60 * n ==> FeedbackFor(score, n) == NiceWork
    ensures FeedbackFor(3, 5) == NiceWork && FeedbackFor(4, 5) == GreatJob && FeedbackFor(2, 5) == GoodEffort
  {
  }

  /**
   * The figure shown in the chart: the percentage rounded half up, as
   * `Math.round` does. None stands for the NaN or Infinity shown when there
   * are no questions.
   */
  function RoundedPercentage(score: nat, n: nat): (r: Option<int>)
    ensures r.None? <==> n == 0
    ensures r.Some? ==> (r.value as real) <= Percentage(score, n) + 0.5 < (r.value as real) + 1.0
  {
    if n == 0 then None
    else
      var r := (200 * score + n) / (2 * n);
      RoundedIsNearest(score, n, r);
      Some(r)
  }

  /** The quotient `(200 * score + n) / (2 * n)` is `Math.round` of the percentage. */
  lemma RoundedIsNearest(score: nat, n: nat, r: int)
    requires 0 < n && r == (200 * score + n) / (2 * n)
    ensures (r as real) <= Percentage(score, n) + 0.5 < (r as real) + 1.0
  {
    var a, b := 200 * score + n, 2 * n;
    var m := a - r * b;
    assert 0 <= m < b;
    assert (r * b) as real == (r as real) * (b as real);
    NearestFromRemainder(Percentage(score, n), n as real, score as real, r as real, m as real);
  }

  /**
   * If 200s + n = 2n r + m with 0 <= m < 2n, then p = 100s/n lies in
   * [r - 0.5, r + 0.5).
   */
  lemma NearestFromRemainder(p: real, n: real, s: real, r: real, m: real)
    requires 0.0 < n && p * n == 100.0 * s
    requires 200.0 * s + n == r * (2.0 * n) + m && 0.0 <= m < 2.0 * n
    ensures r <= p + 0.5 < r + 1.0
  {
    var d := p + 0.5 - r;
    assert d * (2.0 * n) == m;
    ScaleCompare(d, 0.0, 2.0 * n);
    ScaleCompare(d, 1.0, 2.0 * n);
  }

  /** With no more correct answers than questions the figure lies in 0..100, and a perfect score shows 100. */
  lemma RoundedPercentageRange(score: nat, n: nat)
    requires 0 < n && score <= n
    ensures RoundedPercentage(score, n).Some?
    ensures 0 <= RoundedPercentage(score, n).value <= 100
    ensures score == n ==> RoundedPercentage(score, n).value == 100
  {
    var a, b := 200 * score + n, 2 * n;
    var r := RoundedPercentage(score, n).value;
    assert r == a / b;
    var m := a - r * b;
    assert 0 <= m < b;
    assert a < 101 * b;
    ScaleCompareInt(r, 101, b);
    if score == n {
      assert 100 * b <= a;
      ScaleCompareInt(99, r, b);
    }
  }

  /** Multiplying both sides by a positive integer keeps strict order. */
  lemma ScaleCompareInt(x: int, y: int, c: int)
    requires 0 < c
    ensures x < y <==> x * c < y * c
  {
    if x < y { assert (y - x) * c > 0; }
    if y <= x { assert (x - y) * c >= 0; }
  }

  /** The first result about question `idx`, as `results.find` returns it. */
  function FindResult(rs: seq<QuizResult>, idx: int): (r: Option<QuizResult>)
    ensures r.Some? ==> r.value in rs && r.value.questionIndex == idx
    ensures r.None? <==> forall k | 0 <= k < |rs| :: rs[k].questionIndex != idx
  {
    if rs == [] then None
    else if rs[0].questionIndex == idx then Some(rs[0])
    else
      assert forall k | 1 <= k < |rs| :: rs[k] == rs[1..][k - 1];
      FindResult(rs[1..], idx)
  }

  /** Lookup by position returns the earliest matching result, whatever comes after it. */
  lemma {:induction false} FindResultIsFirst(rs: seq<QuizResult>, idx: int, j: nat)
    requires j < |rs| && rs[j].questionIndex == idx
    requires forall k | 0 <= k < j :: rs[k].questionIndex != idx
    ensures FindResult(rs, idx) == Some(rs[j])
  {
    if j > 0 {
      assert rs[1..][j - 1] == rs[j];
      FindResultIsFirst(rs[1..], idx, j - 1);
    }
  }

  /** The option text at position `i`, or nothing (`undefined`) when there is no such option. */
  function OptionText(q: Question, i: int): (t: Option<string>)
    ensures t.Some? <==> 0 <= i < |q.options|
    ensures t.Some? ==> t.value == q.options[i]
  {
    if 0 <= i < |q.options| then Some(q.options[i]) else None
  }

  /** One card of the answer breakdown. */
  datatype Entry = Entry(
    prompt: string,
    markedCorrect: bool,
    yourChoice: Option<string>,
    showsRightOne: bool,
    rightOne: Option<string>)

  /**
   * The card for question `q` given the result found for it (if any): the
   * choice falls back to the first option when there is no result, and the
   * "right one" box appears exactly when the result is missing or wrong.
   */
  function EntryFor(q: Question, found: Option<QuizResult>): (e: Entry)
    ensures e.prompt == q.question
    ensures e.markedCorrect <==> found.Some? && found.value.isCorrect
    ensures found.None? ==> e.yourChoice == OptionText(q, 0)
    ensures found.Some? ==> e.yourChoice == OptionText(q, found.value.selectedOptionIndex)
    ensures e.showsRightOne <==> found.None? || !found.value.isCorrect
    ensures e.rightOne == OptionText(q, q.correctAnswerIndex)
  {
    var isCorrect := found.Some? && found.value.isCorrect;
    // `result?.selectedOptionIndex || 0`: a missing result and a 0 both give 0
    var choice := if found.Some? && found.value.selectedOptionIndex != 0 then found.value.selectedOptionIndex else 0;
    Entry(q.question, isCorrect, OptionText(q, choice), !isCorrect, OptionText(q, q.correctAnswerIndex))
  }

  /** The breakdown: one card per question, in the questions' order, looked up by position. */
  function Breakdown(qs: seq<Question>, rs: seq<QuizResult>): (es: seq<Entry>)
    ensures |es| == |qs|
  {
    seq(|qs|, idx requires 0 <= idx < |qs| => EntryFor(qs[idx], FindResult(rs, idx)))
  }

  /**
   * After a complete quiz every card shows the answer given for its own
   * question, is marked correct exactly when that answer is the right one,
   * and shows the right one otherwise.
   */
  lemma BreakdownOfCompleteQuiz(qs: seq<Question>, rs: seq<QuizResult>)
    requires QuizEngine.ResultsInOrder(qs, rs) && |rs| == |qs|
    ensures forall idx | 0 <= idx < |qs| ::
              && Breakdown(qs, rs)[idx].markedCorrect == (rs[idx].selectedOptionIndex == qs[idx].correctAnswerIndex)
              && Breakdown(qs, rs)[idx].yourChoice == Some(qs[idx].options[rs[idx].selectedOptionIndex])
              && (Breakdown(qs, rs)[idx].showsRightOne <==> rs[idx].selectedOptionIndex != qs[idx].correctAnswerIndex)
  {
    forall idx | 0 <= idx < |qs|
      ensures FindResult(rs, idx) == Some(rs[idx])
    {
      FindResultIsFirst(rs, idx, idx);
    }
  }

  /**
   * After a complete quiz the feedback is "You're Amazing!" exactly when no
   * card is marked wrong.
   */
  lemma PerfectIffAllCorrect(qs: seq<Question>, rs: seq<QuizResult>)
    requires QuizEngine.ResultsInOrder(qs, rs) && |rs| == |qs| && 0 < |qs|
    ensures FeedbackFor(Score(rs), |qs|).Title() == "You're Amazing!" <==>
              forall idx | 0 <= idx < |qs| :: Breakdown(qs, rs)[idx].markedCorrect
  {
    FeedbackShownDistinctly(FeedbackFor(Score(rs), |qs|), Amazing);
    BreakdownOfCompleteQuiz(qs, rs);
    if FeedbackFor(Score(rs), |qs|) == Amazing {
      assert forall idx | 0 <= idx < |qs| :: rs[idx].isCorrect;
    } else {
      assert exists idx | 0 <= idx < |qs| :: !rs[idx].isCorrect;
    }
  }
}
