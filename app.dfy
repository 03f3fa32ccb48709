/**
 * The screen controller of App.tsx: which of the four screens is shown and
 * the data those screens get. The question request is asynchronous, so it is
 * split into the event that starts it (`BeginFetch`) and the two events that
 * can end it (`FetchSucceeded`, `FetchFailed`). A topic can only be submitted
 * from the home screen and a quiz can only finish on the quiz screen, because
 * those handlers are given only to the components mounted there. The request's
 * completions and the restart are not guarded: a request may complete after a
 * restart, and each completion is applied as it comes.
 */
module ScreenController {
  import opened QuizTypes
  import QuizEngine

  /** The one message shown on the home screen when questions could not be fetched. */
  const FailureMessage: string := "Oops! I couldn't get the quiz ready. Can you try again?"

  /** The component rendered in the main area, with the data it receives. */
  datatype Screen =
    | HomeView(error: Option<string>)
    | LoadingView
    | QuizView(questions: seq<Question>)
    | ResultsView(questions: seq<Question>, results: seq<QuizResult>)

  class App {
    var state: AppState
    var questions: seq<Question>
    var results: seq<QuizResult>
    var error: Option<string>

    /**
     * What every transition keeps: the quiz and results screens have questions
     * to show (because a successful fetch is required to deliver some), the
     * loading screen carries no error, and the only error ever shown is the
     * fixed message.
     */
    ghost predicate Valid()
      reads this
    {
      && (state == Quiz ==> 0 < |questions|)
      && (state == Results ==> 0 < |questions|)
      && (state == Loading ==> error == None)
      && (error.Some? ==> error.value == FailureMessage)
    }

    constructor ()
      ensures Valid()
      ensures state == Home && questions == [] && results == [] && error == None
    {
      state := Home;
      questions := [];
      results := [];
      error := None;
    }

    /** Submitting a topic on the home screen: show the loading screen and clear any earlier error. */
    method BeginFetch()
      requires Valid() && state == Home
      modifies this
      ensures Valid()
      ensures state == Loading && error == None
      ensures questions == old(questions) && results == old(results)
    {
      state := Loading;
      error := None;
    }

    /**
     * The question request delivered `qs`: store them, start with no results
     * and show the quiz. The error is left as it is.
     */
    method FetchSucceeded(qs: seq<Question>)
      requires Valid()
      requires 0 < |qs|
      modifies this
      ensures Valid()
      ensures state == Quiz && questions == qs && results == []
      ensures error == old(error)
    {
      questions := qs;
      results := [];
      state := Quiz;
    }

    /** The question request failed: back to the home screen with the fixed message. */
    method FetchFailed()
      requires Valid()
      modifies this
      ensures Valid()
      ensures state == Home && error == Some(FailureMessage)
      ensures questions == old(questions) && results == old(results)
    {
      error := Some(FailureMessage);
      state := Home;
    }

    /** The quiz on screen handed over its result list: store exactly that list and show the results. */
    method HandleQuizFinish(finalResults: seq<QuizResult>)
      requires Valid() && state == Quiz
      modifies this
      ensures Valid()
      ensures state == Results && results == finalResults
      ensures questions == old(questions) && error == old(error)
    {
      results := finalResults;
      state := Results;
    }

    /**
     * The header logo, the quiz's Quit button and the results' restart button:
     * from any state, the home screen with nothing kept. The new state does not
     * depend on the old one, so restarting twice is the same as restarting once.
     */
    method Restart()
      requires Valid()
      modifies this
      ensures Valid()
      ensures state == Home && questions == [] && results == [] && error == None
    {
      state := Home;
      questions := [];
      results := [];
      error := None;
    }

    /** The one screen rendered, chosen by `state` alone. */
    function CurrentScreen(): (s: Screen)
      reads this
      ensures s.HomeView? <==> state == Home
      ensures s.LoadingView? <==> state == Loading
      ensures s.QuizView? <==> state == Quiz
      ensures s.ResultsView? <==> state == Results
      ensures s.HomeView? ==> s.error == error
      ensures s.QuizView? || s.ResultsView? ==> s.questions == questions
      ensures s.ResultsView? ==> s.results == results
      ensures Valid() && (s.QuizView? || s.ResultsView?) ==> 0 < |s.questions|
    {
      match state
      case Home => HomeView(error)
      case Loading => LoadingView
      case Quiz => QuizView(questions)
      case Results => ResultsView(questions, results)
    }

    /** The "Quiz Time!" badge in the header is shown exactly on the quiz screen. */
    predicate ShowsQuizBadge(): (b: bool)
      reads this
      ensures b <==> CurrentScreen().QuizView?
    {
      state == Quiz
    }
  }

  /**
   * A whole attempt from the home screen as the application drives it: fetch, take the quiz
   * (a session over the fetched questions, answered with `answers`), finish,
   * and the results screen shows exactly the fetched questions and one result
   * per question in order.
   */
  method Attempt(app: App, qs: seq<Question>, answers: seq<nat>)
    requires app.Valid() && app.state == Home && 0 < |qs| && |answers| == |qs|
    requires forall k | 0 <= k < |qs| :: answers[k] < |qs[k].options|
    modifies app
    ensures app.Valid()
    ensures app.CurrentScreen() == ResultsView(qs, QuizEngine.Record(qs, answers))
    ensures |app.results| == |qs| && QuizEngine.ResultsInOrder(qs, app.results)
  {
    app.BeginFetch();
    app.FetchSucceeded(qs);
    var session := new QuizEngine.QuizSession(app.questions);
    var finalResults := QuizEngine.AnswerAll(session, answers);
    app.HandleQuizFinish(finalResults);
  }
}
