# Quiz app: a verified model of its client-side logic

This project models the client-side logic of a browser quiz app. A user
types a topic, a generative-AI service returns multiple-choice questions,
the user answers them one at a time, and a results screen shows the score,
a feedback heading and a breakdown of the answers.

Three pieces of logic are modelled:

- **The quiz engine** (`components/Quiz.tsx`). It is the class
  `QuizEngine.QuizSession`. Its state is the current question index, an
  optional tentative selection and the list of results so far. `Select` is
  a click on an option button. `Next` is the Next / See Score button. A
  `finished` flag stands for the moment the list is handed to the
  application, which then unmounts the quiz. A ghost field `answers` holds
  the confirmed answers. The invariant `Valid()` ties the result list to
  `Record(questions, answers)`, so results arrive in question order.
- **Scoring and feedback** (`components/Results.tsx`). These are pure
  functions in module `Scoring`: the score, the mistake count, the exact
  percentage, the rounded percentage shown in the chart, the four-tier
  feedback heading, and the per-question breakdown.
- **The screen controller** (`App.tsx`). It is the class
  `ScreenController.App`, with fields `state`, `questions`, `results` and
  `error`, and one method per transition. The asynchronous question request
  is split into three events. `BeginFetch` starts it. `FetchSucceeded` and
  `FetchFailed` complete it. A topic is submitted only from the home
  screen and a quiz finishes only on the quiz screen, because those
  handlers are given only to the components mounted there (`App.tsx:66`,
  `App.tsx:73-78`); `BeginFetch` and `HandleQuizFinish` require those
  states. The two completions and the restart check no state. A request
  can complete after a restart, and each completion is applied when it
  arrives.

The value types of `types.ts` are in module `QuizTypes`.

Notes on what the code does (the model follows it):

- The code has no guard against a second request while one is running.
  Nothing here claims a single request at a time.
- The code does not validate the shape of the service's answer. A
  successful fetch is modelled with the precondition that it delivers at
  least one question. This precondition is what makes `App.Valid()`'s
  clauses "the quiz screen has questions" and "the results screen has
  questions" hold. The code itself does not
  guarantee it.
- A successful fetch does not clear the error. Only `BeginFetch` and
  `Restart` clear it.
- Selecting an option does no range check. Only in-range option buttons
  exist, so `Select` requires an in-range index. It does not model a
  rejected selection.
- The quiz has no cancel operation of its own. Its Quit button calls the
  application's restart, which is `App.Restart`.
- On the last question, confirming does not clear the selection and does
  not move the index.
- The breakdown's "your choice" falls back to the first option when no
  result is found. The code does this leniently (`|| 0`), and the model
  keeps the fallback.

## Model

| member | source | states |
|---|---|---|
| QuizEngine.QuizSession.constructor | components/Quiz.tsx:12-14 | a new session is at question 0 with no selection, no results and not finished |
| QuizEngine.QuizSession.IsLastQuestion | components/Quiz.tsx:18 | whether the current question is the last one; when it is not, moving on to index + 1 stays within the question list |
| QuizEngine.QuizSession.Select | components/Quiz.tsx:69-72 | the tentative selection becomes the clicked option, overwriting any earlier one; index, results and finished flag are unchanged |
| QuizEngine.QuizSession.Next | components/Quiz.tsx:24-41 | with no selection nothing changes and nothing is handed over; otherwise exactly one result is appended (question index = current index, the selected option, correct iff it equals the question's right answer), earlier results are kept; on the last question the session finishes and hands over the whole list, which then has one in-order result per question; otherwise the index goes up by one and the selection is cleared; `Valid()` (results = `Record` of the confirmed answers, in question order) is kept |
| QuizEngine.RecordAt | components/Quiz.tsx:27-34 | after k confirmations the result list has k entries and entry k is (k, answer k, answer k == right answer of question k) |
| QuizEngine.RecordInOrder | components/Quiz.tsx:24-41 | answers that name real options give a result list in question order: entry k is about question k, names one of its options and is correct exactly when that option is the right one |
| QuizEngine.AnswerAll | components/Quiz.tsx:24-41 | selecting and confirming N answers on a fresh N-question session finishes it and hands over exactly `Record(questions, answers)`: N results, in order 0..N-1 |
| QuizEngine.OptionLabel | components/Quiz.tsx:88 | the button letter for option `idx` is `idx` places after 'A', a capital letter for the first 26 |
| QuizEngine.OptionLabelsDistinct | components/Quiz.tsx:88 | different positions get different letters; positions 0..3 read "ABCD" |
| Scoring.Score | components/Results.tsx:13 | the score lies between 0 and the number of results; it equals that number iff every result is correct, and is 0 iff none is |
| Scoring.ScorePlusWrong | components/Results.tsx:13 | the correct results and the wrong results together are all results |
| Scoring.ScoreAppend | components/Results.tsx:13 | appending a result raises the score by one exactly when that result is correct |
| Scoring.Mistakes | components/Results.tsx:16-19 | the "Wrong" chart slice and the "Mistakes" figure (line 83): with no more results than questions it lies between 0 and the number of questions; after a complete quiz it is the number of wrong results |
| Scoring.Percentage | components/Results.tsx:14 | the exact percentage times the number of questions is 100 times the score; it is at most 100 when the score does not exceed the question count, and exactly 100 iff the score equals the question count |
| Scoring.PercentageAtLeast | components/Results.tsx:25-26 | testing the percentage against a whole threshold t is the integer test 100*score >= t*N |
| Scoring.FeedbackShownDistinctly | components/Results.tsx:24-27 | the four tiers have four different headings ("You're Amazing!", "Great Job!", "Nice Work!", "Good Effort!") and four different texts, so the heading identifies the tier |
| Scoring.FeedbackFor | components/Results.tsx:23-28 | the tier is chosen by the page's tests in order with the first match winning: Amazing iff the percentage is 100, Great Job iff it is not 100 and at least 80, Nice Work iff below 80 and at least 60, Good Effort below 60; with no questions, Good Effort for a zero score (NaN) and Great Job otherwise (Infinity) |
| Scoring.FeedbackMonotone | components/Results.tsx:23-28 | over the same number of questions a higher score never yields a lower tier |
| Scoring.FeedbackBoundaries | components/Results.tsx:24-27 | the thresholds are inclusive: exactly 80% is Great Job, a full score is Amazing and never Great Job, exactly 60% is Nice Work; 3, 4 and 2 of 5 give Nice Work, Great Job and Good Effort |
| Scoring.RoundedPercentage | components/Results.tsx:70 | the chart figure is the integer r with r <= percentage + 0.5 < r + 1 (`Math.round`); absent (NaN or Infinity) exactly when there are no questions |
| Scoring.RoundedIsNearest | components/Results.tsx:70 | the integer quotient (200*score + N) / (2*N) is that rounded value |
| Scoring.RoundedPercentageRange | components/Results.tsx:70 | with score <= N the figure lies in 0..100 and is 100 for a full score |
| Scoring.FindResult | components/Results.tsx:105 | the lookup returns a result from the list whose question index is the one asked for, and returns nothing exactly when no result has that index |
| Scoring.FindResultIsFirst | components/Results.tsx:105 | the lookup returns the first result with that question index |
| Scoring.EntryFor | components/Results.tsx:106-128 | a card is marked correct iff a result was found and it is correct; "your choice" shows the selected option, or the first option when no result was found; the "right one" box, showing the right option, appears exactly when the result is missing or wrong |
| Scoring.Breakdown | components/Results.tsx:104 | the breakdown has one card per question |
| Scoring.BreakdownOfCompleteQuiz | components/Results.tsx:104-128 | after a complete quiz, card k shows the answer given to question k, is marked correct iff that answer is the right one, and shows the right one otherwise |
| Scoring.PerfectIffAllCorrect | components/Results.tsx:24 | after a complete quiz the heading is "You're Amazing!" iff every card is marked correct |
| ScreenController.App.constructor | App.tsx:11-14 | the application starts on the home screen with no questions, no results and no error |
| ScreenController.App.BeginFetch | App.tsx:16-18 | submitting a topic on the home screen shows the loading screen and clears the error; questions and results are untouched |
| ScreenController.App.FetchSucceeded | App.tsx:20-23 | a delivered list is stored as the questions, results are emptied and the quiz is shown; the error is untouched |
| ScreenController.App.FetchFailed | App.tsx:24-27 | a failed request shows the home screen with the single fixed message `FailureMessage` (line 26); questions and results are untouched |
| ScreenController.App.HandleQuizFinish | App.tsx:31-34 | the quiz on screen finishing stores exactly the handed list and shows the results; questions and error are untouched, so the results screen always has questions |
| ScreenController.App.Restart | App.tsx:36-41 | from any state: home screen, no questions, no results, no error; the new state does not depend on the old one, so a second restart changes nothing |
| ScreenController.App.CurrentScreen | App.tsx:65-87 | exactly one screen is rendered, chosen by `state` alone, with the data that screen receives; under `Valid()` the quiz and results screens get a non-empty question list |
| ScreenController.App.ShowsQuizBadge | App.tsx:56-60 | the "Quiz Time!" header badge is shown exactly when the quiz screen is rendered |
| ScreenController.Attempt | App.tsx:16-34 | from the home screen, fetching, answering every question of a session over the fetched list and finishing ends on the results screen, with the fetched questions and one in-order result per question |

## Left out

- The question service (`services/geminiService.ts`) is not part of this model. It makes a network call and parses the response without checking its shape. It appears here only as its two outcomes, `FetchSucceeded(qs)` and `FetchFailed()`. The topic string is never looked at.
- ScreenController.App.FetchSucceeded: requires a non-empty question list. The service does not enforce this. With an empty list the page would fail while rendering the quiz.
- The order in which asynchronous completions arrive is left out. A completion may arrive in any state, and no single-request property is claimed.
- The `console.error(err)` log in the failure branch (`App.tsx:25`) is left out. It writes to the browser console and changes no state.
- `components/Home.tsx` is not part of this model. It is a form whose one check trims the topic with JavaScript's Unicode whitespace rules. `components/LoadingScreen.tsx` is not part of this model either. It is a timer that rotates messages.
- The progress bar value (`components/Quiz.tsx:21`) is left out. It is a floating-point figure used only for display.
- The pie chart, icons, colours, CSS classes and React's scheduling (`useMemo`, `useEffect`, batched state updates) are left out.
- Scoring.FeedbackFor: the percentage is compared in exact rational arithmetic. The page uses IEEE doubles, and rounding error near a threshold is not modelled.
- Scoring.RoundedPercentage: uses exact arithmetic for the same reason, so it can differ from the page by one. For 23 of 40, `(23/40)*100` is 57.49999999999999 in doubles, which the page rounds to 57, while the model gives 58. Its NaN and Infinity displays are collapsed into one absent value.
- QuizEngine.OptionLabel: requires 'A' + idx below the surrogate range. The model does not cover the 16-bit wrap-around or the lone surrogates that `String.fromCharCode` gives for very large indices.
- QuizEngine.QuizSession.Select: requires the index to be an option of the current question, because only those buttons exist. Calls after the session has finished are not modelled, because the quiz is unmounted by then.
- QuizEngine.QuizSession.Next: requires the session not to be finished, for the same reason.
