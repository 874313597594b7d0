# Quizzical trivia client: session controller and answer ordering

This project models, in Dafny, the two pieces of the Quizzical trivia-quiz
client that carry logic:

- the **App component** (`src/App.jsx`): the quiz options, the fetched
  question list, the map from question id to selected answer, the
  `quizInProgress` and `quizGraded` flags, the score and the error message,
  together with the handlers that change them (option change, start quiz,
  select answer, score quiz, play again, change quiz, and the two ends of a
  fetch) and the conditions under which the Home form, the questions, the
  submit button and the score panel are rendered;
- the **Question component** (`src/components/Question.jsx`): the order in
  which one question's answers are listed, built once when the card mounts by
  copying the incorrect answers and then pushing or splicing in the correct
  one, and the class name and `checked` flag of each listed answer.

Files:

- `session.dfy`, module `Session`: the session as a value (`SessionState`), the
  handlers as transitions on it (`OnStartQuiz`, `OnScoreQuiz`, ...), the
  grading count `CountCorrect` and its properties, the rendering predicates,
  and event sequences (`Event`, `Step`, `Trace`, `Run`) over which invariants
  are proved. An event is `Enabled` only while the control that raises it is
  rendered; a fetch may resolve at any time.
- `app.dfy`, module `App`: class `QuizSession` with the component's fields;
  every handler method is proved to change the fields exactly as its
  transition in `Session` does, and `ScoreQuiz` counts with a loop proved
  against `CountCorrect`.
- `question.dfy`, module `Question`: `BuildAllAnswers` (the mount effect),
  `InsertAt` (`splice(i, 0, x)`), `ButtonClass`, `Checked`.

External parts are parameters: the random draw is `randomIndex`, restricted to
what `Math.floor(Math.random() * length + 1)` can produce, `[1, max(length, 1)]`;
the result of the engine's `sort((a, b) => a - b)` on a true/false question is
the boolean `sortMovesCorrectFirst`; the HTML-entity decoder is a function
parameter `decode`; the generated identifiers are the sequences `keys` and
`ids`; the outcome of the HTTP request is a `Response` (`NotOk`,
`Received(results)`, `Thrown(message)`).

Behaviour of the component the model keeps:

- there is no loading or errored state: an error is a string field, it is
  never cleared, and it hides Home and the questions but not the submit button;
- a successful fetch replaces the questions and clears neither the answers nor
  the score; play-again clears them before it fetches;
- change-quiz does not clear the answers, the score or the questions;
- a failed fetch leaves the questions as they were.

## Model

| member | source | states |
|---|---|---|
| `Question.InsertAt` | src/components/Question.jsx:30 | splicing `x` in at `i` gives a list one longer with `x` at `i`, the prefix unchanged, the rest shifted right by one, and the multiset grown by exactly `x` |
| `Question.BuildAllAnswers` | src/components/Question.jsx:17-33 | the listed answers are the incorrect answers plus the correct one (same multiset, length plus one); with one incorrect answer the result is one of the two orders; when the slot at `randomIndex` is missing or `""` the correct answer is appended and the others keep their order; otherwise it lands at `randomIndex`, with earlier elements unchanged and later ones shifted right; with two or more incorrect answers the first listed answer is always the first incorrect one, so the correct answer is never at position 0 |
| `Question.ButtonClass` | src/components/Question.jsx:41-50 | before grading the class is `""`; after grading it is `"correct-answer"` exactly for the correct answer, `"incorrect-answer"` exactly for a selected wrong answer, and `""` exactly for the rest |
| `Question.GradedMarksCorrectAnswer` | src/components/Question.jsx:39-50 | after grading a list holding the correct answer marks it, and only it, as correct; a listed wrong selection is marked incorrect |
| `Question.CheckedAtMostOnce` | src/components/Question.jsx:58 | with distinct answers at most one radio input is checked; with the `""` passed for an unanswered question none is, unless an answer is itself `""` |
| `Session.WithOption` | src/App.jsx:52-57 | the named option takes the new value and the other two keep theirs |
| `Session.DecodeAll` | src/App.jsx:37-39 | each incorrect answer is decoded, in order |
| `Session.NormalizeResults` | src/App.jsx:31-40 | one record per result, in the same order, carrying the i-th generated key and id and the decoded question, correct answer and incorrect answers |
| `Session.NormalizedIdsDistinct` | src/App.jsx:33-34 | distinct generated ids give questions with pairwise distinct ids |
| `Session.RecordAnswer` | src/App.jsx:75-82 | the question's entry becomes the answer, every other key and value stays |
| `Session.LastWriteWins` | src/App.jsx:75-82 | two answers for one question leave only the second |
| `Session.SelectedAnswerFor` | src/App.jsx:103 | the answer handed to a question card is its entry, or `""` when it has none |
| `Session.CheckedIffRecorded` | src/components/Question.jsx:58 | a non-empty option is checked exactly when it is the answer recorded for its question |
| `Session.CountCorrect` | src/App.jsx:85-90 | the number of correctly answered questions is at most the number of questions |
| `Session.CountIsCorrectIndices` | src/App.jsx:85-90 | the count equals the number of positions whose question has an entry equal to its correct answer |
| `Session.CountDependsOnlyOnQuestionIds` | src/App.jsx:86-87 | answer maps that agree on the questions' ids give the same count: entries under other keys never count |
| `Session.UnansweredScoreZero` | src/App.jsx:86-87 | questions without an entry never count; with none answered the count is 0 |
| `Session.AllCorrectFullScore` | src/App.jsx:85-90 | every question answered correctly gives the number of questions |
| `Session.CorrectAnswerAddsOne` | src/App.jsx:75-90 | with distinct ids, recording the correct answer of a question not yet answered correctly raises the count by exactly one |
| `Question.SlotFalsy` | src/components/Question.jsx:27 | `!allPossibleAnswers[randomIndex]` holds exactly when the slot does not exist or holds `""`, the only falsy string |
| `Question.Checked` | src/components/Question.jsx:58 | a listed answer's radio input is checked exactly when it equals the selected answer |
| `Session.AnsweredCorrectly` | src/App.jsx:87 | a question counts exactly when the map has an entry for its id equal to its correct answer; a missing entry never counts |
| `Session.OnOptionChange` | src/App.jsx:52-57 | only the named option takes the new value; the other options and every other field are kept |
| `Session.OnStartQuiz` | src/App.jsx:59-61 | the progress flag becomes true and every other field is kept |
| `Session.OnPlayAgain` | src/App.jsx:63-67 | graded off, score unset, answers emptied; options, questions, progress flag and error kept |
| `Session.OnChangeQuiz` | src/App.jsx:70-73 | both flags off; answers, score, questions, options and error kept |
| `Session.OnSelectAnswer` | src/App.jsx:75-82 | the question's entry becomes the answer; every other entry and every other field is kept |
| `Session.OnScoreQuiz` | src/App.jsx:83-93 | graded on, score the number of positions whose question is answered correctly (at most the number of questions); nothing else changes |
| `Session.OnFetchResolved` | src/App.jsx:22-47 | received results replace the questions by `NormalizeResults` and keep everything else; a non-ok status sets the error to `"Failed to fetch"`, a throw sets it to the thrown message, and in both cases everything else is kept |
| `Session.ErrorVisible` | src/App.jsx:124 | the error banner renders exactly when the error is non-empty |
| `Session.HomeVisible` | src/App.jsx:125-131 | Home renders exactly when no quiz is in progress and the error is empty |
| `Session.QuestionsVisible` | src/App.jsx:132 | the questions render exactly when the error is empty and a quiz is in progress |
| `Session.SubmitVisible` | src/App.jsx:133-137 | the submit button renders exactly when a quiz is in progress and not graded, whatever the error |
| `Session.ScoreVisible` | src/App.jsx:139-151 | the score panel renders exactly when the quiz is graded |
| `Session.ScoreQuizProperties` | src/App.jsx:83-93 | grading sets the flag and a score in `[0, number of questions]`, keeps questions, answers and the progress flag, and grading twice gives the same score |
| `Session.PlayAgainStartsCleanRound` | src/App.jsx:63-68 | play-again then a successful fetch leaves no answers, no score, the graded flag off, the progress flag as it was (Home stays bypassed) and the new questions, which then score 0 |
| `Session.StaleAnswersDoNotCount` | src/App.jsx:70-73 | change-quiz keeps the old answers and score, but after a fetch with fresh ids those answers count for nothing |
| `Session.ScreensExclusive` | src/App.jsx:124-151 | Home and the questions never render together, without an error one of them renders, with an error neither does; during a quiz exactly one of the submit button and the score panel renders |
| `Session.FailedPlayAgainShowsSubmitOnly` | src/App.jsx:124-137 | when the fetch started by play-again fails, the error and the submit button render while the questions and Home do not, and the old questions stay |
| `Session.StepKeepsConsistent` | src/App.jsx:59-93 | every handler the screen can trigger keeps "graded implies in progress and scored" |
| `Session.TraceKeepsConsistent` | src/App.jsx:59-93 | that invariant holds after any sequence of enabled events |
| `Session.ReachableConsistent` | src/App.jsx:9-19 | every state reachable from the first render satisfies it |
| `Session.ErrorOnlyFromFailedFetch` | src/App.jsx:27-44 | only a failed fetch changes the error, setting it to `"Failed to fetch"` for a non-ok status and to the thrown message otherwise |
| `Session.ErrorPersists` | src/App.jsx:124-132 | once an error is shown nothing clears it (given failures carry messages), so Home and the questions stay hidden |
| `App.QuizSession.constructor` | src/App.jsx:9-19 | the first state: options `"9"`, `"easy"`, `"5"`, no questions, no answers, both flags off, no score, no error |
| `App.QuizSession.HandleQuizOptionChange` | src/App.jsx:52-57 | only the options change, by `WithOption` |
| `App.QuizSession.StartQuiz` | src/App.jsx:59-61 | only `quizInProgress` changes, to true |
| `App.QuizSession.PlayAgain` | src/App.jsx:63-68 | graded off, score unset, answers emptied, everything else kept |
| `App.QuizSession.ChangeQuiz` | src/App.jsx:70-73 | both flags off, everything else kept |
| `App.QuizSession.UpdateSelectedAnswers` | src/App.jsx:75-82 | only the answer map changes, by `RecordAnswer` |
| `App.QuizSession.ScoreQuiz` | src/App.jsx:83-93 | the loop's count is `CountCorrect` of the questions and answers; graded on; nothing else changes |
| `App.QuizSession.FetchQuestions` | src/App.jsx:22-47 | a received result replaces the questions by `NormalizeResults`; a non-ok status or a thrown error sets the error and keeps everything else |

## Left out

- The HTTP request, the URL built from the options and the JSON parsing (src/App.jsx:24-30) are network I/O; only their outcome, a `Response`, enters the model.
- `he.decode` and `nanoid` are libraries outside this model: the decoder is a function parameter and the identifiers are supplied sequences; their distinctness is a hypothesis of the lemmas that need it.
- The other fields of an API result copied by `...questionObj` (category, type, difficulty) are not modelled; nothing reads them.
- `Math.random` is the parameter `randomIndex`; its distribution is not modelled.
- `Question.BuildAllAnswers`: the order produced by `sort((a, b) => a - b)` on two strings depends on the engine (the comparator gives `NaN` for non-numeric strings), so the model states only that the result is one of the two orders, chosen by a parameter.
- React mechanics: `useState`, `useEffect`, the re-fetch that runs whenever the options object changes (src/App.jsx:48-50), the once-per-mount timing of the answer list, and the markup. The fetch started by play-again is modelled as a separate `FetchQuestions` call.
- The radio input's `onChange={updateSelectedAnswers}` passes a DOM event instead of an id and an answer; it is a UI-event quirk and is not modelled. Answers are recorded through the label's click handler.
- The option name is one of the three keys the Home form passes; the object spread would also accept any other key.
- The Home form (src/components/Home.jsx) has no logic beyond forwarding the selected values, and is not part of this model.
- `console.log`, `e.preventDefault()`, CSS beyond the class-name decision, and images.
