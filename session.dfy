/** The quiz session held by the App component, as a value: the quiz options,
    the fetched questions, the selected-answers map, the two progress flags,
    the score and the error message. Each handler of the component is a
    transition on that value; the screen parts it renders are predicates on it.
    The App module's class holds the same fields and is proved to follow these
    transitions. */
module Session {
  import opened Question

  // ---------------------------------------------------------------------------
  // Quiz options

  /** The three keys of the options object that the Home form edits. */
  datatype OptionName = Category | Difficulty | NumQuestions

  /** The options object; every value is the string a `<select>` yields. */
  datatype QuizOptions = QuizOptions(category: string, difficulty: string, numQuestions: string)

  /** General knowledge, easy, five questions. */
  const DefaultOptions := QuizOptions("9", "easy", "5")

  function OptionValue(o: QuizOptions, name: OptionName): string
  {
    match name
    case Category => o.category
    case Difficulty => o.difficulty
    case NumQuestions => o.numQuestions
  }

  /** `{...prevOptions, [optionName]: value}` */
  function WithOption(o: QuizOptions, name: OptionName, value: string): (r: QuizOptions)
    ensures OptionValue(r, name) == value
    ensures forall other :: other != name ==> OptionValue(r, other) == OptionValue(o, other)
  {
    match name
    case Category => o.(category := value)
    case Difficulty => o.(difficulty := value)
    case NumQuestions => o.(numQuestions := value)
  }

  // ---------------------------------------------------------------------------
  // Questions and the outcome of a fetch

  /** One entry of the API's `results` array, still entity-escaped. */
  datatype RawQuestion = RawQuestion(question: string, correctAnswer: string, incorrectAnswers: seq<string>)

  /** A stored question: two generated identifiers and the decoded texts. */
  datatype QuestionRecord = QuestionRecord(key: string, id: string, question: string,
                                           correctAnswer: string, incorrectAnswers: seq<string>)

  /** How a fetch ends: the HTTP status is not ok, the body's results arrive,
      or something throws on the way (network, JSON, a missing `results`). */
  datatype Response = NotOk | Received(results: seq<RawQuestion>) | Thrown(message: string)

  /** The message of the error raised on a non-ok status. */
  const FailedToFetch := "Failed to fetch"

  /** `incorrect_answers.map(he.decode)`, with the decoder as a parameter. */
  function DecodeAll(xs: seq<string>, decode: string -> string): (ys: seq<string>)
    ensures |ys| == |xs|
    ensures forall i :: 0 <= i < |xs| ==> ys[i] == decode(xs[i])
  {
    seq(|xs|, i requires 0 <= i < |xs| => decode(xs[i]))
  }

  /** `data.results.map(...)`: one record per result, in the same order, with
      the i-th pair of generated identifiers and every text decoded. */
  function NormalizeResults(results: seq<RawQuestion>, keys: seq<string>, ids: seq<string>,
                            decode: string -> string): (qs: seq<QuestionRecord>)
    requires |keys| == |results| && |ids| == |results|
    ensures |qs| == |results|
    ensures forall i :: 0 <= i < |results| ==>
      qs[i].key == keys[i] && qs[i].id == ids[i] &&
      qs[i].question == decode(results[i].question) &&
      qs[i].correctAnswer == decode(results[i].correctAnswer) &&
      |qs[i].incorrectAnswers| == |results[i].incorrectAnswers| &&
      forall j :: 0 <= j < |results[i].incorrectAnswers| ==>
        qs[i].incorrectAnswers[j] == decode(results[i].incorrectAnswers[j])
  {
    seq(|results|, i requires 0 <= i < |results| =>
      QuestionRecord(keys[i], ids[i], decode(results[i].question),
                     decode(results[i].correctAnswer),
                     DecodeAll(results[i].incorrectAnswers, decode)))
  }

  ghost predicate DistinctIds(qs: seq<QuestionRecord>)
  {
    forall i, j :: 0 <= i < j < |qs| ==> qs[i].id != qs[j].id
  }

  /** Fresh identifiers give a question list whose ids are pairwise distinct. */
  lemma NormalizedIdsDistinct(results: seq<RawQuestion>, keys: seq<string>, ids: seq<string>,
                              decode: string -> string)
    requires |keys| == |results| && |ids| == |results|
    requires forall i, j :: 0 <= i < j < |ids| ==> ids[i] != ids[j]
    ensures DistinctIds(NormalizeResults(results, keys, ids, decode))
  {
  }

  // ---------------------------------------------------------------------------
  // Selected answers and grading

  /** `{...prevSelectedAnswers, [questionId]: answer}` */
  function RecordAnswer(answers: map<string, string>, questionId: string, answer: string)
    : (r: map<string, string>)
    ensures questionId in r && r[questionId] == answer
    ensures forall k :: k != questionId ==> (k in r <==> k in answers)
    ensures forall k :: k != questionId && k in answers ==> r[k] == answers[k]
  {
    answers[questionId := answer]
  }

  /** The last answer recorded for a question is the one that stays. */
  lemma LastWriteWins(answers: map<string, string>, questionId: string, first: string, second: string)
    ensures RecordAnswer(RecordAnswer(answers, questionId, first), questionId, second)
         == RecordAnswer(answers, questionId, second)
  {
  }

  /** `selectedAnswers[id] || ""`, the answer handed to a question card: the
      `|| ""` only matters when the question has no entry. */
  function SelectedAnswerFor(answers: map<string, string>, questionId: string): (a: string)
    ensures a == if questionId in answers then answers[questionId] else ""
  {
    if questionId in answers && answers[questionId] != "" then answers[questionId] else ""
  }

  /** An option on a question card is checked exactly when it is the answer
      recorded for that question (for every option other than ""). */
  lemma CheckedIffRecorded(answers: map<string, string>, questionId: string, option: string)
    requires option != ""
    ensures Checked(option, SelectedAnswerFor(answers, questionId)) <==>
      questionId in answers && answers[questionId] == option
  {
  }

  /** `obj.correct_answer === selectedAnswers[obj.id]`; a missing entry is
      `undefined` and never equals a string. */
  predicate AnsweredCorrectly(q: QuestionRecord, answers: map<string, string>)
  {
    q.id in answers && answers[q.id] == q.correctAnswer
  }

  /** The number of questions answered correctly, counted front to back. */
  function CountCorrect(qs: seq<QuestionRecord>, answers: map<string, string>): (n: nat)
    ensures n <= |qs|
    decreases |qs|
  {
    if qs == [] then 0
    else CountCorrect(qs[..|qs| - 1], answers)
         + (if AnsweredCorrectly(qs[|qs| - 1], answers) then 1 else 0)
  }

  ghost function CorrectIndices(qs: seq<QuestionRecord>, answers: map<string, string>): set<nat>
  {
    set i: nat | i < |qs| && AnsweredCorrectly(qs[i], answers)
  }

  /** The count is the number of positions whose question is answered correctly. */
  lemma {:induction false} CountIsCorrectIndices(qs: seq<QuestionRecord>, answers: map<string, string>)
    ensures CountCorrect(qs, answers) == |CorrectIndices(qs, answers)|
    decreases |qs|
  {
    if qs != [] {
      var n := |qs| - 1;
      var front := qs[..n];
      CountIsCorrectIndices(front, answers);
      var earlier := CorrectIndices(front, answers);
      assert forall i: nat :: i < n ==> front[i] == qs[i];
      if AnsweredCorrectly(qs[n], answers) {
        assert CorrectIndices(qs, answers) == earlier + {n};
      } else {
        assert CorrectIndices(qs, answers) == earlier;
      }
    }
  }

  /** Two answer maps that agree on every question's id give the same count:
      entries under any other key never count. */
  lemma {:induction false} CountDependsOnlyOnQuestionIds(qs: seq<QuestionRecord>,
                                                         a1: map<string, string>,
                                                         a2: map<string, string>)
    requires forall i :: 0 <= i < |qs| ==>
      (qs[i].id in a1 <==> qs[i].id in a2) && (qs[i].id in a1 ==> a1[qs[i].id] == a2[qs[i].id])
    ensures CountCorrect(qs, a1) == CountCorrect(qs, a2)
    decreases |qs|
  {
    if qs != [] {
      CountDependsOnlyOnQuestionIds(qs[..|qs| - 1], a1, a2);
    }
  }

  /** Questions without an entry never count: with no entry at all the score is 0. */
  lemma {:induction false} UnansweredScoreZero(qs: seq<QuestionRecord>, answers: map<string, string>)
    requires forall i :: 0 <= i < |qs| ==> qs[i].id !in answers
    ensures CountCorrect(qs, answers) == 0
    decreases |qs|
  {
    if qs != [] {
      UnansweredScoreZero(qs[..|qs| - 1], answers);
    }
  }

  /** Every question answered correctly gives the full score. */
  lemma {:induction false} AllCorrectFullScore(qs: seq<QuestionRecord>, answers: map<string, string>)
    requires forall i :: 0 <= i < |qs| ==> AnsweredCorrectly(qs[i], answers)
    ensures CountCorrect(qs, answers) == |qs|
    decreases |qs|
  {
    if qs != [] {
      AllCorrectFullScore(qs[..|qs| - 1], answers);
    }
  }

  /** With distinct ids, recording the correct answer for a question that was
      not yet answered correctly raises the count by exactly one. */
  lemma CorrectAnswerAddsOne(qs: seq<QuestionRecord>, answers: map<string, string>, k: nat)
    requires DistinctIds(qs)
    requires k < |qs| && !AnsweredCorrectly(qs[k], answers)
    ensures CountCorrect(qs, RecordAnswer(answers, qs[k].id, qs[k].correctAnswer))
         == CountCorrect(qs, answers) + 1
  {
    var updated := RecordAnswer(answers, qs[k].id, qs[k].correctAnswer);
    CountIsCorrectIndices(qs, answers);
    CountIsCorrectIndices(qs, updated);
    forall i: nat | i < |qs|
      ensures AnsweredCorrectly(qs[i], updated) <==> i == k || AnsweredCorrectly(qs[i], answers)
    {
      if i != k {
        assert qs[i].id != qs[k].id;
      }
    }
    assert CorrectIndices(qs, updated) == CorrectIndices(qs, answers) + {k};
  }

  // ---------------------------------------------------------------------------
  // The session and its handlers

  /** The score shown after grading; `""` before any grading and after play-again. */
  datatype Score = Unscored | Scored(rightAnswers: nat)

  datatype SessionState = SessionState(
    quizOptions: QuizOptions,
    questions: seq<QuestionRecord>,
    selectedAnswers: map<string, string>,
    quizInProgress: bool,
    quizGraded: bool,
    score: Score,
    error: string)

  const Initial := SessionState(DefaultOptions, [], map[], false, false, Unscored, "")

  /** Option change: only the named option takes the new value. */
  function OnOptionChange(s: SessionState, name: OptionName, value: string): (t: SessionState)
    ensures OptionValue(t.quizOptions, name) == value
    ensures forall other :: other != name ==>
      OptionValue(t.quizOptions, other) == OptionValue(s.quizOptions, other)
    ensures t.(quizOptions := s.quizOptions) == s
  {
    s.(quizOptions := WithOption(s.quizOptions, name, value))
  }

  /** Start quiz: only the progress flag changes, to true. */
  function OnStartQuiz(s: SessionState): (t: SessionState)
    ensures t.quizInProgress
    ensures t.(quizInProgress := s.quizInProgress) == s
  {
    s.(quizInProgress := true)
  }

  /** The synchronous part of play-again; the fetch it starts resolves later.
      The progress flag, options, questions and error are kept. */
  function OnPlayAgain(s: SessionState): (t: SessionState)
    ensures !t.quizGraded && t.score == Unscored && t.selectedAnswers == map[]
    ensures t.(quizGraded := s.quizGraded, score := s.score, selectedAnswers := s.selectedAnswers) == s
  {
    s.(quizGraded := false, score := Unscored, selectedAnswers := map[])
  }

  /** Change quiz: both flags off; answers, score and questions are kept. */
  function OnChangeQuiz(s: SessionState): (t: SessionState)
    ensures !t.quizInProgress && !t.quizGraded
    ensures t.(quizInProgress := s.quizInProgress, quizGraded := s.quizGraded) == s
  {
    s.(quizInProgress := false, quizGraded := false)
  }

  /** Answer selection: the question's entry becomes the answer, every other
      entry and every other field is kept. */
  function OnSelectAnswer(s: SessionState, questionId: string, answer: string): (t: SessionState)
    ensures questionId in t.selectedAnswers && t.selectedAnswers[questionId] == answer
    ensures forall k :: k != questionId ==> (k in t.selectedAnswers <==> k in s.selectedAnswers)
    ensures forall k :: k != questionId && k in s.selectedAnswers ==>
      t.selectedAnswers[k] == s.selectedAnswers[k]
    ensures t.(selectedAnswers := s.selectedAnswers) == s
  {
    s.(selectedAnswers := RecordAnswer(s.selectedAnswers, questionId, answer))
  }

  /** Grading: the flag goes on and the score is the number of positions whose
      question is answered correctly; nothing else changes. */
  function OnScoreQuiz(s: SessionState): (t: SessionState)
    ensures t.quizGraded
    ensures t.score.Scored? && t.score.rightAnswers == |CorrectIndices(s.questions, s.selectedAnswers)|
    ensures t.score.rightAnswers <= |s.questions|
    ensures t.(quizGraded := s.quizGraded, score := s.score) == s
  {
    CountIsCorrectIndices(s.questions, s.selectedAnswers);
    s.(quizGraded := true, score := Scored(CountCorrect(s.questions, s.selectedAnswers)))
  }

  predicate FetchArgumentsFit(response: Response, keys: seq<string>, ids: seq<string>)
  {
    response.Received? ==> |keys| == |response.results| && |ids| == |response.results|
  }

  /** The end of a fetch: the questions are replaced by the normalized results,
      or the error message is recorded and the questions stay as they were. */
  function OnFetchResolved(s: SessionState, response: Response, keys: seq<string>,
                           ids: seq<string>, decode: string -> string): (t: SessionState)
    requires FetchArgumentsFit(response, keys, ids)
    ensures response.Received? ==>
      t == s.(questions := NormalizeResults(response.results, keys, ids, decode))
    ensures response.NotOk? ==> t == s.(error := FailedToFetch)
    ensures response.Thrown? ==> t == s.(error := response.message)
  {
    match response
    case NotOk => s.(error := FailedToFetch)
    case Thrown(message) => s.(error := message)
    case Received(results) => s.(questions := NormalizeResults(results, keys, ids, decode))
  }

  /** Grading sets the flag and a score between 0 and the number of questions,
      and touches neither the questions, the answers nor the progress flag;
      grading again gives the same score. */
  lemma ScoreQuizProperties(s: SessionState)
    ensures OnScoreQuiz(s).quizGraded
    ensures OnScoreQuiz(s).score.Scored? && OnScoreQuiz(s).score.rightAnswers <= |s.questions|
    ensures OnScoreQuiz(s).questions == s.questions
    ensures OnScoreQuiz(s).selectedAnswers == s.selectedAnswers
    ensures OnScoreQuiz(s).quizInProgress == s.quizInProgress
    ensures OnScoreQuiz(OnScoreQuiz(s)) == OnScoreQuiz(s)
  {
  }

  /** A new round after grading: play-again followed by a successful fetch
      leaves no answers, no score, the new questions, and the Home screen still
      bypassed. */
  lemma PlayAgainStartsCleanRound(s: SessionState, results: seq<RawQuestion>, keys: seq<string>,
                                  ids: seq<string>, decode: string -> string)
    requires |keys| == |results| && |ids| == |results|
    ensures var t := OnFetchResolved(OnPlayAgain(s), Received(results), keys, ids, decode);
      t.selectedAnswers == map[] && t.score == Unscored && !t.quizGraded &&
      t.quizInProgress == s.quizInProgress &&
      t.questions == NormalizeResults(results, keys, ids, decode) &&
      CountCorrect(t.questions, t.selectedAnswers) == 0
  {
    var t := OnFetchResolved(OnPlayAgain(s), Received(results), keys, ids, decode);
    UnansweredScoreZero(t.questions, t.selectedAnswers);
  }

  /** Change-quiz keeps the answers of the old round, but once a fetch brings
      questions with fresh ids, those stale answers count for nothing. */
  lemma StaleAnswersDoNotCount(s: SessionState, results: seq<RawQuestion>, keys: seq<string>,
                               ids: seq<string>, decode: string -> string)
    requires |keys| == |results| && |ids| == |results|
    requires forall i :: 0 <= i < |ids| ==> ids[i] !in s.selectedAnswers
    ensures var t := OnFetchResolved(OnChangeQuiz(s), Received(results), keys, ids, decode);
      t.selectedAnswers == s.selectedAnswers && t.score == s.score &&
      CountCorrect(t.questions, t.selectedAnswers) == 0
  {
    var t := OnFetchResolved(OnChangeQuiz(s), Received(results), keys, ids, decode);
    UnansweredScoreZero(t.questions, t.selectedAnswers);
  }

  // ---------------------------------------------------------------------------
  // What is rendered

  predicate ErrorVisible(s: SessionState) { s.error != "" }
  predicate HomeVisible(s: SessionState) { !s.quizInProgress && s.error == "" }
  predicate QuestionsVisible(s: SessionState) { s.error == "" && s.quizInProgress }
  predicate SubmitVisible(s: SessionState) { s.quizInProgress && !s.quizGraded }
  predicate ScoreVisible(s: SessionState) { s.quizGraded }

  /** What every state reachable through the screen satisfies. */
  predicate Consistent(s: SessionState)
  {
    s.quizGraded ==> s.quizInProgress && s.score.Scored?
  }

  /** Home and the questions never show together and, without an error, one
      of them shows; in a consistent state, during a quiz exactly one of the
      submit button and the score panel shows. */
  lemma ScreensExclusive(s: SessionState)
    requires Consistent(s)
    ensures !(HomeVisible(s) && QuestionsVisible(s))
    ensures !ErrorVisible(s) ==> HomeVisible(s) || QuestionsVisible(s)
    ensures ErrorVisible(s) ==> !HomeVisible(s) && !QuestionsVisible(s)
    ensures s.quizInProgress ==> (SubmitVisible(s) <==> !ScoreVisible(s))
    ensures !s.quizInProgress ==> !SubmitVisible(s) && !ScoreVisible(s)
  {
  }

  /** The submit button does not look at the error: when the fetch started by
      play-again fails, the error banner and the submit button show while the
      questions are hidden. */
  lemma FailedPlayAgainShowsSubmitOnly(s: SessionState)
    requires Consistent(s) && ScoreVisible(s)
    ensures var t := OnFetchResolved(OnPlayAgain(s), NotOk, [], [], x => x);
      ErrorVisible(t) && SubmitVisible(t) && !QuestionsVisible(t) && !HomeVisible(t) &&
      !ScoreVisible(t) && t.questions == s.questions
  {
  }

  // ---------------------------------------------------------------------------
  // Event sequences

  /** What the user or the network can do to the session. */
  datatype Event =
    | OptionChanged(name: OptionName, value: string)
    | StartClicked
    | AnswerClicked(questionId: string, answer: string)
    | SubmitClicked
    | PlayAgainClicked
    | ChangeQuizClicked
    | FetchResolved(response: Response, keys: seq<string>, ids: seq<string>)

  predicate WellFormed(e: Event)
  {
    e.FetchResolved? ==> FetchArgumentsFit(e.response, e.keys, e.ids)
  }

  /** An event can happen only while the control that raises it is rendered;
      a fetch can resolve at any time. */
  predicate Enabled(s: SessionState, e: Event)
  {
    match e
    case OptionChanged(_, _) => HomeVisible(s)
    case StartClicked => HomeVisible(s)
    case AnswerClicked(_, _) => QuestionsVisible(s)
    case SubmitClicked => SubmitVisible(s)
    case PlayAgainClicked => ScoreVisible(s)
    case ChangeQuizClicked => ScoreVisible(s)
    case FetchResolved(_, _, _) => true
  }

  function Step(s: SessionState, e: Event, decode: string -> string): SessionState
    requires WellFormed(e)
  {
    match e
    case OptionChanged(name, value) => OnOptionChange(s, name, value)
    case StartClicked => OnStartQuiz(s)
    case AnswerClicked(questionId, answer) => OnSelectAnswer(s, questionId, answer)
    case SubmitClicked => OnScoreQuiz(s)
    case PlayAgainClicked => OnPlayAgain(s)
    case ChangeQuizClicked => OnChangeQuiz(s)
    case FetchResolved(response, keys, ids) => OnFetchResolved(s, response, keys, ids, decode)
  }

  /** Every event is well formed and enabled in the state it meets. */
  predicate Trace(s: SessionState, events: seq<Event>, decode: string -> string)
    decreases |events|
  {
    events == [] ||
    (WellFormed(events[0]) && Enabled(s, events[0]) &&
     Trace(Step(s, events[0], decode), events[1..], decode))
  }

  function Run(s: SessionState, events: seq<Event>, decode: string -> string): SessionState
    requires Trace(s, events, decode)
    decreases |events|
  {
    if events == [] then s else Run(Step(s, events[0], decode), events[1..], decode)
  }

  lemma StepKeepsConsistent(s: SessionState, e: Event, decode: string -> string)
    requires Consistent(s) && WellFormed(e) && Enabled(s, e)
    ensures Consistent(Step(s, e, decode))
  {
  }

  /** Every state reachable from a consistent one is consistent. */
  lemma {:induction false} TraceKeepsConsistent(s: SessionState, events: seq<Event>,
                                                decode: string -> string)
    requires Consistent(s) && Trace(s, events, decode)
    ensures Consistent(Run(s, events, decode))
    decreases |events|
  {
    if events != [] {
      StepKeepsConsistent(s, events[0], decode);
      TraceKeepsConsistent(Step(s, events[0], decode), events[1..], decode);
    }
  }

  /** Every state the screen can reach from the first render is consistent. */
  lemma ReachableConsistent(events: seq<Event>, decode: string -> string)
    requires Trace(Initial, events, decode)
    ensures Consistent(Run(Initial, events, decode))
  {
    TraceKeepsConsistent(Initial, events, decode);
  }

  /** Only a failed fetch changes the error, and it sets it to the failure's message. */
  lemma ErrorOnlyFromFailedFetch(s: SessionState, e: Event, decode: string -> string)
    requires WellFormed(e)
    ensures Step(s, e, decode).error != s.error ==>
      e.FetchResolved? && !e.response.Received? &&
      Step(s, e, decode).error == (if e.response.NotOk? then FailedToFetch else e.response.message)
  {
  }

  predicate FailuresCarryMessages(events: seq<Event>)
  {
    forall i :: 0 <= i < |events| ==>
      events[i].FetchResolved? && events[i].response.Thrown? ==> events[i].response.message != ""
  }

  /** Nothing clears an error: once one is shown (and every later failure has a
      message), Home and the questions stay hidden. */
  lemma {:induction false} ErrorPersists(s: SessionState, events: seq<Event>, decode: string -> string)
    requires s.error != "" && Trace(s, events, decode) && FailuresCarryMessages(events)
    ensures Run(s, events, decode).error != ""
    ensures !HomeVisible(Run(s, events, decode)) && !QuestionsVisible(Run(s, events, decode))
    decreases |events|
  {
    if events != [] {
      assert FailuresCarryMessages(events[1..]) by {
        forall i | 0 <= i < |events[1..]|
          ensures events[1..][i].FetchResolved? && events[1..][i].response.Thrown? ==>
            events[1..][i].response.message != ""
        {
          assert events[1..][i] == events[i + 1];
        }
      }
      ErrorPersists(Step(s, events[0], decode), events[1..], decode);
    }
  }
}
