/** The App component's state, field for field, and its handlers. Each handler
    is proved to move the fields exactly as the matching transition of the
    Session module does; the properties of those transitions are proved there. */
module App {
  import opened Session

  class QuizSession {
    var quizOptions: QuizOptions
    var questions: seq<QuestionRecord>
    var selectedAnswers: map<string, string>
    var quizInProgress: bool
    var quizGraded: bool
    var score: Score
    var error: string

    /** The fields as one value. */
    function State(): SessionState
      reads this
    {
      SessionState(quizOptions, questions, selectedAnswers, quizInProgress, quizGraded, score, error)
    }

    /** The first render: default options, nothing fetched, answered or graded. */
    constructor ()
      ensures State() == Initial
    {
      quizOptions := DefaultOptions;
      questions := [];
      selectedAnswers := map[];
      quizInProgress := false;
      quizGraded := false;
      score := Unscored;
      error := "";
    }

    method HandleQuizOptionChange(optionName: OptionName, value: string)
      modifies this
      ensures State() == OnOptionChange(old(State()), optionName, value)
      ensures OptionValue(quizOptions, optionName) == value
    {
      quizOptions := WithOption(quizOptions, optionName, value);
    }

    method StartQuiz()
      modifies this
      ensures State() == OnStartQuiz(old(State()))
    {
      quizInProgress := true;
    }

    /** Resets grading, score and answers; the re-fetch it starts ends in
        FetchQuestions. `quizInProgress` is left as it was. */
    method PlayAgain()
      modifies this
      ensures State() == OnPlayAgain(old(State()))
    {
      quizGraded := false;
      score := Unscored;
      selectedAnswers := map[];
    }

    method ChangeQuiz()
      modifies this
      ensures State() == OnChangeQuiz(old(State()))
    {
      quizInProgress := false;
      quizGraded := false;
    }

    method UpdateSelectedAnswers(questionId: string, answer: string)
      modifies this
      ensures State() == OnSelectAnswer(old(State()), questionId, answer)
      ensures selectedAnswers[questionId] == answer
    {
      selectedAnswers := RecordAnswer(selectedAnswers, questionId, answer);
    }

    /** Counts, question by question, the answers equal to the correct one. */
    method ScoreQuiz()
      modifies this
      ensures State() == OnScoreQuiz(old(State()))
      ensures score == Scored(CountCorrect(questions, selectedAnswers))
    {
      var rightAnswers := 0;
      for i := 0 to |questions|
        invariant rightAnswers == CountCorrect(questions[..i], selectedAnswers)
      {
        assert questions[..i + 1][..i] == questions[..i];
        var q := questions[i];
        if q.id in selectedAnswers && q.correctAnswer == selectedAnswers[q.id] {
          rightAnswers := rightAnswers + 1;
        }
      }
      assert questions[..|questions|] == questions;
      quizGraded := true;
      score := Scored(rightAnswers);
    }

    /** The end of a fetch, with the generated identifiers and the entity
        decoder supplied from outside. */
    method FetchQuestions(response: Response, keys: seq<string>, ids: seq<string>,
                          decode: string -> string)
      requires FetchArgumentsFit(response, keys, ids)
      modifies this
      ensures State() == OnFetchResolved(old(State()), response, keys, ids, decode)
    {
      match response
      case NotOk =>
        error := FailedToFetch;
      case Thrown(message) =>
        error := message;
      case Received(results) =>
        questions := NormalizeResults(results, keys, ids, decode);
    }
  }
}
