/** One question card: the order in which its answers are listed (built once,
    when the card mounts) and how each listed answer is marked. */
module Question {

  function Max(a: int, b: int): int { if a < b then b else a }

  /** `s.splice(i, 0, x)`: `x` is placed at index `i`, later elements move right. */
  function InsertAt(s: seq<string>, i: nat, x: string): (r: seq<string>)
    requires i <= |s|
    ensures |r| == |s| + 1
    ensures r[i] == x && r[..i] == s[..i] && r[i + 1..] == s[i..]
    ensures multiset(r) == multiset(s) + multiset{x}
  {
    assert s == s[..i] + s[i..];
    s[..i] + [x] + s[i..]
  }

  /** JavaScript's `!answers[k]` on an array of strings: the slot does not
      exist, or it holds the empty string (the only falsy string). */
  predicate SlotFalsy(answers: seq<string>, k: nat)
  {
    k >= |answers| || answers[k] == ""
  }

  /** The card's mount effect. `randomIndex` stands for
      `Math.floor(Math.random() * length + 1)`, which lies in [1, max(length, 1)];
      `sortMovesCorrectFirst` stands for whatever the engine's
      `sort((a, b) => a - b)` does with the two strings of a true/false question. */
  method BuildAllAnswers(correctAnswer: string, incorrectAnswers: seq<string>,
                         randomIndex: nat, sortMovesCorrectFirst: bool)
    returns (allAnswers: seq<string>)
    requires 1 <= randomIndex <= Max(|incorrectAnswers|, 1)
    ensures |allAnswers| == |incorrectAnswers| + 1
    ensures multiset(allAnswers) == multiset(incorrectAnswers) + multiset{correctAnswer}
    ensures |incorrectAnswers| == 1 ==>
      allAnswers == if sortMovesCorrectFirst then [correctAnswer, incorrectAnswers[0]]
                    else [incorrectAnswers[0], correctAnswer]
    ensures |incorrectAnswers| != 1 && SlotFalsy(incorrectAnswers, randomIndex) ==>
      allAnswers == incorrectAnswers + [correctAnswer]
    ensures |incorrectAnswers| != 1 && !SlotFalsy(incorrectAnswers, randomIndex) ==>
      allAnswers[randomIndex] == correctAnswer &&
      allAnswers[..randomIndex] == incorrectAnswers[..randomIndex] &&
      allAnswers[randomIndex + 1..] == incorrectAnswers[randomIndex..]
    ensures |incorrectAnswers| >= 2 ==> allAnswers[0] == incorrectAnswers[0]
  {
    // the copy `[...incorrectAnswers]`; the caller's list is a value and stays as it was
    var all := incorrectAnswers;
    if |all| == 1 {
      all := all + [correctAnswer];
      if sortMovesCorrectFirst {
        all := [all[1], all[0]];
      }
    } else if SlotFalsy(all, randomIndex) {
      all := all + [correctAnswer];
    } else {
      all := InsertAt(all, randomIndex, correctAnswer);
    }
    allAnswers := all;
  }

  /** The class name given to a listed answer's label. */
  function ButtonClass(answer: string, correctAnswer: string, selectedAnswer: string,
                       quizGraded: bool): (cls: string)
    ensures !quizGraded ==> cls == ""
    ensures cls == "correct-answer" <==> quizGraded && answer == correctAnswer
    ensures cls == "incorrect-answer" <==>
      quizGraded && answer != correctAnswer && answer == selectedAnswer
    ensures cls == "" <==>
      !quizGraded || (answer != correctAnswer && answer != selectedAnswer)
  {
    if quizGraded then
      if answer == correctAnswer then "correct-answer"
      else if answer == selectedAnswer then "incorrect-answer"
      else ""
    else ""
  }

  /** Whether the radio input of a listed answer is checked. */
  predicate Checked(answer: string, selectedAnswer: string)
  {
    selectedAnswer == answer
  }

  /** After grading, the correct answer is among the listed answers and is the
      only one marked correct; a wrong selection that is listed is marked incorrect. */
  lemma GradedMarksCorrectAnswer(answers: seq<string>, correctAnswer: string, selectedAnswer: string)
    requires correctAnswer in answers
    ensures exists i ::
      0 <= i < |answers| &&
      ButtonClass(answers[i], correctAnswer, selectedAnswer, true) == "correct-answer"
    ensures forall i :: 0 <= i < |answers| ==>
      (ButtonClass(answers[i], correctAnswer, selectedAnswer, true) == "correct-answer" <==>
       answers[i] == correctAnswer)
    ensures selectedAnswer in answers && selectedAnswer != correctAnswer ==>
      exists i ::
        0 <= i < |answers| &&
        ButtonClass(answers[i], correctAnswer, selectedAnswer, true) == "incorrect-answer"
  {
  }

  /** The parent passes "" for an unanswered question, so no listed answer is
      checked unless one of them is itself the empty string; with distinct
      answers at most one is ever checked. */
  lemma CheckedAtMostOnce(answers: seq<string>, selectedAnswer: string)
    requires forall i, j :: 0 <= i < j < |answers| ==> answers[i] != answers[j]
    ensures forall i, j ::
      0 <= i < |answers| && 0 <= j < |answers| &&
      Checked(answers[i], selectedAnswer) && Checked(answers[j], selectedAnswer)
      ==> i == j
    ensures selectedAnswer == "" && "" !in answers ==>
      forall i :: 0 <= i < |answers| ==> !Checked(answers[i], selectedAnswer)
  {
  }
}
