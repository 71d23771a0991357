/**
 * The quiz component: weighted scoring of the recorded answers, the
 * inclusive pass check, and the question-by-question navigation state
 * (current question, answers, results shown, score).
 */
module Quiz {
  import opened Types
  import opened Collections

  /**
   * The answers array of the component. It is written one slot at a time, so
   * it can have holes; a key missing here is an `undefined` slot.
   */
  type Answers = map<int, int>

  predicate AnsweredCorrectly(answers: Answers, i: int, q: QuizQuestion) {
    i in answers && answers[i] == q.correct_answer
  }

  /** The sum of the points of all questions. */
  function TotalPoints(qs: seq<QuizQuestion>): int
    decreases |qs|
  {
    if qs == [] then 0 else TotalPoints(qs[..|qs| - 1]) + qs[|qs| - 1].points
  }

  /** The sum of the points of the questions whose recorded answer is the correct one. */
  function AchievedPoints(qs: seq<QuizQuestion>, answers: Answers): int
    decreases |qs|
  {
    if qs == [] then 0
    else
      var i := |qs| - 1;
      AchievedPoints(qs[..i], answers) + (if AnsweredCorrectly(answers, i, qs[i]) then qs[i].points else 0)
  }

  /** `achieved / total * 100`, exactly; the scaled result cross-multiplies back. */
  function Percentage(achieved: int, total: int): (p: real)
    requires total > 0
    ensures p * total as real == 100.0 * achieved as real
  {
    (achieved as real / total as real) * 100.0
  }

  /** The pass check: the percentage reaches the passing score, inclusively. */
  predicate Passed(percentage: real, passingScore: int) {
    percentage >= passingScore as real
  }

  /** Passing is the integer comparison `100 * achieved >= passing * total`. */
  lemma PassedIffCrossMultiplied(achieved: int, total: int, passingScore: int)
    requires total > 0
    ensures Passed(Percentage(achieved, total), passingScore) <==> 100 * achieved >= passingScore * total
  {
    var p := Percentage(achieved, total);
    var t := total as real;
    if p >= passingScore as real {
      assert p * t >= passingScore as real * t;
    } else {
      assert p * t < passingScore as real * t;
    }
  }

  ghost predicate NonNegativePoints(qs: seq<QuizQuestion>) {
    forall i :: 0 <= i < |qs| ==> qs[i].points >= 0
  }

  ghost predicate PositivePoints(qs: seq<QuizQuestion>) {
    forall i :: 0 <= i < |qs| ==> qs[i].points > 0
  }

  /** With no negative weights the achieved points lie between 0 and the total. */
  lemma {:induction false} AchievedBounds(qs: seq<QuizQuestion>, answers: Answers)
    requires NonNegativePoints(qs)
    ensures 0 <= AchievedPoints(qs, answers) <= TotalPoints(qs)
    decreases |qs|
  {
    if qs != [] {
      var i := |qs| - 1;
      assert forall j :: 0 <= j < i ==> qs[..i][j] == qs[j];
      AchievedBounds(qs[..i], answers);
    }
  }

  /** With no negative weights and a positive total, the percentage is in [0, 100]. */
  lemma PercentageBounds(qs: seq<QuizQuestion>, answers: Answers)
    requires NonNegativePoints(qs) && TotalPoints(qs) > 0
    ensures 0.0 <= Percentage(AchievedPoints(qs, answers), TotalPoints(qs)) <= 100.0
  {
    AchievedBounds(qs, answers);
    ShareBounds(AchievedPoints(qs, answers), TotalPoints(qs));
  }

  /** With positive weights, every point is earned exactly when every answer is correct. */
  lemma {:induction false} FullPointsIffAllCorrect(qs: seq<QuizQuestion>, answers: Answers)
    requires PositivePoints(qs)
    ensures AchievedPoints(qs, answers) == TotalPoints(qs)
        <==> forall i :: 0 <= i < |qs| ==> AnsweredCorrectly(answers, i, qs[i])
    decreases |qs|
  {
    if qs != [] {
      var i := |qs| - 1;
      var front := qs[..i];
      assert forall j :: 0 <= j < i ==> front[j] == qs[j];
      FullPointsIffAllCorrect(front, answers);
      AchievedBounds(front, answers);
    }
  }

  /** With positive weights, the score is exactly 100 iff every answer is correct. */
  lemma FullMarksIffAllCorrect(qs: seq<QuizQuestion>, answers: Answers)
    requires PositivePoints(qs) && TotalPoints(qs) > 0
    ensures Percentage(AchievedPoints(qs, answers), TotalPoints(qs)) == 100.0
        <==> forall i :: 0 <= i < |qs| ==> AnsweredCorrectly(answers, i, qs[i])
  {
    FullPointsIffAllCorrect(qs, answers);
    AchievedBounds(qs, answers);
    ShareBounds(AchievedPoints(qs, answers), TotalPoints(qs));
  }

  /**
   * The scoring loop of the component: one pass over the questions adding
   * every question's points to the total and the matching ones to the score.
   */
  method ScoreAnswers(qs: seq<QuizQuestion>, answers: Answers) returns (totalScore: int, totalPoints: int)
    ensures totalScore == AchievedPoints(qs, answers)
    ensures totalPoints == TotalPoints(qs)
  {
    totalScore, totalPoints := 0, 0;
    for index := 0 to |qs|
      invariant totalScore == AchievedPoints(qs[..index], answers)
      invariant totalPoints == TotalPoints(qs[..index])
    {
      var question := qs[index];
      assert qs[..index + 1][..index] == qs[..index];
      totalPoints := totalPoints + question.points;
      if index in answers && answers[index] == question.correct_answer {
        totalScore := totalScore + question.points;
      }
    }
    assert qs[..|qs|] == qs;
  }

  /**
   * One mounted quiz component. `reported` records the calls made to the
   * `onComplete` callback, in order, with the score and verdict passed to it.
   */
  class QuizSession {
    const quiz: Quiz
    var currentQuestion: int
    var answers: Answers
    var showResults: bool
    var score: real
    var reported: seq<(real, bool)>

    /**
     * The question index stays on a real question. A quiz whose points add
     * up to 0 cannot be scored (the division yields NaN) and is not admitted.
     */
    ghost predicate Valid()
      reads this
    {
      TotalPoints(quiz.questions) > 0 && 0 <= currentQuestion < |quiz.questions|
    }

    ghost predicate Initial()
      reads this
    {
      currentQuestion == 0 && answers == map[] && !showResults && score == 0.0
    }

    /** The "next" button is enabled once the current question has an answer. */
    predicate CanAdvance()
      reads this
    {
      currentQuestion in answers
    }

    /** The verdict the results screen shows for the stored score. */
    predicate ShownPassed()
      reads this
    {
      Passed(score, quiz.passing_score)
    }

    constructor (quiz: Quiz)
      requires TotalPoints(quiz.questions) > 0
      ensures Valid() && Initial() && this.quiz == quiz && reported == []
    {
      this.quiz := quiz;
      currentQuestion := 0;
      answers := map[];
      showResults := false;
      score := 0.0;
      reported := [];
    }

    /** Records `answerIndex` for the current question; no other slot changes. */
    method HandleAnswer(answerIndex: int)
      requires Valid()
      modifies this`answers
      ensures Valid() && CanAdvance()
      ensures answers[currentQuestion] == answerIndex
      ensures forall i :: i != currentQuestion ==>
        (i in answers <==> i in old(answers)) && (i in answers ==> answers[i] == old(answers)[i])
    {
      answers := answers[currentQuestion := answerIndex];
    }

    /** Scores the quiz, shows the results and reports them once to `onComplete`. */
    method CalculateScore()
      requires Valid()
      modifies this`score, this`showResults, this`reported
      ensures Valid() && showResults
      ensures score == Percentage(AchievedPoints(quiz.questions, answers), TotalPoints(quiz.questions))
      ensures reported == old(reported) + [(score, Passed(score, quiz.passing_score))]
      ensures ShownPassed() == reported[|reported| - 1].1
    {
      var totalScore, totalPoints := ScoreAnswers(quiz.questions, answers);
      var percentage := (totalScore as real / totalPoints as real) * 100.0;
      score := percentage;
      showResults := true;
      var passed := percentage >= quiz.passing_score as real;
      reported := reported + [(percentage, passed)];
    }

    /**
     * Moves to the next question, or scores the quiz on the last one. The
     * handler itself checks neither that the current question is answered nor
     * that the results are hidden; the page disables or hides its button in
     * those states (see `CanAdvance`), so this method allows more than the page.
     */
    method NextQuestion()
      requires Valid()
      modifies this`currentQuestion, this`score, this`showResults, this`reported
      ensures Valid() && answers == old(answers)
      ensures old(currentQuestion) < |quiz.questions| - 1 ==>
        currentQuestion == old(currentQuestion) + 1 && reported == old(reported)
        && showResults == old(showResults) && score == old(score)
      ensures old(currentQuestion) == |quiz.questions| - 1 ==>
        currentQuestion == old(currentQuestion) && showResults
        && score == Percentage(AchievedPoints(quiz.questions, answers), TotalPoints(quiz.questions))
        && reported == old(reported) + [(score, Passed(score, quiz.passing_score))]
    {
      if currentQuestion < |quiz.questions| - 1 {
        currentQuestion := currentQuestion + 1;
      } else {
        CalculateScore();
      }
    }

    /** The "previous" button: one question back, never below the first. */
    method PreviousQuestion()
      requires Valid()
      modifies this`currentQuestion
      ensures Valid()
      ensures currentQuestion == if old(currentQuestion) == 0 then 0 else old(currentQuestion) - 1
    {
      currentQuestion := if 0 > currentQuestion - 1 then 0 else currentQuestion - 1;
    }

    /** "Retry Quiz": back to the first question with no answers and no results. */
    method ResetQuiz()
      requires Valid()
      modifies this`currentQuestion, this`answers, this`showResults, this`score
      ensures Valid() && Initial() && !CanAdvance()
    {
      currentQuestion := 0;
      answers := map[];
      showResults := false;
      score := 0.0;
    }
  }

  /** Weights 10, 20, 30, 40 with one wrong answer on the third question score 70, a pass at 70. */
  lemma WeightedScenario()
    ensures
      var qs := [QuizQuestion("q1", "", [], 1, 10), QuizQuestion("q2", "", [], 2, 20),
                 QuizQuestion("q3", "", [], 0, 30), QuizQuestion("q4", "", [], 3, 40)];
      var answers := map[0 := 1, 1 := 2, 2 := 1, 3 := 3];
      AchievedPoints(qs, answers) == 70 && TotalPoints(qs) == 100
      && Percentage(70, 100) == 70.0 && Passed(70.0, 70)
  {
    var qs := [QuizQuestion("q1", "", [], 1, 10), QuizQuestion("q2", "", [], 2, 20),
               QuizQuestion("q3", "", [], 0, 30), QuizQuestion("q4", "", [], 3, 40)];
    var answers := map[0 := 1, 1 := 2, 2 := 1, 3 := 3];
    assert qs[..1][..0] == [] && qs[..2][..1] == qs[..1] && qs[..3][..2] == qs[..2];
    assert TotalPoints(qs[..1]) == 10 && AchievedPoints(qs[..1], answers) == 10;
    assert TotalPoints(qs[..2]) == 30 && AchievedPoints(qs[..2], answers) == 30;
    assert TotalPoints(qs[..3]) == 60 && AchievedPoints(qs[..3], answers) == 30;
  }
}
