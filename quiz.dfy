/**
 * The multiple-choice quiz (`MiniQuiz` in src/learning/Components.tsx).
 * The component walks forward through a fixed list of questions. Per question the player
 * picks one option, which reveals whether it was right, then advances; at the last question
 * the advance button reports a completion score instead.
 */
module Quiz {
  import opened Wrappers

  /** One quiz question: its option texts and the index of the correct option. */
  datatype QuizQuestion = QuizQuestion(
    id: string,
    question: string,
    options: seq<string>,
    correct: int,
    explanation: string)

  predicate WellFormed(q: QuizQuestion) {
    0 <= q.correct < |q.options|
  }

  /** A usable question list: not empty, and every correct index names one of its options. */
  predicate QuestionsWellFormed(questions: seq<QuizQuestion>) {
    |questions| >= 1 && forall i :: 0 <= i < |questions| ==> WellFormed(questions[i])
  }

  /** The built-in question list (explanation texts omitted). */
  const QuizQuestions: seq<QuizQuestion> := [
    QuizQuestion("1", "What is the lock-in period for PPF in India?", ["10 years", "15 years", "20 years", "5 years"], 1, ""),
    QuizQuestion("2", "What does SIP stand for?",
      ["Simple Investment Plan", "Systematic Investment Plan", "Secure Investment Plan", "Special Investment Plan"], 1, ""),
    QuizQuestion("3", "Which payment method is most popular for digital transactions in India?", ["Credit Card", "Debit Card", "UPI", "Net Banking"], 2, "")
  ]

  lemma QuizQuestionsWellFormed()
    ensures QuestionsWellFormed(QuizQuestions)
    ensures |QuizQuestions| == 3
  {
  }

  /** How many of the given answers, one per question from the first on, pick the correct option. */
  function CorrectCount(questions: seq<QuizQuestion>, answers: seq<int>): nat
    requires |answers| <= |questions|
  {
    if answers == [] then 0
    else
      var last := |answers| - 1;
      CorrectCount(questions, answers[..last]) + (if answers[last] == questions[last].correct then 1 else 0)
  }

  /** At most one point per answered question. */
  lemma {:induction false} CorrectCountBound(questions: seq<QuizQuestion>, answers: seq<int>)
    requires |answers| <= |questions|
    ensures CorrectCount(questions, answers) <= |answers|
  {
    if answers != [] {
      CorrectCountBound(questions, answers[..|answers| - 1]);
    }
  }

  /** Answering every question correctly earns one point per question. */
  lemma {:induction false} CorrectCountAllCorrect(questions: seq<QuizQuestion>, answers: seq<int>)
    requires |answers| <= |questions|
    requires forall i :: 0 <= i < |answers| ==> answers[i] == questions[i].correct
    ensures CorrectCount(questions, answers) == |answers|
  {
    if answers != [] {
      CorrectCountAllCorrect(questions, answers[..|answers| - 1]);
    }
  }

  /** Recording one more answer adds the point for that answer and nothing else. */
  lemma CorrectCountAppend(questions: seq<QuizQuestion>, answers: seq<int>, a: int)
    requires |answers| < |questions|
    ensures CorrectCount(questions, answers + [a])
            == CorrectCount(questions, answers) + (if a == questions[|answers|].correct then 1 else 0)
  {
    assert (answers + [a])[..|answers|] == answers;
  }

  /**
   * The quiz component's state. `answers` is a ghost record of the option picked for each
   * question answered so far; the score is always the number of those that are correct.
   */
  class MiniQuiz {
    const questions: seq<QuizQuestion>
    var currentQuestion: nat
    var selectedAnswer: Option<int>
    var showResult: bool
    var score: nat
    ghost var answers: seq<int>

    ghost predicate Valid()
      reads this
    {
      && QuestionsWellFormed(questions)
      && currentQuestion < |questions|
      && |answers| == currentQuestion + (if showResult then 1 else 0)
      && (showResult <==> selectedAnswer.Some?)
      && (showResult ==> selectedAnswer == Some(answers[currentQuestion]))
      && score == CorrectCount(questions, answers)
    }

    /** The score counts at most one point per question reached, so never more than there are questions. */
    lemma ScoreBounded()
      requires Valid()
      ensures score <= currentQuestion + (if showResult then 1 else 0) <= |questions|
    {
      CorrectCountBound(questions, answers);
    }

    constructor (questions: seq<QuizQuestion>)
      requires QuestionsWellFormed(questions)
      ensures Valid()
      ensures this.questions == questions
      ensures currentQuestion == 0 && selectedAnswer == None && !showResult && score == 0
      ensures answers == []
    {
      this.questions := questions;
      currentQuestion := 0;
      selectedAnswer := None;
      showResult := false;
      score := 0;
      answers := [];
    }

    /** `handleAnswer`: record the pick, add a point when it is correct, reveal the result. */
    method HandleAnswer(answerIndex: int)
      requires Valid() && !showResult
      modifies this
      ensures Valid()
      ensures currentQuestion == old(currentQuestion)
      ensures selectedAnswer == Some(answerIndex) && showResult
      ensures score == old(score) + (if answerIndex == questions[currentQuestion].correct then 1 else 0)
      ensures answers == old(answers) + [answerIndex]
      ensures score <= currentQuestion + 1
    {
      CorrectCountAppend(questions, answers, answerIndex);
      selectedAnswer := Some(answerIndex);
      if answerIndex == questions[currentQuestion].correct {
        score := score + 1;
      }
      showResult := true;
      answers := answers + [answerIndex];
      ScoreBounded();
    }

    /**
     * A click on the option button at `index`. Once the result is shown the buttons are
     * inert, so a question is scored at most once.
     */
    method ClickOption(index: int)
      requires Valid()
      requires 0 <= index < |questions[currentQuestion].options|
      modifies this
      ensures Valid()
      ensures old(showResult) ==> unchanged(this)
      ensures !old(showResult) ==>
        && currentQuestion == old(currentQuestion)
        && selectedAnswer == Some(index) && showResult
        && score == old(score) + (if index == questions[currentQuestion].correct then 1 else 0)
        && answers == old(answers) + [index]
      ensures old(score) <= score <= old(score) + 1
    {
      if !showResult {
        HandleAnswer(index);
      }
    }

    /**
     * `nextQuestion`, as the source writes it. Before the last question it moves on and clears
     * the per-question state; at the last question it changes nothing and reports the completion
     * score, which adds the point for a correct final pick a second time.
     */
    method NextQuestion() returns (report: Option<int>)
      requires Valid() && showResult
      modifies this
      ensures Valid()
      ensures old(currentQuestion) < |questions| - 1 ==>
        && report == None
        && currentQuestion == old(currentQuestion) + 1
        && selectedAnswer == None && !showResult
        && score == old(score) && answers == old(answers)
      ensures old(currentQuestion) == |questions| - 1 ==>
        && unchanged(this)
        && report == Some(score + (if selectedAnswer == Some(questions[currentQuestion].correct) then 1 else 0))
        && (selectedAnswer == Some(questions[currentQuestion].correct) ==> report.value == score + 1)
        && report.value <= |questions| + 1
    {
      if currentQuestion < |questions| - 1 {
        currentQuestion := currentQuestion + 1;
        selectedAnswer := None;
        showResult := false;
        report := None;
      } else {
        report := Some(score + (if selectedAnswer == Some(questions[currentQuestion].correct) then 1 else 0));
        ScoreBounded();
      }
    }

    /**
     * `nextQuestion` with the completion report corrected: it reports the score, which already
     * holds the final point, and so is exactly the number of questions answered correctly.
     */
    method NextQuestionFixed() returns (report: Option<int>)
      requires Valid() && showResult
      modifies this
      ensures Valid()
      ensures old(currentQuestion) < |questions| - 1 ==>
        && report == None
        && currentQuestion == old(currentQuestion) + 1
        && selectedAnswer == None && !showResult
        && score == old(score) && answers == old(answers)
      ensures old(currentQuestion) == |questions| - 1 ==>
        && unchanged(this)
        && |answers| == |questions|
        && report == Some(CorrectCount(questions, answers))
        && 0 <= report.value <= |questions|
    {
      if currentQuestion < |questions| - 1 {
        currentQuestion := currentQuestion + 1;
        selectedAnswer := None;
        showResult := false;
        report := None;
      } else {
        report := Some(score);
        ScoreBounded();
      }
    }
  }

  /**
   * Playing the built-in quiz with every pick correct: the first correct pick raises the score
   * from 0 to 1, and the completion report reads 4 out of 3.
   */
  method AllCorrectRun() returns (report: Option<int>)
    ensures report == Some(|QuizQuestions| + 1)
  {
    QuizQuestionsWellFormed();
    var quiz := new MiniQuiz(QuizQuestions);
    quiz.ClickOption(1);
    assert quiz.score == 1;
    report := quiz.NextQuestion();
    quiz.ClickOption(1);
    report := quiz.NextQuestion();
    quiz.ClickOption(2);
    report := quiz.NextQuestion();
  }

  /** The same play through with the corrected report: 3 out of 3. */
  method AllCorrectRunFixed() returns (report: Option<int>)
    ensures report == Some(|QuizQuestions|)
  {
    QuizQuestionsWellFormed();
    var quiz := new MiniQuiz(QuizQuestions);
    quiz.ClickOption(1);
    report := quiz.NextQuestionFixed();
    quiz.ClickOption(1);
    report := quiz.NextQuestionFixed();
    quiz.ClickOption(2);
    report := quiz.NextQuestionFixed();
  }
}
