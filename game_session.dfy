/** The timed quiz of the mini-game: a session that goes from setup through
    generating to playing and ends in results, counting down one second per
    tick, scoring each answer and moving to the next question once the
    feedback delay is over. Timer ticks, the end of the 800 ms feedback delay
    and the outcome of the question request are explicit events. */
module GameSession {
  import opened Wrappers
  import opened JsStrings
  import opened Scoring
  import opened Prompt

  datatype Step = Setup | Generating | Playing | Results

  /** A question of the game as the question service returned it. */
  datatype GameQuestion = GameQuestion(question: string, options: seq<string>, correctAnswer: int, category: string)

  /** The correct index names one of the options. The questions come from an
      unchecked response, so answering demands this of the current one. */
  predicate WellFormed(q: GameQuestion)
  {
    0 <= q.correctAnswer < |q.options|
  }

  /** The feedback shown after an answer, with what the pending 800 ms
      callback captured when it was scheduled: the question index, the
      number of questions, the new score and the answer list as it stood
      before this answer. */
  datatype Pending = Pending(
    selected: nat,
    isCorrect: bool,
    atIndex: nat,
    questionCount: nat,
    newScore: int,
    answeredBefore: seq<AnsweredQuestion>)

  /** What a finished game hands to the high-score step: the final score and
      the answer list the callback saw. */
  datatype GameOver = GameOver(finalScore: int, answeredSeen: seq<AnsweredQuestion>)

  /** The lengths the player can choose for a game, in seconds. */
  predicate IsGameTime(t: int)
  {
    t == 30 || t == 60
  }

  class Game {
    var step: Step
    var gameTime: int
    var timeRemaining: int
    var questions: seq<GameQuestion>
    var currentIndex: int
    var score: int
    var answered: seq<AnsweredQuestion>
    var feedback: Option<Pending>

    /** The score is the sum of the recorded points, every record was scored
        by the rule, and the clock and the index are never negative. */
    ghost predicate Valid()
      reads this
    {
      && IsGameTime(gameTime)
      && timeRemaining >= 0
      && currentIndex >= 0
      && score == TotalPoints(answered)
      && (forall i :: 0 <= i < |answered| ==> ScoredByRule(answered[i]))
    }

    /** The initial state of the page. */
    constructor ()
      ensures Valid()
      ensures step == Setup && gameTime == 30 && timeRemaining == 30
      ensures questions == [] && currentIndex == 0 && score == 0 && answered == [] && feedback == None
    {
      step := Setup;
      gameTime := 30;
      timeRemaining := 30;
      questions := [];
      currentIndex := 0;
      score := 0;
      answered := [];
      feedback := None;
    }

    /** The game-time buttons of the setup screen. */
    method ChooseGameTime(t: int)
      requires Valid() && IsGameTime(t)
      modifies this`gameTime
      ensures Valid() && gameTime == t
    {
      gameTime := t;
    }

    /** The first half of `startGame`: without both a topic and a subtopic
        nothing happens; otherwise the game enters 'generating' and the
        prompt for the question request is built. */
    method StartGame(topic: Option<string>, subtopic: Option<string>, genre: Option<string>)
      returns (prompt: Option<string>)
      requires Valid()
      modifies this`step
      ensures Valid()
      ensures prompt.Some? <==> Truthy(topic) && Truthy(subtopic)
      ensures prompt.None? ==> step == old(step)
      ensures prompt.Some? ==> step == Generating && prompt.value == PromptFor(topic.value, subtopic.value, genre)
    {
      if !Truthy(topic) || !Truthy(subtopic) {
        return None;
      }
      step := Generating;
      prompt := Some(PromptFor(topic.value, subtopic.value, genre));
    }

    /** The second half of `startGame`, once the question request has
        settled: `fetched` is the parsed question list, or None when the
        request or the parsing failed. Success starts the clock at the chosen
        game time from question 0 with no score and no answers; failure
        returns to setup. */
    method FinishGeneration(fetched: Option<seq<GameQuestion>>)
      requires Valid()
      modifies this`step, this`questions, this`currentIndex, this`score, this`answered, this`timeRemaining
      ensures Valid()
      ensures fetched.None? ==> step == Setup && unchanged(this`questions, this`currentIndex, this`score, this`answered, this`timeRemaining)
      ensures fetched.Some? ==>
                && step == Playing && questions == fetched.value
                && currentIndex == 0 && score == 0 && answered == [] && timeRemaining == gameTime
    {
      if fetched.Some? {
        questions := fetched.value;
        currentIndex := 0;
        score := 0;
        answered := [];
        timeRemaining := gameTime;
        step := Playing;
      } else {
        step := Setup;
      }
    }

    /** `handleGameAnswer`: the player picks option `selectedIndex` of the
        current question `elapsedMs` milliseconds after it was shown. The
        answer is correct iff the index is the correct one; exactly one
        record is appended and the score grows by exactly its points. */
    method AnswerGame(selectedIndex: nat, elapsedMs: nat) returns (points: nat)
      requires Valid()
      requires step == Playing && feedback.None?
      requires 0 <= currentIndex < |questions| && WellFormed(questions[currentIndex])
      requires selectedIndex < |questions[currentIndex].options|
      modifies this`answered, this`score, this`feedback
      ensures Valid()
      ensures var q := questions[currentIndex];
              var isCorrect := selectedIndex == q.correctAnswer;
              && points == Points(isCorrect, elapsedMs)
              && answered == old(answered) + [AnsweredQuestion(q.question, q.options[selectedIndex],
                                                               q.options[q.correctAnswer], isCorrect, points, elapsedMs)]
              && score == old(score) + points
              && feedback == Some(Pending(selectedIndex, isCorrect, currentIndex, |questions|, score, old(answered)))
    {
      var q := questions[currentIndex];
      var isCorrect := selectedIndex == q.correctAnswer;
      points := Points(isCorrect, elapsedMs);
      var record := AnsweredQuestion(q.question, q.options[selectedIndex], q.options[q.correctAnswer],
                                     isCorrect, points, elapsedMs);
      var before := answered;
      answered := answered + [record];
      assert answered[..|answered| - 1] == before;
      score := score + points;
      feedback := Some(Pending(selectedIndex, isCorrect, currentIndex, |questions|, score, before));
    }

    /** The end of the 800 ms feedback delay: the feedback is cleared and the
        game moves to the question after the one answered, or, after the
        last question, ends in 'results' and hands the final score on. */
    method Advance() returns (over: Option<GameOver>)
      requires Valid() && feedback.Some?
      modifies this`feedback, this`currentIndex, this`step
      ensures Valid() && feedback.None?
      ensures var f := old(feedback.value);
              if f.atIndex < f.questionCount - 1 then
                over.None? && currentIndex == f.atIndex + 1 && currentIndex <= f.questionCount - 1
                && step == old(step)
              else
                over == Some(GameOver(f.newScore, f.answeredBefore))
                && currentIndex == old(currentIndex) && step == Results
    {
      var f := feedback.value;
      feedback := None;
      if f.atIndex < f.questionCount - 1 {
        currentIndex := f.atIndex + 1;
        over := None;
      } else {
        over := Some(GameOver(f.newScore, f.answeredBefore));
        step := Results;
      }
    }

    /** One second of the countdown. It acts only while playing with time
        left: the time drops by one, and the game ends when it reaches 0. */
    method Tick()
      requires Valid()
      modifies this`timeRemaining, this`step
      ensures Valid()
      ensures 0 <= timeRemaining <= old(timeRemaining)
      ensures old(step) == Playing && old(timeRemaining) > 0 ==>
                timeRemaining == old(timeRemaining) - 1
                && step == (if timeRemaining == 0 then Results else Playing)
      ensures !(old(step) == Playing && old(timeRemaining) > 0) ==>
                timeRemaining == old(timeRemaining) && step == old(step)
    {
      if step == Playing && timeRemaining > 0 {
        if timeRemaining <= 1 {
          step := Results;
          timeRemaining := 0;
        } else {
          timeRemaining := timeRemaining - 1;
        }
      }
    }

    /** The Play Again button: back to setup with no score, no answers and
        the first question. */
    method PlayAgain()
      requires Valid()
      modifies this`step, this`score, this`answered, this`currentIndex
      ensures Valid()
      ensures step == Setup && score == 0 && answered == [] && currentIndex == 0
    {
      step := Setup;
      score := 0;
      answered := [];
      currentIndex := 0;
    }
  }
}
