/** Two whole games driven through the session's events, each ending in
    'results' by a different route. */
module GameScenarios {
  import opened Wrappers
  import opened Scoring
  import opened GameSession

  /** A game whose player never answers: after the 30 ticks of the default
      game time the clock ends it with no answers and no score. */
  method RunOutOfTime(qs: seq<GameQuestion>) returns (step: Step, answeredCount: nat, score: int, timeLeft: int)
    ensures step == Results && answeredCount == 0 && score == 0 && timeLeft == 0
  {
    var g := new Game();
    var prompt := g.StartGame(Some("History"), Some("World Wars"), None);
    g.FinishGeneration(Some(qs));
    var ticks := 0;
    while ticks < 30
      invariant 0 <= ticks <= 30
      invariant g.Valid() && g.answered == [] && g.score == 0
      invariant g.timeRemaining == 30 - ticks
      invariant g.step == if ticks < 30 then Playing else Results
    {
      g.Tick();
      ticks := ticks + 1;
    }
    step, answeredCount, score, timeLeft := g.step, |g.answered|, g.score, g.timeRemaining;
  }

  /** A game whose player answers every question correctly 200 ms after it
      appears: with the 800 ms feedback delay each question takes one second,
      one tick of the countdown. The last answer ends the game before the
      clock does, with one record per question and 198 points for each. The
      list handed on for the high score was captured before the last answer
      was added, so it is one answer short. */
  method AnswerEverything(qs: seq<GameQuestion>)
    returns (step: Step, answeredCount: nat, score: int, timeLeft: int, seenByHighScore: nat)
    requires 0 < |qs| < 30
    requires forall i :: 0 <= i < |qs| ==> WellFormed(qs[i])
    ensures step == Results && answeredCount == |qs|
    ensures score == |qs| * Points(true, 200) == |qs| * 198 && timeLeft == 30 - |qs| > 0
    ensures seenByHighScore == |qs| - 1
  {
    var g := new Game();
    var prompt := g.StartGame(Some("History"), Some("World Wars"), None);
    g.FinishGeneration(Some(qs));
    var i := 0;
    seenByHighScore := 0;
    while i < |qs|
      invariant 0 <= i <= |qs|
      invariant g.Valid() && g.feedback.None? && g.questions == qs
      invariant |g.answered| == i && g.score == i * Points(true, 200)
      invariant g.timeRemaining == 30 - i
      invariant i < |qs| ==> g.step == Playing && g.currentIndex == i
      invariant i == |qs| ==> g.step == Results && seenByHighScore == |qs| - 1
    {
      var over := AnswerWithinOneSecond(g, qs, i);
      if over.Some? {
        seenByHighScore := |over.value.answeredSeen|;
      }
      i := i + 1;
    }
    step, answeredCount, score, timeLeft := g.step, |g.answered|, g.score, g.timeRemaining;
  }

  /** One second of that game: question `i` is answered correctly 200 ms
      after it appears, the countdown ticks when the second is over, and the
      800 ms feedback delay ends at that moment too. The tick is taken first:
      which of the two timers runs first is left to the browser. */
  method AnswerWithinOneSecond(g: Game, qs: seq<GameQuestion>, i: nat) returns (over: Option<GameOver>)
    requires i < |qs| < 30 && WellFormed(qs[i])
    requires g.Valid() && g.feedback.None? && g.questions == qs
    requires |g.answered| == i && g.score == i * Points(true, 200)
    requires g.timeRemaining == 30 - i && g.step == Playing && g.currentIndex == i
    modifies g
    ensures g.Valid() && g.feedback.None? && g.questions == qs
    ensures |g.answered| == i + 1 && g.score == (i + 1) * Points(true, 200)
    ensures g.timeRemaining == 30 - (i + 1)
    ensures i + 1 < |qs| ==> g.step == Playing && g.currentIndex == i + 1 && over.None?
    ensures i + 1 == |qs| ==> g.step == Results && over.Some? && |over.value.answeredSeen| == i
  {
    var points := g.AnswerGame(qs[i].correctAnswer as nat, 200);
    g.Tick();
    over := g.Advance();
  }
}
