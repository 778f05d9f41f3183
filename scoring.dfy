/** The points of one answer in the timed quiz, and the record the quiz keeps
    of each answer. Response times are whole milliseconds. */
module Scoring {

  /** Points every correct answer earns. */
  const BasePoints: nat := 100

  /** The response time, in milliseconds, at which the speed bonus reaches 0. */
  const BonusWindowMs: nat := 10000

  /** `Math.max(0, Math.floor((10 - t) * 10))` for a response time of
      `t = ms / 1000` seconds: one point per full 100 ms left in the
      ten-second window. */
  function SpeedBonus(ms: nat): (b: nat)
    ensures b <= 100
    ensures ms < BonusWindowMs ==> b * 100 <= BonusWindowMs - ms < (b + 1) * 100
    ensures ms >= BonusWindowMs ==> b == 0
  {
    if ms >= BonusWindowMs then 0 else (BonusWindowMs - ms) / 100
  }

  /** A slower answer never earns a larger bonus. */
  lemma SpeedBonusMonotone(fast: nat, slow: nat)
    requires fast <= slow
    ensures SpeedBonus(slow) <= SpeedBonus(fast)
  {
  }

  /** The points of an answer: 100 plus the speed bonus when correct, 0 when
      wrong. */
  function Points(isCorrect: bool, ms: nat): (p: nat)
    ensures isCorrect ==> BasePoints <= p <= 2 * BasePoints
    ensures !isCorrect ==> p == 0
    ensures isCorrect && ms == 0 ==> p == 200
    ensures isCorrect && ms >= BonusWindowMs ==> p == 100
  {
    if isCorrect then BasePoints + SpeedBonus(ms) else 0
  }

  /** What the quiz records of one answer: the question, the text of the
      chosen option, the text of the correct option, whether the choice was
      right, the points it earned and the response time. */
  datatype AnsweredQuestion = AnsweredQuestion(
    question: string,
    selectedAnswer: string,
    correctAnswer: string,
    isCorrect: bool,
    points: nat,
    timeToAnswerMs: nat)

  /** The record earned its points by the scoring rule. */
  predicate ScoredByRule(a: AnsweredQuestion)
  {
    a.points == Points(a.isCorrect, a.timeToAnswerMs)
  }

  /** The sum of the points of a list of answers. */
  function TotalPoints(answered: seq<AnsweredQuestion>): nat
  {
    if answered == [] then 0 else TotalPoints(answered[..|answered| - 1]) + answered[|answered| - 1].points
  }

  /** `answered.filter(q => q.isCorrect).length`. */
  function CountCorrect(answered: seq<AnsweredQuestion>): (n: nat)
    ensures n <= |answered|
  {
    if answered == [] then 0
    else CountCorrect(answered[..|answered| - 1]) + (if answered[|answered| - 1].isCorrect then 1 else 0)
  }

  /** When every answer was scored by the rule, the total lies between 100
      and 200 points per correct answer. */
  lemma {:induction false} TotalPointsBounds(answered: seq<AnsweredQuestion>)
    requires forall i :: 0 <= i < |answered| ==> ScoredByRule(answered[i])
    ensures BasePoints * CountCorrect(answered) <= TotalPoints(answered) <= 2 * BasePoints * CountCorrect(answered)
  {
    if answered != [] {
      var init := answered[..|answered| - 1];
      assert forall i :: 0 <= i < |init| ==> init[i] == answered[i];
      TotalPointsBounds(init);
    }
  }
}
