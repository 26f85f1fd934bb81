/**
 * The integer part of the scoring rules (ScoringSystem.java). A passed level
 * earns a time score plus fixed bonuses; the time score itself,
 * `round(maxScore * exp(-t / (5.0 * 1.2)))`, is floating point and enters
 * here as an opaque integer.
 */
module Scoring {

  const BaseMaxScore: int := 200
  const CapIncreasePerLevel: int := 50
  const AccelBonusPoints: int := 40
  const HrBonusPoints: int := 30

  /** The ceiling of the time score on a level: 200 on level 1, 50 more per level. */
  function MaxScore(level: int): int
  {
    BaseMaxScore + (level - 1) * CapIncreasePerLevel
  }

  /** The bonus points for the two wearable flags. */
  function Bonus(accelHit: bool, hrHit: bool): (b: int)
    ensures 0 <= b <= AccelBonusPoints + HrBonusPoints
    ensures b == 0 <==> !accelHit && !hrHit
  {
    (if accelHit then AccelBonusPoints else 0) + (if hrHit then HrBonusPoints else 0)
  }

  /** `scorePassedLevel`, with the exponential time score supplied as `timeScore`. */
  function ScorePassedLevel(level: int, timeScore: int, accelHit: bool, hrHit: bool): (r: int)
    ensures timeScore <= r <= timeScore + AccelBonusPoints + HrBonusPoints
  {
    timeScore + Bonus(accelHit, hrHit)
  }

  /** `applyFailRule`: failing level 1 (or below) forfeits everything, later levels keep the total. */
  function ApplyFailRule(levelFailed: int, totalSoFar: int): (r: int)
    ensures r == 0 || r == totalSoFar
  {
    if levelFailed <= 1 then 0 else totalSoFar
  }

  /** Each level raises the ceiling by exactly 50, starting from 200. */
  lemma MaxScoreStep(level: int)
    ensures MaxScore(1) == 200
    ensures MaxScore(level + 1) == MaxScore(level) + 50
    ensures level >= 1 ==> MaxScore(level) >= 200
  {
  }

  /** The accelerometer bonus adds exactly 40 and the heart-rate bonus exactly 30, independently. */
  lemma BonusesAdditive(level: int, timeScore: int, accelHit: bool, hrHit: bool)
    ensures ScorePassedLevel(level, timeScore, true, hrHit) == ScorePassedLevel(level, timeScore, false, hrHit) + 40
    ensures ScorePassedLevel(level, timeScore, accelHit, true) == ScorePassedLevel(level, timeScore, accelHit, false) + 30
    ensures ScorePassedLevel(level, timeScore, true, true) == timeScore + 70
    ensures ScorePassedLevel(level, timeScore, false, false) == timeScore
  {
  }

  /**
   * With the time score in its natural range 0..maxScore (the exponential
   * ratio lies in (0, 1] for a non-negative duration), a passed level earns
   * between 0 and maxScore + 70.
   */
  lemma PassedScoreBounds(level: int, timeScore: int, accelHit: bool, hrHit: bool)
    requires 0 <= timeScore <= MaxScore(level)
    ensures 0 <= ScorePassedLevel(level, timeScore, accelHit, hrHit) <= MaxScore(level) + 70
  {
  }

  /** The fail rule: zero on level 1 and below, the running total otherwise. */
  lemma FailRuleCases(levelFailed: int, totalSoFar: int)
    ensures levelFailed <= 1 ==> ApplyFailRule(levelFailed, totalSoFar) == 0
    ensures levelFailed > 1 ==> ApplyFailRule(levelFailed, totalSoFar) == totalSoFar
  {
  }

  /** On a non-negative total the fail rule never adds points and is idempotent. */
  lemma FailRuleNeverIncreases(levelFailed: int, totalSoFar: int)
    requires totalSoFar >= 0
    ensures 0 <= ApplyFailRule(levelFailed, totalSoFar) <= totalSoFar
    ensures ApplyFailRule(levelFailed, ApplyFailRule(levelFailed, totalSoFar)) == ApplyFailRule(levelFailed, totalSoFar)
  {
  }
}
