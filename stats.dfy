/**
 * The per-level statistics record (PlayerStats.java): the level's start and
 * end timestamps in nanoseconds (0 meaning "not recorded"), the two bonus
 * flags that the wearable's report latches, and a running total that only
 * grows. `System.nanoTime()` is replaced by the timestamp argument.
 */
module Stats {

  class PlayerStats {
    var totalScore: int
    var levelStartNs: int
    var levelEndNs: int
    var accelBonusHit: bool
    var hrBonusHit: bool

    constructor ()
      ensures totalScore == 0 && levelStartNs == 0 && levelEndNs == 0
      ensures !accelBonusHit && !hrBonusHit
    {
      totalScore := 0;
      levelStartNs := 0;
      levelEndNs := 0;
      accelBonusHit := false;
      hrBonusHit := false;
    }

    /** `addToTotal`: negative points are clamped to 0, so the total never decreases. */
    method AddToTotal(points: int)
      modifies this`totalScore
      ensures totalScore == old(totalScore) + (if points > 0 then points else 0)
      ensures totalScore >= old(totalScore)
    {
      totalScore := totalScore + Max(0, points);
    }

    /** `startLevel`: records the start time and clears the end time and both flags. */
    method StartLevel(nowNs: int)
      modifies this`levelStartNs, this`levelEndNs, this`accelBonusHit, this`hrBonusHit
      ensures levelStartNs == nowNs && levelEndNs == 0
      ensures !accelBonusHit && !hrBonusHit
      ensures LevelDurationNs() == 0
    {
      levelStartNs := nowNs;
      levelEndNs := 0;
      accelBonusHit := false;
      hrBonusHit := false;
    }

    /** `startTracking`, the alias the engine calls. */
    method StartTracking(nowNs: int)
      modifies this`levelStartNs, this`levelEndNs, this`accelBonusHit, this`hrBonusHit
      ensures levelStartNs == nowNs && levelEndNs == 0
      ensures !accelBonusHit && !hrBonusHit
    {
      StartLevel(nowNs);
    }

    /** `endLevel`: records the end time and nothing else; the bonus flags survive. */
    method EndLevel(nowNs: int)
      modifies this`levelEndNs
      ensures levelEndNs == nowNs
      ensures levelStartNs != 0 && nowNs != 0 ==> LevelDurationNs() == nowNs - levelStartNs
    {
      levelEndNs := nowNs;
    }

    /** `stopTracking`, the alias of `endLevel`. */
    method StopTracking(nowNs: int)
      modifies this`levelEndNs
      ensures levelEndNs == nowNs
    {
      EndLevel(nowNs);
    }

    /** `markAccelBonusHit`: latches its flag; nothing else changes. */
    method MarkAccelBonusHit()
      modifies this`accelBonusHit
      ensures accelBonusHit
    {
      accelBonusHit := true;
    }

    /** `markHrBonusHit`: latches its flag; nothing else changes. */
    method MarkHrBonusHit()
      modifies this`hrBonusHit
      ensures hrBonusHit
    {
      hrBonusHit := true;
    }

    /**
     * `getLevelDurationSeconds` before the division by 10^9: the elapsed
     * nanoseconds, or 0 while either timestamp is unrecorded.
     */
    function LevelDurationNs(): (d: int)
      reads this
      ensures levelStartNs == 0 || levelEndNs == 0 ==> d == 0
      ensures levelStartNs != 0 && levelEndNs != 0 ==> d + levelStartNs == levelEndNs
    {
      if levelStartNs == 0 || levelEndNs == 0 then 0 else levelEndNs - levelStartNs
    }
  }

  function Max(a: int, b: int): int
  {
    if a < b then b else a
  }
}
