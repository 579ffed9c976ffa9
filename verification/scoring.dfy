/**
 The setup quality score: four independent criteria added together.
 */
module Scoring {
  import opened Trades

  /** 30 points when the daily and 4-hour directions are the same text. */
  function AlignPoints(s: Setup): real {
    if s.dailyDir == s.h4Dir then 30.0 else 0.0
  }

  /** Breakout grade A, B, C earn 30, 20, 10; any other grade earns nothing. */
  function BreakPoints(grade: string): real {
    if grade == "A" then 30.0
    else if grade == "B" then 20.0
    else if grade == "C" then 10.0
    else 0.0
  }

  /** At least 50 pips of space earn 20, at least 30 earn 10. */
  function SpacePoints(pips: real): real {
    if pips >= 50.0 then 20.0 else if pips >= 30.0 then 10.0 else 0.0
  }

  /** The time-of-day score, capped above at 20 and not floored below. */
  function TimePoints(ts: real): real {
    if ts < 20.0 then ts else 20.0
  }

  /** The quality score of a setup. */
  function CalcScore(s: Setup): (r: real)
    ensures r <= 100.0
    ensures s.timeScore >= 0.0 ==> 0.0 <= r
    ensures s.timeScore >= 20.0 ==> 20.0 <= r
    ensures r == 100.0 <==>
      s.dailyDir == s.h4Dir && s.breakQuality == "A" && s.spacePips >= 50.0 && s.timeScore >= 20.0
  {
    AlignPoints(s) + BreakPoints(s.breakQuality) + SpacePoints(s.spacePips) + TimePoints(s.timeScore)
  }

  /** Raising only the time score never lowers the score, and past 20 it changes nothing. */
  lemma TimeScoreMonotone(s: Setup, t: real)
    requires s.timeScore <= t
    ensures CalcScore(s) <= CalcScore(s.(timeScore := t))
    ensures s.timeScore >= 20.0 ==> CalcScore(s) == CalcScore(s.(timeScore := t))
  {
  }
}
