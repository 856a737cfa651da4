/**
 * The first igloo score class. Its state, constructor and `recordScores` are
 * the shared ones of `Judging`; its `overallScore` subtracts
 * `min(max(score1, score2), score3)` from the total rather than the lowest
 * score.
 */
module IglooScore1 {
  import opened JavaInt
  import opened Judging

  /**
   * `overallScore` as written: the larger of the first two scores, capped by
   * the third, is taken off the total; every `int` operation wraps.
   */
  function OverallScore(sc: Scores): (r: Int32)
    ensures r == Wrap(sc.score1 + sc.score2 + sc.score3 - Min(Max(sc.score1, sc.score2), sc.score3))
    ensures r == Wrap(sc.score1 + sc.score2) || r == Wrap(sc.score1 + sc.score3)
         || r == Wrap(sc.score2 + sc.score3)
  {
    var s := if sc.score1 < sc.score2 then sc.score2 else sc.score1;
    var s' := if s > sc.score3 then sc.score3 else s;
    assert s' == Min(Max(sc.score1, sc.score2), sc.score3);
    assert s' == sc.score1 || s' == sc.score2 || s' == sc.score3;
    var partial := Add(sc.score1, sc.score2);
    var total := Add(partial, sc.score3);
    AddStep(partial, sc.score1 + sc.score2, sc.score3);
    SubStep(total, sc.score1 + sc.score2 + sc.score3, s');
    Sub(total, s')
  }

  /** A fresh object scores zero. */
  lemma NewScoresZero()
    ensures OverallScore(New()) == 0
  {
    WrapSpec(0);
  }

  /** With scores in 0..50 nothing wraps: the result is the exact arithmetic value. */
  lemma OverallScoreExact(sc: Scores)
    requires ValidScore(sc.score1) && ValidScore(sc.score2) && ValidScore(sc.score3)
    ensures OverallScore(sc) == sc.score1 + sc.score2 + sc.score3 - Min(Max(sc.score1, sc.score2), sc.score3)
  {
    var x := sc.score1 + sc.score2 + sc.score3 - Min(Max(sc.score1, sc.score2), sc.score3);
    assert 0 <= x <= 2 * HighestScore;
    WrapSpec(x);
  }

  /** With scores in 0..50 the result is the sum of two of them, within 0..100. */
  lemma OverallScoreRange(sc: Scores)
    requires ValidScore(sc.score1) && ValidScore(sc.score2) && ValidScore(sc.score3)
    ensures var r := OverallScore(sc);
            (r == sc.score1 + sc.score2 || r == sc.score1 + sc.score3 || r == sc.score2 + sc.score3)
            && 0 <= r <= 2 * HighestScore
  {
    OverallScoreExact(sc);
  }

  /** When the third score is the lowest, the documented rule holds, wrap-around included. */
  lemma OverallScoreCorrectWhenThirdLowest(sc: Scores)
    requires sc.score3 <= Min(sc.score1, sc.score2)
    ensures OverallScore(sc) == Wrap(SumOfTwoHighest(sc.score1, sc.score2, sc.score3))
  {
  }

  /**
   * Exactly where the documented rule holds for valid scores: the third
   * score is the lowest, or the first two scores are equal.
   */
  lemma OverallScoreCorrectIff(sc: Scores)
    requires ValidScore(sc.score1) && ValidScore(sc.score2) && ValidScore(sc.score3)
    ensures OverallScore(sc) == SumOfTwoHighest(sc.score1, sc.score2, sc.score3)
        <==> sc.score3 <= Min(sc.score1, sc.score2) || sc.score1 == sc.score2
  {
    OverallScoreExact(sc);
  }

  /** Scores 10, 20, 30 give 40 where the documented rule gives 50. */
  lemma OverallScoreCounterexample()
    ensures OverallScore(RecordScores(New(), 10, 20, 30)) == 40
    ensures SumOfTwoHighest(10, 20, 30) == 50
  {
    WrapSpec(40);
  }
}
