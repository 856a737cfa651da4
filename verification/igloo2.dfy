/**
 * The second igloo score class: a four-way case split on which score is the
 * strict minimum. When the first or the third score is, the other two are
 * added; when the second is, the first two are added, so the lowest score
 * is kept; when no score is strictly lowest, the result is 99 + 99.
 */
module IglooScore2 {
  import opened Wrappers
  import opened JavaInt
  import opened Judging

  /** Which score, if any, is strictly below both others. */
  datatype LowestCase = FirstLowest | SecondLowest | ThirdLowest | NoStrictLowest

  const TieScore: int := 99
  const RangeError: string := "Error: scores must be between 0 and 50!"

  /**
   * The case of the three scores. Exactly one case holds; there is no strict
   * minimum exactly when the lowest value is shared by two scores.
   */
  function Lowest(a: int, b: int, c: int): (k: LowestCase)
    ensures k == FirstLowest ==> a < b && a < c
    ensures k == SecondLowest ==> b < a && b < c
    ensures k == ThirdLowest ==> c < a && c < b
    ensures k == NoStrictLowest <==> (a == b && a <= c) || (a == c && a <= b) || (b == c && b <= a)
  {
    if a < b && a < c then FirstLowest
    else if b < a && b < c then SecondLowest
    else if c < a && c < b then ThirdLowest
    else NoStrictLowest
  }

  /** `overallScore` as written, with Java's wrapping `int` addition. */
  function OverallScore(sc: Scores): (r: Int32)
    ensures Lowest(sc.score1, sc.score2, sc.score3) == FirstLowest ==> r == Wrap(sc.score2 + sc.score3)
    ensures Lowest(sc.score1, sc.score2, sc.score3) == SecondLowest ==> r == Wrap(sc.score1 + sc.score2)
    ensures Lowest(sc.score1, sc.score2, sc.score3) == ThirdLowest ==> r == Wrap(sc.score1 + sc.score2)
    ensures Lowest(sc.score1, sc.score2, sc.score3) == NoStrictLowest ==> r == 2 * TieScore
  {
    var (s1, s2) :=
      if sc.score1 < sc.score2 && sc.score1 < sc.score3 then (sc.score2, sc.score3)
      else if sc.score2 < sc.score1 && sc.score2 < sc.score3 then (sc.score1, sc.score2)
      else if sc.score3 < sc.score1 && sc.score3 < sc.score2 then (sc.score1, sc.score2)
      else (TieScore, TieScore);
    WrapSpec(TieScore + TieScore);
    Add(s1, s2)
  }

  /**
   * `main` after argument parsing: scores outside 0..50 are refused with the
   * range message; otherwise a fresh object records them and is scored.
   */
  function ScoreArguments(s1: Int32, s2: Int32, s3: Int32): (r: Result<Int32, string>)
    ensures r.Success? <==> ValidScore(s1) && ValidScore(s2) && ValidScore(s3)
    ensures r.Success? ==> r.value == OverallScore(RecordScores(New(), s1, s2, s3))
    ensures r.Failure? ==> r.error == RangeError
    ensures r.Success? && Lowest(s1, s2, s3) != NoStrictLowest ==> 0 <= r.value <= 2 * HighestScore
    ensures r.Success? && Lowest(s1, s2, s3) == NoStrictLowest ==> r.value == 2 * TieScore
  {
    if s1 < 0 || s1 > 50 || s2 < 0 || s2 > 50 || s3 < 0 || s3 > 50 then Failure(RangeError)
    else
      WrapSpec(s1 + s2);
      WrapSpec(s2 + s3);
      Success(OverallScore(RecordScores(New(), s1, s2, s3)))
  }

  /** A fresh object has no strict minimum, so it scores the tie value. */
  lemma NewScoresTie()
    ensures OverallScore(New()) == 2 * TieScore
  {
  }

  /** When the first or the third score is strictly lowest, the documented rule holds. */
  lemma StrictLowestDropped(sc: Scores)
    requires Lowest(sc.score1, sc.score2, sc.score3) in {FirstLowest, ThirdLowest}
    ensures OverallScore(sc) == Wrap(SumOfTwoHighest(sc.score1, sc.score2, sc.score3))
  {
  }

  /**
   * When the second score is strictly lowest it is kept and the third,
   * higher score is dropped: for valid scores the result falls short of the
   * documented rule by exactly the difference of the two.
   */
  lemma SecondLowestKept(sc: Scores)
    requires ValidScore(sc.score1) && ValidScore(sc.score2) && ValidScore(sc.score3)
    requires Lowest(sc.score1, sc.score2, sc.score3) == SecondLowest
    ensures OverallScore(sc) == SumOfTwoHighest(sc.score1, sc.score2, sc.score3) - (sc.score3 - sc.score2)
    ensures OverallScore(sc) < SumOfTwoHighest(sc.score1, sc.score2, sc.score3)
  {
    WrapSpec(sc.score1 + sc.score2);
  }

  /** Scores 20, 10, 30 give 30 where the documented rule gives 50. */
  lemma SecondLowestCounterexample()
    ensures OverallScore(RecordScores(New(), 20, 10, 30)) == 30
    ensures SumOfTwoHighest(20, 10, 30) == 50
  {
    WrapSpec(30);
  }

  /**
   * A shared minimum yields 198, which no valid pair of scores can sum to:
   * scores 10, 10, 30 give 198 where the documented rule gives 40.
   */
  lemma TieCounterexample()
    ensures OverallScore(RecordScores(New(), 10, 10, 30)) == 198
    ensures SumOfTwoHighest(10, 10, 30) == 40
    ensures 2 * TieScore > 2 * HighestScore
  {
  }
}
