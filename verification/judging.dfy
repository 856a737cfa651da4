/**
 * The scoring rule both igloo score classes document: three judges each give
 * a score from 0 to 50, the lowest is thrown out, and the overall score is
 * the sum of the two highest. Both score classes share the same state,
 * constructor and `recordScores`; they differ only in `overallScore`.
 */
module Judging {
  import opened JavaInt

  /**
   * The state both score classes hold: three Java `int` scores. An object is
   * modelled as an immutable value.
   */
  datatype Scores = Scores(score1: Int32, score2: Int32, score3: Int32)

  /** The constructor of either class: all three scores start at zero. */
  function New(): (sc: Scores)
    ensures sc.score1 == 0 && sc.score2 == 0 && sc.score3 == 0
  {
    Scores(0, 0, 0)
  }

  /** `recordScores`: the three scores are replaced by the arguments and nothing else is kept. */
  function RecordScores(sc: Scores, s1: Int32, s2: Int32, s3: Int32): (r: Scores)
    ensures r.score1 == s1 && r.score2 == s2 && r.score3 == s3
  {
    Scores(s1, s2, s3)
  }

  /** Recording scores forgets everything the object held before. */
  lemma RecordScoresOverwrites(a: Scores, b: Scores, s1: Int32, s2: Int32, s3: Int32)
    ensures RecordScores(a, s1, s2, s3) == RecordScores(b, s1, s2, s3)
  {
  }

  const LowestScore: int := 0
  const HighestScore: int := 50

  predicate ValidScore(s: int)
  {
    LowestScore <= s <= HighestScore
  }

  function Min(a: int, b: int): int
  {
    if a <= b then a else b
  }

  function Max(a: int, b: int): int
  {
    if a <= b then b else a
  }

  /**
   * The documented overall score: the best sum of two of the three scores,
   * that is, the total with one lowest score removed.
   */
  function SumOfTwoHighest(a: int, b: int, c: int): (r: int)
    ensures r == a + b || r == a + c || r == b + c
    ensures r >= a + b && r >= a + c && r >= b + c
    ensures r == a + b + c - Min(Min(a, b), c)
  {
    if a <= b && a <= c then b + c
    else if b <= a && b <= c then a + c
    else a + b
  }

  /** With every score in 0..50 the overall score lies in 0..100. */
  lemma SumOfTwoHighestRange(a: int, b: int, c: int)
    requires ValidScore(a) && ValidScore(b) && ValidScore(c)
    ensures 0 <= SumOfTwoHighest(a, b, c) <= 2 * HighestScore
  {
  }
}
