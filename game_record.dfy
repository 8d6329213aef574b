/**
 * A stored game result. Its `percent` defaults to `score * 100 / maxScore`,
 * evaluated on 32-bit `Int`: the product wraps around and the division
 * truncates, and a zero `maxScore` throws an `ArithmeticException`.
 */
module GameRecords {
  import opened Wrappers
  import opened JvmInt

  datatype GameRecord = GameRecord(
    id: int,
    gameUuid: string,
    score: Int32,
    maxScore: Int32,
    percent: Int32)

  /** The exception raised by integer division by zero. */
  datatype ArithmeticError = DivisionByZero

  /** Largest `maxScore` for which `score * 100` cannot overflow when `score <= maxScore`. */
  const MaxExactScore: int := MaxInt / 100

  /** The default value of `percent`. */
  function DefaultPercent(score: Int32, maxScore: Int32): (r: Result<Int32, ArithmeticError>)
    ensures r.Failure? <==> maxScore == 0
    ensures 0 <= score <= MaxExactScore && 0 < maxScore ==> r == Success(score * 100 / maxScore)
  {
    if maxScore == 0 then Failure(DivisionByZero)
    else Success(Div(Mul(score, 100), maxScore))
  }

  /** `GameRecord(id, gameUuid, score, maxScore)`, leaving `percent` to its default. */
  function NewGameRecord(id: int, gameUuid: string, score: Int32, maxScore: Int32)
    : (r: Result<GameRecord, ArithmeticError>)
    ensures r.Failure? <==> maxScore == 0
    ensures r.Success? ==>
      && r.value.id == id && r.value.gameUuid == gameUuid
      && r.value.score == score && r.value.maxScore == maxScore
      && Success(r.value.percent) == DefaultPercent(score, maxScore)
  {
    match DefaultPercent(score, maxScore)
    case Failure(e) => Failure(e)
    case Success(p) => Success(GameRecord(id, gameUuid, score, maxScore, p))
  }

  /** Scores for which the default percent is exact: no overflow, no division by zero. */
  predicate ExactRange(score: int, maxScore: int) {
    0 <= score <= maxScore && 0 < maxScore <= MaxExactScore
  }

  /** `x / m` brackets `x` between `(x / m) * m` and `(x / m + 1) * m`. */
  lemma DivBracket(x: int, m: int)
    requires 0 <= x && 0 < m
    ensures (x / m) * m <= x < (x / m + 1) * m
  {
  }

  /** Multiplying by a non-negative factor keeps the order. */
  lemma MulMono(a: int, b: int, m: int)
    requires 0 <= m
    ensures a <= b ==> a * m <= b * m
  {
  }

  /** `x <= k * m` bounds the quotient `x / m` by `k`, and `k * m <= x` bounds it from below. */
  lemma QuotientVsMultiple(x: int, m: int, k: int)
    requires 0 <= x && 0 < m
    ensures x <= k * m ==> x / m <= k
    ensures k * m <= x ==> k <= x / m
  {
    DivBracket(x, m);
    MulMono(k + 1, x / m, m);
    MulMono(x / m + 1, k, m);
  }

  /** A share of `s` out of `m` in hundredths, rounded down, lies between 0 and 100. */
  lemma ShareAtMostHundred(s: int, m: int)
    requires 0 <= s <= m && 0 < m
    ensures 0 <= s * 100 / m <= 100
  {
    MulMono(s, m, 100);
    QuotientVsMultiple(s * 100, m, 100);
  }

  /** The default percent of a game lies between 0 and 100. */
  lemma PercentBounds(score: Int32, maxScore: Int32)
    requires ExactRange(score, maxScore)
    ensures DefaultPercent(score, maxScore).Success?
    ensures 0 <= DefaultPercent(score, maxScore).value <= 100
  {
    ShareAtMostHundred(score, maxScore);
  }

  /** A percent of exactly 100 means a perfect game, and only a perfect game gets it. */
  lemma PercentFullIffPerfect(score: Int32, maxScore: Int32)
    requires ExactRange(score, maxScore)
    ensures DefaultPercent(score, maxScore).Success?
    ensures DefaultPercent(score, maxScore).value == 100 <==> score == maxScore
  {
    QuotientVsMultiple(score * 100, maxScore, 100);
    QuotientVsMultiple(score * 100, maxScore, 99);
    MulMono(score + 1, maxScore, 100);
  }

  /** For a fixed number of questions, a higher score never gives a lower percent. */
  lemma PercentMonotone(score1: Int32, score2: Int32, maxScore: Int32)
    requires ExactRange(score1, maxScore) && ExactRange(score2, maxScore)
    requires score1 <= score2
    ensures DefaultPercent(score1, maxScore).value <= DefaultPercent(score2, maxScore).value
  {
    DivBracket(score1 * 100, maxScore);
    QuotientVsMultiple(score2 * 100, maxScore, score1 * 100 / maxScore);
  }

  /** Beyond `MaxExactScore` the product overflows: a perfect game can get a negative percent. */
  lemma PercentOverflows()
    ensures DefaultPercent(30_000_000, 30_000_000) == Success(-43)
  {
    assert Mul(30_000_000, 100) == -1_294_967_296;
  }
}
