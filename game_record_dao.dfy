/**
 * The query for a game's best stored result. As written it orders the
 * game's records by `score / maxScore`, an integer division, so every
 * record short of a perfect score gets the key 0 and any of them may be
 * returned. `HighScore` is the query as evidently intended: the record
 * with the highest percent.
 */
module GameRecordQueries {
  import opened Wrappers
  import opened JvmInt
  import opened GameRecords
  import opened Quiz

  /** A record as the game stores it: a positive number of questions and a score that is not negative. */
  predicate StoredRecord(rec: GameRecord) {
    0 <= rec.score && 0 < rec.maxScore
  }

  /** The ordering key of the query as written: the integer quotient `score / maxScore`. */
  function RatioKey(rec: GameRecord): int
    requires StoredRecord(rec)
  {
    TruncDiv(rec.score, rec.maxScore)
  }

  /** Whether `answer` is a row the query as written may return for `gameUuid`. */
  predicate IsHighScoreRowAsWritten(records: seq<GameRecord>, gameUuid: string, answer: Option<GameRecord>)
    requires forall rec :: rec in records ==> StoredRecord(rec)
  {
    && (answer.None? <==> forall rec :: rec in records ==> rec.gameUuid != gameUuid)
    && (answer.Some? ==>
         && answer.value in records && answer.value.gameUuid == gameUuid
         && forall rec :: rec in records && rec.gameUuid == gameUuid ==> RatioKey(rec) <= RatioKey(answer.value))
  }

  /**
   * With results of 3/4 and 1/4 stored, the query as written may return
   * 1/4, and a new game of 2/4 is then announced as a high score although
   * 3/4 is on record.
   */
  lemma HighScoreQueryMissesBest()
    ensures NewGameRecord(1, "game", 3, 4) == Success(GameRecord(1, "game", 3, 4, 75))
    ensures NewGameRecord(2, "game", 1, 4) == Success(GameRecord(2, "game", 1, 4, 25))
    ensures NewGameRecord(0, "game", 2, 4) == Success(GameRecord(0, "game", 2, 4, 50))
    ensures IsHighScoreRowAsWritten(
      [GameRecord(1, "game", 3, 4, 75), GameRecord(2, "game", 1, 4, 25)], "game",
      Some(GameRecord(2, "game", 1, 4, 25)))
    ensures NewHighScore(GameRecord(0, "game", 2, 4, 50), Some(GameRecord(2, "game", 1, 4, 25))).Some?
    ensures NewHighScore(GameRecord(0, "game", 2, 4, 50),
      HighScore([GameRecord(1, "game", 3, 4, 75), GameRecord(2, "game", 1, 4, 25)], "game")).None?
  {
    var best := GameRecord(1, "game", 3, 4, 75);
    var other := GameRecord(2, "game", 1, 4, 25);
    assert RatioKey(best) == 0 && RatioKey(other) == 0;
    assert forall rec :: rec in [best, other] ==> rec == best || rec == other;
  }

  /** The game's stored record with the highest percent, if any (the intended query). */
  function HighScore(records: seq<GameRecord>, gameUuid: string): (r: Option<GameRecord>)
    ensures r.None? <==> forall rec :: rec in records ==> rec.gameUuid != gameUuid
    ensures r.Some? ==>
      && r.value in records && r.value.gameUuid == gameUuid
      && forall rec :: rec in records && rec.gameUuid == gameUuid ==> rec.percent <= r.value.percent
  {
    if records == [] then None
    else
      var rest := HighScore(records[1..], gameUuid);
      var head := records[0];
      assert forall rec :: rec in records <==> rec == head || rec in records[1..];
      if head.gameUuid != gameUuid then rest
      else match rest
        case None => Some(head)
        case Some(best) => if best.percent > head.percent then rest else Some(head)
  }

  /**
   * Against the intended query, a game is announced as a new high score
   * exactly when its percent is positive and beats every stored result of
   * the same game.
   */
  lemma NewHighScoreBeatsHistory(current: GameRecord, records: seq<GameRecord>, gameUuid: string)
    requires forall rec :: rec in records ==> rec.percent >= 0
    ensures NewHighScore(current, HighScore(records, gameUuid)).Some? <==>
      && current.percent > 0
      && forall rec :: rec in records && rec.gameUuid == gameUuid ==> rec.percent < current.percent
  {
  }
}
