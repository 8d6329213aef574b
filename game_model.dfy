/**
 * The quiz data that the game logic reads, from the network model of a game:
 * a question's choices and its optional time limit, and the game state the
 * view model publishes.
 */
module GameModel {
  import opened Wrappers
  import opened JvmInt
  import opened GameRecords

  /** One answer of a question; `correct` marks the right ones. */
  datatype Choice = Choice(answer: string, correct: bool)

  /**
   * A quiz question. `time` is the time limit in milliseconds, or `None`
   * for a question without a countdown.
   */
  datatype Question = Question(choices: seq<Choice>, time: Option<Int32>)

  /**
   * What the screen observes: whether the game is over and, if this game
   * beat the stored best result, the record that did.
   */
  datatype GameState = GameState(finished: bool, newHighScore: Option<GameRecord>)
}
