/**
 * One round of the quiz. The view model walks the game's questions with
 * `currentQuestionIndex` (starting before the first question, at -1),
 * counts correct answers in `currentScore`, and when no question is left
 * stores a `GameRecord` and decides whether it is a new high score.
 *
 * The countdown timer is modelled by explicit events: `Tick` for a
 * progress update and `Timeout` for the timer's expiry. The best stored
 * record for the game, which the view model reads from the database, is a
 * parameter (`lastHigh`).
 */
module Quiz {
  import opened Wrappers
  import opened JvmInt
  import opened GameModel
  import opened GameRecords

  /** What runs when a countdown expires. */
  datatype TimerJob =
    | AdvanceOnExpiry     // a question's time ran out: reset the progress display, then advance
    | AdvanceAfterAnswer  // the pause after an answer is over: advance

  datatype CountDown = Stopped | Running(durationMillis: Int32, onFinish: TimerJob)

  /** The pause between an answer and the next question. */
  const AnswerPauseMillis: Int32 := 2000

  /** The message of the `ArithmeticException` thrown by an integer division by zero. */
  const DivisionByZeroMessage: string := "/ by zero"

  /**
   * The observable state of a round: the question index and score, the
   * published game state, the countdown, its progress display, the
   * question last sent to the screen and the records handed to the
   * repository for storage.
   */
  datatype Round = Round(
    index: int,
    score: Int32,
    gameState: GameState,
    timer: CountDown,
    countdown: int,
    shown: Option<Question>,
    saved: seq<GameRecord>)

  /** The round before the first question: nothing shown, nothing scored. */
  const InitialRound: Round := Round(-1, 0, GameState(false, None), Stopped, 0, None, [])

  /**
   * The invariant of a round over `questions`: the index stays in
   * [-1, |questions| - 1], the shown question is the one at the index,
   * a countdown only runs once a question was shown, and a high score is
   * only reported for a finished game.
   */
  predicate RoundValid(r: Round, questions: seq<Question>) {
    && |questions| <= MaxInt
    && -1 <= r.index < |questions|
    && (r.shown.Some? <==> 0 <= r.index)
    && (r.shown.Some? ==> r.shown.value == questions[r.index])
    && (r.timer.Running? ==> 0 <= r.index)
    && (r.gameState.newHighScore.Some? ==> r.gameState.finished)
  }

  /**
   * Whether `current` is reported as a new high score against the best
   * stored record `last`: it must beat that record's percent strictly, or
   * be above 0 when no record exists.
   */
  function NewHighScore(current: GameRecord, last: Option<GameRecord>): (r: Option<GameRecord>)
    ensures r.Some? ==> r.value == current
    ensures r.Some? <==>
      (last.None? && current.percent > 0) || (last.Some? && current.percent > last.value.percent)
  {
    if current.percent > (match last case Some(l) => l.percent case None => 0) then Some(current)
    else None
  }

  /**
   * The progress value shown while a countdown of `durationMillis` has
   * `millisUntilFinished` left, in thousandths of the duration, rounded
   * down. It is computed on `Long`; with both operands within `Int` range
   * the product cannot overflow, and the result fits an `Int`.
   */
  function TickValue(millisUntilFinished: int, durationMillis: Int32): (r: int)
    requires 0 < durationMillis
    requires 0 <= millisUntilFinished <= durationMillis
    ensures 0 <= r <= 1000
    ensures r * durationMillis <= millisUntilFinished * 1000 < (r + 1) * durationMillis
    ensures millisUntilFinished == durationMillis ==> r == 1000
  {
    DivBracket(millisUntilFinished * 1000, durationMillis);
    QuotientVsMultiple(millisUntilFinished * 1000, durationMillis, 1000);
    millisUntilFinished * 1000 / durationMillis
  }

  /** The record stored when a game over `questions` ends with `score` (its id is generated by the database). */
  function FinalRecord(gameUuid: string, score: Int32, questions: seq<Question>)
    : (res: Result<GameRecord, ArithmeticError>)
    requires |questions| <= MaxInt
    ensures res.Failure? <==> |questions| == 0
    ensures res.Success? ==>
      && res.value.score == score && res.value.maxScore == |questions| && res.value.gameUuid == gameUuid
      && Success(res.value.percent) == DefaultPercent(score, |questions|)
  {
    NewGameRecord(0, gameUuid, score, |questions|)
  }

  /**
   * Finishing the game: the final record is stored and the game state
   * becomes finished, carrying the record when it is a new high score.
   * With no questions the record cannot be built (division by zero).
   */
  function Finish(r: Round, questions: seq<Question>, gameUuid: string, lastHigh: Option<GameRecord>)
    : (res: Result<Round, ArithmeticError>)
    requires |questions| <= MaxInt
    ensures res.Failure? <==> |questions| == 0
    ensures res.Success? ==>
      var rec := FinalRecord(gameUuid, r.score, questions).value;
      && res.value.saved == r.saved + [rec]
      && res.value.gameState == GameState(true, NewHighScore(rec, lastHigh))
      && res.value.(saved := r.saved, gameState := r.gameState) == r
  {
    match FinalRecord(gameUuid, r.score, questions)
    case Failure(e) => Failure(e)
    case Success(rec) =>
      Success(r.(saved := r.saved + [rec], gameState := GameState(true, NewHighScore(rec, lastHigh))))
  }

  /** The countdown after `q` is shown: restarted when `q` has a time limit, left alone otherwise. */
  function TimerFor(q: Question, previous: CountDown): CountDown {
    match q.time
    case None => previous
    case Some(t) => Running(t, AdvanceOnExpiry)
  }

  /**
   * Moving on: past the last question the countdown is cancelled and the
   * game finishes with the index left where it is; otherwise the index
   * moves up by exactly one and that question is shown.
   */
  function Advance(r: Round, questions: seq<Question>, gameUuid: string, lastHigh: Option<GameRecord>)
    : (res: Result<Round, ArithmeticError>)
    requires RoundValid(r, questions)
    ensures res.Failure? <==> |questions| == 0
    ensures res.Success? ==> RoundValid(res.value, questions)
    ensures r.index + 1 >= |questions| && res.Success? ==>
      && res.value.index == r.index && res.value.score == r.score
      && res.value.timer == Stopped && res.value.gameState.finished
    ensures r.index + 1 < |questions| ==>
      && res.Success?
      && res.value.index == r.index + 1
      && res.value.shown == Some(questions[r.index + 1])
      && res.value.timer == TimerFor(questions[r.index + 1], r.timer)
      && res.value.(index := r.index, shown := r.shown, timer := r.timer) == r
  {
    if r.index + 1 >= |questions| then
      Finish(r.(timer := Stopped), questions, gameUuid, lastHigh)
    else
      var q := questions[r.index + 1];
      Success(r.(index := r.index + 1, shown := Some(q), timer := TimerFor(q, r.timer)))
  }

  /**
   * An answer: the score goes up by one exactly when the choice is
   * correct, and the pause before the next question starts.
   */
  function ChoiceDone(r: Round, choice: Choice): (res: Round)
    ensures res.timer == Running(AnswerPauseMillis, AdvanceAfterAnswer)
    ensures r.score < MaxInt ==> (res.score == r.score + 1 <==> choice.correct)
    ensures !choice.correct ==> res.score == r.score
    ensures res.(score := r.score, timer := r.timer) == r
  {
    r.(score := if choice.correct then Inc(r.score) else r.score,
       timer := Running(AnswerPauseMillis, AdvanceAfterAnswer))
  }

  /**
   * The countdown expires. A stopped countdown never fires. A question's
   * countdown resets the progress display to 0; then the round advances.
   * Since a countdown only runs once a question was shown, this never
   * meets the empty question list.
   */
  function Expire(r: Round, questions: seq<Question>, gameUuid: string, lastHigh: Option<GameRecord>)
    : (res: Result<Round, ArithmeticError>)
    requires RoundValid(r, questions)
    ensures r.timer.Stopped? ==> res == Success(r)
    ensures res.Success? && RoundValid(res.value, questions)
    ensures r.timer.Running? && r.timer.onFinish == AdvanceOnExpiry ==> res.value.countdown == 0
    ensures r.timer.Running? ==> res.value.index == r.index + 1 || res.value.gameState.finished
  {
    match r.timer
    case Stopped => Success(r)
    case Running(_, job) =>
      var expired := r.(timer := Stopped, countdown := if job == AdvanceOnExpiry then 0 else r.countdown);
      Advance(expired, questions, gameUuid, lastHigh)
  }

  /**
   * A perfect game (every question answered correctly) is a new high score
   * unless a stored record already has 100 percent.
   */
  lemma PerfectGameIsNewHighScore(r: Round, questions: seq<Question>, gameUuid: string, lastHigh: Option<GameRecord>)
    requires 0 < |questions| <= MaxExactScore && r.score == |questions|
    requires lastHigh.None? || lastHigh.value.percent < 100
    ensures Finish(r, questions, gameUuid, lastHigh).value.gameState.newHighScore.Some?
  {
    PercentFullIffPerfect(r.score, |questions|);
  }

  /** A game without a correct answer is never a new high score while stored percents are not negative. */
  lemma ScorelessGameIsNoHighScore(r: Round, questions: seq<Question>, gameUuid: string, lastHigh: Option<GameRecord>)
    requires 0 < |questions| <= MaxInt && r.score == 0
    requires lastHigh.Some? ==> lastHigh.value.percent >= 0
    ensures Finish(r, questions, gameUuid, lastHigh).value.gameState.newHighScore.None?
  {
  }

  class GameViewModel {
    const gameUuid: string
    var questions: seq<Question>
    var currentQuestionIndex: int
    var currentScore: Int32
    var gameState: GameState
    var countDownTimer: CountDown
    /** The progress display of the countdown. */
    var choiceCountDown: int
    /** The latest question sent to the screen (the channel keeps only the latest). */
    var currentQuestion: Option<Question>
    /** The records handed to the repository's `addScore`. */
    var addedScores: seq<GameRecord>
    var snackbar: Option<string>

    function Snapshot(): Round
      reads this
    {
      Round(currentQuestionIndex, currentScore, gameState, countDownTimer,
            choiceCountDown, currentQuestion, addedScores)
    }

    ghost predicate Valid()
      reads this
    {
      RoundValid(Snapshot(), questions)
    }

    /**
     * Creation, with the game loaded once from the repository: on a load
     * error its message is shown; otherwise the first question is shown,
     * and an empty game fails to finish with a division by zero, whose
     * message is shown instead.
     */
    constructor (gameUuid: string, game: Result<seq<Question>, string>, lastHigh: Option<GameRecord>)
      requires game.Success? ==> |game.value| <= MaxInt
      ensures Valid() && this.gameUuid == gameUuid
      ensures game.Failure? ==>
        questions == [] && Snapshot() == InitialRound && snackbar == Some(game.error)
      ensures game.Success? && game.value == [] ==>
        questions == [] && Snapshot() == InitialRound && snackbar == Some(DivisionByZeroMessage)
      ensures game.Success? && game.value != [] ==>
        && questions == game.value && snackbar == None
        && Snapshot() == Advance(InitialRound, game.value, gameUuid, lastHigh).value
        && currentQuestionIndex == 0 && currentQuestion == Some(game.value[0])
    {
      this.gameUuid := gameUuid;
      questions := [];
      currentQuestionIndex := -1;
      currentScore := 0;
      gameState := GameState(false, None);
      countDownTimer := Stopped;
      choiceCountDown := 0;
      currentQuestion := None;
      addedScores := [];
      snackbar := None;
      new;
      match game {
        case Failure(message) =>
          snackbar := Some(message);
        case Success(loaded) =>
          questions := loaded;
          var ok := GoToNextQuestion(lastHigh);
          if !ok {
            snackbar := Some(DivisionByZeroMessage);
          }
      }
    }

    method GoToNextQuestion(lastHigh: Option<GameRecord>) returns (ok: bool)
      requires Valid()
      modifies this
      ensures Valid()
      ensures questions == old(questions) && snackbar == old(snackbar)
      ensures ok <==> |questions| > 0
      ensures ok ==> Snapshot() == Advance(old(Snapshot()), questions, gameUuid, lastHigh).value
      ensures !ok ==> Snapshot() == old(Snapshot()).(timer := Stopped)
    {
      if currentQuestionIndex + 1 >= |questions| {
        countDownTimer := Stopped;
        ok := FinishGame(lastHigh);
        return;
      }
      currentQuestionIndex := currentQuestionIndex + 1;
      var question := questions[currentQuestionIndex];
      currentQuestion := Some(question);
      if question.time.Some? {
        RestartTimer(question.time.value, AdvanceOnExpiry);
      }
      ok := true;
    }

    method RestartTimer(durationMillis: Int32, onFinish: TimerJob)
      modifies this
      ensures countDownTimer == Running(durationMillis, onFinish)
      ensures Snapshot() == old(Snapshot()).(timer := countDownTimer)
      ensures questions == old(questions) && snackbar == old(snackbar)
    {
      countDownTimer := Running(durationMillis, onFinish);
    }

    method FinishGame(lastHigh: Option<GameRecord>) returns (ok: bool)
      requires |questions| <= MaxInt
      modifies this
      ensures questions == old(questions) && snackbar == old(snackbar)
      ensures ok <==> |questions| > 0
      ensures ok ==> Snapshot() == Finish(old(Snapshot()), questions, gameUuid, lastHigh).value
      ensures !ok ==> Snapshot() == old(Snapshot())
    {
      var currentRecord := NewGameRecord(0, gameUuid, currentScore, |questions|);
      if currentRecord.Failure? {
        return false;
      }
      addedScores := addedScores + [currentRecord.value];
      gameState := GameState(true, NewHighScore(currentRecord.value, lastHigh));
      ok := true;
    }

    /** The player answered with `choice` (a question is on screen). */
    method OnChoiceDone(choice: Choice)
      requires Valid() && currentQuestion.Some?
      modifies this
      ensures Valid()
      ensures questions == old(questions) && snackbar == old(snackbar)
      ensures Snapshot() == ChoiceDone(old(Snapshot()), choice)
    {
      if choice.correct {
        currentScore := Inc(currentScore);
      }
      RestartTimer(AnswerPauseMillis, AdvanceAfterAnswer);
    }

    /** The running countdown reports `millisUntilFinished` left. */
    method Tick(millisUntilFinished: int)
      requires countDownTimer.Running? && 0 < countDownTimer.durationMillis
      requires 0 <= millisUntilFinished <= countDownTimer.durationMillis
      modifies this
      ensures countDownTimer == old(countDownTimer)
      ensures choiceCountDown == TickValue(millisUntilFinished, countDownTimer.durationMillis)
      ensures 0 <= choiceCountDown <= 1000
      ensures Snapshot() == old(Snapshot()).(countdown := choiceCountDown)
      ensures questions == old(questions) && snackbar == old(snackbar)
    {
      choiceCountDown := TickValue(millisUntilFinished, countDownTimer.durationMillis);
    }

    /** The countdown expires (nothing happens if it was cancelled). */
    method Timeout(lastHigh: Option<GameRecord>)
      requires Valid()
      modifies this
      ensures Valid()
      ensures questions == old(questions) && snackbar == old(snackbar)
      ensures Snapshot() == Expire(old(Snapshot()), questions, gameUuid, lastHigh).value
    {
      match countDownTimer {
        case Stopped =>
        case Running(_, job) =>
          countDownTimer := Stopped;
          if job == AdvanceOnExpiry {
            choiceCountDown := 0;
          }
          var ok := GoToNextQuestion(lastHigh);
      }
    }

    /** The screen showed the pending message. */
    method OnSnackbarShown()
      modifies this
      ensures snackbar == None
      ensures Snapshot() == old(Snapshot()) && questions == old(questions)
    {
      snackbar := None;
    }
  }
}
