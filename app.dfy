/**
 * The session state machine of App.tsx: the React state hooks become the fields of
 * SessionController, and each callback, effect and timer body becomes a method that
 * changes those fields as the callback's state setters do.
 *
 * Asynchrony is made explicit. Starting a fetch (loadNextQuestion up to its `await`) is
 * LoadNextQuestion, which hands back the request the environment must serve; the settled
 * promise is delivered later through FetchCompleted. The feedback timer that handleAnswer
 * arms is the `pending` field, and its firing is Advance.
 */
module App {
  import opened QuizTypes
  import opened Scoring
  import GeminiService

  /** The arguments of the fetchQuizQuestion call a fetch makes. */
  datatype FetchRequest = FetchRequest(category: Category, difficulty: Difficulty, previousQuestions: seq<string>)

  /** Whether an error message counts as set in a JavaScript condition: a null or empty message does not. */
  predicate ErrorIsSet(error: Option<string>)
  {
    error.Some? && error.value != ""
  }

  /** The values the feedback timer's closure captured when it was armed. */
  datatype PendingAdvance = PendingAdvance(mode: GameMode, index: nat, scores: Scores)

  /**
   * The invariant of a game in progress, over the values of the session's fields: the scores
   * are the tally of the answers given, one answer per index (plus the one shown), the turn
   * alternates with the index, the game ends exactly at its question limit with the winner its
   * final scores decide, and an armed timer captured the current index and scores.
   */
  ghost predicate ProgressInvariant(gameState: GameState, gameSettings: Option<GameSettings>, scores: Scores,
                                    answers: seq<bool>, questionIndex: nat, isAnswerRevealed: bool,
                                    currentPlayerTurn: Player, pending: Option<PendingAdvance>, winner: Option<Winner>)
  {
    (gameState != GameOver ==> winner.None?) &&
    (gameSettings.Some? ==>
      var mode := gameSettings.value.mode;
      scores == Tally(mode, answers) &&
      |answers| == questionIndex + (if isAnswerRevealed then 1 else 0) &&
      currentPlayerTurn == ExpectedTurn(mode, questionIndex) &&
      (mode != Practice ==> questionIndex < QuestionLimit(mode)) &&
      (gameState == GameOver ==>
         mode != Practice && isAnswerRevealed && pending.None? &&
         questionIndex + 1 == QuestionLimit(mode) && winner == FinalWinner(mode, scores)) &&
      (gameState == InGame && isAnswerRevealed ==> pending.Some?) &&
      (pending.Some? ==>
         gameState == InGame && isAnswerRevealed && pending.value == PendingAdvance(mode, questionIndex, scores)))
  }

  class SessionController {
    var gameState: GameState
    var gameSettings: Option<GameSettings>
    var currentQuestion: Option<QuizQuestion>
    var questionsAsked: seq<string>
    var scores: Scores
    var currentPlayerTurn: Player
    var questionIndex: nat
    var isLoading: bool
    var error: Option<string>
    var isAnswerRevealed: bool
    var selectedAnswer: Option<string>
    var winner: Option<Winner>
    /** The armed feedback timer, if any. */
    var pending: Option<PendingAdvance>

    /** Whether each answer given in this game was correct, in order. */
    ghost var answers: seq<bool>
    /** Fetches started and not yet settled. */
    ghost var inFlight: nat

    /** The fields as a newly started or reset game leaves them, apart from the screen and the settings. */
    ghost predicate Fresh()
      reads this
    {
      currentQuestion.None? && questionsAsked == [] && scores == InitialScores &&
      currentPlayerTurn == 1 && questionIndex == 0 && !isLoading && error.None? &&
      !isAnswerRevealed && selectedAnswer.None? && winner.None? && pending.None? &&
      answers == [] && inFlight == 0
    }

    ghost predicate Valid()
      reads this
    {
      // the start screen is exactly the state without settings, and everything is fresh there
      (gameState == StartScreen <==> gameSettings.None?) &&
      (gameState == StartScreen ==> Fresh()) &&
      // an answer is shown exactly when one was selected
      (selectedAnswer.Some? <==> isAnswerRevealed) &&
      // no question has been shown yet: nothing was asked or answered
      (currentQuestion.None? ==> questionsAsked == [] && questionIndex == 0 && !isAnswerRevealed && answers == []) &&
      // before the first question at most the one fetch the effect started is outstanding
      (currentQuestion.None? ==> inFlight == (if isLoading then 1 else 0)) &&
      (currentQuestion.Some? ==> WellFormedQuestion(currentQuestion.value)) &&
      // one question is asked per index: the current one may still be on its way
      |questionsAsked| + inFlight <= questionIndex + 1 &&
      ProgressInvariant(gameState, gameSettings, scores, answers, questionIndex, isAnswerRevealed,
                        currentPlayerTurn, pending, winner)
    }

    /** The initial values of App's state hooks. */
    constructor()
      ensures Valid() && gameState == StartScreen && gameSettings.None? && Fresh()
    {
      gameState := StartScreen;
      gameSettings := None;
      currentQuestion := None;
      questionsAsked := [];
      scores := InitialScores;
      currentPlayerTurn := 1;
      questionIndex := 0;
      isLoading := false;
      error := None;
      isAnswerRevealed := false;
      selectedAnswer := None;
      winner := None;
      pending := None;
      answers := [];
      inFlight := 0;
    }

    /** The progress of a game as both resetGameState and handleStartGame leave it: no question, nothing asked or answered, initial scores, player 1 at index 0. */
    method ClearProgress()
      modifies this`currentQuestion, this`questionsAsked, this`scores, this`currentPlayerTurn, this`questionIndex, this`answers
      ensures currentQuestion.None? && questionsAsked == [] && scores == InitialScores
      ensures currentPlayerTurn == 1 && questionIndex == 0 && answers == []
    {
      currentQuestion := None;
      questionsAsked := [];
      scores := InitialScores;
      currentPlayerTurn := 1;
      questionIndex := 0;
      answers := [];
    }

    /** The round as both resetGameState and handleStartGame leave it: not loading, no error, no answer shown, no winner; the timer and outstanding fetches are dropped. */
    method ClearRound()
      modifies this`isLoading, this`error, this`isAnswerRevealed, this`selectedAnswer, this`winner, this`pending, this`inFlight
      ensures !isLoading && error.None? && !isAnswerRevealed && selectedAnswer.None?
      ensures winner.None? && pending.None? && inFlight == 0
    {
      isLoading := false;
      error := None;
      isAnswerRevealed := false;
      selectedAnswer := None;
      winner := None;
      pending := None;
      inFlight := 0;
    }

    /** resetGameState: back to the start screen with every field at its initial value. */
    method ResetGameState()
      modifies this
      ensures Valid() && gameState == StartScreen && gameSettings.None? && Fresh()
    {
      ClearProgress();
      ClearRound();
      gameSettings := None;
      gameState := StartScreen;
    }

    /** handleStartGame: a new game with the chosen settings, on the game screen, with every other field fresh. */
    method HandleStartGame(settings: GameSettings)
      modifies this
      ensures Valid() && gameState == InGame && gameSettings == Some(settings) && Fresh()
      ensures ShouldFetch()
    {
      ClearProgress();
      ClearRound();
      gameSettings := Some(settings);
      gameState := InGame;
    }

    /** The guard of the effect that fetches the first question; an empty error message does not block it. */
    predicate ShouldFetch()
      reads this
    {
      gameState == InGame && gameSettings.Some? && currentQuestion.None? && !isLoading && !ErrorIsSet(error)
    }

    /**
     * loadNextQuestion up to its `await`: without settings nothing happens; otherwise the
     * loading flag is raised, the error and the revealed answer are cleared, and a fetch for
     * the game's category and difficulty, listing the questions asked so far, is started.
     */
    method LoadNextQuestion() returns (request: Option<FetchRequest>)
      modifies this`isLoading, this`error, this`isAnswerRevealed, this`selectedAnswer, this`inFlight
      ensures old(gameSettings).None? ==>
        request.None? && isLoading == old(isLoading) && error == old(error) &&
        isAnswerRevealed == old(isAnswerRevealed) && selectedAnswer == old(selectedAnswer) &&
        inFlight == old(inFlight)
      ensures old(gameSettings).Some? ==>
        request == Some(FetchRequest(gameSettings.value.category, gameSettings.value.difficulty, questionsAsked)) &&
        isLoading && error.None? && !isAnswerRevealed && selectedAnswer.None? &&
        inFlight == old(inFlight) + 1
    {
      if gameSettings.None? {
        return None;
      }
      isLoading := true;
      error := None;
      isAnswerRevealed := false;
      selectedAnswer := None;
      inFlight := inFlight + 1;
      request := Some(FetchRequest(gameSettings.value.category, gameSettings.value.difficulty, questionsAsked));
    }

    /** The fetch effect: it starts a fetch exactly when its guard holds, for the game's first question. */
    method RunFetchEffect() returns (request: Option<FetchRequest>)
      requires Valid()
      modifies this`isLoading, this`error, this`isAnswerRevealed, this`selectedAnswer, this`inFlight
      ensures Valid()
      ensures request.Some? <==> old(ShouldFetch())
      ensures !old(ShouldFetch()) ==> unchanged(this)
      ensures request.Some? ==>
        request.value.previousQuestions == [] && gameSettings.Some? &&
        request.value.category == gameSettings.value.category &&
        request.value.difficulty == gameSettings.value.difficulty &&
        isLoading && error.None? && !isAnswerRevealed && selectedAnswer.None? && inFlight == 1
    {
      if ShouldFetch() {
        request := LoadNextQuestion();
      } else {
        request := None;
      }
    }

    /**
     * The settling of a fetch (the rest of loadNextQuestion): a question becomes the current
     * question and is appended to the questions asked; a rejection's message becomes the error.
     * Either way loading ends.
     */
    method FetchCompleted(result: GeminiService.FetchResult)
      requires Valid() && inFlight > 0
      requires result.Resolved? ==> WellFormedQuestion(result.question)
      modifies this`isLoading, this`inFlight, this`currentQuestion, this`questionsAsked, this`error
      ensures Valid()
      ensures !isLoading && inFlight == old(inFlight) - 1
      ensures result.Resolved? ==>
        currentQuestion == Some(result.question) &&
        questionsAsked == old(questionsAsked) + [result.question.question] &&
        error == old(error)
      ensures result.Rejected? ==>
        error == Some(result.message) &&
        currentQuestion == old(currentQuestion) && questionsAsked == old(questionsAsked)
      ensures result.Rejected? && old(currentQuestion).None? ==> (ShouldFetch() <==> result.message == "")
    {
      isLoading := false;
      inFlight := inFlight - 1;
      match result
      case Resolved(q) =>
        currentQuestion := Some(q);
        questionsAsked := questionsAsked + [q.question];
      case Rejected(message) =>
        error := Some(message);
    }

    /**
     * handleAnswer: ignored without a question, after an answer was revealed, or without
     * settings; otherwise the answer is selected and revealed, scored for the active player,
     * and the feedback timer is armed with the index and the new scores.
     */
    method HandleAnswer(answer: string)
      requires Valid()
      modifies this`selectedAnswer, this`isAnswerRevealed, this`scores, this`answers, this`pending
      ensures Valid()
      ensures old(currentQuestion).None? || old(isAnswerRevealed) || old(gameSettings).None? ==> unchanged(this)
      ensures old(currentQuestion).Some? && !old(isAnswerRevealed) && old(gameSettings).Some? ==>
        var isCorrect := answer == old(currentQuestion).value.correctAnswer;
        var mode := old(gameSettings).value.mode;
        selectedAnswer == Some(answer) && isAnswerRevealed &&
        scores == ScoreAnswer(mode, old(currentPlayerTurn), old(scores), isCorrect) &&
        answers == old(answers) + [isCorrect] &&
        pending == Some(PendingAdvance(mode, questionIndex, scores))
    {
      if currentQuestion.None? || isAnswerRevealed || gameSettings.None? {
        return;
      }
      var mode := gameSettings.value.mode;
      var isCorrect := answer == currentQuestion.value.correctAnswer;
      selectedAnswer := Some(answer);
      isAnswerRevealed := true;
      assert answers + [isCorrect] != [] && (answers + [isCorrect])[..|answers|] == answers;
      scores := ScoreAnswer(mode, currentPlayerTurn, scores, isCorrect);
      answers := answers + [isCorrect];
      pending := Some(PendingAdvance(mode, questionIndex, scores));
    }

    /** The step the armed feedback timer takes when it fires. */
    function PendingStep(): AdvanceOutcome
      reads this
      requires pending.Some?
    {
      AdvanceStep(pending.value.mode, pending.value.index, currentPlayerTurn, pending.value.scores)
    }

    /**
     * The feedback timer fires: with nothing armed nothing happens; otherwise the game either
     * ends (Single Player and Multiplayer after their last question, with the Multiplayer
     * winner) or moves to the next index, hands the turn over in Multiplayer and starts the
     * next fetch.
     */
    method Advance() returns (request: Option<FetchRequest>)
      requires Valid()
      modifies this`pending, this`winner, this`gameState, this`currentPlayerTurn, this`questionIndex
      modifies this`isLoading, this`error, this`isAnswerRevealed, this`selectedAnswer, this`inFlight
      ensures Valid()
      ensures old(pending).None? ==> request.None? && unchanged(this)
      ensures old(pending).Some? ==> pending.None?
      ensures old(pending).Some? && old(PendingStep()).GameEnds? ==>
        request.None? && gameState == GameOver && winner == old(PendingStep()).winner &&
        questionIndex == old(questionIndex) && currentPlayerTurn == old(currentPlayerTurn) &&
        isAnswerRevealed && selectedAnswer == old(selectedAnswer) &&
        isLoading == old(isLoading) && error == old(error) && inFlight == old(inFlight)
      ensures old(pending).Some? && old(PendingStep()).NextQuestion? ==>
        gameState == InGame && questionIndex == old(PendingStep()).index &&
        currentPlayerTurn == old(PendingStep()).turn &&
        request == Some(FetchRequest(gameSettings.value.category, gameSettings.value.difficulty, questionsAsked)) &&
        isLoading && error.None? && !isAnswerRevealed && selectedAnswer.None? &&
        inFlight == old(inFlight) + 1
    {
      if pending.None? {
        return None;
      }
      if PendingStep().GameEnds? {
        EndGame();
        request := None;
      } else {
        request := MoveToNextQuestion();
      }
    }

    /** The timer's step when the game is over: the winner is recorded and the game-over screen shown. */
    method EndGame()
      requires Valid() && pending.Some? && PendingStep().GameEnds?
      modifies this`pending, this`winner, this`gameState
      ensures Valid()
      ensures pending.None? && gameState == GameOver && winner == old(PendingStep()).winner
    {
      winner := PendingStep().winner;
      pending := None;
      gameState := GameOver;
    }

    /** The timer's step when play goes on: the next index, the next player, and the fetch of the next question. */
    method MoveToNextQuestion() returns (request: Option<FetchRequest>)
      requires Valid() && pending.Some? && PendingStep().NextQuestion?
      modifies this`pending, this`currentPlayerTurn, this`questionIndex
      modifies this`isLoading, this`error, this`isAnswerRevealed, this`selectedAnswer, this`inFlight
      ensures Valid()
      ensures pending.None? && gameState == InGame
      ensures questionIndex == old(PendingStep()).index && currentPlayerTurn == old(PendingStep()).turn
      ensures request == Some(FetchRequest(gameSettings.value.category, gameSettings.value.difficulty, questionsAsked))
      ensures isLoading && error.None? && !isAnswerRevealed && selectedAnswer.None? && inFlight == old(inFlight) + 1
    {
      var step := PendingStep();
      pending := None;
      currentPlayerTurn := step.turn;
      questionIndex := step.index;
      request := LoadNextQuestion();
    }

    /** At the end of a Single Player game the ten answers split into the correct and the incorrect count. */
    lemma SinglePlayerGameOver()
      requires Valid() && gameState == GameOver && gameSettings.Some? && gameSettings.value.mode == SinglePlayer
      ensures scores.totalCorrect + scores.totalIncorrect == SinglePlayerTargetScore
      ensures scores.totalCorrect == CountCorrect(answers) && scores.p1 == 0 && scores.p2 == 0
      ensures winner.None?
    {
      SinglePlayerTally(answers);
    }

    /** At the end of a Multiplayer game each player has answered five questions and the winner is decided by their scores. */
    lemma MultiplayerGameOver()
      requires Valid() && gameState == GameOver && gameSettings.Some? && gameSettings.value.mode == Multiplayer
      ensures |answers| == 2 * MultiplayerQuestionsPerPlayer
      ensures scores.p1 == CountCorrectAt(answers, 0) && scores.p2 == CountCorrectAt(answers, 1)
      ensures scores.p1 <= MultiplayerQuestionsPerPlayer && scores.p2 <= MultiplayerQuestionsPerPlayer
      ensures winner == Some(MultiplayerWinner(scores.p1, scores.p2))
    {
      MultiplayerTally(answers);
      CountCorrectAtBound(answers);
    }
  }
}
