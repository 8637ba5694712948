/** Shared vocabulary of the quiz game: the enums and records of types.ts. */
module QuizTypes {

  datatype Option<T> = None | Some(value: T)

  /** GameMode in types.ts. */
  datatype GameMode = SinglePlayer | Multiplayer | Practice

  /** Category in types.ts. */
  datatype Category = Science | GeneralKnowledge | Mathematics | History | English | Random

  /** Difficulty in types.ts. */
  datatype Difficulty = Easy | Medium | Hard

  /** GameState in types.ts: which screen the application shows. */
  datatype GameState = StartScreen | InGame | GameOver

  /** GameSettings in types.ts, chosen on the start screen. */
  datatype GameSettings = GameSettings(mode: GameMode, category: Category, difficulty: Difficulty)

  /** QuizQuestion in types.ts. */
  datatype QuizQuestion = QuizQuestion(
    question: string,
    options: seq<string>,
    correctAnswer: string,
    category: Category,
    difficulty: Difficulty)

  /** The shape every question handed to the game must have: four options, one of which is the answer. */
  predicate WellFormedQuestion(q: QuizQuestion)
  {
    |q.options| == 4 && q.correctAnswer in q.options
  }
}
