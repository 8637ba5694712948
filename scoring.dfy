/**
 * The per-mode rules of App.tsx that are pure functions of the previous scores, the mode, the
 * active player and the question index: how one answer is scored (the updater passed to
 * setScores) and what the delayed step after an answer does (end the game, with which winner,
 * or move on to the next question).
 */
module Scoring {
  import opened QuizTypes

  /** SINGLE_PLAYER_TARGET_SCORE: the number of questions in a Single Player game. */
  const SinglePlayerTargetScore: nat := 10
  /** MULTIPLAYER_QUESTIONS_PER_PLAYER. */
  const MultiplayerQuestionsPerPlayer: nat := 5

  /** The active player of a Multiplayer game. */
  type Player = p: int | p == 1 || p == 2 witness 1

  /** ScoresState: p1 and p2 serve Multiplayer (and p1 the Practice count), the totals serve Single Player. */
  datatype Scores = Scores(p1: nat, p2: nat, totalCorrect: nat, totalIncorrect: nat)

  const InitialScores: Scores := Scores(0, 0, 0, 0)

  /** GameOverWinnerType without `undefined` (that is Option's None). */
  datatype Winner = PlayerWins(player: Player) | Draw

  /** No tally of `after` is below the same tally of `before`. */
  predicate NoTallyDecreases(before: Scores, after: Scores)
  {
    before.p1 <= after.p1 && before.p2 <= after.p2 &&
    before.totalCorrect <= after.totalCorrect && before.totalIncorrect <= after.totalIncorrect
  }

  function OtherPlayer(p: Player): (r: Player)
    ensures r != p
  {
    if p == 1 then 2 else 1
  }

  /** The number of questions after which a game of this mode is over; Practice has none. */
  function QuestionLimit(mode: GameMode): (n: nat)
    requires mode != Practice
    ensures n == 10
  {
    if mode == SinglePlayer then SinglePlayerTargetScore else MultiplayerQuestionsPerPlayer * 2
  }

  /** The scoring of one answer in handleAnswer, given the mode, the active player and whether the answer was right. */
  function ScoreAnswer(mode: GameMode, turn: Player, s: Scores, isCorrect: bool): (r: Scores)
    ensures NoTallyDecreases(s, r)
    ensures mode == SinglePlayer ==>
      r.p1 == s.p1 && r.p2 == s.p2 &&
      r.totalCorrect + r.totalIncorrect == s.totalCorrect + s.totalIncorrect + 1 &&
      (r.totalCorrect == s.totalCorrect + 1 <==> isCorrect)
    ensures mode != SinglePlayer ==> r.totalCorrect == s.totalCorrect && r.totalIncorrect == s.totalIncorrect
    ensures mode == Multiplayer ==>
      r.p1 + r.p2 == s.p1 + s.p2 + (if isCorrect then 1 else 0) &&
      (turn == 1 ==> r.p2 == s.p2) && (turn == 2 ==> r.p1 == s.p1)
    ensures mode == Practice ==> r.p2 == s.p2 && (r.p1 == s.p1 + 1 <==> isCorrect) && r.p1 <= s.p1 + 1
    ensures !isCorrect ==> r.p1 == s.p1 && r.p2 == s.p2 && r.totalCorrect == s.totalCorrect
  {
    match mode
    case SinglePlayer =>
      if isCorrect then s.(totalCorrect := s.totalCorrect + 1)
      else s.(totalIncorrect := s.totalIncorrect + 1)
    case Multiplayer =>
      if turn == 1 && isCorrect then s.(p1 := s.p1 + 1)
      else if turn == 2 && isCorrect then s.(p2 := s.p2 + 1)
      else s
    case Practice =>
      if isCorrect then s.(p1 := s.p1 + 1) else s
  }

  /** The Multiplayer result: the player with the strictly higher score, or a draw on equal scores. */
  function MultiplayerWinner(p1: nat, p2: nat): (w: Winner)
    ensures w == PlayerWins(1) <==> p1 > p2
    ensures w == PlayerWins(2) <==> p2 > p1
    ensures w == Draw <==> p1 == p2
  {
    if p1 > p2 then PlayerWins(1) else if p2 > p1 then PlayerWins(2) else Draw
  }

  /** The winner tag set when a game of this mode ends: none for Single Player. */
  function FinalWinner(mode: GameMode, s: Scores): Option<Winner>
  {
    if mode == Multiplayer then Some(MultiplayerWinner(s.p1, s.p2)) else None
  }

  /** What the delayed step after an answer does. */
  datatype AdvanceOutcome = NextQuestion(index: nat, turn: Player) | GameEnds(winner: Option<Winner>)

  /**
   * The body of the feedback timer in handleAnswer: with the index of the answered question,
   * the active player and the scores after the answer, either the game ends or play moves to
   * the next question (and, in Multiplayer, to the other player).
   */
  function AdvanceStep(mode: GameMode, index: nat, turn: Player, s: Scores): (r: AdvanceOutcome)
    ensures r.GameEnds? <==> mode != Practice && index + 1 >= QuestionLimit(mode)
    ensures r.NextQuestion? ==> r.index == index + 1
    ensures r.NextQuestion? ==> r.turn == (if mode == Multiplayer then OtherPlayer(turn) else turn)
    ensures r.GameEnds? && mode == SinglePlayer ==> r.winner.None?
    ensures r.GameEnds? && mode == Multiplayer ==> r.winner == Some(MultiplayerWinner(s.p1, s.p2))
  {
    var next := index + 1;
    match mode
    case SinglePlayer =>
      if next >= SinglePlayerTargetScore then GameEnds(None) else NextQuestion(next, turn)
    case Multiplayer =>
      if next >= MultiplayerQuestionsPerPlayer * 2 then GameEnds(Some(MultiplayerWinner(s.p1, s.p2)))
      else NextQuestion(next, OtherPlayer(turn))
    case Practice =>
      NextQuestion(next, turn)
  }

  /** The player who answers question `index`: players alternate in Multiplayer, starting with player 1. */
  function ExpectedTurn(mode: GameMode, index: nat): Player
  {
    if mode == Multiplayer && index % 2 == 1 then 2 else 1
  }

  /** Moving on to the next question hands the turn to the player expected for it. */
  lemma AdvanceKeepsTurnOrder(mode: GameMode, index: nat, s: Scores)
    requires AdvanceStep(mode, index, ExpectedTurn(mode, index), s).NextQuestion?
    ensures AdvanceStep(mode, index, ExpectedTurn(mode, index), s).turn == ExpectedTurn(mode, index + 1)
  {
  }

  /** The scores after a run of answers (true = correct) given from the start of a game, each by the player expected for it. */
  function Tally(mode: GameMode, answers: seq<bool>): Scores
  {
    if answers == [] then InitialScores
    else
      var n := |answers| - 1;
      ScoreAnswer(mode, ExpectedTurn(mode, n), Tally(mode, answers[..n]), answers[n])
  }

  /** Number of correct answers. */
  function CountCorrect(answers: seq<bool>): (n: nat)
    ensures n <= |answers|
  {
    if answers == [] then 0 else (if answers[0] then 1 else 0) + CountCorrect(answers[1..])
  }

  /** Number of correct answers at positions of the given parity (0: even positions, player 1; 1: odd positions, player 2). */
  function CountCorrectAt(answers: seq<bool>, parity: nat): nat
    requires parity < 2
  {
    if answers == [] then 0
    else
      var n := |answers| - 1;
      CountCorrectAt(answers[..n], parity) + (if answers[n] && n % 2 == parity then 1 else 0)
  }

  lemma {:induction false} CountCorrectSnoc(answers: seq<bool>, b: bool)
    ensures CountCorrect(answers + [b]) == CountCorrect(answers) + (if b then 1 else 0)
  {
    if answers != [] {
      assert (answers + [b])[1..] == answers[1..] + [b];
      CountCorrectSnoc(answers[1..], b);
    } else {
      assert answers + [b] == [b];
    }
  }

  /** Single Player: the totals count the correct and the incorrect answers, which together are all answers given; p1 and p2 stay 0. */
  lemma {:induction false} SinglePlayerTally(answers: seq<bool>)
    ensures Tally(SinglePlayer, answers) ==
            Scores(0, 0, CountCorrect(answers), |answers| - CountCorrect(answers))
  {
    if answers != [] {
      var n := |answers| - 1;
      SinglePlayerTally(answers[..n]);
      assert answers == answers[..n] + [answers[n]];
      CountCorrectSnoc(answers[..n], answers[n]);
    }
  }

  /** Practice: p1 counts the correct answers, nothing else moves. */
  lemma {:induction false} PracticeTally(answers: seq<bool>)
    ensures Tally(Practice, answers) == Scores(CountCorrect(answers), 0, 0, 0)
  {
    if answers != [] {
      var n := |answers| - 1;
      PracticeTally(answers[..n]);
      assert answers == answers[..n] + [answers[n]];
      CountCorrectSnoc(answers[..n], answers[n]);
    }
  }

  /** Multiplayer: each player's score counts the correct answers given on that player's turns. */
  lemma {:induction false} MultiplayerTally(answers: seq<bool>)
    ensures Tally(Multiplayer, answers) ==
            Scores(CountCorrectAt(answers, 0), CountCorrectAt(answers, 1), 0, 0)
  {
    if answers != [] {
      var n := |answers| - 1;
      MultiplayerTally(answers[..n]);
    }
  }

  /** At most ceil(n/2) correct answers fall on even positions and floor(n/2) on odd ones. */
  lemma {:induction false} CountCorrectAtBound(answers: seq<bool>)
    ensures CountCorrectAt(answers, 0) <= (|answers| + 1) / 2
    ensures CountCorrectAt(answers, 1) <= |answers| / 2
  {
    if answers != [] {
      CountCorrectAtBound(answers[..|answers| - 1]);
    }
  }

  /** Later scores never fall below earlier ones: a tally only grows as answers are added. */
  lemma {:induction false} TallyGrows(mode: GameMode, answers: seq<bool>, k: nat)
    requires k <= |answers|
    ensures NoTallyDecreases(Tally(mode, answers[..k]), Tally(mode, answers))
  {
    if k < |answers| {
      var n := |answers| - 1;
      assert answers[..n][..k] == answers[..k];
      TallyGrows(mode, answers[..n], k);
    } else {
      assert answers[..k] == answers;
    }
  }

  /** With every answer right, player 1 (even positions) has scored ceil(n/2) and player 2 floor(n/2). */
  lemma {:induction false} AllCorrectCounts(answers: seq<bool>)
    requires forall i :: 0 <= i < |answers| ==> answers[i]
    ensures CountCorrectAt(answers, 0) == (|answers| + 1) / 2
    ensures CountCorrectAt(answers, 1) == |answers| / 2
  {
    if answers != [] {
      AllCorrectCounts(answers[..|answers| - 1]);
    }
  }

  /** A full Multiplayer game of ten questions in which every answer is right ends in a draw, five points each. */
  lemma PerfectMultiplayerGameIsDraw(answers: seq<bool>)
    requires |answers| == QuestionLimit(Multiplayer)
    requires forall i :: 0 <= i < |answers| ==> answers[i]
    ensures Tally(Multiplayer, answers) == Scores(5, 5, 0, 0)
    ensures FinalWinner(Multiplayer, Tally(Multiplayer, answers)) == Some(Draw)
  {
    MultiplayerTally(answers);
    AllCorrectCounts(answers);
  }

  /** A Multiplayer game in which nobody answers right ends in a draw at 0-0. */
  lemma {:induction false} NoCorrectAnswerIsDraw(answers: seq<bool>)
    requires forall i :: 0 <= i < |answers| ==> !answers[i]
    ensures Tally(Multiplayer, answers) == InitialScores
    ensures FinalWinner(Multiplayer, Tally(Multiplayer, answers)) == Some(Draw)
  {
    if answers != [] {
      NoCorrectAnswerIsDraw(answers[..|answers| - 1]);
    }
  }
}
