/** The engine's internal records. A game refers to its participants by
    player id, and the service assigns ids in registration order, so an id is
    never negative. Instants are whole seconds; the default instant is 0. */
module Models {
  import opened Outcomes
  import Contracts

  datatype Player = Player(id: nat, name: string)

  /** An answer as submitted; `submitTime` is stamped by the engine and
      `score` is assigned during evaluation. */
  datatype Answer = Answer(
    questionId: int,
    playerId: int,
    value: int,
    submitTime: int,
    score: int)

  datatype Question = Question(id: int, title: string, answer: int, playerId: int)

  datatype Row = Row(playerScore: int, playerId: nat)

  datatype LeaderBoard = LeaderBoard(rows: seq<Row>)

  /** The game aggregate. `players` lists participant ids in join order. */
  datatype Game = Game(
    id: nat,
    options: Contracts.GameOptions,
    state: Contracts.GameState,
    activePlayer: nat,
    activeUntil: int,
    players: seq<nat>,
    board: LeaderBoard,
    activeQuestion: Option<Question>,
    answers: seq<Answer>,
    currentRound: int)

  /** A sequence without repeated elements. */
  ghost predicate Distinct<T>(s: seq<T>) {
    forall i, j :: 0 <= i < j < |s| ==> s[i] != s[j]
  }
}
