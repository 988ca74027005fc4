/** The contract shapes exchanged between the API and its clients. */
module Contracts {

  /** The lifecycle of a game; it only ever moves forward. */
  datatype GameState = Created | Active | Completed

  /** Options fixed when a game is created. Times are whole seconds.
      `maxActiveTime` is carried but never read by the engine. */
  datatype GameOptions = GameOptions(
    playerId: int,
    maxPlayers: int,
    maxQuestionTime: int,
    maxAnswerTime: int,
    maxRounds: int,
    maxActiveTime: int)

  datatype Answer = Answer(playerId: int, value: int)

  datatype Question = Question(title: string, answer: int, playerId: int)

  datatype Player = Player(id: int, name: string)

  /** The public view of a game: no question, answers, participants or board. */
  datatype Game = Game(
    id: int,
    options: GameOptions,
    state: GameState,
    activePlayer: int,
    activeUntil: int)

  datatype Row = Row(playerName: string, playerScore: int)

  datatype LeaderBoard = LeaderBoard(rows: seq<Row>)
}
