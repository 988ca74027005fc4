/** Failure-carrying results for the game engine.

    Every exception the service throws becomes a `Failure` carrying one of
    the `Error` values below, so that each operation is a total function. */
module Outcomes {

  /** The service's failure conditions. The first ten carry the message of an
      `InvalidOperationException`/`KeyNotFoundException` thrown by the service;
      the last three stand for runtime faults (an index out of range on the
      game list is `GameNotFound`). */
  datatype Error =
    | PlayerNotFound     // "Player not found", or players[id] out of range
    | GameNotFound       // games[id] out of range
    | GameOver           // "Game over"
    | GameFull           // "Game full"
    | TooFewPlayers      // "Too few players"
    | NotYourGame        // "Not your game"
    | NotActiveGame      // "Not an active game"
    | NotYourTurn        // "Not your turn"
    | TooLate            // "Too late"
    | NoActiveQuestion   // "No active question"
    | NullReference      // dereferencing a missing active question
    | NoAnswer           // First(...) found no answer for a leaderboard row
    | NoParticipants     // rotation modulo an empty participant list

  datatype Option<+T> = None | Some(value: T) {

    /** A missing value as the given failure. */
    function ToResult(e: Error): (r: Result<T>)
      ensures r.Failure? <==> None?
      ensures r.Failure? ==> r.error == e
      ensures r.Success? ==> r.value == value
    {
      match this
      case None => Failure(e)
      case Some(v) => Success(v)
    }
  }

  datatype Result<+T> = Success(value: T) | Failure(error: Error) {

    predicate IsFailure() {
      Failure?
    }

    function PropagateFailure<U>(): Result<U>
      requires Failure?
    {
      Failure(error)
    }

    function Extract(): T
      requires Success?
    {
      value
    }
  }
}
