/** One evaluation step of the background engine for one game
    (SharpJackApi/Services/GameService.cs:207-258, the body of the loop
    over games): close the question and score it, then hand the turn to the
    next player, count rounds and complete the game. */
module Evaluation {
  import opened Outcomes
  import opened Models
  import Contracts
  import opened Scoring

  /** The engine evaluates an active game once its deadline is reached. */
  predicate Due(g: Game, now: int) {
    g.state == Contracts.Active && now >= g.activeUntil
  }

  /** Some participant other than the asker has a row but gave no answer. */
  ghost predicate SomeoneSilent(g: Game) {
    exists i :: 0 <= i < |g.board.rows| && g.board.rows[i].playerId != g.activePlayer
                && !Answered(g.answers, g.board.rows[i].playerId)
  }

  /** The score of a player's best-ranked answer, the one `First` picks;
      nothing for a player who did not answer. */
  function Gain(scored: seq<Answer>, playerId: int): int {
    match FirstBy(scored, playerId)
    case None => 0
    case Some(k) => scored[k].score
  }

  /** Scores the open question, if any, then drops the answers and the
      question. Each leaderboard row except the asker's gains the score of
      that player's best-ranked answer: with n answers, the k-th closest
      (1-based, ties in submission order) scores n - k + 1 plus the whole
      seconds it was submitted before the deadline. The asker gains nothing.
      When a non-asking participant gave no answer the update fails. */
  function CloseQuestion(g: Game): (r: Result<Game>)
    ensures g.activeQuestion.None? ==> r == Success(g)
    ensures g.activeQuestion.Some? ==> (r.Failure? <==> SomeoneSilent(g))
    ensures r.Failure? ==> r.error == NoAnswer
    ensures r.Success? && g.activeQuestion.Some? ==>
              var scored := ScoreAnswers(g.answers, g.activeQuestion.value.answer, g.activeUntil);
              var rows, rows' := g.board.rows, r.value.board.rows;
              && r.value == g.(board := r.value.board, answers := [], activeQuestion := None)
              && |rows'| == |rows|
              && forall i :: 0 <= i < |rows| ==>
                   && rows'[i].playerId == rows[i].playerId
                   && (rows[i].playerId == g.activePlayer ==> rows'[i] == rows[i])
                   && (rows[i].playerId != g.activePlayer ==>
                         rows'[i].playerScore == rows[i].playerScore + Gain(scored, rows[i].playerId))
  {
    match g.activeQuestion
    case None => Success(g)
    case Some(q) =>
      var scored := ScoreAnswers(g.answers, q.answer, g.activeUntil);
      forall pid ensures Answered(scored, pid) <==> Answered(g.answers, pid) {
        AnsweredAfterScoring(g.answers, q.answer, g.activeUntil, pid);
      }
      var rows :- UpdateRows(g.board.rows, scored, g.activePlayer);
      Success(g.(board := LeaderBoard(rows), answers := [], activeQuestion := None))
  }

  /** Hands the turn on and opens a fresh asking window. The next player is
      found by using the active player's ID as an index into the
      participants, so it follows join order only when ids equal join
      positions (see `RotationFollowsJoinOrder`). The round counter goes up
      exactly when the turn lands on the first participant, and the game
      completes exactly when the counter equals the configured number of
      rounds. With no participants the modulo divides by zero. */
  function AdvanceTurn(g: Game, now: int): (r: Result<Game>)
    ensures r.Failure? <==> |g.players| == 0
    ensures r.Failure? ==> r.error == NoParticipants
    ensures r.Success? ==>
              && r.value.activePlayer in g.players
              && r.value.activePlayer == g.players[(g.activePlayer + 1) % |g.players|]
              && r.value.activeUntil == now + g.options.maxQuestionTime
              && r.value.currentRound
                   == (if r.value.activePlayer == g.players[0] then g.currentRound + 1 else g.currentRound)
              && (r.value.currentRound == g.options.maxRounds ==> r.value.state == Contracts.Completed)
              && (r.value.currentRound != g.options.maxRounds ==> r.value.state == g.state)
              && r.value == g.(activePlayer := r.value.activePlayer, activeUntil := r.value.activeUntil,
                               currentRound := r.value.currentRound, state := r.value.state)
  {
    if |g.players| == 0 then Failure(NoParticipants)
    else
      var next := g.players[(g.activePlayer + 1) % |g.players|];
      var round := if next == g.players[0] then g.currentRound + 1 else g.currentRound;
      Success(g.(activePlayer := next,
                 activeUntil := now + g.options.maxQuestionTime,
                 currentRound := round,
                 state := if round == g.options.maxRounds then Contracts.Completed else g.state))
  }

  /** One pass of the engine over one game. A game that is not due is left
      exactly as it is; a due game has its question scored and closed and
      its turn handed on, and ends with no question and no answers, an
      active player drawn from its participants, and a state that is still
      active or has become completed. */
  function Evaluate(g: Game, now: int): (r: Result<Game>)
    ensures !Due(g, now) ==> r == Success(g)
    ensures Due(g, now) ==>
              (r.Failure? <==> |g.players| == 0 || (g.activeQuestion.Some? && SomeoneSilent(g)))
    ensures Due(g, now) && r.Success? ==>
              && r.value.activeQuestion.None?
              && r.value.answers == (if g.activeQuestion.Some? then [] else g.answers)
              && r.value.activePlayer in g.players
              && r.value.activeUntil == now + g.options.maxQuestionTime
              && r.value.state in {Contracts.Active, Contracts.Completed}
              && (r.value.state == Contracts.Completed <==> r.value.currentRound == g.options.maxRounds)
              && r.value.id == g.id && r.value.options == g.options && r.value.players == g.players
              && |r.value.board.rows| == |g.board.rows|
    ensures Due(g, now) && r.Success? && g.activeQuestion.None? ==> r.value.board == g.board
  {
    if !Due(g, now) then Success(g)
    else
      var closed :- CloseQuestion(g);
      AdvanceTurn(closed, now)
  }

  // ------------------------------------------------------------- rotation

  /** Participants whose ids are their join positions, as when every
      registered player joined the one game in registration order. */
  ghost predicate IdsAreJoinPositions(g: Game) {
    forall i :: 0 <= i < |g.players| ==> g.players[i] == i
  }

  /** When ids are join positions, the turn passes to the next participant
      in join order, wrapping around after the last one. */
  lemma RotationFollowsJoinOrder(g: Game, now: int, k: nat)
    requires IdsAreJoinPositions(g)
    requires k < |g.players| && g.activePlayer == g.players[k]
    ensures AdvanceTurn(g, now).Success?
    ensures AdvanceTurn(g, now).value.activePlayer == g.players[(k + 1) % |g.players|]
  {
  }

  /** When ids are not join positions the rotation can get stuck: with
      participants 0 and 2 (player 1 registered but playing elsewhere),
      participant 2 keeps the turn forever, participant 0 never asks again
      and the round counter never moves. */
  lemma RotationStallsWhenIdsDiffer(g: Game, now: int)
    requires g.players == [0, 2] && g.activePlayer == 2
    ensures AdvanceTurn(g, now).Success?
    ensures AdvanceTurn(g, now).value.activePlayer == 2
    ensures AdvanceTurn(g, now).value.currentRound == g.currentRound
  {
  }

  /** The game after `k` turn changes at instant `now`. */
  ghost function Turns(g: Game, now: int, k: nat): (r: Game)
    requires |g.players| > 0
    ensures r.players == g.players && r.options == g.options
  {
    if k == 0 then g else AdvanceTurn(Turns(g, now, k - 1), now).value
  }

  /** One turn change within the first round of a one-round game. */
  lemma OneRoundStep(h: Game, now: int, k: nat)
    requires 0 < k <= |h.players| && IdsAreJoinPositions(h)
    requires h.state == Contracts.Active && h.activePlayer == k - 1 && h.currentRound == 0
    requires h.options.maxRounds == 1
    ensures var h' := AdvanceTurn(h, now);
            && h'.Success?
            && (k < |h.players| ==> h'.value.state == Contracts.Active && h'.value.activePlayer == k && h'.value.currentRound == 0)
            && (k == |h.players| ==> h'.value.state == Contracts.Completed && h'.value.activePlayer == 0 && h'.value.currentRound == 1)
  {
    var n := |h.players|;
    if k < n {
      assert (h.activePlayer + 1) % n == k;
      assert h.players[k] == k && h.players[0] == 0;
    } else {
      assert (h.activePlayer + 1) % n == 0;
      assert h.players[0] == 0;
    }
  }

  /** A one-round game whose ids are join positions, started with the
      creator (participant 0) to ask: after k < n turn changes participant k
      asks in the same round and the game is still active; after exactly n
      changes every participant has had the turn once and the game is
      completed. */
  lemma {:induction false} OneRoundEndsAfterEveryoneAsked(g: Game, now: int, k: nat)
    requires 0 < |g.players| && IdsAreJoinPositions(g)
    requires g.state == Contracts.Active && g.activePlayer == 0 && g.currentRound == 0
    requires g.options.maxRounds == 1
    requires k <= |g.players|
    ensures k < |g.players| ==>
              && Turns(g, now, k).state == Contracts.Active
              && Turns(g, now, k).activePlayer == k
              && Turns(g, now, k).currentRound == 0
    ensures k == |g.players| ==>
              && Turns(g, now, k).state == Contracts.Completed
              && Turns(g, now, k).activePlayer == 0
              && Turns(g, now, k).currentRound == 1
  {
    if k > 0 {
      OneRoundEndsAfterEveryoneAsked(g, now, k - 1);
      OneRoundStep(Turns(g, now, k - 1), now, k);
    }
  }
}
