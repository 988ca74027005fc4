/** Field mappings between the engine's records and the contract shapes
    (SharpJackApi/Utilities/ConverterExtensions.cs). */
module Converters {
  import opened Outcomes
  import Contracts
  import Models

  /** A model answer as sent to a client: only the player and the value. */
  function AnswerToContract(a: Models.Answer): (c: Contracts.Answer)
    ensures c.playerId == a.playerId && c.value == a.value
  {
    Contracts.Answer(a.playerId, a.value)
  }

  /** A client's answer as a fresh model record: the question, the submit
      time and the score keep their defaults. */
  function AnswerToModel(c: Contracts.Answer): (a: Models.Answer)
    ensures AnswerToContract(a) == c
    ensures a.questionId == 0 && a.submitTime == 0 && a.score == 0
  {
    Models.Answer(0, c.playerId, c.value, 0, 0)
  }

  /** Going through the contract loses exactly the fields a contract answer
      does not carry: a model answer survives the round trip if and only if
      those fields already hold their defaults. */
  lemma AnswerModelRoundTrip(a: Models.Answer)
    ensures AnswerToModel(AnswerToContract(a)) == a
        <==> a.questionId == 0 && a.submitTime == 0 && a.score == 0
  {
  }

  function QuestionToContract(q: Models.Question): (c: Contracts.Question)
    ensures c.title == q.title && c.answer == q.answer && c.playerId == q.playerId
  {
    Contracts.Question(q.title, q.answer, q.playerId)
  }

  /** A client's question as a model record with the default id. */
  function QuestionToModel(c: Contracts.Question): (q: Models.Question)
    ensures QuestionToContract(q) == c
    ensures q.id == 0
  {
    Models.Question(0, c.title, c.answer, c.playerId)
  }

  function PlayerToContract(p: Models.Player): (c: Contracts.Player)
    ensures c.id == p.id && c.name == p.name
  {
    Contracts.Player(p.id, p.name)
  }

  /** Distinct players stay distinct once converted. */
  lemma PlayerToContractInjective(p: Models.Player, q: Models.Player)
    ensures PlayerToContract(p) == PlayerToContract(q) <==> p == q
  {
  }

  /** The public view of a game copies the id, the options, the state, the
      active player and the deadline, and nothing else. */
  function GameToContract(g: Models.Game): (c: Contracts.Game)
    ensures c.id == g.id && c.options == g.options && c.state == g.state
    ensures c.activePlayer == g.activePlayer && c.activeUntil == g.activeUntil
  {
    Contracts.Game(g.id, g.options, g.state, g.activePlayer, g.activeUntil)
  }

  /** Two games look the same to a client exactly when they agree on the five
      copied fields: the question, the answers, the participants, the board
      and the round counter are never exposed. */
  lemma GameToContractHidesInternals(g: Models.Game, h: Models.Game)
    ensures GameToContract(g) == GameToContract(h)
        <==> ((g.id, g.options, g.state, g.activePlayer, g.activeUntil)
              == (h.id, h.options, h.state, h.activePlayer, h.activeUntil))
  {
  }

  /** The first registered player with the given id, as `FirstOrDefault`
      finds it. */
  function FindPlayer(players: seq<Models.Player>, id: int): (r: Option<Models.Player>)
    ensures r.None? <==> forall i :: 0 <= i < |players| ==> players[i].id != id
    ensures r.Some? ==> exists i :: 0 <= i < |players| && players[i] == r.value
                                    && forall j :: 0 <= j < i ==> players[j].id != id
    ensures r.Some? ==> r.value.id == id
  {
    if |players| == 0 then None
    else if players[0].id == id then Some(players[0])
    else
      var r := FindPlayer(players[1..], id);
      if r.Some? then
        var i :| 0 <= i < |players[1..]| && players[1..][i] == r.value
                  && forall j :: 0 <= j < i ==> players[1..][j].id != id;
        assert players[i + 1] == r.value;
        assert forall j :: 0 <= j < i + 1 ==> players[j].id != id by {
          forall j | 0 <= j < i + 1 ensures players[j].id != id {
            if j > 0 { assert players[j] == players[1..][j - 1]; }
          }
        }
        r
      else
        assert forall i :: 0 <= i < |players| ==> players[i].id != id by {
          forall i | 0 <= i < |players| ensures players[i].id != id {
            if i > 0 { assert players[i] == players[1..][i - 1]; }
          }
        }
        r
  }

  /** A leaderboard as sent to a client: one row per model row, in the same
      order, carrying the player's name and the same score. The name comes
      from the row's player record, looked up in the registry; a row whose
      player is not registered has no name to show. */
  function BoardToContract(b: Models.LeaderBoard, players: seq<Models.Player>)
    : (r: Result<Contracts.LeaderBoard>)
    ensures r.Success? <==> forall i :: 0 <= i < |b.rows| ==> FindPlayer(players, b.rows[i].playerId).Some?
    ensures r.Failure? ==> r.error == PlayerNotFound
    ensures r.Success? ==> |r.value.rows| == |b.rows|
    ensures r.Success? ==> forall i :: 0 <= i < |b.rows| ==>
              && r.value.rows[i].playerScore == b.rows[i].playerScore
              && r.value.rows[i].playerName == FindPlayer(players, b.rows[i].playerId).value.name
    decreases |b.rows|
  {
    if |b.rows| == 0 then Success(Contracts.LeaderBoard([]))
    else
      match FindPlayer(players, b.rows[0].playerId)
      case None => Failure(PlayerNotFound)
      case Some(p) =>
        var rest := BoardToContract(Models.LeaderBoard(b.rows[1..]), players);
        if rest.Failure? then
          ghost var k :| 0 <= k < |b.rows[1..]| && !FindPlayer(players, b.rows[1..][k].playerId).Some?;
          assert b.rows[1..][k] == b.rows[k + 1];
          rest
        else
          var r := Success(Contracts.LeaderBoard([Contracts.Row(p.name, b.rows[0].playerScore)] + rest.value.rows));
          assert forall i :: 0 <= i < |b.rows| ==>
              && r.value.rows[i].playerScore == b.rows[i].playerScore
              && r.value.rows[i].playerName == FindPlayer(players, b.rows[i].playerId).value.name by {
            forall i | 0 <= i < |b.rows|
              ensures r.value.rows[i].playerScore == b.rows[i].playerScore
              ensures r.value.rows[i].playerName == FindPlayer(players, b.rows[i].playerId).value.name
            {
              if i > 0 { assert b.rows[i] == b.rows[1..][i - 1]; }
            }
          }
          r
  }
}
