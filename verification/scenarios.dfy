/** The unit tests' games (SharpJackApi.UnitTests/SharpJackApiUnitTests.cs),
    replayed on the model with the clock as an explicit instant. */
module Scenarios {
  import opened Outcomes
  import opened Models
  import Contracts
  import opened GameService
  import opened Converters
  import opened Evaluation
  import opened Ranking
  import opened Scoring

  // ------------------------------------------------- the two-player test

  /** Ben (player 0) creates a one-round game for at most two players, with
      one-second windows to ask and to answer. */
  const TwoPlayerOptions := Contracts.GameOptions(0, 2, 1, 1, 1, 0)

  const SeasonsQuestion := Question(0, "How many seasons of Star Trek: Deep Space Nine?", 7, 0)

  const EpisodesQuestion := Question(0, "How many episodes of DS9?", 176, 1)

  /** The game once Jake (player 1) has joined. */
  function TwoPlayerLobby(): Game {
    Game(0, TwoPlayerOptions, Contracts.Created, 0, 0, [0, 1],
         LeaderBoard([Row(0, 0), Row(0, 1)]), None, [], 0)
  }

  /** Registering Ben, creating his game, registering Jake and letting him
      join gives a registry with ids 0 and 1 and a single game in the
      lobby. */
  lemma TwoPlayerSetup(t: int)
    ensures var (s1, ben) := AddPlayer(Service([], []), "Benjamin Sisko");
            && ben.id == 0
            && CreateGame(s1, TwoPlayerOptions).Success?
            && var (s2, g) := CreateGame(s1, TwoPlayerOptions).value;
            && g.id == 0
            && var (s3, jake) := AddPlayer(s2, "Jake Sisko");
            && jake.id == 1
            && JoinOrStartGame(s3, 0, jake.id, t)
                 == Success(Service([Player(0, "Benjamin Sisko"), Player(1, "Jake Sisko")], [TwoPlayerLobby()]))
  {
    var (s1, ben) := AddPlayer(Service([], []), "Benjamin Sisko");
    assert s1.players == [ben] && s1.games == [];
    assert FindPlayer(s1.players, 0) == Some(ben);
    assert CreateGame(s1, TwoPlayerOptions).Success?;
    var (s2, g) := CreateGame(s1, TwoPlayerOptions).value;
    assert g == NewGame(0, TwoPlayerOptions, 0);
    var (s3, jake) := AddPlayer(s2, "Jake Sisko");
    assert s3.players == [ben, jake] && s3.games == [g];
    assert FindPlayer(s3.players, 1) == Some(jake) by {
      assert s3.players[1..] == [jake];
    }
    var g' := JoinOrStart(g, 1, t).value;
    assert g'.players == [0, 1] && g'.board.rows == [Row(0, 0), Row(0, 1)];
    assert g' == TwoPlayerLobby();
    assert s3.games[0 := g'] == [g'];
    assert JoinOrStartGame(s3, 0, jake.id, t) == Success(s3.(games := [g']));
  }

  /** A lone answer ranks first and scores one plus its time bonus. */
  lemma LoneAnswerScored(a: Answer, correct: int, deadline: int)
    ensures ScoreAnswers([a], correct, deadline) == [a.(score := 1 + deadline - a.submitTime)]
  {
    assert OrderByCloseness([a], correct) == [a];
  }

  /** Ben starts the game at instant `t` and asks; Jake answers 5 in the
      same second and learns the answer 7. When the window has closed, one
      second later, Jake has scored 2 (the only answer, plus one second to
      spare), Ben nothing, and the turn passes to Jake. */
  lemma TwoPlayerFirstQuestion(t: int)
    ensures JoinOrStart(TwoPlayerLobby(), 0, t).Success?
    ensures var started := JoinOrStart(TwoPlayerLobby(), 0, t).value;
            && started.state == Contracts.Active && started.activePlayer == 0 && started.activeUntil == t + 1
            && Ask(started, SeasonsQuestion, t).Success?
            && var asked := Ask(started, SeasonsQuestion, t).value;
            && Submit(asked, Answer(0, 1, 5, 0, 0), t).Success?
            && var (answered, reply) := Submit(asked, Answer(0, 1, 5, 0, 0), t).value;
            && reply.value == 7
            && answered.answers == [Answer(0, 1, 5, t, 0)]
            && Evaluate(answered, t + 1).Success?
            && var next := Evaluate(answered, t + 1).value;
            && next.board.rows == [Row(0, 0), Row(2, 1)]
            && next.activePlayer == 1 && next.activeUntil == t + 2
            && next.state == Contracts.Active && next.currentRound == 0
            && next == TwoPlayerSecondTurn(t)
  {
    var started := JoinOrStart(TwoPlayerLobby(), 0, t).value;
    var asked := Ask(started, SeasonsQuestion, t).value;
    var answered := Submit(asked, Answer(0, 1, 5, 0, 0), t).value.0;
    var jakes := Answer(0, 1, 5, t, 0);
    LoneAnswerScored(jakes, 7, t + 1);
    var scored := ScoreAnswers([jakes], 7, t + 1);
    assert FirstBy(scored, 1) == Some(0);
    assert answered.answers == [jakes] && answered.activeUntil == t + 1;
    assert answered.activeQuestion == Some(SeasonsQuestion) && answered.activePlayer == 0;
    assert Gain(scored, 1) == 2;
    assert CloseQuestion(answered).Success?;
    var closed := CloseQuestion(answered).value;
    assert closed.board.rows[1] == Row(2, 1);
    assert closed.board.rows == [Row(0, 0), Row(2, 1)];
  }

  /** The game after the first question, as `TwoPlayerFirstQuestion`
      leaves it. */
  function TwoPlayerSecondTurn(t: int): Game {
    Game(0, TwoPlayerOptions, Contracts.Active, 1, t + 2, [0, 1],
         LeaderBoard([Row(0, 0), Row(2, 1)]), None, [], 0)
  }

  /** Jake asks at instant t + 1 and Ben answers 180 in the same second.
      When the window has closed Ben has scored 2, the turn is back with
      the first participant, which ends the only round: the game is
      completed. */
  lemma TwoPlayerSecondQuestion(t: int)
    ensures Ask(TwoPlayerSecondTurn(t), EpisodesQuestion, t + 1).Success?
    ensures var asked := Ask(TwoPlayerSecondTurn(t), EpisodesQuestion, t + 1).value;
            && Submit(asked, Answer(0, 0, 180, 0, 0), t + 1).Success?
            && var (answered, reply) := Submit(asked, Answer(0, 0, 180, 0, 0), t + 1).value;
            && reply.value == 176
            && Evaluate(answered, t + 2).Success?
            && var last := Evaluate(answered, t + 2).value;
            && last.board.rows == [Row(2, 0), Row(2, 1)]
            && last.activePlayer == 0 && last.currentRound == 1
            && last.state == Contracts.Completed
  {
    TwoPlayerSecondAnswer(t);
    TwoPlayerLastEvaluation(t);
  }

  /** The second question, open and answered by Ben. */
  function TwoPlayerSecondAnswered(t: int): Game {
    Game(0, TwoPlayerOptions, Contracts.Active, 1, t + 2, [0, 1],
         LeaderBoard([Row(0, 0), Row(2, 1)]), Some(EpisodesQuestion), [Answer(0, 0, 180, t + 1, 0)], 0)
  }

  lemma TwoPlayerSecondAnswer(t: int)
    ensures Ask(TwoPlayerSecondTurn(t), EpisodesQuestion, t + 1).Success?
    ensures var asked := Ask(TwoPlayerSecondTurn(t), EpisodesQuestion, t + 1).value;
            Submit(asked, Answer(0, 0, 180, 0, 0), t + 1)
              == Success((TwoPlayerSecondAnswered(t), Answer(0, 1, 176, 0, 0)))
  {
    var asked := Ask(TwoPlayerSecondTurn(t), EpisodesQuestion, t + 1).value;
    assert asked == TwoPlayerSecondTurn(t).(activeQuestion := Some(EpisodesQuestion), activeUntil := t + 2);
    assert [Answer(0, 0, 180, t + 1, 0)] == [] + [Answer(0, 0, 180, 0, 0).(submitTime := t + 1)];
  }

  lemma TwoPlayerLastEvaluation(t: int)
    ensures Evaluate(TwoPlayerSecondAnswered(t), t + 2)
         == Success(Game(0, TwoPlayerOptions, Contracts.Completed, 0, t + 3, [0, 1],
                         LeaderBoard([Row(2, 0), Row(2, 1)]), None, [], 1))
  {
    var answered := TwoPlayerSecondAnswered(t);
    var bens := Answer(0, 0, 180, t + 1, 0);
    LoneAnswerScored(bens, 176, t + 2);
    var scored := ScoreAnswers([bens], 176, t + 2);
    assert FirstBy(scored, 0) == Some(0);
    assert Gain(scored, 0) == 2;
    assert CloseQuestion(answered).Success?;
    var closed := CloseQuestion(answered).value;
    assert closed.board.rows[0] == Row(2, 0);
    assert closed.board.rows == [Row(2, 0), Row(2, 1)];
  }

  // ------------------------------------------------------- boundary cases

  /** A creator alone cannot start the game. */
  lemma CreatorAloneCannotStart(now: int)
    ensures JoinOrStart(NewGame(0, TwoPlayerOptions, 0), 0, now) == Failure(TooFewPlayers)
  {
  }

  /** An answer exactly at the deadline is in time; one a second later is
      too late and leaves the game as it was. */
  lemma AnswerDeadlineIsInclusive(t: int)
    ensures var asked := Ask(JoinOrStart(TwoPlayerLobby(), 0, t).value, SeasonsQuestion, t).value;
            && asked.activeUntil == t + 1
            && Submit(asked, Answer(0, 1, 5, 0, 0), t + 1).Success?
            && Submit(asked, Answer(0, 1, 5, 0, 0), t + 2) == Failure(TooLate)
  {
  }

  /** "Game full" only refuses once participants EXCEED the maximum, so a
      game for two players admits a third; after that the creator can no
      longer start it either. */
  lemma FullGameAdmitsOneMore(now: int)
    ensures JoinOrStart(TwoPlayerLobby(), 2, now).Success?
    ensures |JoinOrStart(TwoPlayerLobby(), 2, now).value.players| == 3
    ensures JoinOrStart(JoinOrStart(TwoPlayerLobby(), 2, now).value, 3, now) == Failure(GameFull)
    ensures JoinOrStart(JoinOrStart(TwoPlayerLobby(), 2, now).value, 0, now) == Failure(GameFull)
  {
  }
}
